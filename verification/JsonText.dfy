// C strings, and the pieces of JSON text that need no tree: white space, hexadecimal digits, UTF-8.
module JsonText {
  import opened Wrappers

  // A character of a C string. A text never contains its own terminator.
  type Char = c: int | 0 < c < 256 witness 1

  const QUOTE: Char := 34
  const BACKSLASH: Char := 92
  const COMMA: Char := 44
  const COLON: Char := 58
  const MINUS: Char := 45
  const PLUS: Char := 43
  const POINT: Char := 46
  const SPACE: Char := 32
  const TAB: Char := 9
  const NEWLINE: Char := 10
  const RETURN: Char := 13
  const BACKSPACE: Char := 8
  const FORMFEED: Char := 12
  const ZERO: Char := 48
  const LBRACKET: Char := 91
  const RBRACKET: Char := 93
  const LBRACE: Char := 123
  const RBRACE: Char := 125
  const LETTER_B: Char := 98
  const LETTER_E: Char := 101
  const LETTER_F: Char := 102
  const LETTER_N: Char := 110
  const LETTER_R: Char := 114
  const LETTER_T: Char := 116
  const LETTER_U: Char := 117
  const CAPITAL_E: Char := 69
  const NULL_TEXT: seq<Char> := [110, 117, 108, 108]
  const FALSE_TEXT: seq<Char> := [102, 97, 108, 115, 101]
  const TRUE_TEXT: seq<Char> := [116, 114, 117, 101]

  // The byte a pointer reads; the terminator is at |text|.
  function At(text: seq<Char>, p: nat): Byte
    requires p <= |text|
  {
    if p < |text| then text[p] else 0
  }

  predicate IsDigit(c: Byte) {
    48 <= c <= 57
  }

  // `s` stands in the text at `p`.
  ghost predicate StandsAt(text: seq<Char>, p: nat, s: seq<Char>) {
    p + |s| <= |text| && forall k :: 0 <= k < |s| ==> text[p + k] == s[k]
  }

  lemma StandsSplit(text: seq<Char>, p: nat, s: seq<Char>, t: seq<Char>)
    requires StandsAt(text, p, s + t)
    ensures StandsAt(text, p, s) && StandsAt(text, p + |s|, t)
  {
    assert forall k :: 0 <= k < |s| ==> (s + t)[k] == s[k];
    forall k | 0 <= k < |t|
      ensures text[p + |s| + k] == t[k]
    {
      assert (s + t)[|s| + k] == t[k];
    }
  }

  lemma StandsChar(text: seq<Char>, p: nat, s: seq<Char>, k: nat)
    requires StandsAt(text, p, s) && k < |s|
    ensures p + k < |text| && text[p + k] == s[k]
  {
  }

  // ---------- white space ----------

  // skip: the first position at or after `p` that holds no white space.
  function Skip(text: seq<Char>, p: nat): (q: nat)
    requires p <= |text|
    ensures p <= q <= |text|
    ensures At(text, q) == 0 || At(text, q) > SPACE
    decreases |text| - p
  {
    if p < |text| && text[p] <= SPACE then Skip(text, p + 1) else p
  }

  predicate Blank(s: seq<Char>) {
    forall i :: 0 <= i < |s| ==> s[i] <= SPACE
  }

  lemma {:induction false} SkipBlank(text: seq<Char>, p: nat, s: seq<Char>)
    requires StandsAt(text, p, s) && Blank(s)
    ensures Skip(text, p) == Skip(text, p + |s|)
    decreases |s|
  {
    if s != [] {
      assert s == [s[0]] + s[1..];
      StandsSplit(text, p, [s[0]], s[1..]);
      StandsChar(text, p, s, 0);
      SkipBlank(text, p + 1, s[1..]);
    }
  }

  lemma SkipNothing(text: seq<Char>, p: nat)
    requires p <= |text| && (At(text, p) == 0 || At(text, p) > SPACE)
    ensures Skip(text, p) == p
  {
  }

  method SkipSpace(text: seq<Char>, start: nat) returns (p: nat)
    requires start <= |text|
    ensures p == Skip(text, start)
  {
    p := start;
    while p < |text| && text[p] <= SPACE
      invariant start <= p <= |text| && Skip(text, p) == Skip(text, start)
    {
      p := p + 1;
    }
  }

  // ---------- hexadecimal digits ----------

  function HexDigitValue(c: Byte): Option<nat> {
    if 48 <= c <= 57 then Some(c - 48)
    else if 97 <= c <= 102 then Some(10 + c - 97)
    else if 65 <= c <= 70 then Some(10 + c - 65)
    else None
  }

  // ParseHex: up to `digits` hexadecimal digits from `p`, added to the value `acc` read so far.
  function Hex(text: seq<Char>, p: nat, digits: nat, acc: nat): (r: (nat, nat))
    requires p <= |text|
    ensures p <= r.1 <= |text| && r.1 <= p + digits
    decreases digits
  {
    if digits > 0 && HexDigitValue(At(text, p)).Some?
    then Hex(text, p + 1, digits - 1, acc * 16 + HexDigitValue(At(text, p)).value)
    else (acc, p)
  }

  method ParseHex(text: seq<Char>, start: nat, digits: nat) returns (val: nat, p: nat)
    requires start <= |text|
    ensures (val, p) == Hex(text, start, digits, 0)
  {
    val, p := 0, start;
    var count := 0;
    while count < digits
      invariant count <= digits && start <= p <= |text|
      invariant Hex(text, p, digits - count, val) == Hex(text, start, digits, 0)
    {
      var v := HexDigitValue(At(text, p));
      if v.None? {
        break;
      }
      val := val * 16 + v.value;
      count, p := count + 1, p + 1;
    }
  }

  // ---------- UTF-8 (section 3 of RFC 3629) ----------

  const MAX_SCALAR: nat := 0x10FFFF

  // The number of octets of a code point.
  function Utf8Length(uc: nat): (n: nat)
    ensures 1 <= n <= 4
  {
    if uc < 0x80 then 1 else if uc < 0x800 then 2 else if uc < 0x10000 then 3 else 4
  }

  // The octets of a code point, by the table of the standard.
  function Utf8(uc: nat): (s: seq<Char>)
    requires 0 < uc <= MAX_SCALAR
    ensures |s| == Utf8Length(uc)
  {
    if uc < 0x80 then [uc]
    else if uc < 0x800 then [0xC0 + uc / 64, 0x80 + uc % 64]
    else if uc < 0x10000 then [0xE0 + uc / 4096, 0x80 + uc / 64 % 64, 0x80 + uc % 64]
    else [0xF0 + uc / 262144, 0x80 + uc / 4096 % 64, 0x80 + uc / 64 % 64, 0x80 + uc % 64]
  }

  function Utf8All(ucs: seq<nat>): seq<Char>
    requires forall i :: 0 <= i < |ucs| ==> 0 < ucs[i] <= MAX_SCALAR
  {
    if ucs == [] then [] else Utf8(ucs[0]) + Utf8All(ucs[1..])
  }

  // Reads one code point back; None when the octets are not the beginning of a character.
  function DecodeUtf8(s: seq<Char>): Option<(nat, nat)> {
    if s == [] then None
    else if s[0] < 0x80 then Some((s[0], 1))
    else if 0xC0 <= s[0] < 0xE0 && |s| >= 2 && Trails(s, 1) then
      Some(((s[0] as int - 0xC0) * 64 + (s[1] as int - 0x80), 2))
    else if 0xE0 <= s[0] < 0xF0 && |s| >= 3 && Trails(s, 1) && Trails(s, 2) then
      Some(((s[0] as int - 0xE0) * 4096 + (s[1] as int - 0x80) * 64 + (s[2] as int - 0x80), 3))
    else if 0xF0 <= s[0] && |s| >= 4 && Trails(s, 1) && Trails(s, 2) && Trails(s, 3) then
      Some(((s[0] as int - 0xF0) * 262144 + (s[1] as int - 0x80) * 4096 + (s[2] as int - 0x80) * 64 + (s[3] as int - 0x80), 4))
    else None
  }

  predicate Trails(s: seq<Char>, k: nat)
    requires k < |s|
  {
    0x80 <= s[k] < 0xC0
  }

  function DecodeAllUtf8(s: seq<Char>): Option<seq<nat>>
    decreases |s|
  {
    if s == [] then Some([])
    else
      match DecodeUtf8(s)
      case None => None
      case Some((uc, n)) =>
        match DecodeAllUtf8(s[n..])
        case None => None
        case Some(rest) => Some([uc] + rest)
  }

  lemma Utf8Decodes(uc: nat, rest: seq<Char>)
    requires 0 < uc <= MAX_SCALAR
    ensures DecodeUtf8(Utf8(uc) + rest) == Some((uc, |Utf8(uc)|))
  {
    assert uc == uc / 64 * 64 + uc % 64;
    assert uc / 64 == uc / 4096 * 64 + uc / 64 % 64;
    assert uc / 4096 == uc / 262144 * 64 + uc / 4096 % 64;
  }

  // The encoding loses nothing.
  lemma {:induction false} Utf8AllDecodes(ucs: seq<nat>)
    requires forall i :: 0 <= i < |ucs| ==> 0 < ucs[i] <= MAX_SCALAR
    ensures DecodeAllUtf8(Utf8All(ucs)) == Some(ucs)
    decreases |ucs|
  {
    if ucs != [] {
      var s, rest := Utf8(ucs[0]), Utf8All(ucs[1..]);
      Utf8Decodes(ucs[0], rest);
      assert (s + rest)[|s|..] == rest;
      Utf8AllDecodes(ucs[1..]);
      assert ucs == [ucs[0]] + ucs[1..];
    }
  }

  lemma Shifts(uc: nat)
    ensures uc / 64 / 64 == uc / 4096 && uc / 4096 / 64 == uc / 262144
  {
  }

  // The last octets of a character, written from the last to the first; `p` is one past the octet to write.
  method WriteTrail(out: array<Byte>, p: nat, uc: nat) returns (p': nat, uc': nat)
    requires 0 < p <= out.Length
    modifies out
    ensures p' == p - 1 && uc' == uc / 64 && out[p'] == 0x80 + uc % 64
    ensures forall k :: 0 <= k < out.Length && k != p' ==> out[k] == old(out[k])
  {
    p' := p - 1;
    out[p'] := 0x80 + uc % 64;
    uc' := uc / 64;
  }

  // The transcoding of the original: reserve the octets, then write them backwards, falling through from
  // the longer forms to the shorter ones.
  method WriteUtf8(out: array<Byte>, at: nat, code: nat) returns (next: nat)
    requires 0 < code <= MAX_SCALAR
    requires at + Utf8Length(code) <= out.Length
    modifies out
    ensures next == at + Utf8Length(code)
    ensures out[at..next] == Utf8(code)
    ensures forall k :: 0 <= k < at || next <= k < out.Length ==> out[k] == old(out[k])
  {
    var uc: nat := code;
    var len := 4;
    if uc < 0x80 {
      len := 1;
    } else if uc < 0x800 {
      len := 2;
    } else if uc < 0x10000 {
      len := 3;
    }
    var p := at + len;
    Shifts(code);
    if len >= 4 {
      p, uc := WriteTrail(out, p, uc);
    }
    if len >= 3 {
      p, uc := WriteTrail(out, p, uc);
    }
    if len >= 2 {
      p, uc := WriteTrail(out, p, uc);
    }
    p := p - 1;
    assert uc == code / (if len == 1 then 1 else if len == 2 then 64 else if len == 3 then 4096 else 262144);
    out[p] := uc + FIRST_BYTE_MARK[len];
    next := p + len;
    assert |out[at..next]| == |Utf8(code)| == len;
    assert forall k :: 0 <= k < len ==> out[at..next][k] == out[at + k] == Utf8(code)[k];
  }

  const FIRST_BYTE_MARK: seq<Byte> := [0x00, 0x00, 0xC0, 0xE0, 0xF0, 0xF8, 0xFC]
}
