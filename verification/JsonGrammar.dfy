// What the recursive-descent parser of OVR_JSON.cpp reads, as functions of the text and a position.
// `Overrun` stands for a parser that has stepped past the terminator of the text, from where on the
// original reads memory that is not part of it.
module JsonGrammar {
  import opened Wrappers
  import opened JsonText

  // A node without its links: type, value and children.
  datatype Json =
    | Null
    | Bool(b: bool)
    | Number(d: real)
    | Str(s: seq<Char>)
    | Arr(items: seq<Json>)
    | Obj(members: seq<Member>)

  datatype Member = Member(name: seq<Char>, value: Json)

  datatype Error =
    | InvalidSyntax | MissingQuote | MissingColon | FailedToAllocate
    | MissingOpeningBracket | MissingEndingBracket | MissingOpeningBrace | MissingClosingBrace

  datatype Parsed<T> = Ok(next: nat, value: T) | Fail(error: Error) | Overrun

  // ---------- strings ----------

  // parseString first walks over the string to see how much memory it needs.
  datatype Extent = Upto(stop: nat, len: nat) | BeyondEnd

  function Measure(text: seq<Char>, p: nat): (r: Extent)
    requires p <= |text|
    ensures r.Upto? ==> p <= r.stop <= |text|
    decreases |text| - p
  {
    if At(text, p) == QUOTE || At(text, p) == 0 then Upto(p, 0)
    else if text[p] == BACKSLASH then
      if p + 1 == |text| then BeyondEnd else OneMore(Measure(text, p + 2))
    else OneMore(Measure(text, p + 1))
  }

  function OneMore(e: Extent): Extent {
    if e.Upto? then Upto(e.stop, e.len + 1) else e
  }

  // A \u escape at `p`, with the second half of a surrogate pair if there is one: where it ends and what
  // it stands for. Malformed escapes stand for nothing.
  function UnicodeEscape(text: seq<Char>, p: nat): (r: (nat, seq<Char>))
    requires p + 1 < |text|
    ensures p + 2 <= r.0 <= |text|
    ensures |r.1| <= 4
  {
    var (uc, h) := Hex(text, p + 2, 4, 0);
    HexBound(text, p + 2, 4, 0);
    if 0xDC00 <= uc <= 0xDFFF || uc == 0 then (h, [])
    else if 0xD800 <= uc <= 0xDBFF then
      if At(text, h) != BACKSLASH || At(text, h + 1) != LETTER_U then (h, [])
      else
        var (uc2, h2) := Hex(text, h + 2, 4, 0);
        if uc2 < 0xDC00 || uc2 > 0xDFFF then (h2, [])
        else (h2, Utf8(0x10000 + uc % 1024 * 1024 + uc2 % 1024))
    else (h, Utf8(uc))
  }

  lemma {:induction false} HexBound(text: seq<Char>, p: nat, digits: nat, acc: nat)
    requires p <= |text| && digits <= 4
    requires acc < (if digits == 4 then 1 else if digits == 3 then 16 else if digits == 2 then 256
                    else if digits == 1 then 4096 else 65536)
    ensures Hex(text, p, digits, acc).0 < 65536
    decreases digits
  {
    if digits > 0 && HexDigitValue(At(text, p)).Some? {
      HexBound(text, p + 1, digits - 1, acc * 16 + HexDigitValue(At(text, p)).value);
    }
  }

  // What a backslash and the character after it stand for, except after \u.
  function SimpleEscape(c: Char): Char {
    if c == LETTER_B then BACKSPACE
    else if c == LETTER_F then FORMFEED
    else if c == LETTER_N then NEWLINE
    else if c == LETTER_R then RETURN
    else if c == LETTER_T then TAB
    else c
  }

  function Before(s: seq<Char>, r: Parsed<seq<Char>>): Parsed<seq<Char>> {
    if r.Ok? then Ok(r.next, s + r.value) else r
  }

  lemma BeforeBefore(s: seq<Char>, t: seq<Char>, r: Parsed<seq<Char>>)
    ensures Before(s, Before(t, r)) == Before(s + t, r)
  {
    if r.Ok? {
      assert s + (t + r.value) == s + t + r.value;
    }
  }

  // The rest of a string from `p`; it ends after the closing quote, or at the end of the text.
  function Unescape(text: seq<Char>, p: nat): (r: Parsed<seq<Char>>)
    requires p <= |text|
    ensures !r.Fail? && (r.Ok? ==> p <= r.next <= |text|)
    decreases |text| - p
  {
    if At(text, p) == 0 then Ok(p, [])
    else if text[p] == QUOTE then Ok(p + 1, [])
    else if text[p] != BACKSLASH then Before([text[p]], Unescape(text, p + 1))
    else if p + 1 == |text| then Overrun
    else if text[p + 1] == LETTER_U then
      var (next, s) := UnicodeEscape(text, p);
      Before(s, Unescape(text, next))
    else Before([SimpleEscape(text[p + 1])], Unescape(text, p + 2))
  }

  function StringAt(text: seq<Char>, p: nat): (r: Parsed<seq<Char>>)
    requires p <= |text|
    ensures r.Ok? ==> p < r.next <= |text|
  {
    if At(text, p) != QUOTE then Fail(MissingQuote) else Unescape(text, p + 1)
  }

  // ---------- numbers ----------

  // The end of a run of decimal digits.
  function DigitsEnd(text: seq<Char>, p: nat): (q: nat)
    requires p <= |text|
    ensures p <= q <= |text| && !IsDigit(At(text, q))
    ensures forall k :: p <= k < q ==> IsDigit(text[k])
    decreases |text| - p
  {
    if IsDigit(At(text, p)) then DigitsEnd(text, p + 1) else p
  }

  // `acc` continued by the digits of text[from..end].
  function Decimal(text: seq<Char>, from: nat, end: nat, acc: nat): nat
    requires from <= end <= |text|
    requires forall k :: from <= k < end ==> IsDigit(text[k])
    decreases end - from
  {
    if from == end then acc
    else
      assert IsDigit(text[end - 1]);
      Decimal(text, from, end - 1, acc) * 10 + (text[end - 1] as int - 48)
  }

  function Pow10(e: int): real
    decreases if e < 0 then -e else e
  {
    if e == 0 then 1.0 else if e > 0 then 10.0 * Pow10(e - 1) else Pow10(e + 1) / 10.0
  }

  // The mantissa: where it ends, its digits as one number, and how many of them follow the point.
  function Mantissa(text: seq<Char>, p: nat): (r: (nat, nat, nat))
    requires p <= |text|
    ensures p <= r.0 <= |text|
    ensures IsDigit(At(text, p)) ==> p < r.0
  {
    var p1 := if At(text, p) == ZERO then p + 1 else p;
    var p2 := if IsDigit(At(text, p1)) && At(text, p1) != ZERO then DigitsEnd(text, p1) else p1;
    var n := Decimal(text, p1, p2, 0);
    if At(text, p2) == POINT && IsDigit(At(text, p2 + 1)) then
      var p3 := DigitsEnd(text, p2 + 1);
      (p3, Decimal(text, p2 + 1, p3, n), p3 - (p2 + 1))
    else (p2, n, 0)
  }

  // The exponent: where it ends and its value.
  function Exponent(text: seq<Char>, p: nat): (r: (nat, int))
    requires p <= |text|
    ensures p <= r.0 <= |text|
  {
    if At(text, p) == LETTER_E || At(text, p) == CAPITAL_E then
      var q := if At(text, p + 1) == PLUS || At(text, p + 1) == MINUS then p + 2 else p + 1;
      var e: int := Decimal(text, q, DigitsEnd(text, q), 0);
      (DigitsEnd(text, q), if At(text, p + 1) == MINUS then -e else e)
    else (p, 0)
  }

  function Scaled(sign: real, n: nat, exponent: int): real {
    sign * n as real * Pow10(exponent)
  }

  function NumberAt(text: seq<Char>, p: nat): (r: (nat, real))
    requires p <= |text|
    ensures p <= r.0 <= |text|
    ensures At(text, p) == MINUS || IsDigit(At(text, p)) ==> p < r.0
  {
    var q := if At(text, p) == MINUS then p + 1 else p;
    var (m, n, scale) := Mantissa(text, q);
    var (next, e) := Exponent(text, m);
    (next, Scaled(if At(text, p) == MINUS then -1.0 else 1.0, n, e - scale))
  }

  // ---------- values ----------

  predicate StartsWith(text: seq<Char>, p: nat, s: seq<Char>) {
    p + |s| <= |text| && text[p..p + |s|] == s
  }

  function ValueAt(text: seq<Char>, p: nat): (r: Parsed<Json>)
    requires p <= |text|
    ensures r.Ok? ==> p < r.next <= |text|
    decreases |text| - p, 1
  {
    if StartsWith(text, p, NULL_TEXT) then Ok(p + 4, Null)
    else if StartsWith(text, p, FALSE_TEXT) then Ok(p + 5, Bool(false))
    else if StartsWith(text, p, TRUE_TEXT) then Ok(p + 4, Bool(true))
    else if At(text, p) == QUOTE then
      match StringAt(text, p)
      case Ok(next, s) => Ok(next, Str(s))
      case Fail(e) => Fail(e)
      case Overrun => Overrun
    else if At(text, p) == MINUS || IsDigit(At(text, p)) then
      var (next, d) := NumberAt(text, p);
      Ok(next, Number(d))
    else if At(text, p) == LBRACKET then ArrayAt(text, p)
    else if At(text, p) == LBRACE then ObjectAt(text, p)
    else Fail(InvalidSyntax)
  }

  function ArrayAt(text: seq<Char>, p: nat): (r: Parsed<Json>)
    requires p <= |text|
    ensures r.Ok? ==> p < r.next <= |text|
    decreases |text| - p, 0
  {
    if At(text, p) != LBRACKET then Fail(MissingOpeningBracket)
    else
      var q := Skip(text, p + 1);
      if At(text, q) == RBRACKET then Ok(q + 1, Arr([]))
      else
        match ValueAt(text, Skip(text, q))
        case Fail(e) => Fail(e)
        case Overrun => Overrun
        case Ok(next, first) =>
          match ItemsAt(text, Skip(text, next))
          case Fail(e) => Fail(e)
          case Overrun => Overrun
          case Ok(end, rest) => Ok(end, Arr([first] + rest))
  }

  // The loop of parseArray: from the comma or bracket after an element. A failing element is reported as a
  // failed allocation.
  function ItemsAt(text: seq<Char>, p: nat): (r: Parsed<seq<Json>>)
    requires p <= |text|
    ensures r.Ok? ==> p < r.next <= |text|
    decreases |text| - p, 0
  {
    if At(text, p) == COMMA then
      match ValueAt(text, Skip(text, p + 1))
      case Fail(_) => Fail(FailedToAllocate)
      case Overrun => Overrun
      case Ok(next, first) =>
        match ItemsAt(text, Skip(text, next))
        case Fail(e) => Fail(e)
        case Overrun => Overrun
        case Ok(end, rest) => Ok(end, [first] + rest)
    else if At(text, p) == RBRACKET then Ok(p + 1, [])
    else Fail(MissingEndingBracket)
  }

  function ObjectAt(text: seq<Char>, p: nat): (r: Parsed<Json>)
    requires p <= |text|
    ensures r.Ok? ==> p < r.next <= |text|
    decreases |text| - p, 0
  {
    if At(text, p) != LBRACE then Fail(MissingOpeningBrace)
    else
      var q := Skip(text, p + 1);
      if At(text, q) == RBRACE then Ok(q + 1, Obj([]))
      else
        match MemberAt(text, Skip(text, q))
        case Fail(e) => Fail(e)
        case Overrun => Overrun
        case Ok(next, first) =>
          match MembersAt(text, Skip(text, next))
          case Fail(e) => Fail(e)
          case Overrun => Overrun
          case Ok(end, rest) => Ok(end, Obj([first] + rest))
  }

  // Name, colon and value.
  function MemberAt(text: seq<Char>, p: nat): (r: Parsed<Member>)
    requires p <= |text|
    ensures r.Ok? ==> p < r.next <= |text|
    decreases |text| - p, 2
  {
    match StringAt(text, p)
    case Fail(e) => Fail(e)
    case Overrun => Overrun
    case Ok(next, name) =>
      var q := Skip(text, next);
      if At(text, q) != COLON then Fail(MissingColon)
      else
        match ValueAt(text, Skip(text, q + 1))
        case Fail(e) => Fail(e)
        case Overrun => Overrun
        case Ok(end, v) => Ok(end, Member(name, v))
  }

  // The loop of parseObject.
  function MembersAt(text: seq<Char>, p: nat): (r: Parsed<seq<Member>>)
    requires p <= |text|
    ensures r.Ok? ==> p < r.next <= |text|
    decreases |text| - p, 0
  {
    if At(text, p) == COMMA then
      match MemberAt(text, Skip(text, p + 1))
      case Fail(e) => Fail(e)
      case Overrun => Overrun
      case Ok(next, first) =>
        match MembersAt(text, Skip(text, next))
        case Fail(e) => Fail(e)
        case Overrun => Overrun
        case Ok(end, rest) => Ok(end, [first] + rest)
    else if At(text, p) == RBRACE then Ok(p + 1, [])
    else Fail(MissingClosingBrace)
  }

  // JSON::Parse. What follows the value is not looked at.
  function Document(text: seq<Char>): Parsed<Json> {
    ValueAt(text, Skip(text, 0))
  }
}
