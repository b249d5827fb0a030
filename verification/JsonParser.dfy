// The parser of OVR_JSON.cpp with its loops and its buffer, proved against the grammar.
module JsonParser {
  import opened Wrappers
  import opened JsonText
  import opened JsonGrammar
  import opened JsonUnicode

  // ---------- numbers ----------

  // A run of digits after `start`, added to `acc`.
  method ReadDigits(text: seq<Char>, start: nat, acc: nat) returns (num: nat, n: nat)
    requires start <= |text|
    ensures num == DigitsEnd(text, start) && n == Decimal(text, start, num, acc)
  {
    num, n := start, acc;
    while IsDigit(At(text, num))
      invariant start <= num <= |text| && DigitsEnd(text, num) == DigitsEnd(text, start)
      invariant forall k :: start <= k < num ==> IsDigit(text[k])
      invariant n == Decimal(text, start, num, acc)
      decreases |text| - num
    {
      n := n * 10 + (text[num] as int - 48);
      num := num + 1;
    }
  }

  // The digits before and after the point; `scale` counts down for those after it.
  method ReadMantissa(text: seq<Char>, start: nat) returns (num: nat, n: nat, scale: int)
    requires start <= |text|
    ensures scale <= 0 && (num, n, -scale) == Mantissa(text, start)
  {
    hide DigitsEnd, Decimal;
    num, n, scale := start, 0, 0;
    if At(text, num) == ZERO {
      num := num + 1;
    }
    if 49 <= At(text, num) <= 57 {
      num, n := ReadDigits(text, num, 0);
    } else {
      NoDigits(text, num);
    }
    if At(text, num) == POINT && IsDigit(At(text, num + 1)) {
      var point := num;
      num, n := ReadDigits(text, num + 1, n);
      scale := -(num - (point + 1));
    }
  }

  lemma NoDigits(text: seq<Char>, p: nat)
    requires p <= |text|
    ensures Decimal(text, p, p, 0) == 0
  {
  }

  method ReadExponent(text: seq<Char>, start: nat) returns (num: nat, exponent: int)
    requires start <= |text|
    ensures (num, exponent) == Exponent(text, start)
  {
    hide DigitsEnd, Decimal;
    num := start;
    var subscale, signsubscale: int := 0, 1;
    if At(text, num) == LETTER_E || At(text, num) == CAPITAL_E {
      num := num + 1;
      if At(text, num) == PLUS {
        num := num + 1;
      } else if At(text, num) == MINUS {
        signsubscale := -1;
        num := num + 1;
      }
      num, subscale := ReadDigits(text, num, 0);
    }
    exponent := subscale * signsubscale;
  }

  method ParseNumber(text: seq<Char>, start: nat) returns (num: nat, d: real)
    requires start <= |text|
    ensures (num, d) == NumberAt(text, start)
  {
    hide Mantissa, Exponent, Scaled;
    num := start;
    var sign: real := 1.0;
    if At(text, num) == MINUS {
      sign := -1.0;
      num := num + 1;
    }
    var n, scale, exponent;
    num, n, scale := ReadMantissa(text, num);
    num, exponent := ReadExponent(text, num);
    assert scale + exponent == exponent - -scale;
    d := Scaled(sign, n, scale + exponent);
  }

  // ---------- strings ----------

  // The measuring pass; None when the pointer passes the terminator.
  method MeasureString(text: seq<Char>, start: nat) returns (r: Option<(nat, nat)>)
    requires start <= |text|
    ensures match r
            case None => Measure(text, start) == BeyondEnd
            case Some((stop, len)) => Measure(text, start) == Upto(stop, len)
  {
    var ptr, len := start, 0;
    while At(text, ptr) != QUOTE && At(text, ptr) != 0
      invariant start <= ptr <= |text|
      invariant Measure(text, start) == Shift(Measure(text, ptr), len)
      decreases |text| - ptr
    {
      len := len + 1;
      if text[ptr] == BACKSLASH {
        if ptr + 1 == |text| {
          return None;
        }
        ptr := ptr + 2;
      } else {
        ptr := ptr + 1;
      }
    }
    r := Some((ptr, len));
  }

  // One \u escape, or a surrogate pair of them, at `start`: where it ends and the code point it stands for,
  // or 0 if it stands for none.
  method ReadUnicode(text: seq<Char>, start: nat) returns (next: nat, uc: nat)
    requires start + 1 < |text|
    ensures uc <= MAX_SCALAR
    ensures (next, if uc == 0 then [] else Utf8(uc)) == UnicodeEscape(text, start)
  {
    hide Utf8, Hex;
    HexBound(text, start + 2, 4, 0);
    uc, next := ParseHex(text, start + 2, 4);
    if 0xDC00 <= uc <= 0xDFFF || uc == 0 {
      uc := 0;
      return;
    }
    if 0xD800 <= uc <= 0xDBFF {
      if At(text, next) != BACKSLASH || At(text, next + 1) != LETTER_U {
        uc := 0;
        return;
      }
      var uc2;
      uc2, next := ParseHex(text, next + 2, 4);
      if uc2 < 0xDC00 || uc2 > 0xDFFF {
        uc := 0;
        return;
      }
      uc := 0x10000 + uc % 1024 * 1024 + uc2 % 1024;
    }
  }

  // What the writing pass has left to do from `ptr` still fits: `w` octets are written.
  ghost predicate Fits(text: seq<Char>, ptr: nat, w: nat, size: nat)
    requires ptr <= |text|
  {
    Unescape(text, ptr).Ok? && w + |Unescape(text, ptr).value| < size
  }

  // One turn of the writing pass: a character, or an escape.
  method WriteOne(text: seq<Char>, start: nat, out: array<Byte>, at: nat) returns (ptr: nat, w: nat, ghost s: seq<Char>)
    requires start < |text| && text[start] != QUOTE && Fits(text, start, at, out.Length)
    modifies out
    ensures start < ptr <= |text| && at <= w <= out.Length
    ensures Unescape(text, start) == Before(s, Unescape(text, ptr))
    ensures w == at + |s| && out[at..w] == s
    ensures forall k :: 0 <= k < at ==> out[k] == old(out[k])
    ensures Fits(text, ptr, w, out.Length)
  {
    hide Utf8;
    w := at;
    if text[start] != BACKSLASH {
      s := [text[start]];
      out[w] := text[start];
      ptr, w := start + 1, w + 1;
    } else if text[start + 1] == LETTER_U {
      var uc;
      ptr, uc := ReadUnicode(text, start);
      s := if uc == 0 then [] else Utf8(uc);
      if uc != 0 {
        w := WriteUtf8(out, at, uc);
      }
    } else {
      s := [SimpleEscape(text[start + 1])];
      out[w] := SimpleEscape(text[start + 1]);
      ptr, w := start + 2, w + 1;
    }
  }

  method ParseString(text: seq<Char>, start: nat) returns (r: Parsed<seq<Char>>)
    requires start <= |text|
    ensures r == StringAt(text, start)
  {
    hide Unescape, Measure;
    if At(text, start) != QUOTE {
      return Fail(MissingQuote);
    }
    var measured := MeasureString(text, start + 1);
    PassesAgree(text, start + 1);
    if measured.None? {
      return Overrun;
    }
    var len := measured.value.1;
    var out := new Byte[len + 1];
    var ptr, w := start + 1, 0;
    ghost var done: seq<Char> := [];
    ghost var whole := Unescape(text, start + 1);
    BeforeNothing(whole);
    while At(text, ptr) != QUOTE && At(text, ptr) != 0
      invariant start < ptr <= |text| && w <= out.Length
      invariant |done| == w && out[..w] == done
      invariant whole == Before(done, Unescape(text, ptr))
      invariant Fits(text, ptr, w, out.Length)
      decreases |text| - ptr
    {
      ghost var s;
      ghost var before, at := done, w;
      ptr, w, s := WriteOne(text, ptr, out, w);
      done := before + s;
      assert out[..w] == out[..at] + out[at..w];
      BeforeBefore(before, s, Unescape(text, ptr));
    }
    AtClose(text, ptr);
    out[w] := 0;
    if At(text, ptr) == QUOTE {
      ptr := ptr + 1;
    }
    assert out[..w] == done;
    var value: seq<Char> := out[..w];
    assert done + [] == done;
    r := Ok(ptr, value);
  }

  lemma BeforeNothing(r: Parsed<seq<Char>>)
    ensures Before([], r) == r
  {
    if r.Ok? {
      assert [] + r.value == r.value;
    }
  }

  lemma AtClose(text: seq<Char>, p: nat)
    requires p <= |text| && (At(text, p) == QUOTE || At(text, p) == 0)
    ensures Unescape(text, p) == Ok(if At(text, p) == QUOTE then p + 1 else p, [])
  {
  }

  // ---------- values ----------

  method ParseValue(text: seq<Char>, start: nat) returns (r: Parsed<Json>)
    requires start <= |text|
    ensures r == ValueAt(text, start)
    decreases |text| - start, 1
  {
    hide StringAt, NumberAt, ArrayAt, ObjectAt;
    if StartsWith(text, start, NULL_TEXT) {
      return Ok(start + 4, Null);
    }
    if StartsWith(text, start, FALSE_TEXT) {
      return Ok(start + 5, Bool(false));
    }
    if StartsWith(text, start, TRUE_TEXT) {
      return Ok(start + 4, Bool(true));
    }
    if At(text, start) == QUOTE {
      var s := ParseString(text, start);
      return match s
             case Ok(next, v) => Ok(next, Str(v))
             case Fail(e) => Fail(e)
             case Overrun => Overrun;
    }
    if At(text, start) == MINUS || IsDigit(At(text, start)) {
      var next, d := ParseNumber(text, start);
      return Ok(next, Number(d));
    }
    if At(text, start) == LBRACKET {
      r := ParseArray(text, start);
      return;
    }
    if At(text, start) == LBRACE {
      r := ParseObject(text, start);
      return;
    }
    r := Fail(InvalidSyntax);
  }

  // The list read so far, in front of what the loop still reads.
  function Listed<T>(done: seq<T>, r: Parsed<seq<T>>): Parsed<seq<T>> {
    if r.Ok? then Ok(r.next, done + r.value) else r
  }

  lemma ListedOne<T>(done: seq<T>, x: T, r: Parsed<seq<T>>)
    ensures Listed(done, Listed([x], r)) == Listed(done + [x], r)
  {
    if r.Ok? {
      assert done + ([x] + r.value) == done + [x] + r.value;
    }
  }

  lemma ItemsAtComma(text: seq<Char>, p: nat)
    requires p < |text| && text[p] == COMMA
    ensures var v := ValueAt(text, Skip(text, p + 1));
            ItemsAt(text, p) == (match v
                                 case Fail(_) => Fail(FailedToAllocate)
                                 case Overrun => Overrun
                                 case Ok(next, x) => Listed([x], ItemsAt(text, Skip(text, next))))
  {
    hide ValueAt;
  }

  method ParseArray(text: seq<Char>, start: nat) returns (r: Parsed<Json>)
    requires start <= |text|
    ensures r == ArrayAt(text, start)
    decreases |text| - start, 0
  {
    hide ValueAt, ItemsAt;
    if At(text, start) != LBRACKET {
      return Fail(MissingOpeningBracket);
    }
    var buff := SkipSpace(text, start + 1);
    if At(text, buff) == RBRACKET {
      return Ok(buff + 1, Arr([]));
    }
    buff := SkipSpace(text, buff);
    var v := ParseValue(text, buff);
    if !v.Ok? {
      return if v.Fail? then Fail(v.error) else Overrun;
    }
    var items := [v.value];
    buff := SkipSpace(text, v.next);
    ghost var all := Listed([v.value], ItemsAt(text, buff));
    while At(text, buff) == COMMA
      invariant start < buff <= |text|
      invariant all == Listed(items, ItemsAt(text, buff))
      decreases |text| - buff
    {
      ItemsAtComma(text, buff);
      buff := SkipSpace(text, buff + 1);
      v := ParseValue(text, buff);
      if !v.Ok? {
        return if v.Fail? then Fail(FailedToAllocate) else Overrun;
      }
      buff := SkipSpace(text, v.next);
      ListedOne(items, v.value, ItemsAt(text, buff));
      items := items + [v.value];
    }
    ItemsAtEnd(text, buff);
    assert items + [] == items;
    r := if At(text, buff) == RBRACKET then Ok(buff + 1, Arr(items)) else Fail(MissingEndingBracket);
  }

  lemma ItemsAtEnd(text: seq<Char>, p: nat)
    requires p <= |text| && At(text, p) != COMMA
    ensures ItemsAt(text, p) == if At(text, p) == RBRACKET then Ok(p + 1, []) else Fail(MissingEndingBracket)
  {
  }

  // Name, colon and value of one member; the name is read into the child node first.
  method ParseMember(text: seq<Char>, start: nat) returns (r: Parsed<Member>)
    requires start <= |text|
    ensures r == MemberAt(text, start)
    decreases |text| - start, 2
  {
    hide StringAt, ValueAt;
    var name := ParseString(text, start);
    if !name.Ok? {
      return if name.Fail? then Fail(name.error) else Overrun;
    }
    var buff := SkipSpace(text, name.next);
    if At(text, buff) != COLON {
      return Fail(MissingColon);
    }
    buff := SkipSpace(text, buff + 1);
    var v := ParseValue(text, buff);
    r := match v
         case Fail(e) => Fail(e)
         case Overrun => Overrun
         case Ok(end, x) => Ok(end, Member(name.value, x));
  }

  lemma MembersAtComma(text: seq<Char>, p: nat)
    requires p < |text| && text[p] == COMMA
    ensures var m := MemberAt(text, Skip(text, p + 1));
            MembersAt(text, p) == (match m
                                   case Fail(e) => Fail(e)
                                   case Overrun => Overrun
                                   case Ok(next, x) => Listed([x], MembersAt(text, Skip(text, next))))
  {
    hide MemberAt;
  }

  lemma MembersAtEnd(text: seq<Char>, p: nat)
    requires p <= |text| && At(text, p) != COMMA
    ensures MembersAt(text, p) == if At(text, p) == RBRACE then Ok(p + 1, []) else Fail(MissingClosingBrace)
  {
  }

  method ParseObject(text: seq<Char>, start: nat) returns (r: Parsed<Json>)
    requires start <= |text|
    ensures r == ObjectAt(text, start)
    decreases |text| - start, 0
  {
    hide MemberAt, MembersAt;
    if At(text, start) != LBRACE {
      return Fail(MissingOpeningBrace);
    }
    var buff := SkipSpace(text, start + 1);
    if At(text, buff) == RBRACE {
      return Ok(buff + 1, Obj([]));
    }
    buff := SkipSpace(text, buff);
    var m := ParseMember(text, buff);
    if !m.Ok? {
      return if m.Fail? then Fail(m.error) else Overrun;
    }
    var members := [m.value];
    buff := SkipSpace(text, m.next);
    ghost var all := Listed([m.value], MembersAt(text, buff));
    while At(text, buff) == COMMA
      invariant start < buff <= |text|
      invariant all == Listed(members, MembersAt(text, buff))
      decreases |text| - buff
    {
      MembersAtComma(text, buff);
      buff := SkipSpace(text, buff + 1);
      m := ParseMember(text, buff);
      if !m.Ok? {
        return if m.Fail? then Fail(m.error) else Overrun;
      }
      buff := SkipSpace(text, m.next);
      ListedOne(members, m.value, MembersAt(text, buff));
      members := members + [m.value];
    }
    MembersAtEnd(text, buff);
    assert members + [] == members;
    r := if At(text, buff) == RBRACE then Ok(buff + 1, Obj(members)) else Fail(MissingClosingBrace);
  }

  method Parse(text: seq<Char>) returns (r: Parsed<Json>)
    ensures r == Document(text)
  {
    var start := SkipSpace(text, 0);
    r := ParseValue(text, start);
  }
}
