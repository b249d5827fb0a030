// The string parser on escapes: UTF-16 units become UTF-8, and the measuring pass agrees with the writing one.
module JsonUnicode {
  import opened Wrappers
  import opened JsonText
  import opened JsonGrammar
  import opened JsonPrint
  import opened JsonRoundTrip

  // ---------- UTF-16 escapes to UTF-8 ----------

  // The code points of text, without the one that ends a C string.
  predicate Scalar(c: nat) {
    0 < c <= MAX_SCALAR && !(0xD800 <= c <= 0xDFFF)
  }

  // A code point as one \u escape, or as two with a surrogate pair (section 2.2 of RFC 2781).
  function ScalarText(c: nat, upper: bool): seq<Char>
    requires Scalar(c)
  {
    if c < 0x10000 then UnitText(c, upper)
    else UnitText(0xD800 + (c - 0x10000) / 1024, upper) + UnitText(0xDC00 + (c - 0x10000) % 1024, upper)
  }

  function ScalarsText(cs: seq<nat>, upper: bool): seq<Char>
    requires forall i :: 0 <= i < |cs| ==> Scalar(cs[i])
  {
    if cs == [] then [] else ScalarText(cs[0], upper) + ScalarsText(cs[1..], upper)
  }

  lemma PairValue(c: nat)
    requires 0x10000 <= c <= MAX_SCALAR
    ensures var w1, w2 := 0xD800 + (c - 0x10000) / 1024, 0xDC00 + (c - 0x10000) % 1024;
            0xD800 <= w1 <= 0xDBFF && 0xDC00 <= w2 <= 0xDFFF && 0x10000 + w1 % 1024 * 1024 + w2 % 1024 == c
  {
    var v := c - 0x10000;
    assert v / 1024 < 1024;
    assert (0xD800 + v / 1024) % 1024 == v / 1024;
    assert (0xDC00 + v % 1024) % 1024 == v % 1024;
  }

  lemma ScalarRead(text: seq<Char>, p: nat, c: nat, upper: bool)
    requires Scalar(c) && StandsAt(text, p, ScalarText(c, upper))
    ensures Unescape(text, p) == Before(Utf8(c), Unescape(text, p + |ScalarText(c, upper)|))
  {
    hide Utf8, Hex, UnitText, StandsAt;
    if c < 0x10000 {
      UnitRead(text, p, c, upper);
      EscapeRead(text, p, c, p + 6, c);
    } else {
      var w1, w2 := 0xD800 + (c - 0x10000) / 1024, 0xDC00 + (c - 0x10000) % 1024;
      PairValue(c);
      StandsSplit(text, p, UnitText(w1, upper), UnitText(w2, upper));
      UnitRead(text, p, w1, upper);
      UnitRead(text, p + 6, w2, upper);
      StandsChar(text, p + 6, UnitText(w2, upper), 0);
      PairRead(text, p, w1, w2, c);
    }
  }

  lemma EscapeRead(text: seq<Char>, p: nat, w: nat, next: nat, c: nat)
    requires p + 1 < |text| && text[p] == BACKSLASH && text[p + 1] == LETTER_U
    requires Hex(text, p + 2, 4, 0) == (w, next) && Scalar(c) && w == c
    ensures Unescape(text, p) == Before(Utf8(c), Unescape(text, next))
  {
    hide Utf8, Hex;
  }

  lemma PairRead(text: seq<Char>, p: nat, w1: nat, w2: nat, c: nat)
    requires p + 7 < |text| && text[p] == BACKSLASH && text[p + 1] == LETTER_U
    requires text[p + 6] == BACKSLASH && text[p + 7] == LETTER_U
    requires Hex(text, p + 2, 4, 0) == (w1, p + 6) && Hex(text, p + 8, 4, 0) == (w2, p + 12)
    requires 0xD800 <= w1 <= 0xDBFF && 0xDC00 <= w2 <= 0xDFFF
    requires c == 0x10000 + w1 % 1024 * 1024 + w2 % 1024
    ensures 0 < c <= MAX_SCALAR && p + 12 <= |text|
    ensures Unescape(text, p) == Before(Utf8(c), Unescape(text, p + 12))
  {
    hide Utf8, Hex;
  }

  lemma {:induction false} ScalarsRead(text: seq<Char>, p: nat, cs: seq<nat>, upper: bool)
    requires forall i :: 0 <= i < |cs| ==> Scalar(cs[i])
    requires StandsAt(text, p, ScalarsText(cs, upper))
    ensures Unescape(text, p) == Before(Utf8All(cs), Unescape(text, p + |ScalarsText(cs, upper)|))
    decreases |cs|
  {
    hide Unescape, ScalarText, Utf8, StandsAt;
    if cs == [] {
      assert forall v: seq<Char> :: [] + v == v;
    } else {
      var c, rest := ScalarText(cs[0], upper), ScalarsText(cs[1..], upper);
      StandsSplit(text, p, c, rest);
      ScalarRead(text, p, cs[0], upper);
      ScalarsRead(text, p + |c|, cs[1..], upper);
      BeforeBefore(Utf8(cs[0]), Utf8All(cs[1..]), Unescape(text, p + |c| + |rest|));
    }
  }

  // A quoted string of \u escapes is read as the UTF-8 encoding of its code points, which can be read back.
  lemma EscapesBecomeUtf8(cs: seq<nat>, upper: bool)
    requires forall i :: 0 <= i < |cs| ==> Scalar(cs[i])
    ensures var s := [QUOTE] + ScalarsText(cs, upper) + [QUOTE];
            StringAt(s, 0) == Ok(|s|, Utf8All(cs))
    ensures DecodeAllUtf8(Utf8All(cs)) == Some(cs)
  {
    hide ScalarsText, Utf8All, DecodeAllUtf8;
    var chars := ScalarsText(cs, upper);
    var s := [QUOTE] + chars + [QUOTE];
    assert StandsAt(s, 1, chars);
    ScalarsRead(s, 1, cs, upper);
    assert Unescape(s, 1 + |chars|) == Ok(|s|, []);
    assert Utf8All(cs) + [] == Utf8All(cs);
    Utf8AllDecodes(cs);
  }

  // ---------- the two passes over a string ----------

  function Shift(e: Extent, n: nat): Extent {
    if e.Upto? then Upto(e.stop, e.len + n) else e
  }

  lemma {:induction false} HexMeasured(text: seq<Char>, p: nat, digits: nat, acc: nat)
    requires p <= |text|
    ensures var h := Hex(text, p, digits, acc).1;
            Measure(text, p) == Shift(Measure(text, h), h - p)
    decreases digits
  {
    if digits > 0 && HexDigitValue(At(text, p)).Some? {
      HexMeasured(text, p + 1, digits - 1, acc * 16 + HexDigitValue(At(text, p)).value);
    }
  }

  // Few digits make a small number.
  lemma {:induction false} HexSmall(text: seq<Char>, p: nat, digits: nat, acc: nat, bound: nat)
    requires p <= |text| && acc < bound
    ensures var (v, h) := Hex(text, p, digits, acc);
            v < bound * Pow16(h - p)
    decreases digits
  {
    hide Pow16;
    Pow16Zero();
    if digits > 0 && HexDigitValue(At(text, p)).Some? {
      HexSmall(text, p + 1, digits - 1, acc * 16 + HexDigitValue(At(text, p)).value, bound * 16);
      Pow16Step(bound, Hex(text, p, digits, acc).1 - p);
    }
  }

  function Pow16(k: nat): nat {
    if k == 0 then 1 else 16 * Pow16(k - 1)
  }

  lemma Pow16Zero()
    ensures Pow16(0) == 1
  {
  }

  lemma Pow16Step(bound: nat, k: nat)
    requires k > 0
    ensures bound * 16 * Pow16(k - 1) == bound * Pow16(k)
  {
  }

  // The measuring pass over one escape of a 16-bit unit.
  lemma UnitMeasured(text: seq<Char>, p: nat)
    requires p + 1 < |text| && text[p] == BACKSLASH
    ensures var h := Hex(text, p + 2, 4, 0).1;
            Measure(text, p) == Shift(Measure(text, h), 1 + h - (p + 2))
  {
    hide Hex;
    HexMeasured(text, p + 2, 4, 0);
  }

  // A \u escape is one such unit, or two that make a surrogate pair.
  lemma EscapeUnits(text: seq<Char>, p: nat)
    requires p + 1 < |text| && text[p] == BACKSLASH && text[p + 1] == LETTER_U
    ensures var (uc, h) := Hex(text, p + 2, 4, 0);
            var (next, s) := UnicodeEscape(text, p);
            || (next == h && |s| <= if 0 < uc < 0x10000 then Utf8Length(uc) else 0)
            || (uc >= 0xD800 && h + 1 < |text| && text[h] == BACKSLASH && next == Hex(text, h + 2, 4, 0).1 && |s| <= 4)
  {
    hide Hex, Utf8;
    HexBound(text, p + 2, 4, 0);
  }

  // It writes no more than the measuring pass counted for it, and ends where that pass goes on.
  lemma EscapeMeasured(text: seq<Char>, p: nat)
    requires p + 1 < |text| && text[p] == BACKSLASH && text[p + 1] == LETTER_U
    ensures var (next, s) := UnicodeEscape(text, p);
            exists n :: n >= |s| && Measure(text, p) == Shift(Measure(text, next), n)
  {
    hide Hex, Measure, UnicodeEscape, Shift, Utf8Length, Pow16;
    var (uc, h) := Hex(text, p + 2, 4, 0);
    var (next, s) := UnicodeEscape(text, p);
    EscapeUnits(text, p);
    UnitMeasured(text, p);
    HexSmall(text, p + 2, 4, 0, 1);
    UnitShort(uc, h - (p + 2));
    if next == h && |s| <= 1 + h - (p + 2) {
      assert Measure(text, p) == Shift(Measure(text, next), 1 + h - (p + 2));
    } else {
      UnitMeasured(text, h);
      ShiftTwice(Measure(text, next), 1 + next - (h + 2), 1 + h - (p + 2));
      assert Measure(text, p) == Shift(Measure(text, next), 1 + next - (h + 2) + 1 + h - (p + 2));
    }
  }

  lemma ShiftTwice(e: Extent, m: int, n: int)
    ensures m >= 0 && n >= 0 ==> Shift(Shift(e, m), n) == Shift(e, m + n)
  {
  }

  lemma UnitShort(uc: nat, k: nat)
    requires k <= 4 && uc < Pow16(k)
    ensures uc > 0 && uc < 0x10000 ==> Utf8Length(uc) <= 1 + k
    ensures uc >= 0xD800 ==> k == 4
  {
    assert Pow16(1) == 16 && Pow16(2) == 256 && Pow16(3) == 4096 && Pow16(4) == 65536;
  }

  // The measuring pass runs off the text exactly when the writing pass does; otherwise both stop at the same
  // quote or terminator, and what is written fits what was measured.
  lemma {:induction false} PassesAgree(text: seq<Char>, p: nat)
    requires p <= |text|
    ensures match Measure(text, p)
            case BeyondEnd => Unescape(text, p) == Overrun
            case Upto(stop, len) =>
              && Unescape(text, p).Ok?
              && Unescape(text, p).next == (if At(text, stop) == QUOTE then stop + 1 else stop)
              && |Unescape(text, p).value| <= len
    decreases |text| - p
  {
    hide UnicodeEscape;
    if p < |text| && text[p] != QUOTE {
      if text[p] != BACKSLASH {
        PassesAgree(text, p + 1);
      } else if p + 1 < |text| {
        if text[p + 1] == LETTER_U {
          EscapeMeasured(text, p);
          PassesAgree(text, UnicodeEscape(text, p).0);
        } else {
          PassesAgree(text, p + 2);
        }
      }
    }
  }
}
