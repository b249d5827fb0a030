// White space, hexadecimal digits, escapes and strings, by where they stand: the parser accepts exactly these.
module JsonLexis {
  import opened Wrappers
  import opened JsonText
  import opened JsonGrammar
  import opened JsonPrint
  import opened JsonRoundTrip
  import opened JsonUnicode
  import opened JsonNumbers

  // ---------- white space and hexadecimal digits ----------

  // From p to q there is white space, and none at q.
  ghost predicate Gap(text: seq<Char>, p: nat, q: nat) {
    && p <= q <= |text|
    && (forall k :: p <= k < q ==> text[k] <= SPACE)
    && (q < |text| ==> text[q] > SPACE)
  }

  lemma {:induction false} SkipExact(text: seq<Char>, p: nat, q: nat)
    requires p <= |text|
    ensures Gap(text, p, q) <==> q == Skip(text, p)
    decreases |text| - p
  {
    if p < |text| && text[p] <= SPACE {
      SkipExact(text, p + 1, q);
      assert Gap(text, p, q) <==> Gap(text, p + 1, q);
    }
  }

  // A hexadecimal digit is what is printed for a number below sixteen, in either case.
  lemma HexDigitExact(c: Byte, v: nat)
    ensures HexDigitValue(c) == Some(v) <==> v < 16 && (c == HexDigit(v, false) || c == HexDigit(v, true))
  {
  }

  predicate IsHex(c: Byte) {
    HexDigitValue(c).Some?
  }

  function HexValue(s: seq<Char>): nat
    requires forall i :: 0 <= i < |s| ==> IsHex(s[i])
  {
    assert s != [] ==> IsHex(s[|s| - 1]);
    if s == [] then 0 else HexValue(s[..|s| - 1]) * 16 + HexDigitValue(s[|s| - 1]).value
  }

  // The hexadecimal digits from a on, but no more than four, and their value.
  ghost predicate HexRun(text: seq<Char>, a: nat, h: nat, v: nat) {
    && a <= h <= |text| && h <= a + 4
    && (forall k :: a <= k < h ==> IsHex(text[k]))
    && (h < a + 4 ==> !IsHex(At(text, h)))
    && v == HexValue(text[a..h])
  }

  // What Hex has read when it comes to p.
  lemma {:induction false} HexReads(text: seq<Char>, a: nat, p: nat, digits: nat)
    requires a <= p <= |text| && p + digits == a + 4 && forall k :: a <= k < p ==> IsHex(text[k])
    ensures var (v, h) := Hex(text, p, digits, HexValue(text[a..p])); HexRun(text, a, h, v)
    decreases digits
  {
    if digits > 0 && IsHex(At(text, p)) {
      OneMoreDigit(text, a, p);
      hide HexDigitValue, HexValue;
      HexReads(text, a, p + 1, digits - 1);
    }
  }

  lemma OneMoreDigit(text: seq<Char>, a: nat, p: nat)
    requires a <= p < |text| && IsHex(text[p]) && forall k :: a <= k < p ==> IsHex(text[k])
    ensures HexValue(text[a..p + 1]) == HexValue(text[a..p]) * 16 + HexDigitValue(text[p]).value
  {
    assert text[a..p + 1][..p - a] == text[a..p];
  }

  lemma HexExact(text: seq<Char>, a: nat, h: nat, v: nat)
    requires a <= |text|
    ensures HexRun(text, a, h, v) <==> Hex(text, a, 4, 0) == (v, h)
  {
    assert text[a..a] == [];
    HexReads(text, a, a, 4);
    var (w, g) := Hex(text, a, 4, 0);
    RunsAgree(text, a, g, w, h, v);
    PairOfNats(Hex(text, a, 4, 0), v, h);
  }

  lemma RunsAgree(text: seq<Char>, a: nat, g: nat, w: nat, h: nat, v: nat)
    requires HexRun(text, a, g, w)
    ensures HexRun(text, a, h, v) <==> h == g && v == w
  {
  }

  lemma PairOfNats(r: (nat, nat), v: nat, h: nat)
    ensures r == (v, h) <==> r.0 == v && r.1 == h
  {
  }

  // There is one such run.
  lemma HexOnly(text: seq<Char>, a: nat)
    requires a <= |text|
    ensures var (v, h) := Hex(text, a, 4, 0);
            HexRun(text, a, h, v) && forall h', v' :: HexRun(text, a, h', v') ==> h' == h && v' == v
  {
    var (v, h) := Hex(text, a, 4, 0);
    PairOfNats(Hex(text, a, 4, 0), v, h);
    HexExact(text, a, h, v);
    forall h', v' | HexRun(text, a, h', v')
      ensures h' == h && v' == v
    {
      RunsAgree(text, a, h, v, h', v');
    }
  }

  // ---------- strings ----------

  // A backslash and c stand for m: the five letters for control characters, any other character for itself.
  predicate StandsFor(c: Char, m: Char) {
    || (c == LETTER_B && m == BACKSPACE) || (c == LETTER_F && m == FORMFEED) || (c == LETTER_N && m == NEWLINE)
    || (c == LETTER_R && m == RETURN) || (c == LETTER_T && m == TAB)
    || (c == m && c !in {LETTER_B, LETTER_F, LETTER_N, LETTER_R, LETTER_T})
  }

  // The \u escape at p ends at b and stands for o: one unit, or two that are a surrogate pair. A lone or reversed
  // surrogate and zero stand for nothing.
  ghost predicate UnicodePiece(text: seq<Char>, p: nat, b: nat, o: seq<Char>)
    requires p + 2 <= |text|
  {
    exists h, v :: HexRun(text, p + 2, h, v) && AfterUnit(text, h, v, b, o)
  }

  ghost predicate AfterUnit(text: seq<Char>, h: nat, v: nat, b: nat, o: seq<Char>) {
    if h + 1 < |text| && 0xD800 <= v < 0xDC00 && text[h] == BACKSLASH && text[h + 1] == LETTER_U then
      exists v2 :: HexRun(text, h + 2, b, v2) && o == OfPair(v, v2)
    else b == h && o == OfUnit(v)
  }

  function OfUnit(v: nat): seq<Char> {
    if v == 0 || 0xD800 <= v < 0xE000 || v > MAX_SCALAR then [] else Utf8(v)
  }

  function OfPair(v: nat, v2: nat): seq<Char>
    requires 0xD800 <= v < 0xDC00
  {
    if 0xDC00 <= v2 < 0xE000 then Utf8(0x10000 + (v - 0xD800) * 0x400 + (v2 - 0xDC00)) else []
  }

  // One character or escape, from a to b, stands for o.
  ghost predicate Piece(text: seq<Char>, a: nat, b: nat, o: seq<Char>) {
    && a < |text| && text[a] != QUOTE
    && if text[a] != BACKSLASH then b == a + 1 && o == [text[a]]
       else
         && a + 1 < |text|
         && if text[a + 1] == LETTER_U then UnicodePiece(text, a, b, o)
            else b == a + 2 && |o| == 1 && StandsFor(text[a + 1], o[0])
  }

  // From a to e there are such pieces, which together stand for s.
  ghost predicate Pieces(text: seq<Char>, a: nat, e: nat, s: seq<Char>)
    decreases if a < e then e - a else 0
  {
    if a >= e then a == e && s == []
    else exists b, o :: a < b <= e && Piece(text, a, b, o) && o <= s && Pieces(text, b, e, s[|o|..])
  }

  // A string begins with a quote and ends after the next one, or at the end of the text.
  ghost predicate StringText(text: seq<Char>, p: nat, next: nat, s: seq<Char>) {
    && p < |text| && text[p] == QUOTE
    && exists e :: Pieces(text, p + 1, e, s) && Closed(text, e, next)
  }

  ghost predicate Closed(text: seq<Char>, e: nat, next: nat) {
    e <= |text| && if e == |text| then next == e else text[e] == QUOTE && next == e + 1
  }

  lemma UnicodeExact(text: seq<Char>, p: nat, b: nat, o: seq<Char>)
    requires p + 2 <= |text|
    ensures UnicodePiece(text, p, b, o) <==> UnicodeEscape(text, p) == (b, o)
  {
    hide Hex, HexRun, Utf8;
    var (v, h) := Hex(text, p + 2, 4, 0);
    HexOnly(text, p + 2);
    hide AfterUnit, UnicodeEscape;
    assert UnicodePiece(text, p, b, o) <==> AfterUnit(text, h, v, b, o);
    UnitMeans(text, p, b, o);
  }

  lemma UnitMeans(text: seq<Char>, p: nat, b: nat, o: seq<Char>)
    requires p + 2 <= |text|
    ensures var (v, h) := Hex(text, p + 2, 4, 0);
            v < 65536 && (AfterUnit(text, h, v, b, o) <==> UnicodeEscape(text, p) == (b, o))
  {
    hide Hex, HexRun, Utf8;
    var (v, h) := Hex(text, p + 2, 4, 0);
    HexBound(text, p + 2, 4, 0);
    PairOfPiece(UnicodeEscape(text, p), b, o);
    if h + 1 < |text| && 0xD800 <= v < 0xDC00 && text[h] == BACKSLASH && text[h + 1] == LETTER_U {
      var (v2, h2) := Hex(text, h + 2, 4, 0);
      HexOnly(text, h + 2);
      HexBound(text, h + 2, 4, 0);
      assert AfterUnit(text, h, v, b, o) <==> b == h2 && o == OfPair(v, v2);
      assert 0xDC00 <= v2 < 0xE000 ==> v % 1024 * 1024 + v2 % 1024 == (v - 0xD800) * 0x400 + (v2 - 0xDC00);
      assert UnicodeEscape(text, p).0 == h2 && UnicodeEscape(text, p).1 == OfPair(v, v2);
    } else {
      assert UnicodeEscape(text, p).0 == h && UnicodeEscape(text, p).1 == OfUnit(v);
    }
  }

  lemma PairOfPiece(r: (nat, seq<Char>), b: nat, o: seq<Char>)
    ensures r == (b, o) <==> r.0 == b && r.1 == o
  {
  }

  // A piece is what the parser takes off.
  lemma PieceTaken(text: seq<Char>, a: nat, b: nat, o: seq<Char>)
    requires Piece(text, a, b, o)
    ensures a < b <= |text| && Unescape(text, a) == Before(o, Unescape(text, b))
  {
    hide UnicodePiece, UnicodeEscape;
    if text[a] == BACKSLASH && text[a + 1] == LETTER_U {
      UnicodeExact(text, a, b, o);
    } else if text[a] == BACKSLASH {
      assert o == [SimpleEscape(text[a + 1])];
    }
  }

  lemma {:induction false} PiecesTaken(text: seq<Char>, a: nat, e: nat, s: seq<Char>)
    requires Pieces(text, a, e, s) && a <= e <= |text|
    ensures Unescape(text, a) == Before(s, Unescape(text, e))
    decreases e - a
  {
    hide Unescape, Piece;
    if a < e {
      var b, o :| a < b <= e && Piece(text, a, b, o) && o <= s && Pieces(text, b, e, s[|o|..]);
      PieceTaken(text, a, b, o);
      PiecesTaken(text, b, e, s[|o|..]);
      assert o + s[|o|..] == s;
      BeforeBefore(o, s[|o|..], Unescape(text, e));
    } else {
      BeforeEmpty(Unescape(text, e));
    }
  }

  lemma BeforeEmpty(r: Parsed<seq<Char>>)
    ensures Before([], r) == r
  {
    assert r.Ok? ==> [] + r.value == r.value;
  }

  lemma ClosedEnds(text: seq<Char>, e: nat, next: nat, s: seq<Char>)
    requires Closed(text, e, next)
    ensures Before(s, Unescape(text, e)) == Ok(next, s)
  {
    assert s + [] == s;
  }

  // The first piece of an accepted string.
  lemma FirstPiece(text: seq<Char>, a: nat, next: nat, s: seq<Char>) returns (b: nat, o: seq<Char>)
    requires a < |text| && text[a] != QUOTE && Unescape(text, a) == Ok(next, s)
    ensures Piece(text, a, b, o) && a < b <= |text| && o <= s && Unescape(text, b) == Ok(next, s[|o|..])
  {
    if text[a] != BACKSLASH {
      b, o := a + 1, [text[a]];
    } else if text[a + 1] == LETTER_U {
      b, o := UnicodeEscape(text, a).0, UnicodeEscape(text, a).1;
      UnicodeExact(text, a, b, o);
    } else {
      b, o := a + 2, [SimpleEscape(text[a + 1])];
    }
    hide UnicodePiece, UnicodeEscape;
    assert Piece(text, a, b, o);
  }

  lemma {:induction false} PiecesFound(text: seq<Char>, a: nat, next: nat, s: seq<Char>) returns (e: nat)
    requires a <= |text| && Unescape(text, a) == Ok(next, s)
    ensures a <= e && Pieces(text, a, e, s) && Closed(text, e, next)
    decreases |text| - a
  {
    if a == |text| || text[a] == QUOTE {
      e := a;
    } else {
      hide Piece, Unescape;
      var b, o := FirstPiece(text, a, next, s);
      e := PiecesFound(text, b, next, s[|o|..]);
    }
  }

  // parseString accepts exactly the strings.
  lemma StringExact(text: seq<Char>, p: nat, next: nat, s: seq<Char>)
    requires p <= |text|
    ensures StringAt(text, p) == Ok(next, s) <==> StringText(text, p, next, s)
  {
    hide Unescape, Pieces;
    if StringAt(text, p) == Ok(next, s) {
      var e := PiecesFound(text, p + 1, next, s);
    }
    if StringText(text, p, next, s) {
      var e :| Pieces(text, p + 1, e, s) && Closed(text, e, next);
      PiecesStart(text, p + 1, e, s);
      PiecesTaken(text, p + 1, e, s);
      ClosedEnds(text, e, next, s);
    }
  }

  lemma PiecesStart(text: seq<Char>, a: nat, e: nat, s: seq<Char>)
    requires Pieces(text, a, e, s)
    ensures a <= e
  {
  }

  // What is printed for a character has no control character in it, and nothing without one that is read as that
  // character, and writes out the four digits of a \u escape, is shorter.
  lemma EscapesAreShort(c: Char, o: seq<Char>)
    requires Piece(o, 0, |o|, [c]) && forall k :: 0 <= k < |o| ==> o[k] >= SPACE
    requires o[0] == BACKSLASH && o[1] == LETTER_U ==> |o| >= 6
    ensures |CharText(c)| <= |o| && forall k :: 0 <= k < |CharText(c)| ==> CharText(c)[k] >= SPACE
  {
    hide UnicodePiece;
  }
}
