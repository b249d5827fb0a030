// Parsing undoes printing: for every printable tree, at every depth and for both formats, the parser reads
// back the tree that was printed and stops exactly where its text ends.
module JsonRoundTrip {
  import opened Wrappers
  import opened JsonText
  import opened JsonGrammar
  import opened JsonPrint

  // ---------- strings ----------

  lemma HexDigitRead(v: nat, upper: bool)
    requires v < 16
    ensures HexDigitValue(HexDigit(v, upper)) == Some(v)
  {
  }

  lemma HexStep(text: seq<Char>, p: nat, digits: nat, acc: nat, v: nat, upper: bool)
    requires p < |text| && v < 16 && text[p] == HexDigit(v, upper)
    ensures Hex(text, p, digits + 1, acc) == Hex(text, p + 1, digits, acc * 16 + v)
  {
    HexDigitRead(v, upper);
  }

  lemma UnitDigits(w: nat)
    requires w < 0x10000
    ensures w / 4096 < 16
    ensures w / 4096 * 16 + w / 256 % 16 == w / 256
    ensures w / 256 * 16 + w / 16 % 16 == w / 16
    ensures w / 16 * 16 + w % 16 == w
  {
  }

  // Four hexadecimal digits read back as the unit they stand for.
  lemma UnitRead(text: seq<Char>, p: nat, w: nat, upper: bool)
    requires w < 0x10000 && StandsAt(text, p, UnitText(w, upper))
    ensures text[p] == BACKSLASH && text[p + 1] == LETTER_U
    ensures Hex(text, p + 2, 4, 0) == (w, p + 6)
  {
    hide Hex, HexDigit;
    UnitDigits(w);
    var s := UnitText(w, upper);
    assert s[0] == text[p] && s[1] == text[p + 1];
    assert s[2] == text[p + 2] && s[3] == text[p + 3] && s[4] == text[p + 4] && s[5] == text[p + 5];
    HexStep(text, p + 2, 3, 0, w / 4096, upper);
    HexStep(text, p + 3, 2, w / 4096, w / 256 % 16, upper);
    HexStep(text, p + 4, 1, w / 256, w / 16 % 16, upper);
    HexStep(text, p + 5, 0, w / 16, w % 16, upper);
    HexDone(text, p + 6, w);
  }

  lemma HexDone(text: seq<Char>, p: nat, acc: nat)
    requires p <= |text|
    ensures Hex(text, p, 0, acc) == (acc, p)
  {
  }

  // One printed character reads back as itself.
  lemma CharRead(text: seq<Char>, p: nat, c: Char)
    requires StandsAt(text, p, CharText(c))
    ensures Unescape(text, p) == Before([c], Unescape(text, p + |CharText(c)|))
  {
    hide UnicodeEscape, Hex, Utf8, UnitText;
    var s := CharText(c);
    StandsChar(text, p, s, 0);
    if NeedsEscape(c) {
      if ShortEscape(c).None? {
        EscapedRead(text, p, c);
      } else {
        StandsChar(text, p, s, 1);
      }
    }
  }

  lemma EscapedRead(text: seq<Char>, p: nat, c: Char)
    requires StandsAt(text, p, CharText(c)) && NeedsEscape(c) && ShortEscape(c).None?
    ensures Unescape(text, p) == Before([c], Unescape(text, p + |CharText(c)|))
  {
    StandsChar(text, p, CharText(c), 0);
    StandsChar(text, p, CharText(c), 1);
    UnitRead(text, p, c, false);
    hide Hex;
    assert Utf8(c) == [c];
  }

  lemma {:induction false} CharsRead(text: seq<Char>, p: nat, s: seq<Char>)
    requires StandsAt(text, p, CharsText(s))
    ensures Unescape(text, p) == Before(s, Unescape(text, p + |CharsText(s)|))
    decreases |s|
  {
    hide Unescape, CharText, StandsAt;
    if s == [] {
      assert forall v: seq<Char> :: s + v == v;
    } else {
      var c, rest := CharText(s[0]), CharsText(s[1..]);
      StandsSplit(text, p, c, rest);
      CharRead(text, p, s[0]);
      CharsRead(text, p + |c|, s[1..]);
      BeforeBefore([s[0]], s[1..], Unescape(text, p + |c| + |rest|));
      assert s == [s[0]] + s[1..];
    }
  }

  // parseString undoes PrintString.
  lemma StringRead(text: seq<Char>, p: nat, s: seq<Char>)
    requires StandsAt(text, p, StringText(s))
    ensures StringAt(text, p) == Ok(p + |StringText(s)|, s)
  {
    hide StandsAt, CharsText, Unescape, Before;
    var chars := CharsText(s);
    assert StringText(s) == [QUOTE] + chars + [QUOTE];
    StandsChar(text, p, StringText(s), 0);
    StandsChar(text, p, StringText(s), |chars| + 1);
    StandsSplit(text, p, [QUOTE] + chars, [QUOTE]);
    StandsSplit(text, p, [QUOTE], chars);
    CharsRead(text, p + 1, s);
    AtClosingQuote(text, p + 1 + |chars|, s);
  }

  lemma AtClosingQuote(text: seq<Char>, q: nat, s: seq<Char>)
    requires q < |text| && text[q] == QUOTE
    ensures Before(s, Unescape(text, q)) == Ok(q + 1, s)
  {
    assert Unescape(text, q) == Ok(q + 1, []);
    assert s + [] == s;
  }

  // ---------- numbers ----------

  // No character that would continue a number.
  ghost predicate EndsNumber(text: seq<Char>, p: nat) {
    && p <= |text| && !IsDigit(At(text, p))
    && At(text, p) != POINT && At(text, p) != LETTER_E && At(text, p) != CAPITAL_E
  }

  lemma {:induction false} DigitsAreDigits(n: nat)
    ensures forall k :: 0 <= k < |Digits(n)| ==> IsDigit(Digits(n)[k])
    ensures Digits(n)[0] == ZERO <==> n == 0
    decreases n
  {
    if n >= 10 {
      DigitsAreDigits(n / 10);
    }
  }

  lemma {:induction false} DecimalRead(text: seq<Char>, p: nat, n: nat)
    requires StandsAt(text, p, Digits(n))
    ensures forall k :: p <= k < p + |Digits(n)| ==> IsDigit(text[k])
    ensures Decimal(text, p, p + |Digits(n)|, 0) == n
    decreases n
  {
    var s := Digits(n);
    DigitsAreDigits(n);
    forall k | p <= k < p + |s|
      ensures IsDigit(text[k])
    {
      assert text[k] == s[k - p];
    }
    if n >= 10 {
      assert s == Digits(n / 10) + [48 + n % 10];
      StandsSplit(text, p, Digits(n / 10), [48 + n % 10]);
      DecimalRead(text, p, n / 10);
      StandsChar(text, p, s, |s| - 1);
    } else {
      assert Decimal(text, p, p, 0) == 0;
    }
  }

  // On the way to a number the accumulator never exceeds it: below 2^53 every value it takes is exact in the original's
  // double precision.
  lemma {:induction false} AccumulatorBounded(text: seq<Char>, from: nat, mid: nat, end: nat)
    requires from <= mid <= end <= |text|
    requires forall k :: from <= k < end ==> IsDigit(text[k])
    ensures Decimal(text, from, mid, 0) <= Decimal(text, from, end, 0)
    decreases end
  {
    if mid < end {
      AccumulatorBounded(text, from, mid, end - 1);
    }
  }

  lemma {:induction false} DigitsEndIs(text: seq<Char>, p: nat, q: nat)
    requires p <= q <= |text| && (forall k :: p <= k < q ==> IsDigit(text[k])) && !IsDigit(At(text, q))
    ensures DigitsEnd(text, p) == q
    decreases q - p
  {
    if p < q {
      DigitsEndIs(text, p + 1, q);
    }
  }

  lemma MantissaRead(text: seq<Char>, p: nat, n: nat)
    requires StandsAt(text, p, Digits(n)) && EndsNumber(text, p + |Digits(n)|)
    ensures Mantissa(text, p) == (p + |Digits(n)|, n, 0)
  {
    var q := p + |Digits(n)|;
    DigitsAreDigits(n);
    StandsChar(text, p, Digits(n), 0);
    DecimalRead(text, p, n);
    if n > 0 {
      DigitsEndIs(text, p, q);
    }
  }

  // parseNumber undoes PrintNumber on integers.
  lemma NumberRead(text: seq<Char>, p: nat, v: int)
    requires StandsAt(text, p, IntText(v)) && EndsNumber(text, p + |IntText(v)|)
    ensures NumberAt(text, p) == (p + |IntText(v)|, v as real)
    ensures At(text, p) == MINUS || IsDigit(At(text, p))
  {
    hide Mantissa, Digits;
    StandsChar(text, p, IntText(v), 0);
    assert Pow10(0) == 1.0;
    if v < 0 {
      StandsSplit(text, p, [MINUS], Digits(-v));
      MantissaRead(text, p + 1, -v);
    } else {
      DigitsAreDigits(v);
      MantissaRead(text, p, v);
    }
  }

  // ---------- trees ----------

  // The first character of a printed value: no white space, no closing bracket.
  predicate StartsValue(c: Byte) {
    c == QUOTE || c == LBRACKET || c == LBRACE || c == MINUS || IsDigit(c)
    || c == LETTER_N || c == LETTER_F || c == LETTER_T
  }

  lemma TreeStarts(t: Json, depth: nat, fmt: bool)
    ensures |TreeText(t, depth, fmt)| > 0 && StartsValue(TreeText(t, depth, fmt)[0])
  {
    if t.Number? && t.d.Floor >= 0 {
      DigitsAreDigits(t.d.Floor);
    }
  }

  lemma LiteralHead(text: seq<Char>, p: nat, l: seq<Char>)
    requires |l| > 0
    ensures StartsWith(text, p, l) ==> p < |text| && text[p] == l[0]
  {
    if StartsWith(text, p, l) {
      assert text[p..p + |l|][0] == l[0];
    }
  }

  // ValueAt goes by the first character: the three literals begin differently from everything else.
  lemma LiteralHeads(text: seq<Char>, p: nat)
    ensures StartsWith(text, p, NULL_TEXT) ==> p < |text| && text[p] == LETTER_N
    ensures StartsWith(text, p, FALSE_TEXT) ==> p < |text| && text[p] == LETTER_F
    ensures StartsWith(text, p, TRUE_TEXT) ==> p < |text| && text[p] == LETTER_T
  {
    LiteralHead(text, p, NULL_TEXT);
    LiteralHead(text, p, FALSE_TEXT);
    LiteralHead(text, p, TRUE_TEXT);
  }

  function Entries(items: seq<Json>, depth: nat, fmt: bool): (es: seq<seq<Char>>)
    ensures |es| == |items|
    ensures forall i :: 0 <= i < |items| ==> es[i] == TreeText(items[i], depth, fmt)
  {
    seq(|items|, i requires 0 <= i < |items| => TreeText(items[i], depth, fmt))
  }

  lemma SkipToValue(text: seq<Char>, p: nat, t: Json, depth: nat, fmt: bool)
    requires StandsAt(text, p, TreeText(t, depth, fmt))
    ensures Skip(text, p) == p && p < |text| && StartsValue(text[p])
  {
    TreeStarts(t, depth, fmt);
    StandsChar(text, p, TreeText(t, depth, fmt), 0);
  }

  // ---------- lists, first where their parts stand ----------

  // The parts of a list begin at `starts` and end at `ends`; commas separate them, `closer` ends the list at
  // `close`. White space may follow a comma and precede the closer.
  ghost predicate Laid(text: seq<Char>, starts: seq<nat>, ends: seq<nat>, close: nat, closer: Char) {
    && |starts| == |ends| > 0
    && (forall k :: 0 <= k < |starts| ==> starts[k] < |text| && ends[k] < |text| && EndsNumber(text, ends[k]))
    && (forall k :: 0 <= k < |starts| - 1 ==> CommaThen(text, ends[k], starts[k + 1]))
    && close < |text| && text[close] == closer && Skip(text, ends[|ends| - 1]) == close
  }

  lemma LaidFirst(text: seq<Char>, starts: seq<nat>, ends: seq<nat>, close: nat, closer: Char)
    requires Laid(text, starts, ends, close, closer)
    ensures |starts| == |ends| > 0 && starts[0] < |text| && ends[0] < |text|
  {
  }

  ghost predicate CommaThen(text: seq<Char>, p: nat, q: nat) {
    p < |text| && text[p] == COMMA && Skip(text, p + 1) == q
  }

  lemma LaidLast(text: seq<Char>, p: nat, n: nat, close: nat, closer: Char)
    requires p < |text| && n < |text| && EndsNumber(text, n)
    requires close < |text| && text[close] == closer && Skip(text, n) == close
    ensures Laid(text, [p], [n], close, closer)
  {
  }

  lemma LaidEnds(text: seq<Char>, starts: seq<nat>, ends: seq<nat>, close: nat, closer: Char)
    requires Laid(text, starts, ends, close, closer)
    ensures forall k :: 0 <= k < |ends| ==> EndsNumber(text, ends[k])
  {
  }

  lemma LaidBefore(text: seq<Char>, p: nat, n: nat, starts: seq<nat>, ends: seq<nat>, close: nat, closer: Char)
    requires Laid(text, starts, ends, close, closer) && p < |text| && CommaThen(text, n, starts[0])
    ensures Laid(text, [p] + starts, [n] + ends, close, closer)
  {
    var s, e := [p] + starts, [n] + ends;
    forall k | 0 <= k < |s| - 1
      ensures CommaThen(text, e[k], s[k + 1])
    {
      if k > 0 {
        assert CommaThen(text, ends[k - 1], starts[k]);
      }
    }
  }

  // An element, a comma, white space and the elements after it.
  lemma NextElementLayout(e: seq<Char>, fmt: bool, rest: seq<Char>, text: seq<Char>, p: nat) returns (q: nat)
    requires StandsAt(text, p, e + [COMMA] + (if fmt then [SPACE] else []) + rest)
    requires |rest| > 0 && rest[0] > SPACE
    ensures StandsAt(text, p, e) && CommaThen(text, p + |e|, q)
    ensures StandsAt(text, q, rest)
    ensures p + |e + [COMMA] + (if fmt then [SPACE] else []) + rest| == q + |rest|
  {
    hide StandsAt;
    var blank := if fmt then [SPACE] else [];
    assert e + [COMMA] + blank + rest == e + ([COMMA] + (blank + rest));
    StandsSplit(text, p, e, [COMMA] + (blank + rest));
    StandsChar(text, p + |e|, [COMMA] + (blank + rest), 0);
    StandsSplit(text, p + |e|, [COMMA], blank + rest);
    StandsSplit(text, p + |e| + 1, blank, rest);
    q := p + |e| + 1 + |blank|;
    StandsChar(text, q, rest, 0);
    SkipBlank(text, p + |e| + 1, blank);
    SkipNothing(text, q);
  }

  ghost predicate Visible(entries: seq<seq<Char>>) {
    forall k :: 0 <= k < |entries| ==> |entries[k]| > 0 && entries[k][0] > SPACE
  }

  lemma ElementsHead(entries: seq<seq<Char>>, i: nat, fmt: bool)
    requires i < |entries| && Visible(entries)
    ensures |ElementsText(entries, i, fmt)| > 0 && ElementsText(entries, i, fmt)[0] == entries[i][0]
  {
  }

  ghost predicate ElementStands(text: seq<Char>, start: nat, end: nat, entry: seq<Char>) {
    StandsAt(text, start, entry) && end == start + |entry|
  }

  lemma ElementsBefore(text: seq<Char>, starts: seq<nat>, ends: seq<nat>, entries: seq<seq<Char>>, i: nat, p: nat, n: nat)
    requires |starts| == |ends| == |entries| - i - 1 && i < |entries| && ElementStands(text, p, n, entries[i])
    requires forall k :: 0 <= k < |starts| ==> ElementStands(text, starts[k], ends[k], entries[i + 1 + k])
    ensures forall k :: 0 <= k < |starts| + 1 ==> ElementStands(text, ([p] + starts)[k], ([n] + ends)[k], entries[i + k])
  {
    hide ElementStands;
    forall k | 0 <= k < |starts| + 1
      ensures ElementStands(text, ([p] + starts)[k], ([n] + ends)[k], entries[i + k])
    {
      if k > 0 {
        assert ElementStands(text, starts[k - 1], ends[k - 1], entries[i + 1 + (k - 1)]);
      }
    }
  }

  lemma {:induction false} ElementsLayout(entries: seq<seq<Char>>, i: nat, fmt: bool, text: seq<Char>, p: nat)
    returns (starts: seq<nat>, ends: seq<nat>)
    requires i < |entries| && Visible(entries)
    requires StandsAt(text, p, ElementsText(entries, i, fmt))
    requires var close := p + |ElementsText(entries, i, fmt)|; close < |text| && text[close] == RBRACKET
    ensures Laid(text, starts, ends, p + |ElementsText(entries, i, fmt)|, RBRACKET)
    ensures |starts| == |ends| == |entries| - i && starts[0] == p
    ensures forall k :: 0 <= k < |starts| ==>
                          ElementStands(text, starts[k], ends[k], entries[i + k])
    decreases |entries| - i
  {
    hide Laid, CommaThen, EndsNumber, StandsAt;
    var e := entries[i];
    var close := p + |ElementsText(entries, i, fmt)|;
    if i == |entries| - 1 {
      starts, ends := [p], [p + |e|];
      StandsChar(text, p, e, 0);
      SkipNothing(text, p + |e|);
      CloserEndsNumber(text, close);
      LaidLast(text, p, p + |e|, close, RBRACKET);
    } else {
      var rest := ElementsText(entries, i + 1, fmt);
      ElementsHead(entries, i + 1, fmt);
      var q := NextElementLayout(e, fmt, rest, text, p);
      var ss, es := ElementsLayout(entries, i + 1, fmt, text, q);
      StandsChar(text, p, e, 0);
      LaidBefore(text, p, p + |e|, ss, es, close, RBRACKET);
      ElementsBefore(text, ss, es, entries, i, p, p + |e|);
      starts, ends := [p] + ss, [p + |e|] + es;
    }
  }

  lemma CloserEndsNumber(text: seq<Char>, p: nat)
    requires p < |text| && (text[p] == RBRACKET || text[p] == RBRACE || text[p] <= SPACE)
    ensures EndsNumber(text, p)
  {
  }

  // Each name with its value, after the tabs that come before it.
  lemma MemberLayout(name: seq<Char>, e: seq<Char>, depth: nat, fmt: bool, text: seq<Char>, p: nat)
    returns (q: nat, c: nat, v: nat)
    requires StandsAt(text, p, MemberText(name, e, depth, fmt))
    ensures q == p + (if fmt then depth else 0)
    ensures StandsAt(text, q, StringText(name)) && Skip(text, p) == q && q < |text| && text[q] == QUOTE
    ensures c == q + |StringText(name)| && c < |text| && text[c] == COLON
    ensures StandsAt(text, v, e) && Skip(text, c + 1) == Skip(text, v)
    ensures p + |MemberText(name, e, depth, fmt)| == v + |e|
    ensures MemberStands(text, q, v + |e|, name, e, depth, fmt)
  {
    hide StandsAt, StringText, Skip, Tabs;
    var tabs, tab := if fmt then Tabs(depth) else [], if fmt then [TAB] else [];
    var n := StringText(name);
    assert MemberText(name, e, depth, fmt) == tabs + (n + ([COLON] + (tab + e)));
    q := p + |tabs|;
    c := q + |n|;
    v := c + 1 + |tab|;
    hide MemberText;
    PartsLayout(tabs, n, tab, e, text, p);
  }

  // White space, a name, a colon, white space and a value, one after the other.
  lemma PartsLayout(tabs: seq<Char>, n: seq<Char>, tab: seq<Char>, e: seq<Char>, text: seq<Char>, p: nat)
    requires StandsAt(text, p, tabs + (n + ([COLON] + (tab + e)))) && Blank(tabs) && Blank(tab)
    requires n != [] && n[0] == QUOTE
    ensures var q, c := p + |tabs|, p + |tabs| + |n|;
            && StandsAt(text, q, n) && Skip(text, p) == q && q < |text| && text[q] == QUOTE
            && c < |text| && text[c] == COLON
            && StandsAt(text, c + 1 + |tab|, e) && Skip(text, c + 1) == Skip(text, c + 1 + |tab|)
  {
    hide StandsAt, Skip, Blank;
    var q, c := p + |tabs|, p + |tabs| + |n|;
    StandsSplit(text, p, tabs, n + ([COLON] + (tab + e)));
    StandsSplit(text, q, n, [COLON] + (tab + e));
    StandsSplit(text, c, [COLON], tab + e);
    StandsChar(text, c, [COLON], 0);
    StandsSplit(text, c + 1, tab, e);
    StandsChar(text, q, n, 0);
    SkipBlank(text, p, tabs);
    SkipNothing(text, q);
    SkipBlank(text, c + 1, tab);
  }

  // The last member and what follows it, up to the closing brace.
  lemma LastMemberLayout(m: seq<Char>, newline: seq<Char>, tail: seq<Char>, text: seq<Char>, p: nat)
    requires Blank(newline) && Blank(tail)
    requires StandsAt(text, p, m + newline + tail + [RBRACE])
    ensures StandsAt(text, p, m) && EndsNumber(text, p + |m|)
    ensures var close := p + |m + newline + tail|;
            && p + |m| < |text| && close < |text| && text[close] == RBRACE && Skip(text, p + |m|) == close
  {
    hide StandsAt;
    var blank := newline + tail;
    assert m + newline + tail + [RBRACE] == m + (blank + [RBRACE]);
    StandsSplit(text, p, m, blank + [RBRACE]);
    StandsSplit(text, p + |m|, blank, [RBRACE]);
    StandsChar(text, p + |m|, blank + [RBRACE], 0);
    StandsChar(text, p + |m| + |blank|, [RBRACE], 0);
    SkipBlank(text, p + |m|, blank);
    SkipNothing(text, p + |m| + |blank|);
  }

  // A member, a comma, white space and the members after it.
  lemma NextMemberLayout(m: seq<Char>, newline: seq<Char>, rest: seq<Char>, text: seq<Char>, p: nat) returns (q: nat)
    requires Blank(newline)
    requires StandsAt(text, p, m + [COMMA] + newline + rest)
    ensures StandsAt(text, p, m) && p + |m| < |text| && text[p + |m|] == COMMA
    ensures q + |rest| == p + |m + [COMMA] + newline + rest|
    ensures StandsAt(text, q, rest) && Skip(text, p + |m| + 1) == Skip(text, q)
  {
    hide StandsAt;
    assert m + [COMMA] + newline + rest == m + ([COMMA] + (newline + rest));
    StandsSplit(text, p, m, [COMMA] + (newline + rest));
    StandsSplit(text, p + |m|, [COMMA], newline + rest);
    StandsChar(text, p + |m|, [COMMA], 0);
    StandsSplit(text, p + |m| + 1, newline, rest);
    SkipBlank(text, p + |m| + 1, newline);
    q := p + |m| + 1 + |newline|;
  }

  // Member k stands after its tabs at starts[k] and ends at ends[k].
  ghost predicate MemberStands(text: seq<Char>, start: nat, end: nat, name: seq<Char>, entry: seq<Char>, depth: nat, fmt: bool) {
    var tabs := if fmt then depth else 0;
    && tabs <= start && StandsAt(text, start - tabs, MemberText(name, entry, depth, fmt))
    && end == start - tabs + |MemberText(name, entry, depth, fmt)|
  }

  lemma MembersBefore(text: seq<Char>, starts: seq<nat>, ends: seq<nat>, names: seq<seq<Char>>, entries: seq<seq<Char>>,
                      i: nat, depth: nat, fmt: bool, p: nat, n: nat)
    requires |starts| == |ends| == |entries| - i - 1 && i < |entries| == |names|
    requires MemberStands(text, p, n, names[i], entries[i], depth, fmt)
    requires forall k :: 0 <= k < |starts| ==>
                           MemberStands(text, starts[k], ends[k], names[i + 1 + k], entries[i + 1 + k], depth, fmt)
    ensures forall k :: 0 <= k < |starts| + 1 ==>
                          MemberStands(text, ([p] + starts)[k], ([n] + ends)[k], names[i + k], entries[i + k], depth, fmt)
  {
    hide MemberStands;
    forall k | 0 <= k < |starts| + 1
      ensures MemberStands(text, ([p] + starts)[k], ([n] + ends)[k], names[i + k], entries[i + k], depth, fmt)
    {
      if k > 0 {
        var j := i + 1 + (k - 1);
        assert MemberStands(text, starts[k - 1], ends[k - 1], names[j], entries[j], depth, fmt);
      }
    }
  }

  lemma MembersTextSplit(names: seq<seq<Char>>, entries: seq<seq<Char>>, i: nat, depth: nat, fmt: bool, tail: seq<Char>)
    requires i < |names| == |entries|
    ensures var m := MemberText(names[i], entries[i], depth, fmt);
            var newline := if fmt then [NEWLINE] else [];
            if i == |entries| - 1 then MembersText(names, entries, i, depth, fmt) == m + newline
            else
              var rest := MembersText(names, entries, i + 1, depth, fmt);
              && MembersText(names, entries, i, depth, fmt) + tail + [RBRACE]
                 == m + [COMMA] + newline + (rest + tail + [RBRACE])
              && |MembersText(names, entries, i, depth, fmt)| == |m| + 1 + |newline| + |rest|
  {
    hide MemberText;
  }

  lemma {:induction false} MembersLayout(names: seq<seq<Char>>, entries: seq<seq<Char>>, i: nat, depth: nat, fmt: bool,
                                         tail: seq<Char>, text: seq<Char>, p: nat)
    returns (starts: seq<nat>, ends: seq<nat>)
    requires i < |names| == |entries| && Blank(tail)
    requires StandsAt(text, p, MembersText(names, entries, i, depth, fmt) + tail + [RBRACE])
    ensures Laid(text, starts, ends, p + |MembersText(names, entries, i, depth, fmt)| + |tail|, RBRACE)
    ensures |starts| == |ends| == |entries| - i && starts[0] < |text|
    ensures Skip(text, p) == starts[0] && text[starts[0]] == QUOTE
    ensures forall k :: 0 <= k < |starts| ==>
                          MemberStands(text, starts[k], ends[k], names[i + k], entries[i + k], depth, fmt)
    decreases |entries| - i
  {
    hide Laid, CommaThen, EndsNumber, StandsAt, MemberText, MemberStands, MembersText, Skip, StringText, Blank;
    MembersTextSplit(names, entries, i, depth, fmt, tail);
    var m := MemberText(names[i], entries[i], depth, fmt);
    var newline := if fmt then [NEWLINE] else [];
    NewlineIsBlank(fmt);
    var close := p + |MembersText(names, entries, i, depth, fmt)| + |tail|;
    if i == |entries| - 1 {
      LastMemberLayout(m, newline, tail, text, p);
      var q, c, v := MemberLayout(names[i], entries[i], depth, fmt, text, p);
      starts, ends := [q], [p + |m|];
      LaidLast(text, q, p + |m|, close, RBRACE);
    } else {
      var rest := MembersText(names, entries, i + 1, depth, fmt);
      var all := rest + tail + [RBRACE];
      var p' := NextMemberLayout(m, newline, all, text, p);
      var ss, es := MembersLayout(names, entries, i + 1, depth, fmt, tail, text, p');
      var q, c, v := MemberLayout(names[i], entries[i], depth, fmt, text, p);
      MembersPrepend(names, entries, i, depth, fmt, text, q, p + |m|, ss, es, close);
      starts, ends := [q] + ss, [p + |m|] + es;
    }
  }

  lemma NewlineIsBlank(fmt: bool)
    ensures Blank(if fmt then [NEWLINE] else [])
  {
  }

  lemma MembersPrepend(names: seq<seq<Char>>, entries: seq<seq<Char>>, i: nat, depth: nat, fmt: bool, text: seq<Char>,
                       q: nat, n: nat, ss: seq<nat>, es: seq<nat>, close: nat)
    requires i < |names| == |entries| && |ss| == |es| == |entries| - i - 1 && |ss| > 0
    requires q < |text| && n < |text| && text[n] == COMMA && Skip(text, n + 1) == ss[0]
    requires Laid(text, ss, es, close, RBRACE)
    requires MemberStands(text, q, n, names[i], entries[i], depth, fmt)
    requires forall k :: 0 <= k < |ss| ==>
                           MemberStands(text, ss[k], es[k], names[i + 1 + k], entries[i + 1 + k], depth, fmt)
    ensures Laid(text, [q] + ss, [n] + es, close, RBRACE)
    ensures forall k :: 0 <= k < |ss| + 1 ==>
                          MemberStands(text, ([q] + ss)[k], ([n] + es)[k], names[i + k], entries[i + k], depth, fmt)
  {
    hide Laid, CommaThen, MemberStands;
    IsCommaThen(text, n, ss[0]);
    LaidBefore(text, q, n, ss, es, close, RBRACE);
    MembersBefore(text, ss, es, names, entries, i, depth, fmt, q, n);
  }

  lemma IsCommaThen(text: seq<Char>, p: nat, q: nat)
    requires p < |text| && text[p] == COMMA && Skip(text, p + 1) == q
    ensures CommaThen(text, p, q)
  {
  }

  // ---------- lists, then how they are read ----------

  // One turn of the loop of parseArray.
  lemma ItemsStep(text: seq<Char>, p: nat, items: seq<Json>, i: nat, q: nat, next: nat, end: nat)
    requires CommaThen(text, p, q) && q <= |text| && next <= |text| && 0 < i < |items|
    requires ValueAt(text, q) == Ok(next, items[i])
    requires ItemsAt(text, Skip(text, next)) == Ok(end, items[i + 1..])
    ensures ItemsAt(text, Skip(text, p)) == Ok(end, items[i..])
  {
    hide ValueAt;
    SkipNothing(text, p);
    assert items[i..] == [items[i]] + items[i + 1..];
  }

  lemma ItemsEnd(text: seq<Char>, p: nat, items: seq<Json>)
    requires p < |text| && text[p] == RBRACKET
    ensures ItemsAt(text, p) == Ok(p + 1, items[|items|..])
  {
    assert items[|items|..] == [];
  }

  // The loop of parseArray, entered after element i.
  lemma {:induction false} ItemsChain(text: seq<Char>, items: seq<Json>, starts: seq<nat>, ends: seq<nat>, close: nat, i: nat)
    requires Laid(text, starts, ends, close, RBRACKET) && i < |items| == |starts|
    requires forall k :: 0 <= k < |items| ==> ValueAt(text, starts[k]) == Ok(ends[k], items[k])
    ensures ItemsAt(text, Skip(text, ends[i])) == Ok(close + 1, items[i + 1..])
    decreases |items| - i
  {
    hide ValueAt, ItemsAt;
    if i == |items| - 1 {
      ItemsEnd(text, close, items);
    } else {
      ItemsChain(text, items, starts, ends, close, i + 1);
      assert CommaThen(text, ends[i], starts[i + 1]);
      ItemsStep(text, ends[i], items, i + 1, starts[i + 1], ends[i + 1], close + 1);
    }
  }

  lemma ArrayReads(text: seq<Char>, p: nat, items: seq<Json>, starts: seq<nat>, ends: seq<nat>, close: nat)
    requires Laid(text, starts, ends, close, RBRACKET) && |items| == |starts|
    requires forall k :: 0 <= k < |items| ==> ValueAt(text, starts[k]) == Ok(ends[k], items[k])
    requires p < |text| && text[p] == LBRACKET && Skip(text, p + 1) == starts[0] && text[starts[0]] != RBRACKET
    ensures ArrayAt(text, p) == Ok(close + 1, Arr(items))
  {
    hide ValueAt, ItemsAt, ArrayAt, Laid, Skip;
    LaidFirst(text, starts, ends, close, RBRACKET);
    ItemsChain(text, items, starts, ends, close, 0);
    ArrayStep(text, p, items, starts[0], ends[0], close + 1);
  }

  lemma ArrayStep(text: seq<Char>, p: nat, items: seq<Json>, q: nat, next: nat, end: nat)
    requires p < |text| && text[p] == LBRACKET && items != []
    requires q < |text| && Skip(text, p + 1) == q && text[q] != RBRACKET
    requires next <= |text| && ValueAt(text, q) == Ok(next, items[0])
    requires ItemsAt(text, Skip(text, next)) == Ok(end, items[1..])
    ensures ArrayAt(text, p) == Ok(end, Arr(items))
  {
    hide ValueAt, ItemsAt;
    SkipNothing(text, q);
    assert items == [items[0]] + items[1..];
  }

  // One turn of the loop of parseObject.
  lemma MembersStep(text: seq<Char>, p: nat, members: seq<Member>, i: nat, q: nat, next: nat, end: nat)
    requires CommaThen(text, p, q) && q <= |text| && next <= |text| && 0 < i < |members|
    requires MemberAt(text, q) == Ok(next, members[i])
    requires MembersAt(text, Skip(text, next)) == Ok(end, members[i + 1..])
    ensures MembersAt(text, Skip(text, p)) == Ok(end, members[i..])
  {
    hide MemberAt;
    SkipNothing(text, p);
    assert members[i..] == [members[i]] + members[i + 1..];
  }

  lemma MembersEnd(text: seq<Char>, p: nat, members: seq<Member>)
    requires p < |text| && text[p] == RBRACE
    ensures MembersAt(text, p) == Ok(p + 1, members[|members|..])
  {
    assert members[|members|..] == [];
  }

  // The loop of parseObject, entered after member i.
  lemma {:induction false} MembersChain(text: seq<Char>, members: seq<Member>, starts: seq<nat>, ends: seq<nat>, close: nat, i: nat)
    requires Laid(text, starts, ends, close, RBRACE) && i < |members| == |starts|
    requires forall k :: 0 <= k < |members| ==> MemberAt(text, starts[k]) == Ok(ends[k], members[k])
    ensures MembersAt(text, Skip(text, ends[i])) == Ok(close + 1, members[i + 1..])
    decreases |members| - i
  {
    hide MemberAt, MembersAt;
    if i == |members| - 1 {
      MembersEnd(text, close, members);
    } else {
      MembersChain(text, members, starts, ends, close, i + 1);
      assert CommaThen(text, ends[i], starts[i + 1]);
      MembersStep(text, ends[i], members, i + 1, starts[i + 1], ends[i + 1], close + 1);
    }
  }

  lemma ObjectReads(text: seq<Char>, p: nat, members: seq<Member>, starts: seq<nat>, ends: seq<nat>, close: nat)
    requires Laid(text, starts, ends, close, RBRACE) && |members| == |starts|
    requires forall k :: 0 <= k < |members| ==> MemberAt(text, starts[k]) == Ok(ends[k], members[k])
    requires p < |text| && text[p] == LBRACE && Skip(text, p + 1) == starts[0] && text[starts[0]] == QUOTE
    ensures ObjectAt(text, p) == Ok(close + 1, Obj(members))
  {
    hide MemberAt, MembersAt, ObjectAt, Laid, Skip;
    LaidFirst(text, starts, ends, close, RBRACE);
    MembersChain(text, members, starts, ends, close, 0);
    ObjectStep(text, p, members, starts[0], ends[0], close + 1);
  }

  lemma ObjectStep(text: seq<Char>, p: nat, members: seq<Member>, q: nat, next: nat, end: nat)
    requires p < |text| && text[p] == LBRACE && members != []
    requires q < |text| && Skip(text, p + 1) == q && text[q] == QUOTE
    requires next <= |text| && MemberAt(text, q) == Ok(next, members[0])
    requires MembersAt(text, Skip(text, next)) == Ok(end, members[1..])
    ensures ObjectAt(text, p) == Ok(end, Obj(members))
  {
    hide MemberAt, MembersAt;
    SkipNothing(text, q);
    assert members == [members[0]] + members[1..];
  }

  // Name, colon and value read one after the other.
  lemma MemberReads(text: seq<Char>, q: nat, c: nat, v: nat, end: nat, m: Member)
    requires q <= |text| && c < |text| && v <= |text|
    requires StringAt(text, q) == Ok(c, m.name) && text[c] == COLON
    requires Skip(text, c + 1) == v && ValueAt(text, v) == Ok(end, m.value)
    ensures MemberAt(text, q) == Ok(end, m)
  {
    hide ValueAt, StringAt;
    SkipNothing(text, c);
  }

  // ---------- induction over the tree ----------

  lemma {:induction false} TreeRead(t: Json, depth: nat, fmt: bool, text: seq<Char>, p: nat)
    requires Printable(t)
    requires StandsAt(text, p, TreeText(t, depth, fmt))
    requires t.Number? ==> EndsNumber(text, p + |TreeText(t, depth, fmt)|)
    ensures ValueAt(text, p) == Ok(p + |TreeText(t, depth, fmt)|, t)
    decreases t, 1
  {
    hide ArrayAt, ObjectAt, NumberAt, StringAt;
    var s := TreeText(t, depth, fmt);
    TreeStarts(t, depth, fmt);
    StandsChar(text, p, s, 0);
    LiteralHeads(text, p);
    match t
    case Null =>
    case Bool(b) =>
    case Number(d) => NumberRead(text, p, d.Floor);
    case Str(v) => StringRead(text, p, v);
    case Arr(items) => ArrayRead(t, depth, fmt, text, p);
    case Obj(members) => ObjectRead(t, depth, fmt, text, p);
  }

  lemma EntriesVisible(items: seq<Json>, depth: nat, fmt: bool)
    ensures Visible(Entries(items, depth, fmt))
    ensures forall k :: 0 <= k < |items| ==> Entries(items, depth, fmt)[k][0] != RBRACKET
  {
    forall k | 0 <= k < |items|
      ensures |Entries(items, depth, fmt)[k]| > 0 && StartsValue(Entries(items, depth, fmt)[k][0])
    {
      TreeStarts(items[k], depth, fmt);
    }
  }

  lemma EmptyArrayRead(text: seq<Char>, p: nat, fmt: bool)
    requires StandsAt(text, p, ArrayText([], fmt)) && p < |text| && text[p] == LBRACKET
    ensures ArrayAt(text, p) == Ok(p + 2, Arr([]))
  {
    hide ValueAt, ItemsAt;
    StandsChar(text, p, ArrayText([], fmt), 1);
    SkipNothing(text, p + 1);
  }

  // Where the elements of an array and its closing bracket stand.
  lemma ArrayLayout(els: seq<Char>, text: seq<Char>, p: nat)
    requires StandsAt(text, p, [LBRACKET] + els + [RBRACKET])
    ensures StandsAt(text, p + 1, els) && p + 1 + |els| < |text| && text[p + 1 + |els|] == RBRACKET
  {
    hide StandsAt;
    StandsSplit(text, p, [LBRACKET] + els, [RBRACKET]);
    StandsSplit(text, p, [LBRACKET], els);
    StandsChar(text, p + 1 + |els|, [RBRACKET], 0);
  }

  lemma {:induction false} ArrayRead(t: Json, depth: nat, fmt: bool, text: seq<Char>, p: nat)
    requires t.Arr? && Printable(t)
    requires StandsAt(text, p, TreeText(t, depth, fmt)) && p < |text| && text[p] == LBRACKET
    ensures ArrayAt(text, p) == Ok(p + |TreeText(t, depth, fmt)|, t)
    decreases t, 0, 2
  {
    hide ArrayAt, ValueAt, ItemsAt, StandsAt, Laid, EndsNumber, Printable, ElementsText, Skip;
    var items := t.items;
    var entries := Entries(items, depth + 1, fmt);
    assert TreeText(t, depth, fmt) == ArrayText(entries, fmt);
    hide TreeText;
    if items == [] {
      assert entries == [];
      EmptyArrayRead(text, p, fmt);
    } else {
      EntriesVisible(items, depth + 1, fmt);
      var els := ElementsText(entries, 0, fmt);
      ArrayLayout(els, text, p);
      var starts, ends := ElementsLayout(entries, 0, fmt, text, p + 1);
      LaidEnds(text, starts, ends, p + 1 + |els|, RBRACKET);
      ElementsEach(t, depth, fmt, text, entries, starts, ends);
      StandsChar(text, p + 1, entries[0], 0);
      SkipNothing(text, p + 1);
      ArrayReads(text, p, items, starts, ends, p + 1 + |els|);
    }
  }

  lemma {:induction false} ElementsEach(t: Json, depth: nat, fmt: bool, text: seq<Char>,
                                        entries: seq<seq<Char>>, starts: seq<nat>, ends: seq<nat>)
    requires t.Arr? && Printable(t) && entries == Entries(t.items, depth + 1, fmt)
    requires |starts| == |ends| == |entries|
    requires forall k :: 0 <= k < |starts| ==>
                           && ElementStands(text, starts[k], ends[k], entries[k])
                           && EndsNumber(text, ends[k])
    ensures forall k :: 0 <= k < |starts| ==> starts[k] <= |text| && ValueAt(text, starts[k]) == Ok(ends[k], t.items[k])
    decreases t, 0, 1
  {
    hide ValueAt, TreeText;
    forall k | 0 <= k < |starts|
      ensures starts[k] <= |text| && ValueAt(text, starts[k]) == Ok(ends[k], t.items[k])
    {
      TreeRead(t.items[k], depth + 1, fmt, text, starts[k]);
    }
  }

  function MemberEntries(members: seq<Member>, depth: nat, fmt: bool): (es: seq<seq<Char>>)
    ensures |es| == |members|
    ensures forall i :: 0 <= i < |members| ==> es[i] == TreeText(members[i].value, depth, fmt)
  {
    seq(|members|, i requires 0 <= i < |members| => TreeText(members[i].value, depth, fmt))
  }

  lemma {:induction false} MemberRead(t: Json, i: nat, depth: nat, fmt: bool, text: seq<Char>, start: nat, end: nat)
    requires t.Obj? && Printable(t) && i < |t.members|
    requires MemberStands(text, start, end, t.members[i].name, TreeText(t.members[i].value, depth, fmt), depth, fmt)
    requires EndsNumber(text, end)
    ensures start <= |text| && MemberAt(text, start) == Ok(end, t.members[i])
    decreases t, 0, 0
  {
    hide ValueAt, TreeText, MemberAt, StringAt, MemberText;
    var name, value := t.members[i].name, t.members[i].value;
    var q, c, v := MemberLayout(name, TreeText(value, depth, fmt), depth, fmt, text, start - (if fmt then depth else 0));
    StringRead(text, q, name);
    SkipToValue(text, v, value, depth, fmt);
    TreeRead(value, depth, fmt, text, v);
    MemberReads(text, q, c, v, end, t.members[i]);
  }

  lemma {:induction false} MembersEach(t: Json, depth: nat, fmt: bool, text: seq<Char>,
                                       entries: seq<seq<Char>>, starts: seq<nat>, ends: seq<nat>)
    requires t.Obj? && Printable(t) && entries == MemberEntries(t.members, depth, fmt)
    requires |starts| == |ends| == |entries|
    requires forall k :: 0 <= k < |starts| ==>
                           && MemberStands(text, starts[k], ends[k], t.members[k].name, entries[k], depth, fmt)
                           && EndsNumber(text, ends[k])
    ensures forall k :: 0 <= k < |starts| ==> starts[k] <= |text| && MemberAt(text, starts[k]) == Ok(ends[k], t.members[k])
    decreases t, 0, 1
  {
    hide MemberAt, TreeText, MemberStands;
    forall k | 0 <= k < |starts|
      ensures starts[k] <= |text| && MemberAt(text, starts[k]) == Ok(ends[k], t.members[k])
    {
      MemberRead(t, k, depth, fmt, text, starts[k], ends[k]);
    }
  }

  lemma EmptyObjectStep(text: seq<Char>, p: nat, q: nat)
    requires p < |text| && text[p] == LBRACE
    requires q < |text| && text[q] == RBRACE && Skip(text, p + 1) == q
    ensures ObjectAt(text, p) == Ok(q + 1, Obj([]))
  {
    hide MemberAt, MembersAt;
  }

  // A brace, white space and a brace.
  lemma EmptyBracesRead(blank: seq<Char>, text: seq<Char>, p: nat)
    requires StandsAt(text, p, [LBRACE] + (blank + [RBRACE])) && p < |text| && text[p] == LBRACE
    requires Blank(blank)
    ensures ObjectAt(text, p) == Ok(p + 2 + |blank|, Obj([]))
  {
    hide ObjectAt, StandsAt, Skip, Blank;
    var q := p + 1 + |blank|;
    StandsSplit(text, p, [LBRACE], blank + [RBRACE]);
    StandsSplit(text, p + 1, blank, [RBRACE]);
    StandsChar(text, q, [RBRACE], 0);
    SkipBlank(text, p + 1, blank);
    SkipNothing(text, q);
    EmptyObjectStep(text, p, q);
  }

  lemma EmptyObjectRead(depth: nat, fmt: bool, text: seq<Char>, p: nat)
    requires StandsAt(text, p, ObjectText([], [], depth, fmt)) && p < |text| && text[p] == LBRACE
    ensures ObjectAt(text, p) == Ok(p + |ObjectText([], [], depth, fmt)|, Obj([]))
  {
    hide ObjectAt, StandsAt, MembersText;
    var blank := if fmt then [NEWLINE] + Tabs(if depth > 0 then depth - 1 else 0) else [];
    assert ObjectText([], [], depth, fmt) == [LBRACE] + (blank + [RBRACE]);
    EmptyBracesRead(blank, text, p);
  }

  // Where the members of an object, `body`, and its closing brace stand.
  lemma ObjectLayout(body: seq<Char>, newline: seq<Char>, tail: seq<Char>, text: seq<Char>, p: nat) returns (q: nat)
    requires Blank(newline) && StandsAt(text, p, [LBRACE] + newline + body + tail + [RBRACE])
    ensures StandsAt(text, q, body + tail + [RBRACE]) && Skip(text, p + 1) == Skip(text, q)
    ensures q == p + 1 + |newline|
  {
    hide StandsAt;
    assert [LBRACE] + newline + body + tail + [RBRACE] == [LBRACE] + (newline + (body + tail + [RBRACE]));
    StandsSplit(text, p, [LBRACE], newline + (body + tail + [RBRACE]));
    StandsSplit(text, p + 1, newline, body + tail + [RBRACE]);
    SkipBlank(text, p + 1, newline);
    q := p + 1 + |newline|;
  }

  lemma {:induction false} ObjectRead(t: Json, depth: nat, fmt: bool, text: seq<Char>, p: nat)
    requires t.Obj? && Printable(t)
    requires StandsAt(text, p, TreeText(t, depth, fmt)) && p < |text| && text[p] == LBRACE
    ensures ObjectAt(text, p) == Ok(p + |TreeText(t, depth, fmt)|, t)
    decreases t, 0, 2
  {
    hide ObjectAt, MemberAt, MembersText, Laid, MemberStands, StandsAt, EndsNumber, Printable, Skip;
    var names, entries := Names(t.members), MemberEntries(t.members, depth + 1, fmt);
    assert TreeText(t, depth, fmt) == ObjectText(names, entries, depth, fmt);
    hide TreeText;
    if t.members == [] {
      assert names == [] && entries == [];
      EmptyObjectRead(depth, fmt, text, p);
    } else {
      var newline, tail := if fmt then [NEWLINE] else [], if fmt then Tabs(depth) else [];
      var body := MembersText(names, entries, 0, depth + 1, fmt);
      var q := ObjectLayout(body, newline, tail, text, p);
      var starts, ends := MembersLayout(names, entries, 0, depth + 1, fmt, tail, text, q);
      LaidEnds(text, starts, ends, q + |body| + |tail|, RBRACE);
      MembersEach(t, depth + 1, fmt, text, entries, starts, ends);
      ObjectReads(text, p, t.members, starts, ends, q + |body| + |tail|);
    }
  }

  // ---------- the law ----------

  // Parse(PrintValue(t)) is t.
  lemma ParseUndoesPrint(t: Json, depth: nat, fmt: bool)
    requires Printable(t)
    ensures Document(TreeText(t, depth, fmt)) == Ok(|TreeText(t, depth, fmt)|, t)
  {
    var s := TreeText(t, depth, fmt);
    SkipToValue(s, 0, t, depth, fmt);
    TreeRead(t, depth, fmt, s, 0);
  }

  // Two trees with the same text, in whatever formats, are the same tree.
  lemma PrintIsInjective(t: Json, u: Json, depth: nat, depth': nat, fmt: bool, fmt': bool)
    requires Printable(t) && Printable(u)
    requires TreeText(t, depth, fmt) == TreeText(u, depth', fmt')
    ensures t == u
  {
    ParseUndoesPrint(t, depth, fmt);
    ParseUndoesPrint(u, depth', fmt');
  }

  // ---------- without rounding ----------

  // The whole numbers up to this are the ones a double holds exactly, with all those before them.
  const EXACT_LIMIT := 0x20_0000_0000_0000

  ghost predicate ExactNumbers(t: Json) {
    match t
    case Number(d) => d == d.Floor as real && -EXACT_LIMIT <= d.Floor <= EXACT_LIMIT
    case Arr(items) => forall i :: 0 <= i < |items| ==> ExactNumbers(items[i])
    case Obj(members) => forall i :: 0 <= i < |members| ==> ExactNumbers(members[i].value)
    case _ => true
  }

  // While the digits of n are read, the accumulator stays in that range.
  ghost predicate ReadExactly(n: nat) {
    forall k :: 0 <= k <= |Digits(n)| ==> AllDigits(Digits(n)) && Decimal(Digits(n), 0, k, 0) <= EXACT_LIMIT
  }

  predicate AllDigits(s: seq<Char>) {
    forall i :: 0 <= i < |s| ==> IsDigit(s[i])
  }

  ghost predicate NumbersReadExactly(t: Json) {
    match t
    case Number(d) => ReadExactly(if d.Floor < 0 then -d.Floor else d.Floor)
    case Arr(items) => forall i :: 0 <= i < |items| ==> NumbersReadExactly(items[i])
    case Obj(members) => forall i :: 0 <= i < |members| ==> NumbersReadExactly(members[i].value)
    case _ => true
  }

  lemma SmallReadExactly(n: nat)
    requires n <= EXACT_LIMIT
    ensures ReadExactly(n)
  {
    var s := Digits(n);
    DigitsAreDigits(n);
    DecimalRead(s, 0, n);
    forall k | 0 <= k <= |s|
      ensures AllDigits(s) && Decimal(s, 0, k, 0) <= EXACT_LIMIT
    {
      AccumulatorBounded(s, 0, k, |s|);
    }
  }

  lemma ExactIsWhole(v: int)
    requires -EXACT_LIMIT <= v <= EXACT_LIMIT
    ensures -v < TenTo(60) && v < TenTo(60)
  {
    assert TenTo(8) == 100_000_000;
    assert TenTo(16) == 100_000_000 * TenTo(8) by { assert TenTo(12) == 10000 * TenTo(8); }
    TenToGrows(16, 60);
  }

  lemma {:induction false} TenToGrows(j: nat, k: nat)
    requires j <= k
    ensures TenTo(j) <= TenTo(k)
    decreases k
  {
    if j < k {
      TenToGrows(j, k - 1);
    }
  }

  lemma {:induction false} ExactTree(t: Json)
    requires ExactNumbers(t)
    ensures Printable(t) && NumbersReadExactly(t)
  {
    hide TenTo, ReadExactly;
    match t
    case Number(d) =>
      ExactIsWhole(d.Floor);
      SmallReadExactly(if d.Floor < 0 then -d.Floor else d.Floor);
    case Arr(items) =>
      forall i | 0 <= i < |items| ensures Printable(items[i]) && NumbersReadExactly(items[i]) {
        ExactTree(items[i]);
      }
    case Obj(members) =>
      forall i | 0 <= i < |members| ensures Printable(members[i].value) && NumbersReadExactly(members[i].value) {
        ExactTree(members[i].value);
      }
    case _ =>
  }

  // For whole numbers up to 2^53 the law holds of the double-precision parser as well: no value it accumulates is rounded.
  lemma ParseUndoesPrintExactly(t: Json, depth: nat, fmt: bool)
    requires ExactNumbers(t)
    ensures Document(TreeText(t, depth, fmt)) == Ok(|TreeText(t, depth, fmt)|, t)
    ensures NumbersReadExactly(t)
  {
    ExactTree(t);
    ParseUndoesPrint(t, depth, fmt);
  }
}
