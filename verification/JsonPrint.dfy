// What the printer of OVR_JSON.cpp writes, as functions of the tree, and how much memory it asks for first.
module JsonPrint {
  import opened Wrappers
  import opened JsonText
  import opened JsonGrammar

  // ---------- numbers ----------

  // PrintNumber writes a 32-bit integer with %d and any other whole number below 10^60 with %.0f. What is left goes
  // through %f or %e and is not modelled.
  ghost predicate IsWhole(d: real) {
    d == d.Floor as real && -d.Floor < TenTo(60) && d.Floor < TenTo(60)
  }

  predicate IsInt32(v: int) {
    -0x8000_0000 <= v <= 0x7FFF_FFFF
  }

  // The block PrintNumber allocates.
  function NumberBlock(d: real): nat {
    if IsInt32(d.Floor) then 21 else 64
  }

  function TenTo(k: nat): nat {
    if k == 0 then 1 else 10 * TenTo(k - 1)
  }

  function Digits(n: nat): (s: seq<Char>)
    ensures |s| > 0
  {
    if n < 10 then [48 + n] else Digits(n / 10) + [48 + n % 10]
  }

  function IntText(v: int): (s: seq<Char>)
    ensures |s| > 0
  {
    if v < 0 then [MINUS] + Digits(-v) else Digits(v)
  }

  // ---------- strings ----------

  function HexDigit(v: nat, upper: bool): Char
    requires v < 16
  {
    if v < 10 then 48 + v else if upper then 65 + v - 10 else 97 + v - 10
  }

  // A \u escape of one 16-bit unit.
  function UnitText(w: nat, upper: bool): (s: seq<Char>)
    requires w < 0x10000
    ensures |s| == 6
  {
    [BACKSLASH, LETTER_U, HexDigit(w / 4096, upper), HexDigit(w / 256 % 16, upper), HexDigit(w / 16 % 16, upper),
     HexDigit(w % 16, upper)]
  }

  predicate NeedsEscape(c: Char) {
    c < 32 || c == QUOTE || c == BACKSLASH
  }

  // The letter after the backslash for the characters that have one.
  function ShortEscape(c: Char): Option<Char> {
    if c == BACKSLASH || c == QUOTE then Some(c)
    else if c == BACKSPACE then Some(LETTER_B)
    else if c == FORMFEED then Some(LETTER_F)
    else if c == NEWLINE then Some(LETTER_N)
    else if c == RETURN then Some(LETTER_R)
    else if c == TAB then Some(LETTER_T)
    else None
  }

  function CharText(c: Char): (s: seq<Char>)
    ensures 1 <= |s| <= 6
  {
    if !NeedsEscape(c) then [c]
    else if ShortEscape(c).Some? then [BACKSLASH, ShortEscape(c).value]
    else UnitText(c, false)
  }

  function CharsText(s: seq<Char>): seq<Char> {
    if s == [] then [] else CharText(s[0]) + CharsText(s[1..])
  }

  function StringText(s: seq<Char>): (t: seq<Char>)
    ensures |t| == |CharsText(s)| + 2 && t[0] == QUOTE
  {
    [QUOTE] + CharsText(s) + [QUOTE]
  }

  // ---------- trees ----------

  function Tabs(n: nat): (s: seq<Char>)
    ensures |s| == n && Blank(s)
  {
    seq(n, _ => TAB)
  }

  // The elements from the i-th on, with what separates them.
  function ElementsText(entries: seq<seq<Char>>, i: nat, fmt: bool): seq<Char>
    requires i < |entries|
    decreases |entries| - i
  {
    if i == |entries| - 1 then entries[i]
    else entries[i] + [COMMA] + (if fmt then [SPACE] else []) + ElementsText(entries, i + 1, fmt)
  }

  function ArrayText(entries: seq<seq<Char>>, fmt: bool): seq<Char> {
    if entries == [] then [LBRACKET, RBRACKET]
    else [LBRACKET] + ElementsText(entries, 0, fmt) + [RBRACKET]
  }

  function MemberText(name: seq<Char>, entry: seq<Char>, depth: nat, fmt: bool): (s: seq<Char>)
    ensures |s| == |StringText(name)| + 1 + |entry| + (if fmt then depth + 1 else 0)
  {
    (if fmt then Tabs(depth) else []) + StringText(name) + [COLON] + (if fmt then [TAB] else []) + entry
  }

  // The members from the i-th on; `depth` is that of the members.
  function MembersText(names: seq<seq<Char>>, entries: seq<seq<Char>>, i: nat, depth: nat, fmt: bool): seq<Char>
    requires i < |names| == |entries|
    decreases |entries| - i
  {
    var ending := if fmt then [NEWLINE] else [];
    if i == |entries| - 1 then MemberText(names[i], entries[i], depth, fmt) + ending
    else MemberText(names[i], entries[i], depth, fmt) + [COMMA] + ending
         + MembersText(names, entries, i + 1, depth, fmt)
  }

  function ObjectText(names: seq<seq<Char>>, entries: seq<seq<Char>>, depth: nat, fmt: bool): seq<Char>
    requires |names| == |entries|
  {
    if entries == [] then
      [LBRACE] + (if fmt then [NEWLINE] + Tabs(if depth > 0 then depth - 1 else 0) else []) + [RBRACE]
    else
      [LBRACE] + (if fmt then [NEWLINE] else [])
      + MembersText(names, entries, 0, depth + 1, fmt)
      + (if fmt then Tabs(depth) else []) + [RBRACE]
  }

  // Trees that the printer writes without floating-point formats.
  ghost predicate Printable(t: Json) {
    match t
    case Number(d) => IsWhole(d)
    case Arr(items) => forall i :: 0 <= i < |items| ==> Printable(items[i])
    case Obj(members) => forall i :: 0 <= i < |members| ==> Printable(members[i].value)
    case _ => true
  }

  function Names(members: seq<Member>): (names: seq<seq<Char>>)
    ensures |names| == |members|
  {
    seq(|members|, i requires 0 <= i < |members| => members[i].name)
  }

  function TreeText(t: Json, depth: nat, fmt: bool): (s: seq<Char>)
    ensures |s| > 0 || t.Number?
  {
    match t
    case Null => NULL_TEXT
    case Bool(b) => if b then TRUE_TEXT else FALSE_TEXT
    case Number(d) => IntText(d.Floor)
    case Str(s) => StringText(s)
    case Arr(items) => ArrayText(seq(|items|, i requires 0 <= i < |items| => TreeText(items[i], depth + 1, fmt)), fmt)
    case Obj(members) =>
      ObjectText(Names(members),
                 seq(|members|, i requires 0 <= i < |members| => TreeText(members[i].value, depth + 1, fmt)),
                 depth, fmt)
  }

  // ---------- the memory asked for ----------

  // PrintString counts two characters for a short escape and six for a \u escape.
  function EscapedLength(s: seq<Char>): nat {
    if s == [] then 0
    else (if ShortEscape(s[0]).Some? then 2 else if s[0] < 32 then 6 else 1) + EscapedLength(s[1..])
  }

  // PrintArray, PrintObject: running totals over the entries.
  function ElementsLength(entries: seq<seq<Char>>, n: nat, fmt: bool): nat
    requires n <= |entries|
  {
    if n == 0 then 5 else ElementsLength(entries, n - 1, fmt) + |entries[n - 1]| + 2 + (if fmt then 1 else 0)
  }

  function MembersLength(names: seq<seq<Char>>, entries: seq<seq<Char>>, n: nat, depth: nat, fmt: bool): nat
    requires n <= |names| == |entries|
  {
    if n == 0 then 7 + (if fmt then depth else 0)
    else MembersLength(names, entries, n - 1, depth, fmt)
         + |entries[n - 1]| + |StringText(names[n - 1])| + 2 + (if fmt then 2 + depth else 0)
  }

  // The block PrintValue allocates for its result.
  function Capacity(t: Json, depth: nat, fmt: bool): nat {
    match t
    case Null => 5
    case Bool(b) => if b then 5 else 6
    case Number(d) => NumberBlock(d)
    case Str(s) => EscapedLength(s) + 3
    case Arr(items) =>
      if items == [] then 3
      else ElementsLength(seq(|items|, i requires 0 <= i < |items| => TreeText(items[i], depth + 1, fmt)), |items|, fmt)
    case Obj(members) =>
      if members == [] then (if fmt then depth + 3 else 3)
      else MembersLength(Names(members),
                         seq(|members|, i requires 0 <= i < |members| => TreeText(members[i].value, depth + 1, fmt)),
                         |members|, depth + 1, fmt)
  }

  // The one case in which the block is too small: an object without members, formatted, at depth 0.
  predicate BareObject(t: Json, depth: nat, fmt: bool) {
    fmt && depth == 0 && t == Obj([])
  }

  lemma {:induction false} EscapedLengthExact(s: seq<Char>)
    ensures |CharsText(s)| == EscapedLength(s)
    decreases |s|
  {
    if s != [] {
      EscapedLengthExact(s[1..]);
    }
  }

  lemma {:induction false} ElementsFit(entries: seq<seq<Char>>, i: nat, fmt: bool)
    requires i < |entries|
    ensures ElementsLength(entries, i, fmt) + |ElementsText(entries, i, fmt)| <= ElementsLength(entries, |entries|, fmt)
    decreases |entries| - i
  {
    if i < |entries| - 1 {
      ElementsFit(entries, i + 1, fmt);
    }
  }

  lemma {:induction false} MembersFit(names: seq<seq<Char>>, entries: seq<seq<Char>>, i: nat, depth: nat, fmt: bool)
    requires i < |names| == |entries|
    ensures MembersLength(names, entries, i, depth, fmt) + |MembersText(names, entries, i, depth, fmt)|
            <= MembersLength(names, entries, |entries|, depth, fmt)
    decreases |entries| - i
  {
    hide MemberText, StringText;
    if i < |entries| - 1 {
      MembersFit(names, entries, i + 1, depth, fmt);
    }
  }

  lemma {:induction false} DigitsShort(n: nat, k: nat, bound: nat)
    requires 0 < k && n < bound && bound == TenTo(k)
    ensures |Digits(n)| <= k
    decreases k
  {
    if n >= 10 {
      assert TenTo(1) == 10;
      DigitsShort(n / 10, k - 1, TenTo(k - 1));
    }
  }

  // The digits of a whole number, its sign and the terminator fit the block.
  lemma WholeFits(v: int)
    requires -v < TenTo(60) && v < TenTo(60)
    ensures |IntText(v)| < NumberBlock(v as real)
  {
    hide TenTo;
    var n: nat := if v < 0 then -v else v;
    DigitsShort(n, 60, TenTo(60));
    if IsInt32(v) {
      TenToTen();
      DigitsShort(n, 10, TenTo(10));
    }
  }

  lemma TenToTen()
    ensures TenTo(10) == 10_000_000_000
  {
    assert TenTo(5) == 100_000;
  }

  // The text and its terminator fit the block at every depth, except in the one case.
  lemma CapacityExact(t: Json, depth: nat, fmt: bool)
    requires Printable(t)
    ensures |TreeText(t, depth, fmt)| + 1 <= Capacity(t, depth, fmt) <==> !BareObject(t, depth, fmt)
  {
    match t
    case Number(d) => WholeFits(d.Floor);
    case Str(s) => EscapedLengthExact(s);
    case Arr(items) =>
      if items != [] {
        var entries := seq(|items|, i requires 0 <= i < |items| => TreeText(items[i], depth + 1, fmt));
        ElementsFit(entries, 0, fmt);
      }
    case Obj(members) =>
      if members != [] {
        var entries := seq(|members|, i requires 0 <= i < |members| => TreeText(members[i].value, depth + 1, fmt));
        MembersFit(Names(members), entries, 0, depth + 1, fmt);
      }
    case _ =>
  }
}
