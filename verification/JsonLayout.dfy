// The layout of printed text: the formatted and the unformatted text of a tree are rewritten into each other, from left
// to right, by a scanner that knows nothing of trees. It drops all white space outside strings and puts in its own.
module JsonLayout {
  import opened JsonText
  import opened JsonGrammar
  import opened JsonPrint

  datatype Mode = Outside | InString | Escaped

  // The brackets open at a place, innermost first.
  datatype Place = Top | InArray(outer: Place) | InObject(outer: Place)

  // `line` is set where an indented line is about to begin: after the opening brace of an object and after a comma in it.
  datatype Scan = Scan(mode: Mode, place: Place, depth: nat, line: bool)

  datatype Laid = Laid(after: Scan, out: seq<Char>)

  function Outer(place: Place): Place {
    if place.Top? then place else place.outer
  }

  function Less(depth: nat, n: nat): nat {
    if depth < n then 0 else depth - n
  }

  // One character, and what comes before or after it. An object without members ends one tab further to the left than
  // the line it began on.
  function Lay(st: Scan, c: Char, fmt: bool): Laid {
    match st.mode
    case InString =>
      Laid(st.(mode := if c == QUOTE then Outside else if c == BACKSLASH then Escaped else InString), [c])
    case Escaped => Laid(st.(mode := InString), [c])
    case Outside =>
      if c <= SPACE then Laid(st, [])
      else if c == QUOTE then Laid(st.(mode := InString, line := false), Indent(st, fmt) + [c])
      else if c == LBRACKET then Laid(Scan(Outside, InArray(st.place), st.depth + 1, false), [c])
      else if c == RBRACKET then Laid(Scan(Outside, Outer(st.place), Less(st.depth, 1), false), [c])
      else if c == LBRACE then Laid(Scan(Outside, InObject(st.place), st.depth + 1, true), [c] + NewLine(fmt))
      else if c == RBRACE then
        Laid(Scan(Outside, Outer(st.place), Less(st.depth, 1), false),
             if !fmt then [c] else if st.line then Tabs(Less(st.depth, 2)) + [c] else [NEWLINE] + Tabs(Less(st.depth, 1)) + [c])
      else if c == COMMA && st.place.InObject? then Laid(st.(line := true), [c] + NewLine(fmt))
      else if c == COMMA then Laid(st, [c] + (if fmt then [SPACE] else []))
      else if c == COLON then Laid(st, [c] + (if fmt then [TAB] else []))
      else Laid(st, [c])
  }

  function Indent(st: Scan, fmt: bool): seq<Char> {
    if fmt && st.line then Tabs(st.depth) else []
  }

  function NewLine(fmt: bool): seq<Char> {
    if fmt then [NEWLINE] else []
  }

  function Run(st: Scan, s: seq<Char>, fmt: bool): Laid
    decreases |s|
  {
    if s == [] then Laid(st, [])
    else
      var a := Lay(st, s[0], fmt);
      var b := Run(a.after, s[1..], fmt);
      Laid(b.after, a.out + b.out)
  }

  // Reading s takes the scanner from st to st' and writes out.
  predicate Becomes(st: Scan, s: seq<Char>, st': Scan, out: seq<Char>, fmt: bool) {
    Run(st, s, fmt) == Laid(st', out)
  }

  lemma {:induction false} Join(a: Scan, s: seq<Char>, b: Scan, o: seq<Char>, t: seq<Char>, c: Scan, q: seq<Char>, fmt: bool)
    requires Becomes(a, s, b, o, fmt) && Becomes(b, t, c, q, fmt)
    ensures Becomes(a, s + t, c, o + q, fmt)
    decreases |s|
  {
    hide Lay;
    if s == [] {
      assert s + t == t && o + q == q;
    } else {
      var l := Lay(a, s[0], fmt);
      var r := Run(l.after, s[1..], fmt);
      Join(l.after, s[1..], b, r.out, t, c, q, fmt);
      assert (s + t)[1..] == s[1..] + t && (s + t)[0] == s[0];
      Associates(l.out, r.out, q);
    }
  }

  lemma Associates(a: seq<Char>, b: seq<Char>, c: seq<Char>)
    ensures a + b + c == a + (b + c)
  {
  }

  lemma One(st: Scan, c: Char, fmt: bool)
    ensures Becomes(st, [c], Lay(st, c, fmt).after, Lay(st, c, fmt).out, fmt)
  {
    hide Lay;
    assert [c][1..] == [];
    assert Run(Lay(st, c, fmt).after, [], fmt) == Laid(Lay(st, c, fmt).after, []);
    assert Lay(st, c, fmt).out + [] == Lay(st, c, fmt).out;
  }

  lemma Nothing(st: Scan, fmt: bool)
    ensures Becomes(st, [], st, [], fmt)
  {
  }

  lemma {:induction false} Blanks(st: Scan, s: seq<Char>, fmt: bool)
    requires st.mode == Outside && Blank(s)
    ensures Becomes(st, s, st, [], fmt)
    decreases |s|
  {
    if s != [] {
      Blanks(st, s[1..], fmt);
    }
  }

  predicate Plain(s: seq<Char>) {
    forall i :: 0 <= i < |s| ==> s[i] > SPACE && s[i] !in {QUOTE, COMMA, COLON, LBRACKET, RBRACKET, LBRACE, RBRACE}
  }

  lemma {:induction false} PlainStays(st: Scan, s: seq<Char>, fmt: bool)
    requires st.mode == Outside && Plain(s)
    ensures Becomes(st, s, st, s, fmt)
    decreases |s|
  {
    if s != [] {
      PlainStays(st, s[1..], fmt);
      assert s == [s[0]] + s[1..];
    }
  }

  lemma {:induction false} DigitsPlain(n: nat)
    ensures Plain(Digits(n))
  {
    if n >= 10 {
      DigitsPlain(n / 10);
    }
  }

  // ---------- strings ----------

  // Inside a string: a character that is no quote and no backslash, or a backslash and a character.
  lemma CharStays(st: Scan, c: Char, fmt: bool)
    requires st.mode == InString
    ensures Becomes(st, CharText(c), st, CharText(c), fmt)
  {
    var t := CharText(c);
    if t[0] == BACKSLASH {
      PairStays(st, t[1], fmt);
      assert t == [t[0], t[1]] + t[2..];
      LettersStay(st, t[2..], fmt);
      Join(st, [t[0], t[1]], st, [t[0], t[1]], t[2..], st, t[2..], fmt);
    } else {
      LettersStay(st, t, fmt);
    }
  }

  lemma PairStays(st: Scan, c: Char, fmt: bool)
    requires st.mode == InString
    ensures Becomes(st, [BACKSLASH, c], st, [BACKSLASH, c], fmt)
  {
    One(st, BACKSLASH, fmt);
    One(st.(mode := Escaped), c, fmt);
    Join(st, [BACKSLASH], st.(mode := Escaped), [BACKSLASH], [c], st, [c], fmt);
    assert [BACKSLASH] + [c] == [BACKSLASH, c];
  }

  lemma {:induction false} LettersStay(st: Scan, s: seq<Char>, fmt: bool)
    requires st.mode == InString && forall i :: 0 <= i < |s| ==> s[i] != QUOTE && s[i] != BACKSLASH
    ensures Becomes(st, s, st, s, fmt)
    decreases |s|
  {
    if s != [] {
      LettersStay(st, s[1..], fmt);
      assert s == [s[0]] + s[1..];
    }
  }

  lemma {:induction false} CharsStay(st: Scan, s: seq<Char>, fmt: bool)
    requires st.mode == InString
    ensures Becomes(st, CharsText(s), st, CharsText(s), fmt)
    decreases |s|
  {
    hide Run, CharText;
    if s == [] {
      Nothing(st, fmt);
    } else {
      CharStays(st, s[0], fmt);
      CharsStay(st, s[1..], fmt);
      Join(st, CharText(s[0]), st, CharText(s[0]), CharsText(s[1..]), st, CharsText(s[1..]), fmt);
    }
  }

  lemma StringStays(st: Scan, s: seq<Char>, fmt: bool)
    requires st.mode == Outside
    ensures Becomes(st, StringText(s), st.(line := false), Indent(st, fmt) + StringText(s), fmt)
  {
    hide Run, Becomes, CharsText;
    var a := st.(mode := InString, line := false);
    One(st, QUOTE, fmt);
    CharsStay(a, s, fmt);
    One(a, QUOTE, fmt);
    Join(st, [QUOTE], a, Indent(st, fmt) + [QUOTE], CharsText(s), a, CharsText(s), fmt);
    Join(st, [QUOTE] + CharsText(s), a, Indent(st, fmt) + [QUOTE] + CharsText(s), [QUOTE], st.(line := false), [QUOTE], fmt);
    assert Indent(st, fmt) + [QUOTE] + CharsText(s) + [QUOTE] == Indent(st, fmt) + StringText(s);
  }

  // ---------- arrays ----------

  function Comma(fmt: bool): seq<Char> {
    [COMMA] + (if fmt then [SPACE] else [])
  }

  lemma CommaBecomes(st: Scan, g: bool, f: bool)
    requires st.mode == Outside && st.place.InArray?
    ensures Becomes(st, Comma(g), st, Comma(f), f)
  {
    hide Run, Becomes;
    One(st, COMMA, f);
    if g {
      Blanks(st, [SPACE], f);
      Join(st, [COMMA], st, Comma(f), [SPACE], st, [], f);
      assert Comma(f) + [] == Comma(f);
    } else {
      assert Comma(g) == [COMMA];
    }
  }

  // Each entry, read at st, is rewritten.
  predicate AllBecome(st: Scan, from: seq<seq<Char>>, to: seq<seq<Char>>, fmt: bool) {
    |from| == |to| && forall k :: 0 <= k < |from| ==> Becomes(st, from[k], st, to[k], fmt)
  }

  lemma {:induction false} ElementsBecome(st: Scan, from: seq<seq<Char>>, to: seq<seq<Char>>, i: nat, g: bool, f: bool)
    requires st.mode == Outside && st.place.InArray? && AllBecome(st, from, to, f) && i < |from|
    ensures Becomes(st, ElementsText(from, i, g), st, ElementsText(to, i, f), f)
    decreases |from| - i
  {
    hide Run, Becomes;
    if i < |from| - 1 {
      ElementsBecome(st, from, to, i + 1, g, f);
      CommaBecomes(st, g, f);
      Join(st, from[i], st, to[i], Comma(g), st, Comma(f), f);
      Join(st, from[i] + Comma(g), st, to[i] + Comma(f), ElementsText(from, i + 1, g), st, ElementsText(to, i + 1, f), f);
      CommaSplits(from, i, g);
      CommaSplits(to, i, f);
    }
  }

  lemma CommaSplits(entries: seq<seq<Char>>, i: nat, fmt: bool)
    requires i + 1 < |entries|
    ensures ElementsText(entries, i, fmt) == entries[i] + Comma(fmt) + ElementsText(entries, i + 1, fmt)
  {
    assert entries[i] + [COMMA] + (if fmt then [SPACE] else []) == entries[i] + Comma(fmt);
  }

  lemma ArrayBecomes(st: Scan, from: seq<seq<Char>>, to: seq<seq<Char>>, g: bool, f: bool)
    requires st.mode == Outside && !st.line
    requires AllBecome(Scan(Outside, InArray(st.place), st.depth + 1, false), from, to, f)
    ensures Becomes(st, ArrayText(from, g), st, ArrayText(to, f), f)
  {
    hide Run, Becomes, ElementsText;
    var a := Scan(Outside, InArray(st.place), st.depth + 1, false);
    One(st, LBRACKET, f);
    One(a, RBRACKET, f);
    assert [LBRACKET] + [RBRACKET] == [LBRACKET, RBRACKET];
    if from == [] {
      Join(st, [LBRACKET], a, [LBRACKET], [RBRACKET], st, [RBRACKET], f);
    } else {
      var s, t := ElementsText(from, 0, g), ElementsText(to, 0, f);
      ElementsBecome(a, from, to, 0, g, f);
      Join(st, [LBRACKET], a, [LBRACKET], s, a, t, f);
      Join(st, [LBRACKET] + s, a, [LBRACKET] + t, [RBRACKET], st, [RBRACKET], f);
    }
  }

  // ---------- objects ----------

  lemma ColonBecomes(st: Scan, g: bool, f: bool)
    requires st.mode == Outside
    ensures Becomes(st, [COLON] + (if g then [TAB] else []), st, [COLON] + (if f then [TAB] else []), f)
  {
    hide Run, Becomes;
    One(st, COLON, f);
    var t := [COLON] + (if f then [TAB] else []);
    if g {
      Blanks(st, [TAB], f);
      Join(st, [COLON], st, t, [TAB], st, [], f);
      assert t + [] == t;
    } else {
      assert [COLON] + [] == [COLON];
    }
  }

  // A character and a new line after it.
  lemma EndOfLine(st: Scan, c: Char, st': Scan, g: bool, f: bool)
    requires st'.mode == Outside && Becomes(st, [c], st', [c] + NewLine(f), f)
    ensures Becomes(st, [c] + NewLine(g), st', [c] + NewLine(f), f)
  {
    hide Run, Becomes;
    Blanks(st', NewLine(g), f);
    Join(st, [c], st', [c] + NewLine(f), NewLine(g), st', [], f);
    assert [c] + NewLine(f) + [] == [c] + NewLine(f);
  }

  lemma MemberBecomes(st: Scan, name: seq<Char>, from: seq<Char>, to: seq<Char>, d: nat, g: bool, f: bool)
    requires st.mode == Outside && !st.line && Becomes(st, from, st, to, f)
    ensures Becomes(st.(line := true), MemberText(name, from, d, g), st, MemberText(name, to, st.depth, f), f)
  {
    hide Run, Becomes, StringText;
    var l := st.(line := true);
    var tabs, colon, colon' := if g then Tabs(d) else [], [COLON] + (if g then [TAB] else []), [COLON] + (if f then [TAB] else []);
    var named := Indent(l, f) + StringText(name);
    Blanks(l, tabs, f);
    StringStays(l, name, f);
    ColonBecomes(st, g, f);
    Join(l, tabs, l, [], StringText(name), st, named, f);
    assert [] + named == named;
    Join(l, tabs + StringText(name), st, named, colon, st, colon', f);
    Join(l, tabs + StringText(name) + colon, st, named + colon', from, st, to, f);
    ColonSplits(name, from, d, g);
    ColonSplits(name, to, st.depth, f);
  }

  lemma ColonSplits(name: seq<Char>, entry: seq<Char>, d: nat, fmt: bool)
    ensures MemberText(name, entry, d, fmt)
            == (if fmt then Tabs(d) else []) + StringText(name) + ([COLON] + (if fmt then [TAB] else [])) + entry
  {
    hide StringText;
    var h := (if fmt then Tabs(d) else []) + StringText(name);
    assert h + [COLON] + (if fmt then [TAB] else []) == h + ([COLON] + (if fmt then [TAB] else []));
  }

  // The members from the i-th on, up to the last new line.
  lemma {:induction false} MembersBecome(st: Scan, names: seq<seq<Char>>, from: seq<seq<Char>>, to: seq<seq<Char>>, i: nat,
                                         d: nat, g: bool, f: bool) returns (out: seq<Char>)
    requires st.mode == Outside && !st.line && st.place.InObject? && AllBecome(st, from, to, f) && i < |names| == |from|
    ensures Becomes(st.(line := true), MembersText(names, from, i, d, g), st, out, f)
    ensures MembersText(names, to, i, st.depth, f) == out + NewLine(f)
    decreases |from| - i
  {
    hide Run, Becomes, MemberText;
    var l := st.(line := true);
    var s, t := MemberText(names[i], from[i], d, g), MemberText(names[i], to[i], st.depth, f);
    MemberBecomes(st, names[i], from[i], to[i], d, g, f);
    if i == |from| - 1 {
      out := t;
      Blanks(st, NewLine(g), f);
      Join(l, s, st, t, NewLine(g), st, [], f);
      assert t + [] == t;
    } else {
      var rest := MembersBecome(st, names, from, to, i + 1, d, g, f);
      var end, end' := [COMMA] + NewLine(g), [COMMA] + NewLine(f);
      out := t + end' + rest;
      One(st, COMMA, f);
      EndOfLine(st, COMMA, l, g, f);
      Join(l, s, st, t, end, l, end', f);
      Join(l, s + end, l, t + end', MembersText(names, from, i + 1, d, g), st, rest, f);
      assert s + [COMMA] + NewLine(g) == s + end && t + [COMMA] + NewLine(f) == t + end';
      assert t + end' + (rest + NewLine(f)) == out + NewLine(f);
    }
  }

  // The place after an opening brace: at the beginning of a line, and further on.
  function Inside(st: Scan, line: bool): Scan {
    Scan(Outside, InObject(st.place), st.depth + 1, line)
  }

  lemma BraceOpens(st: Scan, g: bool, f: bool)
    requires st.mode == Outside
    ensures Becomes(st, [LBRACE] + NewLine(g), Inside(st, true), [LBRACE] + NewLine(f), f)
  {
    hide Run, Becomes;
    One(st, LBRACE, f);
    EndOfLine(st, LBRACE, Inside(st, true), g, f);
  }

  // White space and a closing brace, right after the opening one or after members.
  lemma BraceCloses(st: Scan, tabs: seq<Char>, line: bool, f: bool)
    requires st.mode == Outside && !st.line && Blank(tabs)
    ensures Becomes(Inside(st, line), tabs + [RBRACE], st, Closing(st, line, f), f)
  {
    hide Run, Becomes;
    var a := Inside(st, line);
    Blanks(a, tabs, f);
    One(a, RBRACE, f);
    assert Lay(a, RBRACE, f).after == st;
    assert Lay(a, RBRACE, f).out == Closing(st, line, f);
    Join(a, tabs, a, [], [RBRACE], st, Closing(st, line, f), f);
    assert [] + Closing(st, line, f) == Closing(st, line, f);
  }

  function Closing(st: Scan, line: bool, f: bool): seq<Char> {
    if !f then [RBRACE] else if line then Tabs(Less(st.depth, 1)) + [RBRACE] else [NEWLINE] + Tabs(st.depth) + [RBRACE]
  }

  lemma EmptyObjectBecomes(st: Scan, d: nat, g: bool, f: bool)
    requires st.mode == Outside && !st.line
    ensures Becomes(st, ObjectText([], [], d, g), st, ObjectText([], [], st.depth, f), f)
  {
    hide Run, Becomes;
    var tabs := if g then Tabs(Less(d, 1)) else [];
    BraceOpens(st, g, f);
    BraceCloses(st, tabs, true, f);
    Join(st, [LBRACE] + NewLine(g), Inside(st, true), [LBRACE] + NewLine(f), tabs + [RBRACE], st, Closing(st, true, f), f);
    assert ObjectText([], [], d, g) == [LBRACE] + NewLine(g) + (tabs + [RBRACE]);
    assert ObjectText([], [], st.depth, f) == [LBRACE] + NewLine(f) + Closing(st, true, f);
  }

  lemma ObjectBecomes(st: Scan, names: seq<seq<Char>>, from: seq<seq<Char>>, to: seq<seq<Char>>, d: nat, g: bool, f: bool)
    requires st.mode == Outside && !st.line && |names| == |from| && AllBecome(Inside(st, false), from, to, f)
    ensures Becomes(st, ObjectText(names, from, d, g), st, ObjectText(names, to, st.depth, f), f)
  {
    hide Run, Becomes, MembersText, Lay, Closing;
    if from == [] {
      EmptyObjectBecomes(st, d, g, f);
      assert names == [] && to == [];
    } else {
      var head, head' := [LBRACE] + NewLine(g), [LBRACE] + NewLine(f);
      var tabs := if g then Tabs(d) else [];
      var s := MembersText(names, from, 0, d + 1, g);
      var t := MembersBecome(Inside(st, false), names, from, to, 0, d + 1, g, f);
      BraceOpens(st, g, f);
      Join(st, head, Inside(st, true), head', s, Inside(st, false), t, f);
      BraceCloses(st, tabs, false, f);
      Join(st, head + s, Inside(st, false), head' + t, tabs + [RBRACE], st, Closing(st, false, f), f);
      ObjectSplits(names, from, s, d, g);
      ObjectEnds(st, names, to, t, f);
    }
  }

  lemma ObjectSplits(names: seq<seq<Char>>, entries: seq<seq<Char>>, s: seq<Char>, d: nat, fmt: bool)
    requires |names| == |entries| > 0 && s == MembersText(names, entries, 0, d + 1, fmt)
    ensures ObjectText(names, entries, d, fmt)
            == [LBRACE] + NewLine(fmt) + s + ((if fmt then Tabs(d) else []) + [RBRACE])
  {
    hide MembersText;
    var h := [LBRACE] + NewLine(fmt) + s;
    assert h + (if fmt then Tabs(d) else []) + [RBRACE] == h + ((if fmt then Tabs(d) else []) + [RBRACE]);
  }

  lemma ObjectEnds(st: Scan, names: seq<seq<Char>>, entries: seq<seq<Char>>, t: seq<Char>, f: bool)
    requires |names| == |entries| > 0 && MembersText(names, entries, 0, st.depth + 1, f) == t + NewLine(f)
    ensures ObjectText(names, entries, st.depth, f) == [LBRACE] + NewLine(f) + t + Closing(st, false, f)
  {
    hide MembersText;
    ObjectSplits(names, entries, t + NewLine(f), st.depth, f);
    var h := [LBRACE] + NewLine(f);
    var tabs := if f then Tabs(st.depth) else [];
    assert NewLine(f) + (tabs + [RBRACE]) == Closing(st, false, f);
    assert h + (t + NewLine(f)) + (tabs + [RBRACE]) == h + t + (NewLine(f) + (tabs + [RBRACE]));
  }

  // ---------- trees ----------

  lemma {:induction false} TreeBecomes(st: Scan, t: Json, d: nat, g: bool, f: bool)
    requires st.mode == Outside && !st.line
    ensures Becomes(st, TreeText(t, d, g), st, TreeText(t, st.depth, f), f)
    decreases t
  {
    hide Run, Becomes, ArrayText, ObjectText, StringText;
    match t
    case Null => PlainStays(st, NULL_TEXT, f);
    case Bool(b) => PlainStays(st, if b then TRUE_TEXT else FALSE_TEXT, f);
    case Number(v) =>
      DigitsPlain(if v.Floor < 0 then -v.Floor else v.Floor);
      PlainStays(st, IntText(v.Floor), f);
    case Str(s) =>
      StringStays(st, s, f);
      assert Indent(st, f) + StringText(s) == StringText(s);
      assert st.(line := false) == st;
    case Arr(items) =>
      var a := Scan(Outside, InArray(st.place), st.depth + 1, false);
      var from := seq(|items|, i requires 0 <= i < |items| => TreeText(items[i], d + 1, g));
      var to := seq(|items|, i requires 0 <= i < |items| => TreeText(items[i], st.depth + 1, f));
      forall k | 0 <= k < |items| ensures Becomes(a, from[k], a, to[k], f) {
        TreeBecomes(a, items[k], d + 1, g, f);
      }
      ArrayBecomes(st, from, to, g, f);
    case Obj(members) =>
      var a := Inside(st, false);
      var from := seq(|members|, i requires 0 <= i < |members| => TreeText(members[i].value, d + 1, g));
      var to := seq(|members|, i requires 0 <= i < |members| => TreeText(members[i].value, st.depth + 1, f));
      forall k | 0 <= k < |members| ensures Becomes(a, from[k], a, to[k], f) {
        TreeBecomes(a, members[k].value, d + 1, g, f);
      }
      ObjectBecomes(st, Names(members), from, to, d, g, f);
  }

  // The scanner makes either text, at any depth, out of either, at any depth. In particular no white space stands outside
  // the strings of unformatted text, and formatted text is left as it is.
  lemma LayoutIsKnown(t: Json, d: nat, g: bool, depth: nat, f: bool)
    ensures Run(Scan(Outside, Top, depth, false), TreeText(t, d, g), f).out == TreeText(t, depth, f)
  {
    TreeBecomes(Scan(Outside, Top, depth, false), t, d, g, f);
  }
}
