// The printer of OVR_JSON.cpp, which measures, allocates and then writes, proved against the text it should
// write. Every write goes through an array of the measured size, so that the measure is large enough is part
// of the proof.
module JsonPrinter {
  import opened Wrappers
  import opened JsonText
  import opened JsonGrammar
  import opened JsonPrint

  // Writes the characters of `s` from `at` on.
  method Put(out: array<Byte>, at: nat, s: seq<Char>) returns (w: nat)
    requires at + |s| <= out.Length
    modifies out
    ensures w == at + |s|
    ensures out[..w] == old(out[..at]) + s
  {
    w := at;
    var i := 0;
    while i < |s|
      invariant 0 <= i <= |s| && w == at + i
      invariant out[..w] == old(out[..at]) + s[..i]
    {
      out[w] := s[i];
      w, i := w + 1, i + 1;
    }
  }

  // OVR_strcpy: the characters and a terminator.
  method CopyString(out: array<Byte>, at: nat, s: seq<Char>) returns (w: nat)
    requires at + |s| < out.Length
    modifies out
    ensures w == at + |s|
    ensures out[..w] == old(out[..at]) + s
  {
    w := Put(out, at, s);
    out[w] := 0;
  }

  method PutTabs(out: array<Byte>, at: nat, n: nat) returns (w: nat)
    requires at + n <= out.Length
    modifies out
    ensures w == at + n
    ensures out[..w] == old(out[..at]) + Tabs(n)
  {
    w := at;
    var i := 0;
    while i < n
      invariant 0 <= i <= n && w == at + i
      invariant out[..w] == old(out[..at]) + Tabs(i)
    {
      out[w] := TAB;
      w, i := w + 1, i + 1;
    }
  }

  // ---------- strings ----------

  method MeasureEscaped(s: seq<Char>) returns (len: nat)
    ensures len == EscapedLength(s)
  {
    len := 0;
    var i := 0;
    while i < |s|
      invariant 0 <= i <= |s| && len + EscapedLength(s[i..]) == EscapedLength(s)
    {
      assert s[i..][0] == s[i] && s[i..][1..] == s[i + 1..];
      len := len + 1;
      if ShortEscape(s[i]).Some? {
        len := len + 1;
      } else if s[i] < 32 {
        len := len + 5;
      }
      i := i + 1;
    }
  }

  method PrintString(s: seq<Char>) returns (text: seq<Char>)
    ensures text == StringText(s)
  {
    hide CharText;
    var len := MeasureEscaped(s);
    EscapedLengthExact(s);
    var out := new Byte[len + 3];
    out[0] := QUOTE;
    var w, i := 1, 0;
    assert out[..1] == [QUOTE];
    while i < |s|
      invariant 0 <= i <= |s| && w <= out.Length
      invariant out[..w] + CharsText(s[i..]) == [QUOTE] + CharsText(s)
      invariant w + |CharsText(s[i..])| == 1 + len
    {
      assert s[i..][0] == s[i] && s[i..][1..] == s[i + 1..];
      ghost var before, rest := out[..w], CharsText(s[i + 1..]);
      w := Put(out, w, CharText(s[i]));
      assert before + (CharText(s[i]) + rest) == out[..w] + rest;
      i := i + 1;
    }
    assert out[..w] == [QUOTE] + CharsText(s);
    w := Put(out, w, [QUOTE]);
    text := out[..w];
    out[w] := 0;
  }

  // ---------- arrays ----------

  method PrintArray(entries: seq<seq<Char>>, fmt: bool) returns (text: seq<Char>)
    ensures text == ArrayText(entries, fmt)
  {
    if entries == [] {
      return [LBRACKET, RBRACKET];
    }
    var len := 5;
    var i := 0;
    while i < |entries|
      invariant 0 <= i <= |entries| && len == ElementsLength(entries, i, fmt)
    {
      len := len + |entries[i]| + 2 + (if fmt then 1 else 0);
      i := i + 1;
    }
    ElementsFit(entries, 0, fmt);
    var out := new Byte[len];
    out[0] := LBRACKET;
    var w := 1;
    i := 0;
    ghost var all := [LBRACKET] + ElementsText(entries, 0, fmt);
    while i < |entries|
      invariant 0 <= i <= |entries| && 0 <= w <= out.Length
      invariant i < |entries| ==> out[..w] + ElementsText(entries, i, fmt) == all
      invariant i == |entries| ==> out[..w] == all
      invariant |all| + 2 <= out.Length
    {
      w := PutElement(out, w, entries, i, fmt, all);
      i := i + 1;
    }
    w := Put(out, w, [RBRACKET]);
    text := out[..w];
    out[w] := 0;
  }

  // One element and, unless it is the last, what separates it from the next.
  method PutElement(out: array<Byte>, at: nat, entries: seq<seq<Char>>, i: nat, fmt: bool, ghost all: seq<Byte>) returns (w: nat)
    requires i < |entries| && at <= out.Length && |all| < out.Length
    requires out[..at] + ElementsText(entries, i, fmt) == all
    modifies out
    ensures w <= out.Length
    ensures i + 1 < |entries| ==> out[..w] + ElementsText(entries, i + 1, fmt) == all
    ensures i + 1 == |entries| ==> out[..w] == all
  {
    ghost var before := out[..at];
    assert |all| == at + |ElementsText(entries, i, fmt)|;
    w := CopyString(out, at, entries[i]);
    if i != |entries| - 1 {
      w := Put(out, w, [COMMA]);
      if fmt {
        w := Put(out, w, [SPACE]);
      }
      assert before + ElementsText(entries, i, fmt) == out[..w] + ElementsText(entries, i + 1, fmt);
      out[w] := 0;
    }
  }

  // ---------- objects ----------

  // An object without members. The block has room for it at every depth but 0, where the terminator of the
  // formatted text does not fit.
  method PrintEmptyObject(depth: nat, fmt: bool) returns (text: seq<Char>, fits: bool)
    ensures fits <==> !(fmt && depth == 0)
    ensures text == ObjectText([], [], depth, fmt)
  {
    var out := new Byte[if fmt then depth + 3 else 3];
    var w := 1;
    out[0] := LBRACE;
    assert out[..w] == [LBRACE];
    if fmt {
      w := Put(out, w, [NEWLINE]);
      if depth > 0 {
        w := PutTabs(out, w, depth - 1);
      }
    }
    w := Put(out, w, [RBRACE]);
    text := out[..w];
    fits := w < out.Length;
    if fits {
      out[w] := 0;
    }
  }

  // Prints the names and adds up the length of the text.
  method QuoteNames(names: seq<seq<Char>>, entries: seq<seq<Char>>, depth: nat, fmt: bool)
    returns (quoted: seq<seq<Char>>, len: nat)
    requires |names| == |entries|
    ensures |quoted| == |names| && forall k :: 0 <= k < |names| ==> quoted[k] == StringText(names[k])
    ensures len == MembersLength(names, entries, |names|, depth, fmt)
  {
    hide StringText;
    quoted, len := [], 7 + (if fmt then depth else 0);
    var i := 0;
    while i < |entries|
      invariant 0 <= i <= |entries| && len == MembersLength(names, entries, i, depth, fmt)
      invariant |quoted| == i && forall k :: 0 <= k < i ==> quoted[k] == StringText(names[k])
    {
      var str := PrintString(names[i]);
      quoted := quoted + [str];
      len := len + |entries[i]| + |str| + 2 + (if fmt then 2 + depth else 0);
      i := i + 1;
    }
  }

  method PrintObject(names: seq<seq<Char>>, entries: seq<seq<Char>>, depth: nat, fmt: bool) returns (text: seq<Char>)
    requires |names| == |entries| > 0
    ensures text == ObjectText(names, entries, depth, fmt)
  {
    hide StringText, MembersText, MembersLength;
    var quoted, len := QuoteNames(names, entries, depth + 1, fmt);
    MembersFit(names, entries, 0, depth + 1, fmt);
    LengthStart(names, entries, depth + 1, fmt);
    var out := new Byte[len];
    out[0] := LBRACE;
    var w := 1;
    assert out[..1] == [LBRACE];
    if fmt {
      w := Put(out, w, [NEWLINE]);
    }
    out[w] := 0;
    w := PutMembers(out, w, names, quoted, entries, depth + 1, fmt);
    if fmt {
      w := PutTabs(out, w, depth);
    }
    w := Put(out, w, [RBRACE]);
    text := out[..w];
    out[w] := 0;
  }

  lemma LengthStart(names: seq<seq<Char>>, entries: seq<seq<Char>>, depth: nat, fmt: bool)
    requires |names| == |entries|
    ensures MembersLength(names, entries, 0, depth, fmt) == 7 + (if fmt then depth else 0)
  {
  }

  method PutMembers(out: array<Byte>, at: nat, ghost names: seq<seq<Char>>, quoted: seq<seq<Char>>, entries: seq<seq<Char>>,
                    depth: nat, fmt: bool) returns (w: nat)
    requires |names| == |quoted| == |entries| > 0
    requires forall k :: 0 <= k < |names| ==> quoted[k] == StringText(names[k])
    requires at + |MembersText(names, entries, 0, depth, fmt)| < out.Length
    modifies out
    ensures w == at + |MembersText(names, entries, 0, depth, fmt)|
    ensures out[..w] == old(out[..at]) + MembersText(names, entries, 0, depth, fmt)
  {
    hide StringText, MembersText;
    w := at;
    var i := 0;
    ghost var all := out[..w] + MembersText(names, entries, 0, depth, fmt);
    while i < |entries|
      invariant 0 <= i <= |entries| && 0 <= w <= out.Length
      invariant i < |entries| ==> out[..w] + MembersText(names, entries, i, depth, fmt) == all
      invariant i == |entries| ==> out[..w] == all
    {
      w := PutMember(out, w, names, quoted[i], entries, i, depth, fmt, all);
      i := i + 1;
    }
    assert |out[..w]| == |all|;
  }

  // One member and what follows it.
  method PutMember(out: array<Byte>, at: nat, ghost names: seq<seq<Char>>, quoted: seq<Char>, entries: seq<seq<Char>>,
                   i: nat, depth: nat, fmt: bool, ghost all: seq<Byte>) returns (w: nat)
    requires i < |names| == |entries| && quoted == StringText(names[i]) && at <= out.Length && |all| < out.Length
    requires out[..at] + MembersText(names, entries, i, depth, fmt) == all
    modifies out
    ensures w <= out.Length
    ensures i + 1 < |entries| ==> out[..w] + MembersText(names, entries, i + 1, depth, fmt) == all
    ensures i + 1 == |entries| ==> out[..w] == all
  {
    hide StringText, MemberText, MembersText;
    MembersTextIs(names, entries, i, depth, fmt);
    ghost var before := out[..at];
    ghost var rest := if i < |entries| - 1 then MembersText(names, entries, i + 1, depth, fmt) else [];
    ghost var written := MemberText(names[i], entries[i], depth, fmt)
                         + (if i != |entries| - 1 then [COMMA] else []) + (if fmt then [NEWLINE] else []);
    assert MembersText(names, entries, i, depth, fmt) == written + rest;
    assert all == before + written + rest;
    w := PutLine(out, at, names[i], quoted, entries[i], depth, fmt, i == |entries| - 1);
    assert out[..w] == before + written;
  }

  // A member, the comma after it unless it is the last, and the end of its line.
  method PutLine(out: array<Byte>, at: nat, ghost name: seq<Char>, quoted: seq<Char>, entry: seq<Char>,
                 depth: nat, fmt: bool, last: bool) returns (w: nat)
    requires quoted == StringText(name)
    requires at + |MemberText(name, entry, depth, fmt)| + One(!last) + One(fmt) < out.Length
    modifies out
    ensures w == at + |MemberText(name, entry, depth, fmt)| + One(!last) + One(fmt)
    ensures out[..w] == old(out[..at]) + (MemberText(name, entry, depth, fmt)
                                          + (if !last then [COMMA] else []) + (if fmt then [NEWLINE] else []))
  {
    hide StringText, MemberText;
    w := PutNameAndValue(out, at, name, quoted, entry, depth, fmt);
    if !last {
      w := Put(out, w, [COMMA]);
    }
    if fmt {
      w := Put(out, w, [NEWLINE]);
    }
    out[w] := 0;
  }

  lemma MembersTextIs(names: seq<seq<Char>>, entries: seq<seq<Char>>, i: nat, depth: nat, fmt: bool)
    requires i < |names| == |entries|
    ensures var m := MemberText(names[i], entries[i], depth, fmt);
            var newline := if fmt then [NEWLINE] else [];
            MembersText(names, entries, i, depth, fmt) ==
            if i == |entries| - 1 then m + [] + newline
            else m + [COMMA] + newline + MembersText(names, entries, i + 1, depth, fmt)
  {
    hide MemberText;
  }

  // The tabs before a name, the name, and what separates it from the value.
  method PutName(out: array<Byte>, at: nat, quoted: seq<Char>, depth: nat, fmt: bool) returns (w: nat)
    requires at + |NamePart(quoted, depth, fmt)| < out.Length
    modifies out
    ensures w == at + |NamePart(quoted, depth, fmt)|
    ensures out[..w] == old(out[..at]) + NamePart(quoted, depth, fmt)
  {
    hide Tabs;
    ghost var tabs := if fmt then Tabs(depth) else [];
    w := at;
    if fmt {
      w := PutTabs(out, w, depth);
    }
    ghost var before := old(out[..at]) + tabs;
    assert out[..w] == before;
    w := CopyString(out, w, quoted);
    w := Put(out, w, if fmt then [COLON, TAB] else [COLON]);
    assert out[..w] == before + quoted + (if fmt then [COLON, TAB] else [COLON]);
  }

  ghost function NamePart(quoted: seq<Char>, depth: nat, fmt: bool): seq<Char> {
    (if fmt then Tabs(depth) else []) + quoted + (if fmt then [COLON, TAB] else [COLON])
  }

  method PutNameAndValue(out: array<Byte>, at: nat, ghost name: seq<Char>, quoted: seq<Char>, entry: seq<Char>,
                         depth: nat, fmt: bool) returns (w: nat)
    requires quoted == StringText(name) && at + |MemberText(name, entry, depth, fmt)| < out.Length
    modifies out
    ensures w == at + |MemberText(name, entry, depth, fmt)|
    ensures out[..w] == old(out[..at]) + MemberText(name, entry, depth, fmt)
  {
    hide StringText, Tabs;
    assert MemberText(name, entry, depth, fmt) == NamePart(quoted, depth, fmt) + entry;
    hide MemberText, NamePart;
    w := PutName(out, at, quoted, depth, fmt);
    w := CopyString(out, w, entry);
  }

  // ---------- values ----------

  // PrintNumber, for whole numbers: %d into a block of 21 characters, or %.0f into one of 64.
  method PrintNumber(d: real) returns (text: seq<Char>)
    requires IsWhole(d)
    ensures text == IntText(d.Floor)
  {
    WholeFits(d.Floor);
    var out := new Byte[NumberBlock(d)];
    var w := CopyString(out, 0, IntText(d.Floor));
    assert out[..w] == IntText(d.Floor);
    text := out[..w];
  }

  // The text is that of the tree at every depth; whether it and its terminator fit is `fits`.
  method PrintValue(t: Json, depth: nat, fmt: bool) returns (text: seq<Char>, fits: bool)
    requires Printable(t)
    ensures text == TreeText(t, depth, fmt)
    ensures fits <==> !BareObject(t, depth, fmt)
    decreases t
  {
    hide ArrayText, ObjectText, StringText, IntText;
    fits := true;
    match t
    case Null => text := NULL_TEXT;
    case Bool(b) => text := if b then TRUE_TEXT else FALSE_TEXT;
    case Number(d) => text := PrintNumber(d);
    case Str(s) => text := PrintString(s);
    case Arr(items) =>
      var entries: seq<seq<Char>> := [];
      var i := 0;
      while i < |items|
        invariant 0 <= i <= |items| == |t.items| && |entries| == i
        invariant forall k :: 0 <= k < i ==> entries[k] == TreeText(items[k], depth + 1, fmt)
      {
        var entry, ok := PrintValue(items[i], depth + 1, fmt);
        assert ok;
        entries := entries + [entry];
        i := i + 1;
      }
      assert entries == seq(|items|, k requires 0 <= k < |items| => TreeText(items[k], depth + 1, fmt));
      text := PrintArray(entries, fmt);
    case Obj(members) =>
      var entries: seq<seq<Char>> := [];
      var i := 0;
      while i < |members|
        invariant 0 <= i <= |members| == |t.members| && |entries| == i
        invariant forall k :: 0 <= k < i ==> entries[k] == TreeText(members[k].value, depth + 1, fmt)
      {
        var entry, ok := PrintValue(members[i].value, depth + 1, fmt);
        assert ok;
        entries := entries + [entry];
        i := i + 1;
      }
      assert entries == seq(|members|, k requires 0 <= k < |members| => TreeText(members[k].value, depth + 1, fmt));
      if entries == [] {
        assert Names(members) == [];
        text, fits := PrintEmptyObject(depth, fmt);
      } else {
        text := PrintObject(Names(members), entries, depth, fmt);
      }
  }
}
