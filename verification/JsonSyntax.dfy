// Which texts the parser accepts, and as what, by what stands where in the text.
module JsonSyntax {
  import opened JsonText
  import opened JsonGrammar
  import opened JsonRoundTrip
  import opened JsonNumbers
  import opened JsonLexis

  // ---------- what is accepted ----------

  ghost predicate Literal(text: seq<Char>, p: nat, next: nat, word: seq<Char>) {
    p + |word| <= |text| && next == p + |word| && forall k :: 0 <= k < |word| ==> text[p + k] == word[k]
  }

  // text[p..next] is the value t.
  ghost predicate Derives(text: seq<Char>, p: nat, next: nat, t: Json)
    decreases if p < next then next - p else 0, 2
  {
    && p < next <= |text|
    && match t
       case Null => Literal(text, p, next, NULL_TEXT)
       case Bool(b) => Literal(text, p, next, if b then TRUE_TEXT else FALSE_TEXT)
       case Number(d) => (text[p] == MINUS || IsDigit(text[p])) && NumberText(text, p, next, d)
       case Str(s) => StringText(text, p, next, s)
       case Arr(items) => text[p] == LBRACKET && ArrayBody(text, p + 1, next, items)
       case Obj(members) => text[p] == LBRACE && ObjectBody(text, p + 1, next, members)
  }

  // White space, and then a closing bracket, or an element and the rest.
  ghost predicate ArrayBody(text: seq<Char>, p: nat, next: nat, items: seq<Json>)
    decreases if p < next then next - p else 0, 4
  {
    exists q :: p <= q < next <= |text| && Gap(text, p, q) && ArrayFrom(text, q, next, items)
  }

  ghost predicate ArrayFrom(text: seq<Char>, q: nat, next: nat, items: seq<Json>)
    requires q < next <= |text|
    decreases next - q, 3
  {
    if items == [] then text[q] == RBRACKET && next == q + 1
    else exists e :: q < e < next && Derives(text, q, e, items[0]) && ItemsText(text, e, next, items[1..])
  }

  // White space, and then a closing bracket, or a comma, white space, an element and the rest.
  ghost predicate ItemsText(text: seq<Char>, p: nat, next: nat, items: seq<Json>)
    decreases if p < next then next - p else 0, 2
  {
    exists c :: p <= c < next <= |text| && Gap(text, p, c) && ItemsFrom(text, c, next, items)
  }

  ghost predicate ItemsFrom(text: seq<Char>, c: nat, next: nat, items: seq<Json>)
    requires c < next <= |text|
    decreases next - c, 1
  {
    if items == [] then text[c] == RBRACKET && next == c + 1
    else text[c] == COMMA && exists v :: c < v < next && Gap(text, c + 1, v) && ArrayFrom(text, v, next, items)
  }

  // The same for objects.
  ghost predicate ObjectBody(text: seq<Char>, p: nat, next: nat, members: seq<Member>)
    decreases if p < next then next - p else 0, 6
  {
    exists q :: p <= q < next <= |text| && Gap(text, p, q) && ObjectFrom(text, q, next, members)
  }

  ghost predicate ObjectFrom(text: seq<Char>, q: nat, next: nat, members: seq<Member>)
    requires q < next <= |text|
    decreases next - q, 5
  {
    if members == [] then text[q] == RBRACE && next == q + 1
    else exists e :: q < e < next && MemberText(text, q, e, members[0]) && MembersText(text, e, next, members[1..])
  }

  ghost predicate MembersText(text: seq<Char>, p: nat, next: nat, members: seq<Member>)
    decreases if p < next then next - p else 0, 2
  {
    exists c :: p <= c < next <= |text| && Gap(text, p, c) && MembersFrom(text, c, next, members)
  }

  ghost predicate MembersFrom(text: seq<Char>, c: nat, next: nat, members: seq<Member>)
    requires c < next <= |text|
    decreases next - c, 1
  {
    if members == [] then text[c] == RBRACE && next == c + 1
    else text[c] == COMMA && exists v :: c < v < next && Gap(text, c + 1, v) && ObjectFrom(text, v, next, members)
  }

  // A string, white space, a colon, white space and a value.
  ghost predicate MemberText(text: seq<Char>, p: nat, next: nat, m: Member)
    decreases if p < next then next - p else 0, 4
  {
    exists e :: p < e <= next && StringText(text, p, e, m.name) && NameThen(text, e, next, m.value)
  }

  ghost predicate NameThen(text: seq<Char>, e: nat, next: nat, t: Json)
    decreases if e < next then next - e else 0, 4
  {
    exists c :: e <= c < next <= |text| && Gap(text, e, c) && text[c] == COLON && ColonThen(text, c + 1, next, t)
  }

  ghost predicate ColonThen(text: seq<Char>, p: nat, next: nat, t: Json)
    decreases if p < next then next - p else 0, 3
  {
    exists v :: p <= v < next <= |text| && Gap(text, p, v) && Derives(text, v, next, t)
  }

  // ---------- the parser accepts exactly that ----------

  lemma LiteralExact(text: seq<Char>, p: nat, next: nat, word: seq<Char>)
    ensures Literal(text, p, next, word) <==> StartsWith(text, p, word) && next == p + |word|
  {
    if StartsWith(text, p, word) {
      assert forall k :: 0 <= k < |word| ==> text[p..p + |word|][k] == word[k];
    }
  }

  lemma ListKinds(text: seq<Char>, p: nat)
    requires p <= |text|
    ensures ArrayAt(text, p).Ok? ==> ArrayAt(text, p).value.Arr?
    ensures ObjectAt(text, p).Ok? ==> ObjectAt(text, p).value.Obj?
  {
    hide ValueAt, ItemsAt, MemberAt, MembersAt;
  }

  lemma StringHead(text: seq<Char>, p: nat, next: nat, s: seq<Char>)
    requires p <= |text|
    ensures StringText(text, p, next, s) ==> p < |text| && text[p] == QUOTE
    ensures At(text, p) != QUOTE ==> StringAt(text, p) == Fail(MissingQuote)
  {
  }

  lemma {:induction false} ValueExact(text: seq<Char>, p: nat, next: nat, t: Json)
    requires p <= |text|
    ensures ValueAt(text, p) == Ok(next, t) <==> Derives(text, p, next, t)
    decreases |text| - p, 1
  {
    hide StringAt, NumberAt, ArrayAt, ObjectAt, StartsWith, Literal, StringText, NumberText, ArrayBody, ObjectBody;
    LiteralHeads(text, p);
    ListKinds(text, p);
    LiteralExact(text, p, next, NULL_TEXT);
    LiteralExact(text, p, next, TRUE_TEXT);
    LiteralExact(text, p, next, FALSE_TEXT);
    match t
    case Null =>
    case Bool(_) =>
    case Number(d) => NumberExact(text, p, next, d);
    case Str(s) =>
      StringExact(text, p, next, s);
      StringHead(text, p, next, s);
    case Arr(items) =>
      if At(text, p) == LBRACKET {
        ArrayExact(text, p, next, items);
      }
    case Obj(members) =>
      if At(text, p) == LBRACE {
        ObjectExact(text, p, next, members);
      }
  }

  // No value begins with a closing bracket.
  lemma NoValueHere(text: seq<Char>, q: nat)
    requires q < |text| && text[q] in {RBRACKET, RBRACE}
    ensures ValueAt(text, q) == Fail(InvalidSyntax)
  {
    LiteralHeads(text, q);
    hide StringAt, NumberAt, ArrayAt, ObjectAt, StartsWith;
  }

  lemma GapOnly(text: seq<Char>, p: nat)
    requires p <= |text|
    ensures Gap(text, p, Skip(text, p)) && forall q :: Gap(text, p, q) ==> q == Skip(text, p)
  {
    hide Gap;
    SkipExact(text, p, Skip(text, p));
    forall q | Gap(text, p, q)
      ensures q == Skip(text, p)
    {
      SkipExact(text, p, q);
    }
  }

  // ---------- arrays ----------

  lemma ArrayBodyStep(text: seq<Char>, p: nat, next: nat, items: seq<Json>)
    requires p <= |text|
    ensures var q := Skip(text, p); ArrayBody(text, p, next, items) <==> q < next <= |text| && ArrayFrom(text, q, next, items)
  {
    hide Gap, Skip, ArrayFrom;
    GapOnly(text, p);
  }

  lemma ItemsTextStep(text: seq<Char>, p: nat, next: nat, items: seq<Json>)
    requires p <= |text|
    ensures var c := Skip(text, p); ItemsText(text, p, next, items) <==> c < next <= |text| && ItemsFrom(text, c, next, items)
  {
    hide Gap, Skip, ItemsFrom;
    GapOnly(text, p);
  }

  lemma ItemsFromStep(text: seq<Char>, c: nat, next: nat, items: seq<Json>)
    requires c < next <= |text| && items != []
    ensures var v := Skip(text, c + 1);
            ItemsFrom(text, c, next, items) <==> text[c] == COMMA && v < next && ArrayFrom(text, v, next, items)
  {
    hide Gap, Skip, ArrayFrom;
    GapOnly(text, c + 1);
  }

  // One element and the rest, with the result of the parser.
  lemma {:induction false} ElementsExact(text: seq<Char>, q: nat, next: nat, items: seq<Json>)
    requires q < next <= |text| && items != []
    ensures ArrayFrom(text, q, next, items) <==>
            && ValueAt(text, q).Ok? && ValueAt(text, q).value == items[0]
            && ItemsAt(text, Skip(text, ValueAt(text, q).next)) == Ok(next, items[1..])
    decreases |text| - q, 2
  {
    hide ValueAt, ItemsAt, Derives, ItemsText, Skip;
    forall e ensures ValueAt(text, q) == Ok(e, items[0]) <==> Derives(text, q, e, items[0]) {
      ValueExact(text, q, e, items[0]);
    }
    var v := ValueAt(text, q);
    if v.Ok? {
      assert v == Ok(v.next, v.value);
      ItemsExact(text, v.next, next, items[1..]);
      ItemsAhead(text, v.next);
    }
  }

  lemma ItemsAhead(text: seq<Char>, p: nat)
    requires p <= |text|
    ensures var r := ItemsAt(text, Skip(text, p)); r.Ok? ==> p < r.next
  {
  }

  lemma {:induction false} ArrayExact(text: seq<Char>, p: nat, next: nat, items: seq<Json>)
    requires p < |text| && text[p] == LBRACKET
    ensures ArrayAt(text, p) == Ok(next, Arr(items)) <==> ArrayBody(text, p + 1, next, items)
    decreases |text| - p, 0
  {
    hide ValueAt, ItemsAt, Derives, ItemsText, ArrayBody;
    var q := Skip(text, p + 1);
    ArrayBodyStep(text, p + 1, next, items);
    SkipNothing(text, q);
    if q < |text| && text[q] == RBRACKET {
      NoValueHere(text, q);
    }
    if q < next <= |text| && items != [] {
      ElementsExact(text, q, next, items);
      hide ArrayFrom;
      assert items == [items[0]] + items[1..];
    }
  }

  lemma {:induction false} ItemsExact(text: seq<Char>, p: nat, next: nat, items: seq<Json>)
    requires p <= |text|
    ensures ItemsAt(text, Skip(text, p)) == Ok(next, items) <==> ItemsText(text, p, next, items)
    decreases |text| - p, 0
  {
    hide ValueAt, Derives, ItemsText, ArrayFrom;
    var c := Skip(text, p);
    ItemsTextStep(text, p, next, items);
    if c < next <= |text| && items != [] {
      ItemsFromStep(text, c, next, items);
      hide ItemsFrom;
      var q := Skip(text, c + 1);
      if q < next && text[c] == COMMA {
        ElementsExact(text, q, next, items);
        assert items == [items[0]] + items[1..];
      }
    }
  }

  // ---------- objects ----------

  lemma ObjectBodyStep(text: seq<Char>, p: nat, next: nat, members: seq<Member>)
    requires p <= |text|
    ensures var q := Skip(text, p); ObjectBody(text, p, next, members) <==> q < next <= |text| && ObjectFrom(text, q, next, members)
  {
    hide Gap, Skip, ObjectFrom;
    GapOnly(text, p);
  }

  lemma MembersTextStep(text: seq<Char>, p: nat, next: nat, members: seq<Member>)
    requires p <= |text|
    ensures var c := Skip(text, p); MembersText(text, p, next, members) <==> c < next <= |text| && MembersFrom(text, c, next, members)
  {
    hide Gap, Skip, MembersFrom;
    GapOnly(text, p);
  }

  lemma MembersFromStep(text: seq<Char>, c: nat, next: nat, members: seq<Member>)
    requires c < next <= |text| && members != []
    ensures var v := Skip(text, c + 1);
            MembersFrom(text, c, next, members) <==> text[c] == COMMA && v < next && ObjectFrom(text, v, next, members)
  {
    hide Gap, Skip, ObjectFrom;
    GapOnly(text, c + 1);
  }

  lemma NameThenStep(text: seq<Char>, e: nat, next: nat, t: Json)
    requires e <= |text|
    ensures var c := Skip(text, e);
            NameThen(text, e, next, t) <==> c < next <= |text| && text[c] == COLON && ColonThen(text, c + 1, next, t)
  {
    hide Gap, Skip, ColonThen;
    GapOnly(text, e);
  }

  lemma ColonThenStep(text: seq<Char>, p: nat, next: nat, t: Json)
    requires p <= |text|
    ensures var v := Skip(text, p); ColonThen(text, p, next, t) <==> v < next <= |text| && Derives(text, v, next, t)
  {
    hide Gap, Skip, Derives;
    GapOnly(text, p);
  }

  // From the end of the name on.
  lemma {:induction false} RestOfMember(text: seq<Char>, e: nat, next: nat, t: Json)
    requires e <= |text|
    ensures var c := Skip(text, e);
            NameThen(text, e, next, t) <==> At(text, c) == COLON && ValueAt(text, Skip(text, c + 1)) == Ok(next, t)
    decreases |text| - e, 3
  {
    hide Derives, ValueAt, ColonThen, NameThen;
    var c := Skip(text, e);
    NameThenStep(text, e, next, t);
    if c < |text| && text[c] == COLON {
      ColonThenStep(text, c + 1, next, t);
      ValueExact(text, Skip(text, c + 1), next, t);
      ValueAhead(text, Skip(text, c + 1));
    }
  }

  lemma ValueAhead(text: seq<Char>, p: nat)
    requires p <= |text|
    ensures var r := ValueAt(text, p); r.Ok? ==> p < r.next <= |text|
  {
  }

  lemma {:induction false} MemberExact(text: seq<Char>, p: nat, next: nat, m: Member)
    requires p <= |text|
    ensures MemberAt(text, p) == Ok(next, m) <==> MemberText(text, p, next, m)
    decreases |text| - p, 2
  {
    hide StringAt, StringText, ValueAt, NameThen, Skip;
    forall e ensures StringAt(text, p) == Ok(e, m.name) <==> StringText(text, p, e, m.name) {
      StringExact(text, p, e, m.name);
    }
    var s := StringAt(text, p);
    if s.Ok? {
      assert s == Ok(s.next, s.value);
      RestOfMember(text, s.next, next, m.value);
      assert m == Member(m.name, m.value);
      ValueAhead(text, Skip(text, p));
      NameThenAhead(text, s.next, next, m.value);
    }
  }

  lemma NameThenAhead(text: seq<Char>, e: nat, next: nat, t: Json)
    ensures NameThen(text, e, next, t) ==> e < next <= |text|
  {
  }

  lemma NoMemberHere(text: seq<Char>, q: nat)
    requires q < |text| && text[q] != QUOTE
    ensures MemberAt(text, q) == Fail(MissingQuote)
  {
  }

  lemma {:induction false} EntriesExact(text: seq<Char>, q: nat, next: nat, members: seq<Member>)
    requires q < next <= |text| && members != []
    ensures ObjectFrom(text, q, next, members) <==>
            && MemberAt(text, q).Ok? && MemberAt(text, q).value == members[0]
            && MembersAt(text, Skip(text, MemberAt(text, q).next)) == Ok(next, members[1..])
    decreases |text| - q, 3
  {
    hide MemberAt, MembersAt, MemberText, MembersText, Skip;
    forall e ensures MemberAt(text, q) == Ok(e, members[0]) <==> MemberText(text, q, e, members[0]) {
      MemberExact(text, q, e, members[0]);
    }
    var m := MemberAt(text, q);
    if m.Ok? {
      assert m == Ok(m.next, m.value);
      MembersExact(text, m.next, next, members[1..]);
      MembersAhead(text, m.next);
    }
  }

  lemma MembersAhead(text: seq<Char>, p: nat)
    requires p <= |text|
    ensures var r := MembersAt(text, Skip(text, p)); r.Ok? ==> p < r.next
  {
  }

  lemma {:induction false} ObjectExact(text: seq<Char>, p: nat, next: nat, members: seq<Member>)
    requires p < |text| && text[p] == LBRACE
    ensures ObjectAt(text, p) == Ok(next, Obj(members)) <==> ObjectBody(text, p + 1, next, members)
    decreases |text| - p, 0
  {
    hide MemberAt, MembersAt, MemberText, MembersText, ObjectBody;
    var q := Skip(text, p + 1);
    ObjectBodyStep(text, p + 1, next, members);
    SkipNothing(text, q);
    if q < |text| && text[q] == RBRACE {
      NoMemberHere(text, q);
    }
    if q < next <= |text| && members != [] {
      EntriesExact(text, q, next, members);
      hide ObjectFrom;
      assert members == [members[0]] + members[1..];
    }
  }

  lemma {:induction false} MembersExact(text: seq<Char>, p: nat, next: nat, members: seq<Member>)
    requires p <= |text|
    ensures MembersAt(text, Skip(text, p)) == Ok(next, members) <==> MembersText(text, p, next, members)
    decreases |text| - p, 0
  {
    hide MemberAt, MembersText, ObjectFrom;
    var c := Skip(text, p);
    MembersTextStep(text, p, next, members);
    if c < next <= |text| && members != [] {
      MembersFromStep(text, c, next, members);
      hide MembersFrom;
      var q := Skip(text, c + 1);
      if q < next && text[c] == COMMA {
        EntriesExact(text, q, next, members);
        assert members == [members[0]] + members[1..];
      }
    }
  }
}
