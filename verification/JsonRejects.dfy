// Which texts the parser rejects, and with which error, by what stands where in the text.
module JsonRejects {
  import opened JsonText
  import opened JsonGrammar
  import opened JsonRoundTrip
  import opened JsonLexis
  import opened JsonSyntax

  // ---------- what is rejected ----------

  // What begins at p is no value, for the reason e.
  ghost predicate Fails(text: seq<Char>, p: nat, e: Error)
    requires p <= |text|
    decreases |text| - p, 1
  {
    if At(text, p) == QUOTE || At(text, p) == MINUS || IsDigit(At(text, p)) then false
    else if At(text, p) == LBRACKET then ArrayFails(text, p + 1, e)
    else if At(text, p) == LBRACE then ObjectFails(text, p + 1, e)
    else
      && e == InvalidSyntax
      && !Literal(text, p, p + 4, NULL_TEXT) && !Literal(text, p, p + 4, TRUE_TEXT) && !Literal(text, p, p + 5, FALSE_TEXT)
  }

  ghost predicate ArrayFails(text: seq<Char>, p: nat, e: Error)
    requires p <= |text|
    decreases |text| - p, 4
  {
    exists q :: Gap(text, p, q) && At(text, q) != RBRACKET && FirstFails(text, q, e)
  }

  // The first element, or what follows it, fails.
  ghost predicate FirstFails(text: seq<Char>, q: nat, e: Error)
    requires q <= |text|
    decreases |text| - q, 3
  {
    Fails(text, q, e) || exists n, t :: q < n <= |text| && Derives(text, q, n, t) && ItemsFail(text, n, e)
  }

  // After an element there is neither a comma nor a bracket, or after a comma no value; the latter is reported as a
  // failed allocation.
  ghost predicate ItemsFail(text: seq<Char>, p: nat, e: Error)
    requires p <= |text|
    decreases |text| - p, 4
  {
    exists c :: Gap(text, p, c) && CommaFails(text, c, e)
  }

  ghost predicate CommaFails(text: seq<Char>, c: nat, e: Error)
    requires c <= |text|
    decreases |text| - c, 3
  {
    if At(text, c) == COMMA then exists v :: Gap(text, c + 1, v) && LaterFails(text, v, e)
    else At(text, c) != RBRACKET && e == MissingEndingBracket
  }

  ghost predicate LaterFails(text: seq<Char>, v: nat, e: Error)
    requires v <= |text|
    decreases |text| - v, 3
  {
    || (e == FailedToAllocate && exists e' :: Fails(text, v, e'))
    || exists n, t :: v < n <= |text| && Derives(text, v, n, t) && ItemsFail(text, n, e)
  }

  ghost predicate ObjectFails(text: seq<Char>, p: nat, e: Error)
    requires p <= |text|
    decreases |text| - p, 5
  {
    exists q :: Gap(text, p, q) && At(text, q) != RBRACE && EntryFails(text, q, e)
  }

  // A member, or what follows it, fails.
  ghost predicate EntryFails(text: seq<Char>, q: nat, e: Error)
    requires q <= |text|
    decreases |text| - q, 4
  {
    MemberFails(text, q, e) || exists n, m :: q < n <= |text| && MemberText(text, q, n, m) && MembersFail(text, n, e)
  }

  // After a member there is neither a comma nor a brace, or after a comma no member.
  ghost predicate MembersFail(text: seq<Char>, p: nat, e: Error)
    requires p <= |text|
    decreases |text| - p, 5
  {
    exists c :: Gap(text, p, c) && EntryCommaFails(text, c, e)
  }

  ghost predicate EntryCommaFails(text: seq<Char>, c: nat, e: Error)
    requires c <= |text|
    decreases |text| - c, 4
  {
    if At(text, c) == COMMA then exists v :: Gap(text, c + 1, v) && EntryFails(text, v, e)
    else At(text, c) != RBRACE && e == MissingClosingBrace
  }

  // There is no quote, or after the name no colon, or after that no value.
  ghost predicate MemberFails(text: seq<Char>, p: nat, e: Error)
    requires p <= |text|
    decreases |text| - p, 3
  {
    if At(text, p) != QUOTE then e == MissingQuote
    else exists n, s :: p < n <= |text| && StringText(text, p, n, s) && NameFails(text, n, e)
  }

  ghost predicate NameFails(text: seq<Char>, n: nat, e: Error)
    requires n <= |text|
    decreases |text| - n, 3
  {
    exists c :: Gap(text, n, c) && ColonFails(text, c, e)
  }

  ghost predicate ColonFails(text: seq<Char>, c: nat, e: Error)
    requires c <= |text|
    decreases |text| - c, 2
  {
    if At(text, c) != COLON then e == MissingColon
    else exists v :: Gap(text, c + 1, v) && Fails(text, v, e)
  }

  // ---------- the parser rejects exactly that ----------

  lemma ValueOnly(text: seq<Char>, q: nat)
    requires q <= |text|
    ensures forall n, t :: Derives(text, q, n, t) ==> ValueAt(text, q) == Ok(n, t)
    ensures ValueAt(text, q).Ok? ==> Derives(text, q, ValueAt(text, q).next, ValueAt(text, q).value)
  {
    hide ValueAt, Derives;
    forall n, t | Derives(text, q, n, t)
      ensures ValueAt(text, q) == Ok(n, t)
    {
      ValueExact(text, q, n, t);
    }
    var v := ValueAt(text, q);
    if v.Ok? {
      assert v == Ok(v.next, v.value);
      ValueExact(text, q, v.next, v.value);
    }
  }

  lemma MemberOnly(text: seq<Char>, q: nat)
    requires q <= |text|
    ensures forall n, m :: MemberText(text, q, n, m) ==> MemberAt(text, q) == Ok(n, m)
    ensures MemberAt(text, q).Ok? ==> MemberText(text, q, MemberAt(text, q).next, MemberAt(text, q).value)
  {
    hide MemberAt, MemberText;
    forall n, m | MemberText(text, q, n, m)
      ensures MemberAt(text, q) == Ok(n, m)
    {
      MemberExact(text, q, n, m);
    }
    var r := MemberAt(text, q);
    if r.Ok? {
      assert r == Ok(r.next, r.value);
      MemberExact(text, q, r.next, r.value);
    }
  }

  lemma StringOnly(text: seq<Char>, q: nat)
    requires q <= |text|
    ensures forall n, s :: StringText(text, q, n, s) ==> StringAt(text, q) == Ok(n, s)
    ensures StringAt(text, q).Ok? ==> StringText(text, q, StringAt(text, q).next, StringAt(text, q).value)
    ensures At(text, q) == QUOTE <==> !StringAt(text, q).Fail?
    ensures At(text, q) != QUOTE ==> StringAt(text, q) == Fail(MissingQuote)
  {
    forall n, s | StringText(text, q, n, s)
      ensures StringAt(text, q) == Ok(n, s)
    {
      StringExact(text, q, n, s);
    }
    hide Unescape;
    var r := StringAt(text, q);
    if r.Ok? {
      assert r == Ok(r.next, r.value);
      StringExact(text, q, r.next, r.value);
    }
  }

  lemma {:induction false} FailsExact(text: seq<Char>, p: nat, e: Error)
    requires p <= |text|
    ensures ValueAt(text, p) == Fail(e) <==> Fails(text, p, e)
    decreases |text| - p, 1
  {
    hide StringAt, NumberAt, ArrayAt, ObjectAt, StartsWith, Literal, ArrayFails, ObjectFails;
    LiteralHeads(text, p);
    LiteralExact(text, p, p + 4, NULL_TEXT);
    LiteralExact(text, p, p + 4, TRUE_TEXT);
    LiteralExact(text, p, p + 5, FALSE_TEXT);
    StringOnly(text, p);
    if At(text, p) == LBRACKET {
      ArrayFailsExact(text, p, e);
    } else if At(text, p) == LBRACE {
      ObjectFailsExact(text, p, e);
    }
  }

  lemma {:induction false} ArrayFailsExact(text: seq<Char>, p: nat, e: Error)
    requires p < |text| && text[p] == LBRACKET
    ensures ArrayAt(text, p) == Fail(e) <==> ArrayFails(text, p + 1, e)
    decreases |text| - p, 0
  {
    hide ValueAt, ItemsAt, Derives, Fails, ItemsFail, Gap;
    var q := Skip(text, p + 1);
    GapOnly(text, p + 1);
    SkipNothing(text, q);
    ValueOnly(text, q);
    FailsExact(text, q, e);
    var v := ValueAt(text, q);
    if v.Ok? {
      ItemsFailExact(text, v.next, e);
    }
    assert ArrayFails(text, p + 1, e) <==> At(text, q) != RBRACKET && FirstFails(text, q, e);
  }

  lemma {:induction false} ItemsFailExact(text: seq<Char>, p: nat, e: Error)
    requires p <= |text|
    ensures ItemsAt(text, Skip(text, p)) == Fail(e) <==> ItemsFail(text, p, e)
    decreases |text| - p, 0
  {
    hide ValueAt, Derives, Fails, ItemsFail, Gap, LaterFails;
    var c := Skip(text, p);
    GapOnly(text, p);
    ItemsFailStep(text, p, e);
    if At(text, c) == COMMA {
      var q := Skip(text, c + 1);
      GapOnly(text, c + 1);
      var v := ValueAt(text, q);
      LaterFailsExact(text, q, e);
      assert CommaFails(text, c, e) <==> LaterFails(text, q, e);
    }
  }

  lemma ItemsFailStep(text: seq<Char>, p: nat, e: Error)
    requires p <= |text|
    ensures ItemsFail(text, p, e) <==> CommaFails(text, Skip(text, p), e)
  {
    hide Gap, CommaFails, Skip;
    GapOnly(text, p);
  }

  lemma {:induction false} LaterFailsExact(text: seq<Char>, q: nat, e: Error)
    requires q <= |text|
    ensures var v := ValueAt(text, q);
            LaterFails(text, q, e) <==>
            (v.Fail? && e == FailedToAllocate) || (v.Ok? && ItemsAt(text, Skip(text, v.next)) == Fail(e))
    decreases |text| - q, 2
  {
    hide ValueAt, Derives, Fails, ItemsFail, ItemsAt, Skip;
    ValueOnly(text, q);
    var v := ValueAt(text, q);
    forall e' ensures v == Fail(e') <==> Fails(text, q, e') {
      FailsExact(text, q, e');
    }
    if v.Ok? {
      ItemsFailExact(text, v.next, e);
    } else if v.Fail? {
      assert v == Fail(v.error);
    }
  }

  lemma {:induction false} ObjectFailsExact(text: seq<Char>, p: nat, e: Error)
    requires p < |text| && text[p] == LBRACE
    ensures ObjectAt(text, p) == Fail(e) <==> ObjectFails(text, p + 1, e)
    decreases |text| - p, 0
  {
    hide MemberAt, MembersAt, EntryFails, Gap;
    var q := Skip(text, p + 1);
    GapOnly(text, p + 1);
    SkipNothing(text, q);
    EntryFailsExact(text, q, e);
    assert ObjectFails(text, p + 1, e) <==> At(text, q) != RBRACE && EntryFails(text, q, e);
  }

  lemma {:induction false} EntryFailsExact(text: seq<Char>, q: nat, e: Error)
    requires q <= |text|
    ensures var m := MemberAt(text, q);
            EntryFails(text, q, e) <==> m == Fail(e) || (m.Ok? && MembersAt(text, Skip(text, m.next)) == Fail(e))
    decreases |text| - q, 3
  {
    hide MemberAt, MembersAt, MemberText, MemberFails, MembersFail, Skip;
    MemberOnly(text, q);
    MemberFailsExact(text, q, e);
    var m := MemberAt(text, q);
    if m.Ok? {
      MembersFailExact(text, m.next, e);
    }
  }

  lemma {:induction false} MembersFailExact(text: seq<Char>, p: nat, e: Error)
    requires p <= |text|
    ensures MembersAt(text, Skip(text, p)) == Fail(e) <==> MembersFail(text, p, e)
    decreases |text| - p, 0
  {
    hide MemberAt, EntryFails, MembersFail, Gap;
    var c := Skip(text, p);
    MembersFailStep(text, p, e);
    if At(text, c) == COMMA {
      var q := Skip(text, c + 1);
      GapOnly(text, c + 1);
      EntryFailsExact(text, q, e);
      assert EntryCommaFails(text, c, e) <==> EntryFails(text, q, e);
    }
  }

  lemma MembersFailStep(text: seq<Char>, p: nat, e: Error)
    requires p <= |text|
    ensures MembersFail(text, p, e) <==> EntryCommaFails(text, Skip(text, p), e)
  {
    hide Gap, EntryCommaFails, Skip;
    GapOnly(text, p);
  }

  lemma {:induction false} MemberFailsExact(text: seq<Char>, p: nat, e: Error)
    requires p <= |text|
    ensures MemberAt(text, p) == Fail(e) <==> MemberFails(text, p, e)
    decreases |text| - p, 2
  {
    hide StringAt, StringText, ValueAt, NameFails;
    StringOnly(text, p);
    var s := StringAt(text, p);
    if s.Ok? {
      NameFailsExact(text, s.next, e);
    }
  }

  lemma {:induction false} NameFailsExact(text: seq<Char>, n: nat, e: Error)
    requires n <= |text|
    ensures var c := Skip(text, n);
            NameFails(text, n, e) <==>
            if At(text, c) != COLON then e == MissingColon else ValueAt(text, Skip(text, c + 1)) == Fail(e)
    decreases |text| - n, 3
  {
    hide ValueAt, Fails, NameFails, Gap, Skip;
    var c := Skip(text, n);
    NameFailsStep(text, n, e);
    if At(text, c) == COLON {
      var v := Skip(text, c + 1);
      GapOnly(text, c + 1);
      FailsExact(text, v, e);
      assert ColonFails(text, c, e) <==> Fails(text, v, e);
    }
  }

  lemma NameFailsStep(text: seq<Char>, n: nat, e: Error)
    requires n <= |text|
    ensures NameFails(text, n, e) <==> ColonFails(text, Skip(text, n), e)
  {
    hide Gap, ColonFails, Skip;
    GapOnly(text, n);
  }

  // ---------- documents ----------

  // Exactly which texts the parser accepts, as what, and where it stops.
  lemma DocumentExact(text: seq<Char>, next: nat, t: Json)
    ensures Document(text) == Ok(next, t) <==> exists p: nat :: p <= |text| && Gap(text, 0, p) && Derives(text, p, next, t)
  {
    hide ValueAt, Derives, Gap, Skip;
    GapOnly(text, 0);
    ValueExact(text, Skip(text, 0), next, t);
  }

  // And exactly which it rejects, and with which error.
  lemma DocumentFails(text: seq<Char>, e: Error)
    ensures Document(text) == Fail(e) <==> exists p: nat :: p <= |text| && Gap(text, 0, p) && Fails(text, p, e)
  {
    hide ValueAt, Fails, Gap, Skip;
    GapOnly(text, 0);
    FailsExact(text, Skip(text, 0), e);
  }
}
