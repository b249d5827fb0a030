// Which error an array is rejected with. parseArray passes on the error of its first element, but reports any
// error in a later one as a failed allocation.
module JsonErrors {
  import opened JsonText
  import opened JsonGrammar
  import opened JsonRoundTrip

  // The value at `from` is read, and `stop` is where the white space after it ends.
  ghost predicate Reads(text: seq<Char>, from: nat, stop: nat) {
    from <= |text| && ValueAt(text, from).Ok? && Skip(text, ValueAt(text, from).next) == stop
  }

  // The value after the comma at `p`.
  function AfterComma(text: seq<Char>, p: nat): (q: nat)
    requires p < |text|
    ensures p < q <= |text|
  {
    Skip(text, p + 1)
  }

  // Elements that are read one after the other: the k-th ends at stops[k], and a comma stands at each but the last.
  ghost predicate Elements(text: seq<Char>, stops: seq<nat>) {
    && stops != []
    && (forall k :: 0 <= k < |stops| ==> stops[k] <= |text|)
    && (forall k :: 0 <= k < |stops| - 1 ==>
          At(text, stops[k]) == COMMA && Reads(text, AfterComma(text, stops[k]), stops[k + 1]))
  }

  // After an element that ends at `p` the list cannot go on, for the reason `e`.
  ghost predicate Breaks(text: seq<Char>, p: nat, e: Error)
    requires p <= |text|
  {
    if At(text, p) == COMMA then e == FailedToAllocate && ValueAt(text, AfterComma(text, p)).Fail?
    else e == MissingEndingBracket && At(text, p) != RBRACKET
  }

  ghost predicate BreaksAfter(text: seq<Char>, p: nat, stops: seq<nat>, e: Error) {
    Elements(text, stops) && stops[0] == p && Breaks(text, stops[|stops| - 1], e)
  }

  lemma {:induction false} ItemsBreak(text: seq<Char>, p: nat, stops: seq<nat>, e: Error)
    requires BreaksAfter(text, p, stops, e)
    ensures ItemsAt(text, p) == Fail(e)
    decreases |stops|
  {
    hide ValueAt;
    if |stops| > 1 {
      assert Reads(text, AfterComma(text, stops[0]), stops[1]);
      assert forall k :: 0 <= k < |stops| - 1 ==> stops[1..][k] == stops[k + 1];
      ItemsBreak(text, stops[1], stops[1..], e);
    }
  }

  lemma {:induction false} BreakOfItems(text: seq<Char>, p: nat, e: Error) returns (stops: seq<nat>)
    requires p <= |text| && ItemsAt(text, p) == Fail(e)
    ensures BreaksAfter(text, p, stops, e)
    decreases |text| - p
  {
    hide ValueAt;
    stops := [p];
    if At(text, p) == COMMA && ValueAt(text, AfterComma(text, p)).Ok? {
      var q := Skip(text, ValueAt(text, AfterComma(text, p)).next);
      var rest := BreakOfItems(text, q, e);
      stops := [p] + rest;
      assert Reads(text, AfterComma(text, p), q);
      forall k | 0 <= k < |stops| - 1
        ensures At(text, stops[k]) == COMMA && Reads(text, AfterComma(text, stops[k]), stops[k + 1])
      {
        assert k > 0 ==> stops[k] == rest[k - 1] && stops[k + 1] == rest[k];
      }
    }
  }

  // Where the first element begins.
  function First(text: seq<Char>, p: nat): (q: nat)
    requires p < |text|
    ensures p < q <= |text|
  {
    Skip(text, Skip(text, p + 1))
  }

  // Exactly when and how an array is rejected: with the error of its first element, or after some elements
  // that are read because there is neither a comma nor a bracket, or because the value after a comma is
  // malformed, whatever its own error is.
  lemma ArrayError(text: seq<Char>, p: nat, e: Error)
    requires p < |text| && text[p] == LBRACKET
    ensures ArrayAt(text, p) == Fail(e) <==>
            && At(text, Skip(text, p + 1)) != RBRACKET
            && (|| ValueAt(text, First(text, p)) == Fail(e)
                || exists stops :: stops != [] && Reads(text, First(text, p), stops[0]) && BreaksAfter(text, stops[0], stops, e))
  {
    hide ValueAt, ItemsAt;
    var v := ValueAt(text, First(text, p));
    if v.Ok? {
      var q := Skip(text, v.next);
      if ItemsAt(text, q) == Fail(e) {
        var stops := BreakOfItems(text, q, e);
        assert Reads(text, First(text, p), stops[0]);
      }
      forall stops | stops != [] && stops[0] == q && BreaksAfter(text, q, stops, e)
        ensures ItemsAt(text, q) == Fail(e)
      {
        ItemsBreak(text, q, stops, e);
      }
    }
  }

  // So a failed allocation is reported exactly when the first element reports one, or a later element is
  // malformed in any way.
  lemma AllocationError(text: seq<Char>, p: nat)
    requires p < |text| && text[p] == LBRACKET
    ensures ArrayAt(text, p) == Fail(FailedToAllocate) <==>
            && At(text, Skip(text, p + 1)) != RBRACKET
            && (|| ValueAt(text, First(text, p)) == Fail(FailedToAllocate)
                || exists stops :: && stops != [] && Reads(text, First(text, p), stops[0]) && Elements(text, stops)
                                   && At(text, stops[|stops| - 1]) == COMMA
                                   && ValueAt(text, AfterComma(text, stops[|stops| - 1])).Fail?)
  {
    hide ValueAt, ItemsAt, ArrayAt, Elements, Reads;
    ArrayError(text, p, FailedToAllocate);
    forall stops | stops != [] && Elements(text, stops)
      ensures stops[|stops| - 1] <= |text|
      ensures BreaksAfter(text, stops[0], stops, FailedToAllocate) <==>
              At(text, stops[|stops| - 1]) == COMMA && ValueAt(text, AfterComma(text, stops[|stops| - 1])).Fail?
    {
      LastStop(text, stops);
    }
  }

  lemma LastStop(text: seq<Char>, stops: seq<nat>)
    requires Elements(text, stops)
    ensures stops[|stops| - 1] <= |text|
  {
  }

  // Every other error is passed on from the first element.
  lemma OtherErrorsPass(text: seq<Char>, p: nat, e: Error)
    requires p < |text| && text[p] == LBRACKET && e != FailedToAllocate && e != MissingEndingBracket
    ensures ArrayAt(text, p) == Fail(e) <==> At(text, Skip(text, p + 1)) != RBRACKET && ValueAt(text, First(text, p)) == Fail(e)
  {
    hide ValueAt, ItemsAt, ArrayAt;
    ArrayError(text, p, e);
  }

  // It happens: [1,x] is a syntax error at the x, but no memory is short.
  lemma MalformedElementBlamesMemory()
    ensures var text := [LBRACKET, ZERO + 1, COMMA, 120, RBRACKET];
            ValueAt(text, 3) == Fail(InvalidSyntax) && Document(text) == Fail(FailedToAllocate)
  {
    var text := [LBRACKET, ZERO + 1, COMMA, 120, RBRACKET];
    hide NumberAt, StartsWith, Skip;
    forall p: nat | p < 4
      ensures Skip(text, p) == p
    {
      SkipNothing(text, p);
    }
    LiteralHeads(text, 0);
    LiteralHeads(text, 1);
    LiteralHeads(text, 3);
    OneDigit(text, 1);
    assert ValueAt(text, 3) == Fail(InvalidSyntax);
    assert ValueAt(text, 1) == Ok(2, Number(1.0));
    assert ItemsAt(text, 2) == Fail(FailedToAllocate);
    assert ArrayAt(text, 0) == Fail(FailedToAllocate);
  }

  lemma OneDigit(text: seq<Char>, p: nat)
    requires p + 1 < |text| && text[p] == ZERO + 1 && text[p + 1] == COMMA
    ensures NumberAt(text, p) == (p + 1, 1.0)
  {
    assert Pow10(0) == 1.0;
    assert DigitsEnd(text, p) == p + 1;
    assert Decimal(text, p, p + 1, 0) == 1;
  }
}
