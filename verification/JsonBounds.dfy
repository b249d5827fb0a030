// When the parser stays within its text.
module JsonBounds {
  import opened JsonText
  import opened JsonGrammar
  import opened JsonUnicode
  import opened JsonRoundTrip

  predicate EndsInBackslash(text: seq<Char>) {
    text != [] && text[|text| - 1] == BACKSLASH
  }

  lemma {:induction false} MeasureInBounds(text: seq<Char>, p: nat)
    requires p <= |text| && !EndsInBackslash(text)
    ensures Measure(text, p).Upto?
    decreases |text| - p
  {
    if p < |text| && text[p] != QUOTE {
      MeasureInBounds(text, if text[p] == BACKSLASH then p + 2 else p + 1);
    }
  }

  lemma StringInBounds(text: seq<Char>, p: nat)
    requires p <= |text| && !EndsInBackslash(text)
    ensures StringAt(text, p) != Overrun
  {
    hide Unescape, Measure;
    if At(text, p) == QUOTE {
      MeasureInBounds(text, p + 1);
      PassesAgree(text, p + 1);
    }
  }

  lemma {:induction false} ValueInBounds(text: seq<Char>, p: nat)
    requires p <= |text| && !EndsInBackslash(text)
    ensures ValueAt(text, p) != Overrun
    decreases |text| - p, 1
  {
    hide StringAt, NumberAt, ArrayAt, ObjectAt, StartsWith;
    StringInBounds(text, p);
    if At(text, p) == LBRACKET {
      ArrayInBounds(text, p);
    } else if At(text, p) == LBRACE {
      ObjectInBounds(text, p);
    }
  }

  lemma {:induction false} ArrayInBounds(text: seq<Char>, p: nat)
    requires p < |text| && text[p] == LBRACKET && !EndsInBackslash(text)
    ensures ArrayAt(text, p) != Overrun
    decreases |text| - p, 0
  {
    hide ValueAt, ItemsAt, Skip;
    var q := Skip(text, Skip(text, p + 1));
    ValueInBounds(text, q);
    if ValueAt(text, q).Ok? {
      ItemsInBounds(text, Skip(text, ValueAt(text, q).next));
    }
  }

  lemma {:induction false} ItemsInBounds(text: seq<Char>, p: nat)
    requires p <= |text| && !EndsInBackslash(text)
    ensures ItemsAt(text, p) != Overrun
    decreases |text| - p, 0
  {
    hide ValueAt, Skip;
    if At(text, p) == COMMA {
      var q := Skip(text, p + 1);
      ValueInBounds(text, q);
      if ValueAt(text, q).Ok? {
        ItemsInBounds(text, Skip(text, ValueAt(text, q).next));
      }
    }
  }

  lemma {:induction false} MemberInBounds(text: seq<Char>, p: nat)
    requires p <= |text| && !EndsInBackslash(text)
    ensures MemberAt(text, p) != Overrun
    decreases |text| - p, 2
  {
    hide ValueAt, StringAt, Skip;
    StringInBounds(text, p);
    if StringAt(text, p).Ok? && At(text, Skip(text, StringAt(text, p).next)) == COLON {
      ValueInBounds(text, Skip(text, Skip(text, StringAt(text, p).next) + 1));
    }
  }

  lemma {:induction false} ObjectInBounds(text: seq<Char>, p: nat)
    requires p < |text| && text[p] == LBRACE && !EndsInBackslash(text)
    ensures ObjectAt(text, p) != Overrun
    decreases |text| - p, 0
  {
    hide MemberAt, MembersAt, Skip;
    var q := Skip(text, Skip(text, p + 1));
    MemberInBounds(text, q);
    if MemberAt(text, q).Ok? {
      MembersInBounds(text, Skip(text, MemberAt(text, q).next));
    }
  }

  lemma {:induction false} MembersInBounds(text: seq<Char>, p: nat)
    requires p <= |text| && !EndsInBackslash(text)
    ensures MembersAt(text, p) != Overrun
    decreases |text| - p, 0
  {
    hide MemberAt, Skip;
    if At(text, p) == COMMA {
      var q := Skip(text, p + 1);
      MemberInBounds(text, q);
      if MemberAt(text, q).Ok? {
        MembersInBounds(text, Skip(text, MemberAt(text, q).next));
      }
    }
  }

  // A text that does not end in a backslash is never read past its terminator.
  lemma DocumentInBounds(text: seq<Char>)
    requires !EndsInBackslash(text)
    ensures Document(text) != Overrun
  {
    hide ValueAt, Skip;
    ValueInBounds(text, Skip(text, 0));
  }

  // The promise does not hold of every text: a quote and a backslash are enough to break it.
  lemma LoneBackslashOverruns()
    ensures Document([QUOTE, BACKSLASH]) == Overrun
  {
    var text := [QUOTE, BACKSLASH];
    SkipNothing(text, 0);
    assert Unescape(text, 1) == Overrun;
    assert text[0..1] == [QUOTE];
    assert !StartsWith(text, 0, NULL_TEXT) && !StartsWith(text, 0, FALSE_TEXT) && !StartsWith(text, 0, TRUE_TEXT);
  }

  // How many backslashes stand directly before q, not looking before p.
  function Backslashes(text: seq<Char>, p: nat, q: nat): (n: nat)
    requires p <= q <= |text|
    ensures n <= q - p
    decreases q
  {
    if q > p && text[q - 1] == BACKSLASH then 1 + Backslashes(text, p, q - 1) else 0
  }

  lemma {:induction false} BackslashesFrom(text: seq<Char>, p: nat, m: nat, q: nat)
    requires p <= m <= q <= |text|
    ensures Backslashes(text, p, q)
            == if Backslashes(text, m, q) == q - m then q - m + Backslashes(text, p, m) else Backslashes(text, m, q)
    decreases q
  {
    if m < q {
      BackslashesFrom(text, p, m, q - 1);
    }
  }

  // The quote at q ends a string whose characters begin at p: an even number of backslashes is before it.
  predicate Closes(text: seq<Char>, p: nat, q: nat) {
    p <= q < |text| && text[q] == QUOTE && Backslashes(text, p, q) % 2 == 0
  }

  // No quote ends the string, and the text ends in an odd number of backslashes.
  predicate Dangles(text: seq<Char>, p: nat)
    requires p <= |text|
  {
    (forall q :: p <= q < |text| ==> !Closes(text, p, q)) && Backslashes(text, p, |text|) % 2 == 1
  }

  // Skipping a character, or a backslash and the character after it, does not change that.
  lemma DanglesFrom(text: seq<Char>, p: nat, m: nat)
    requires p < m <= |text| && text[p] != QUOTE
    requires m == if text[p] == BACKSLASH then p + 2 else p + 1
    ensures Dangles(text, p) <==> Dangles(text, m)
  {
    forall q | m <= q <= |text|
      ensures Backslashes(text, p, q) % 2 == Backslashes(text, m, q) % 2
    {
      BackslashesFrom(text, p, m, q);
      assert Backslashes(text, p, p) == 0;
    }
    assert forall q :: m <= q < |text| ==> (Closes(text, p, q) <==> Closes(text, m, q));
    assert Backslashes(text, p, p) == 0;
    assert forall q :: p <= q < m ==> !Closes(text, p, q);
  }

  lemma {:induction false} MeasureRunsOff(text: seq<Char>, p: nat)
    requires p <= |text|
    ensures Measure(text, p) == BeyondEnd <==> Dangles(text, p)
    decreases |text| - p
  {
    assert Backslashes(text, p, p) == 0;
    if p < |text| && text[p] == QUOTE {
      assert Closes(text, p, p);
    } else if p < |text| && text[p] == BACKSLASH && p + 1 == |text| {
      assert Backslashes(text, p, p + 1) == 1;
    } else if p < |text| {
      var m := if text[p] == BACKSLASH then p + 2 else p + 1;
      MeasureRunsOff(text, m);
      DanglesFrom(text, p, m);
    }
  }

  // Exactly which strings are read past the terminator: those that no quote ends, with an odd number of
  // backslashes at the end of the text.
  lemma StringOverruns(text: seq<Char>, p: nat)
    requires p < |text| && text[p] == QUOTE
    ensures StringAt(text, p) == Overrun <==> Dangles(text, p + 1)
  {
    hide Unescape, Measure, Dangles;
    PassesAgree(text, p + 1);
    MeasureRunsOff(text, p + 1);
  }

  // ---------- documents ----------

  // The parser, started at `p`, comes to a string that begins with the quote at `q`.
  ghost predicate ValueMeets(text: seq<Char>, p: nat, q: nat)
    requires p <= |text|
    decreases |text| - p, 1
  {
    if At(text, p) == QUOTE then q == p
    else if At(text, p) == LBRACKET then ArrayMeets(text, p, q)
    else At(text, p) == LBRACE && ObjectMeets(text, p, q)
  }

  ghost predicate ArrayMeets(text: seq<Char>, p: nat, q: nat)
    requires p < |text| && text[p] == LBRACKET
    decreases |text| - p, 0
  {
    var first := Skip(text, Skip(text, p + 1));
    && At(text, Skip(text, p + 1)) != RBRACKET
    && (|| ValueMeets(text, first, q)
        || (ValueAt(text, first).Ok? && ItemsMeet(text, Skip(text, ValueAt(text, first).next), q)))
  }

  ghost predicate ItemsMeet(text: seq<Char>, p: nat, q: nat)
    requires p <= |text|
    decreases |text| - p, 0
  {
    && At(text, p) == COMMA
    && var v := Skip(text, p + 1);
       (|| ValueMeets(text, v, q)
        || (ValueAt(text, v).Ok? && ItemsMeet(text, Skip(text, ValueAt(text, v).next), q)))
  }

  ghost predicate ObjectMeets(text: seq<Char>, p: nat, q: nat)
    requires p < |text| && text[p] == LBRACE
    decreases |text| - p, 0
  {
    var first := Skip(text, Skip(text, p + 1));
    && At(text, Skip(text, p + 1)) != RBRACE
    && (|| MemberMeets(text, first, q)
        || (MemberAt(text, first).Ok? && MembersMeet(text, Skip(text, MemberAt(text, first).next), q)))
  }

  ghost predicate MembersMeet(text: seq<Char>, p: nat, q: nat)
    requires p <= |text|
    decreases |text| - p, 0
  {
    && At(text, p) == COMMA
    && var m := Skip(text, p + 1);
       (|| MemberMeets(text, m, q)
        || (MemberAt(text, m).Ok? && MembersMeet(text, Skip(text, MemberAt(text, m).next), q)))
  }

  // The name, and then the value.
  ghost predicate MemberMeets(text: seq<Char>, p: nat, q: nat)
    requires p <= |text|
    decreases |text| - p, 2
  {
    || (At(text, p) == QUOTE && q == p)
    || (StringAt(text, p).Ok? && var c := Skip(text, StringAt(text, p).next);
        At(text, c) == COLON && ValueMeets(text, Skip(text, c + 1), q))
  }

  // The string that begins at `q` is read past the terminator.
  predicate Runaway(text: seq<Char>, q: nat) {
    q < |text| && text[q] == QUOTE && Dangles(text, q + 1)
  }

  lemma StringRunsAway(text: seq<Char>, p: nat)
    requires p <= |text|
    ensures StringAt(text, p) == Overrun <==> Runaway(text, p)
  {
    hide Dangles, Unescape;
    if At(text, p) == QUOTE {
      StringOverruns(text, p);
    }
  }

  lemma {:induction false} ValueRunsAway(text: seq<Char>, p: nat)
    requires p <= |text|
    ensures ValueAt(text, p) == Overrun <==> exists q :: ValueMeets(text, p, q) && Runaway(text, q)
    decreases |text| - p, 1
  {
    hide StringAt, NumberAt, ArrayAt, ObjectAt, StartsWith, ArrayMeets, ObjectMeets, Runaway;
    LiteralHeads(text, p);
    if At(text, p) == QUOTE {
      StringRunsAway(text, p);
      assert ValueMeets(text, p, p);
    } else if At(text, p) == LBRACKET {
      ArrayRunsAway(text, p);
      assert forall q :: ValueMeets(text, p, q) <==> ArrayMeets(text, p, q);
    } else if At(text, p) == LBRACE {
      ObjectRunsAway(text, p);
      assert forall q :: ValueMeets(text, p, q) <==> ObjectMeets(text, p, q);
    } else {
      assert forall q :: !ValueMeets(text, p, q);
    }
  }

  lemma {:induction false} ArrayRunsAway(text: seq<Char>, p: nat)
    requires p < |text| && text[p] == LBRACKET
    ensures ArrayAt(text, p) == Overrun <==> exists q :: ArrayMeets(text, p, q) && Runaway(text, q)
    decreases |text| - p, 0
  {
    hide ValueAt, ItemsAt, ValueMeets, ItemsMeet, Runaway;
    var first := Skip(text, Skip(text, p + 1));
    ValueRunsAway(text, first);
    if ValueAt(text, first).Ok? {
      ItemsRunAway(text, Skip(text, ValueAt(text, first).next));
    }
  }

  lemma {:induction false} ItemsRunAway(text: seq<Char>, p: nat)
    requires p <= |text|
    ensures ItemsAt(text, p) == Overrun <==> exists q :: ItemsMeet(text, p, q) && Runaway(text, q)
    decreases |text| - p, 0
  {
    hide ValueAt, ValueMeets, Runaway;
    if At(text, p) == COMMA {
      var v := Skip(text, p + 1);
      ValueRunsAway(text, v);
      if ValueAt(text, v).Ok? {
        ItemsRunAway(text, Skip(text, ValueAt(text, v).next));
      }
    }
  }

  lemma {:induction false} ObjectRunsAway(text: seq<Char>, p: nat)
    requires p < |text| && text[p] == LBRACE
    ensures ObjectAt(text, p) == Overrun <==> exists q :: ObjectMeets(text, p, q) && Runaway(text, q)
    decreases |text| - p, 0
  {
    hide MemberAt, MembersAt, MemberMeets, MembersMeet, Runaway;
    var first := Skip(text, Skip(text, p + 1));
    MemberRunsAway(text, first);
    if MemberAt(text, first).Ok? {
      MembersRunAway(text, Skip(text, MemberAt(text, first).next));
    }
  }

  lemma {:induction false} MembersRunAway(text: seq<Char>, p: nat)
    requires p <= |text|
    ensures MembersAt(text, p) == Overrun <==> exists q :: MembersMeet(text, p, q) && Runaway(text, q)
    decreases |text| - p, 0
  {
    hide MemberAt, MemberMeets, Runaway;
    if At(text, p) == COMMA {
      var m := Skip(text, p + 1);
      MemberRunsAway(text, m);
      if MemberAt(text, m).Ok? {
        MembersRunAway(text, Skip(text, MemberAt(text, m).next));
      }
    }
  }

  lemma {:induction false} MemberRunsAway(text: seq<Char>, p: nat)
    requires p <= |text|
    ensures MemberAt(text, p) == Overrun <==> exists q :: MemberMeets(text, p, q) && Runaway(text, q)
    decreases |text| - p, 2
  {
    hide StringAt, ValueAt, ValueMeets, Runaway;
    StringRunsAway(text, p);
    RunawayStarts(text, p);
    if StringAt(text, p).Ok? {
      var c := Skip(text, StringAt(text, p).next);
      if At(text, c) == COLON {
        ValueRunsAway(text, Skip(text, c + 1));
      }
    }
  }

  lemma RunawayStarts(text: seq<Char>, q: nat)
    ensures Runaway(text, q) ==> q < |text| && text[q] == QUOTE
  {
  }

  // Exactly which texts are read past the terminator: those in which the parser comes to a string that no
  // quote closes, with an odd number of backslashes at the end of the text.
  lemma DocumentOverruns(text: seq<Char>)
    ensures Document(text) == Overrun <==> exists q :: ValueMeets(text, Skip(text, 0), q) && Runaway(text, q)
  {
    ValueRunsAway(text, Skip(text, 0));
  }
}
