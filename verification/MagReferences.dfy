// The table of magnetometer references in SensorFusion::handleMessage and Reset (OVR_SensorFusion.cpp). Distances are
// compared by their squares.
module MagReferences {
  import opened SensorStatistics

  const MAX_REFERENCES := 1000
  const MAX_DIST_SQ := 0.01        // of maxMagRefDist, 0.1
  const FIRST_SCORE := 1000

  function DistSq(a: Vec3, b: Vec3): real {
    Times(a.x - b.x, a.x - b.x) + Times(a.y - b.y, a.y - b.y) + Times(a.z - b.z, a.z - b.z)
  }

  // A field measured in the frame of the sensor, and the same in the frame of the world.
  datatype Ref = Ref(body: Vec3, world: Vec3)

  function Paired(body: seq<Vec3>, world: seq<Vec3>): (r: seq<Ref>)
    requires |body| == |world|
    ensures |r| == |body| && forall i :: 0 <= i < |r| ==> r[i] == Ref(body[i], world[i])
  {
    seq(|body|, i requires 0 <= i < |body| => Ref(body[i], world[i]))
  }

  // No two references are closer than maxMagRefDist.
  predicate Separated(refs: seq<Ref>) {
    forall i, j :: 0 <= i < |refs| && 0 <= j < |refs| && i != j ==> DistSq(refs[i].body, refs[j].body) >= MAX_DIST_SQ
  }

  // The reference at i goes, and the last one takes its place.
  function Removed(refs: seq<Ref>, i: nat): (r: seq<Ref>)
    requires i < |refs|
    ensures |r| == |refs| - 1
  {
    refs[i := refs[|refs| - 1]][..|refs| - 1]
  }

  lemma RemovedRest(refs: seq<Ref>, i: nat)
    requires i < |refs|
    ensures multiset(Removed(refs, i)) == multiset(refs) - multiset{refs[i]}
    ensures Separated(refs) ==> Separated(Removed(refs, i))
  {
    hide Separated;
    RemovedSeparated(refs, i);
    RemovedMultiset(refs, i);
  }

  lemma RemovedMultiset(refs: seq<Ref>, i: nat)
    requires i < |refs|
    ensures multiset(Removed(refs, i)) == multiset(refs) - multiset{refs[i]}
  {
    var n := |refs| - 1;
    if i == n {
      assert Removed(refs, i) == refs[..n];
      assert refs == refs[..n] + [refs[n]];
    } else {
      RemovedIs(refs, i);
      hide Removed;
      LastInPlace(refs[..i], refs[i], refs[i + 1..n], refs[n]);
    }
  }

  lemma RemovedIs(refs: seq<Ref>, i: nat)
    requires i < |refs| - 1
    ensures refs == refs[..i] + [refs[i]] + refs[i + 1..|refs| - 1] + [refs[|refs| - 1]]
    ensures Removed(refs, i) == refs[..i] + [refs[|refs| - 1]] + refs[i + 1..|refs| - 1]
  {
  }

  lemma LastInPlace(before: seq<Ref>, r: Ref, after: seq<Ref>, last: Ref)
    ensures multiset(before + [last] + after) == multiset(before + [r] + after + [last]) - multiset{r}
  {
  }

  lemma RemovedSeparated(refs: seq<Ref>, i: nat)
    requires i < |refs|
    ensures Separated(refs) ==> Separated(Removed(refs, i))
  {
    hide DistSq;
    if Separated(refs) {
      var r, n := Removed(refs, i), |refs| - 1;
      forall j, k | 0 <= j < n && 0 <= k < n && j != k
        ensures DistSq(r[j].body, r[k].body) >= MAX_DIST_SQ
      {
        assert r[j] == refs[if j == i then n else j] && r[k] == refs[if k == i then n else k];
      }
    }
  }

  // i is the first of the nearest references to p within the radius, or -1 if there is none.
  predicate Nearest(refs: seq<Ref>, p: Vec3, i: int) {
    if i < 0 then i == -1 && forall j :: 0 <= j < |refs| ==> DistSq(p, refs[j].body) >= MAX_DIST_SQ
    else
      && i < |refs|
      && DistSq(p, refs[i].body) < MAX_DIST_SQ
      && (forall j :: 0 <= j < i ==> DistSq(p, refs[i].body) < DistSq(p, refs[j].body))
      && (forall j :: i <= j < |refs| ==> DistSq(p, refs[i].body) <= DistSq(p, refs[j].body))
  }

  predicate InReach(refs: seq<Ref>, p: Vec3) {
    exists i :: 0 <= i < |refs| && DistSq(p, refs[i].body) < MAX_DIST_SQ
  }

  lemma NearestInReach(refs: seq<Ref>, p: Vec3, i: int)
    requires Nearest(refs, p, i)
    ensures -1 <= i < |refs| && (i >= 0 <==> InReach(refs, p))
  {
  }

  lemma NearestNone(p: Vec3)
    ensures Nearest([], p, -1)
  {
  }

  lemma NearestNext(refs: seq<Ref>, p: Vec3, n: nat, i: int)
    requires n < |refs| && -1 <= i < n && Nearest(refs[..n], p, i)
    ensures var best := if i < 0 then MAX_DIST_SQ else DistSq(p, refs[i].body);
            Nearest(refs[..n + 1], p, if best > DistSq(p, refs[n].body) then n else i)
  {
    hide DistSq;
  }

  lemma DistSymmetric(a: Vec3, b: Vec3)
    ensures DistSq(a, b) == DistSq(b, a)
  {
    SquareOfNegative(a.x - b.x);
    SquareOfNegative(a.y - b.y);
    SquareOfNegative(a.z - b.z);
  }

  // Only the point itself is at distance 0, and along an axis distances are differences.
  lemma DistIsEuclidean(a: Vec3, b: Vec3)
    ensures DistSq(a, b) >= 0.0 && (DistSq(a, b) == 0.0 <==> a == b)
    ensures a.y == b.y && a.z == b.z ==> DistSq(a, b) == Times(a.x - b.x, a.x - b.x)
    ensures a.x == b.x && a.z == b.z ==> DistSq(a, b) == Times(a.y - b.y, a.y - b.y)
    ensures a.x == b.x && a.y == b.y ==> DistSq(a, b) == Times(a.z - b.z, a.z - b.z)
    ensures DistSq(a, b) == DistSq(a, Vec3(b.x, a.y, a.z)) + DistSq(a, Vec3(a.x, b.y, a.z)) + DistSq(a, Vec3(a.x, a.y, b.z))
  {
    hide Times;
    SquareZero(a.x - b.x);
    SquareZero(a.y - b.y);
    SquareZero(a.z - b.z);
    SquareZero(0.0);
  }

  // A new reference is made only where no other is near.
  lemma AddedIsSeparate(refs: seq<Ref>, r: Ref)
    requires Separated(refs) && Nearest(refs, r.body, -1)
    ensures Separated(refs + [r])
  {
    hide DistSq;
    var all := refs + [r];
    forall i, j | 0 <= i < |all| && 0 <= j < |all| && i != j
      ensures DistSq(all[i].body, all[j].body) >= MAX_DIST_SQ
    {
      DistSymmetric(all[i].body, all[j].body);
    }
  }

  class MagTable {
    const inBody: array<Vec3>
    const inWorld: array<Vec3>
    var refIdx: int            // the reference in use, or -1
    var numReferences: int
    var refScore: int
    ghost var good: nat        // messages since the reference was chosen in which its tilt was right,
    ghost var bad: nat         // and in which it was not

    ghost predicate Shaped()
      reads this
    {
      inBody != inWorld && inBody.Length == inWorld.Length == MAX_REFERENCES && 0 <= numReferences <= MAX_REFERENCES
    }

    ghost function Refs(): (r: seq<Ref>)
      reads this, inBody, inWorld
      requires Shaped()
      ensures |r| == numReferences
    {
      Paired(inBody[..numReferences], inWorld[..numReferences])
    }

    ghost predicate Valid()
      reads this, inBody, inWorld
    {
      && Shaped() && Separated(Refs()) && -1 <= refIdx < numReferences
      && (refIdx >= 0 ==> refScore == FIRST_SCORE + 2 * good - bad)
    }

    constructor ()
      ensures Valid() && Refs() == [] && refIdx == -1 && fresh(inBody) && fresh(inWorld)
    {
      inBody, inWorld := new Vec3[MAX_REFERENCES], new Vec3[MAX_REFERENCES];
      refIdx, numReferences, refScore := -1, 0, 0;
    }

    method Reset()
      requires Valid()
      modifies this
      ensures Valid() && Refs() == [] && refIdx == -1
    {
      numReferences := 0;
      refIdx := -1;
    }

    // The reference for calMag; `world` is calMag in the frame of the world.
    method Choose(calMag: Vec3, world: Vec3)
      requires Valid()
      modifies this, inBody, inWorld
      ensures Valid()
      ensures Chosen(old(Refs()), old(refIdx), old(refScore), calMag, world, Refs(), refIdx)
      ensures if Stays(old(Refs()), old(refIdx), calMag)
              then refScore == old(refScore) && good == old(good) && bad == old(bad)
              else refScore == FIRST_SCORE && good == bad == 0
    {
      hide Separated, Nearest, DistSq, Paired, Removed, InReach;
      if refIdx < 0 || DistSq(calMag, inBody[refIdx]) > MAX_DIST_SQ {
        if refIdx >= 0 && refScore < 0 {
          Remove();
        }
        ghost var rest := Refs();
        good, bad := 0, 0;
        FindNearest(calMag);
        NearestInReach(rest, calMag, refIdx);
        if refIdx < 0 && numReferences < MAX_REFERENCES {
          Add(calMag, world);
        }
      }
    }

    // Takes the reference in use off the table.
    method Remove()
      requires Shaped() && 0 <= refIdx < numReferences
      modifies this`numReferences, inBody, inWorld
      ensures Shaped() && Refs() == Removed(old(Refs()), refIdx)
      ensures old(Separated(Refs())) ==> Separated(Refs())
    {
      RemovedRest(Refs(), refIdx);
      hide Separated;
      numReferences := numReferences - 1;
      inBody[refIdx] := inBody[numReferences];
      inWorld[refIdx] := inWorld[numReferences];
      assert Refs() == Removed(old(Refs()), refIdx);
    }

    method FindNearest(calMag: Vec3)
      requires Shaped()
      modifies this`refIdx, this`refScore
      ensures Nearest(Refs(), calMag, refIdx) && refScore == FIRST_SCORE
    {
      hide DistSq, Nearest, Paired;
      NearestNone(calMag);
      assert Refs()[..0] == [];
      refIdx, refScore := -1, FIRST_SCORE;
      var bestDist := MAX_DIST_SQ;
      for i := 0 to numReferences
        invariant refScore == FIRST_SCORE
        invariant -1 <= refIdx < i && Nearest(Refs()[..i], calMag, refIdx)
        invariant bestDist == if refIdx < 0 then MAX_DIST_SQ else DistSq(calMag, Refs()[refIdx].body)
      {
        NearestNext(Refs(), calMag, i, refIdx);
        var dist := DistSq(calMag, inBody[i]);
        if bestDist > dist {
          bestDist := dist;
          refIdx := i;
        }
      }
      assert Refs()[..numReferences] == Refs();
    }

    method Add(calMag: Vec3, world: Vec3)
      requires Shaped() && Nearest(Refs(), calMag, -1) && numReferences < MAX_REFERENCES
      modifies this`refIdx, this`numReferences, inBody, inWorld
      ensures Shaped() && Refs() == old(Refs()) + [Ref(calMag, world)] && refIdx == old(numReferences)
      ensures old(Separated(Refs())) ==> Separated(Refs())
    {
      if Separated(Refs()) {
        AddedIsSeparate(Refs(), Ref(calMag, world));
      }
      hide Separated, Nearest;
      refIdx := numReferences;
      inBody[refIdx] := calMag;
      inWorld[refIdx] := world;
      numReferences := numReferences + 1;
      assert Refs() == old(Refs()) + [Ref(calMag, world)];
    }

    // One message: `active` when yaw correction is on and calibrated and has run for long enough, and `tiltOk` says
    // whether the vertical angle fits a reference.
    method HandleMessage(active: bool, calMag: Vec3, world: Vec3, tiltOk: Vec3 -> bool)
      requires Valid()
      modifies this, inBody, inWorld
      ensures Valid()
      ensures !active ==> Refs() == old(Refs()) && refIdx == old(refIdx) && refScore == old(refScore)
      ensures active ==> Chosen(old(Refs()), old(refIdx), old(refScore), calMag, world, Refs(), refIdx)
      ensures active ==>
                var base := if Stays(old(Refs()), old(refIdx), calMag) then old(refScore) else FIRST_SCORE;
                refScore == if refIdx < 0 then base else if tiltOk(Refs()[refIdx].world) then base + 2 else base - 1
    {
      if active {
        Choose(calMag, world);
        if refIdx >= 0 {
          if tiltOk(inWorld[refIdx]) {
            refScore := refScore + 2;
            good := good + 1;
          } else {
            refScore := refScore - 1;
            bad := bad + 1;
          }
        }
      }
    }
  }

  // The reference in use is still near enough.
  predicate Stays(refs: seq<Ref>, idx: int, p: Vec3) {
    0 <= idx < |refs| && DistSq(p, refs[idx].body) <= MAX_DIST_SQ
  }

  // What one message does to the table. A reference with a negative score is removed once it is out of reach; the
  // nearest one in reach is then used, and if there is none, a new one.
  predicate Chosen(refs: seq<Ref>, idx: int, score: int, p: Vec3, world: Vec3, refs': seq<Ref>, idx': int) {
    if Stays(refs, idx, p) then refs' == refs && idx' == idx
    else
      var rest := if 0 <= idx < |refs| && score < 0 then Removed(refs, idx) else refs;
      if InReach(rest, p) then refs' == rest && idx' >= 0 && Nearest(rest, p, idx')
      else if |rest| < MAX_REFERENCES then refs' == rest + [Ref(p, world)] && idx' == |rest|
      else refs' == rest && idx' == -1
  }

  // The table stays separated over any run of messages, the reference in use is within reach of the last one,
  // and there is none only when the table is full and nothing in it is near.
  lemma ChosenKeeps(refs: seq<Ref>, idx: int, score: int, p: Vec3, world: Vec3, refs': seq<Ref>, idx': int)
    requires -1 <= idx < |refs| <= MAX_REFERENCES && Separated(refs)
    requires Chosen(refs, idx, score, p, world, refs', idx')
    ensures -1 <= idx' < |refs'| <= MAX_REFERENCES && Separated(refs')
    ensures if idx' >= 0 then DistSq(p, refs'[idx'].body) <= MAX_DIST_SQ
            else |refs'| == MAX_REFERENCES && !InReach(refs', p)
  {
    if !Stays(refs, idx, p) {
      var rest := if 0 <= idx < |refs| && score < 0 then Removed(refs, idx) else refs;
      if 0 <= idx < |refs| && score < 0 {
        RemovedRest(refs, idx);
      }
      hide Separated;
      if !InReach(rest, p) && |rest| < MAX_REFERENCES {
        AddedIsSeparate(rest, Ref(p, world));
        SelfDistance(p);
      }
    }
  }

  lemma SelfDistance(p: Vec3)
    ensures DistSq(p, p) == 0.0
  {
    SquareZero(p.x - p.x);
    SquareZero(p.y - p.y);
    SquareZero(p.z - p.z);
  }

  // What the table holds after a message: a reference leaves exactly when it was in use, is out of reach and has a
  // negative score, and the new one comes exactly when none of the others is near and there is room.
  lemma TableChangesExactly(refs: seq<Ref>, idx: int, score: int, p: Vec3, world: Vec3, refs': seq<Ref>, idx': int)
    requires Chosen(refs, idx, score, p, world, refs', idx')
    ensures var bad := 0 <= idx < |refs| && score < 0 && DistSq(p, refs[idx].body) > MAX_DIST_SQ;
            var kept := multiset(refs) - (if bad then multiset{refs[idx]} else multiset{});
            multiset(refs') == kept + (if Comes(refs, idx, kept, p) then multiset{Ref(p, world)} else multiset{})
  {
    hide DistSq, Nearest;
    if !Stays(refs, idx, p) {
      var rest := if 0 <= idx < |refs| && score < 0 then Removed(refs, idx) else refs;
      if 0 <= idx < |refs| {
        RemovedRest(refs, idx);
      }
      ReachOfAll(rest, p);
    }
  }

  ghost predicate Comes(refs: seq<Ref>, idx: int, kept: multiset<Ref>, p: Vec3) {
    !Stays(refs, idx, p) && |kept| < MAX_REFERENCES && forall r :: r in kept ==> DistSq(p, r.body) >= MAX_DIST_SQ
  }

  lemma ReachOfAll(refs: seq<Ref>, p: Vec3)
    ensures |multiset(refs)| == |refs|
    ensures InReach(refs, p) <==> !forall r :: r in multiset(refs) ==> DistSq(p, r.body) >= MAX_DIST_SQ
  {
    hide DistSq;
    forall i | 0 <= i < |refs|
      ensures refs[i] in multiset(refs)
    {
    }
  }
}
