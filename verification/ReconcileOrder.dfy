/** The order of the default steps after reconciling. */
module ReconcileOrder {
  import opened Reconcile
  import opened ReconcileLaws

  /** The positions, in the defaults, of those steps that are defaults. */
  function Ranks(steps: seq<Step>, defaults: seq<Step>): seq<int> {
    if steps == [] then []
    else
      (if IndexOf(defaults, steps[0].id) >= 0 then [IndexOf(defaults, steps[0].id)] else [])
      + Ranks(steps[1..], defaults)
  }

  predicate Increasing(r: seq<int>) {
    forall i, j :: 0 <= i < j < |r| ==> r[i] < r[j]
  }

  /** 0, 1, …, n - 1 */
  predicate IsRange(r: seq<int>, n: nat) {
    |r| == n && forall i :: 0 <= i < n ==> r[i] == i
  }

  lemma {:induction false} RanksTogether(a: seq<Step>, b: seq<Step>, defaults: seq<Step>)
    ensures Ranks(a + b, defaults) == Ranks(a, defaults) + Ranks(b, defaults)
  {
    hide IndexOf;
    if a == [] {
      assert a + b == b;
    } else {
      var rest := a[1..];
      assert a + b == [a[0]] + (rest + b);
      assert (a + b)[1..] == rest + b;
      RanksTogether(rest, b, defaults);
      var lead := if IndexOf(defaults, a[0].id) >= 0 then [IndexOf(defaults, a[0].id)] else [];
      assert Ranks(a + b, defaults) == lead + Ranks(rest + b, defaults);
      assert Ranks(a, defaults) == lead + Ranks(rest, defaults);
    }
  }

  lemma RankOfOne(s: Step, defaults: seq<Step>)
    ensures Ranks([s], defaults) == if IndexOf(defaults, s.id) >= 0 then [IndexOf(defaults, s.id)] else []
  {
    assert [s][1..] == [];
  }

  lemma {:induction false} RankElements(steps: seq<Step>, defaults: seq<Step>)
    ensures forall v :: v in Ranks(steps, defaults) ==>
              exists i :: 0 <= i < |steps| && IndexOf(defaults, steps[i].id) == v && v >= 0
    ensures forall i :: 0 <= i < |steps| && IndexOf(defaults, steps[i].id) >= 0 ==>
              IndexOf(defaults, steps[i].id) in Ranks(steps, defaults)
  {
    hide IndexOf;
    if steps != [] {
      var rest := steps[1..];
      RankElements(rest, defaults);
      forall v | v in Ranks(steps, defaults)
        ensures exists i :: 0 <= i < |steps| && IndexOf(defaults, steps[i].id) == v && v >= 0
      {
        if v in Ranks(rest, defaults) {
          var i :| 0 <= i < |rest| && IndexOf(defaults, rest[i].id) == v && v >= 0;
          assert steps[i + 1] == rest[i];
        }
      }
      forall i | 0 <= i < |steps| && IndexOf(defaults, steps[i].id) >= 0
        ensures IndexOf(defaults, steps[i].id) in Ranks(steps, defaults)
      {
        if i > 0 {
          assert steps[i] == rest[i - 1];
        }
      }
    }
  }

  lemma SmallerRank(defaults: seq<Step>, j: nat, id: string)
    requires UniqueIds(defaults) && j < |defaults|
    ensures IndexOf(defaults[..j], id) >= 0 <==> 0 <= IndexOf(defaults, id) < j
  {
    var a, b := IndexOf(defaults[..j], id), IndexOf(defaults, id);
    assert a >= 0 ==> defaults[a].id == id;
    assert 0 <= b < j ==> defaults[..j][b].id == id;
  }

  // ------------------------------------------------------------------ one insertion

  /** The backward scan stops right after a listed step, or finds none listed. */
  lemma {:induction false} ScanFindsTheLast(steps: seq<Step>, preceding: seq<Step>, end: nat)
    ensures var at := InsertionPoint(steps, preceding, end);
            || (0 < at <= |steps| && IndexOf(preceding, steps[at - 1].id) >= 0
                && forall i :: at <= i < |steps| ==> IndexOf(preceding, steps[i].id) < 0)
            || (at == end && forall i :: 0 <= i < |steps| ==> IndexOf(preceding, steps[i].id) < 0)
    decreases |steps|
  {
    hide IndexOf;
    if steps != [] && IndexOf(preceding, steps[|steps| - 1].id) < 0 {
      ScanFindsTheLast(steps[..|steps| - 1], preceding, end);
    }
  }

  /** Default `j` goes right after a smaller rank with no smaller one behind it, or to the end if there is none. */
  ghost predicate PutIn(r: seq<int>, j: int, u: seq<int>) {
    exists a, b :: r == a + b && u == a + [j] + b && IsPlace(a, j, b)
  }

  predicate IsPlace(a: seq<int>, j: int, b: seq<int>) {
    && (forall v :: v in b ==> v >= j)
    && if a != [] && a[|a| - 1] < j then true else b == [] && forall v :: v in a ==> v >= j
  }

  lemma BigRanks(steps: seq<Step>, defaults: seq<Step>, j: nat)
    requires UniqueIds(defaults) && j < |defaults|
    requires forall i :: 0 <= i < |steps| ==> IndexOf(defaults[..j], steps[i].id) < 0
    ensures forall v :: v in Ranks(steps, defaults) ==> v >= j
  {
    hide IndexOf, Ranks;
    RankElements(steps, defaults);
    forall v | v in Ranks(steps, defaults) ensures v >= j {
      var i :| 0 <= i < |steps| && IndexOf(defaults, steps[i].id) == v && v >= 0;
      SmallerRank(defaults, j, steps[i].id);
    }
  }

  lemma PlaceAfterSmaller(front: seq<Step>, back: seq<Step>, defaults: seq<Step>, j: nat)
    requires UniqueIds(defaults) && j < |defaults|
    requires front != [] && IndexOf(defaults[..j], front[|front| - 1].id) >= 0
    requires forall i :: 0 <= i < |back| ==> IndexOf(defaults[..j], back[i].id) < 0
    ensures IsPlace(Ranks(front, defaults), j, Ranks(back, defaults))
  {
    hide IndexOf, Ranks;
    SmallerRank(defaults, j, front[|front| - 1].id);
    LastRank(front, defaults);
    BigRanks(back, defaults, j);
  }

  lemma PlaceAtTheEnd(steps: seq<Step>, defaults: seq<Step>, j: nat)
    requires UniqueIds(defaults) && j < |defaults|
    requires forall i :: 0 <= i < |steps| ==> IndexOf(defaults[..j], steps[i].id) < 0
    ensures IsPlace(Ranks(steps, defaults), j, [])
  {
    hide IndexOf, Ranks;
    BigRanks(steps, defaults, j);
    var r := Ranks(steps, defaults);
    assert r == [] || r[|r| - 1] in r;
  }

  lemma ScanFindsThePlace(steps: seq<Step>, defaults: seq<Step>, j: nat)
    requires UniqueIds(defaults) && j < |defaults|
    ensures var at := InsertionPoint(steps, defaults[..j], |steps|);
            at <= |steps| && IsPlace(Ranks(steps[..at], defaults), j, Ranks(steps[at..], defaults))
  {
    hide IndexOf, Ranks, IsPlace, InsertionPoint;
    var preceding := defaults[..j];
    var at := InsertionPoint(steps, preceding, |steps|);
    ScanFindsTheLast(steps, preceding, |steps|);
    if 0 < at && IndexOf(preceding, steps[at - 1].id) >= 0 {
      PlaceAfterSmaller(steps[..at], steps[at..], defaults, j);
    } else {
      assert steps[..at] == steps && steps[at..] == [];
      PlaceAtTheEnd(steps, defaults, j);
      NoRanks(defaults);
    }
  }

  lemma NoRanks(defaults: seq<Step>)
    ensures Ranks([], defaults) == []
  {
  }

  lemma InsertionByRank(steps: seq<Step>, d: Step, defaults: seq<Step>, j: nat)
    requires UniqueIds(defaults) && j < |defaults| && defaults[j].id == d.id
    ensures PutIn(Ranks(steps, defaults), j, Ranks(Inserted(steps, d, defaults), defaults))
  {
    hide IndexOf, Ranks, IsPlace;
    RankOfDefault(defaults, j);
    ScanFindsThePlace(steps, defaults, j);
    SplitRanks(steps, d, defaults, InsertionPoint(steps, defaults[..j], |steps|));
  }

  lemma RankOfDefault(defaults: seq<Step>, j: nat)
    requires UniqueIds(defaults) && j < |defaults|
    ensures IndexOf(defaults, defaults[j].id) == j
  {
    assert forall i :: 0 <= i < j ==> defaults[i].id != defaults[j].id;
  }

  lemma SplitRanks(steps: seq<Step>, d: Step, defaults: seq<Step>, at: nat)
    requires at <= |steps| && IndexOf(defaults, d.id) >= 0
    ensures Ranks(steps, defaults) == Ranks(steps[..at], defaults) + Ranks(steps[at..], defaults)
    ensures Ranks(steps[..at] + [d] + steps[at..], defaults) ==
            Ranks(steps[..at], defaults) + [IndexOf(defaults, d.id)] + Ranks(steps[at..], defaults)
  {
    hide IndexOf, Ranks;
    assert steps == steps[..at] + steps[at..];
    RanksTogether(steps[..at], steps[at..], defaults);
    RanksTogether(steps[..at] + [d], steps[at..], defaults);
    RanksTogether(steps[..at], [d], defaults);
    RankOfOne(d, defaults);
  }

  lemma LastRank(steps: seq<Step>, defaults: seq<Step>)
    requires steps != [] && IndexOf(defaults, steps[|steps| - 1].id) >= 0
    ensures var r := Ranks(steps, defaults); r != [] && r[|r| - 1] == IndexOf(defaults, steps[|steps| - 1].id)
  {
    hide IndexOf, Ranks;
    var init, last := steps[..|steps| - 1], steps[|steps| - 1];
    assert steps == init + [last];
    RanksTogether(init, [last], defaults);
    RankOfOne(last, defaults);
  }

  // ------------------------------------------------------------------ all insertions

  lemma PutInStaysIncreasing(r: seq<int>, j: int, u: seq<int>)
    requires PutIn(r, j, u) && Increasing(r) && j !in r && (r == [] || r[0] < j)
    ensures Increasing(u) && u != [] && (r == [] ==> u == [j]) && (r != [] ==> u[0] == r[0])
    ensures forall v :: v in u <==> v == j || v in r
  {
    var a, b :| r == a + b && u == a + [j] + b && IsPlace(a, j, b);
    assert a != [] ==> r[0] == a[0] && a[0] in a;
    assert forall v :: v in b ==> v in r;
    forall x, y | 0 <= x < y < |u| ensures u[x] < u[y] {
      if y < |a| {
        assert r[x] < r[y];
      } else if x < |a| {
        assert a != [] && r[x] <= r[|a| - 1] < j;
        assert y > |a| ==> u[y] == b[y - |a| - 1] && b[y - |a| - 1] in b;
      } else if x == |a| {
        assert u[y] == b[y - |a| - 1] && b[y - |a| - 1] in b;
      } else {
        assert r[x - 1] < r[y - 1];
      }
    }
  }

  /** Missing defaults, each with its rank, none of them there yet. */
  predicate ToInsert(steps: seq<Step>, missing: seq<Step>, defaults: seq<Step>) {
    && UniqueIds(missing)
    && forall i :: 0 <= i < |missing| ==>
         IndexOf(defaults, missing[i].id) >= 0 && IndexOf(defaults, missing[i].id) !in Ranks(steps, defaults)
  }

  /** The first default leads, or is the next to go in. */
  predicate FirstLeads(r: seq<int>, missing: seq<Step>, defaults: seq<Step>) {
    if r == [] then missing == [] || IndexOf(defaults, missing[0].id) == 0 else r[0] == 0
  }

  lemma {:induction false} InsertionsStayInOrder(steps: seq<Step>, missing: seq<Step>, defaults: seq<Step>)
    requires UniqueIds(defaults) && ToInsert(steps, missing, defaults)
    requires Increasing(Ranks(steps, defaults)) && FirstLeads(Ranks(steps, defaults), missing, defaults)
    ensures Increasing(Ranks(AllInserted(steps, missing, defaults), defaults))
    decreases |missing|
  {
    hide IndexOf, Ranks, Inserted, PutIn, Increasing;
    if missing != [] {
      var d, rest := missing[0], missing[1..];
      var j := IndexOf(defaults, d.id);
      var r, u := Ranks(steps, defaults), Ranks(Inserted(steps, d, defaults), defaults);
      InsertionByRank(steps, d, defaults, j);
      PutInStaysIncreasing(r, j, u);
      forall i | 0 <= i < |rest| ensures IndexOf(defaults, rest[i].id) >= 0 && IndexOf(defaults, rest[i].id) !in u {
        assert rest[i] == missing[i + 1] && d.id != missing[i + 1].id;
        assert defaults[j].id == d.id;
      }
      assert forall i, k :: 0 <= i < k < |rest| ==> rest[i] == missing[i + 1] && rest[k] == missing[k + 1];
      InsertionsStayInOrder(Inserted(steps, d, defaults), rest, defaults);
    }
  }

  // ------------------------------------------------------------------ the law

  lemma LastIsLargest(r: seq<int>, v: int)
    requires Increasing(r) && v in r
    ensures v <= r[|r| - 1] && r[|r| - 1] in r
    ensures v in r[..|r| - 1] <==> v < r[|r| - 1]
  {
    var i :| 0 <= i < |r| && r[i] == v;
    if i < |r| - 1 {
      assert r[..|r| - 1][i] == v;
    }
  }

  lemma {:induction false} IncreasingAndFullIsRange(r: seq<int>, n: nat)
    requires Increasing(r) && forall v :: v in r <==> 0 <= v < n
    ensures IsRange(r, n)
    decreases n
  {
    if n > 0 {
      LastIsLargest(r, n - 1);
      var init := r[..|r| - 1];
      forall v ensures v in init <==> 0 <= v < n - 1 {
        if v in r {
          LastIsLargest(r, v);
        }
      }
      IncreasingAndFullIsRange(init, n - 1);
    } else {
      HasAFirst(r);
    }
  }

  lemma HasAFirst(r: seq<int>)
    ensures r == [] || r[0] in r
  {
  }

  lemma {:induction false} SubsequenceOfIncreasing(a: seq<Step>, b: seq<Step>, defaults: seq<Step>)
    requires Subsequence(a, b) && Increasing(Ranks(b, defaults))
    ensures Increasing(Ranks(a, defaults)) && forall v :: v in Ranks(a, defaults) ==> v in Ranks(b, defaults)
    decreases |b|
  {
    hide IndexOf;
    if a != [] {
      var rb, rest := Ranks(b, defaults), Ranks(b[1..], defaults);
      var lead := if IndexOf(defaults, b[0].id) >= 0 then [IndexOf(defaults, b[0].id)] else [];
      assert rb == lead + rest;
      TailIncreasing(lead, rest);
      SubsequenceOfIncreasing(if a[0] == b[0] then a[1..] else a, b[1..], defaults);
      if a[0] == b[0] {
        HeadIncreasing(lead, Ranks(a[1..], defaults));
      }
    }
  }

  lemma HeadIncreasing(lead: seq<int>, rest: seq<int>)
    requires |lead| <= 1 && Increasing(rest) && forall v :: v in rest && lead != [] ==> lead[0] < v
    ensures Increasing(lead + rest)
  {
    var all := lead + rest;
    forall i, j | 0 <= i < j < |all| ensures all[i] < all[j] {
      assert all[j] == rest[j - |lead|] && all[j] in rest;
    }
  }

  lemma TailIncreasing(lead: seq<int>, rest: seq<int>)
    requires Increasing(lead + rest)
    ensures Increasing(rest) && forall v :: v in rest && lead != [] ==> lead[0] < v
  {
    var all := lead + rest;
    assert forall i :: 0 <= i < |rest| ==> all[|lead| + i] == rest[i];
    forall i | 0 <= i < |rest| ensures lead != [] ==> lead[0] < rest[i] {
      assert rest[i] == all[|lead| + i];
      assert lead != [] ==> lead[0] == all[0];
    }
  }

  lemma {:induction false} SameIdsSameRanks(a: seq<Step>, b: seq<Step>, defaults: seq<Step>)
    requires |a| == |b| && forall i :: 0 <= i < |a| ==> a[i].id == b[i].id
    ensures Ranks(a, defaults) == Ranks(b, defaults)
  {
    hide IndexOf;
    if a != [] {
      SameIdsSameRanks(a[1..], b[1..], defaults);
    }
  }

  lemma AllRanksAreThere(current: seq<Step>, defaults: seq<Step>, fixups: seq<Fixup>)
    requires UniqueIds(defaults)
    ensures var r := Ranks(Reconciled(current, defaults, fixups), defaults);
            forall v :: v in r <==> 0 <= v < |defaults|
  {
    var steps := Reconciled(current, defaults, fixups);
    RankElements(steps, defaults);
    forall v | 0 <= v < |defaults| ensures v in Ranks(steps, defaults) {
      EveryDefaultIsThere(current, defaults, fixups, defaults[v]);
      RankOfDefault(defaults, v);
    }
  }

  lemma MissingAreToInsert(kept: seq<Step>, defaults: seq<Step>)
    requires UniqueIds(defaults)
    ensures ToInsert(kept, Missing(defaults, kept), defaults)
  {
    hide IndexOf;
    var missing := Missing(defaults, kept);
    MissingIsUnique(defaults, kept);
    MissingContents(defaults, kept);
    RankElements(kept, defaults);
    forall i | 0 <= i < |missing|
      ensures IndexOf(defaults, missing[i].id) >= 0 && IndexOf(defaults, missing[i].id) !in Ranks(kept, defaults)
    {
      assert missing[i] in missing;
      var x :| 0 <= x < |defaults| && defaults[x] == missing[i];
      RankOfDefault(defaults, x);
      forall k | 0 <= k < |kept| ensures IndexOf(defaults, kept[k].id) != x {
        assert kept[k].id != defaults[x].id;
      }
    }
  }

  lemma FirstIsRanked(kept: seq<Step>, defaults: seq<Step>)
    requires UniqueIds(defaults) && defaults != []
    ensures IndexOf(kept, defaults[0].id) >= 0 ==> 0 in Ranks(kept, defaults)
    ensures IndexOf(defaults, defaults[0].id) == 0
  {
    RankElements(kept, defaults);
  }

  /** With no first default among them, it heads the missing ones, and goes to the very end. */
  lemma FirstMissingGoesLast(kept: seq<Step>, defaults: seq<Step>)
    requires UniqueIds(defaults) && defaults != [] && 0 !in Ranks(kept, defaults)
    ensures var missing := Missing(defaults, kept);
            && missing != [] && IndexOf(defaults, missing[0].id) == 0
            && Inserted(kept, missing[0], defaults) == kept + [missing[0]]
  {
    FirstIsRanked(kept, defaults);
    ScanFindsTheLast(kept, [], |kept|);
    assert defaults[..0] == [];
  }

  /**
   * The defaults come out in their own order, each once, exactly when those already there were in
   * that order and included the first one, or there were none at all.
   */
  lemma DefaultsInOrderIff(current: seq<Step>, defaults: seq<Step>, fixups: seq<Fixup>)
    requires UniqueIds(defaults)
    ensures IsRange(Ranks(Reconciled(current, defaults, fixups), defaults), |defaults|) <==>
            Increasing(Ranks(current, defaults)) && (Ranks(current, defaults) == [] || Ranks(current, defaults)[0] == 0)
  {
    hide IndexOf, Inserted, Ranks, Subsequence, Fixed, Filled;
    var kept, result := Kept(current, defaults, fixups), Reconciled(current, defaults, fixups);
    var missing := Missing(defaults, kept);
    OperatorsStepsAreKept(current, defaults, fixups);
    SameIdsSameRanks(current, kept, defaults);
    AllRanksAreThere(current, defaults, fixups);
    MissingAreToInsert(kept, defaults);
    var r0 := Ranks(kept, defaults);
    if Increasing(r0) && (r0 == [] || r0[0] == 0) {
      if r0 == [] && defaults != [] {
        FirstMissingGoesLast(kept, defaults);
      }
      InsertionsStayInOrder(kept, missing, defaults);
      IncreasingAndFullIsRange(Ranks(result, defaults), |defaults|);
    }
    if IsRange(Ranks(result, defaults), |defaults|) {
      SubsequenceOfIncreasing(kept, result, defaults);
      if r0 != [] && r0[0] != 0 {
        NotFirstFails(kept, missing, defaults);
      }
    }
  }

  lemma NotFirstFails(kept: seq<Step>, missing: seq<Step>, defaults: seq<Step>)
    requires UniqueIds(defaults) && missing == Missing(defaults, kept)
    requires var r0 := Ranks(kept, defaults); Increasing(r0) && r0 != [] && r0[0] != 0
    ensures !Increasing(Ranks(AllInserted(kept, missing, defaults), defaults))
  {
    hide IndexOf, Inserted, Ranks, Subsequence;
    var r0 := Ranks(kept, defaults);
    RankElements(kept, defaults);
    assert r0[0] in r0;
    assert 0 !in r0 by {
      forall i | 0 <= i < |r0| ensures r0[i] != 0 {
        assert i > 0 ==> r0[0] < r0[i];
      }
    }
    FirstMissingGoesLast(kept, defaults);
    var next := kept + [missing[0]];
    RanksTogether(kept, [missing[0]], defaults);
    RankOfOne(missing[0], defaults);
    assert Ranks(next, defaults)[|r0|] == 0 && Ranks(next, defaults)[0] == r0[0];
    InsertionsKeep(next, missing[1..], defaults);
    if Increasing(Ranks(AllInserted(kept, missing, defaults), defaults)) {
      SubsequenceOfIncreasing(next, AllInserted(kept, missing, defaults), defaults);
    }
  }
}
