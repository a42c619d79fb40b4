/** What reconciling keeps, what it adds, and exactly when the defaults end up in order. */
module ReconcileLaws {
  import opened Reconcile

  predicate UniqueIds(steps: seq<Step>) {
    forall i, j :: 0 <= i < j < |steps| ==> steps[i].id != steps[j].id
  }

  // ------------------------------------------------------------------ nothing of the operator's is lost

  predicate Subsequence(a: seq<Step>, b: seq<Step>) {
    if a == [] then true
    else if b == [] then false
    else if a[0] == b[0] then Subsequence(a[1..], b[1..])
    else Subsequence(a, b[1..])
  }

  lemma {:induction false} SubsequenceOfItself(a: seq<Step>)
    ensures Subsequence(a, a)
  {
    if a != [] {
      SubsequenceOfItself(a[1..]);
    }
  }

  /** Leaving out a first element keeps a subsequence. */
  lemma {:induction false} SubsequenceDrop(a: seq<Step>, b: seq<Step>)
    requires a != [] && Subsequence(a, b)
    ensures Subsequence(a[1..], b)
    decreases |b|
  {
    if a[0] == b[0] {
      if a[1..] != [] {
        SubsequenceSkip(a[1..], b);
      }
    } else {
      SubsequenceDrop(a, b[1..]);
      if a[1..] != [] {
        SubsequenceSkip(a[1..], b);
      }
    }
  }

  /** One more element in front of `b` does no harm. */
  lemma {:induction false} SubsequenceSkip(a: seq<Step>, b: seq<Step>)
    requires b != [] && Subsequence(a, b[1..])
    ensures Subsequence(a, b)
    decreases |b|, 0
  {
    if a != [] && a[0] == b[0] {
      SubsequenceDrop(a, b[1..]);
    }
  }

  lemma {:induction false} SubsequenceTrans(a: seq<Step>, b: seq<Step>, c: seq<Step>)
    requires Subsequence(a, b) && Subsequence(b, c)
    ensures Subsequence(a, c)
    decreases |c|
  {
    if a != [] && b != [] && c != [] {
      if b[0] == c[0] {
        if a[0] == b[0] {
          SubsequenceTrans(a[1..], b[1..], c[1..]);
        } else {
          SubsequenceTrans(a, b[1..], c[1..]);
        }
      } else {
        SubsequenceTrans(a, b, c[1..]);
        SubsequenceSkip(a, c);
      }
    }
  }

  lemma {:induction false} SpliceKeeps(steps: seq<Step>, d: Step, at: nat)
    requires at <= |steps|
    ensures Subsequence(steps, steps[..at] + [d] + steps[at..])
  {
    var r := steps[..at] + [d] + steps[at..];
    if at == 0 {
      assert r[1..] == steps;
      SubsequenceOfItself(steps);
      SubsequenceSkip(steps, r);
    } else {
      var rest := steps[1..];
      SpliceKeeps(rest, d, at - 1);
      assert r[1..] == rest[..at - 1] + [d] + rest[at - 1..] && r[0] == steps[0];
    }
  }

  lemma {:induction false} InsertionsKeep(steps: seq<Step>, missing: seq<Step>, defaults: seq<Step>)
    ensures Subsequence(steps, AllInserted(steps, missing, defaults))
    ensures |AllInserted(steps, missing, defaults)| == |steps| + |missing|
    ensures multiset(AllInserted(steps, missing, defaults)) == multiset(steps) + multiset(missing)
    decreases |missing|
  {
    if missing == [] {
      SubsequenceOfItself(steps);
    } else {
      var more := Inserted(steps, missing[0], defaults);
      InsertedIsASplice(steps, missing[0], defaults);
      InsertionsKeep(more, missing[1..], defaults);
      SubsequenceTrans(steps, more, AllInserted(steps, missing, defaults));
      assert missing == [missing[0]] + missing[1..];
    }
  }

  lemma InsertedIsASplice(steps: seq<Step>, d: Step, defaults: seq<Step>)
    ensures Subsequence(steps, Inserted(steps, d, defaults))
    ensures |Inserted(steps, d, defaults)| == |steps| + 1
    ensures multiset(Inserted(steps, d, defaults)) == multiset(steps) + multiset{d}
  {
    var k := IndexOf(defaults, d.id);
    var at := InsertionPoint(steps, if k < 0 then [] else defaults[..k], |steps|);
    SpliceKeeps(steps, d, at);
    assert steps == steps[..at] + steps[at..];
  }

  /** The value is one a fixup replaces. */
  predicate Legacy(fixups: seq<Fixup>, id: string, field: string, value: string) {
    exists i :: 0 <= i < |fixups| && fixups[i].id == id && fixups[i].field == field && fixups[i].from == value
  }

  /** Same step, every field still there, and changed only if it held a legacy value. */
  ghost predicate Respects(fixups: seq<Fixup>, s: Step, r: Step) {
    && r.id == s.id
    && forall f :: f in s.fields ==>
        f in r.fields && (r.fields[f] != s.fields[f] ==> Legacy(fixups, s.id, f, s.fields[f]))
  }

  lemma {:induction false} FixedRespects(steps: seq<Step>, fixups: seq<Fixup>)
    ensures forall i :: 0 <= i < |steps| ==> Respects(fixups, steps[i], Fixed(steps, fixups)[i])
    decreases |fixups|
  {
    if fixups != [] {
      var fix, rest := fixups[0], fixups[1..];
      var k := IndexOf(steps, fix.id);
      var one := if k < 0 then steps else steps[k := FixedStep(steps[k], fix)];
      FixedRespects(one, rest);
      forall i | 0 <= i < |steps| ensures Respects(fixups, steps[i], Fixed(steps, fixups)[i]) {
        FixThenTheRest(fixups, steps[i], one[i], Fixed(steps, fixups)[i], i == k);
      }
    }
  }

  lemma FixThenTheRest(fixups: seq<Fixup>, s: Step, one: Step, r: Step, hit: bool)
    requires fixups != [] && one == (if hit then FixedStep(s, fixups[0]) else s) && (hit ==> s.id == fixups[0].id)
    requires Respects(fixups[1..], one, r)
    ensures Respects(fixups, s, r)
  {
    forall f | f in s.fields && r.fields[f] != s.fields[f] ensures Legacy(fixups, s.id, f, s.fields[f]) {
      if one.fields[f] == s.fields[f] {
        var i :| 0 <= i < |fixups[1..]| && fixups[1..][i].id == s.id && fixups[1..][i].field == f
                 && fixups[1..][i].from == s.fields[f];
        assert fixups[i + 1].id == s.id;
      } else {
        assert fixups[0].id == s.id;
      }
    }
  }

  /** The steps before insertion: the operator's own, repaired and filled in. */
  function Kept(current: seq<Step>, defaults: seq<Step>, fixups: seq<Fixup>): seq<Step> {
    Filled(Fixed(current, fixups), defaults)
  }

  /**
   * The operator's steps are all there, in their order, each with every field it had and changed only
   * where it held an exact legacy value; everything else is a default that was missing, once each.
   */
  lemma OperatorsStepsAreKept(current: seq<Step>, defaults: seq<Step>, fixups: seq<Fixup>)
    ensures var kept, r := Kept(current, defaults, fixups), Reconciled(current, defaults, fixups);
            && |kept| == |current|
            && (forall i :: 0 <= i < |current| ==> Respects(fixups, current[i], kept[i]))
            && Subsequence(kept, r)
            && multiset(r) == multiset(kept) + multiset(Missing(defaults, kept))
  {
    FixedRespects(current, fixups);
    var fixed := Fixed(current, fixups);
    var kept := Filled(fixed, defaults);
    forall i | 0 <= i < |current| ensures Respects(fixups, current[i], kept[i]) {
      assert kept[i] == FilledStep(fixed[i], defaults);
    }
    InsertionsKeep(kept, Missing(defaults, kept), defaults);
  }

  /** A stored value after all repairs: each fixup that finds its `from` there puts its `to`. */
  function Repairs(fixups: seq<Fixup>, id: string, field: string, value: string): string {
    if fixups == [] then value
    else
      var hit := fixups[0].id == id && fixups[0].field == field && fixups[0].from == value;
      Repairs(fixups[1..], id, field, if hit then fixups[0].to else value)
  }

  lemma {:induction false} FixedFields(steps: seq<Step>, fixups: seq<Fixup>, i: nat)
    requires UniqueIds(steps) && i < |steps|
    ensures var s, r := steps[i], Fixed(steps, fixups)[i];
            && r.id == s.id && r.fields.Keys == s.fields.Keys
            && forall f :: f in s.fields ==> r.fields[f] == Repairs(fixups, s.id, f, s.fields[f])
    decreases |fixups|
  {
    if fixups != [] {
      var fix := fixups[0];
      var k := IndexOf(steps, fix.id);
      var one := if k < 0 then steps else steps[k := FixedStep(steps[k], fix)];
      assert fix.id == steps[i].id ==> k == i;
      FixedFields(one, fixups[1..], i);
    }
  }

  /**
   * What becomes of a stored step, field by field: what it had, repaired; and where it had nothing, what the
   * default of that id has. Nothing else is in it.
   */
  lemma EveryFieldAfterwards(current: seq<Step>, defaults: seq<Step>, fixups: seq<Fixup>, i: nat)
    requires UniqueIds(current) && i < |current|
    ensures var s, r, d := current[i], Kept(current, defaults, fixups)[i], IndexOf(defaults, current[i].id);
            && r in Reconciled(current, defaults, fixups) && r.id == s.id
            && (forall f :: f in r.fields <==> f in s.fields || (d >= 0 && f in defaults[d].fields))
            && (forall f :: f in s.fields ==> r.fields[f] == Repairs(fixups, s.id, f, s.fields[f]))
            && (forall f :: f in r.fields && f !in s.fields ==> r.fields[f] == defaults[d].fields[f])
  {
    FixedFields(current, fixups, i);
    var kept, r := Kept(current, defaults, fixups), Reconciled(current, defaults, fixups);
    assert kept[i] == FilledStep(Fixed(current, fixups)[i], defaults);
    InsertionsKeep(kept, Missing(defaults, kept), defaults);
    assert kept[i] in multiset(r);
  }

  /** Every step of the result is a stored one so treated, or a default whose id was not stored, as it is. */
  lemma NothingElseIsAdded(current: seq<Step>, defaults: seq<Step>, fixups: seq<Fixup>, s: Step)
    requires s in Reconciled(current, defaults, fixups)
    ensures || (exists i :: 0 <= i < |current| && s == Kept(current, defaults, fixups)[i])
            || (s in defaults && forall i :: 0 <= i < |current| ==> current[i].id != s.id)
  {
    hide Fixed, Filled, AllInserted, IndexOf;
    var kept, r := Kept(current, defaults, fixups), Reconciled(current, defaults, fixups);
    OperatorsStepsAreKept(current, defaults, fixups);
    MissingContents(defaults, kept);
    assert s in multiset(r);
    if s in multiset(Missing(defaults, kept)) {
      forall i | 0 <= i < |current| ensures current[i].id != s.id {
        assert Respects(fixups, current[i], kept[i]);
      }
    } else {
      assert s in kept;
    }
  }

  lemma {:induction false} MissingContents(defaults: seq<Step>, steps: seq<Step>)
    ensures forall d :: d in Missing(defaults, steps) <==> d in defaults && IndexOf(steps, d.id) < 0
  {
    if defaults != [] {
      MissingContents(defaults[1..], steps);
      assert defaults == [defaults[0]] + defaults[1..];
    }
  }

  /** Every default step is there afterwards. */
  lemma EveryDefaultIsThere(current: seq<Step>, defaults: seq<Step>, fixups: seq<Fixup>, d: Step)
    requires d in defaults
    ensures IndexOf(Reconciled(current, defaults, fixups), d.id) >= 0
  {
    hide Fixed, Filled, AllInserted, Missing, IndexOf, Subsequence;
    var kept, r := Kept(current, defaults, fixups), Reconciled(current, defaults, fixups);
    InsertionsKeep(kept, Missing(defaults, kept), defaults);
    MissingContents(defaults, kept);
    var i := IndexOf(kept, d.id);
    if i >= 0 {
      assert kept[i] in multiset(r);
      var j :| 0 <= j < |r| && r[j] == kept[i];
    } else {
      assert d in Missing(defaults, kept) && d in multiset(r);
      var j :| 0 <= j < |r| && r[j] == d;
    }
  }

  // ------------------------------------------------------------------ doing it again

  predicate SameSlot(a: Fixup, b: Fixup) {
    a.id == b.id && a.field == b.field
  }

  /** No fixup's new value, and no default, is a legacy value. */
  predicate NoLegacyLeft(defaults: seq<Step>, fixups: seq<Fixup>) {
    && (forall i, j :: 0 <= i < |fixups| && 0 <= j < |fixups| && SameSlot(fixups[i], fixups[j]) ==>
          fixups[i].to != fixups[j].from)
    && (forall i, j :: 0 <= i < |defaults| && 0 <= j < |fixups| ==> NeedsNoFix(defaults[i], fixups[j]))
  }

  /** The fixup has nothing to do on this step. */
  predicate NeedsNoFix(s: Step, fix: Fixup) {
    s.id == fix.id && fix.field in s.fields ==> s.fields[fix.field] != fix.from
  }

  /** The first step the fixup finds is already right. */
  predicate Repaired(steps: seq<Step>, fix: Fixup) {
    var i := IndexOf(steps, fix.id);
    i >= 0 ==> NeedsNoFix(steps[i], fix)
  }

  /** Nothing is left to do. */
  predicate Settled(steps: seq<Step>, defaults: seq<Step>, fixups: seq<Fixup>) {
    && (forall j :: 0 <= j < |fixups| ==> Repaired(steps, fixups[j]))
    && (forall i :: 0 <= i < |steps| ==> FilledStep(steps[i], defaults) == steps[i])
    && (forall d :: d in defaults ==> IndexOf(steps, d.id) >= 0)
  }

  lemma {:induction false} NothingToFix(steps: seq<Step>, fixups: seq<Fixup>)
    requires forall j :: 0 <= j < |fixups| ==> Repaired(steps, fixups[j])
    ensures Fixed(steps, fixups) == steps
    decreases |fixups|
  {
    if fixups != [] {
      var i := IndexOf(steps, fixups[0].id);
      assert Repaired(steps, fixups[0]);
      assert i >= 0 ==> steps[i := steps[i]] == steps;
      NothingToFix(steps, fixups[1..]);
    }
  }

  lemma SettledStays(steps: seq<Step>, defaults: seq<Step>, fixups: seq<Fixup>)
    requires Settled(steps, defaults, fixups)
    ensures Reconciled(steps, defaults, fixups) == steps
  {
    NothingToFix(steps, fixups);
    assert Filled(steps, defaults) == steps;
    MissingContents(defaults, steps);
    NoElements(Missing(defaults, steps));
  }

  lemma NoElements(steps: seq<Step>)
    ensures steps == [] || steps[0] in steps
  {
  }

  lemma SameIdsSameIndex(a: seq<Step>, b: seq<Step>, id: string)
    requires |a| == |b| && forall i :: 0 <= i < |a| ==> a[i].id == b[i].id
    ensures IndexOf(a, id) == IndexOf(b, id)
  {
    var i, j := IndexOf(a, id), IndexOf(b, id);
    assert i >= 0 ==> b[i].id == id;
    assert j >= 0 ==> a[j].id == id;
  }

  lemma {:induction false} FixedRepairs(steps: seq<Step>, fixups: seq<Fixup>, g: Fixup)
    requires forall i :: 0 <= i < |fixups| && SameSlot(fixups[i], g) ==> fixups[i].to != g.from
    requires g in fixups || Repaired(steps, g)
    ensures Repaired(Fixed(steps, fixups), g)
    decreases |fixups|
  {
    if fixups != [] {
      var fix := fixups[0];
      var k := IndexOf(steps, fix.id);
      var one := if k < 0 then steps else steps[k := FixedStep(steps[k], fix)];
      SameIdsSameIndex(steps, one, g.id);
      assert g == fix || Repaired(steps, g) ==> Repaired(one, g);
      assert fixups == [fix] + fixups[1..];
      FixedRepairs(one, fixups[1..], g);
    }
  }

  /** What the first step with an id is, after one more was put in somewhere. */
  lemma FirstAfterInsertion(steps: seq<Step>, d: Step, defaults: seq<Step>, id: string)
    requires IndexOf(steps, d.id) < 0
    ensures var r := Inserted(steps, d, defaults);
            var i, j := IndexOf(steps, id), IndexOf(r, id);
            && (id == d.id ==> j >= 0 && r[j] == d)
            && (id != d.id ==> (i >= 0 <==> j >= 0) && (i >= 0 ==> r[j] == steps[i]))
  {
    hide IndexOf;
    var k := IndexOf(defaults, d.id);
    var at := InsertionPoint(steps, if k < 0 then [] else defaults[..k], |steps|);
    assert steps == steps[..at] + steps[at..];
    assert steps[..at] + ([d] + steps[at..]) == Inserted(steps, d, defaults);
    FirstAfterSplice(steps[..at], d, steps[at..], id);
  }

  lemma FirstAfterSplice(a: seq<Step>, d: Step, b: seq<Step>, id: string)
    requires IndexOf(a + b, d.id) < 0
    ensures var s, r := a + b, a + ([d] + b);
            var i, j := IndexOf(s, id), IndexOf(r, id);
            && (id == d.id ==> j >= 0 && r[j] == d)
            && (id != d.id ==> (i >= 0 <==> j >= 0) && (i >= 0 ==> r[j] == s[i]))
  {
    hide IndexOf;
    IndexOfConcat(a, b, id);
    IndexOfConcat(a, b, d.id);
    IndexOfConcat(a, [d] + b, id);
    IndexOfConcat([d], b, id);
    IndexOfOne(d, id);
  }

  lemma IndexOfOne(d: Step, id: string)
    ensures IndexOf([d], id) == if d.id == id then 0 else -1
  {
  }

  lemma IndexOfConcat(a: seq<Step>, b: seq<Step>, id: string)
    ensures IndexOf(a + b, id) ==
            if IndexOf(a, id) >= 0 then IndexOf(a, id)
            else if IndexOf(b, id) >= 0 then |a| + IndexOf(b, id)
            else -1
  {
    hide IndexOf;
    var i, j, k := IndexOf(a, id), IndexOf(b, id), IndexOf(a + b, id);
    assert i >= 0 ==> (a + b)[i].id == id;
    assert j >= 0 ==> (a + b)[|a| + j].id == id;
    assert k >= 0 ==> if k < |a| then a[k].id == id else b[k - |a|].id == id;
  }

  lemma {:induction false} InsertionsAreRepaired(steps: seq<Step>, missing: seq<Step>, defaults: seq<Step>, g: Fixup)
    requires Repaired(steps, g) && UniqueIds(missing)
    requires forall i :: 0 <= i < |missing| ==> IndexOf(steps, missing[i].id) < 0 && NeedsNoFix(missing[i], g)
    ensures Repaired(AllInserted(steps, missing, defaults), g)
    decreases |missing|
  {
    hide Inserted, IndexOf;
    if missing != [] {
      var d, rest := missing[0], missing[1..];
      FirstAfterInsertion(steps, d, defaults, g.id);
      forall i | 0 <= i < |rest|
        ensures IndexOf(Inserted(steps, d, defaults), rest[i].id) < 0 && NeedsNoFix(rest[i], g)
      {
        assert rest[i] == missing[i + 1];
        FirstAfterInsertion(steps, d, defaults, rest[i].id);
      }
      InsertionsAreRepaired(Inserted(steps, d, defaults), rest, defaults, g);
    }
  }

  lemma {:induction false} MissingIsUnique(defaults: seq<Step>, steps: seq<Step>)
    requires UniqueIds(defaults)
    ensures UniqueIds(Missing(defaults, steps))
  {
    if defaults != [] {
      var rest := defaults[1..];
      MissingIsUnique(rest, steps);
      MissingContents(rest, steps);
      forall e | e in rest ensures e.id != defaults[0].id {
        var i :| 0 <= i < |rest| && rest[i] == e;
        assert defaults[i + 1] == e;
      }
    }
  }

  lemma DefaultsAreFilled(defaults: seq<Step>, d: Step)
    requires UniqueIds(defaults) && d in defaults
    ensures FilledStep(d, defaults) == d
  {
    var i :| 0 <= i < |defaults| && defaults[i] == d;
    var k := IndexOf(defaults, d.id);
    assert k == i;
    assert d.fields + d.fields == d.fields;
  }

  lemma FilledTwice(s: Step, defaults: seq<Step>)
    ensures FilledStep(FilledStep(s, defaults), defaults) == FilledStep(s, defaults)
  {
    var i := IndexOf(defaults, s.id);
    if i >= 0 {
      assert defaults[i].fields + (defaults[i].fields + s.fields) == defaults[i].fields + s.fields;
    }
  }

  /** Reconciling what is reconciled changes nothing, given that defaults and fixups bring in no legacy value. */
  lemma ReconcilingTwiceIsOnce(current: seq<Step>, defaults: seq<Step>, fixups: seq<Fixup>)
    requires UniqueIds(defaults) && NoLegacyLeft(defaults, fixups)
    ensures var r := Reconciled(current, defaults, fixups); Reconciled(r, defaults, fixups) == r
  {
    hide IndexOf, NeedsNoFix, Inserted, FilledStep, Fixed, NoLegacyLeft;
    var fixed, kept, r := Fixed(current, fixups), Kept(current, defaults, fixups),
        Reconciled(current, defaults, fixups);
    var missing := Missing(defaults, kept);
    forall j | 0 <= j < |fixups| ensures Repaired(r, fixups[j]) {
      RepairedInTheEnd(current, defaults, fixups, j);
    }
    InsertionsKeep(kept, missing, defaults);
    MissingContents(defaults, kept);
    forall i | 0 <= i < |r| ensures FilledStep(r[i], defaults) == r[i] {
      assert r[i] in multiset(r);
      if r[i] in kept {
        var k :| 0 <= k < |kept| && kept[k] == r[i];
        FilledTwice(fixed[k], defaults);
      } else {
        assert r[i] in missing;
        DefaultsAreFilled(defaults, r[i]);
      }
    }
    forall d | d in defaults ensures IndexOf(r, d.id) >= 0 {
      EveryDefaultIsThere(current, defaults, fixups, d);
    }
    SettledStays(r, defaults, fixups);
  }

  lemma RepairedInTheEnd(current: seq<Step>, defaults: seq<Step>, fixups: seq<Fixup>, j: nat)
    requires UniqueIds(defaults) && NoLegacyLeft(defaults, fixups) && j < |fixups|
    ensures Repaired(Reconciled(current, defaults, fixups), fixups[j])
  {
    hide IndexOf, Inserted, Fixed;
    var fixed, kept, g := Fixed(current, fixups), Kept(current, defaults, fixups), fixups[j];
    FixedRepairs(current, fixups, g);
    SameIdsSameIndex(fixed, kept, g.id);
    var k := IndexOf(kept, g.id);
    assert Repaired(kept, g) by {
      if k >= 0 {
        FillingBringsNoLegacy(fixed, kept, k, defaults, fixups, j);
      }
    }
    var missing := Missing(defaults, kept);
    MissingIsUnique(defaults, kept);
    MissingContents(defaults, kept);
    forall i | 0 <= i < |missing| ensures IndexOf(kept, missing[i].id) < 0 && NeedsNoFix(missing[i], g) {
      assert missing[i] in missing && missing[i] in defaults;
      var x :| 0 <= x < |defaults| && defaults[x] == missing[i];
    }
    InsertionsAreRepaired(kept, missing, defaults, g);
  }

  lemma FillingBringsNoLegacy(fixed: seq<Step>, kept: seq<Step>, k: nat, defaults: seq<Step>, fixups: seq<Fixup>,
                              j: nat)
    requires NoLegacyLeft(defaults, fixups) && j < |fixups| && kept == Filled(fixed, defaults) && k < |kept|
    requires NeedsNoFix(fixed[k], fixups[j])
    ensures NeedsNoFix(kept[k], fixups[j])
  {
    var i := IndexOf(defaults, fixed[k].id);
    assert kept[k] == FilledStep(fixed[k], defaults);
    if i >= 0 {
      assert NeedsNoFix(defaults[i], fixups[j]);
    }
  }
}
