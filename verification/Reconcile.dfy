/** Bringing a project's stored steps up to the current defaults, without disturbing what an operator set. */
module Reconcile {
  /** A step as stored: its id and its other fields, values as JSON text. */
  datatype Step = Step(id: string, fields: map<string, string>)

  /** A value an earlier version seeded wrongly. */
  datatype Fixup = Fixup(id: string, field: string, from: string, to: string)

  const DEFAULT_STEPS_VERSION := 4

  /** find / findIndex by id: the first one, or -1. */
  function IndexOf(steps: seq<Step>, id: string): (i: int)
    ensures -1 <= i < |steps|
    ensures i >= 0 ==> steps[i].id == id && forall j :: 0 <= j < i ==> steps[j].id != id
    ensures i < 0 ==> forall j :: 0 <= j < |steps| ==> steps[j].id != id
  {
    if steps == [] then -1
    else if steps[0].id == id then 0
    else
      var i := IndexOf(steps[1..], id);
      if i < 0 then -1 else i + 1
  }

  // ------------------------------------------------------------------ the three passes

  function FixedStep(s: Step, fix: Fixup): Step {
    if fix.field in s.fields && s.fields[fix.field] == fix.from then s.(fields := s.fields[fix.field := fix.to]) else s
  }

  function Fixed(steps: seq<Step>, fixups: seq<Fixup>): (r: seq<Step>)
    ensures |r| == |steps|
    decreases |fixups|
  {
    if fixups == [] then steps
    else
      var i := IndexOf(steps, fixups[0].id);
      Fixed(if i < 0 then steps else steps[i := FixedStep(steps[i], fixups[0])], fixups[1..])
  }

  function FilledStep(s: Step, defaults: seq<Step>): Step {
    var i := IndexOf(defaults, s.id);
    if i < 0 then s else s.(fields := defaults[i].fields + s.fields)
  }

  function Filled(steps: seq<Step>, defaults: seq<Step>): (r: seq<Step>)
    ensures |r| == |steps| && forall i :: 0 <= i < |steps| ==> r[i] == FilledStep(steps[i], defaults)
  {
    if steps == [] then [] else [FilledStep(steps[0], defaults)] + Filled(steps[1..], defaults)
  }

  function Missing(defaults: seq<Step>, steps: seq<Step>): seq<Step> {
    if defaults == [] then []
    else (if IndexOf(steps, defaults[0].id) < 0 then [defaults[0]] else []) + Missing(defaults[1..], steps)
  }

  /** One after the last step of `steps` that comes before `d` in the defaults, or the very end. */
  function InsertionPoint(steps: seq<Step>, preceding: seq<Step>, end: nat): (i: nat)
    ensures i <= |steps| || i == end
  {
    if steps == [] then end
    else if IndexOf(preceding, steps[|steps| - 1].id) >= 0 then |steps|
    else InsertionPoint(steps[..|steps| - 1], preceding, end)
  }

  function Inserted(steps: seq<Step>, d: Step, defaults: seq<Step>): seq<Step> {
    var k := IndexOf(defaults, d.id);
    var at := InsertionPoint(steps, if k < 0 then [] else defaults[..k], |steps|);
    steps[..at] + [d] + steps[at..]
  }

  function AllInserted(steps: seq<Step>, missing: seq<Step>, defaults: seq<Step>): seq<Step>
    decreases |missing|
  {
    if missing == [] then steps else AllInserted(Inserted(steps, missing[0], defaults), missing[1..], defaults)
  }

  function Reconciled(current: seq<Step>, defaults: seq<Step>, fixups: seq<Fixup>): seq<Step> {
    var kept := Filled(Fixed(current, fixups), defaults);
    AllInserted(kept, Missing(defaults, kept), defaults)
  }

  // ------------------------------------------------------------------ as the service does it

  /** A project row and the version recorded for it. */
  class ProjectRow {
    var steps: seq<Step>
    var version: int

    constructor (steps: seq<Step>, version: int)
      ensures this.steps == steps && this.version == version
    {
      this.steps, this.version := steps, version;
    }

    /** reconcileDefaultSteps(): once per version, and not at all if the stored JSON does not parse. */
    method ReconcileDefaultSteps(defaults: seq<Step>, fixups: seq<Fixup>, parses: bool)
      modifies this
      ensures old(version) >= 4 || !parses ==> steps == old(steps) && version == old(version)
      ensures old(version) < 4 && parses ==> steps == Reconciled(old(steps), defaults, fixups) && version == 4
    {
      hide Inserted, FixedStep, FilledStep;
      if version >= DEFAULT_STEPS_VERSION || !parses {
        return;
      }
      var merged, fixedAny := Repair(steps, fixups);
      var filledAny, insertedAny;
      merged, filledAny := FillIn(merged, defaults);
      merged, insertedAny := InsertMissing(merged, defaults);
      if fixedAny || filledAny || insertedAny {
        steps := merged;
      }
      version := DEFAULT_STEPS_VERSION;
    }
  }

  method Repair(current: seq<Step>, fixups: seq<Fixup>) returns (merged: seq<Step>, changed: bool)
    ensures merged == Fixed(current, fixups)
    ensures !changed ==> merged == current
  {
    merged, changed := current, false;
    var i := 0;
    while i < |fixups|
      invariant 0 <= i <= |fixups|
      invariant Fixed(merged, fixups[i..]) == Fixed(current, fixups)
      invariant !changed ==> merged == current
    {
      assert fixups[i..][0] == fixups[i] && fixups[i..][1..] == fixups[i + 1..];
      var fix := fixups[i];
      var k := IndexOf(merged, fix.id);
      if k >= 0 {
        assert merged[k := merged[k]] == merged;
        if fix.field in merged[k].fields && merged[k].fields[fix.field] == fix.from {
          merged := merged[k := merged[k].(fields := merged[k].fields[fix.field := fix.to])];
          changed := true;
        }
      }
      i := i + 1;
    }
    assert fixups[i..] == [];
  }

  method FillIn(steps: seq<Step>, defaults: seq<Step>) returns (merged: seq<Step>, changed: bool)
    ensures merged == Filled(steps, defaults)
    ensures !changed ==> merged == steps
  {
    merged, changed := steps, false;
    var i := 0;
    while i < |merged|
      invariant 0 <= i <= |merged| == |steps|
      invariant forall j :: 0 <= j < i ==> merged[j] == FilledStep(steps[j], defaults)
      invariant forall j :: i <= j < |steps| ==> merged[j] == steps[j]
      invariant !changed ==> merged == steps
    {
      var k := IndexOf(defaults, merged[i].id);
      if k >= 0 {
        var added := defaults[k].fields.Keys - merged[i].fields.Keys;
        NothingAdded(defaults[k].fields, merged[i].fields);
        if added != {} {
          merged := merged[i := merged[i].(fields := merged[i].fields + (map f | f in added :: defaults[k].fields[f]))];
          changed := true;
        }
      }
      i := i + 1;
    }
  }

  lemma NothingAdded(d: map<string, string>, own: map<string, string>)
    ensures d.Keys - own.Keys == {} ==> d + own == own
    ensures own + (map f | f in d.Keys - own.Keys :: d[f]) == d + own
  {
    if d.Keys - own.Keys == {} {
      assert forall f :: f in d ==> f in own || f in d.Keys - own.Keys;
    }
  }

  method InsertMissing(steps: seq<Step>, defaults: seq<Step>) returns (merged: seq<Step>, changed: bool)
    ensures merged == AllInserted(steps, Missing(defaults, steps), defaults)
    ensures !changed ==> merged == steps
  {
    hide AllInserted, Missing, Inserted, IndexOf;
    merged, changed := steps, false;
    var i := 0;
    assert defaults[0..] == defaults;
    while i < |defaults|
      invariant 0 <= i <= |defaults|
      invariant AllInserted(merged, Missing(defaults[i..], steps), defaults)
                == AllInserted(steps, Missing(defaults, steps), defaults)
      invariant !changed ==> merged == steps
    {
      InsertingOneMore(merged, defaults[i], defaults[i + 1..], steps, defaults);
      assert defaults[i..] == [defaults[i]] + defaults[i + 1..];
      if IndexOf(steps, defaults[i].id) < 0 {
        merged := InsertStep(merged, defaults[i], defaults);
        changed := true;
      }
      i := i + 1;
    }
    assert defaults[i..] == [];
    NothingMissing(merged, steps, defaults);
  }

  lemma InsertingOneMore(merged: seq<Step>, d: Step, rest: seq<Step>, steps: seq<Step>, defaults: seq<Step>)
    ensures AllInserted(merged, Missing([d] + rest, steps), defaults) ==
            if IndexOf(steps, d.id) < 0 then AllInserted(Inserted(merged, d, defaults), Missing(rest, steps), defaults)
            else AllInserted(merged, Missing(rest, steps), defaults)
  {
    hide Inserted, IndexOf;
    assert ([d] + rest)[1..] == rest;
    assert ([d] + Missing(rest, steps))[1..] == Missing(rest, steps);
    assert [] + Missing(rest, steps) == Missing(rest, steps);
  }

  lemma NothingMissing(merged: seq<Step>, steps: seq<Step>, defaults: seq<Step>)
    ensures AllInserted(merged, Missing([], steps), defaults) == merged
  {
  }

  /** The backward scan, and the splice. */
  method InsertStep(merged: seq<Step>, d: Step, defaults: seq<Step>) returns (r: seq<Step>)
    ensures r == Inserted(merged, d, defaults)
  {
    hide IndexOf;
    var k := IndexOf(defaults, d.id);
    var preceding := if k < 0 then [] else defaults[..k];
    var insertAt := |merged|;
    var i := |merged| - 1;
    assert merged[..|merged|] == merged;
    while i >= 0
      invariant -1 <= i < |merged| && insertAt == |merged|
      invariant InsertionPoint(merged[..i + 1], preceding, |merged|) == InsertionPoint(merged, preceding, |merged|)
    {
      assert merged[..i + 1][..i] == merged[..i];
      if IndexOf(preceding, merged[i].id) >= 0 {
        insertAt := i + 1;
        break;
      }
      i := i - 1;
    }
    assert insertAt == InsertionPoint(merged, preceding, |merged|);
    r := merged[..insertAt] + [d] + merged[insertAt..];
  }
}
