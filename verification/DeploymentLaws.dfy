/** Over any run with crashes and restarts: nothing is dropped, and only an interrupted entry is begun again. */
module DeploymentLaws {
  import opened Options
  import opened Deployment

  predicate Unique(all: seq<StepConfig>) {
    forall i, j :: 0 <= i < j < |all| ==> all[i].step != all[j].step
  }

  predicate Active(all: seq<StepConfig>, i: nat) {
    i < |all| && !(all[i].skip || (all[i].buildImage && !all[i].propagateToReplicas))
  }

  predicate NoneActive(all: seq<StepConfig>, lo: nat, hi: nat) {
    forall i: nat :: lo <= i < hi ==> !Active(all, i)
  }

  /** Entry `b` may be begun right after entry `a`: the same one again, or the next one not skipped. */
  predicate Follows(all: seq<StepConfig>, a: nat, b: nat) {
    a == b || (a < b && NoneActive(all, a + 1, b))
  }

  /** The entries were begun in pipeline order, none left out, repeats only in a row. */
  predicate InOrder(all: seq<StepConfig>, starts: seq<nat>) {
    && (forall k :: 0 <= k < |starts| ==> Active(all, starts[k]))
    && (starts != [] ==> NoneActive(all, 0, starts[0]))
    && (forall k :: 0 < k < |starts| ==> Follows(all, starts[k - 1], starts[k]))
  }

  /** Every entry before `q` that is not skipped has been begun, and none after `q`. */
  predicate Reached(all: seq<StepConfig>, starts: seq<nat>, q: nat) {
    if starts == [] then NoneActive(all, 0, q)
    else Follows(all, starts[|starts| - 1], q)
  }

  function Repeats<T(==)>(starts: seq<T>): nat {
    if |starts| < 2 then 0
    else Repeats(starts[..|starts| - 1]) + if starts[|starts| - 2] == starts[|starts| - 1] then 1 else 0
  }

  function Crashes(actions: seq<Action>): nat {
    if actions == [] then 0 else (if actions[0].Crash? then 1 else 0) + Crashes(actions[1..])
  }

  // ------------------------------------------------------------------ resuming at the right entry

  lemma {:induction false} FindsItself(all: seq<StepConfig>, k: nat)
    requires Unique(all) && k < |all|
    ensures FindIndex(all, all[k].step) == k
  {
    assert forall j :: 0 <= j < k ==> all[j].step != all[k].step;
  }

  /** Where a resumed run starts. */
  function Frontier(all: seq<StepConfig>, d: DeploymentState): int {
    FindIndex(all, d.current.step) + if d.current.status.Success? then 1 else 0
  }

  lemma ResumesAtTheFrontier(all: seq<StepConfig>, d: DeploymentState)
    requires FindIndex(all, d.current.step) >= 0
    ensures GetFollowingSteps(d.current, all) == all[Frontier(all, d)..]
  {
  }

  /**
   * Resuming starts with the interrupted step exactly when that step is still in the pipeline;
   * otherwise a search that failed becomes the last entry alone.
   */
  lemma ResumesWithTheStepIff(all: seq<StepConfig>, current: StepState)
    requires !current.status.Success? && all != []
    ensures var rest := GetFollowingSteps(current, all);
            && (rest != [] && rest[0].step == current.step <==>
                exists i :: 0 <= i < |all| && all[i].step == current.step)
            && ((forall i :: 0 <= i < |all| ==> all[i].step != current.step) ==> rest == [all[|all| - 1]])
  {
    assert all[|all| - 1..] == [all[|all| - 1]];
  }

  /**
   * After a success, everything after the step is resumed if the step is in the pipeline, else the last
   * entry again.
   */
  lemma ResumesAfterTheStepIff(all: seq<StepConfig>, current: StepState)
    requires current.status.Success? && all != [] && Unique(all)
    ensures var rest := GetFollowingSteps(current, all);
            (exists i :: 0 <= i < |all| && all[i].step == current.step && rest == all[i + 1..]) <==>
            (exists i :: 0 <= i < |all| && all[i].step == current.step)
    ensures (forall i :: 0 <= i < |all| ==> all[i].step != current.step) ==>
              GetFollowingSteps(current, all) == [all[|all| - 1]]
  {
    hide Unique;
    var i := FindIndex(all, current.step);
    if i >= 0 {
      assert GetFollowingSteps(current, all) == all[i + 1..];
    } else {
      assert all[|all| - 1..] == [all[|all| - 1]];
    }
  }

  /**
   * A manual propagation runs one entry on its own. Resumed after a crash it carries on with the
   * whole rest of the project's pipeline, and so does just what it was started for exactly when
   * that entry is the last one, unedited.
   */
  lemma ManualRunResumesAloneIff(all: seq<StepConfig>, entry: StepConfig, k: nat, attempt: nat)
    requires Unique(all) && k < |all| && all[k].step == entry.step
    ensures GetFollowingSteps(StepState(entry.step, Running, attempt), all) == [entry] <==>
            k == |all| - 1 && all[k] == entry
  {
    FindsItself(all, k);
    assert all[k..][0] == all[k] && |all[k..]| == |all| - k;
  }

  // ------------------------------------------------------------------ the invariant

  function Last(starts: seq<nat>): nat
    requires starts != []
  {
    starts[|starts| - 1]
  }

  ghost predicate ProcessInv(all: seq<StepConfig>, m: Machine, p: Process) {
    && m.saved.status.Running? && p.memory.status.Running?
    && |p.todo| <= |all| && p.todo == all[|all| - |p.todo|..]
    && var k := |all| - |p.todo|;
       match p.phase
       case Between => Reached(all, m.starts, k) && FindIndex(all, p.memory.current.step) >= 0
       case InStep =>
         && p.todo != [] && m.starts != [] && Last(m.starts) == k && !p.memory.current.status.Success?
         && p.memory.current.step == m.saved.current.step == all[k].step && !m.saved.current.status.Success?
       case Failing =>
         && p.todo != [] && m.starts != [] && Last(m.starts) == k
         && p.memory.current.step == m.saved.current.step == all[k].step && !m.saved.current.status.Success?
       case Exiting => m.starts != [] && Last(m.starts) < k && Frontier(all, m.saved) == k
  }

  ghost predicate Inv(all: seq<StepConfig>, m: Machine) {
    && FindIndex(all, m.saved.current.step) >= 0
    && InOrder(all, m.starts)
    && (m.saved.status.Running? ==> Reached(all, m.starts, Frontier(all, m.saved)))
    && (m.saved.status.Success? ==> Reached(all, m.starts, |all|))
    && (m.process.Some? ==> ProcessInv(all, m, m.process.value))
  }

  /** An entry was begun and its outcome never saved: it will be begun again. */
  predicate Interrupted(all: seq<StepConfig>, m: Machine) {
    && m.starts != [] && m.saved.status.Running?
    && match m.process
       case None => Last(m.starts) == Frontier(all, m.saved)
       case Some(p) => p.phase.Between? && |p.todo| <= |all| && Last(m.starts) == |all| - |p.todo|
  }

  lemma ActKeepsStatus(all: seq<StepConfig>, m: Machine, a: Action)
    requires Unique(all) && Inv(all, m) && m.process.Some?
             && (m.process.value.phase.Failing? || m.process.value.phase.Exiting?)
    ensures Inv(all, Act(all, m, m.process.value, a))
    ensures var u := Act(all, m, m.process.value, a);
            u.starts == m.starts && (Interrupted(all, u) ==> Interrupted(all, m))
  {
    hide FindIndex, InOrder, Reached, Unique;
  }

  lemma BetweenKeeps(all: seq<StepConfig>, m: Machine, a: Action)
    requires Unique(all) && Inv(all, m) && m.process.Some? && m.process.value.phase.Between?
    ensures var u := Act(all, m, m.process.value, a);
            && Inv(all, u)
            && Repeats(u.starts) + (if Interrupted(all, u) then 1 else 0)
               <= Repeats(m.starts) + (if Interrupted(all, m) then 1 else 0)
  {
    hide FindIndex, InOrder, Repeats, Reached, Unique, KindOf;
    var p := m.process.value;
    var k := |all| - |p.todo|;
    if p.todo != [] {
      assert all[k..][0] == all[k] && all[k..][1..] == all[k + 1..];
      FindsItself(all, k);
      if a.PassOver? && KindOf(p.todo[0]).Skipping? {
        PassingOver(all, m.starts, k);
      } else if a.Start? && !KindOf(p.todo[0]).Skipping? {
        Beginning(all, m.starts, k);
      }
    }
  }

  lemma PassingOver(all: seq<StepConfig>, starts: seq<nat>, k: nat)
    requires k < |all| && !Active(all, k) && Reached(all, starts, k) && InOrder(all, starts)
    ensures Reached(all, starts, k + 1) && (starts != [] ==> Last(starts) < k)
  {
  }

  lemma Beginning(all: seq<StepConfig>, starts: seq<nat>, k: nat)
    requires Active(all, k) && Reached(all, starts, k) && InOrder(all, starts)
    ensures InOrder(all, starts + [k]) && Last(starts + [k]) == k && Reached(all, starts + [k], k)
    ensures Repeats(starts + [k]) == Repeats(starts) + if starts != [] && Last(starts) == k then 1 else 0
  {
    assert (starts + [k])[..|starts|] == starts;
  }

  lemma InStepKeeps(all: seq<StepConfig>, m: Machine, a: Action)
    requires Unique(all) && Inv(all, m) && m.process.Some? && m.process.value.phase.InStep?
    ensures var u := Act(all, m, m.process.value, a);
            Inv(all, u) && u.starts == m.starts && !Interrupted(all, u)
  {
    hide InOrder, Repeats;
    var p := m.process.value;
    var k := |all| - |p.todo|;
    assert all[k..][0] == all[k] && all[k..][1..] == all[k + 1..];
    FindsItself(all, k);
    assert Reached(all, m.starts, k + 1) && Reached(all, m.starts, k);
  }

  lemma BootKeeps(all: seq<StepConfig>, m: Machine)
    requires Unique(all) && Inv(all, m) && m.process.None?
    ensures var u := Booted(all, m);
            Inv(all, u) && u.starts == m.starts && (Interrupted(all, u) ==> Interrupted(all, m))
  {
    hide InOrder, Repeats, Reached;
    if m.saved.status.Running? {
      ResumesAtTheFrontier(all, m.saved);
      var k := Frontier(all, m.saved);
      assert all[k..] != [] ==> all[k..][0] == all[k];
      if k < |all| {
        FindsItself(all, k);
      }
    }
  }

  /** Every action keeps the invariant, and only a crash can add to what is begun twice. */
  lemma NextKeeps(all: seq<StepConfig>, m: Machine, a: Action)
    requires Unique(all) && Inv(all, m)
    ensures var u := Next(all, m, a);
            && Inv(all, u)
            && Repeats(u.starts) + (if Interrupted(all, u) then 1 else 0)
               <= Repeats(m.starts) + (if Interrupted(all, m) then 1 else 0) + (if a.Crash? then 1 else 0)
  {
    hide Act, Booted, Inv, Repeats;
    if a.Crash? {
      assert Inv(all, m.(process := None)) by { CrashKeeps(all, m); }
    } else if m.process.None? {
      BootKeeps(all, m);
    } else if a != Boot {
      match m.process.value.phase
      case Between => BetweenKeeps(all, m, a);
      case InStep => InStepKeeps(all, m, a);
      case _ => ActKeepsStatus(all, m, a);
    }
  }

  lemma CrashKeeps(all: seq<StepConfig>, m: Machine)
    requires Inv(all, m)
    ensures Inv(all, m.(process := None))
  {
  }

  lemma {:induction false} EveryRunKeeps(all: seq<StepConfig>, m: Machine, actions: seq<Action>)
    requires Unique(all) && Inv(all, m)
    ensures var u := Run(all, m, actions);
            && Inv(all, u)
            && Repeats(u.starts) + (if Interrupted(all, u) then 1 else 0)
               <= Repeats(m.starts) + (if Interrupted(all, m) then 1 else 0) + Crashes(actions)
    decreases |actions|
  {
    hide Next, Inv, Repeats, Interrupted;
    if actions != [] {
      NextKeeps(all, m, actions[0]);
      EveryRunKeeps(all, Next(all, m, actions[0]), actions[1..]);
    }
  }

  // ------------------------------------------------------------------ what is on record

  /** completedSteps has the first `n` entries, each as a success or as skipped by its kind. */
  ghost predicate Recorded(all: seq<StepConfig>, d: DeploymentState, n: int) {
    forall i :: 0 <= i < n && i < |all| ==>
      && all[i].step in d.completed
      && d.completed[all[i].step] == if Active(all, i) then Success else Skipped
  }

  ghost predicate RecordInv(all: seq<StepConfig>, m: Machine) {
    && (m.saved.status.Running? ==> Recorded(all, m.saved, Frontier(all, m.saved)))
    && (m.saved.status.Success? ==> Recorded(all, m.saved, |all|))
    && (m.process.Some? && !m.process.value.phase.Exiting? ==>
          Recorded(all, m.process.value.memory, |all| - |m.process.value.todo|))
  }

  lemma RecordingOneMore(all: seq<StepConfig>, d: DeploymentState, k: nat, status: Status)
    requires Unique(all) && k < |all| && Recorded(all, d, k) && d.current.step == all[k].step
    ensures Recorded(all, WithStatus(d, status), k)
    ensures status == (if Active(all, k) then Success else Skipped) ==>
            Recorded(all, WithStatus(d, status), k + 1)
  {
    assert forall i :: 0 <= i < k ==> all[i].step != all[k].step;
  }

  lemma BetweenRecords(all: seq<StepConfig>, m: Machine, a: Action)
    requires Unique(all) && Inv(all, m) && RecordInv(all, m) && m.process.Some? && m.process.value.phase.Between?
    ensures RecordInv(all, Act(all, m, m.process.value, a))
  {
    hide FindIndex, InOrder, Reached, Unique, KindOf;
    var p := m.process.value;
    var k := |all| - |p.todo|;
    if p.todo != [] {
      assert all[k..][0] == all[k] && all[k..][1..] == all[k + 1..];
      FindsItself(all, k);
      RecordingOneMore(all, p.memory.(current := StepState(p.todo[0].step, Skipped, p.memory.current.attempt)), k,
          Skipped);
    }
  }

  lemma InStepRecords(all: seq<StepConfig>, m: Machine, a: Action)
    requires Unique(all) && Inv(all, m) && RecordInv(all, m) && m.process.Some? && m.process.value.phase.InStep?
    ensures RecordInv(all, Act(all, m, m.process.value, a))
  {
    hide FindIndex, InOrder, Reached, Unique, KindOf;
    var p := m.process.value;
    var k := |all| - |p.todo|;
    assert all[k..][0] == all[k] && all[k..][1..] == all[k + 1..];
    FindsItself(all, k);
    assert !KindOf(all[k]).Skipping? by { BegunIsActive(all, m.starts); }
    RecordingOneMore(all, p.memory, k, Success);
    RecordingOneMore(all, p.memory, k, Failed);
  }

  lemma BegunIsActive(all: seq<StepConfig>, starts: seq<nat>)
    requires InOrder(all, starts) && starts != []
    ensures Active(all, Last(starts))
  {
  }

  lemma EndingRecords(all: seq<StepConfig>, m: Machine, a: Action)
    requires Inv(all, m) && RecordInv(all, m) && m.process.Some?
    requires m.process.value.phase.Failing? || m.process.value.phase.Exiting?
    ensures RecordInv(all, Act(all, m, m.process.value, a))
  {
    hide FindIndex, InOrder, Reached;
  }

  lemma BootRecords(all: seq<StepConfig>, m: Machine)
    requires Unique(all) && Inv(all, m) && RecordInv(all, m) && m.process.None?
    ensures RecordInv(all, Booted(all, m))
  {
    hide InOrder, Reached, FindIndex, KindOf;
    if m.saved.status.Running? {
      ResumesAtTheFrontier(all, m.saved);
      var k := Frontier(all, m.saved);
      if k < |all| {
        assert all[k..][0] == all[k];
        FindsItself(all, k);
      }
    }
  }

  lemma {:induction false} EveryRunRecords(all: seq<StepConfig>, m: Machine, actions: seq<Action>)
    requires Unique(all) && Inv(all, m) && RecordInv(all, m)
    ensures RecordInv(all, Run(all, m, actions))
    decreases |actions|
  {
    hide Act, Booted, Inv, RecordInv;
    if actions != [] {
      var a := actions[0];
      NextKeeps(all, m, a);
      assert RecordInv(all, Next(all, m, a)) by {
        if a.Crash? {
          CrashRecords(all, m);
        } else if m.process.None? {
          BootRecords(all, m);
        } else if a != Boot {
          match m.process.value.phase
          case Between => BetweenRecords(all, m, a);
          case InStep => InStepRecords(all, m, a);
          case _ => EndingRecords(all, m, a);
        }
      }
      EveryRunRecords(all, Next(all, m, a), actions[1..]);
    }
  }

  lemma CrashRecords(all: seq<StepConfig>, m: Machine)
    requires RecordInv(all, m)
    ensures RecordInv(all, m.(process := None))
  {
  }

  // ------------------------------------------------------------------ no saved success is run again

  predicate HasStep(steps: seq<StepConfig>, step: string) {
    exists i :: 0 <= i < |steps| && steps[i].step == step
  }

  predicate SucceededIn(done: map<string, Status>, step: string) {
    step in done && done[step] == Success
  }

  /**
   * The record parts the pipeline at `n`: the entries before it ended well or came too late to be
   * run, none from it on is recorded as a success, and nothing else is on record.
   */
  ghost predicate Parted(all: seq<StepConfig>, done: map<string, Status>, n: int, late: set<string>) {
    && (forall i :: 0 <= i < |all| && i < n ==>
          if all[i].step in late then all[i].step !in done
          else all[i].step in done && done[all[i].step] in {Success, Skipped})
    && (forall i :: 0 <= i < |all| && n <= i ==> all[i].step !in late && !SucceededIn(done, all[i].step))
    && (forall step :: step in done || step in late ==> HasStep(all, step))
  }

  ghost predicate ProcessParted(all: seq<StepConfig>, m: Machine, p: Process, late: set<string>) {
    && m.saved.status.Running?
    && |p.todo| <= |all| && p.todo == all[|all| - |p.todo|..]
    && var k := |all| - |p.todo|;
       match p.phase
       case Between => p.memory == m.saved && Parted(all, m.saved.completed, k, late)
       case InStep =>
         && p.memory == m.saved && p.todo != [] && !KindOf(all[k]).Skipping?
         && m.saved.current.step == all[k].step && !m.saved.current.status.Success?
       case Failing =>
         && p.todo != [] && p.memory.current.step == m.saved.current.step == all[k].step
         && !m.saved.current.status.Success?
       case Exiting => m.saved.current.status.Success?
  }

  /** The record parts the pipeline where a resumed run would start, and where the process is. */
  ghost predicate PartedInv(all: seq<StepConfig>, m: Machine, late: set<string>) {
    && FindIndex(all, m.saved.current.step) >= 0
    && (m.saved.status.Running? ==> Parted(all, m.saved.completed, Frontier(all, m.saved), late))
    && (m.saved.status.Success? ==> Parted(all, m.saved.completed, |all|, late))
    && (m.process.Some? ==> ProcessParted(all, m, m.process.value, late))
  }

  /** Recording the entry at `k` as done moves the parting behind it; any other status leaves it there. */
  lemma PartedOneMore(all: seq<StepConfig>, done: map<string, Status>, k: nat, late: set<string>, status: Status)
    requires Unique(all) && k < |all| && Parted(all, done, k, late)
    ensures status in {Success, Skipped} ==> Parted(all, done[all[k].step := status], k + 1, late)
    ensures status != Success ==> Parted(all, done[all[k].step := status], k, late)
  {
    assert forall i :: 0 <= i < |all| && i != k ==> all[i].step != all[k].step;
  }

  lemma BetweenParts(all: seq<StepConfig>, m: Machine, a: Action, late: set<string>)
    requires Unique(all) && PartedInv(all, m, late) && m.process.Some? && m.process.value.phase.Between?
    ensures PartedInv(all, Act(all, m, m.process.value, a), late)
  {
    hide FindIndex, Unique, KindOf, Parted;
    var p := m.process.value;
    var k := |all| - |p.todo|;
    if p.todo != [] {
      assert all[k..][0] == all[k] && all[k..][1..] == all[k + 1..];
      FindsItself(all, k);
      PartedOneMore(all, p.memory.completed, k, late, Skipped);
    }
  }

  lemma InStepParts(all: seq<StepConfig>, m: Machine, a: Action, late: set<string>)
    requires Unique(all) && PartedInv(all, m, late) && m.process.Some? && m.process.value.phase.InStep?
    ensures PartedInv(all, Act(all, m, m.process.value, a), late)
  {
    hide FindIndex, Unique, KindOf, Parted;
    var p := m.process.value;
    var k := |all| - |p.todo|;
    assert all[k..][0] == all[k] && all[k..][1..] == all[k + 1..];
    FindsItself(all, k);
    PartedOneMore(all, p.memory.completed, k, late, Success);
    PartedOneMore(all, p.memory.completed, k, late, Failed);
  }

  lemma BootParts(all: seq<StepConfig>, m: Machine, late: set<string>)
    requires Unique(all) && PartedInv(all, m, late) && m.process.None?
    ensures PartedInv(all, Booted(all, m), late)
  {
    hide FindIndex, KindOf, Parted;
    if m.saved.status.Running? {
      ResumesAtTheFrontier(all, m.saved);
      var k := Frontier(all, m.saved);
      if k < |all| {
        assert all[k..][0] == all[k];
        FindsItself(all, k);
      }
    }
  }

  lemma NextParts(all: seq<StepConfig>, m: Machine, a: Action, late: set<string>)
    requires Unique(all) && PartedInv(all, m, late)
    ensures PartedInv(all, Next(all, m, a), late)
  {
    hide FindIndex, Parted, Booted, Frontier;
    if m.process.None? && a.Boot? {
      BootParts(all, m, late);
    } else if m.process.Some? && !a.Crash? && !a.Boot? {
      match m.process.value.phase
      case Between => BetweenParts(all, m, a, late);
      case InStep => InStepParts(all, m, a, late);
      case _ =>
    }
  }

  lemma {:induction false} EveryRunParts(all: seq<StepConfig>, m: Machine, actions: seq<Action>, late: set<string>)
    requires Unique(all) && PartedInv(all, m, late)
    ensures PartedInv(all, Run(all, m, actions), late)
    decreases |actions|
  {
    hide Next, PartedInv;
    if actions != [] {
      NextParts(all, m, actions[0], late);
      EveryRunParts(all, Next(all, m, actions[0]), actions[1..], late);
    }
  }

  /** An action begins at most one entry, and none whose success is saved. */
  lemma WhatABeginningFinds(all: seq<StepConfig>, m: Machine, a: Action, late: set<string>)
    requires PartedInv(all, m, late)
    ensures var u := Next(all, m, a);
            u.starts != m.starts ==>
              exists k: nat :: k < |all| && u.starts == m.starts + [k] && Begins(all, m, u, k)
  {
    hide FindIndex, Frontier;
    var u := Next(all, m, a);
    if u.starts != m.starts {
      var p := m.process.value;
      var k := |all| - |p.todo|;
      assert all[k..][0] == all[k];
      assert u.starts == m.starts + [k] && Begins(all, m, u, k);
    }
  }

  /** Entry `k` is begun: it is not one to skip, it is what is saved as current, and no success of it was saved. */
  predicate Begins(all: seq<StepConfig>, m: Machine, u: Machine, k: nat)
    requires k < |all|
  {
    && Active(all, k) && u.saved.current.step == all[k].step && u.saved.current.status.Running?
    && !SucceededIn(m.saved.completed, all[k].step)
  }

  lemma InitialIsParted(all: seq<StepConfig>)
    requires all != []
    ensures PartedInv(all, Initial(all), {})
  {
    assert all[0..] == all;
  }

  // ------------------------------------------------------------------ what that means

  lemma InitialHolds(all: seq<StepConfig>)
    requires Unique(all) && all != []
    ensures Inv(all, Initial(all)) && Repeats(Initial(all).starts) == 0 && !Interrupted(all, Initial(all))
  {
    FindsItself(all, 0);
    assert all[0..] == all;
  }

  lemma {:induction false} ReachedMeansBegun(all: seq<StepConfig>, starts: seq<nat>, q: nat, i: nat)
    requires InOrder(all, starts) && Reached(all, starts, q) && i < q && Active(all, i)
    ensures i in starts
    decreases |starts|
  {
    var last := starts[|starts| - 1];
    if last != i {
      assert i < last;
      var init := starts[..|starts| - 1];
      assert InOrder(all, init);
      if init != [] {
        assert init[|init| - 1] == starts[|starts| - 2];
      }
      ReachedMeansBegun(all, init, last, i);
    }
  }

  /**
   * Whatever crashes, restarts and retries a full deployment goes through: entries are begun in
   * pipeline order with none left out, an entry is begun again only right after itself and at most
   * once per crash, and never once its success is saved, and a deployment that ends in success has
   * begun every entry not skipped and records every entry of the pipeline as a success or as skipped.
   */
  lemma NoStepIsDropped(all: seq<StepConfig>, actions: seq<Action>)
    requires Unique(all) && all != []
    ensures var m := Run(all, Initial(all), actions);
            && InOrder(all, m.starts)
            && Repeats(m.starts) <= Crashes(actions)
            && (m.saved.status.Success? ==> forall i :: 0 <= i < |all| && Active(all, i) ==> i in m.starts)
            && (m.saved.status.Success? ==> Recorded(all, m.saved, |all|))
    ensures forall a ::
              var m := Run(all, Initial(all), actions);
              var u := Next(all, m, a);
              u.starts != m.starts ==>
                exists k: nat :: k < |all| && u.starts == m.starts + [k] && Begins(all, m, u, k)
  {
    hide Run;
    InitialHolds(all);
    FindsItself(all, 0);
    EveryRunKeeps(all, Initial(all), actions);
    EveryRunRecords(all, Initial(all), actions);
    var m := Run(all, Initial(all), actions);
    InitialIsParted(all);
    EveryRunParts(all, Initial(all), actions, {});
    forall a {
      WhatABeginningFinds(all, m, a, {});
    }
    if m.saved.status.Success? {
      forall i | 0 <= i < |all| && Active(all, i) ensures i in m.starts {
        ReachedMeansBegun(all, m.starts, |all|, i);
      }
    }
  }

  lemma {:induction false} NoRepeatsMeansIncreasing(all: seq<StepConfig>, starts: seq<nat>)
    requires InOrder(all, starts) && Repeats(starts) == 0
    ensures forall i, j :: 0 <= i < j < |starts| ==> starts[i] < starts[j]
    decreases |starts|
  {
    if |starts| >= 2 {
      var init := starts[..|starts| - 1];
      assert InOrder(all, init);
      NoRepeatsMeansIncreasing(all, init);
      assert Follows(all, starts[|starts| - 2], starts[|starts| - 1]);
      forall i, j | 0 <= i < j < |starts| ensures starts[i] < starts[j] {
        assert starts[i] == init[i];
        if j == |starts| - 1 && i < |starts| - 2 {
          assert init[i] < init[|starts| - 2];
        }
      }
    }
  }

  /** Across any number of planned restarts and no crash, each entry not skipped is begun exactly once, in order. */
  lemma PlannedRestartsRunEachStepOnce(all: seq<StepConfig>, actions: seq<Action>)
    requires Unique(all) && all != [] && Crashes(actions) == 0
    ensures var m := Run(all, Initial(all), actions);
            && (forall i, j :: 0 <= i < j < |m.starts| ==> m.starts[i] < m.starts[j])
            && (m.saved.status.Success? ==> (set i | 0 <= i < |all| && Active(all, i)) == (set i | i in m.starts))
  {
    hide Run;
    NoStepIsDropped(all, actions);
    NoRepeatsMeansIncreasing(all, Run(all, Initial(all), actions).starts);
  }

  /**
   * In every run, a boot without a process takes a deployment saved as running up again, with what is
   * left of the pipeline: from the saved entry on, or from behind it if that is saved as a success. One
   * that has ended is left alone.
   */
  lemma ABootResumesTheRest(all: seq<StepConfig>, actions: seq<Action>)
    requires Unique(all) && all != [] && Run(all, Initial(all), actions).process.None?
    ensures var m := Run(all, Initial(all), actions);
            var u := Next(all, m, Boot);
            if m.saved.status.Running? then exists k: nat :: k < |all| && TakenUp(all, m, u, k)
            else u == m
  {
    hide Run;
    InitialHolds(all);
    EveryRunKeeps(all, Initial(all), actions);
    var m := Run(all, Initial(all), actions);
    if m.saved.status.Running? {
      ResumesAtTheFrontier(all, m.saved);
      var k: nat := FindIndex(all, m.saved.current.step);
      assert k < |all| && all[k].step == m.saved.current.step;
      assert TakenUp(all, m, Next(all, m, Boot), k);
    }
  }

  /** The process goes on at entry `k`, the saved one, or behind it if that is a success. */
  predicate TakenUp(all: seq<StepConfig>, m: Machine, u: Machine, k: nat)
    requires k < |all|
  {
    && all[k].step == m.saved.current.step
    && u.process.Some? && u.process.value.phase.Between?
    && u.process.value.todo == if m.saved.current.status.Success? then all[k + 1..] else all[k..]
  }

  // ------------------------------------------------------------------ attempts

  function StartsOf(starts: seq<nat>, i: nat): nat {
    if starts == [] then 0 else StartsOf(starts[..|starts| - 1], i) + if starts[|starts| - 1] == i then 1 else 0
  }

  function AttemptsOf(attempts: seq<Attempt>, i: nat): nat {
    if attempts == [] then 0
    else AttemptsOf(attempts[..|attempts| - 1], i) + if attempts[|attempts| - 1].index == i then 1 else 0
  }

  /** At most three attempts each time entry `i` was begun; the one under way has used what its counter says. */
  ghost predicate AttemptsBounded(all: seq<StepConfig>, m: Machine, i: nat) {
    if m.process.Some? && m.process.value.phase.InStep? && Position(all, m.process.value) == i then
      var p := m.process.value;
      && p.todo != [] && StartsOf(m.starts, i) >= 1
      && (KindOf(p.todo[0]).Commanding? ==> 1 <= p.memory.current.attempt <= MAX_ATTEMPTS)
      && AttemptsOf(m.attempts, i) <= MAX_ATTEMPTS * (StartsOf(m.starts, i) - 1)
                                      + if KindOf(p.todo[0]).Commanding? then p.memory.current.attempt else 1
    else AttemptsOf(m.attempts, i) <= MAX_ATTEMPTS * StartsOf(m.starts, i)
  }

  lemma CountsOneMore(starts: seq<nat>, attempts: seq<Attempt>, s: nat, a: Attempt, i: nat)
    ensures StartsOf(starts + [s], i) == StartsOf(starts, i) + if s == i then 1 else 0
    ensures AttemptsOf(attempts + [a], i) == AttemptsOf(attempts, i) + if a.index == i then 1 else 0
  {
    assert (starts + [s])[..|starts|] == starts && (attempts + [a])[..|attempts|] == attempts;
  }

  lemma NextKeepsAttempts(all: seq<StepConfig>, m: Machine, a: Action, i: nat)
    requires AttemptsBounded(all, m, i)
    ensures AttemptsBounded(all, Next(all, m, a), i)
  {
    hide AttemptsOf, StartsOf, GetFollowingSteps;
    if m.process.Some? {
      var at := Position(all, m.process.value);
      if m.process.value.todo != [] {
        CountsOneMore(m.starts, m.attempts, at, Attempt(at, 1, WorkOf(KindOf(m.process.value.todo[0]))), i);
      }
      CountsOneMore(m.starts, m.attempts, at, Attempt(at, m.process.value.memory.current.attempt + 1, Command), i);
    }
  }

  /** An entry is attempted at most three times for each time it is begun. */
  lemma {:induction false} AtMostThreeAttempts(all: seq<StepConfig>, m: Machine, actions: seq<Action>, i: nat)
    requires AttemptsBounded(all, m, i)
    ensures AttemptsBounded(all, Run(all, m, actions), i)
    ensures AttemptsOf(Run(all, m, actions).attempts, i) <= 3 * StartsOf(Run(all, m, actions).starts, i)
    decreases |actions|
  {
    hide Next;
    if actions != [] {
      NextKeepsAttempts(all, m, actions[0], i);
      AtMostThreeAttempts(all, Next(all, m, actions[0]), actions[1..], i);
    }
  }

  // ------------------------------------------------------------------ what the flags of an entry mean

  /** What is done for an entry of these flags. */
  ghost predicate WorkFits(c: StepConfig, work: Work) {
    && (work.Command? <==> !c.propagateToReplicas && !c.triggersRestart)
    && (work.Propagation? <==> c.propagateToReplicas)
    && (work.Restart? <==> !c.propagateToReplicas && c.triggersRestart)
  }

  ghost predicate WorkInv(all: seq<StepConfig>, m: Machine) {
    && (forall a :: a in m.attempts ==> a.index < |all| && a.index in m.starts && WorkFits(all[a.index], a.work))
    && (forall i :: i in m.starts ==> exists a :: a in m.attempts && a.index == i)
  }

  lemma OneAttemptMore(all: seq<StepConfig>, m: Machine, a: Attempt)
    requires WorkInv(all, m) && a.index < |all| && WorkFits(all[a.index], a.work)
    ensures forall u: Machine :: u.starts == m.starts + [a.index] && u.attempts == m.attempts + [a] ==> WorkInv(all, u)
    ensures a.index in m.starts ==>
              forall u: Machine :: u.starts == m.starts && u.attempts == m.attempts + [a] ==> WorkInv(all, u)
  {
    forall u: Machine | u.starts == m.starts + [a.index] && u.attempts == m.attempts + [a] ensures WorkInv(all, u) {
      assert a in u.attempts;
      forall i | i in u.starts ensures exists b :: b in u.attempts && b.index == i {
        if i in m.starts {
          var b :| b in m.attempts && b.index == i;
          assert b in u.attempts;
        }
      }
    }
    forall u: Machine | a.index in m.starts && u.starts == m.starts && u.attempts == m.attempts + [a]
      ensures WorkInv(all, u)
    {
      forall i | i in u.starts ensures exists b :: b in u.attempts && b.index == i {
        var b :| b in m.attempts && b.index == i;
        assert b in u.attempts;
      }
    }
  }

  lemma NextKeepsWork(all: seq<StepConfig>, m: Machine, a: Action)
    requires Unique(all) && Inv(all, m) && WorkInv(all, m)
    ensures WorkInv(all, Next(all, m, a))
  {
    hide FindIndex, InOrder, Reached, Unique, GetFollowingSteps, WorkInv, WorkFits;
    var u := Next(all, m, a);
    if u.starts != m.starts || u.attempts != m.attempts {
      var p := m.process.value;
      var k := |all| - |p.todo|;
      assert all[k..][0] == all[k];
      WorkByFlags(all[k]);
      OneAttemptMore(all, m, u.attempts[|m.attempts|]);
    } else {
      SameWork(all, m, u);
    }
  }

  lemma WorkByFlags(c: StepConfig)
    ensures !KindOf(c).Skipping? ==> WorkFits(c, WorkOf(KindOf(c)))
  {
  }

  lemma SameWork(all: seq<StepConfig>, m: Machine, u: Machine)
    requires WorkInv(all, m) && u.starts == m.starts && u.attempts == m.attempts
    ensures WorkInv(all, u)
  {
  }

  lemma {:induction false} EveryRunKeepsWork(all: seq<StepConfig>, m: Machine, actions: seq<Action>)
    requires Unique(all) && Inv(all, m) && WorkInv(all, m)
    ensures WorkInv(all, Run(all, m, actions))
    decreases |actions|
  {
    hide Next, Inv, WorkInv;
    if actions != [] {
      NextKeeps(all, m, actions[0]);
      NextKeepsWork(all, m, actions[0]);
      EveryRunKeepsWork(all, Next(all, m, actions[0]), actions[1..]);
    }
  }

  /**
   * In every run an entry with `skip`, or one that only builds an image, is never begun and on record as
   * skipped once passed; every other one passed was begun and is on record as a success, and what is done
   * for it is a command, a propagation or a restart by its flags alone.
   */
  lemma EntriesAreTreatedByTheirFlags(all: seq<StepConfig>, actions: seq<Action>, i: nat)
    requires Unique(all) && i < |all|
    ensures var m, c := Run(all, Initial(all), actions), all[i];
            var passed := m.saved.status.Success? || (m.saved.status.Running? && i < Frontier(all, m.saved));
            && (c.skip || (c.buildImage && !c.propagateToReplicas) ==>
                  && i !in m.starts && (forall a :: a in m.attempts ==> a.index != i)
                  && (passed ==> c.step in m.saved.completed && m.saved.completed[c.step] == Skipped))
            && (!(c.skip || (c.buildImage && !c.propagateToReplicas)) ==>
                  && (passed ==> i in m.starts && c.step in m.saved.completed && m.saved.completed[c.step] == Success)
                  && (i in m.starts ==> exists a :: a in m.attempts && a.index == i)
                  && (forall a :: a in m.attempts && a.index == i ==>
                        && (a.work.Command? <==> !c.propagateToReplicas && !c.triggersRestart)
                        && (a.work.Propagation? <==> c.propagateToReplicas)
                        && (a.work.Restart? <==> !c.propagateToReplicas && c.triggersRestart)))
  {
    hide Run;
    InitialHolds(all);
    FindsItself(all, 0);
    EveryRunKeeps(all, Initial(all), actions);
    EveryRunRecords(all, Initial(all), actions);
    EveryRunKeepsWork(all, Initial(all), actions);
    var m := Run(all, Initial(all), actions);
    if Active(all, i) && m.saved.status.Success? {
      ReachedMeansBegun(all, m.starts, |all|, i);
    }
    if Active(all, i) && m.saved.status.Running? && i < Frontier(all, m.saved) {
      ReachedMeansBegun(all, m.starts, Frontier(all, m.saved), i);
    }
  }

  /** After a restart entry the process goes away, and after any other it goes on. */
  lemma OnlyARestartEndsTheProcess(all: seq<StepConfig>, actions: seq<Action>, i: nat)
    requires Unique(all) && i < |all|
    requires var m := Run(all, Initial(all), actions);
             m.process.Some? && m.process.value.phase.InStep? && m.process.value.todo == all[i..]
    ensures var u := Next(all, Run(all, Initial(all), actions), Succeed);
            && all[i].step in u.saved.completed && u.saved.completed[all[i].step] == Success
            && u.process.Some? && u.process.value.todo == all[i + 1..]
            && u.process.value.phase ==
               if all[i].triggersRestart && !all[i].propagateToReplicas then Exiting else Between
  {
    hide Run, FindIndex, Unique;
    InitialHolds(all);
    EveryRunKeeps(all, Initial(all), actions);
    InitialIsParted(all);
    EveryRunParts(all, Initial(all), actions, {});
    assert all[i..][0] == all[i] && all[i..][1..] == all[i + 1..];
  }

  // ------------------------------------------------------------------ how one run ends

  /** `done` is `base` with each of these entries recorded by its kind. */
  ghost predicate Records(base: map<string, Status>, steps: seq<StepConfig>, done: map<string, Status>) {
    && (forall i :: 0 <= i < |steps| ==>
          && steps[i].step in done
          && done[steps[i].step] ==
             if steps[i].skip || (steps[i].buildImage && !steps[i].propagateToReplicas) then Skipped else Success)
    && (forall s :: !HasStep(steps, s) ==> (s in done <==> s in base) && (s in done ==> done[s] == base[s]))
  }

  lemma RecordsOneMore(base: map<string, Status>, steps: seq<StepConfig>, done: map<string, Status>)
    requires steps != [] && Unique(steps) && Records(base, steps[..|steps| - 1], done)
    ensures var last := steps[|steps| - 1];
            var status := if last.skip || (last.buildImage && !last.propagateToReplicas) then Skipped else Success;
            Records(base, steps, done[last.step := status])
  {
    var init, last := steps[..|steps| - 1], steps[|steps| - 1];
    forall i | 0 <= i < |init| ensures steps[i] == init[i] && steps[i].step != last.step {
    }
    forall s | !HasStep(steps, s) ensures !HasStep(init, s) && s != last.step {
      NotAmong(steps, s);
    }
  }

  lemma NotAmong(steps: seq<StepConfig>, s: string)
    requires steps != [] && !HasStep(steps, s)
    ensures !HasStep(steps[..|steps| - 1], s) && s != steps[|steps| - 1].step
  {
    assert forall i :: 0 <= i < |steps| - 1 ==> steps[..|steps| - 1][i] == steps[i];
  }

  /** completedSteps holds exactly the entries of the prefix, each with the status its kind gives. */
  lemma {:induction false} CompletedIsThePrefix(base: map<string, Status>, steps: seq<StepConfig>)
    requires Unique(steps)
    ensures Records(base, steps, CompletedAfter(base, steps))
    decreases |steps|
  {
    if steps != [] {
      CompletedIsThePrefix(base, steps[..|steps| - 1]);
      RecordsOneMore(base, steps, CompletedAfter(base, steps[..|steps| - 1]));
    }
  }

  /**
   * From an empty record, the final state of a run names its outcome: success exactly when no entry
   * fails or restarts, and after a failure the record is the executed prefix with only its last
   * entry failed.
   */
  lemma TheRecordOfARun(w: World, steps: seq<StepConfig>)
    requires Unique(steps)
    ensures FirstStop(w, steps) == |steps| <==>
            forall i :: 0 <= i < |steps| ==>
              var c := steps[i];
              || c.skip || (c.buildImage && !c.propagateToReplicas)
              || (c.propagateToReplicas && !w.propagationFails(c.step))
              || (!c.propagateToReplicas && !c.triggersRestart
                  && (w.attemptOk(c.step, 1) || w.attemptOk(c.step, 2) || w.attemptOk(c.step, 3)))
    ensures var e := FirstStop(w, steps);
            e < |steps| && !(steps[e].triggersRestart && !steps[e].propagateToReplicas) ==>
              var done := CompletedAfter(map[], steps[..e])[steps[e].step := Failed];
              && (forall i :: 0 <= i < |steps| ==> (steps[i].step in done <==> i <= e))
              && done[steps[e].step] == Failed
              && (forall i :: 0 <= i < e ==>
                    done[steps[i].step] ==
                    if steps[i].skip || (steps[i].buildImage && !steps[i].propagateToReplicas)
                    then Skipped else Success)
              && (forall s :: s in done ==> HasStep(steps, s))
  {
    hide Stops, CompletedAfter;
    var e := FirstStop(w, steps);
    forall i | 0 <= i < |steps| {
      StopsByFlags(w, steps[i]);
    }
    if e < |steps| {
      var prefix := steps[..e];
      CompletedIsThePrefix(map[], prefix);
      var done := CompletedAfter(map[], prefix)[steps[e].step := Failed];
      assert forall i :: 0 <= i < e ==> prefix[i] == steps[i] && steps[i].step != steps[e].step;
      forall i | e < i < |steps| ensures steps[i].step !in done {
        NotInThePrefix(steps, e, i);
        assert steps[e].step != steps[i].step;
      }
      forall s | s in done ensures HasStep(steps, s) {
        assert s == steps[e].step || HasStep(prefix, s);
      }
    }
  }

  lemma NotInThePrefix(steps: seq<StepConfig>, e: nat, i: nat)
    requires Unique(steps) && e <= i < |steps|
    ensures !HasStep(steps[..e], steps[i].step)
  {
  }
}
