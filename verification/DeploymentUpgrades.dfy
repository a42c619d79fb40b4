/**
 * Deployments that upgrade their own service: the first boot of the new version reconciles the stored
 * pipeline with its defaults, and resumes in what comes out.
 */
module DeploymentUpgrades {
  import opened Options
  import opened Deployment
  import opened DeploymentLaws
  import R = Reconcile
  import RL = ReconcileLaws

  /** A stored step as the loop reads it: its flags are the fields that hold a truthy value. */
  function Config(truthy: string -> bool, s: R.Step): StepConfig {
    StepConfig(s.id, On(truthy, s, "skip"), On(truthy, s, "buildImage"), On(truthy, s, "propagateToReplicas"),
               On(truthy, s, "triggersRestart"))
  }

  predicate On(truthy: string -> bool, s: R.Step, field: string) {
    field in s.fields && truthy(s.fields[field])
  }

  function Configs(truthy: string -> bool, row: seq<R.Step>): (all: seq<StepConfig>)
    ensures |all| == |row| && forall i :: 0 <= i < |row| ==> all[i].step == row[i].id
  {
    seq(|row|, i requires 0 <= i < |row| => Config(truthy, row[i]))
  }

  datatype Event = Do(action: Action) | Upgrade(defaults: seq<R.Step>, fixups: seq<R.Fixup>)

  /**
   * The stored pipeline and the machine, with what happened so far: the ids begun, the pipelines
   * there were, and the ids that came in before the entry at which a boot resumed.
   */
  datatype Life = Life(row: seq<R.Step>, m: Machine, begun: seq<string>, pipelines: set<seq<StepConfig>>,
                       late: set<string>)

  /** The new ids in front of where the saved deployment resumes. */
  function CameTooLate(all: seq<StepConfig>, next: seq<StepConfig>, d: DeploymentState): set<string> {
    set i | 0 <= i < |next| && i < Frontier(next, d) && !HasStep(all, next[i].step) :: next[i].step
  }

  /** The reconciled pipeline, before the deployment is resumed in it. */
  function Reconciling(truthy: string -> bool, l: Life, defaults: seq<R.Step>, fixups: seq<R.Fixup>): Life {
    var row := R.Reconciled(l.row, defaults, fixups);
    var next := Configs(truthy, row);
    Life(row, l.m, l.begun, l.pipelines + {next}, l.late + CameTooLate(Configs(truthy, l.row), next, l.m.saved))
  }

  /** An upgrade is a boot that reconciles first; without a deployment to resume it is of no interest here. */
  function After(truthy: string -> bool, l: Life, e: Event): Life {
    match e
    case Do(a) =>
      var u := Next(Configs(truthy, l.row), l.m, a);
      l.(m := u, begun := if u.starts == l.m.starts then l.begun else l.begun + [u.saved.current.step])
    case Upgrade(defaults, fixups) =>
      if l.m.process.Some? || !l.m.saved.status.Running? then l
      else
        var upgraded := Reconciling(truthy, l, defaults, fixups);
        upgraded.(m := Booted(Configs(truthy, upgraded.row), l.m))
  }

  function Lived(truthy: string -> bool, l: Life, events: seq<Event>): Life
    decreases |events|
  {
    if events == [] then l else Lived(truthy, After(truthy, l, events[0]), events[1..])
  }

  function Born(truthy: string -> bool, row: seq<R.Step>): Life
    requires row != []
  {
    Life(row, Initial(Configs(truthy, row)), [], {Configs(truthy, row)}, {})
  }

  // ------------------------------------------------------------------ what reconciling does to a pipeline

  /** Every entry is still there, in the same order; its flags may have changed. */
  ghost predicate KeepsOrder(all: seq<StepConfig>, next: seq<StepConfig>) {
    && Unique(next)
    && (forall i :: 0 <= i < |all| ==> FindIndex(next, all[i].step) >= 0)
    && (forall i, j :: 0 <= i < j < |all| ==> FindIndex(next, all[i].step) < FindIndex(next, all[j].step))
  }

  lemma SameIdsKeepOrder(all: seq<StepConfig>, next: seq<StepConfig>)
    requires Unique(all) && |all| == |next| && forall i :: 0 <= i < |all| ==> next[i].step == all[i].step
    ensures KeepsOrder(all, next)
  {
    forall i | 0 <= i < |all| ensures FindIndex(next, all[i].step) == i {
      FindsItself(next, i);
    }
  }

  lemma KeepsOrderTrans(a: seq<StepConfig>, b: seq<StepConfig>, c: seq<StepConfig>)
    requires KeepsOrder(a, b) && KeepsOrder(b, c)
    ensures KeepsOrder(a, c)
  {
    forall i | 0 <= i < |a| ensures b[FindIndex(b, a[i].step)].step == a[i].step {
    }
  }

  lemma SpliceKeepsOrder(all: seq<StepConfig>, d: StepConfig, at: nat)
    requires Unique(all) && at <= |all| && !HasStep(all, d.step)
    ensures KeepsOrder(all, all[..at] + [d] + all[at..])
  {
    var next := all[..at] + [d] + all[at..];
    forall i | 0 <= i < |next| ensures next[i] == if i < at then all[i] else if i == at then d else all[i - 1] {
    }
    forall i | 0 <= i < |all| ensures FindIndex(next, all[i].step) == if i < at then i else i + 1 {
      FindsItself(next, if i < at then i else i + 1);
    }
  }

  lemma {:induction false} InsertionsKeepOrder(truthy: string -> bool, steps: seq<R.Step>, missing: seq<R.Step>,
                                               defaults: seq<R.Step>)
    requires RL.UniqueIds(steps) && RL.UniqueIds(missing)
    requires forall i :: 0 <= i < |missing| ==> R.IndexOf(steps, missing[i].id) < 0
    ensures KeepsOrder(Configs(truthy, steps), Configs(truthy, R.AllInserted(steps, missing, defaults)))
    ensures RL.UniqueIds(R.AllInserted(steps, missing, defaults))
    decreases |missing|
  {
    hide R.IndexOf, R.InsertionPoint, KeepsOrder, FindIndex;
    if missing == [] {
      SameIdsKeepOrder(Configs(truthy, steps), Configs(truthy, steps));
    } else {
      var more, rest := R.Inserted(steps, missing[0], defaults), missing[1..];
      OneInsertionKeepsOrder(truthy, steps, missing[0], defaults);
      forall i | 0 <= i < |rest| ensures R.IndexOf(more, rest[i].id) < 0 {
        assert rest[i] == missing[i + 1];
        RL.FirstAfterInsertion(steps, missing[0], defaults, rest[i].id);
      }
      InsertionsKeepOrder(truthy, more, rest, defaults);
      KeepsOrderTrans(Configs(truthy, steps), Configs(truthy, more),
                      Configs(truthy, R.AllInserted(steps, missing, defaults)));
    }
  }

  lemma OneInsertionKeepsOrder(truthy: string -> bool, steps: seq<R.Step>, d: R.Step, defaults: seq<R.Step>)
    requires RL.UniqueIds(steps) && R.IndexOf(steps, d.id) < 0
    ensures KeepsOrder(Configs(truthy, steps), Configs(truthy, R.Inserted(steps, d, defaults)))
    ensures RL.UniqueIds(R.Inserted(steps, d, defaults))
  {
    hide KeepsOrder, FindIndex, Configs, R.InsertionPoint;
    var k := R.IndexOf(defaults, d.id);
    var at := R.InsertionPoint(steps, if k < 0 then [] else defaults[..k], |steps|);
    var all := Configs(truthy, steps);
    SpliceKeepsOrder(all, Config(truthy, d), at);
    ConfigsOfASplice(truthy, steps, d, at);
    OrderedIsUnique(truthy, all, R.Inserted(steps, d, defaults));
  }

  lemma ConfigsOfASplice(truthy: string -> bool, steps: seq<R.Step>, d: R.Step, at: nat)
    requires at <= |steps|
    ensures var all := Configs(truthy, steps);
            Configs(truthy, steps[..at] + [d] + steps[at..]) == all[..at] + [Config(truthy, d)] + all[at..]
  {
  }

  lemma OrderedIsUnique(truthy: string -> bool, all: seq<StepConfig>, row: seq<R.Step>)
    requires KeepsOrder(all, Configs(truthy, row))
    ensures RL.UniqueIds(row)
  {
    var next := Configs(truthy, row);
    forall i, j | 0 <= i < j < |row| ensures row[i].id != row[j].id {
      assert next[i].step != next[j].step;
    }
  }

  /** Reconciling keeps the operator's entries in their order, whatever it fills in and puts between them. */
  lemma ReconcilingKeepsOrder(truthy: string -> bool, row: seq<R.Step>, defaults: seq<R.Step>, fixups: seq<R.Fixup>)
    requires RL.UniqueIds(row) && RL.UniqueIds(defaults)
    ensures var r := R.Reconciled(row, defaults, fixups);
            KeepsOrder(Configs(truthy, row), Configs(truthy, r)) && RL.UniqueIds(r)
  {
    hide KeepsOrder, R.IndexOf, R.Fixed, R.Filled, R.AllInserted, R.Missing;
    var kept := RL.Kept(row, defaults, fixups);
    RL.OperatorsStepsAreKept(row, defaults, fixups);
    RL.MissingIsUnique(defaults, kept);
    RL.MissingContents(defaults, kept);
    forall i | 0 <= i < |row| ensures kept[i].id == row[i].id {
      assert RL.Respects(fixups, row[i], kept[i]);
    }
    var missing := R.Missing(defaults, kept);
    forall i | 0 <= i < |missing| ensures R.IndexOf(kept, missing[i].id) < 0 {
      assert missing[i] in missing;
    }
    InsertionsKeepOrder(truthy, kept, missing, defaults);
    SameIdsKeepOrder(Configs(truthy, row), Configs(truthy, kept));
    KeepsOrderTrans(Configs(truthy, row), Configs(truthy, kept), Configs(truthy, R.Reconciled(row, defaults, fixups)));
  }

  // ------------------------------------------------------------------ the invariant

  /** Every id begun is in the pipeline, none behind the saved entry, and each no earlier than the one before it. */
  ghost predicate BegunInOrder(all: seq<StepConfig>, begun: seq<string>, saved: DeploymentState) {
    && (forall i :: 0 <= i < |begun| ==> 0 <= FindIndex(all, begun[i]) <= FindIndex(all, saved.current.step))
    && InPipelineOrder(all, begun)
  }

  predicate InPipelineOrder(all: seq<StepConfig>, begun: seq<string>) {
    forall i, j :: 0 <= i < j < |begun| ==> FindIndex(all, begun[i]) <= FindIndex(all, begun[j])
  }

  /** The step was an entry to skip in one of the pipelines. */
  predicate SkippedIn(pipelines: set<seq<StepConfig>>, step: string) {
    exists all :: all in pipelines && Skips(all, step)
  }

  predicate Skips(all: seq<StepConfig>, step: string) {
    exists i ::
        0 <= i < |all| && all[i].step == step && (all[i].skip || (all[i].buildImage && !all[i].propagateToReplicas))
  }

  /** A success on record was begun, and an entry recorded as skipped was one to skip. */
  ghost predicate Accounted(done: map<string, Status>, begun: seq<string>, pipelines: set<seq<StepConfig>>) {
    && (forall step :: SucceededIn(done, step) ==> step in begun)
    && (forall step :: step in done && done[step] == Skipped ==> SkippedIn(pipelines, step))
  }

  predicate UnderWay(m: Machine) {
    m.process.Some? && (m.process.value.phase.InStep? || m.process.value.phase.Failing?)
  }

  ghost predicate LifeInv(truthy: string -> bool, l: Life) {
    var all := Configs(truthy, l.row);
    && RL.UniqueIds(l.row) && Unique(all) && all in l.pipelines
    && PartedInv(all, l.m, l.late)
    && BegunInOrder(all, l.begun, l.m.saved)
    && Accounted(l.m.saved.completed, l.begun, l.pipelines)
    && (l.m.process.Some? && l.m.process.value.phase.Between? ==>
          FindIndex(all, l.m.saved.current.step) <= |all| - |l.m.process.value.todo|)
    && (UnderWay(l.m) ==> l.begun != [] && l.begun[|l.begun| - 1] == l.m.saved.current.step)
    && (l.m.process.Some? && l.m.process.value.phase.Failing? ==>
          Accounted(l.m.process.value.memory.completed, l.begun, l.pipelines))
  }

  lemma BegunOneMore(all: seq<StepConfig>, begun: seq<string>, old_: DeploymentState, saved: DeploymentState)
    requires BegunInOrder(all, begun, old_) && FindIndex(all, saved.current.step) >= 0
    requires FindIndex(all, old_.current.step) <= FindIndex(all, saved.current.step)
    ensures BegunInOrder(all, begun, saved) && BegunInOrder(all, begun + [saved.current.step], saved)
  {
  }

  lemma AccountedOneMore(done: map<string, Status>, begun: seq<string>, pipelines: set<seq<StepConfig>>, step: string,
                         all: seq<StepConfig>)
    requires Accounted(done, begun, pipelines) && all in pipelines
    ensures step in begun ==> Accounted(done[step := Success], begun, pipelines)
    ensures Accounted(done[step := Failed], begun, pipelines) && Accounted(done, begun + [step], pipelines)
    ensures forall k :: 0 <= k < |all| && all[k].step == step && KindOf(all[k]).Skipping? ==>
              Accounted(done[step := Skipped], begun, pipelines)
  {
  }

  lemma BetweenMeans(all: seq<StepConfig>, m: Machine, late: set<string>)
    requires PartedInv(all, m, late)
    ensures FindIndex(all, m.saved.current.step) >= 0
    ensures m.process.Some? && m.process.value.phase.Between? ==>
              && m.process.value.memory == m.saved && m.saved.status.Running?
              && |m.process.value.todo| <= |all| && m.process.value.todo == all[|all| - |m.process.value.todo|..]
  {
  }

  lemma BetweenLives(truthy: string -> bool, l: Life, a: Action)
    requires LifeInv(truthy, l) && l.m.process.Some? && l.m.process.value.phase.Between? && !a.Crash? && !a.Boot?
    ensures LifeInv(truthy, After(truthy, l, Do(a)))
  {
    hide FindIndex, PartedInv, KindOf, Accounted, Configs, BegunInOrder, Unique, RL.UniqueIds, GetFollowingSteps;
    var all, p := Configs(truthy, l.row), l.m.process.value;
    BetweenMeans(all, l.m, l.late);
    var k := |all| - |p.todo|;
    NextParts(all, l.m, a, l.late);
    BetweenMeans(all, Next(all, l.m, a), l.late);
    var u := After(truthy, l, Do(a));
    if p.todo != [] {
      assert p.todo[0] == all[k];
      FindsItself(all, k);
      AccountedOneMore(l.m.saved.completed, l.begun, l.pipelines, all[k].step, all);
      if a.Start? && !KindOf(all[k]).Skipping? {
        assert UnderWay(u.m) && u.begun == l.begun + [all[k].step];
      } else if a.PassOver? && KindOf(all[k]).Skipping? {
        assert u.m.saved.current.step == all[k].step && |u.m.process.value.todo| == |p.todo| - 1;
      } else {
        assert u == l;
      }
    }
    BegunOneMore(all, l.begun, l.m.saved, u.m.saved);
  }

  lemma UnderWayLives(truthy: string -> bool, l: Life, a: Action)
    requires LifeInv(truthy, l) && UnderWay(l.m) && !a.Crash? && !a.Boot?
    ensures LifeInv(truthy, After(truthy, l, Do(a)))
  {
    hide FindIndex, Parted, KindOf, Accounted, Configs, BegunInOrder, Unique, RL.UniqueIds;
    var all, p := Configs(truthy, l.row), l.m.process.value;
    var k := |all| - |p.todo|;
    NextParts(all, l.m, a, l.late);
    FindsItself(all, k);
    AccountedOneMore(p.memory.completed, l.begun, l.pipelines, all[k].step, all);
    BegunOneMore(all, l.begun, l.m.saved, After(truthy, l, Do(a)).m.saved);
  }

  /** A boot moves the saved entry to the one that is resumed, and touches nothing else. */
  lemma BootLives(truthy: string -> bool, l: Life)
    requires LifeInv(truthy, l) && l.m.process.None?
    ensures LifeInv(truthy, l.(m := Booted(Configs(truthy, l.row), l.m)))
    ensures Booted(Configs(truthy, l.row), l.m).starts == l.m.starts
  {
    hide Parted, KindOf, Accounted, Configs, Unique, RL.UniqueIds, FindIndex, BegunInOrder;
    var all := Configs(truthy, l.row);
    BootParts(all, l.m, l.late);
    if l.m.saved.status.Running? {
      ResumesAtTheFrontier(all, l.m.saved);
      var k := Frontier(all, l.m.saved);
      if k < |all| {
        assert all[k..][0] == all[k];
        FindsItself(all, k);
      }
      BegunOneMore(all, l.begun, l.m.saved, Booted(all, l.m).saved);
    }
  }

  // ------------------------------------------------------------------ an upgrade

  /** Where the entries of the old pipeline are in the new one, seen from where the deployment resumes. */
  lemma FrontiersAgree(all: seq<StepConfig>, next: seq<StepConfig>, d: DeploymentState, p: nat)
    requires Unique(all) && KeepsOrder(all, next) && FindIndex(all, d.current.step) >= 0 && p < |all|
    ensures FindIndex(next, d.current.step) >= 0
    ensures FindIndex(next, all[p].step) < Frontier(next, d) <==> p < Frontier(all, d)
  {
    var c := FindIndex(all, d.current.step);
    assert all[c].step == d.current.step;
  }

  /** The record of an unfinished deployment parts the new pipeline too, with what came too late set apart. */
  lemma UpgradeParts(all: seq<StepConfig>, next: seq<StepConfig>, d: DeploymentState, late: set<string>)
    requires Unique(all) && KeepsOrder(all, next) && FindIndex(all, d.current.step) >= 0
    requires Parted(all, d.completed, Frontier(all, d), late)
    ensures Parted(next, d.completed, Frontier(next, d), late + CameTooLate(all, next, d))
  {
    hide Frontier, FindIndex, KeepsOrder, CameTooLate;
    StillFound(all, next, d.current.step);
    var n, lost := Frontier(next, d), late + CameTooLate(all, next, d);
    forall i | 0 <= i < |next| && i < n
      ensures if next[i].step in lost then next[i].step !in d.completed
              else next[i].step in d.completed && d.completed[next[i].step] in {Success, Skipped}
    {
      EntryStaysParted(all, next, d, late, i);
    }
    forall i | 0 <= i < |next| && n <= i ensures next[i].step !in lost && !SucceededIn(d.completed, next[i].step) {
      EntryStaysParted(all, next, d, late, i);
    }
    forall step | HasStep(all, step) ensures HasStep(next, step) {
      StillThere(all, next, step);
    }
    forall step | step in CameTooLate(all, next, d) ensures HasStep(next, step) {
      WhatCameTooLate(all, next, d, step);
    }
  }

  /** One entry's share of the parting. */
  predicate EntryParted(all: seq<StepConfig>, done: map<string, Status>, n: int, late: set<string>, i: nat)
    requires i < |all|
  {
    if i >= n then all[i].step !in late && !SucceededIn(done, all[i].step)
    else if all[i].step in late then all[i].step !in done
    else all[i].step in done && done[all[i].step] in {Success, Skipped}
  }

  lemma WhatCameTooLate(all: seq<StepConfig>, next: seq<StepConfig>, d: DeploymentState, step: string)
    requires Unique(next)
    ensures step in CameTooLate(all, next, d) ==> HasStep(next, step) && !HasStep(all, step)
    ensures forall i :: 0 <= i < |next| && next[i].step == step && !HasStep(all, step) ==>
              (step in CameTooLate(all, next, d) <==> i < Frontier(next, d))
  {
    hide Frontier;
  }

  lemma EntryStaysParted(all: seq<StepConfig>, next: seq<StepConfig>, d: DeploymentState, late: set<string>, i: nat)
    requires Unique(all) && KeepsOrder(all, next) && FindIndex(all, d.current.step) >= 0 && i < |next|
    requires Parted(all, d.completed, Frontier(all, d), late)
    ensures EntryParted(next, d.completed, Frontier(next, d), late + CameTooLate(all, next, d), i)
  {
    hide Frontier, FindIndex, CameTooLate, KeepsOrder;
    StillFound(all, next, d.current.step);
    WhatCameTooLate(all, next, d, next[i].step);
    if HasStep(all, next[i].step) {
      var p :| 0 <= p < |all| && all[p].step == next[i].step;
      FindsItself(next, i);
      FrontiersAgree(all, next, d, p);
    }
  }

  lemma StillThere(all: seq<StepConfig>, next: seq<StepConfig>, step: string)
    requires KeepsOrder(all, next) && HasStep(all, step)
    ensures HasStep(next, step)
  {
    var p :| 0 <= p < |all| && all[p].step == step;
    assert next[FindIndex(next, all[p].step)].step == step;
  }

  lemma BegunStaysInOrder(all: seq<StepConfig>, next: seq<StepConfig>, begun: seq<string>, d: DeploymentState)
    requires Unique(all) && KeepsOrder(all, next) && FindIndex(all, d.current.step) >= 0 && BegunInOrder(all, begun, d)
    ensures BegunInOrder(next, begun, d)
  {
    hide Unique, FindIndex, KeepsOrder;
    forall i | 0 <= i < |begun|
      ensures 0 <= FindIndex(next, begun[i]) <= FindIndex(next, d.current.step)
    {
      OrderCarriesOver(all, next, begun[i], d.current.step);
    }
    forall i, j | 0 <= i < j < |begun| ensures FindIndex(next, begun[i]) <= FindIndex(next, begun[j]) {
      OrderCarriesOver(all, next, begun[i], begun[j]);
    }
  }

  lemma OrderCarriesOver(all: seq<StepConfig>, next: seq<StepConfig>, a: string, b: string)
    requires KeepsOrder(all, next) && 0 <= FindIndex(all, a) <= FindIndex(all, b)
    ensures 0 <= FindIndex(next, a) <= FindIndex(next, b)
  {
    hide Unique, FindIndex;
    var i, j := FindIndex(all, a), FindIndex(all, b);
    assert all[i].step == a && all[j].step == b;
  }

  lemma ReconcilingLives(truthy: string -> bool, l: Life, defaults: seq<R.Step>, fixups: seq<R.Fixup>)
    requires LifeInv(truthy, l) && RL.UniqueIds(defaults) && l.m.process.None? && l.m.saved.status.Running?
    ensures LifeInv(truthy, Reconciling(truthy, l, defaults, fixups))
  {
    hide Parted, Accounted, Configs, RL.UniqueIds, FindIndex, BegunInOrder, KeepsOrder, Frontier, CameTooLate;
    hide R.Reconciled;
    var all, next := Configs(truthy, l.row), Configs(truthy, R.Reconciled(l.row, defaults, fixups));
    ReconcilingKeepsOrder(truthy, l.row, defaults, fixups);
    UpgradeParts(all, next, l.m.saved, l.late);
    BegunStaysInOrder(all, next, l.begun, l.m.saved);
    StillFound(all, next, l.m.saved.current.step);
    AccountedStays(l.m.saved.completed, l.begun, l.pipelines, next);
  }

  lemma StillFound(all: seq<StepConfig>, next: seq<StepConfig>, step: string)
    requires KeepsOrder(all, next)
    ensures Unique(next) && (FindIndex(all, step) >= 0 ==> FindIndex(next, step) >= 0)
  {
    if FindIndex(all, step) >= 0 {
      assert all[FindIndex(all, step)].step == step;
    }
  }

  lemma AccountedStays(done: map<string, Status>, begun: seq<string>, pipelines: set<seq<StepConfig>>,
                       next: seq<StepConfig>)
    requires Accounted(done, begun, pipelines)
    ensures Accounted(done, begun, pipelines + {next})
  {
  }

  // ------------------------------------------------------------------ every life

  lemma CrashLives(truthy: string -> bool, l: Life)
    requires LifeInv(truthy, l)
    ensures LifeInv(truthy, After(truthy, l, Do(Crash)))
  {
  }

  lemma AfterLives(truthy: string -> bool, l: Life, e: Event)
    requires LifeInv(truthy, l) && (e.Upgrade? ==> RL.UniqueIds(e.defaults))
    ensures LifeInv(truthy, After(truthy, l, e))
  {
    hide LifeInv, Act, Booted, RL.UniqueIds, Configs, Reconciling;
    match e
    case Upgrade(defaults, fixups) =>
      if l.m.process.None? && l.m.saved.status.Running? {
        ReconcilingLives(truthy, l, defaults, fixups);
        ReconcilingKeepsTheMachine(truthy, l, defaults, fixups);
        BootLives(truthy, Reconciling(truthy, l, defaults, fixups));
      }
    case Do(a) =>
      if a.Crash? {
        CrashLives(truthy, l);
      } else if l.m.process.None? {
        BootLives(truthy, l);
        assert !a.Boot? ==> After(truthy, l, e) == l;
      } else if a.Boot? {
        assert After(truthy, l, e) == l;
      } else {
        match l.m.process.value.phase
        case Between => BetweenLives(truthy, l, a);
        case Exiting => ExitingLives(truthy, l, a);
        case _ => UnderWayLives(truthy, l, a);
      }
  }

  lemma ReconcilingKeepsTheMachine(truthy: string -> bool, l: Life, defaults: seq<R.Step>, fixups: seq<R.Fixup>)
    ensures Reconciling(truthy, l, defaults, fixups).m == l.m
            && Reconciling(truthy, l, defaults, fixups).begun == l.begun
  {
  }

  lemma ExitingLives(truthy: string -> bool, l: Life, a: Action)
    requires LifeInv(truthy, l) && l.m.process.Some? && l.m.process.value.phase.Exiting? && !a.Crash? && !a.Boot?
    ensures LifeInv(truthy, After(truthy, l, Do(a)))
  {
    hide Parted, Accounted, Configs, RL.UniqueIds, FindIndex, BegunInOrder, Unique;
  }

  // ------------------------------------------------------------------ what is begun twice

  function CrashesIn(events: seq<Event>): nat {
    if events == [] then 0 else (if events[0] == Do(Crash) then 1 else 0) + CrashesIn(events[1..])
  }

  /** The last entry begun has no saved outcome and will be begun again. */
  predicate CutShort(truthy: string -> bool, l: Life) {
    && l.begun != [] && l.m.saved.status.Running? && l.begun[|l.begun| - 1] == l.m.saved.current.step
    && match l.m.process
       case None => !l.m.saved.current.status.Success?
       case Some(p) =>
         && p.phase.Between?
         && FindIndex(Configs(truthy, l.row), l.m.saved.current.step) == |l.row| - |p.todo|
  }

  function Debt(truthy: string -> bool, l: Life): nat {
    Repeats(l.begun) + if CutShort(truthy, l) then 1 else 0
  }

  lemma RepeatsOneMore(begun: seq<string>, step: string)
    ensures Repeats(begun + [step]) == Repeats(begun) + if begun != [] && begun[|begun| - 1] == step then 1 else 0
  {
    assert (begun + [step])[..|begun|] == begun;
  }

  lemma BetweenDebt(truthy: string -> bool, l: Life, a: Action)
    requires LifeInv(truthy, l) && l.m.process.Some? && l.m.process.value.phase.Between? && !a.Crash? && !a.Boot?
    ensures Debt(truthy, After(truthy, l, Do(a))) <= Debt(truthy, l)
  {
    hide FindIndex, Parted, KindOf, Accounted, Configs, Unique, RL.UniqueIds, Repeats, InPipelineOrder;
    var all, p := Configs(truthy, l.row), l.m.process.value;
    var k := |all| - |p.todo|;
    if p.todo != [] {
      assert all[k..][0] == all[k] && all[k..][1..] == all[k + 1..];
      FindsItself(all, k);
      RepeatsOneMore(l.begun, all[k].step);
    }
  }

  /** Once begun, an entry is not cut short but by a crash. */
  lemma BegunDebt(truthy: string -> bool, l: Life, a: Action)
    requires LifeInv(truthy, l) && l.m.process.Some? && !l.m.process.value.phase.Between? && !a.Crash? && !a.Boot?
    ensures After(truthy, l, Do(a)).begun == l.begun && !CutShort(truthy, After(truthy, l, Do(a)))
  {
    hide Parted, KindOf, Accounted, Configs, Unique, RL.UniqueIds, BegunInOrder, FindIndex;
    var all, p := Configs(truthy, l.row), l.m.process.value;
    if UnderWay(l.m) {
      FindsItself(all, |all| - |p.todo|);
    }
  }

  lemma BootDebt(truthy: string -> bool, l: Life)
    requires LifeInv(truthy, l) && l.m.process.None?
    ensures Debt(truthy, l.(m := Booted(Configs(truthy, l.row), l.m))) <= Debt(truthy, l)
  {
    hide FindIndex, Parted, KindOf, Accounted, Configs, Unique, RL.UniqueIds, Repeats;
    var all := Configs(truthy, l.row);
    if l.m.saved.status.Running? {
      ResumesAtTheFrontier(all, l.m.saved);
      var k := Frontier(all, l.m.saved);
      if k < |all| {
        assert all[k..][0] == all[k];
        FindsItself(all, k);
      }
    }
  }

  /** Only a crash can add to what is begun twice. */
  lemma AfterDebt(truthy: string -> bool, l: Life, e: Event)
    requires LifeInv(truthy, l) && (e.Upgrade? ==> RL.UniqueIds(e.defaults))
    ensures Debt(truthy, After(truthy, l, e)) <= Debt(truthy, l) + if e == Do(Crash) then 1 else 0
  {
    hide LifeInv, Act, Booted, RL.UniqueIds, Configs, Reconciling, Repeats;
    match e
    case Upgrade(defaults, fixups) =>
      if l.m.process.None? && l.m.saved.status.Running? {
        ReconcilingLives(truthy, l, defaults, fixups);
        ReconcilingKeepsTheMachine(truthy, l, defaults, fixups);
        BootDebt(truthy, Reconciling(truthy, l, defaults, fixups));
      }
    case Do(a) =>
      if l.m.process.None? {
        BootLives(truthy, l);
        BootDebt(truthy, l);
      } else if !a.Crash? && !a.Boot? {
        if l.m.process.value.phase.Between? {
          BetweenDebt(truthy, l, a);
        } else {
          BegunDebt(truthy, l, a);
        }
      }
  }

  // ------------------------------------------------------------------ over every life

  /** The ids of the row the deployment was started with. */
  ghost predicate OperatorsOwn(truthy: string -> bool, own: seq<R.Step>, l: Life) {
    forall i :: 0 <= i < |own| ==> HasStep(Configs(truthy, l.row), own[i].id) && own[i].id !in l.late
  }

  lemma AfterKeepsOwn(truthy: string -> bool, own: seq<R.Step>, l: Life, e: Event)
    requires LifeInv(truthy, l) && (e.Upgrade? ==> RL.UniqueIds(e.defaults)) && OperatorsOwn(truthy, own, l)
    ensures OperatorsOwn(truthy, own, After(truthy, l, e))
  {
    hide Next, Booted, RL.UniqueIds, Configs, R.Reconciled, CameTooLate, HasStep, KeepsOrder, PartedInv, Accounted;
    if e.Upgrade? && l.m.process.None? && l.m.saved.status.Running? {
      var all, next := Configs(truthy, l.row), Configs(truthy, R.Reconciled(l.row, e.defaults, e.fixups));
      ReconcilingKeepsOrder(truthy, l.row, e.defaults, e.fixups);
      StillFound(all, next, "");
      forall i | 0 <= i < |own|
        ensures HasStep(next, own[i].id) && own[i].id !in CameTooLate(all, next, l.m.saved)
      {
        StillThere(all, next, own[i].id);
        WhatCameTooLate(all, next, l.m.saved, own[i].id);
      }
    }
  }

  lemma {:induction false} EveryLifeKeeps(truthy: string -> bool, own: seq<R.Step>, l: Life, events: seq<Event>)
    requires LifeInv(truthy, l) && OperatorsOwn(truthy, own, l)
    requires forall e :: e in events && e.Upgrade? ==> RL.UniqueIds(e.defaults)
    ensures var u := Lived(truthy, l, events);
            LifeInv(truthy, u) && OperatorsOwn(truthy, own, u) && Debt(truthy, u) <= Debt(truthy, l) + CrashesIn(events)
    decreases |events|
  {
    hide After, LifeInv, OperatorsOwn, Debt, RL.UniqueIds;
    if events != [] {
      assert events[0] in events && forall e :: e in events[1..] ==> e in events;
      AfterLives(truthy, l, events[0]);
      AfterKeepsOwn(truthy, own, l, events[0]);
      AfterDebt(truthy, l, events[0]);
      EveryLifeKeeps(truthy, own, After(truthy, l, events[0]), events[1..]);
    }
  }

  lemma BirthIsRight(truthy: string -> bool, row: seq<R.Step>)
    requires row != [] && RL.UniqueIds(row)
    ensures LifeInv(truthy, Born(truthy, row)) && OperatorsOwn(truthy, row, Born(truthy, row))
    ensures Debt(truthy, Born(truthy, row)) == 0
  {
    var all := Configs(truthy, row);
    InitialIsParted(all);
    FindsItself(all, 0);
    forall i | 0 <= i < |row| ensures HasStep(all, row[i].id) {
      assert all[i].step == row[i].id;
    }
  }

  /** Nothing is begun, or one entry of the pipeline whose success is not saved. */
  predicate BeginsUnfinished(truthy: string -> bool, l: Life, u: Life) {
    u.begun != l.begun ==>
      && u.begun == l.begun + [u.m.saved.current.step] && HasStep(Configs(truthy, l.row), u.m.saved.current.step)
      && !SucceededIn(l.m.saved.completed, u.m.saved.current.step)
  }

  lemma AfterBeginsUnfinished(truthy: string -> bool, l: Life, e: Event)
    requires LifeInv(truthy, l)
    ensures BeginsUnfinished(truthy, l, After(truthy, l, e))
  {
    hide Next, Booted, RL.UniqueIds, Configs, Reconciling, BegunInOrder, Accounted, PartedInv;
    match e
    case Upgrade(defaults, fixups) => ReconcilingKeepsTheMachine(truthy, l, defaults, fixups);
    case Do(a) =>
      var all := Configs(truthy, l.row);
      WhatABeginningFinds(all, l.m, a, l.late);
      var u := Next(all, l.m, a);
      if u.starts != l.m.starts {
        var k: nat :| k < |all| && u.starts == l.m.starts + [k] && Begins(all, l.m, u, k);
        assert HasStep(all, all[k].step);
      }
  }

  /** What a finished deployment has on record, entry by entry. */
  ghost predicate Settled(truthy: string -> bool, l: Life) {
    var all, done := Configs(truthy, l.row), l.m.saved.completed;
    && (forall i :: 0 <= i < |all| ==> (all[i].step in done <==> all[i].step !in l.late))
    && (forall step :: step in done ==>
          || (done[step] == Success && step in l.begun)
          || (done[step] == Skipped && SkippedIn(l.pipelines, step)))
  }

  /**
   * Whatever crashes, restarts and upgrades a deployment goes through, each upgrade reconciling the
   * stored pipeline before it resumes: entries are begun in the order of the pipeline as it is now, an
   * entry again only right after itself, at most once per crash and never once its success is saved;
   * the entries the deployment was started with are all still there, and none of them is left behind.
   * A deployment that ends in success has on record every entry of the pipeline but those that an
   * upgrade put in front of where it resumed, each as a success that was begun or as one to skip.
   */
  lemma NoStepIsDroppedByUpgrades(truthy: string -> bool, row: seq<R.Step>, events: seq<Event>, e: Event)
    requires row != [] && RL.UniqueIds(row)
    requires forall x :: x in events && x.Upgrade? ==> RL.UniqueIds(x.defaults)
    ensures var l := Lived(truthy, Born(truthy, row), events);
            && InPipelineOrder(Configs(truthy, l.row), l.begun)
            && Repeats(l.begun) <= CrashesIn(events)
            && OperatorsOwn(truthy, row, l)
            && BeginsUnfinished(truthy, l, After(truthy, l, e))
            && (l.m.saved.status.Success? ==> Settled(truthy, l))
  {
    hide Lived, After, RL.UniqueIds, Configs;
    BirthIsRight(truthy, row);
    EveryLifeKeeps(truthy, row, Born(truthy, row), events);
    var l := Lived(truthy, Born(truthy, row), events);
    AfterBeginsUnfinished(truthy, l, e);
    if l.m.saved.status.Success? {
      ASuccessIsSettled(truthy, l);
    }
  }

  lemma ASuccessIsSettled(truthy: string -> bool, l: Life)
    requires LifeInv(truthy, l) && l.m.saved.status.Success?
    ensures Settled(truthy, l)
  {
    hide Configs, Unique, RL.UniqueIds, BegunInOrder;
    var all, done := Configs(truthy, l.row), l.m.saved.completed;
    forall step | step in done ensures done[step] in {Success, Skipped} {
      var i :| 0 <= i < |all| && all[i].step == step;
    }
  }

  lemma {:induction false} NoRepeatMeansStrict(all: seq<StepConfig>, begun: seq<string>)
    requires InPipelineOrder(all, begun) && Repeats(begun) == 0
    requires forall i :: 0 <= i < |begun| ==> FindIndex(all, begun[i]) >= 0
    ensures forall i, j :: 0 <= i < j < |begun| ==> FindIndex(all, begun[i]) < FindIndex(all, begun[j])
    decreases |begun|
  {
    hide FindIndex;
    if |begun| >= 2 {
      var n := |begun| - 1;
      NoRepeatMeansStrict(all, begun[..n]);
      assert begun[n - 1] != begun[n];
      assert FindIndex(all, begun[n - 1]) != FindIndex(all, begun[n]) by { FoundThere(all, begun[n - 1], begun[n]); }
      forall i, j | 0 <= i < j < |begun| ensures FindIndex(all, begun[i]) < FindIndex(all, begun[j]) {
        if j < n {
          assert FindIndex(all, begun[..n][i]) < FindIndex(all, begun[..n][j]);
        } else {
          assert FindIndex(all, begun[i]) <= FindIndex(all, begun[n - 1]) <= FindIndex(all, begun[n]);
        }
      }
    }
  }

  lemma FoundThere(all: seq<StepConfig>, a: string, b: string)
    requires FindIndex(all, a) >= 0 && FindIndex(all, b) >= 0 && a != b
    ensures FindIndex(all, a) != FindIndex(all, b)
  {
  }

  /** With restarts and upgrades but no crash, no entry is begun twice, and they are begun in pipeline order. */
  lemma PlannedUpgradesRunEachStepOnce(truthy: string -> bool, row: seq<R.Step>, events: seq<Event>)
    requires row != [] && RL.UniqueIds(row) && CrashesIn(events) == 0
    requires forall x :: x in events && x.Upgrade? ==> RL.UniqueIds(x.defaults)
    ensures var l := Lived(truthy, Born(truthy, row), events);
            forall i, j :: 0 <= i < j < |l.begun| ==>
              FindIndex(Configs(truthy, l.row), l.begun[i]) < FindIndex(Configs(truthy, l.row), l.begun[j])
  {
    hide Lived, RL.UniqueIds, Configs, Repeats, PartedInv, Accounted;
    BirthIsRight(truthy, row);
    EveryLifeKeeps(truthy, row, Born(truthy, row), events);
    var l := Lived(truthy, Born(truthy, row), events);
    NoRepeatMeansStrict(Configs(truthy, l.row), l.begun);
  }

  /** A stored step that runs a command: no flag is set. */
  function Plain(id: string): R.Step {
    R.Step(id, map[])
  }

  const AB := [Plain("a"), Plain("b")]
  const AXB := [Plain("a"), Plain("x"), Plain("b")]

  lemma AxbFromAb()
    ensures R.Reconciled(AB, AXB, []) == AXB
  {
    hide R.InsertionPoint, R.Filled, R.Missing, R.Inserted, R.IndexOf;
    NothingToFillIn();
    OnlyTheMiddleIsMissing();
    GoesToTheMiddle();
    assert [Plain("x")][1..] == [];
  }

  lemma NothingToFillIn()
    ensures R.Fixed(AB, []) == AB && R.Filled(AB, AXB) == AB
  {
    hide R.IndexOf, R.Filled;
    forall i | 0 <= i < 2 ensures R.FilledStep(AB[i], AXB) == AB[i] {
      var k := R.IndexOf(AXB, AB[i].id);
      assert k >= 0 ==> AXB[k].fields == map[];
    }
    assert R.Filled(AB, AXB)[0] == AB[0] && R.Filled(AB, AXB)[1] == AB[1];
  }

  lemma OnlyTheMiddleIsMissing()
    ensures R.Missing(AXB, AB) == [Plain("x")]
  {
    assert R.IndexOf(AB, "x") == -1;
    assert R.Missing(AXB[2..], AB) == [] && R.Missing(AXB[1..], AB) == [Plain("x")];
  }

  lemma GoesToTheMiddle()
    ensures R.Inserted(AB, Plain("x"), AXB) == AXB
  {
    assert R.IndexOf(AXB, "x") == 1 && AXB[..1] == [Plain("a")];
    assert R.IndexOf(AXB[..1], "b") == -1 && R.IndexOf(AXB[..1], "a") == 0 && AB[..1] == [Plain("a")];
    assert R.InsertionPoint(AB, AXB[..1], 2) == 1;
  }

  /** The process is in the second of two commands when it goes away. */
  function InTheSecond(truthy: string -> bool): Life {
    var saved := DeploymentState(Running, StepState("b", Running, 1), map["a" := Success]);
    Life(AB, Machine(saved, None, [0, 1], [Attempt(0, 1, Command), Attempt(1, 1, Command)]), ["a", "b"],
        {Configs(truthy, AB)}, {})
  }

  lemma UpToTheSecond(truthy: string -> bool)
    ensures Lived(truthy, Born(truthy, AB), [Do(Start), Do(Succeed), Do(Start), Do(Crash)]) == InTheSecond(truthy)
  {
    hide Lived, FindIndex, GetFollowingSteps;
    var a, b := Config(truthy, Plain("a")), Config(truthy, Plain("b"));
    assert Configs(truthy, AB) == [a, b];
    var l := Born(truthy, AB);
    var d1 := DeploymentState(Running, StepState("a", Running, 1), map[]);
    var l1 := l.(m := Machine(d1, Some(Process([a, b], d1, InStep)), [0], [Attempt(0, 1, Command)]), begun := ["a"]);
    assert After(truthy, l, Do(Start)) == l1;
    var l2 := FirstSucceeded(truthy, a, b, l1);
    FourEvents(truthy, l, Do(Start), Do(Succeed), Do(Start), Do(Crash));
  }

  lemma FirstSucceeded(truthy: string -> bool, a: StepConfig, b: StepConfig, l1: Life) returns (l2: Life)
    requires a == Config(truthy, Plain("a")) && b == Config(truthy, Plain("b")) && l1.row == AB
    requires l1.begun == ["a"] && l1.late == {} && l1.pipelines == {Configs(truthy, AB)}
    requires l1.m.starts == [0] && l1.m.attempts == [Attempt(0, 1, Command)]
    requires l1.m.saved == DeploymentState(Running, StepState("a", Running, 1), map[])
    requires l1.m.process == Some(Process([a, b], l1.m.saved, InStep))
    ensures l2 == After(truthy, l1, Do(Succeed))
    ensures After(truthy, After(truthy, l2, Do(Start)), Do(Crash)) == InTheSecond(truthy)
  {
    hide FindIndex, GetFollowingSteps;
    assert Configs(truthy, AB) == [a, b];
    var d2 := DeploymentState(Running, StepState("a", Success, 1), map["a" := Success]);
    l2 := l1.(m := Machine(d2, Some(Process([b], d2, Between)), [0], [Attempt(0, 1, Command)]));
    assert [a, b][1..] == [b];
    assert After(truthy, l1, Do(Succeed)) == l2;
    var d3 := DeploymentState(Running, StepState("b", Running, 1), map["a" := Success]);
    var l3 := l2.(m := Machine(d3, Some(Process([b], d3, InStep)), [0, 1],
        [Attempt(0, 1, Command), Attempt(1, 1, Command)]),
                  begun := ["a", "b"]);
    assert After(truthy, l2, Do(Start)) == l3;
  }

  lemma FourEvents(truthy: string -> bool, l: Life, a: Event, b: Event, c: Event, d: Event)
    ensures Lived(truthy, l, [a, b, c, d]) ==
            After(truthy, After(truthy, After(truthy, After(truthy, l, a), b), c), d)
  {
    hide After;
    assert [a, b, c, d][1..] == [b, c, d] && [b, c, d][1..] == [c, d] && [c, d][1..] == [d] && [d][1..] == [];
    var l2 := After(truthy, After(truthy, l, a), b);
    assert Lived(truthy, l2, [c, d]) == Lived(truthy, After(truthy, l2, c), [d]);
    assert Lived(truthy, After(truthy, l2, c), [d]) == Lived(truthy, After(truthy, After(truthy, l2, c), d), []);
    assert Lived(truthy, l, [a, b, c, d]) == Lived(truthy, After(truthy, l, a), [b, c, d]);
  }

  /**
   * The input that leaves an entry out: the process goes away in the second of two entries, and the new
   * version's defaults have a third between them. It is in the pipeline and will never be begun.
   */
  lemma AStepInsertedBehindTheRunIsLeftOut(truthy: string -> bool)
    ensures var l := Lived(truthy, Born(truthy, AB), [Do(Start), Do(Succeed), Do(Start), Do(Crash)]);
            var u := After(truthy, l, Upgrade(AXB, []));
            && u.row == AXB && u.late == {"x"}
            && u.m.process.Some? && u.m.process.value.todo == [Config(truthy, Plain("b"))]
  {
    hide Lived, Born, Config, Configs, FindIndex, R.Reconciled, CameTooLate, KindOf;
    UpToTheSecond(truthy);
    AxbFromAb();
    OnlyTheMiddleIsLate(truthy, InTheSecond(truthy).m.saved);
  }

  lemma OnlyTheMiddleIsLate(truthy: string -> bool, d: DeploymentState)
    requires d.current.step == "b" && d.current.status.Running?
    ensures var all, next := Configs(truthy, AB), Configs(truthy, AXB);
            CameTooLate(all, next, d) == {"x"} && GetFollowingSteps(d.current, next) == [Config(truthy, Plain("b"))]
  {
    hide Config;
    var all, next := Configs(truthy, AB), Configs(truthy, AXB);
    assert next[0].step == "a" && next[1].step == "x" && next[2].step == "b";
    assert FindIndex(next, "b") == 2;
    assert all[0].step == "a" && all[1].step == "b";
    assert HasStep(all, "a") && HasStep(all, "b") && !HasStep(all, "x");
  }
}
