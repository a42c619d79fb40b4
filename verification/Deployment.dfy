/** The deployment pipeline: the loop that runs steps, its saves, and resuming after the process went away. */
module Deployment {
  import opened Options

  datatype StepConfig = StepConfig(step: string, skip: bool, buildImage: bool, propagateToReplicas: bool,
                                   triggersRestart: bool)

  datatype Kind = Skipping | Propagating | Restarting | Commanding

  /** The order of the tests in runSteps; a build step without propagation is obsolete and passed over. */
  function KindOf(c: StepConfig): (k: Kind)
    ensures k.Skipping? <==> c.skip || (c.buildImage && !c.propagateToReplicas)
    ensures k.Propagating? <==> !c.skip && c.propagateToReplicas
    ensures k.Restarting? <==> !c.skip && !c.buildImage && !c.propagateToReplicas && c.triggersRestart
  {
    if c.skip || (c.buildImage && !c.propagateToReplicas) then Skipping
    else if c.propagateToReplicas then Propagating
    else if c.triggersRestart then Restarting
    else Commanding
  }

  datatype Status = Pending | Running | Success | Failed | Skipped

  datatype StepState = StepState(step: string, status: Status, attempt: nat)

  datatype DeploymentState = DeploymentState(status: Status, current: StepState, completed: map<string, Status>)

  const MAX_ATTEMPTS := 3

  // ------------------------------------------------------------------ resuming

  /** findIndex: the first entry with this id, or -1. */
  function FindIndex(all: seq<StepConfig>, step: string): (i: int)
    ensures -1 <= i < |all|
    ensures i >= 0 ==> all[i].step == step && forall j :: 0 <= j < i ==> all[j].step != step
    ensures i < 0 ==> forall j :: 0 <= j < |all| ==> all[j].step != step
  {
    if all == [] then -1
    else if all[0].step == step then 0
    else
      var rest := FindIndex(all[1..], step);
      if rest < 0 then -1 else rest + 1
  }

  /** Array.slice: a negative start counts from the end. */
  function SliceFrom<T>(s: seq<T>, start: int): seq<T> {
    if start < 0 then s[if |s| + start < 0 then 0 else |s| + start..]
    else if start > |s| then [] else s[start..]
  }

  function GetFollowingSteps(current: StepState, all: seq<StepConfig>): seq<StepConfig> {
    var idx := FindIndex(all, current.step);
    if current.status.Success? && idx >= 0 then SliceFrom(all, idx + 1) else SliceFrom(all, idx)
  }

  // ------------------------------------------------------------------ the run as atomic steps

  datatype Phase = Between | InStep | Failing | Exiting

  /** A process in runSteps: entries still to do (the current one first) and its live state object. */
  datatype Process = Process(todo: seq<StepConfig>, memory: DeploymentState, phase: Phase)

  /** What is done for an entry. */
  datatype Work = Command | Propagation | Restart

  datatype Attempt = Attempt(index: nat, attempt: nat, work: Work)

  function WorkOf(k: Kind): Work {
    match k
    case Propagating => Propagation
    case Restarting => Restart
    case _ => Command
  }

  /** What Redis holds, the process if there is one, and which entries and attempts were begun. */
  datatype Machine = Machine(saved: DeploymentState, process: Option<Process>, starts: seq<nat>, attempts: seq<Attempt>)

  datatype Action = PassOver | Start | Retry | Succeed | Exit | FailStep | FailDeployment | Finish | Crash | Boot

  function Position(all: seq<StepConfig>, p: Process): nat {
    if |p.todo| <= |all| then |all| - |p.todo| else 0
  }

  function WithStatus(d: DeploymentState, status: Status): DeploymentState {
    d.(current := d.current.(status := status), completed := d.completed[d.current.step := status])
  }

  /** What the process does at one await; an action it is not ready for does nothing. */
  function Act(all: seq<StepConfig>, m: Machine, p: Process, a: Action): Machine {
    var at := Position(all, p);
    if p.phase.Between? && p.todo == [] then
      if !a.Finish? then m
      else m.(saved := p.memory.(status := Success), process := None)
    else if p.phase.Between? then
      var kind := KindOf(p.todo[0]);
      if a.PassOver? && kind.Skipping? then
        var current := StepState(p.todo[0].step, Skipped, p.memory.current.attempt);
        var d := WithStatus(p.memory.(current := current), Skipped);
        m.(saved := d, process := Some(Process(p.todo[1..], d, Between)))
      else if a.Start? && !kind.Skipping? then
        var attempt := if kind.Restarting? then p.memory.current.attempt else 1;
        var d := p.memory.(current := StepState(p.todo[0].step, Running, attempt));
        m.(saved := d, process := Some(Process(p.todo, d, InStep)),
           starts := m.starts + [at], attempts := m.attempts + [Attempt(at, 1, WorkOf(kind))])
      else m
    else if p.phase.InStep? && p.todo != [] then
      var kind := KindOf(p.todo[0]);
      if a.Succeed? then
        var d := WithStatus(p.memory, Success);
        m.(saved := d, process := Some(Process(p.todo[1..], d, if kind.Restarting? then Exiting else Between)))
      else if a.Retry? && kind.Commanding? && p.memory.current.attempt < MAX_ATTEMPTS then
        var d := p.memory.(current := p.memory.current.(attempt := p.memory.current.attempt + 1));
        m.(saved := d, process := Some(p.(memory := d)),
           attempts := m.attempts + [Attempt(at, d.current.attempt, Command)])
      else if a.FailStep? && (kind.Propagating? || (kind.Commanding? && p.memory.current.attempt >= MAX_ATTEMPTS)) then
        // Only the propagation step saves before the deployment itself is failed.
        var d := WithStatus(p.memory, Failed);
        m.(saved := if kind.Propagating? then d else m.saved, process := Some(p.(memory := d, phase := Failing)))
      else m
    else if p.phase.Failing? && a.FailDeployment? then m.(saved := p.memory.(status := Failed), process := None)
    else if p.phase.Exiting? && a.Exit? then m.(process := None)
    else m
  }

  /** onModuleInit: a deployment saved as running is resumed. */
  function Booted(all: seq<StepConfig>, m: Machine): Machine {
    if !m.saved.status.Running? then m
    else
      var rest := GetFollowingSteps(m.saved.current, all);
      var d := if rest == [] then m.saved
          else m.saved.(current := StepState(rest[0].step, Running, m.saved.current.attempt));
      m.(saved := d, process := Some(Process(rest, d, Between)))
  }

  function Next(all: seq<StepConfig>, m: Machine, a: Action): Machine {
    match a
    case Crash => m.(process := None)
    case Boot => if m.process.Some? then m else Booted(all, m)
    case _ => if m.process.None? then m else Act(all, m, m.process.value, a)
  }

  function Run(all: seq<StepConfig>, m: Machine, actions: seq<Action>): Machine
    decreases |actions|
  {
    if actions == [] then m else Run(all, Next(all, m, actions[0]), actions[1..])
  }

  /** startDeployment: the first entry is pending and the state is saved before the process sets off. */
  function Initial(all: seq<StepConfig>): Machine
    requires all != []
  {
    var d := DeploymentState(Running, StepState(all[0].step, Pending, 0), map[]);
    Machine(d, Some(Process(all, d, Between)), [], [])
  }

  lemma {:induction false} RunOneMore(all: seq<StepConfig>, m: Machine, actions: seq<Action>, a: Action)
    ensures Run(all, m, actions + [a]) == Next(all, Run(all, m, actions), a)
    decreases |actions|
  {
    hide Next;
    if actions == [] {
      assert [a][1..] == [];
    } else {
      assert (actions + [a])[1..] == actions[1..] + [a];
      RunOneMore(all, Next(all, m, actions[0]), actions[1..], a);
    }
  }

  // ------------------------------------------------------------------ the loop itself

  /** What the commands and propagations of one run come to. */
  datatype World = World(attemptOk: (string, nat) -> bool, propagationFails: string -> bool)

  predicate StepFails(w: World, c: StepConfig) {
    match KindOf(c)
    case Commanding => forall a: nat :: 1 <= a <= MAX_ATTEMPTS ==> !w.attemptOk(c.step, a)
    case Propagating => w.propagationFails(c.step)
    case _ => false
  }

  /** The run gets no further than this entry: it fails, or hands over to a restart. */
  predicate Stops(w: World, c: StepConfig) {
    KindOf(c).Restarting? || StepFails(w, c)
  }

  /** By its flags: an entry to skip never stops a run, a restart always does, the others when what they do fails. */
  lemma StopsByFlags(w: World, c: StepConfig)
    ensures Stops(w, c) <==>
            && !(c.skip || (c.buildImage && !c.propagateToReplicas))
            && (if c.propagateToReplicas then w.propagationFails(c.step)
                else c.triggersRestart || !(w.attemptOk(c.step, 1) || w.attemptOk(c.step, 2) || w.attemptOk(c.step, 3)))
  {
  }

  function FirstStop(w: World, steps: seq<StepConfig>): (n: nat)
    ensures n <= |steps|
    ensures n < |steps| ==> Stops(w, steps[n])
    ensures forall i :: 0 <= i < n ==> !Stops(w, steps[i])
  {
    if steps == [] then 0 else if Stops(w, steps[0]) then 0 else FirstStop(w, steps[1..]) + 1
  }

  /** completedSteps after these entries, none of which failed. */
  function CompletedAfter(base: map<string, Status>, steps: seq<StepConfig>): map<string, Status> {
    if steps == [] then base
    else
      var last := steps[|steps| - 1];
      CompletedAfter(base, steps[..|steps| - 1])[
             last.step := if last.skip || (last.buildImage && !last.propagateToReplicas) then Skipped else Success]
  }

  class DeploymentService {
    /** REDIS_KEY_CURRENT, and the state object the run holds. */
    var saved: DeploymentState
    var memory: DeploymentState
    /** The same run as atomic steps, and the actions so far. */
    ghost const all: seq<StepConfig>
    ghost var machine: Machine
    ghost var actions: seq<Action>

    ghost predicate Tracks(todo: seq<StepConfig>, phase: Phase)
      reads this
    {
      && machine.saved == saved
      && machine.process == Some(Process(todo, memory, phase))
    }

    ghost predicate Tracked(from: Machine)
      reads this
    {
      machine == Run(all, from, actions) && Crash !in actions && Boot !in actions
    }

    constructor (ghost all: seq<StepConfig>, ghost machine: Machine, d: DeploymentState)
      ensures this.all == all && this.machine == machine && this.saved == d && this.memory == d && actions == []
    {
      this.all, this.machine, this.saved, this.memory, actions := all, machine, d, d, [];
    }

    ghost method Do(a: Action, from: Machine)
      requires Tracked(from) && !a.Crash? && !a.Boot?
      modifies this`machine, this`actions
      ensures Tracked(from) && machine == Next(all, old(machine), a)
    {
      RunOneMore(all, from, actions, a);
      machine := Next(all, machine, a);
      actions := actions + [a];
    }

    /**
     * runSteps(): every save is a step of the machine, so whatever holds of all its runs holds of
     * this loop cut off anywhere; uncut, it stops at the first entry that fails or restarts.
     */
    method RunSteps(steps: seq<StepConfig>, w: World)
      requires Tracks(steps, Between) && actions == []
      modifies this
      ensures Tracked(old(machine)) && machine.saved == saved && machine.process.None?
      ensures var e := FirstStop(w, steps);
              if e == |steps| then
                saved.status == Success && saved.completed == CompletedAfter(old(memory).completed, steps)
              else if steps[e].triggersRestart && !steps[e].propagateToReplicas then
                && saved.status == old(memory).status
                && saved.current.step == steps[e].step && saved.current.status == Success
                && saved.completed == CompletedAfter(old(memory).completed, steps[..e + 1])
              else
                && saved.status == Failed
                && saved.completed == CompletedAfter(old(memory).completed, steps[..e])[steps[e].step := Failed]
    {
      hide Next, Act, Booted, StepFails;
      ghost var from := machine;
      ghost var base := memory.completed;
      var i := 0;
      assert steps[0..] == steps;
      while i < |steps|
        invariant 0 <= i <= FirstStop(w, steps)
        invariant Tracks(steps[i..], Between) && Tracked(from)
        invariant memory.completed == CompletedAfter(base, steps[..i]) && memory.status == old(memory).status
      {
        assert steps[i..][0] == steps[i] && steps[i..][1..] == steps[i + 1..];
        assert steps[..i + 1][..i] == steps[..i];
        var stop := RunEntry(steps[i], steps[i..], w, from);
        if stop {
          StopsByFlags(w, steps[i]);
          return;
        }
        i := i + 1;
      }
      assert steps[..i] == steps && steps[i..] == [];
      EndRun(Success, from);
    }

    /** The last two lines of a run: the deployment's own status, saved. */
    method EndRun(status: Status, ghost from: Machine)
      requires Tracked(from)
      requires (status == Success && Tracks([], Between))
            || (status == Failed && machine.process.Some? && machine.process.value.phase == Failing
                && machine.process.value.memory == memory)
      modifies this
      ensures Tracked(from) && machine.saved == saved && machine.process.None?
      ensures saved == old(memory).(status := status)
    {
      hide Run, Booted;
      memory := memory.(status := status);
      saved := memory;
      Do(if status == Success then Finish else FailDeployment, from);
    }

    /** The body of the loop over the steps. */
    method RunEntry(c: StepConfig, ghost todo: seq<StepConfig>, w: World, ghost from: Machine) returns (stop: bool)
      requires todo != [] && todo[0] == c && Tracks(todo, Between) && Tracked(from)
      modifies this
      ensures Tracked(from) && stop == Stops(w, c)
      ensures !stop ==> Tracks(todo[1..], Between) && memory.status == old(memory).status
      ensures !stop ==>
              memory.completed == old(memory).completed[c.step := if KindOf(c).Skipping? then Skipped else Success]
      ensures stop ==> machine.saved == saved && machine.process.None?
      ensures stop && KindOf(c).Restarting? ==>
        && saved.status == old(memory).status && saved.current.step == c.step && saved.current.status == Success
        && saved.completed == old(memory).completed[c.step := Success]
      ensures stop && !KindOf(c).Restarting? ==>
        saved.status == Failed && saved.completed == old(memory).completed[c.step := Failed]
    {
      hide Next, Act, Run, Booted, Tracked;
      match KindOf(c) {
        case Skipping =>
          PassOverStep(c, todo, from);
          stop := false;
        case Restarting =>
          BeginStep(c, todo, from);
          HandOver(c, todo, from);
          stop := true;
        case Propagating =>
          BeginStep(c, todo, from);
          stop := Propagate(c, todo, w, from);
          if stop {
            EndRun(Failed, from);
          }
        case Commanding =>
          BeginStep(c, todo, from);
          stop := RunCommand(c, todo, w, from);
          if stop {
            EndRun(Failed, from);
          }
      }
    }

    method PassOverStep(c: StepConfig, ghost todo: seq<StepConfig>, ghost from: Machine)
      requires todo != [] && todo[0] == c && KindOf(c).Skipping? && Tracks(todo, Between) && Tracked(from)
      modifies this
      ensures Tracks(todo[1..], Between) && Tracked(from)
      ensures memory.status == old(memory).status && memory.completed == old(memory).completed[c.step := Skipped]
    {
      hide Run, Booted;
      memory := WithStatus(memory.(current := memory.current.(step := c.step, status := Skipped)), Skipped);
      saved := memory;
      Do(PassOver, from);
    }

    /** The save that marks an entry as running. */
    method BeginStep(c: StepConfig, ghost todo: seq<StepConfig>, ghost from: Machine)
      requires todo != [] && todo[0] == c && !KindOf(c).Skipping? && Tracks(todo, Between) && Tracked(from)
      modifies this
      ensures Tracks(todo, InStep) && Tracked(from)
      ensures memory.status == old(memory).status && memory.completed == old(memory).completed
      ensures memory.current.step == c.step && (!KindOf(c).Restarting? ==> memory.current.attempt == 1)
    {
      hide Run, Booted;
      var attempt := if KindOf(c).Restarting? then memory.current.attempt else 1;
      memory := memory.(current := StepState(c.step, Running, attempt));
      saved := memory;
      Do(Start, from);
    }

    /** A restart step is saved as a success before the restart is set off. */
    method HandOver(c: StepConfig, ghost todo: seq<StepConfig>, ghost from: Machine)
      requires todo != [] && todo[0] == c && KindOf(c).Restarting? && Tracks(todo, InStep) && Tracked(from)
      requires memory.current.step == c.step
      modifies this
      ensures Tracked(from) && machine.saved == saved && machine.process.None?
      ensures saved == WithStatus(old(memory), Success)
    {
      hide Run, Booted;
      memory := WithStatus(memory, Success);
      saved := memory;
      Do(Succeed, from);
      Do(Exit, from);
    }

    /** runPropagateStep, whose outcome is the world's. */
    method Propagate(c: StepConfig, ghost todo: seq<StepConfig>, w: World, ghost from: Machine) returns (failed: bool)
      requires todo != [] && todo[0] == c && KindOf(c).Propagating? && Tracks(todo, InStep) && Tracked(from)
      requires memory.current.step == c.step
      modifies this
      ensures Tracked(from) && failed == StepFails(w, c)
      ensures memory.status == old(memory).status
              && memory.completed == old(memory).completed[c.step := if failed then Failed else Success]
      ensures if failed then Tracks(todo, Failing) else Tracks(todo[1..], Between)
    {
      hide Run, Booted;
      failed := w.propagationFails(c.step);
      memory := WithStatus(memory, if failed then Failed else Success);
      saved := memory;
      Do(if failed then FailStep else Succeed, from);
    }

    /** The retry loop of a command. */
    method RunCommand(c: StepConfig, ghost todo: seq<StepConfig>, w: World, ghost from: Machine) returns (failed: bool)
      requires todo != [] && todo[0] == c && KindOf(c).Commanding? && Tracks(todo, InStep) && Tracked(from)
      requires memory.current.step == c.step && memory.current.attempt == 1
      modifies this
      ensures Tracked(from) && failed == StepFails(w, c)
      ensures memory.status == old(memory).status
              && memory.completed == old(memory).completed[c.step := if failed then Failed else Success]
      ensures if failed then machine.process == Some(Process(todo, memory, Failing)) else Tracks(todo[1..], Between)
    {
      hide Run, Booted;
      while true
        invariant Tracks(todo, InStep) && Tracked(from)
        invariant memory.status == old(memory).status && memory.completed == old(memory).completed
        invariant memory.current.step == c.step && 1 <= memory.current.attempt <= MAX_ATTEMPTS
        invariant forall a: nat :: 1 <= a < memory.current.attempt ==> !w.attemptOk(c.step, a)
        decreases MAX_ATTEMPTS - memory.current.attempt
      {
        if w.attemptOk(c.step, memory.current.attempt) {
          memory := WithStatus(memory, Success);
          saved := memory;
          Do(Succeed, from);
          return false;
        }
        if memory.current.attempt < MAX_ATTEMPTS {
          memory := memory.(current := memory.current.(attempt := memory.current.attempt + 1));
          saved := memory;
          Do(Retry, from);
        } else {
          memory := WithStatus(memory, Failed);
          Do(FailStep, from);
          return true;
        }
      }
    }
  }
}
