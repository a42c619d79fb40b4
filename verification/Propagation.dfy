/**
 * The master's side of a propagation run: one record per dispatched replica, changed by progress
 * frames, reconnects and timers. `Step` is the specification of one event on the whole run and
 * `LocalStep` what a single replica should see; PropagationHandlers has the event handlers themselves.
 */
module Propagation {
  import opened Options
  import opened ReplicaLink

  const MAX_OUTPUT_CHARS: nat := 65536

  datatype RunStatus = Dispatching | Rejected | Unreachable | Running | Restarting | Success | Failed | Timeout

  datatype StepStatus = StepPending | StepRunning | StepSuccess | StepFailed

  datatype StepState = StepState(step: string, name: string, status: StepStatus, error: Option<string>)

  datatype ReplicaRun = ReplicaRun(
    id: SocketId, deviceName: string, ip: string, status: RunStatus, reason: Option<string>,
    steps: seq<StepState>, currentStep: Option<string>, output: string)

  /** What a watcher's timer will do when it fires, and when that is. */
  datatype Timer = PipelineTimer(due: int) | RestartTimer(due: int)

  /** A replica record with its watcher's timer, if a watcher exists. */
  datatype Local = Local(run: ReplicaRun, timer: Option<Timer>)

  /** The run id, the two durations, and the fixed texts of the log: two markers, and the reasons for a timeout. */
  datatype Config = Config(
    runId: string, timeoutMs: int, graceMs: int, trimMarker: string, waitingLine: string, reconnectedLine: string,
    quietReason: string, graceReason: string)

  datatype Event =
    | Progress(from: SocketId, frame: Frame, at: int)
    | Online(client: LinkInfo)
    | Dispatched(results: seq<DispatchResult>, at: int)
    | Expired(id: SocketId)

  datatype LocalEvent = Got(frame: Frame, at: int) | Reconnected | TimerFired

  datatype Master = Master(replicas: seq<Local>, early: seq<(SocketId, Frame)>, settled: bool)

  predicate Terminal(s: RunStatus) {
    s in {Success, Failed, Rejected, Unreachable, Timeout}
  }

  // ------------------------------------------------------------------ one replica

  function TrimTo(marker: string, limit: nat, text: string): string {
    if |text| > limit then marker + text[|text| - limit..] else text
  }

  function AppendOutput(c: Config, r: ReplicaRun, text: string): ReplicaRun {
    r.(output := TrimTo(c.trimMarker, MAX_OUTPUT_CHARS, r.output + text))
  }

  function IndexOfStep(steps: seq<StepState>, id: string): (i: nat)
    ensures i <= |steps|
    ensures i < |steps| ==> steps[i].step == id
    ensures forall j :: 0 <= j < i ==> steps[j].step != id
  {
    if steps == [] || steps[0].step == id then 0 else 1 + IndexOfStep(steps[1..], id)
  }

  /** The step list with `id` present: a step the ack did not list is appended. */
  function WithStep(steps: seq<StepState>, id: string): (r: seq<StepState>)
    ensures IndexOfStep(r, id) < |r|
  {
    if IndexOfStep(steps, id) < |steps| then steps
    else
      var r := steps + [StepState(id, id, StepPending, None)];
      assert r[|steps|].step == id;
      r
  }

  function StartStep(steps: seq<StepState>, id: string): seq<StepState> {
    var r := WithStep(steps, id);
    var i := IndexOfStep(r, id);
    r[i := r[i].(status := StepRunning)]
  }

  function CompleteStep(steps: seq<StepState>, id: string, failed: bool, error: Option<string>): seq<StepState> {
    var r := WithStep(steps, id);
    var i := IndexOfStep(r, id);
    r[i := r[i].(status := if failed then StepFailed else StepSuccess, error := error)]
  }

  function Settle(l: Local, status: RunStatus, reason: Option<string>): Local {
    if Terminal(l.run.status) then l
    else
      var kept := if reason.Some? && reason.value != "" then reason else l.run.reason;
      Local(l.run.(status := status, reason := kept, currentStep := None), None)
  }

  function MarkRestarting(c: Config, l: Local, at: int): Local {
    if Terminal(l.run.status) then l
    else
      Local(AppendOutput(c, l.run.(status := Restarting, currentStep := None), c.waitingLine),
            if l.timer.Some? then Some(RestartTimer(at + c.graceMs)) else None)
  }

  function ApplyProgress(c: Config, l: Local, f: Frame, at: int): Local {
    match f
    case StepStart(_, step) =>
      var id := OrElse(step, "unknown");
      l.(run := l.run.(steps := StartStep(l.run.steps, id), currentStep := Some(id)))
    case StepOutput(_, _, output) =>
      if output == "" then l else l.(run := AppendOutput(c, l.run, output))
    case StepComplete(_, step, failed, error) =>
      l.(run := l.run.(steps := CompleteStep(l.run.steps, OrElse(step, "unknown"), failed, error)))
    case Finished(_, ok, restarting, error) =>
      if restarting then MarkRestarting(c, l, at) else Settle(l, if ok then Success else Failed, error)
  }

  function Confirm(c: Config, l: Local): Local {
    if l.run.status != Restarting then l
    else Settle(l.(run := AppendOutput(c, l.run, c.reconnectedLine)), Success, None)
  }

  function Fire(c: Config, l: Local): Local {
    match l.timer
    case None => l
    case Some(PipelineTimer(_)) =>
      Settle(l.(run := AppendOutput(c, l.run, c.quietReason + ".\n")), Timeout, Some(c.quietReason))
    case Some(RestartTimer(_)) =>
      Settle(l.(run := AppendOutput(c, l.run, c.graceReason + ".\n")), Failed, Some(c.graceReason))
  }

  function LocalStep(c: Config, l: Local, e: LocalEvent): Local {
    match e
    case Got(f, at) => ApplyProgress(c, l, f, at)
    case Reconnected => Confirm(c, l)
    case TimerFired => Fire(c, l)
  }

  function FoldLocal(c: Config, l: Local, es: seq<LocalEvent>): Local {
    if es == [] then l else LocalStep(c, FoldLocal(c, l, es[..|es| - 1]), es[|es| - 1])
  }

  // ------------------------------------------------------------------ the whole run

  /** The record built from one dispatch result, before any watcher exists. */
  function Opened(r: DispatchResult): ReplicaRun {
    var blank := ReplicaRun(r.replica.id, r.replica.deviceName, r.replica.ip, Dispatching, None, [], None, "");
    if r.ack.None? then
      blank.(status := Unreachable, reason := Some(OrElse(r.error, "No response to the deployment order")))
    else if !r.ack.value.accepted then
      blank.(status := Rejected, reason := Some(OrElse(r.ack.value.reason, "Refused the deployment order")))
    else
      blank.(status := Running,
             steps := seq(|r.ack.value.steps|, i requires 0 <= i < |r.ack.value.steps| =>
               StepState(r.ack.value.steps[i].step, r.ack.value.steps[i].name, StepPending, None)))
  }

  /** Registering the watcher: an already finished replica gets none, a restarting one the short timer. */
  function Arm(c: Config, l: Local, at: int): Local {
    l.(timer := if Terminal(l.run.status) then None
                else if l.run.status == Restarting then Some(RestartTimer(at + c.graceMs))
                else Some(PipelineTimer(at + c.timeoutMs)))
  }

  function FindReplica(ls: seq<Local>, id: SocketId): (i: nat)
    ensures i <= |ls|
    ensures i < |ls| ==> ls[i].run.id == id
    ensures forall j :: 0 <= j < i ==> ls[j].run.id != id
  {
    if ls == [] || ls[0].run.id == id then 0 else 1 + FindReplica(ls[1..], id)
  }

  function Deliver(c: Config, ls: seq<Local>, from: SocketId, f: Frame, at: int): (r: seq<Local>)
    ensures |r| == |ls|
  {
    var i := FindReplica(ls, from);
    if i < |ls| then ls[i := ApplyProgress(c, ls[i], f, at)] else ls
  }

  function Replay(c: Config, ls: seq<Local>, early: seq<(SocketId, Frame)>, at: int): (r: seq<Local>)
    ensures |r| == |ls|
  {
    if early == [] then ls
    else
      var last := early[|early| - 1];
      Deliver(c, Replay(c, ls, early[..|early| - 1], at), last.0, last.1, at)
  }

  function ArmAll(c: Config, ls: seq<Local>, at: int): seq<Local> {
    seq(|ls|, i requires 0 <= i < |ls| => Arm(c, ls[i], at))
  }

  function OpenAll(results: seq<DispatchResult>): seq<Local> {
    seq(|results|, i requires 0 <= i < |results| => Local(Opened(results[i]), None))
  }

  function ConfirmAll(c: Config, ls: seq<Local>, client: LinkInfo): seq<Local> {
    seq(|ls|, i requires 0 <= i < |ls| =>
      if ls[i].run.deviceName == client.deviceName && ls[i].run.ip == client.ip then Confirm(c, ls[i]) else ls[i])
  }

  /** `propagate` has returned (and unsubscribed): every watcher is gone. */
  predicate Done(m: Master) {
    m.settled && forall i :: 0 <= i < |m.replicas| ==> m.replicas[i].timer.None?
  }

  function Start(): Master {
    Master([], [], false)
  }

  function Step(c: Config, m: Master, e: Event): Master {
    if Done(m) then m
    else match e
      case Progress(from, f, at) =>
        if f.runId != c.runId then m
        else if FindReplica(m.replicas, from) < |m.replicas| then m.(replicas := Deliver(c, m.replicas, from, f, at))
        else if !m.settled then m.(early := m.early + [(from, f)])
        else m
      case Online(client) => m.(replicas := ConfirmAll(c, m.replicas, client))
      case Dispatched(results, at) =>
        if m.settled then m else Master(ArmAll(c, Replay(c, OpenAll(results), m.early, at), at), [], true)
      case Expired(id) =>
        var i := FindReplica(m.replicas, id);
        if i < |m.replicas| then m.(replicas := m.replicas[i := Fire(c, m.replicas[i])]) else m
  }

  function Run(c: Config, m: Master, es: seq<Event>): Master {
    if es == [] then m else Step(c, Run(c, m, es[..|es| - 1]), es[|es| - 1])
  }

  // ------------------------------------------------------------------ one replica's share of a run

  /** What one event of the run means for one replica: at most one local event. */
  function OwnEvent(c: Config, who: LinkInfo, e: Event): (r: seq<LocalEvent>)
    ensures |r| <= 1
  {
    match e
    case Progress(from, f, at) => if f.runId == c.runId && from == who.id then [Got(f, at)] else []
    case Online(client) => if client.deviceName == who.deviceName && client.ip == who.ip then [Reconnected] else []
    case Dispatched(_, _) => []
    case Expired(id) => if id == who.id then [TimerFired] else []
  }

  /** The events of a run that concern the replica `who`, once the run is settled. */
  function Own(c: Config, who: LinkInfo, es: seq<Event>): seq<LocalEvent> {
    if es == [] then [] else Own(c, who, es[..|es| - 1]) + OwnEvent(c, who, es[|es| - 1])
  }

  /**
   * The frames of `who` alone, as of `now`: what the master keeps of the time before its bookkeeping
   * exists, and replays once it does.
   */
  function OwnFrames(c: Config, who: LinkInfo, now: int, es: seq<Event>): seq<LocalEvent> {
    if es == [] then []
    else OwnFrames(c, who, now, es[..|es| - 1]) + EarlyFrame(c, who, now, es[|es| - 1])
  }

  function EarlyFrame(c: Config, who: LinkInfo, now: int, e: Event): (r: seq<LocalEvent>)
    ensures |r| <= 1
  {
    if e.Progress? && e.frame.runId == c.runId && e.from == who.id then [Got(e.frame, now)] else []
  }

  /** Direct delivery: the record opened and its timer armed before the first frame. */
  function Direct(c: Config, r: DispatchResult, now: int): Local {
    Arm(c, Local(Opened(r), None), now)
  }

  predicate NoDispatch(es: seq<Event>) {
    forall e :: e in es ==> !e.Dispatched?
  }

  predicate DistinctResults(results: seq<DispatchResult>) {
    forall i, j :: 0 <= i < j < |results| ==> results[i].replica.id != results[j].replica.id
  }

  /** The records of `ls` belong to the replicas of `results`, in order. */
  predicate Identified(ls: seq<Local>, results: seq<DispatchResult>) {
    && |ls| == |results|
    && forall i :: 0 <= i < |ls| ==> SameReplica(ls[i], results[i].replica)
  }

  predicate SameReplica(l: Local, who: LinkInfo) {
    l.run.id == who.id && l.run.deviceName == who.deviceName && l.run.ip == who.ip
  }

  /** Frames act the same before and after the watcher is registered. */
  lemma ArmCommutes(c: Config, l: Local, f: Frame, now: int)
    requires l.timer.None?
    ensures ApplyProgress(c, l, f, now).timer.None?
    ensures Arm(c, ApplyProgress(c, l, f, now), now) == ApplyProgress(c, Arm(c, l, now), f, now)
  {
  }

  lemma {:induction false} FoldSnoc(c: Config, l: Local, es: seq<LocalEvent>, tail: seq<LocalEvent>)
    requires |tail| <= 1
    ensures FoldLocal(c, l, es + tail) == if tail == [] then FoldLocal(c, l, es)
            else LocalStep(c, FoldLocal(c, l, es), tail[0])
  {
    if tail == [] {
      assert es + tail == es;
    } else {
      assert (es + tail)[..|es + tail| - 1] == es;
    }
  }

  /** Before the dispatch settles nothing exists but the buffer, which holds this run's frames in order. */
  lemma {:induction false} OnlyBuffering(c: Config, pre: seq<Event>)
    requires NoDispatch(pre)
    ensures Run(c, Start(), pre).replicas == [] && !Run(c, Start(), pre).settled
  {
    if pre != [] {
      OnlyBuffering(c, pre[..|pre| - 1]);
    }
  }

  /** Replaying the buffer gives replica `i` exactly its own buffered frames, whatever else is in it. */
  lemma {:induction false} ReplayIsOwnFrames(c: Config, pre: seq<Event>, results: seq<DispatchResult>, now: int, i: nat)
    requires NoDispatch(pre) && DistinctResults(results) && i < |results|
    ensures Identified(Replay(c, OpenAll(results), Run(c, Start(), pre).early, now), results)
    ensures Replay(c, OpenAll(results), Run(c, Start(), pre).early, now)[i].timer.None?
    ensures Arm(c, Replay(c, OpenAll(results), Run(c, Start(), pre).early, now)[i], now)
         == FoldLocal(c, Direct(c, results[i], now), OwnFrames(c, results[i].replica, now, pre))
  {
    hide Arm, ApplyProgress, Deliver, DistinctResults, FoldLocal, Direct;
    if pre == [] {
      NothingToReplay(c, results, now, i);
    } else {
      var before, e := pre[..|pre| - 1], pre[|pre| - 1];
      OnlyBuffering(c, before);
      ReplayIsOwnFrames(c, before, results, now, i);
      var m := Run(c, Start(), before);
      var ls := Replay(c, OpenAll(results), m.early, now);
      if e.Progress? && e.frame.runId == c.runId {
        var early := m.early + [(e.from, e.frame)];
        assert early[..|early| - 1] == m.early;
        assert Replay(c, OpenAll(results), early, now) == Deliver(c, ls, e.from, e.frame, now);
        DeliverIsOwn(c, ls, results, e.from, e.frame, now, i);
        ArmCommutes(c, ls[i], e.frame, now);
        FoldSnoc(c, Direct(c, results[i], now), OwnFrames(c, results[i].replica, now, before),
                 if e.from == results[i].replica.id then [Got(e.frame, now)] else []);
      } else {
        FoldSnoc(c, Direct(c, results[i], now), OwnFrames(c, results[i].replica, now, before), []);
      }
    }
  }

  lemma NothingToReplay(c: Config, results: seq<DispatchResult>, now: int, i: nat)
    requires i < |results|
    ensures Replay(c, OpenAll(results), [], now) == OpenAll(results) && Identified(OpenAll(results), results)
    ensures OpenAll(results)[i].timer.None?
            && Arm(c, OpenAll(results)[i], now) == FoldLocal(c, Direct(c, results[i], now), [])
  {
  }

  lemma DeliverIsOwn(c: Config, ls: seq<Local>, results: seq<DispatchResult>, from: SocketId, f: Frame, at: int, i: nat)
    requires Identified(ls, results) && DistinctResults(results) && i < |ls|
    ensures Identified(Deliver(c, ls, from, f, at), results)
    ensures Deliver(c, ls, from, f, at)[i] ==
            if from == results[i].replica.id then ApplyProgress(c, ls[i], f, at) else ls[i]
  {
  }

  lemma StepIsOwn(c: Config, m: Master, results: seq<DispatchResult>, e: Event, i: nat)
    requires m.settled && !Done(m) && !e.Dispatched?
    requires Identified(m.replicas, results) && DistinctResults(results) && i < |results|
    ensures Step(c, m, e).settled && Identified(Step(c, m, e).replicas, results)
    ensures var own := OwnEvent(c, results[i].replica, e);
            Step(c, m, e).replicas[i] == if own == [] then m.replicas[i] else LocalStep(c, m.replicas[i], own[0])
  {
    hide ApplyProgress, Deliver, DistinctResults;
    if e.Progress? && e.frame.runId == c.runId {
      DeliverIsOwn(c, m.replicas, results, e.from, e.frame, e.at, i);
    } else if e.Expired? {
      OneExpiry(c, m.replicas, results, e.id, i);
    }
  }

  lemma OneExpiry(c: Config, ls: seq<Local>, results: seq<DispatchResult>, id: SocketId, i: nat)
    requires Identified(ls, results) && DistinctResults(results) && i < |ls|
    ensures FindReplica(ls, id) == i <==> results[i].replica.id == id
  {
  }

  lemma DispatchOpens(c: Config, pre: seq<Event>, results: seq<DispatchResult>, now: int, i: nat)
    requires NoDispatch(pre) && DistinctResults(results) && i < |results|
    ensures var m := Step(c, Run(c, Start(), pre), Dispatched(results, now));
            && m.settled && Identified(m.replicas, results)
            && m.replicas[i] == FoldLocal(c, Direct(c, results[i], now), OwnFrames(c, results[i].replica, now, pre))
  {
    OnlyBuffering(c, pre);
    ReplayIsOwnFrames(c, pre, results, now, i);
  }

  /** The event sequence of a run: buffering, the dispatch, and what follows. */
  function WholeRun(c: Config, pre: seq<Event>, results: seq<DispatchResult>, now: int, post: seq<Event>): Master {
    Run(c, Step(c, Run(c, Start(), pre), Dispatched(results, now)), post)
  }

  /** `propagate` has not returned before the last event of `post`, so every event was observed. */
  predicate Observed(c: Config, pre: seq<Event>, results: seq<DispatchResult>, now: int, post: seq<Event>) {
    && NoDispatch(pre) && NoDispatch(post) && DistinctResults(results)
    && (post != [] ==> !Done(WholeRun(c, pre, results, now, post[..|post| - 1])))
  }

  lemma ObservedPrefix(c: Config, pre: seq<Event>, results: seq<DispatchResult>, now: int, post: seq<Event>)
    requires Observed(c, pre, results, now, post) && post != []
    ensures Observed(c, pre, results, now, post[..|post| - 1])
  {
    forall e | e in post[..|post| - 1] ensures !e.Dispatched? {
      assert e in post;
    }
  }

  /**
   * Buffering refines direct application. However frames, reconnects and timers of all replicas
   * interleave around the dispatch, the record and the timer of each dispatched replica are the
   * fold of its own frames of this run in arrival order, as if its bookkeeping had existed from
   * the start and the early ones had come when the dispatch settled. Reconnects seen before that are
   * the one thing that is not kept.
   */
  lemma {:induction false} BufferingRefinesDirectDelivery(
      c: Config, pre: seq<Event>, results: seq<DispatchResult>, now: int, post: seq<Event>, i: nat)
    requires Observed(c, pre, results, now, post) && i < |results|
    ensures var m := WholeRun(c, pre, results, now, post);
            && m.settled && Identified(m.replicas, results)
            && m.replicas[i] == FoldLocal(c, Direct(c, results[i], now),
                 OwnFrames(c, results[i].replica, now, pre) + Own(c, results[i].replica, post))
  {
    hide Step, FoldLocal, Direct, LocalStep, Identified, OwnEvent, DistinctResults;
    var who := results[i].replica;
    var early := OwnFrames(c, who, now, pre);
    if post == [] {
      DispatchOpens(c, pre, results, now, i);
      assert early + Own(c, who, post) == early;
    } else {
      var before, e := post[..|post| - 1], post[|post| - 1];
      ObservedPrefix(c, pre, results, now, post);
      BufferingRefinesDirectDelivery(c, pre, results, now, before, i);
      StepIsOwn(c, WholeRun(c, pre, results, now, before), results, e, i);
      var tail := OwnEvent(c, who, e);
      assert early + Own(c, who, post) == (early + Own(c, who, before)) + tail;
      FoldSnoc(c, Direct(c, results[i], now), early + Own(c, who, before), tail);
    }
  }
}
