/** What a record holds when it is opened, what each event changes in it, and what it ends with, field by field. */
module PropagationRecords {
  import opened Options
  import opened ReplicaLink
  import opened Propagation
  import opened PropagationLaws

  // ------------------------------------------------------------------ as dispatched

  /** The record of a replica as the dispatch leaves it, by how the order was answered. */
  lemma AnAnswerOpensTheRecord(c: Config, r: DispatchResult, now: int)
    ensures var l := Direct(c, r, now);
            && l.run.id == r.replica.id && l.run.deviceName == r.replica.deviceName && l.run.ip == r.replica.ip
            && l.run.output == "" && l.run.currentStep == None
    ensures r.ack.None? ==>
              var l := Direct(c, r, now);
              && l.run.status == Unreachable && l.run.steps == [] && l.timer == None
              && l.run.reason == Some(if r.error.Some? then r.error.value else "No response to the deployment order")
    ensures r.ack.Some? && !r.ack.value.accepted ==>
              var l, reason := Direct(c, r, now), r.ack.value.reason;
              && l.run.status == Rejected && l.run.steps == [] && l.timer == None
              && l.run.reason == Some(if reason.Some? then reason.value else "Refused the deployment order")
    ensures r.ack.Some? && r.ack.value.accepted ==>
              var l, steps := Direct(c, r, now), r.ack.value.steps;
              && l.run.status == Running && l.run.reason == None && l.timer == Some(PipelineTimer(now + c.timeoutMs))
              && |l.run.steps| == |steps|
              && forall k :: 0 <= k < |steps| ==>
                   l.run.steps[k] == StepState(steps[k].step, steps[k].name, StepPending, None)
  {
  }

  lemma {:induction false} ATerminalRecordStays(c: Config, l: Local, es: seq<LocalEvent>)
    requires l.run.status in {Success, Failed, Rejected, Unreachable, Timeout} && l.timer.None?
    ensures var r := FoldLocal(c, l, es);
            r.run.status == l.run.status && r.run.reason == l.run.reason && r.timer.None?
  {
    if es != [] {
      ATerminalRecordStays(c, l, es[..|es| - 1]);
    }
  }

  /**
   * In every run a replica is unreachable exactly if it did not answer, and rejected exactly if it
   * answered no, whatever events come in its name.
   */
  lemma OnlyAnAcceptedOrderRuns(c: Config, pre: seq<Event>, results: seq<DispatchResult>, now: int, post: seq<Event>,
                                i: nat)
    requires Observed(c, pre, results, now, post) && i < |results|
    ensures var m, ack := WholeRun(c, pre, results, now, post), results[i].ack;
            && i < |m.replicas|
            && (m.replicas[i].run.status == Unreachable <==> ack.None?)
            && (m.replicas[i].run.status == Rejected <==> ack.Some? && !ack.value.accepted)
            && m.replicas[i].run.status != Dispatching
  {
    hide FoldLocal, Observed, WholeRun, Direct;
    var own := OwnFrames(c, results[i].replica, now, pre) + Own(c, results[i].replica, post);
    BufferingRefinesDirectDelivery(c, pre, results, now, post, i);
    AnAnswerOpensTheRecord(c, results[i], now);
    if results[i].ack.None? || !results[i].ack.value.accepted {
      ATerminalRecordStays(c, Direct(c, results[i], now), own);
    } else {
      AcceptedNeverRefused(c, results[i], now, own);
    }
  }

  lemma AcceptedNeverRefused(c: Config, r: DispatchResult, now: int, es: seq<LocalEvent>)
    requires r.ack.Some? && r.ack.value.accepted
    ensures FoldLocal(c, Direct(c, r, now), es).run.status in {Running, Restarting, Success, Failed, Timeout}
  {
    var j := DecidedOrNot(es);
    if j == |es| {
      assert es[..j] == es;
      UndecidedStatus(c, r, now, es);
    } else {
      FirstDecisiveEventIsTheVerdict(c, r, now, es, j);
    }
  }

  // ------------------------------------------------------------------ one event

  predicate HasStep(steps: seq<StepState>, id: string) {
    exists k :: 0 <= k < |steps| && steps[k].step == id
  }

  /** The id a frame is about; frames without one are about "unknown". */
  function About(step: Option<string>): string {
    if step.Some? then step.value else "unknown"
  }

  /** A start shows its step as running and current, adding it if the ack did not list it; the others stay. */
  lemma AStartIsShown(c: Config, l: Local, runId: string, step: Option<string>, at: int)
    ensures var u := LocalStep(c, l, Got(StepStart(runId, step), at));
            var id, was, steps := About(step), l.run.steps, u.run.steps;
            && u.run == l.run.(steps := steps, currentStep := Some(id)) && u.timer == l.timer
            && |steps| == |was| + (if HasStep(was, id) then 0 else 1)
            && (forall k :: 0 <= k < |was| && was[k].step != id ==> steps[k] == was[k])
            && (!HasStep(was, id) ==> steps[|was|] == StepState(id, id, StepRunning, None))
            && (HasStep(was, id) ==>
                exists k :: 0 <= k < |was| && was[k].step == id && steps[k] == was[k].(status := StepRunning))
  {
    FoundIff(l.run.steps, About(step));
  }

  /** A completion shows its step as failed or successful with its error; nothing else changes. */
  lemma ACompletionIsShown(c: Config, l: Local, runId: string, step: Option<string>, failed: bool,
                           error: Option<string>,
                           at: int)
    ensures var u := LocalStep(c, l, Got(StepComplete(runId, step, failed, error), at));
            var id, was, steps := About(step), l.run.steps, u.run.steps;
            var status := if failed then StepFailed else StepSuccess;
            && u.run == l.run.(steps := steps) && u.timer == l.timer
            && |steps| == |was| + (if HasStep(was, id) then 0 else 1)
            && (forall k :: 0 <= k < |was| && was[k].step != id ==> steps[k] == was[k])
            && (!HasStep(was, id) ==> steps[|was|] == StepState(id, id, status, error))
            && (HasStep(was, id) ==>
                  exists k ::
                      0 <= k < |was| && was[k].step == id && steps[k] == was[k].(status := status, error := error))
  {
    FoundIff(l.run.steps, About(step));
  }

  lemma FoundIff(steps: seq<StepState>, id: string)
    ensures IndexOfStep(steps, id) < |steps| <==> HasStep(steps, id)
    ensures IndexOfStep(steps + [StepState(id, id, StepPending, None)], id) ==
            if HasStep(steps, id) then IndexOfStep(steps, id) else |steps|
  {
    var more := steps + [StepState(id, id, StepPending, None)];
    assert more[|steps|].step == id;
    assert forall k :: 0 <= k < |steps| ==> more[k] == steps[k];
  }

  /** Frames of other sockets and other runs, reconnects of other devices and expiries of others change nothing. */
  lemma OnlyItsOwnEventsCount(c: Config, pre: seq<Event>, results: seq<DispatchResult>, now: int, post: seq<Event>,
                              e: Event,
                              i: nat)
    requires Observed(c, pre, results, now, post + [e]) && i < |results|
    requires var who := results[i].replica;
             match e
             case Progress(from, f, _) => from != who.id || f.runId != c.runId
             case Online(client) => client.deviceName != who.deviceName || client.ip != who.ip
             case Dispatched(_, _) => false
             case Expired(id) => id != who.id
    ensures var m, u := WholeRun(c, pre, results, now, post), WholeRun(c, pre, results, now, post + [e]);
            i < |m.replicas| && i < |u.replicas| && u.replicas[i] == m.replicas[i]
  {
    hide FoldLocal, Direct, WholeRun, Run;
    var who := results[i].replica;
    assert (post + [e])[..|post|] == post;
    ObservedPrefix(c, pre, results, now, post + [e]);
    BufferingRefinesDirectDelivery(c, pre, results, now, post, i);
    BufferingRefinesDirectDelivery(c, pre, results, now, post + [e], i);
    assert Own(c, who, post + [e]) == Own(c, who, post) + [];
    assert Own(c, who, post) + [] == Own(c, who, post);
  }

  // ------------------------------------------------------------------ how it ends

  /** The status, the reason and the empty current step that the deciding event leaves. */
  lemma TheVerdictAndItsReason(c: Config, r: DispatchResult, now: int, before: seq<LocalEvent>, e: LocalEvent,
                               after: seq<LocalEvent>)
    requires r.ack.Some? && r.ack.value.accepted && Undecided(before) && c.quietReason != "" && c.graceReason != ""
    ensures var u := FoldLocal(c, Direct(c, r, now), before + [e] + after).run;
            && (Reports(e) ==>
                  && u.status == (if e.frame.ok then Success else Failed)
                  && u.reason == if e.frame.error == Some("") then None else e.frame.error)
            && (e.Reconnected? && Announced(before) ==> u.status == Success && u.reason == None)
            && (e.TimerFired? && Announced(before) ==> u.status == Failed && u.reason == Some(c.graceReason))
            && (e.TimerFired? && !Announced(before) ==> u.status == Timeout && u.reason == Some(c.quietReason))
  {
    hide FoldLocal, Undecided, Announced;
    UndecidedRecord(c, r, now, before);
    UndecidedStatus(c, r, now, before);
    FoldKeepsWatched(c, Direct(c, r, now), before);
    FoldSnoc(c, Direct(c, r, now), before, [e]);
    FoldSplit(c, Direct(c, r, now), before + [e], after);
    if Reports(e) || e.TimerFired? || (e.Reconnected? && Announced(before)) {
      ATerminalRecordStays(c, FoldLocal(c, Direct(c, r, now), before + [e]), after);
    }
  }

  lemma {:induction false} UndecidedRecord(c: Config, r: DispatchResult, now: int, es: seq<LocalEvent>)
    requires r.ack.Some? && r.ack.value.accepted && Undecided(es)
    ensures FoldLocal(c, Direct(c, r, now), es).run.reason == None
  {
    hide LocalStep;
    if es != [] {
      var before := es[..|es| - 1];
      forall j | 0 <= j < |before| ensures !Decisive(before, j) {
        assert before[..j] == es[..j];
        assert !Decisive(es, j);
      }
      UndecidedRecord(c, r, now, before);
      UndecidedStatus(c, r, now, before);
      assert !Decisive(es, |es| - 1);
      NoReasonYet(c, FoldLocal(c, Direct(c, r, now), before), es[|es| - 1]);
    }
  }

  lemma NoReasonYet(c: Config, l: Local, e: LocalEvent)
    requires l.run.status == Running || l.run.status == Restarting
    requires !Reports(e) && !e.TimerFired? && (e.Reconnected? ==> l.run.status != Restarting)
    ensures LocalStep(c, l, e).run.reason == l.run.reason
  {
  }
}
