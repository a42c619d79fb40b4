/**
 * Both ends together: the grammar of a runner's trace, and what the master may conclude from the
 * part of it that the link delivered.
 */
module Protocol {
  import opened Options
  import opened ReplicaLink
  import opened Runner
  import opened Propagation
  import opened PropagationLaws

  // ------------------------------------------------------------------ the trace grammar

  /** The ids announced by step_start frames, in order. */
  function Starts(fs: seq<Frame>): seq<string> {
    if fs == [] then []
    else Starts(fs[..|fs| - 1]) + match fs[|fs| - 1] {
      case StepStart(_, Some(id)) => [id]
      case _ => []
    }
  }

  function OutputText(fs: seq<Frame>): string {
    if fs == [] then ""
    else OutputText(fs[..|fs| - 1]) + if fs[|fs| - 1].StepOutput? then fs[|fs| - 1].output else ""
  }

  function Texts(logs: seq<StepLog>): string {
    if logs == [] then "" else Texts(logs[..|logs| - 1]) + logs[|logs| - 1].text
  }

  function StepIds(pipeline: seq<PipelineStep>): seq<string> {
    seq(|pipeline|, i requires 0 <= i < |pipeline| => pipeline[i].step)
  }

  lemma {:induction false} StartsDistribute(a: seq<Frame>, b: seq<Frame>)
    ensures Starts(a + b) == Starts(a) + Starts(b)
  {
    if b == [] {
      assert a + b == a;
    } else {
      var all, init := a + b, b[..|b| - 1];
      assert all[..|all| - 1] == a + init && all[|all| - 1] == b[|b| - 1];
      StartsDistribute(a, init);
    }
  }

  lemma {:induction false} OutputTextDistributes(a: seq<Frame>, b: seq<Frame>)
    ensures OutputText(a + b) == OutputText(a) + OutputText(b)
  {
    if b == [] {
      assert a + b == a;
    } else {
      var all, init := a + b, b[..|b| - 1];
      assert all[..|all| - 1] == a + init && all[|all| - 1] == b[|b| - 1];
      OutputTextDistributes(a, init);
    }
  }

  lemma Distribute(a: seq<Frame>, b: seq<Frame>)
    ensures Starts(a + b) == Starts(a) + Starts(b)
    ensures OutputText(a + b) == OutputText(a) + OutputText(b)
  {
    hide Starts, OutputText;
    StartsDistribute(a, b);
    OutputTextDistributes(a, b);
  }

  lemma {:induction false} OutputsOnly(runId: string, step: string, chunks: seq<string>)
    ensures Starts(Outputs(runId, step, chunks)) == []
    ensures OutputText(Outputs(runId, step, chunks)) == Joined(chunks)
  {
    if chunks != [] {
      var n := |chunks| - 1;
      OutputsOnly(runId, step, chunks[..n]);
      assert Outputs(runId, step, chunks)[..n] == Outputs(runId, step, chunks[..n]);
    }
  }

  lemma BlockShape(runId: string, s: PipelineStep, log: StepLog)
    ensures Starts(Block(runId, s, log)) == [s.step]
    ensures OutputText(Block(runId, s, log)) == Joined(log.chunks)
  {
    var start := [StepStart(runId, Some(s.step))];
    var complete := [StepComplete(runId, Some(s.step), log.error.Some?, log.error)];
    var out := Outputs(runId, s.step, log.chunks);
    OutputsOnly(runId, s.step, log.chunks);
    assert start[..0] == [] && complete[..0] == [];
    Distribute(start, out);
    Distribute(start + out, complete);
  }

  lemma {:induction false} BlocksShape(runId: string, pipeline: seq<PipelineStep>, logs: seq<StepLog>)
    requires RanInOrder(pipeline, logs)
    ensures Starts(Blocks(runId, pipeline, logs)) == StepIds(pipeline[..|logs|])
    ensures OutputText(Blocks(runId, pipeline, logs)) == Texts(logs)
  {
    if logs != [] {
      var n := |logs| - 1;
      BlocksShape(runId, pipeline, logs[..n]);
      BlockShape(runId, pipeline[n], logs[n]);
      Distribute(Blocks(runId, pipeline, logs[..n]), Block(runId, pipeline[n], logs[n]));
      assert StepIds(pipeline[..n + 1]) == StepIds(pipeline[..n]) + [pipeline[n].step];
    }
  }

  /** How many steps a run announced: those that ended, and the restart step if it was reached. */
  function Reached(r: RunRecord): nat {
    |r.logs| + if r.ending.RestartSent? then 1 else 0
  }

  lemma SingletonShape(f: Frame)
    ensures Starts([f]) == match f { case StepStart(_, Some(id)) => [id] case _ => [] }
    ensures OutputText([f]) == if f.StepOutput? then f.output else ""
  {
    assert [f][..0] == [];
  }

  lemma ClosingShape(r: FinishedRun)
    ensures Starts(Closing(r)) == if r.ending.RestartSent? then [r.pipeline[|r.logs|].step] else []
    ensures OutputText(Closing(r)) == if r.ending.RestartSent? then r.ending.restartLine else ""
  {
    if r.ending.RestartSent? {
      var line := r.ending.restartLine;
      var log := StepLog([line], line, None);
      BlockShape(r.runId, r.pipeline[|r.logs|], log);
      assert [line][..0] == [];
      SingletonShape(Finished(r.runId, true, true, None));
      Distribute(Block(r.runId, r.pipeline[|r.logs|], log), [Finished(r.runId, true, true, None)]);
    } else {
      SingletonShape(Closing(r)[0]);
    }
  }

  lemma PrefixShape(r: FinishedRun)
    ensures Starts(Prefix(r.runId, r.header, r.pipeline, r.logs)) == StepIds(r.pipeline[..|r.logs|])
    ensures OutputText(Prefix(r.runId, r.header, r.pipeline, r.logs)) == r.header + Texts(r.logs)
  {
    BlocksShape(r.runId, r.pipeline, r.logs);
    SingletonShape(Opening(r.runId, r.header, r.pipeline)[0]);
    Distribute(Opening(r.runId, r.header, r.pipeline), Blocks(r.runId, r.pipeline, r.logs));
  }

  /** Steps are announced in pipeline order without a gap, and no pushed text is lost or repeated. */
  lemma TraceAnnouncesAPipelinePrefix(r: FinishedRun)
    ensures Reached(r) <= |r.pipeline| && Starts(RunTrace(r)) == StepIds(r.pipeline[..Reached(r)])
    ensures OutputText(RunTrace(r))
         == r.header + Texts(r.logs) + if r.ending.RestartSent? then r.ending.restartLine else ""
  {
    hide Starts, OutputText, Texts, Prefix, Closing;
    PrefixShape(r);
    ClosingShape(r);
    Distribute(Prefix(r.runId, r.header, r.pipeline, r.logs), Closing(r));
    if r.ending.RestartSent? {
      var n := |r.logs|;
      assert StepIds(r.pipeline[..n + 1]) == StepIds(r.pipeline[..n]) + [r.pipeline[n].step];
    }
  }

  predicate Failing(f: Frame) {
    f.StepComplete? && f.failed
  }

  predicate NoFinish(fs: seq<Frame>) {
    forall k :: 0 <= k < |fs| ==> !fs[k].Finished?
  }

  lemma BlockFrames(runId: string, s: PipelineStep, log: StepLog)
    ensures NoFinish(Block(runId, s, log)) && forall f :: f in Block(runId, s, log) ==> f.runId == runId
    ensures (exists f :: f in Block(runId, s, log) && Failing(f)) <==> log.error.Some?
  {
    var block := Block(runId, s, log);
    var last := StepComplete(runId, Some(s.step), log.error.Some?, log.error);
    assert block[|block| - 1] == last;
    assert forall f :: f in block && Failing(f) ==> f == last;
    assert last in block;
  }

  lemma {:induction false} BlocksFrames(runId: string, pipeline: seq<PipelineStep>, logs: seq<StepLog>)
    requires |logs| <= |pipeline|
    ensures NoFinish(Blocks(runId, pipeline, logs))
    ensures forall f :: f in Blocks(runId, pipeline, logs) ==> f.runId == runId
    ensures (exists f :: f in Blocks(runId, pipeline, logs) && Failing(f)) <==>
            (exists i :: 0 <= i < |logs| && logs[i].error.Some?)
  {
    hide Block, Failing;
    if logs != [] {
      var n := |logs| - 1;
      var before, block := Blocks(runId, pipeline, logs[..n]), Block(runId, pipeline[n], logs[n]);
      BlocksFrames(runId, pipeline, logs[..n]);
      BlockFrames(runId, pipeline[n], logs[n]);
      assert forall f :: f in before + block <==> f in before || f in block;
      assert (exists i :: 0 <= i < |logs| && logs[i].error.Some?) <==>
             (exists i :: 0 <= i < n && logs[..n][i].error.Some?) || logs[n].error.Some? by {
        assert forall i :: 0 <= i < n ==> logs[..n][i] == logs[i];
      }
    }
  }

  /** Exactly one finished frame, the last; it is ok exactly when no completed step failed. */
  lemma TraceEndsOnce(r: FinishedRun)
    ensures var t := RunTrace(r);
            && t != [] && t[|t| - 1].Finished?
            && (forall k :: 0 <= k < |t| - 1 ==> !t[k].Finished?)
            && (forall f :: f in t ==> f.runId == r.runId)
            && (t[|t| - 1].ok <==> !exists f :: f in t && Failing(f))
            && (t[|t| - 1].restarting <==> r.ending.RestartSent?)
            && (t[|t| - 1].ok <==> !r.ending.FailedStep?)
            && t[|t| - 1].error == if r.ending.FailedStep? then Some(r.ending.error) else None
  {
    hide Blocks, Outputs;
    var t := RunTrace(r);
    BlocksFrames(r.runId, r.pipeline, r.logs);
    if r.ending.RestartSent? {
      RestartCloses(r);
    }
    assert t[|t| - 1] == Closing(r)[|Closing(r)| - 1];
    assert forall f :: f in t <==>
      f in Opening(r.runId, r.header, r.pipeline) || f in Blocks(r.runId, r.pipeline, r.logs) || f in Closing(r);
    if r.ending.FailedStep? {
      assert r.logs[|r.logs| - 1].error.Some?;
    } else {
      assert forall i :: 0 <= i < |r.logs| ==> r.logs[i].error.None?;
    }
  }

  /** A run still in progress has sent a prefix of a well-formed trace. */
  lemma InFlightIsAPrefix(runId: string, header: string, pipeline: seq<PipelineStep>, logs: seq<StepLog>,
                          chunks: seq<string>)
    returns (r: FinishedRun)
    requires |logs| < |pipeline| && RanInOrder(pipeline, logs) && !pipeline[|logs|].triggersRestart
    requires logs != [] ==> logs[|logs| - 1].error.None?
    ensures r.runId == runId && r.pipeline == pipeline && r.ending.FailedStep?
    ensures Prefix(runId, header, pipeline, logs) + InFlight(runId, pipeline[|logs|], chunks) <= RunTrace(r)
  {
    var log := StepLog(chunks, Joined(chunks), Some("killed"));
    RanInOrderSnoc(pipeline, logs, log);
    PrefixGrows(runId, header, pipeline, logs, log);
    r := RunRecord(runId, header, pipeline, logs + [log], FailedStep("killed"));
  }

  // ------------------------------------------------------------------ what success means

  predicate DistinctSteps(pipeline: seq<PipelineStep>) {
    forall i, j :: 0 <= i < j < |pipeline| ==> pipeline[i].step != pipeline[j].step
  }

  predicate RestartIsLast(pipeline: seq<PipelineStep>) {
    forall i :: 0 <= i < |pipeline| - 1 ==> !pipeline[i].triggersRestart
  }

  function StateOf(s: PipelineStep, status: StepStatus, error: Option<string>): StepState {
    StepState(s.step, s.name, status, error)
  }

  /** The timeline after the steps of `logs`, the others still pending. */
  function Timeline(pipeline: seq<PipelineStep>, logs: seq<StepLog>): seq<StepState>
    requires |logs| <= |pipeline|
  {
    seq(|pipeline|, i requires 0 <= i < |pipeline| =>
      if i >= |logs| then StateOf(pipeline[i], StepPending, None)
      else StateOf(pipeline[i], if logs[i].error.Some? then StepFailed else StepSuccess, logs[i].error))
  }

  lemma {:induction false} FoldStepsSplit(steps: seq<StepState>, a: seq<Frame>, b: seq<Frame>)
    ensures FoldSteps(steps, a + b) == FoldSteps(FoldSteps(steps, a), b)
  {
    if b == [] {
      assert a + b == a;
    } else {
      assert (a + b)[..|a + b| - 1] == a + b[..|b| - 1];
      FoldStepsSplit(steps, a, b[..|b| - 1]);
    }
  }

  lemma {:induction false} OutputsLeaveSteps(steps: seq<StepState>, runId: string, step: string, chunks: seq<string>)
    ensures FoldSteps(steps, Outputs(runId, step, chunks)) == steps
  {
    if chunks != [] {
      var n := |chunks| - 1;
      assert Outputs(runId, step, chunks)[..n] == Outputs(runId, step, chunks[..n]);
      OutputsLeaveSteps(steps, runId, step, chunks[..n]);
    }
  }

  lemma BlockOnTimeline(runId: string, pipeline: seq<PipelineStep>, logs: seq<StepLog>, log: StepLog)
    requires |logs| < |pipeline| && DistinctSteps(pipeline)
    ensures FoldSteps(Timeline(pipeline, logs), Block(runId, pipeline[|logs|], log)) == Timeline(pipeline, logs + [log])
  {
    hide Outputs, IndexOfStep;
    var n, steps := |logs|, Timeline(pipeline, logs);
    var s := pipeline[n];
    var start := [StepStart(runId, Some(s.step))];
    var complete := [StepComplete(runId, Some(s.step), log.error.Some?, log.error)];
    var out := Outputs(runId, s.step, log.chunks);
    assert start[..0] == [] && complete[..0] == [];
    assert steps[n].step == s.step;
    assert IndexOfStep(steps, s.step) == n;
    var running := steps[n := steps[n].(status := StepRunning)];
    assert FoldSteps(steps, start) == running;
    FoldStepsSplit(steps, start, out);
    OutputsLeaveSteps(running, runId, s.step, log.chunks);
    FoldStepsSplit(steps, start + out, complete);
    assert running[n].step == s.step;
    assert IndexOfStep(running, s.step) == n;
    assert FoldSteps(running, complete) == Timeline(pipeline, logs + [log]);
  }

  lemma {:induction false} BlocksOnTimeline(runId: string, pipeline: seq<PipelineStep>, logs: seq<StepLog>)
    requires |logs| <= |pipeline| && DistinctSteps(pipeline)
    ensures FoldSteps(Timeline(pipeline, []), Blocks(runId, pipeline, logs)) == Timeline(pipeline, logs)
  {
    if logs != [] {
      var n := |logs| - 1;
      var before, log := logs[..n], logs[n];
      assert logs == before + [log];
      BlocksOnTimeline(runId, pipeline, before);
      BlocksSnoc(runId, pipeline, before, log);
      FoldStepsSplit(Timeline(pipeline, []), Blocks(runId, pipeline, before), Block(runId, pipeline[n], log));
      BlockOnTimeline(runId, pipeline, before, log);
    }
  }

  /** The logs of a run, with the restart step counted as a completed one. */
  function AllLogs(r: FinishedRun): (logs: seq<StepLog>)
    ensures |logs| <= |r.pipeline|
  {
    r.logs + match r.ending {
      case RestartSent(line) => [StepLog([line], line, None)]
      case _ => []
    }
  }

  lemma SingletonOnSteps(steps: seq<StepState>, f: Frame)
    ensures FoldSteps(steps, [f]) == ApplyToSteps(steps, f)
  {
    assert [f][..0] == [];
  }

  lemma ClosingOnTimeline(r: FinishedRun)
    requires DistinctSteps(r.pipeline)
    ensures FoldSteps(Timeline(r.pipeline, r.logs), Closing(r)) == Timeline(r.pipeline, AllLogs(r))
  {
    if r.ending.RestartSent? {
      var log := StepLog([r.ending.restartLine], r.ending.restartLine, None);
      var fin := Finished(r.runId, true, true, None);
      FoldStepsSplit(Timeline(r.pipeline, r.logs), Block(r.runId, r.pipeline[|r.logs|], log), [fin]);
      BlockOnTimeline(r.runId, r.pipeline, r.logs, log);
      SingletonOnSteps(Timeline(r.pipeline, r.logs + [log]), fin);
    } else {
      SingletonOnSteps(Timeline(r.pipeline, r.logs), Closing(r)[0]);
      assert AllLogs(r) == r.logs;
    }
  }

  /** A trace delivered whole shows, on the master, exactly what each step of the run did. */
  lemma WholeTraceOnTimeline(r: FinishedRun)
    requires DistinctSteps(r.pipeline)
    ensures FoldSteps(Timeline(r.pipeline, []), RunTrace(r)) == Timeline(r.pipeline, AllLogs(r))
  {
    var initial := Timeline(r.pipeline, []);
    var opening := Opening(r.runId, r.header, r.pipeline);
    SingletonOnSteps(initial, opening[0]);
    FoldStepsSplit(initial, opening, Blocks(r.runId, r.pipeline, r.logs));
    BlocksOnTimeline(r.runId, r.pipeline, r.logs);
    FoldStepsSplit(initial, Prefix(r.runId, r.header, r.pipeline, r.logs), Closing(r));
    ClosingOnTimeline(r);
  }

  lemma {:induction false} GotIsAFrame(es: seq<LocalEvent>, j: nat)
    requires j < |es| && es[j].Got?
    ensures es[j].frame in Frames(es)
  {
    if j < |es| - 1 {
      GotIsAFrame(es[..|es| - 1], j);
    }
  }

  /** A finished frame among the delivered ones can only be the last of the whole trace. */
  lemma FinishedFrameIsTheLast(run: FinishedRun, es: seq<LocalEvent>, j: nat)
    requires Frames(es) <= RunTrace(run) && j < |es| && es[j].Got? && es[j].frame.Finished?
    ensures Frames(es) == RunTrace(run)
    ensures es[j].frame.ok <==> !run.ending.FailedStep?
    ensures es[j].frame.restarting <==> run.ending.RestartSent?
  {
    hide RunTrace, Frames;
    var t := RunTrace(run);
    TraceEndsOnce(run);
    GotIsAFrame(es, j);
    var k :| 0 <= k < |Frames(es)| && Frames(es)[k] == es[j].frame;
    assert k == |t| - 1;
  }

  lemma WholeTraceOfASuccess(run: FinishedRun)
    requires DistinctSteps(run.pipeline) && RestartIsLast(run.pipeline) && !run.ending.FailedStep?
    ensures FoldSteps(Timeline(run.pipeline, []), RunTrace(run)) == AllSucceeded(run.pipeline)
  {
    WholeTraceOnTimeline(run);
    assert |AllLogs(run)| == |run.pipeline|;
  }

  function AllSucceeded(pipeline: seq<PipelineStep>): seq<StepState> {
    seq(|pipeline|, i requires 0 <= i < |pipeline| => StateOf(pipeline[i], StepSuccess, None))
  }

  /**
   * The master's success is real. If the frames it received from a replica are any prefix of what
   * that replica's runner sends for this order, success means the whole trace arrived, no step
   * failed, every step of the acknowledged pipeline shows success, and an announced restart was
   * followed by a reconnect.
   */
  lemma SuccessMeansEveryStepSucceeded(c: Config, r: DispatchResult, now: int, run: FinishedRun, es: seq<LocalEvent>)
    requires r.ack.Some? && r.ack.value.accepted && r.ack.value.steps == Infos(run.pipeline)
    requires DistinctSteps(run.pipeline) && RestartIsLast(run.pipeline)
    requires Frames(es) <= RunTrace(run)
    requires FoldLocal(c, Direct(c, r, now), es).run.status == Success
    ensures Frames(es) == RunTrace(run) && !run.ending.FailedStep?
    ensures FoldLocal(c, Direct(c, r, now), es).run.steps == AllSucceeded(run.pipeline)
    ensures run.ending.RestartSent? ==> exists i, j :: 0 <= i < j < |es| && Announces(es[i]) && es[j].Reconnected?
  {
    hide RunTrace, FoldLocal, FoldSteps, Timeline, AllSucceeded, Frames, Direct;
    SuccessIsProven(c, r, now, es);
    if j: nat :| j < |es| && Reports(es[j]) && es[j].frame.ok {
      FinishedFrameIsTheLast(run, es, j);
    } else {
      var i: nat, j: nat :| i < j < |es| && Announces(es[i]) && es[j].Reconnected?;
      FinishedFrameIsTheLast(run, es, i);
    }
    StepsAreTheFoldOfFrames(c, Direct(c, r, now), es);
    AcknowledgedSteps(c, r, now, run.pipeline);
    WholeTraceOfASuccess(run);
  }

  lemma AcknowledgedSteps(c: Config, r: DispatchResult, now: int, pipeline: seq<PipelineStep>)
    requires r.ack.Some? && r.ack.value.accepted && r.ack.value.steps == Infos(pipeline)
    ensures Direct(c, r, now).run.steps == Timeline(pipeline, [])
  {
  }

  /** The same, for one replica of a whole run with every other replica interleaved. */
  lemma SuccessInARunMeansEveryStepSucceeded(
      c: Config, pre: seq<Event>, results: seq<DispatchResult>, now: int, post: seq<Event>, i: nat, run: FinishedRun)
    requires Observed(c, pre, results, now, post) && i < |results|
    requires |WholeRun(c, pre, results, now, post).replicas| == |results|
    requires WholeRun(c, pre, results, now, post).replicas[i].run.status == Success
    requires results[i].ack.Some? ==> results[i].ack.value.steps == Infos(run.pipeline)
    requires DistinctSteps(run.pipeline) && RestartIsLast(run.pipeline)
    requires Frames(OwnFrames(c, results[i].replica, now, pre) + Own(c, results[i].replica, post)) <= RunTrace(run)
    ensures !run.ending.FailedStep?
    ensures WholeRun(c, pre, results, now, post).replicas[i].run.steps == AllSucceeded(run.pipeline)
    ensures var own := OwnFrames(c, results[i].replica, now, pre) + Own(c, results[i].replica, post);
            && Frames(own) == RunTrace(run)
            && (run.ending.RestartSent? ==>
                exists j, k :: 0 <= j < k < |own| && Announces(own[j]) && own[k].Reconnected?)
  {
    var own := OwnFrames(c, results[i].replica, now, pre) + Own(c, results[i].replica, post);
    BufferingRefinesDirectDelivery(c, pre, results, now, post, i);
    SuccessIsProven(c, results[i], now, own);
    SuccessMeansEveryStepSucceeded(c, results[i], now, run, own);
  }

  // ------------------------------------------------------------------ the log, end to end

  /** Before any finished frame or timer, what is said is the text the frames carry. */
  lemma {:induction false} LogOfPlainEvents(c: Config, es: seq<LocalEvent>)
    requires forall e :: e in es ==> !e.TimerFired? && (e.Got? ==> !e.frame.Finished?)
    ensures Undecided(es) && !Announced(es) && EventText(c, es) == OutputText(Frames(es))
  {
    forall j | 0 <= j < |es| ensures !Decisive(es, j) {
      assert es[j] in es;
      assert !Announced(es[..j]);
    }
    if es != [] {
      var before, e := es[..|es| - 1], es[|es| - 1];
      LogOfPlainEvents(c, before);
      if e.Got? {
        assert Frames(es)[..|Frames(es)| - 1] == Frames(before);
      } else {
        assert Frames(es) == Frames(before);
      }
    }
  }

  /** What the log ends with once the runner has closed its trace. */
  function ClosingText(c: Config, run: FinishedRun, late: seq<LocalEvent>): string {
    if !run.ending.RestartSent? then ""
    else
      run.ending.restartLine + c.waitingLine
      + if late == [] then "" else if late[0].Reconnected? then c.reconnectedLine else c.graceReason + ".\n"
  }

  /** A delivered trace ends with its finished frame, which no other event of it is. */
  lemma OnlyTheLastFrameFinishes(run: FinishedRun, es: seq<LocalEvent>)
    requires es != [] && es[|es| - 1].Got? && Frames(es) == RunTrace(run)
    requires forall e :: e in es ==> !e.TimerFired?
    ensures forall e :: e in es[..|es| - 1] ==> !e.TimerFired? && (e.Got? ==> !e.frame.Finished?)
    ensures es[|es| - 1].frame.Finished?
    ensures es[|es| - 1].frame.restarting <==> run.ending.RestartSent?
    ensures OutputText(Frames(es[..|es| - 1])) == OutputText(RunTrace(run))
  {
    hide RunTrace;
    var before, last, t := es[..|es| - 1], es[|es| - 1], RunTrace(run);
    TraceEndsOnce(run);
    assert t == Frames(before) + [last.frame];
    Distribute(Frames(before), [last.frame]);
    SingletonShape(last.frame);
    forall e | e in before && e.Got? ensures !e.frame.Finished? {
      var j :| 0 <= j < |before| && before[j] == e;
      GotIsAFrame(before, j);
      var k :| 0 <= k < |t| - 1 && t[k] == e.frame;
    }
  }

  /**
   * With a trace delivered whole, among any reconnects and before the timer, the log shown is the
   * tail of the header, all text pushed and, after a restart step, its line, the master's waiting
   * line and then the reconnect or the expiry, whichever comes first. Nothing else later adds to it.
   */
  lemma LogArrivesWhole(c: Config, r: DispatchResult, now: int, run: FinishedRun, es: seq<LocalEvent>,
                        late: seq<LocalEvent>)
    requires r.ack.Some? && r.ack.value.accepted && c.trimMarker != ""
    requires es != [] && es[|es| - 1].Got? && Frames(es) == RunTrace(run)
    requires forall e :: e in es ==> !e.TimerFired?
    requires OnlyReconnectsAndTimers(late)
    ensures var text := run.header + Texts(run.logs) + ClosingText(c, run, late);
            var shown := FoldLocal(c, Direct(c, r, now), es + late).run.output;
            && (|text| <= 65536 ==> shown == text)
            && (|text| > 65536 ==> shown == c.trimMarker + text[|text| - 65536..])
  {
    hide RunTrace, Frames, Texts, FoldLocal, EventText, ClosingText;
    LogIsWhatTheEventsSay(c, r, now, es + late);
    TextOfTheTrace(c, run, es);
    TextAfterTheTrace(c, run, es, late, run.header + Texts(run.logs));
  }

  lemma TextAfterTheTrace(c: Config, run: FinishedRun, es: seq<LocalEvent>, late: seq<LocalEvent>, text: string)
    requires EventText(c, es) == text + ClosingText(c, run, [])
    requires Undecided(es) <==> run.ending.RestartSent?
    requires Announced(es) <==> run.ending.RestartSent?
    requires OnlyReconnectsAndTimers(late)
    ensures EventText(c, es + late) == text + ClosingText(c, run, late)
  {
    hide EventText, Announced, Undecided;
    if late == [] {
      assert es + late == es;
    } else if run.ending.RestartSent? {
      assert late[0] in late && late == [late[0]] + late[1..];
      assert es + [late[0]] + late[1..] == es + late;
      TheAwaitedEventSpeaks(c, es, late[0], late[1..]);
      var spoken := if late[0].Reconnected? then c.reconnectedLine else c.graceReason + ".\n";
      assert text + (run.ending.restartLine + c.waitingLine + "") + spoken
          == text + (run.ending.restartLine + c.waitingLine + spoken);
    } else {
      DecidedSaysNothing(c, es, late);
    }
  }

  /** The text of a trace up to its finished frame, and what is then still open. */
  lemma TextOfTheTrace(c: Config, run: FinishedRun, es: seq<LocalEvent>)
    requires es != [] && es[|es| - 1].Got? && Frames(es) == RunTrace(run)
    requires forall e :: e in es ==> !e.TimerFired?
    ensures EventText(c, es) == run.header + Texts(run.logs) + ClosingText(c, run, [])
    ensures Undecided(es) <==> run.ending.RestartSent?
    ensures Announced(es) <==> run.ending.RestartSent?
  {
    hide RunTrace, Frames, Texts, EventText;
    var before, last := es[..|es| - 1], es[|es| - 1];
    OnlyTheLastFrameFinishes(run, es);
    LogOfPlainEvents(c, before);
    TraceAnnouncesAPipelinePrefix(run);
    TextOfOneMore(c, es);
    if run.ending.RestartSent? {
      assert Announces(last);
      StillUndecided(es);
    } else {
      assert Decisive(es, |es| - 1);
      NotAnnounced(es);
    }
  }

  lemma NotAnnounced(es: seq<LocalEvent>)
    requires es != [] && !Announced(es[..|es| - 1]) && !Announces(es[|es| - 1])
    ensures !Announced(es)
  {
    forall i | 0 <= i < |es| ensures !Announces(es[i]) {
      if i < |es| - 1 {
        assert !Announces(es[..|es| - 1][i]);
      }
    }
  }

  /** While a reconnect is awaited, the first reconnect or expiry speaks, and nothing after it. */
  lemma TheAwaitedEventSpeaks(c: Config, es: seq<LocalEvent>, e: LocalEvent, later: seq<LocalEvent>)
    requires Undecided(es) && Announced(es) && !e.Got? && OnlyReconnectsAndTimers(later)
    ensures EventText(c, es + [e] + later) == EventText(c, es) + if e.Reconnected? then c.reconnectedLine
            else c.graceReason + ".\n"
  {
    hide EventText, Undecided, Announced;
    assert (es + [e])[..|es|] == es;
    TextOfOneMore(c, es + [e]);
    DecidedBy(es, e);
    DecidedSaysNothing(c, es + [e], later);
  }

  lemma DecidedBy(es: seq<LocalEvent>, e: LocalEvent)
    requires Announced(es) && !e.Got?
    ensures !Undecided(es + [e])
  {
    assert (es + [e])[..|es|] == es;
    assert Decisive(es + [e], |es|);
  }

  lemma StillUndecided(es: seq<LocalEvent>)
    requires es != [] && Undecided(es[..|es| - 1]) && Announces(es[|es| - 1])
    ensures Undecided(es)
  {
    forall j | 0 <= j < |es| ensures !Decisive(es, j) {
      if j < |es| - 1 {
        assert !Decisive(es[..|es| - 1], j) && es[..|es| - 1][..j] == es[..j];
      }
    }
  }
}
