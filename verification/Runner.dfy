/**
 * The replica's side of a deployment order: one run at a time, each emitting a trace of the same
 * grammar, with the command's output coalesced behind a flush timer.
 */
module Runner {
  import opened Options
  import opened ReplicaLink

  const OUTPUT_FLUSH_CHARS: nat := 8192

  /** `commandLine` is the line logged before the command's own output. */
  datatype PipelineStep = PipelineStep(step: string, name: string, commandLine: string, triggersRestart: bool)

  /** What a step's command produced: the text pushed, how it was cut into frames, and the failure. */
  datatype StepLog = StepLog(chunks: seq<string>, text: string, error: Option<string>)

  datatype Ending = Completed | FailedStep(error: string) | RestartSent(restartLine: string)

  datatype RunRecord = RunRecord(
    runId: string, header: string, pipeline: seq<PipelineStep>, logs: seq<StepLog>, ending: Ending)

  // ------------------------------------------------------------------ the grammar of a run

  function Joined(chunks: seq<string>): string {
    if chunks == [] then "" else Joined(chunks[..|chunks| - 1]) + chunks[|chunks| - 1]
  }

  function Outputs(runId: string, step: string, chunks: seq<string>): seq<Frame> {
    seq(|chunks|, i requires 0 <= i < |chunks| => StepOutput(runId, Some(step), chunks[i]))
  }

  function Block(runId: string, s: PipelineStep, log: StepLog): seq<Frame> {
    [StepStart(runId, Some(s.step))] + Outputs(runId, s.step, log.chunks)
    + [StepComplete(runId, Some(s.step), log.error.Some?, log.error)]
  }

  function Blocks(runId: string, pipeline: seq<PipelineStep>, logs: seq<StepLog>): seq<Frame>
    requires |logs| <= |pipeline|
  {
    if logs == [] then []
    else
      var n := |logs| - 1;
      Blocks(runId, pipeline, logs[..n]) + Block(runId, pipeline[n], logs[n])
  }

  function Opening(runId: string, header: string, pipeline: seq<PipelineStep>): seq<Frame>
    requires pipeline != []
  {
    [StepOutput(runId, Some(pipeline[0].step), header)]
  }

  /** The frames of the steps that have ended. */
  function Prefix(runId: string, header: string, pipeline: seq<PipelineStep>, logs: seq<StepLog>): seq<Frame>
    requires pipeline != [] && |logs| <= |pipeline|
  {
    Opening(runId, header, pipeline) + Blocks(runId, pipeline, logs)
  }

  /** The step in flight: announced, with what it has flushed. */
  function InFlight(runId: string, s: PipelineStep, chunks: seq<string>): seq<Frame> {
    [StepStart(runId, Some(s.step))] + Outputs(runId, s.step, chunks)
  }

  /** What closes a run: its `finished` frame, after the whole restart step if there is one. */
  function Closing(r: RunRecord): seq<Frame>
    requires WellFormed(r)
  {
    match r.ending
    case Completed => [Finished(r.runId, true, false, None)]
    case FailedStep(e) => [Finished(r.runId, false, false, Some(e))]
    case RestartSent(line) =>
      Block(r.runId, r.pipeline[|r.logs|], StepLog([line], line, None)) + [Finished(r.runId, true, true, None)]
  }

  function RunTrace(r: RunRecord): seq<Frame>
    requires WellFormed(r)
  {
    Prefix(r.runId, r.header, r.pipeline, r.logs) + Closing(r)
  }

  /** The commands of `logs` ran in order, and all but possibly the last succeeded. */
  predicate RanInOrder(pipeline: seq<PipelineStep>, logs: seq<StepLog>) {
    && |logs| <= |pipeline|
    && (forall i :: 0 <= i < |logs| ==>
         !pipeline[i].triggersRestart && Joined(logs[i].chunks) == logs[i].text)
    && (forall i :: 0 <= i < |logs| - 1 ==> logs[i].error.None?)
  }

  predicate WellFormed(r: RunRecord) {
    && r.pipeline != [] && RanInOrder(r.pipeline, r.logs)
    && match r.ending
       case Completed => |r.logs| == |r.pipeline| && r.logs[|r.logs| - 1].error.None?
       case FailedStep(_) => r.logs != [] && r.logs[|r.logs| - 1].error.Some?
       case RestartSent(_) =>
         && |r.logs| < |r.pipeline| && r.pipeline[|r.logs|].triggersRestart
         && (r.logs != [] ==> r.logs[|r.logs| - 1].error.None?)
  }

  type FinishedRun = r: RunRecord | WellFormed(r)
    ghost witness RunRecord("", "", [PipelineStep("", "", "", true)], [], RestartSent(""))

  ghost function AllTraces(runs: seq<FinishedRun>): seq<Frame> {
    if runs == [] then [] else AllTraces(runs[..|runs| - 1]) + RunTrace(runs[|runs| - 1])
  }

  lemma TracesSnoc(runs: seq<FinishedRun>, r: FinishedRun)
    ensures AllTraces(runs + [r]) == AllTraces(runs) + RunTrace(r)
  {
    assert (runs + [r])[..|runs|] == runs;
  }

  lemma ChunksSnoc(runId: string, step: string, chunks: seq<string>, text: string)
    ensures Joined(chunks + [text]) == Joined(chunks) + text
    ensures Outputs(runId, step, chunks + [text])
            == Outputs(runId, step, chunks) + [StepOutput(runId, Some(step), text)]
  {
    assert (chunks + [text])[..|chunks|] == chunks;
  }

  lemma FlightSnoc(runId: string, s: PipelineStep, chunks: seq<string>, text: string)
    ensures Joined(chunks + [text]) == Joined(chunks) + text
    ensures InFlight(runId, s, chunks + [text]) == InFlight(runId, s, chunks) + [StepOutput(runId, Some(s.step), text)]
  {
    ChunksSnoc(runId, s.step, chunks, text);
  }

  lemma BlocksSnoc(runId: string, pipeline: seq<PipelineStep>, logs: seq<StepLog>, log: StepLog)
    requires |logs| < |pipeline|
    ensures Blocks(runId, pipeline, logs + [log]) == Blocks(runId, pipeline, logs) + Block(runId, pipeline[|logs|], log)
  {
    assert (logs + [log])[..|logs|] == logs;
  }

  lemma PrefixGrows(runId: string, header: string, pipeline: seq<PipelineStep>, logs: seq<StepLog>, log: StepLog)
    requires |logs| < |pipeline|
    ensures Prefix(runId, header, pipeline, logs + [log])
         == Prefix(runId, header, pipeline, logs) + InFlight(runId, pipeline[|logs|], log.chunks)
            + [StepComplete(runId, Some(pipeline[|logs|].step), log.error.Some?, log.error)]
  {
    BlocksSnoc(runId, pipeline, logs, log);
  }

  /** How a run ends once the steps of `logs` have ended, or None when another command follows. */
  function EndingAfter(pipeline: seq<PipelineStep>, logs: seq<StepLog>, restartLine: string): Option<Ending>
    requires 0 < |logs| <= |pipeline|
  {
    var n := |logs|;
    if logs[n - 1].error.Some? then Some(FailedStep(pipeline[n - 1].name + ": " + logs[n - 1].error.value))
    else if n == |pipeline| then Some(Completed)
    else if pipeline[n].triggersRestart then Some(RestartSent(restartLine))
    else None
  }

  lemma RanInOrderSnoc(pipeline: seq<PipelineStep>, logs: seq<StepLog>, log: StepLog)
    requires RanInOrder(pipeline, logs) && |logs| < |pipeline| && !pipeline[|logs|].triggersRestart
    requires logs != [] ==> logs[|logs| - 1].error.None?
    requires Joined(log.chunks) == log.text
    ensures RanInOrder(pipeline, logs + [log])
  {
  }

  lemma RestartCloses(r: FinishedRun)
    requires r.ending.RestartSent?
    ensures var id := Some(r.pipeline[|r.logs|].step);
            Closing(r) == [StepStart(r.runId, id), StepOutput(r.runId, id, r.ending.restartLine),
                           StepComplete(r.runId, id, false, None), Finished(r.runId, true, true, None)]
  {
  }

  // ------------------------------------------------------------------ the runner

  class ReplicaDeployRunner {
    var activeRunId: Option<string>
    /** Everything emitted on the link, oldest first. */
    var sent: seq<Frame>
    // Locals of the run in flight.
    var pipeline: seq<PipelineStep>
    var at: nat
    var buffer: string
    var flushTimer: bool
    // What has happened, for the specification.
    ghost var ended: seq<FinishedRun>
    /** The frames of the run in flight. */
    ghost var run: seq<Frame>
    ghost var header: string
    ghost var logs: seq<StepLog>
    ghost var chunks: seq<string>
    /** Text pushed by the step in flight. */
    ghost var pushed: string

    /** The steps before `at` ran and succeeded. */
    ghost predicate Advanced()
      reads this
    {
      && activeRunId.Some? && at == |logs| < |pipeline| && RanInOrder(pipeline, logs)
      && (logs != [] ==> logs[|logs| - 1].error.None?)
    }

    /** A command is in flight, and everything it pushed has been emitted or is in the buffer. */
    ghost predicate Streaming()
      reads this
    {
      && Advanced() && !pipeline[at].triggersRestart
      && sent == AllTraces(ended) + run
      && run == Prefix(activeRunId.value, header, pipeline, logs) + InFlight(activeRunId.value, pipeline[at], chunks)
      && Joined(chunks) + buffer == pushed
    }

    /** Idle with only whole traces sent, or streaming: then no text waits without a timer or past the limit. */
    ghost predicate Valid()
      reads this
    {
      if activeRunId.None? then sent == AllTraces(ended)
      else Streaming() && (buffer != "" ==> flushTimer) && |buffer| < OUTPUT_FLUSH_CHARS
    }

    constructor ()
      ensures Valid() && activeRunId.None? && ended == []
    {
      activeRunId, sent, pipeline, at, buffer, flushTimer := None, [], [], 0, "", false;
      ended, run, header, logs, chunks, pushed := [], [], "", [], [], "";
    }

    method Emit(f: Frame)
      requires sent == AllTraces(ended) + run
      modifies this`sent, this`run
      ensures sent == AllTraces(ended) + run && run == old(run) + [f]
    {
      sent := sent + [f];
      run := run + [f];
    }

    method Flush()
      requires Streaming()
      modifies this`sent, this`run, this`buffer, this`flushTimer, this`chunks
      ensures Streaming() && buffer == "" && !flushTimer
      ensures chunks == if old(buffer) == "" then old(chunks) else old(chunks) + [old(buffer)]
    {
      hide AllTraces, Prefix, RanInOrder, InFlight, Joined;
      flushTimer := false;
      if buffer != "" {
        Emit(StepOutput(activeRunId.value, Some(pipeline[at].step), buffer));
        FlightSnoc(activeRunId.value, pipeline[at], chunks, buffer);
        ghost var before, text := Prefix(activeRunId.value, header, pipeline, logs), buffer;
        assert before + InFlight(activeRunId.value, pipeline[at], chunks)
               + [StepOutput(activeRunId.value, Some(pipeline[at].step), text)]
            == before + InFlight(activeRunId.value, pipeline[at], chunks + [text]);
        chunks := chunks + [buffer];
        buffer := "";
      }
    }

    method Push(chunk: string)
      requires Streaming()
      modifies this`sent, this`run, this`buffer, this`flushTimer, this`chunks, this`pushed
      ensures Valid() && pushed == old(pushed) + chunk
      ensures var text := old(buffer) + chunk;
              if |text| >= 8192 then buffer == "" && chunks == old(chunks) + [text]
              else buffer == text && chunks == old(chunks) && flushTimer
    {
      assert Joined(chunks) + (buffer + chunk) == pushed + chunk;
      buffer := buffer + chunk;
      pushed := pushed + chunk;
      if |buffer| >= OUTPUT_FLUSH_CHARS {
        Flush();
      } else if !flushTimer {
        flushTimer := true;
      }
    }

    /** The flush timer fires. */
    method OnFlushTimer()
      requires Valid() && activeRunId.Some? && flushTimer
      modifies this`sent, this`run, this`buffer, this`flushTimer, this`chunks
      ensures Valid() && buffer == "" && Joined(chunks) == pushed
      ensures chunks == if old(buffer) == "" then old(chunks) else old(chunks) + [old(buffer)]
    {
      Flush();
    }

    /** Output of the command in flight: sent at once with what is buffered from 8192 characters on, else buffered. */
    method OnData(text: string)
      requires Valid() && activeRunId.Some?
      modifies this`sent, this`run, this`buffer, this`flushTimer, this`chunks, this`pushed
      ensures Valid() && pushed == old(pushed) + text
      ensures var all := old(buffer) + text;
              if |all| >= 8192 then buffer == "" && chunks == old(chunks) + [all]
              else buffer == all && chunks == old(chunks) && flushTimer
    {
      Push(text);
    }

    /** The head of the loop: announce step `at`, then start its command or send the restart. */
    method BeginStep(restartLine: string)
      requires Advanced() && sent == AllTraces(ended) + run
      requires run == Prefix(activeRunId.value, header, pipeline, logs)
      modifies this`activeRunId, this`sent, this`run, this`buffer, this`flushTimer, this`ended, this`chunks, this`pushed
      ensures Valid()
      ensures pipeline[at].triggersRestart ==>
        activeRunId.None? &&
        ended == old(ended) + [RunRecord(old(activeRunId.value), header, pipeline, logs, RestartSent(restartLine))]
      ensures !pipeline[at].triggersRestart ==>
        activeRunId == old(activeRunId) && ended == old(ended) && pushed == pipeline[at].commandLine
    {
      hide AllTraces, Prefix, RanInOrder;
      var s := pipeline[at];
      Emit(StepStart(activeRunId.value, Some(s.step)));
      if s.triggersRestart {
        SendRestart(restartLine);
      } else {
        buffer, flushTimer := "", false;
        chunks, pushed := [], "";
        assert InFlight(activeRunId.value, s, []) == [StepStart(activeRunId.value, Some(s.step))];
        Push(s.commandLine);
      }
    }

    method SendRestart(restartLine: string)
      requires Advanced() && pipeline[at].triggersRestart && sent == AllTraces(ended) + run
      requires run == Prefix(activeRunId.value, header, pipeline, logs)
               + [StepStart(activeRunId.value, Some(pipeline[at].step))]
      modifies this`activeRunId, this`sent, this`run, this`ended
      ensures Valid() && activeRunId.None?
      ensures ended ==
              old(ended) + [RunRecord(old(activeRunId.value), header, pipeline, logs, RestartSent(restartLine))]
    {
      hide AllTraces, Prefix;
      var runId := activeRunId.value;
      var id := Some(pipeline[at].step);
      ghost var r := RunRecord(runId, header, pipeline, logs, RestartSent(restartLine));
      Emit(StepOutput(runId, id, restartLine));
      Emit(StepComplete(runId, id, false, None));
      Emit(Finished(runId, true, true, None));
      RestartCloses(r);
      assert run == RunTrace(r);
      Release(r);
    }

    /** `finally`: the runner is free again, and the run's trace is whole. */
    method Release(ghost r: FinishedRun)
      requires sent == AllTraces(ended) + run && run == RunTrace(r)
      modifies this`activeRunId, this`ended
      ensures Valid() && activeRunId.None? && ended == old(ended) + [r]
    {
      activeRunId := None;
      TracesSnoc(ended, r);
      ended := ended + [r];
    }

    /** accept(): refuse while busy or when the preflight found a problem; otherwise start the run. */
    method Accept(runId: string, header: string, pipeline: seq<PipelineStep>, problem: Option<string>,
                  restartLine: string)
      returns (ack: Ack)
      requires Valid() && pipeline != []
      modifies this
      ensures Valid()
      ensures ack.accepted <==> old(activeRunId).None? && problem.None?
      ensures !ack.accepted ==> sent == old(sent) && ended == old(ended) && activeRunId == old(activeRunId)
      ensures ack.accepted ==>
        && ack.steps == Infos(pipeline)
        && (if pipeline[0].triggersRestart
            then (&& activeRunId.None?
                  && ended == old(ended) + [RunRecord(runId, header, pipeline, [], RestartSent(restartLine))])
            else (&& activeRunId == Some(runId) && ended == old(ended)
                  && this.pipeline == pipeline && this.header == header && at == 0))
    {
      if activeRunId.Some? {
        return Ack(false, Some("Already deploying (run " + activeRunId.value + ")"), []);
      }
      if problem.Some? {
        return Ack(false, problem, []);
      }
      Open(runId, header, pipeline);
      BeginStep(restartLine);
      ack := Ack(true, None, Infos(pipeline));
    }

    method Open(runId: string, header: string, pipeline: seq<PipelineStep>)
      requires activeRunId.None? && Valid() && pipeline != []
      modifies this
      ensures Advanced() && sent == AllTraces(ended) + run && ended == old(ended)
      ensures activeRunId == Some(runId) && this.pipeline == pipeline && this.header == header && logs == []
      ensures run == Prefix(runId, header, pipeline, [])
    {
      activeRunId := Some(runId);
      this.pipeline, this.at, this.header, this.logs, run := pipeline, 0, header, [], [];
      assert sent == AllTraces(ended) + run;
      Emit(StepOutput(runId, Some(pipeline[0].step), header));
    }

    /**
     * The command in flight closed or failed to start: `error` is None for exit code 0, and also for
     * a command killed by a signal, which has no exit code.
     */
    method OnClose(error: Option<string>, restartLine: string)
      requires Valid() && activeRunId.Some?
      modifies this
      ensures Valid() && pipeline == old(pipeline) && header == old(header)
      ensures |logs| == |old(logs)| + 1 <= |pipeline|
      ensures logs == old(logs) + [StepLog(logs[|old(logs)|].chunks, old(pushed), error)]
      ensures var n := |logs|;
              var ending := if error.Some? then Some(FailedStep(pipeline[n - 1].name + ": " + error.value))
                            else if n == |pipeline| then Some(Completed)
                            else if pipeline[n].triggersRestart then Some(RestartSent(restartLine))
                            else None;
              if ending.None? then
                activeRunId == old(activeRunId) && ended == old(ended) && pushed == pipeline[n].commandLine
              else activeRunId.None? &&
                   ended == old(ended) + [RunRecord(old(activeRunId.value), header, pipeline, logs, ending.value)]
    {
      hide AllTraces, Prefix, RanInOrder, InFlight, Joined, WellFormed;
      CompleteStep(error);
      Proceed(error, restartLine);
    }

    method Proceed(error: Option<string>, restartLine: string)
      requires activeRunId.Some? && |logs| == at + 1 && RanInOrder(pipeline, logs) && logs[at].error == error
      requires sent == AllTraces(ended) + run && run == Prefix(activeRunId.value, header, pipeline, logs)
      modifies this`activeRunId, this`sent, this`run, this`buffer, this`flushTimer, this`ended, this`at, this`chunks,
          this`pushed
      ensures Valid()
      ensures var ending := EndingAfter(pipeline, logs, restartLine);
              if ending.None? then activeRunId == old(activeRunId) && ended == old(ended)
              else activeRunId.None? &&
                   ended == old(ended) + [RunRecord(old(activeRunId.value), header, pipeline, logs, ending.value)]
      ensures EndingAfter(pipeline, logs, restartLine).None? ==> pushed == pipeline[|logs|].commandLine
    {
      hide AllTraces, Prefix, InFlight, Joined;
      if error.Some? {
        End(FailedStep(pipeline[at].name + ": " + error.value));
      } else if at + 1 == |pipeline| {
        End(Completed);
      } else {
        at := at + 1;
        BeginStep(restartLine);
      }
    }

    method CompleteStep(error: Option<string>)
      requires Valid() && activeRunId.Some?
      modifies this`sent, this`run, this`buffer, this`flushTimer, this`chunks, this`logs
      ensures |logs| == at + 1 && RanInOrder(pipeline, logs) && logs[at].error == error
      ensures logs == old(logs) + [StepLog(chunks, old(pushed), error)]
      ensures sent == AllTraces(ended) + run && run == Prefix(activeRunId.value, header, pipeline, logs)
    {
      hide AllTraces, Prefix;
      Flush();
      Emit(StepComplete(activeRunId.value, Some(pipeline[at].step), error.Some?, error));
      assert Joined(chunks) == pushed;
      PrefixGrows(activeRunId.value, header, pipeline, logs, StepLog(chunks, pushed, error));
      RanInOrderSnoc(pipeline, logs, StepLog(chunks, pushed, error));
      logs := logs + [StepLog(chunks, pushed, error)];
    }

    /** The closing `finished` frame of a run that does not restart. */
    method End(ending: Ending)
      requires activeRunId.Some? && !ending.RestartSent? && sent == AllTraces(ended) + run
      requires WellFormed(RunRecord(activeRunId.value, header, pipeline, logs, ending))
      requires run == Prefix(activeRunId.value, header, pipeline, logs)
      modifies this`activeRunId, this`sent, this`run, this`ended
      ensures Valid() && activeRunId.None?
      ensures ended == old(ended) + [RunRecord(old(activeRunId.value), header, pipeline, logs, ending)]
    {
      var runId := activeRunId.value;
      match ending {
        case Completed => Emit(Finished(runId, true, false, None));
        case FailedStep(e) => Emit(Finished(runId, false, false, Some(e)));
      }
      Release(RunRecord(runId, header, pipeline, logs, ending));
    }
  }

  function Infos(pipeline: seq<PipelineStep>): seq<StepInfo> {
    seq(|pipeline|, i requires 0 <= i < |pipeline| => StepInfo(pipeline[i].step, pipeline[i].name))
  }
}
