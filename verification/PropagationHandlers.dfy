/** The event handlers of `propagate`, over the records, watchers and buffer they share. */
module PropagationHandlers {
  import opened Options
  import opened ReplicaLink
  import opened Propagation

  class PropagationRun {
    const config: Config
    var replicas: seq<ReplicaRun>
    var watchers: map<SocketId, Timer>
    var earlyFrames: seq<(SocketId, Frame)>
    var dispatchSettled: bool
    /** Both subscriptions are live: `propagate` has not returned. */
    var subscribed: bool
    /** The keys of byId, in record order. */
    ghost var ids: seq<SocketId>

    ghost function Locals(): (r: seq<Local>)
      reads this
      ensures |r| == |replicas|
    {
      var rs, ws := replicas, watchers;
      seq(|rs|, i requires 0 <= i < |rs| =>
        Local(rs[i], if rs[i].id in ws then Some(ws[rs[i].id]) else None))
    }

    ghost function State(): Master
      reads this
    {
      Master(Locals(), earlyFrames, dispatchSettled)
    }

    /** Records have distinct ids and only they are watched. */
    ghost predicate Keyed()
      reads this
    {
      && |ids| == |replicas|
      && (forall i :: 0 <= i < |ids| ==> replicas[i].id == ids[i])
      && (forall i, j :: 0 <= i < j < |ids| ==> ids[i] != ids[j])
      && (forall id :: id in watchers ==> id in ids)
    }

    ghost predicate Valid()
      reads this
    {
      && Keyed()
      && (!dispatchSettled ==> replicas == [] && watchers == map[])
      && (dispatchSettled ==> earlyFrames == [])
      && (subscribed <==> !(dispatchSettled && watchers == map[]))
    }

    constructor (config: Config)
      ensures Valid() && State() == Propagation.Start() && this.config == config
    {
      this.config := config;
      replicas, watchers, earlyFrames, ids := [], map[], [], [];
      dispatchSettled, subscribed := false, true;
    }

    lemma WatchersHaveRecords()
      requires Keyed()
      ensures watchers == map[] || exists i :: 0 <= i < |replicas| && Locals()[i].timer.Some?
    {
      if watchers != map[] {
        var id :| id in watchers;
        var i :| 0 <= i < |ids| && ids[i] == id;
        assert Locals()[i].timer.Some?;
      }
    }

    lemma DoneMeansUnwatched()
      requires Keyed()
      ensures Done(State()) <==> dispatchSettled && watchers == map[]
    {
      WatchersHaveRecords();
    }

    /** byId.get(id) */
    method Find(id: SocketId) returns (i: nat)
      ensures i == FindReplica(Locals(), id)
    {
      i := 0;
      while i < |replicas| && replicas[i].id != id
        invariant 0 <= i <= |replicas|
        invariant forall j :: 0 <= j < i ==> replicas[j].id != id
      {
        i := i + 1;
      }
      assert i < |replicas| ==> Locals()[i].run.id == id;
    }

    method Settle(i: nat, status: RunStatus, reason: Option<string>)
      requires Keyed() && i < |replicas|
      modifies this`replicas, this`watchers
      ensures Keyed()
      ensures Locals() == old(Locals())[i := Propagation.Settle(old(Locals()[i]), status, reason)]
    {
      var r := replicas[i];
      if Terminal(r.status) {
        return;
      }
      r := r.(status := status);
      if reason.Some? && reason.value != "" {
        r := r.(reason := reason);
      }
      replicas := replicas[i := r.(currentStep := None)];
      watchers := watchers - {r.id};
    }

    method Append(i: nat, text: string)
      requires Keyed() && i < |replicas|
      modifies this`replicas
      ensures Keyed()
      ensures Locals() == old(Locals())[i := old(Locals()[i]).(run := AppendOutput(config, old(replicas[i]), text))]
    {
      var grown := replicas[i].output + text;
      if |grown| > MAX_OUTPUT_CHARS {
        grown := config.trimMarker + grown[|grown| - MAX_OUTPUT_CHARS..];
      }
      replicas := replicas[i := replicas[i].(output := grown)];
    }

    method MarkRestarting(i: nat, now: int)
      requires Keyed() && i < |replicas|
      modifies this`replicas, this`watchers
      ensures Keyed()
      ensures Locals() == old(Locals())[i := Propagation.MarkRestarting(config, old(Locals()[i]), now)]
    {
      if Terminal(replicas[i].status) {
        return;
      }
      replicas := replicas[i := replicas[i].(status := Restarting, currentStep := None)];
      if replicas[i].id in watchers {
        watchers := watchers[replicas[i].id := RestartTimer(now + config.graceMs)];
      }
      assert Locals() == old(Locals())[i := Local(replicas[i], Locals()[i].timer)];
      Append(i, config.waitingLine);
      assert Locals() == old(Locals())[i := Locals()[i]];
    }

    /** A waiting replica is back: log it and settle. */
    method Confirm(i: nat)
      requires Keyed() && i < |replicas| && replicas[i].status == Restarting
      modifies this`replicas, this`watchers
      ensures Keyed()
      ensures Locals() == old(Locals())[i := Propagation.Confirm(config, old(Locals()[i]))]
    {
      Append(i, config.reconnectedLine);
      Settle(i, Success, None);
      assert Locals() == old(Locals())[i := Locals()[i]];
    }

    /** The expiry callback of the watcher's current timer. */
    method Fire(i: nat)
      requires Keyed() && i < |replicas| && replicas[i].id in watchers
      modifies this`replicas, this`watchers
      ensures Keyed()
      ensures Locals() == old(Locals())[i := Propagation.Fire(config, old(Locals()[i]))]
    {
      if watchers[replicas[i].id].PipelineTimer? {
        Append(i, config.quietReason + ".\n");
        Settle(i, Timeout, Some(config.quietReason));
      } else {
        Append(i, config.graceReason + ".\n");
        Settle(i, Failed, Some(config.graceReason));
      }
      assert Locals() == old(Locals())[i := Locals()[i]];
    }

    /** step = findOrCreateStep(replica, id), then the caller's change to it. */
    method ApplyProgress(i: nat, f: Frame, now: int)
      requires Keyed() && i < |replicas|
      modifies this`replicas, this`watchers
      ensures Keyed()
      ensures Locals() == old(Locals())[i := Propagation.ApplyProgress(config, old(Locals()[i]), f, now)]
    {
      match f {
        case StepStart(_, step) =>
          var id := OrElse(step, "unknown");
          replicas := replicas[i := replicas[i].(steps := StartStep(replicas[i].steps, id), currentStep := Some(id))];
        case StepOutput(_, _, output) =>
          if output != "" {
            Append(i, output);
          }
        case StepComplete(_, step, failed, error) =>
          var steps := CompleteStep(replicas[i].steps, OrElse(step, "unknown"), failed, error);
          replicas := replicas[i := replicas[i].(steps := steps)];
        case Finished(_, ok, restarting, error) =>
          if restarting {
            MarkRestarting(i, now);
          } else {
            Settle(i, if ok then Success else Failed, error);
          }
      }
    }

    /** Promise.all resolves once the last watcher is gone; `propagate` then unsubscribes. */
    method ReturnIfDone()
      requires Keyed()
      requires !dispatchSettled ==> replicas == [] && watchers == map[]
      requires dispatchSettled ==> earlyFrames == []
      modifies this`subscribed
      ensures Valid()
    {
      subscribed := !(dispatchSettled && watchers == map[]);
    }

    method OnProgress(from: SocketId, f: Frame, now: int)
      requires Valid()
      modifies this
      ensures Valid() && State() == Step(config, old(State()), Progress(from, f, now))
    {
      DoneMeansUnwatched();
      if !subscribed || f.runId != config.runId {
        return;
      }
      var i := Find(from);
      if i < |replicas| {
        ApplyProgress(i, f, now);
      } else if !dispatchSettled {
        earlyFrames := earlyFrames + [(from, f)];
      }
      ReturnIfDone();
    }

    /** The body of the loop of the reconnect handler. */
    method ConfirmIfBack(i: nat, client: LinkInfo)
      requires Keyed() && i < |replicas|
      modifies this`replicas, this`watchers
      ensures Keyed() && |replicas| == |old(replicas)|
      ensures var was := old(Locals())[i];
              Locals() == old(Locals())[i := if was.run.deviceName == client.deviceName && was.run.ip == client.ip
                                             then Propagation.Confirm(config, was) else was]
    {
      OnlyRestartingIsConfirmed(config, Locals()[i]);
      assert Locals() == Locals()[i := Locals()[i]];
      var r := replicas[i];
      if r.status == Restarting && r.deviceName == client.deviceName && r.ip == client.ip {
        Confirm(i);
      }
    }

    method OnOnline(client: LinkInfo)
      requires Valid()
      modifies this
      ensures Valid() && State() == Step(config, old(State()), Online(client))
    {
      hide Propagation.Confirm;
      DoneMeansUnwatched();
      if !subscribed {
        return;
      }
      ghost var was := Locals();
      for i := 0 to |replicas|
        invariant Keyed() && |replicas| == |was|
        invariant unchanged(this`earlyFrames, this`dispatchSettled)
        invariant forall j :: 0 <= j < i ==> Locals()[j] == ConfirmAll(config, was, client)[j]
        invariant forall j :: i <= j < |was| ==> Locals()[j] == was[j]
      {
        ConfirmIfBack(i, client);
      }
      assert Locals() == ConfirmAll(config, was, client);
      ReturnIfDone();
    }

    method OnExpired(id: SocketId)
      requires Valid()
      modifies this
      ensures Valid() && State() == Step(config, old(State()), Expired(id))
    {
      hide Propagation.Settle, AppendOutput, Terminal;
      DoneMeansUnwatched();
      if !subscribed {
        return;
      }
      var i := Find(id);
      if i < |replicas| && id in watchers {
        Fire(i);
      } else if i < |replicas| {
        assert State().replicas == old(State()).replicas[i := Propagation.Fire(config, old(State()).replicas[i])];
      }
      ReturnIfDone();
    }

    /** The synchronous block after `await dispatchDeploy`: build, replay, arm. */
    method OnDispatched(results: seq<DispatchResult>, now: int)
      requires Valid() && !dispatchSettled && DistinctResults(results)
      modifies this
      ensures Valid() && State() == Step(config, old(State()), Dispatched(results, now))
    {
      assert !Done(State());
      OpenRecords(results);
      dispatchSettled := true;
      ReplayEarly(OpenAll(results), now);
      ArmWatchers(now);
      ReturnIfDone();
    }

    method OpenRecords(results: seq<DispatchResult>)
      requires Keyed() && replicas == [] && watchers == map[] && DistinctResults(results)
      modifies this`replicas, this`ids
      ensures Keyed() && Locals() == OpenAll(results)
    {
      for n := 0 to |results|
        invariant Keyed() && watchers == map[] && |replicas| == n
        invariant forall j :: 0 <= j < n ==> replicas[j] == Opened(results[j]) && ids[j] == results[j].replica.id
      {
        replicas := replicas + [Opened(results[n])];
        ids := ids + [results[n].replica.id];
      }
    }

    /** While no watcher exists a frame arms none. */
    method ReplayOne(i: nat, f: Frame, now: int)
      requires Keyed() && watchers == map[] && i < |replicas|
      modifies this`replicas, this`watchers
      ensures Keyed() && watchers == map[]
      ensures Locals() == old(Locals())[i := Propagation.ApplyProgress(config, old(Locals()[i]), f, now)]
    {
      ArmCommutes(config, Locals()[i], f, now);
      ApplyProgress(i, f, now);
      WatchersHaveRecords();
    }

    method ReplayEarly(ghost initial: seq<Local>, now: int)
      requires Keyed() && watchers == map[] && Locals() == initial
      modifies this`replicas, this`watchers, this`earlyFrames
      ensures Keyed() && watchers == map[] && earlyFrames == []
      ensures Locals() == Replay(config, initial, old(earlyFrames), now)
    {
      hide Propagation.ApplyProgress;
      for n := 0 to |earlyFrames|
        invariant Keyed() && watchers == map[] && unchanged(this`earlyFrames)
        invariant Locals() == Replay(config, initial, earlyFrames[..n], now)
      {
        assert earlyFrames[..n + 1][..n] == earlyFrames[..n];
        var i := Find(earlyFrames[n].0);
        if i < |replicas| {
          ReplayOne(i, earlyFrames[n].1, now);
        }
      }
      assert earlyFrames[..|earlyFrames|] == earlyFrames;
      earlyFrames := [];
    }

    method ArmWatchers(now: int)
      requires Keyed() && watchers == map[]
      modifies this`watchers
      ensures Keyed() && Locals() == ArmAll(config, old(Locals()), now)
    {
      ghost var was := Locals();
      for i := 0 to |replicas|
        invariant Keyed()
        invariant forall j :: 0 <= j < i ==> Locals()[j] == Arm(config, was[j], now)
        invariant forall j :: i <= j < |replicas| ==> Locals()[j] == was[j] && replicas[j].id !in watchers
      {
        var r := replicas[i];
        assert r.id == ids[i];
        if !Terminal(r.status) {
          var restart, pipeline := RestartTimer(now + config.graceMs), PipelineTimer(now + config.timeoutMs);
          watchers := watchers[r.id := if r.status == Restarting then restart else pipeline];
        }
      }
    }
  }

  lemma OnlyRestartingIsConfirmed(c: Config, l: Local)
    ensures l.run.status != Restarting ==> Propagation.Confirm(c, l) == l
  {
  }
}
