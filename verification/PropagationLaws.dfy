/**
 * What a propagation run promises about each replica: one absorbing verdict, a live timer behind
 * every wait, evidence behind every success, and a log that is the exact tail of what was said.
 */
module PropagationLaws {
  import opened Options
  import opened ReplicaLink
  import opened Propagation

  // ------------------------------------------------------------------ absorbing verdicts

  lemma {:induction false} TerminalIsAbsorbing(c: Config, m: Master, es: seq<Event>, i: nat)
    requires m.settled && i < |m.replicas| && Terminal(m.replicas[i].run.status)
    ensures var r := Run(c, m, es);
            && r.settled && |r.replicas| == |m.replicas|
            && r.replicas[i].run.status == m.replicas[i].run.status
            && r.replicas[i].run.reason == m.replicas[i].run.reason
  {
    hide Step;
    if es != [] {
      TerminalIsAbsorbing(c, m, es[..|es| - 1], i);
      OneEventKeepsTerminal(c, Run(c, m, es[..|es| - 1]), es[|es| - 1], i);
    }
  }

  lemma OneEventKeepsTerminal(c: Config, m: Master, e: Event, i: nat)
    requires m.settled && i < |m.replicas| && Terminal(m.replicas[i].run.status)
    ensures var r := Step(c, m, e);
            && r.settled && |r.replicas| == |m.replicas|
            && r.replicas[i].run.status == m.replicas[i].run.status
            && r.replicas[i].run.reason == m.replicas[i].run.reason
  {
  }

  // ------------------------------------------------------------------ a timer behind every wait

  /** Finished and unwatched, or waiting with the timer that fits what it waits for. */
  predicate Watched(l: Local) {
    match l.run.status
    case Running => l.timer.Some? && l.timer.value.PipelineTimer?
    case Restarting => l.timer.Some? && l.timer.value.RestartTimer?
    case Dispatching => false
    case _ => l.timer.None?
  }

  lemma StepKeepsWatched(c: Config, l: Local, e: LocalEvent)
    requires Watched(l)
    ensures Watched(LocalStep(c, l, e))
  {
  }

  lemma {:induction false} FoldKeepsWatched(c: Config, l: Local, es: seq<LocalEvent>)
    requires Watched(l)
    ensures Watched(FoldLocal(c, l, es))
  {
    if es != [] {
      FoldKeepsWatched(c, l, es[..|es| - 1]);
      StepKeepsWatched(c, FoldLocal(c, l, es[..|es| - 1]), es[|es| - 1]);
    }
  }

  /** In every reachable state of a settled run each replica is either terminal or has a live timer. */
  lemma EveryWaitHasATimer(c: Config, pre: seq<Event>, results: seq<DispatchResult>, now: int, post: seq<Event>)
    requires Observed(c, pre, results, now, post)
    ensures var m := WholeRun(c, pre, results, now, post);
            forall i :: 0 <= i < |m.replicas| ==> Watched(m.replicas[i])
  {
    var m := WholeRun(c, pre, results, now, post);
    if results == [] {
      DispatchesNobody(c, pre, results, now, post);
    } else {
      BufferingRefinesDirectDelivery(c, pre, results, now, post, 0);
    }
    forall i | 0 <= i < |results|
      ensures Watched(m.replicas[i])
    {
      BufferingRefinesDirectDelivery(c, pre, results, now, post, i);
      var own := OwnFrames(c, results[i].replica, now, pre) + Own(c, results[i].replica, post);
      FoldKeepsWatched(c, Direct(c, results[i], now), own);
    }
  }

  lemma DispatchesNobody(c: Config, pre: seq<Event>, results: seq<DispatchResult>, now: int, post: seq<Event>)
    requires Observed(c, pre, results, now, post) && results == []
    ensures post == [] && WholeRun(c, pre, results, now, post).replicas == []
  {
    OnlyBuffering(c, pre);
    if post != [] {
      StaysDone(c, Step(c, Run(c, Start(), pre), Dispatched(results, now)), post[..|post| - 1]);
    }
  }

  lemma {:induction false} StaysDone(c: Config, m: Master, es: seq<Event>)
    requires Done(m)
    ensures Run(c, m, es) == m
  {
    if es != [] {
      StaysDone(c, m, es[..|es| - 1]);
    }
  }

  lemma WatchedExactlyWhileUnfinished(ls: seq<Local>)
    requires forall i :: 0 <= i < |ls| ==> Watched(ls[i])
    ensures forall i :: 0 <= i < |ls| ==> (ls[i].timer.None? <==> Terminal(ls[i].run.status))
  {
    forall i | 0 <= i < |ls| ensures ls[i].timer.None? <==> Terminal(ls[i].run.status) {
      assert Watched(ls[i]);
    }
  }

  /** `propagate` returns exactly when every dispatched replica has a terminal status. */
  lemma ReturnsExactlyWhenAllAreTerminal(c: Config, pre: seq<Event>, results: seq<DispatchResult>, now: int,
                                         post: seq<Event>)
    requires Observed(c, pre, results, now, post)
    ensures var m := WholeRun(c, pre, results, now, post);
            Done(m) <==> forall i :: 0 <= i < |m.replicas| ==> Terminal(m.replicas[i].run.status)
  {
    var m := WholeRun(c, pre, results, now, post);
    EveryWaitHasATimer(c, pre, results, now, post);
    SettledAndIdentified(c, pre, results, now, post);
    WatchedExactlyWhileUnfinished(m.replicas);
  }

  /** The timers of all replicas fire, in the order of their records. */
  function Expiries(results: seq<DispatchResult>): seq<Event> {
    seq(|results|, i requires 0 <= i < |results| => Expired(results[i].replica.id))
  }

  /** The timers of the first `k` replicas of `m` have fired. */
  predicate Fired(c: Config, m: Master, z: Master, k: nat) {
    && z.settled && |z.replicas| == |m.replicas|
    && forall i :: 0 <= i < |m.replicas| ==> z.replicas[i] == if i < k then Fire(c, m.replicas[i]) else m.replicas[i]
  }

  lemma FireKeepsIdentity(c: Config, l: Local)
    ensures Fire(c, l).run.id == l.run.id
  {
  }

  lemma OneMoreFires(c: Config, m: Master, z: Master, results: seq<DispatchResult>, k: nat)
    requires Identified(m.replicas, results) && DistinctResults(results) && k < |results| && Fired(c, m, z, k)
    ensures Fired(c, m, Step(c, z, Expired(results[k].replica.id)), k + 1)
  {
    hide Fire;
    FireKeepsIdentity(c, m.replicas[k]);
    if Done(z) {
      assert z.replicas[k].timer.None?;
      NothingToFire(c, m.replicas[k]);
    } else {
      forall i | 0 <= i < |results| ensures z.replicas[i].run.id == results[i].replica.id {
        FireKeepsIdentity(c, m.replicas[i]);
        assert SameReplica(m.replicas[i], results[i].replica);
      }
      assert FindReplica(z.replicas, results[k].replica.id) == k;
    }
  }

  lemma NothingToFire(c: Config, l: Local)
    requires l.timer.None?
    ensures Fire(c, l) == l
  {
  }

  lemma {:induction false} AllFire(c: Config, m: Master, results: seq<DispatchResult>, k: nat)
    requires m.settled && Identified(m.replicas, results) && DistinctResults(results) && k <= |results|
    ensures Fired(c, m, Run(c, m, Expiries(results)[..k]), k)
  {
    hide Step, Fire, Identified, DistinctResults;
    if k > 0 {
      AllFire(c, m, results, k - 1);
      assert Expiries(results)[..k][..k - 1] == Expiries(results)[..k - 1];
      OneMoreFires(c, m, Run(c, m, Expiries(results)[..k - 1]), results, k - 1);
    }
  }

  lemma AFiredTimerSettles(c: Config, l: Local)
    requires Watched(l)
    ensures Fire(c, l).timer.None?
    ensures Fire(c, l).run.status
         == if Terminal(l.run.status) then l.run.status else if l.run.status == Restarting then Failed else Timeout
  {
  }

  /** Whatever a run has seen, once the timers have fired it is over: no replica can keep it waiting. */
  lemma TheTimersEndEveryRun(c: Config, pre: seq<Event>, results: seq<DispatchResult>, now: int, post: seq<Event>)
    requires Observed(c, pre, results, now, post)
    ensures var m := WholeRun(c, pre, results, now, post);
            var z := Run(c, m, Expiries(results));
            && Done(z) && |z.replicas| == |m.replicas|
            && forall i :: 0 <= i < |m.replicas| ==>
                 z.replicas[i].run.status == if Terminal(m.replicas[i].run.status) then m.replicas[i].run.status
                                             else if m.replicas[i].run.status == Restarting then Failed else Timeout
  {
    hide Run, Observed, Step, Fire, Watched;
    var m := WholeRun(c, pre, results, now, post);
    SettledAndIdentified(c, pre, results, now, post);
    EveryWaitHasATimer(c, pre, results, now, post);
    AllFire(c, m, results, |results|);
    assert Expiries(results)[..|results|] == Expiries(results);
    forall i | 0 <= i < |m.replicas| {
      AFiredTimerSettles(c, m.replicas[i]);
    }
  }

  lemma SettledAndIdentified(c: Config, pre: seq<Event>, results: seq<DispatchResult>, now: int, post: seq<Event>)
    requires Observed(c, pre, results, now, post)
    ensures DistinctResults(results)
    ensures var m := WholeRun(c, pre, results, now, post); m.settled && Identified(m.replicas, results)
  {
    if results == [] {
      DispatchesNobody(c, pre, results, now, post);
      OnlyBuffering(c, pre);
    } else {
      BufferingRefinesDirectDelivery(c, pre, results, now, post, 0);
    }
  }

  // ------------------------------------------------------------------ the verdict, without the machine

  predicate Announces(e: LocalEvent) {
    e.Got? && e.frame.Finished? && e.frame.restarting
  }

  predicate Reports(e: LocalEvent) {
    e.Got? && e.frame.Finished? && !e.frame.restarting
  }

  predicate Announced(es: seq<LocalEvent>) {
    exists i :: 0 <= i < |es| && Announces(es[i])
  }

  /** The event at `j` ends the replica's run: a final report, an expiry, or an awaited reconnect. */
  predicate Decisive(es: seq<LocalEvent>, j: nat)
    requires j < |es|
  {
    Reports(es[j]) || es[j].TimerFired? || (es[j].Reconnected? && Announced(es[..j]))
  }

  predicate Undecided(es: seq<LocalEvent>) {
    forall j :: 0 <= j < |es| ==> !Decisive(es, j)
  }

  /** The status given by the event that decides, after the undecided `before`. */
  function VerdictAt(before: seq<LocalEvent>, e: LocalEvent): RunStatus {
    match e
    case Got(f, _) => if f.Finished? && f.ok then Success else Failed
    case Reconnected => Success
    case TimerFired => if Announced(before) then Failed else Timeout
  }

  /** An event that decides nothing leaves the status, except that it may announce a restart. */
  lemma OneUndecidedEvent(c: Config, l: Local, e: LocalEvent)
    requires l.run.status == Running || l.run.status == Restarting
    requires !Reports(e) && !e.TimerFired? && (e.Reconnected? ==> l.run.status != Restarting)
    ensures LocalStep(c, l, e).run.status == if Announces(e) then Restarting else l.run.status
  {
  }

  lemma {:induction false} UndecidedStatus(c: Config, r: DispatchResult, now: int, es: seq<LocalEvent>)
    requires r.ack.Some? && r.ack.value.accepted && Undecided(es)
    ensures FoldLocal(c, Direct(c, r, now), es).run.status == if Announced(es) then Restarting else Running
  {
    hide LocalStep;
    if es != [] {
      var before := es[..|es| - 1];
      forall j | 0 <= j < |before| ensures !Decisive(before, j) {
        assert before[..j] == es[..j];
        assert !Decisive(es, j);
      }
      UndecidedStatus(c, r, now, before);
      assert !Decisive(es, |es| - 1);
      assert Announced(es) <==> Announced(before) || Announces(es[|es| - 1]);
      OneUndecidedEvent(c, FoldLocal(c, Direct(c, r, now), before), es[|es| - 1]);
    }
  }

  lemma {:induction false} FoldSplit(c: Config, l: Local, es: seq<LocalEvent>, more: seq<LocalEvent>)
    ensures FoldLocal(c, l, es + more) == FoldLocal(c, FoldLocal(c, l, es), more)
  {
    if more == [] {
      assert es + more == es;
    } else {
      assert (es + more)[..|es + more| - 1] == es + more[..|more| - 1];
      FoldSplit(c, l, es, more[..|more| - 1]);
    }
  }

  lemma {:induction false} FoldKeepsTerminal(c: Config, l: Local, es: seq<LocalEvent>)
    requires Terminal(l.run.status) && l.timer.None?
    ensures FoldLocal(c, l, es).run.status == l.run.status && FoldLocal(c, l, es).timer.None?
  {
    if es != [] {
      FoldKeepsTerminal(c, l, es[..|es| - 1]);
    }
  }

  /** The first decisive event fixes the verdict, whatever follows it. */
  lemma FirstDecisiveEventIsTheVerdict(c: Config, r: DispatchResult, now: int, es: seq<LocalEvent>, j: nat)
    requires r.ack.Some? && r.ack.value.accepted
    requires j < |es| && Decisive(es, j) && Undecided(es[..j])
    ensures FoldLocal(c, Direct(c, r, now), es).run.status == VerdictAt(es[..j], es[j])
  {
    hide FoldLocal, Undecided;
    UndecidedStatus(c, r, now, es[..j]);
    FoldKeepsWatched(c, Direct(c, r, now), es[..j]);
    assert es == es[..j] + [es[j]] + es[j + 1..];
    FoldSnoc(c, Direct(c, r, now), es[..j], [es[j]]);
    FoldSplit(c, Direct(c, r, now), es[..j] + [es[j]], es[j + 1..]);
    var decided := FoldLocal(c, Direct(c, r, now), es[..j] + [es[j]]);
    assert decided == LocalStep(c, FoldLocal(c, Direct(c, r, now), es[..j]), es[j]);
    FoldKeepsTerminal(c, decided, es[j + 1..]);
  }

  lemma {:induction false} DecidedOrNot(es: seq<LocalEvent>) returns (j: nat)
    ensures j <= |es| && Undecided(es[..j]) && (j < |es| ==> Decisive(es, j))
  {
    if es == [] {
      j := 0;
    } else {
      var before := es[..|es| - 1];
      j := DecidedOrNot(before);
      assert before[..j] == es[..j];
      if j == |before| && !Decisive(es, j) {
        var wider := es[..j + 1];
        forall k | 0 <= k < |wider| ensures !Decisive(wider, k) {
          assert wider[..k] == es[..k];
          if k < j { assert !Decisive(es[..j], k) && es[..j][..k] == es[..k]; }
        }
        j := j + 1;
      }
    }
  }

  /** Proof of a success: an ok report, or a restart announced and then a reconnect. */
  ghost predicate Proven(es: seq<LocalEvent>) {
    || (exists j :: 0 <= j < |es| && Reports(es[j]) && es[j].frame.ok)
    || (exists i, j :: 0 <= i < j < |es| && Announces(es[i]) && es[j].Reconnected?)
  }

  lemma SuccessIsProven(c: Config, r: DispatchResult, now: int, es: seq<LocalEvent>)
    requires FoldLocal(c, Direct(c, r, now), es).run.status == Success
    ensures r.ack.Some? && r.ack.value.accepted && Proven(es)
  {
    if r.ack.None? || !r.ack.value.accepted {
      FoldKeepsTerminal(c, Direct(c, r, now), es);
    }
    var j := DecidedOrNot(es);
    if j == |es| {
      assert es[..j] == es;
      UndecidedStatus(c, r, now, es);
    } else {
      FirstDecisiveEventIsTheVerdict(c, r, now, es, j);
      if es[j].Reconnected? {
        var i :| 0 <= i < |es[..j]| && Announces(es[..j][i]);
        assert 0 <= i < j < |es| && Announces(es[i]);
      }
    }
  }

  /** In a whole run: success of replica `i` is proven by its own events of this run id. */
  lemma SuccessInARunIsProven(c: Config, pre: seq<Event>, results: seq<DispatchResult>, now: int, post: seq<Event>,
                              i: nat)
    requires Observed(c, pre, results, now, post) && i < |results|
    requires |WholeRun(c, pre, results, now, post).replicas| == |results|
    requires WholeRun(c, pre, results, now, post).replicas[i].run.status == Success
    ensures Proven(OwnFrames(c, results[i].replica, now, pre) + Own(c, results[i].replica, post))
  {
    BufferingRefinesDirectDelivery(c, pre, results, now, post, i);
    SuccessIsProven(c, results[i], now, OwnFrames(c, results[i].replica, now, pre) + Own(c, results[i].replica, post));
  }

  // ------------------------------------------------------------------ early reconnects

  predicate OnlyReconnectsAndTimers(es: seq<LocalEvent>) {
    forall e :: e in es ==> !e.Got?
  }

  /**
   * A replica that had already announced its restart when the dispatch settled (and sends nothing
   * more) ends in success exactly when it reconnects after that and before the grace timer: a
   * reconnect that came earlier, however genuine, does not help.
   */
  lemma OnlyALateReconnectCounts(c: Config, r: DispatchResult, now: int, early: seq<LocalEvent>, late: seq<LocalEvent>)
    requires FoldLocal(c, Direct(c, r, now), early).run.status == Restarting && OnlyReconnectsAndTimers(late)
    ensures FoldLocal(c, Direct(c, r, now), early + late).run.status == Success <==> late != [] && late[0].Reconnected?
  {
    hide FoldLocal;
    var waiting := FoldLocal(c, Direct(c, r, now), early);
    FoldSplit(c, Direct(c, r, now), early, late);
    NotAcceptedNeverWaits(c, r, now, early);
    FoldKeepsWatched(c, Direct(c, r, now), early);
    FoldNothing(c, waiting);
    if late != [] {
      var next := LocalStep(c, waiting, late[0]);
      assert late == [late[0]] + late[1..];
      FoldSplit(c, waiting, [late[0]], late[1..]);
      FoldSnoc(c, waiting, [], [late[0]]);
      assert [] + [late[0]] == [late[0]];
      assert late[0] in late;
      FoldKeepsTerminal(c, next, late[1..]);
    }
  }

  lemma FoldNothing(c: Config, l: Local)
    ensures FoldLocal(c, l, []) == l
  {
  }

  lemma NotAcceptedNeverWaits(c: Config, r: DispatchResult, now: int, es: seq<LocalEvent>)
    ensures FoldLocal(c, Direct(c, r, now), es).run.status == Restarting ==> r.ack.Some? && r.ack.value.accepted
  {
    if r.ack.None? || !r.ack.value.accepted {
      FoldKeepsTerminal(c, Direct(c, r, now), es);
    }
  }

  /**
   * The failing input: one replica announces its restart and is back online while the ack of
   * another is still awaited. Its reconnect is not recorded, and the grace timer fails it.
   */
  lemma EarlyReconnectIsLost(c: Config, r: DispatchResult, other: DispatchResult, at: int, now: int)
    requires r.ack.Some? && r.ack.value.accepted && r.replica.id != other.replica.id
    ensures var pre := [Progress(r.replica.id, Finished(c.runId, true, true, None), at), Online(r.replica)];
            && Observed(c, pre, [r, other], now, [Expired(r.replica.id)])
            && WholeRun(c, pre, [r, other], now, [Expired(r.replica.id)]).replicas[0].run.status == Failed
  {
    var announce := Finished(c.runId, true, true, None);
    var pre := [Progress(r.replica.id, announce, at), Online(r.replica)];
    EarlyReconnectIsNotKept(c, r.replica, announce, at, now);
    OneExpiryOfIts(c, r.replica);
    AnnouncedAndExpired(c, r, announce, now);
    ExpiredOnce(c, pre, r, other, now);
  }

  lemma OneExpiryOfIts(c: Config, who: LinkInfo)
    ensures Own(c, who, []) == [] && Own(c, who, [Expired(who.id)]) == [TimerFired]
  {
    assert [Expired(who.id)][..0] == [];
  }

  lemma AnnouncedAndExpired(c: Config, r: DispatchResult, f: Frame, now: int)
    requires r.ack.Some? && r.ack.value.accepted && f.Finished? && f.restarting
    ensures FoldLocal(c, Direct(c, r, now), [Got(f, now)]).timer.Some?
    ensures FoldLocal(c, Direct(c, r, now), [Got(f, now)] + [TimerFired]).run.status == Failed
  {
    FoldSnoc(c, Direct(c, r, now), [], [Got(f, now)]);
    FoldSnoc(c, Direct(c, r, now), [Got(f, now)], [TimerFired]);
    assert [] + [Got(f, now)] == [Got(f, now)];
  }

  /** The expiry of a replica still waiting when the dispatch settles is observed. */
  lemma ExpiredOnce(c: Config, pre: seq<Event>, r: DispatchResult, other: DispatchResult, now: int)
    requires NoDispatch(pre) && r.replica.id != other.replica.id
    requires FoldLocal(c, Direct(c, r, now), OwnFrames(c, r.replica, now, pre)).timer.Some?
    ensures var post := [Expired(r.replica.id)];
            && Observed(c, pre, [r, other], now, post)
            && WholeRun(c, pre, [r, other], now, post).replicas != []
            && WholeRun(c, pre, [r, other], now, post).replicas[0]
               == FoldLocal(c, Direct(c, r, now), OwnFrames(c, r.replica, now, pre) + Own(c, r.replica, post))
  {
    hide FoldLocal, OwnFrames, Own, Direct, WholeRun;
    var results, post := [r, other], [Expired(r.replica.id)];
    assert post[..0] == [];
    BufferingRefinesDirectDelivery(c, pre, results, now, [], 0);
    OneExpiryOfIts(c, r.replica);
    assert OwnFrames(c, r.replica, now, pre) + [] == OwnFrames(c, r.replica, now, pre);
    BufferingRefinesDirectDelivery(c, pre, results, now, post, 0);
  }

  lemma EarlyReconnectIsNotKept(c: Config, who: LinkInfo, f: Frame, at: int, now: int)
    requires f.runId == c.runId
    ensures OwnFrames(c, who, now, [Progress(who.id, f, at), Online(who)]) == [Got(f, now)]
  {
    var pre := [Progress(who.id, f, at), Online(who)];
    assert pre[..1] == [pre[0]] && pre[..1][..0] == [];
    assert OwnFrames(c, who, now, pre[..1]) == [Got(f, now)];
  }

  // ------------------------------------------------------------------ when the timer is due

  /** When the last announcement of a restart came. */
  function LastAnnounced(es: seq<LocalEvent>): int
    requires Announced(es)
  {
    if Announces(es[|es| - 1]) then es[|es| - 1].at
    else
      assert Announced(es[..|es| - 1]) by { AnnouncedBefore(es); }
      LastAnnounced(es[..|es| - 1])
  }

  lemma AnnouncedBefore(es: seq<LocalEvent>)
    requires Announced(es) && !Announces(es[|es| - 1])
    ensures Announced(es[..|es| - 1])
  {
    var i :| 0 <= i < |es| && Announces(es[i]);
    assert es[..|es| - 1][i] == es[i];
  }

  lemma OneEventOnTheTimer(c: Config, l: Local, e: LocalEvent)
    requires Watched(l) && (l.run.status == Running || l.run.status == Restarting)
    requires !Reports(e) && !e.TimerFired? && (e.Reconnected? ==> l.run.status != Restarting)
    ensures LocalStep(c, l, e).timer == if Announces(e) then Some(RestartTimer(e.at + c.graceMs)) else l.timer
  {
  }

  /**
   * While a replica is undecided its timer is due `timeoutMs` after the dispatch settled, whatever it has
   * streamed since; once it announces a restart, `graceMs` after the last announcement.
   */
  lemma {:induction false} TheTimerIsDue(c: Config, r: DispatchResult, now: int, es: seq<LocalEvent>)
    requires r.ack.Some? && r.ack.value.accepted && Undecided(es)
    ensures FoldLocal(c, Direct(c, r, now), es).timer ==
            Some(if Announced(es) then RestartTimer(LastAnnounced(es) + c.graceMs)
                 else PipelineTimer(now + c.timeoutMs))
  {
    hide LocalStep, Watched;
    if es != [] {
      var before, e := es[..|es| - 1], es[|es| - 1];
      forall j | 0 <= j < |before| ensures !Decisive(before, j) {
        assert before[..j] == es[..j];
        assert !Decisive(es, j);
      }
      TheTimerIsDue(c, r, now, before);
      UndecidedStatus(c, r, now, before);
      DirectIsWatched(c, r, now);
      FoldKeepsWatched(c, Direct(c, r, now), before);
      assert !Decisive(es, |es| - 1);
      OneEventOnTheTimer(c, FoldLocal(c, Direct(c, r, now), before), e);
      if Announced(es) && !Announces(e) {
        AnnouncedBefore(es);
      }
      if Announced(before) {
        var i :| 0 <= i < |before| && Announces(before[i]);
        assert Announces(es[i]);
      }
    }
  }

  lemma DirectIsWatched(c: Config, r: DispatchResult, now: int)
    ensures Watched(Direct(c, r, now))
  {
  }

  /**
   * "Went quiet" is a total timeout: in any run, a replica whose frames so far do not finish, however
   * recent the last, has its timer due `timeoutMs` after the dispatch settled and times out when it fires.
   */
  lemma QuietIsATotalTimeout(c: Config, pre: seq<Event>, results: seq<DispatchResult>, now: int, post: seq<Event>,
                             i: nat)
    requires Observed(c, pre, results, now, post) && i < |results|
    requires results[i].ack.Some? && results[i].ack.value.accepted
    requires forall e :: e in OwnFrames(c, results[i].replica, now, pre) + Own(c, results[i].replica, post) ==>
               !e.TimerFired? && (e.Got? ==> !e.frame.Finished?)
    ensures var m := WholeRun(c, pre, results, now, post);
            && i < |m.replicas| && m.replicas[i].timer == Some(PipelineTimer(now + c.timeoutMs))
            && Fire(c, m.replicas[i]).run.status == Timeout
  {
    hide FoldLocal, Direct, Observed, WholeRun, OwnFrames, Own;
    var own := OwnFrames(c, results[i].replica, now, pre) + Own(c, results[i].replica, post);
    BufferingRefinesDirectDelivery(c, pre, results, now, post, i);
    forall j | 0 <= j < |own| ensures !Decisive(own, j) && !Announces(own[j]) {
      assert own[j] in own;
      assert forall k :: 0 <= k < j ==> own[..j][k] in own;
    }
    UndecidedStatus(c, results[i], now, own);
    TheTimerIsDue(c, results[i], now, own);
  }

  // ------------------------------------------------------------------ what is not looked at

  /** A finished frame that announces a restart is confirmed by a reconnect, also when it says the run failed. */
  lemma ARestartReportIsTakenWhateverItSays(c: Config, r: DispatchResult, now: int, es: seq<LocalEvent>, at: int,
                                            ok: bool, error: Option<string>)
    requires r.ack.Some? && r.ack.value.accepted && Undecided(es)
    ensures var report := Got(Finished(c.runId, ok, true, error), at);
            FoldLocal(c, Direct(c, r, now), es + [report] + [Reconnected]).run.status == Success
  {
    var report := Got(Finished(c.runId, ok, true, error), at);
    hide Undecided, Direct;
    UndecidedStatus(c, r, now, es);
    FoldSnoc(c, Direct(c, r, now), es, [report]);
    FoldSnoc(c, Direct(c, r, now), es + [report], [Reconnected]);
  }

  /** A waiting replica is confirmed by any client of its name and address that comes online, of either role. */
  lemma AReconnectOfEitherRoleConfirms(c: Config, pre: seq<Event>, results: seq<DispatchResult>, now: int,
                                       post: seq<Event>,
                                       i: nat, client: LinkInfo)
    requires Observed(c, pre, results, now, post) && i < |results|
    requires i < |WholeRun(c, pre, results, now, post).replicas|
    requires WholeRun(c, pre, results, now, post).replicas[i].run.status == Restarting
    requires client.deviceName == results[i].replica.deviceName && client.ip == results[i].replica.ip
    ensures var m := WholeRun(c, pre, results, now, post + [Online(client)]);
            i < |m.replicas| && m.replicas[i].run.status == Success
  {
    var e := Online(client);
    assert (post + [e])[..|post|] == post;
    SettledAndIdentified(c, pre, results, now, post);
    EveryWaitHasATimer(c, pre, results, now, post);
    var m := WholeRun(c, pre, results, now, post);
    assert m.replicas[i].timer.Some?;
    assert SameReplica(m.replicas[i], results[i].replica);
  }

  // ------------------------------------------------------------------ steps and output

  function Frames(es: seq<LocalEvent>): seq<Frame> {
    if es == [] then []
    else Frames(es[..|es| - 1]) + if es[|es| - 1].Got? then [es[|es| - 1].frame] else []
  }

  function ApplyToSteps(steps: seq<StepState>, f: Frame): seq<StepState> {
    match f
    case StepStart(_, step) => StartStep(steps, OrElse(step, "unknown"))
    case StepComplete(_, step, failed, error) => CompleteStep(steps, OrElse(step, "unknown"), failed, error)
    case _ => steps
  }

  function FoldSteps(steps: seq<StepState>, fs: seq<Frame>): seq<StepState> {
    if fs == [] then steps else ApplyToSteps(FoldSteps(steps, fs[..|fs| - 1]), fs[|fs| - 1])
  }

  lemma OneStepOnSteps(c: Config, l: Local, e: LocalEvent)
    ensures LocalStep(c, l, e).run.steps == if e.Got? then ApplyToSteps(l.run.steps, e.frame) else l.run.steps
  {
  }

  /** The timeline shown is a function of the replica's own frames alone: no status or timer touches it. */
  lemma {:induction false} StepsAreTheFoldOfFrames(c: Config, l: Local, es: seq<LocalEvent>)
    ensures FoldLocal(c, l, es).run.steps == FoldSteps(l.run.steps, Frames(es))
  {
    if es != [] {
      var before := es[..|es| - 1];
      StepsAreTheFoldOfFrames(c, l, before);
      OneStepOnSteps(c, FoldLocal(c, l, before), es[|es| - 1]);
      if es[|es| - 1].Got? {
        assert Frames(es)[..|Frames(es)| - 1] == Frames(before);
      } else {
        assert Frames(es) == Frames(before);
      }
    }
  }

  /** The text one event adds to the log of a replica in state `l`. */
  function Said(c: Config, l: Local, e: LocalEvent): string {
    match e
    case Got(f, _) =>
      if f.StepOutput? then f.output
      else if f.Finished? && f.restarting && !Terminal(l.run.status) then c.waitingLine
      else ""
    case Reconnected => if l.run.status == Restarting then c.reconnectedLine else ""
    case TimerFired =>
      match l.timer
      case None => ""
      case Some(PipelineTimer(_)) => c.quietReason + ".\n"
      case Some(RestartTimer(_)) => c.graceReason + ".\n"
  }

  function FullLog(c: Config, l: Local, es: seq<LocalEvent>): string {
    if es == [] then ""
    else FullLog(c, l, es[..|es| - 1]) + Said(c, FoldLocal(c, l, es[..|es| - 1]), es[|es| - 1])
  }

  function Tail(limit: nat, text: string): string
    requires limit <= |text|
  {
    text[|text| - limit..]
  }

  /** Only the last `limit` characters of a long text matter for the tail of its extension. */
  lemma TailOfExtension(limit: nat, s: string, t: string, b: string)
    requires limit <= |s| && limit <= |t| && Tail(limit, s) == Tail(limit, t)
    ensures Tail(limit, s + b) == Tail(limit, t + b)
  {
    forall k | 0 <= k < limit ensures Tail(limit, s + b)[k] == Tail(limit, t + b)[k] {
      if k + |b| < limit {
        assert Tail(limit, s)[k + |b|] == Tail(limit, t)[k + |b|];
      }
    }
  }

  lemma TrimmingComposes(marker: string, limit: nat, a: string, b: string)
    requires |marker| > 0
    ensures TrimTo(marker, limit, TrimTo(marker, limit, a) + b) == TrimTo(marker, limit, a + b)
  {
    if |a| > limit {
      assert Tail(limit, marker + Tail(limit, a)) == Tail(limit, a);
      TailOfExtension(limit, marker + Tail(limit, a), a, b);
    }
  }

  lemma {:induction false} OutputIsTrimmed(c: Config, l: Local, es: seq<LocalEvent>)
    requires l.run.output == "" && c.trimMarker != ""
    ensures FoldLocal(c, l, es).run.output == TrimTo(c.trimMarker, MAX_OUTPUT_CHARS, FullLog(c, l, es))
  {
    if es != [] {
      var before := es[..|es| - 1];
      OutputIsTrimmed(c, l, before);
      var said := Said(c, FoldLocal(c, l, before), es[|es| - 1]);
      TrimmingComposes(c.trimMarker, MAX_OUTPUT_CHARS, FullLog(c, l, before), said);
      if said == "" {
        assert FullLog(c, l, es) == FullLog(c, l, before);
      }
    }
  }

  /**
   * However it was chunked and trimmed on the way, the log shown is everything said, or the marker and
   * the last 65536 characters of it.
   */
  lemma OutputIsTheTailOfTheLog(c: Config, l: Local, es: seq<LocalEvent>)
    requires l.run.output == "" && c.trimMarker != ""
    ensures var text, shown := FullLog(c, l, es), FoldLocal(c, l, es).run.output;
            && (|text| <= 65536 ==> shown == text)
            && (|text| > 65536 ==> shown == c.trimMarker + text[|text| - 65536..])
  {
    hide FoldLocal, FullLog;
    OutputIsTrimmed(c, l, es);
  }

  /** The text an event adds, told from the replica's earlier events alone. */
  function SaidAfter(c: Config, before: seq<LocalEvent>, e: LocalEvent): string {
    match e
    case Got(f, _) =>
      if f.StepOutput? then f.output
      else if Announces(e) && Undecided(before) then c.waitingLine
      else ""
    case Reconnected => if Announced(before) && Undecided(before) then c.reconnectedLine else ""
    case TimerFired =>
      if !Undecided(before) then ""
      else (if Announced(before) then c.graceReason else c.quietReason) + ".\n"
  }

  function EventText(c: Config, es: seq<LocalEvent>): string {
    if es == [] then "" else EventText(c, es[..|es| - 1]) + SaidAfter(c, es[..|es| - 1], es[|es| - 1])
  }

  lemma DecidedIsTerminal(c: Config, r: DispatchResult, now: int, es: seq<LocalEvent>)
    requires r.ack.Some? && r.ack.value.accepted && !Undecided(es)
    ensures Terminal(FoldLocal(c, Direct(c, r, now), es).run.status)
  {
    var j := DecidedOrNot(es);
    assert es[..|es|] == es;
    FirstDecisiveEventIsTheVerdict(c, r, now, es, j);
  }

  lemma SaidIsSaidAfter(c: Config, r: DispatchResult, now: int, es: seq<LocalEvent>, e: LocalEvent)
    requires r.ack.Some? && r.ack.value.accepted
    ensures Said(c, FoldLocal(c, Direct(c, r, now), es), e) == SaidAfter(c, es, e)
  {
    hide FoldLocal, Undecided, Announced;
    FoldKeepsWatched(c, Direct(c, r, now), es);
    if Undecided(es) {
      UndecidedStatus(c, r, now, es);
    } else {
      DecidedIsTerminal(c, r, now, es);
    }
  }

  /**
   * The log of an accepted replica is what its events say, whole up to 65536 characters and from then on
   * the marker and the last 65536; no state decides what they say.
   */
  lemma {:induction false} LogIsWhatTheEventsSay(c: Config, r: DispatchResult, now: int, es: seq<LocalEvent>)
    requires r.ack.Some? && r.ack.value.accepted && c.trimMarker != ""
    ensures FullLog(c, Direct(c, r, now), es) == EventText(c, es)
    ensures var text, shown := EventText(c, es), FoldLocal(c, Direct(c, r, now), es).run.output;
            && (|text| <= 65536 ==> shown == text)
            && (|text| > 65536 ==> shown == c.trimMarker + text[|text| - 65536..])
  {
    hide FoldLocal, Said, SaidAfter;
    if es != [] {
      LogIsWhatTheEventsSay(c, r, now, es[..|es| - 1]);
      SaidIsSaidAfter(c, r, now, es[..|es| - 1], es[|es| - 1]);
    }
    OutputIsTheTailOfTheLog(c, Direct(c, r, now), es);
  }

  lemma DecidedStays(es: seq<LocalEvent>, e: LocalEvent)
    requires !Undecided(es)
    ensures !Undecided(es + [e])
  {
    var j :| 0 <= j < |es| && Decisive(es, j);
    assert (es + [e])[..j] == es[..j];
    assert Decisive(es + [e], j);
  }

  lemma TextOfOneMore(c: Config, es: seq<LocalEvent>)
    requires es != []
    ensures EventText(c, es) == EventText(c, es[..|es| - 1]) + SaidAfter(c, es[..|es| - 1], es[|es| - 1])
  {
  }

  /** Once decided, reconnects and timers say nothing. */
  lemma {:induction false} DecidedSaysNothing(c: Config, es: seq<LocalEvent>, late: seq<LocalEvent>)
    requires !Undecided(es) && OnlyReconnectsAndTimers(late)
    ensures !Undecided(es + late) && EventText(c, es + late) == EventText(c, es)
  {
    hide EventText, Undecided, Announced;
    if late == [] {
      assert es + late == es;
    } else {
      var before, e := late[..|late| - 1], late[|late| - 1];
      DecidedSaysNothing(c, es, before);
      TextOfOneMore(c, es + late);
      DecidedStays(es + before, e);
      assert es + late == es + before + [e] && (es + late)[..|es + late| - 1] == es + before;
      assert !e.Got?;
    }
  }
}
