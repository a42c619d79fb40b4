/** Which claims of the stale-replica check are justified, over every run of it among requests. */
module StaleClaims {
  import opened Options
  import opened StaleReplicas

  lemma {:induction false} RunOneMore(s: State, steps: seq<Step>, step: Step)
    ensures var (u, log) := Run(s, steps);
            Run(s, steps + [step]) == (Next(u, step).0, log + Next(u, step).1)
    decreases |steps|
  {
    hide Next;
    if steps == [] {
      assert steps + [step] == [step] && [step][1..] == [];
      assert Run(Next(s, step).0, []) == (Next(s, step).0, []);
      assert Next(s, step).1 + [] == [] + Next(s, step).1;
    } else {
      assert (steps + [step])[1..] == steps[1..] + [step];
      var one, more := Next(s, steps[0]), Run(Next(s, steps[0]).0, steps[1..]);
      RunOneMore(one.0, steps[1..], step);
      assert (one.1 + more.1) + Next(more.0, step).1 == one.1 + (more.1 + Next(more.0, step).1);
    }
  }

  lemma RunButLast(s: State, steps: seq<Step>)
    requires steps != []
    ensures var n := |steps| - 1; var (u, log) := Run(s, steps[..n]);
            Run(s, steps) == (Next(u, steps[n]).0, log + Next(u, steps[n]).1)
  {
    assert steps == steps[..|steps| - 1] + [steps[|steps| - 1]];
    RunOneMore(s, steps[..|steps| - 1], steps[|steps| - 1]);
  }

  // ------------------------------------------------------------------ what a run did last

  predicate Writes(u: State, step: Step, key: string) {
    step.WriteRecord? && step.id in u.requests && u.requests[step.id].key == key
  }

  predicate TakesSnapshot(u: State, step: Step, id: nat) {
    step.TakeSnapshot? && step.id == id && id !in u.checks && IsSnapshotOrder(u.redis, step.order)
  }

  /** The step of a write, and the time of the request that made it. */
  datatype Write = Write(at: nat, time: int)

  function LastWrite(s: State, steps: seq<Step>, key: string): Option<Write> {
    if steps == [] then None
    else
      var n := |steps| - 1;
      var u := Run(s, steps[..n]).0;
      if Writes(u, steps[n], key) then Some(Write(n, u.requests[steps[n].id].now)) else LastWrite(s, steps[..n], key)
  }

  /** The step at which the check under way as `id` took its snapshot. */
  function SnapshotStep(s: State, steps: seq<Step>, id: nat): Option<nat> {
    if steps == [] then None
    else
      var n := |steps| - 1;
      if TakesSnapshot(Run(s, steps[..n]).0, steps[n], id) then Some(n) else SnapshotStep(s, steps[..n], id)
  }

  /** The last write of the key came after the check's snapshot. */
  predicate WrittenSince(s: State, steps: seq<Step>, key: string, id: nat) {
    && LastWrite(s, steps, key).Some? && SnapshotStep(s, steps, id).Some?
    && SnapshotStep(s, steps, id).value < LastWrite(s, steps, key).value.at
  }

  // ------------------------------------------------------------------ the invariant of every run

  /** A key that was written and is there holds the time of its last write. */
  predicate Dated(u: State, key: string, w: Option<Write>) {
    key in u.redis && w.Some? ==> u.redis[key].Record? && u.redis[key].lastSeenAt == w.value.time
  }

  /** A queued entry is absent now, or was written since the snapshot, or is as the snapshot has it. */
  predicate Tracked(u: State, queued: (string, Entry), since: bool) {
    queued.0 in u.redis && !since ==> u.redis[queued.0] == queued.1
  }

  ghost predicate Faithful(s: State, steps: seq<Step>, u: State) {
    && (forall key :: Dated(u, key, LastWrite(s, steps, key)))
    && (forall key :: LastWrite(s, steps, key).Some? ==> LastWrite(s, steps, key).value.at < |steps|)
    && (forall id :: id in u.checks ==>
          && SnapshotStep(s, steps, id).Some? && SnapshotStep(s, steps, id).value < |steps|
          && forall i :: 0 <= i < |u.checks[id].queue| ==>
               Tracked(u, u.checks[id].queue[i], WrittenSince(s, steps, u.checks[id].queue[i].0, id)))
  }

  lemma LastWriteButLast(s: State, steps: seq<Step>, step: Step, key: string)
    ensures LastWrite(s, steps + [step], key) ==
            var u := Run(s, steps).0;
            if Writes(u, step, key) then Some(Write(|steps|, u.requests[step.id].now)) else LastWrite(s, steps, key)
  {
    assert (steps + [step])[..|steps|] == steps;
  }

  lemma SnapshotStepButLast(s: State, steps: seq<Step>, step: Step, id: nat)
    ensures SnapshotStep(s, steps + [step], id) ==
            if TakesSnapshot(Run(s, steps).0, step, id) then Some(|steps|) else SnapshotStep(s, steps, id)
  {
    assert (steps + [step])[..|steps|] == steps;
  }

  lemma StepStaysDated(u: State, step: Step, key: string, w: Option<Write>, n: nat)
    requires Dated(u, key, w)
    ensures Dated(Next(u, step).0, key, if Writes(u, step, key) then Some(Write(n, u.requests[step.id].now)) else w)
  {
    hide IsSnapshotOrder, Entries, Stale;
  }

  /** Without a write of the key, what a step leaves of it is what was there. */
  lemma UnwrittenStays(u: State, step: Step, key: string)
    requires !Writes(u, step, key)
    ensures var v := Next(u, step).0; key in v.redis ==> key in u.redis && v.redis[key] == u.redis[key]
  {
    hide IsSnapshotOrder, Entries, Stale;
  }

  /** What a step does to the queue of a check. */
  lemma QueuesShrink(u: State, step: Step, id: nat)
    requires id in Next(u, step).0.checks
    ensures TakesSnapshot(u, step, id) ==>
              forall i :: 0 <= i < |Next(u, step).0.checks[id].queue| ==>
                var (k, e) := Next(u, step).0.checks[id].queue[i]; k in u.redis && u.redis[k] == e
    ensures !TakesSnapshot(u, step, id) ==> id in u.checks
    ensures !TakesSnapshot(u, step, id) ==>
              forall x :: x in Next(u, step).0.checks[id].queue ==> x in u.checks[id].queue
  {
    hide Stale;
  }

  lemma StepStaysFaithful(s: State, steps: seq<Step>, step: Step)
    requires Faithful(s, steps, Run(s, steps).0)
    ensures Faithful(s, steps + [step], Next(Run(s, steps).0, step).0)
  {
    hide Next, Writes, TakesSnapshot, Run, LastWrite, SnapshotStep;
    var u := Run(s, steps).0;
    var v, longer := Next(u, step).0, steps + [step];
    forall key
      ensures Dated(v, key, LastWrite(s, longer, key))
      ensures LastWrite(s, longer, key).Some? ==> LastWrite(s, longer, key).value.at < |longer|
    {
      LastWriteButLast(s, steps, step, key);
      StepStaysDated(u, step, key, LastWrite(s, steps, key), |steps|);
    }
    forall id | id in v.checks
      ensures SnapshotStep(s, longer, id).Some? && SnapshotStep(s, longer, id).value < |longer|
      ensures forall i :: 0 <= i < |v.checks[id].queue| ==>
                Tracked(v, v.checks[id].queue[i], WrittenSince(s, longer, v.checks[id].queue[i].0, id))
    {
      SnapshotStepButLast(s, steps, step, id);
      QueuesShrink(u, step, id);
      forall i | 0 <= i < |v.checks[id].queue|
        ensures Tracked(v, v.checks[id].queue[i], WrittenSince(s, longer, v.checks[id].queue[i].0, id))
      {
        var key := v.checks[id].queue[i].0;
        LastWriteButLast(s, steps, step, key);
        if Writes(u, step, key) {
          NotBoth(u, step, key, id);
        } else {
          UnwrittenStays(u, step, key);
        }
        assert v.checks[id].queue[i] in v.checks[id].queue;
      }
    }
  }

  lemma NotBoth(u: State, step: Step, key: string, id: nat)
    ensures !(Writes(u, step, key) && TakesSnapshot(u, step, id))
  {
  }

  lemma {:induction false} EveryRunIsFaithful(s: State, steps: seq<Step>)
    requires s.checks == map[]
    ensures Faithful(s, steps, Run(s, steps).0)
    decreases |steps|
  {
    if steps != [] {
      var n := |steps| - 1;
      EveryRunIsFaithful(s, steps[..n]);
      StepStaysFaithful(s, steps[..n], steps[n]);
      RunButLast(s, steps);
      assert steps == steps[..n] + [steps[n]];
    }
  }

  // ------------------------------------------------------------------ exactly when a claim is justified

  /**
   * In every run from a state without checks: a claim finds an entry and removes it, the check judged
   * the entry its snapshot held, and the one it removes is not stale exactly when the key's last
   * write came after that snapshot, by a request whose time is not stale for the check.
   */
  lemma AClaimTakesAFreshEntryIff(s: State, steps: seq<Step>, id: nat, key: string)
    requires s.checks == map[]
    requires Next(Run(s, steps).0, CheckNext(id)).1 == [Claimed(key)]
    ensures var u := Run(s, steps).0;
            && id in u.checks && key in u.redis && Next(u, CheckNext(id)).0.redis == u.redis - {key}
            && u.redis[key].Record?
            && (u.checks[id].now - u.redis[key].lastSeenAt <= 86400000 <==>
                WrittenSince(s, steps, key, id)
                && u.checks[id].now - LastWrite(s, steps, key).value.time <= 86400000)
  {
    hide Run, LastWrite, SnapshotStep;
    EveryRunIsFaithful(s, steps);
    var u := Run(s, steps).0;
    assert Tracked(u, u.checks[id].queue[0], WrittenSince(s, steps, u.checks[id].queue[0].0, id));
    assert Dated(u, key, LastWrite(s, steps, key));
  }

  /** The failing run: a replica re-registers between snapshot and claim, and is alerted on and removed all the same. */
  lemma AReplicaThatCameBackIsReportedStale(key: string, old_: Entry, now: int)
    requires old_.Record? && now - old_.lastSeenAt > 86400000
    ensures var s := State(map[key := old_], map[], map[]);
            var r := Run(s,
                [TakeSnapshot(0, now, [key]), ReadRecord(0, key, now), WriteRecord(0), CheckNext(0), MailSent(0)]);
            key !in r.0.redis && r.1 == [Renewed(key), Claimed(key), Alerted(key)]
  {
    var s := State(map[key := old_], map[], map[]);
    var steps := [TakeSnapshot(0, now, [key]), ReadRecord(0, key, now), WriteRecord(0), CheckNext(0), MailSent(0)];
    var s1 := s.(checks := map[0 := Check([(key, old_)], now, None)]);
    assert Entries(s.redis, [key]) == [(key, old_)];
    assert Next(s, steps[0]) == (s1, []);
    var s2 := s1.(requests := map[0 := Request(key, Some(old_), now)]);
    assert Next(s1, steps[1]) == (s2, []);
    var s3 := State(map[key := NewRecord(Some(old_), now)], map[], s1.checks);
    assert Next(s2, steps[2]).0 == s3 && Next(s2, steps[2]).1 == [Renewed(key)];
    OneStepOf(s, steps);
    OneStepOf(s1, steps[1..]);
    OneStepOf(s2, steps[2..]);
    assert steps[3..] == [CheckNext(0), MailSent(0)];
    ClaimedAndMailed(key, old_, now, s3);
  }

  lemma ClaimedAndMailed(key: string, old_: Entry, now: int, s: State)
    requires Stale(old_, now) && key in s.redis && s.checks == map[0 := Check([(key, old_)], now, None)]
    ensures var r := Run(s, [CheckNext(0), MailSent(0)]);
            key !in r.0.redis && r.1 == [Claimed(key), Alerted(key)]
  {
    var c, steps := Check([], now, Some(key)), [CheckNext(0), MailSent(0)];
    assert [(key, old_)][1..] == [];
    assert CheckStep(s.redis, s.checks[0]) == (s.redis - {key}, c, [Claimed(key)]);
    var u := s.(redis := s.redis - {key}, checks := s.checks[0 := c]);
    assert Next(s, steps[0]) == (u, [Claimed(key)]);
    OneStepOf(s, steps);
    OneStepOf(u, steps[1..]);
  }

  lemma OneStepOf(s: State, steps: seq<Step>)
    requires steps != []
    ensures Run(s, steps) == (Run(Next(s, steps[0]).0, steps[1..]).0,
                              Next(s, steps[0]).1 + Run(Next(s, steps[0]).0, steps[1..]).1)
  {
  }

  // ------------------------------------------------------------------ claims and alerts

  /** The step is the failure of a mail about the key. */
  predicate FailsMail(u: State, step: Step, key: string) {
    step.MailFailed? && step.id in u.checks && u.checks[step.id].mailing == Some(key)
  }

  /** The failures of mails about the key in a run, as its steps have them. */
  function FailedMails(s: State, steps: seq<Step>, key: string): set<nat> {
    set j | 0 <= j < |steps| && FailsMail(Run(s, steps[..j]).0, steps[j], key) :: j
  }

  lemma {:induction false} LostAreTheFailedMails(s: State, steps: seq<Step>, key: string)
    ensures Count(Run(s, steps).1, Lost(key)) == |FailedMails(s, steps, key)|
    decreases |steps|
  {
    hide Run, Next, FailsMail, Count;
    if steps == [] {
      NothingHappens(s);
      assert FailedMails(s, steps, key) == {};
    } else {
      var n := |steps| - 1;
      var u := Run(s, steps[..n]).0;
      LostAreTheFailedMails(s, steps[..n], key);
      RunButLast(s, steps);
      CountTogether(Run(s, steps[..n]).1, Next(u, steps[n]).1, Lost(key));
      OneStepLoses(u, steps[n], key);
      FailedMailsButLast(s, steps, key);
    }
  }

  lemma FailedMailsButLast(s: State, steps: seq<Step>, key: string)
    requires steps != []
    ensures var n := |steps| - 1;
            |FailedMails(s, steps, key)| == |FailedMails(s, steps[..n], key)|
              + if FailsMail(Run(s, steps[..n]).0, steps[n], key) then 1 else 0
  {
    hide Run, FailsMail;
    var n := |steps| - 1;
    assert forall j :: 0 <= j < n ==> steps[..n][..j] == steps[..j] && steps[..n][j] == steps[j];
    var before := FailedMails(s, steps[..n], key);
    var now := if FailsMail(Run(s, steps[..n]).0, steps[n], key) then {n} else {};
    assert FailedMails(s, steps, key) == before + now;
    assert before !! now;
  }

  lemma NothingHappens(s: State)
    ensures Run(s, []).1 == [] && forall e :: Count([], e) == 0
  {
  }

  lemma OneStepLoses(u: State, step: Step, key: string)
    ensures Count(Next(u, step).1, Lost(key)) == if FailsMail(u, step, key) then 1 else 0
  {
    hide Count, IsSnapshotOrder, Entries, Stale;
    CountsOf(Next(u, step).1, Lost(key));
  }

  /**
   * The key's claims exceed its alerts by the mails about it that failed in the run and the ones
   * still under way; so every claim has been alerted exactly when there are none of either.
   */
  lemma EveryClaimIsAlertedIff(s: State, steps: seq<Step>, key: string)
    requires Mailing(s, key) == {}
    ensures Count(Run(s, steps).1, Claimed(key)) ==
            Count(Run(s, steps).1, Alerted(key)) + |FailedMails(s, steps, key)| + |Mailing(Run(s, steps).0, key)|
    ensures Count(Run(s, steps).1, Alerted(key)) == Count(Run(s, steps).1, Claimed(key)) <==>
            FailedMails(s, steps, key) == {} && Mailing(Run(s, steps).0, key) == {}
  {
    hide Run, Count;
    EveryRunConserves(s, steps, key);
    LostAreTheFailedMails(s, steps, key);
  }
}
