/** The master's replica registry: re-registration and the stale-replica check, interleaved at every await. */
module StaleReplicas {
  import opened Options

  /** A hash field's value; `Corrupt` does not parse. Times are in milliseconds. */
  datatype Entry = Record(requestCount: nat, firstSeenAt: int, lastSeenAt: int) | Corrupt

  type Registry = map<string, Entry>

  const STALE_CUTOFF_MS := 24 * 60 * 60 * 1000

  predicate Stale(e: Entry, now: int) {
    e.Record? && now - e.lastSeenAt > STALE_CUTOFF_MS
  }

  /** A request between its HGET and its HSET. */
  datatype Request = Request(key: string, existing: Option<Entry>, now: int)

  /** A check between two awaits: what is left of its snapshot, and the key it is mailing about. */
  datatype Check = Check(queue: seq<(string, Entry)>, now: int, mailing: Option<string>)

  datatype State = State(redis: Registry, requests: map<nat, Request>, checks: map<nat, Check>)

  datatype Step =
    | ReadRecord(id: nat, key: string, now: int)
    | WriteRecord(id: nat)
    | TakeSnapshot(id: nat, now: int, order: seq<string>)
    | CheckNext(id: nat)
    | MailSent(id: nat)
    | MailFailed(id: nat)

  datatype Event = Created(key: string) | Renewed(key: string) | Claimed(key: string) | Dropped(key: string)
                 | Alerted(key: string) | Lost(key: string)

  /** The record a request writes. */
  function NewRecord(existing: Option<Entry>, now: int): Entry {
    match existing
    case Some(Record(count, firstSeen, _)) => Record(count + 1, firstSeen, now)
    case _ => Record(1, now, now)
  }

  predicate IsSnapshotOrder(redis: Registry, order: seq<string>) {
    && redis.Keys == (set k | k in order)
    && forall i, j :: 0 <= i < j < |order| ==> order[i] != order[j]
  }

  /** Object.entries of the HGETALL reply. */
  function Entries(redis: Registry, order: seq<string>): (es: seq<(string, Entry)>)
    requires forall i :: 0 <= i < |order| ==> order[i] in redis
    ensures |es| == |order| && forall i :: 0 <= i < |order| ==> es[i] == (order[i], redis[order[i]])
  {
    if order == [] then [] else [(order[0], redis[order[0]])] + Entries(redis, order[1..])
  }

  /** HDEL, and how many fields it removed. */
  function Deleted(redis: Registry, key: string): (Registry, nat) {
    (redis - {key}, if key in redis then 1 else 0)
  }

  /** One turn of the loop over the snapshot. */
  function CheckStep(redis: Registry, c: Check): (r: (Registry, Check, seq<Event>))
    requires c.queue != [] && c.mailing.None?
  {
    var (key, entry) := c.queue[0];
    var rest := c.(queue := c.queue[1..]);
    if entry.Corrupt? then (Deleted(redis, key).0, rest, if key in redis then [Dropped(key)] else [])
    else if !Stale(entry, c.now) || Deleted(redis, key).1 == 0 then (redis, rest, [])
    else (Deleted(redis, key).0, rest.(mailing := Some(key)), [Claimed(key)])
  }

  /** One atomic step of the whole system; a step that is not enabled does nothing. */
  function Next(s: State, step: Step): (State, seq<Event>) {
    match step
    case ReadRecord(id, key, now) =>
      var existing := if key in s.redis then Some(s.redis[key]) else None;
      // A corrupt value makes the request throw here.
      if id in s.requests || existing == Some(Corrupt) then (s, [])
      else (s.(requests := s.requests[id := Request(key, existing, now)]), [])
    case WriteRecord(id) =>
      if id !in s.requests then (s, [])
      else
        var r := s.requests[id];
        (s.(redis := s.redis[r.key := NewRecord(r.existing, r.now)], requests := s.requests - {id}),
         [if r.key in s.redis then Renewed(r.key) else Created(r.key)])
    case TakeSnapshot(id, now, order) =>
      if id in s.checks || !IsSnapshotOrder(s.redis, order) then (s, [])
      else
        (s.(checks := s.checks[id := Check(Entries(s.redis, order), now, None)]), [])
    case CheckNext(id) =>
      if id !in s.checks || s.checks[id].mailing.Some? then (s, [])
      else if s.checks[id].queue == [] then (s.(checks := s.checks - {id}), [])
      else
        var r := CheckStep(s.redis, s.checks[id]);
        (s.(redis := r.0, checks := s.checks[id := r.1]), r.2)
    case MailSent(id) =>
      if id !in s.checks || s.checks[id].mailing.None? then (s, [])
      else (s.(checks := s.checks[id := s.checks[id].(mailing := None)]), [Alerted(s.checks[id].mailing.value)])
    case MailFailed(id) =>
      // sendEmail throws out of the loop: the rest of the snapshot is abandoned.
      if id !in s.checks || s.checks[id].mailing.None? then (s, [])
      else (s.(checks := s.checks - {id}), [Lost(s.checks[id].mailing.value)])
  }

  function Run(s: State, steps: seq<Step>): (State, seq<Event>)
    decreases |steps|
  {
    if steps == [] then (s, [])
    else
      var one := Next(s, steps[0]);
      var more := Run(one.0, steps[1..]);
      (more.0, one.1 + more.1)
  }

  function Count(log: seq<Event>, e: Event): nat {
    if log == [] then 0 else (if log[0] == e then 1 else 0) + Count(log[1..], e)
  }

  function Mailing(s: State, key: string): set<nat> {
    set id | id in s.checks && s.checks[id].mailing == Some(key)
  }

  function Present(s: State, key: string): nat {
    if key in s.redis then 1 else 0
  }

  lemma {:induction false} CountTogether(a: seq<Event>, b: seq<Event>, e: Event)
    ensures Count(a + b, e) == Count(a, e) + Count(b, e)
  {
    if a == [] {
      assert a + b == b;
    } else {
      assert (a + b)[1..] == a[1..] + b;
      CountTogether(a[1..], b, e);
    }
  }

  lemma CountOne(x: Event, e: Event)
    ensures Count([x], e) == if x == e then 1 else 0
  {
    assert [x][1..] == [];
  }

  /**
   * What a check does about the next entry of its snapshot: one that does not parse is dropped and nobody
   * told, one seen within 86400000 ms stays, and an older one is claimed if the key is still there.
   */
  lemma OneTurnOfACheck(s: State, id: nat)
    requires id in s.checks && s.checks[id].mailing.None? && s.checks[id].queue != []
    ensures var (key, e) := s.checks[id].queue[0];
            var (u, log) := Next(s, CheckNext(id));
            && (e.Corrupt? ==> u.redis == s.redis - {key} && Claimed(key) !in log && u.checks[id].mailing == None)
            && (e.Record? && s.checks[id].now - e.lastSeenAt <= 86400000 ==>
                  u.redis == s.redis && log == [] && u.checks[id].mailing == None)
            && (e.Record? && s.checks[id].now - e.lastSeenAt > 86400000 ==>
                  if key in s.redis
                  then u.redis == s.redis - {key} && log == [Claimed(key)] && u.checks[id].mailing == Some(key)
                  else u.redis == s.redis && log == [] && u.checks[id].mailing == None)
            && u.checks[id].queue == s.checks[id].queue[1..]
  {
  }

  // ------------------------------------------------------------------ conservation

  /** What a log says about one key between two states. */
  ghost predicate Conserves(s: State, u: State, log: seq<Event>, key: string) {
    && Present(s, key) + Count(log, Created(key))
        == Count(log, Claimed(key)) + Count(log, Dropped(key)) + Present(u, key)
    && |Mailing(s, key)| + Count(log, Claimed(key))
        == Count(log, Alerted(key)) + Count(log, Lost(key)) + |Mailing(u, key)|
  }

  lemma OneCheckChanged(s: State, u: State, id: nat, key: string)
    requires forall j :: j != id ==>
             (j in s.checks <==> j in u.checks) && (j in s.checks ==> s.checks[j] == u.checks[j])
    ensures |Mailing(u, key)| + (if id in Mailing(s, key) then 1 else 0)
         == |Mailing(s, key)| + (if id in Mailing(u, key) then 1 else 0)
  {
    CountWithout(Mailing(s, key), id);
    CountWithout(Mailing(u, key), id);
    assert Mailing(u, key) - {id} == Mailing(s, key) - {id};
  }

  lemma CountWithout(ids: set<nat>, id: nat)
    ensures |ids| == |ids - {id}| + if id in ids then 1 else 0
  {
    if id in ids {
      assert ids == (ids - {id}) + {id};
    } else {
      assert ids == ids - {id};
    }
  }

  /** What a step logs, for the counting of one key. */
  lemma CountsOf(log: seq<Event>, e: Event)
    ensures log == [] ==> Count(log, e) == 0
    ensures |log| == 1 ==> Count(log, e) == if log[0] == e then 1 else 0
  {
    if |log| == 1 {
      CountOne(log[0], e);
      assert log == [log[0]];
    }
  }

  lemma CountsForKey(log: seq<Event>, key: string)
    ensures forall e :: e in {Created(key), Claimed(key), Dropped(key), Alerted(key), Lost(key)} ==>
              (log == [] ==> Count(log, e) == 0) && (|log| == 1 ==> Count(log, e) == if log[0] == e then 1 else 0)
  {
    forall e | e in {Created(key), Claimed(key), Dropped(key), Alerted(key), Lost(key)}
      ensures (log == [] ==> Count(log, e) == 0) && (|log| == 1 ==> Count(log, e) == if log[0] == e then 1 else 0)
    {
      CountsOf(log, e);
    }
  }

  lemma RequestStepConserves(s: State, step: Step, key: string)
    requires step.ReadRecord? || step.WriteRecord?
    ensures Conserves(s, Next(s, step).0, Next(s, step).1, key)
  {
    hide Count;
    CountsForKey(Next(s, step).1, key);
    assert Mailing(Next(s, step).0, key) == Mailing(s, key);
  }

  lemma CheckStepConserves(s: State, id: nat, key: string)
    ensures Conserves(s, Next(s, CheckNext(id)).0, Next(s, CheckNext(id)).1, key)
  {
    hide Count;
    CountsForKey(Next(s, CheckNext(id)).1, key);
    OneCheckChanged(s, Next(s, CheckNext(id)).0, id, key);
  }

  lemma MailStepConserves(s: State, step: Step, key: string)
    requires step.MailSent? || step.MailFailed? || step.TakeSnapshot?
    ensures Conserves(s, Next(s, step).0, Next(s, step).1, key)
  {
    hide Count, IsSnapshotOrder, Entries;
    CountsForKey(Next(s, step).1, key);
    OneCheckChanged(s, Next(s, step).0, step.id, key);
  }

  lemma StepConserves(s: State, step: Step, key: string)
    ensures Conserves(s, Next(s, step).0, Next(s, step).1, key)
  {
    hide Next, Conserves;
    match step
    case ReadRecord(_, _, _) => RequestStepConserves(s, step, key);
    case WriteRecord(_) => RequestStepConserves(s, step, key);
    case CheckNext(id) => CheckStepConserves(s, id, key);
    case _ => MailStepConserves(s, step, key);
  }

  lemma CountNone(e: Event)
    ensures Count([], e) == 0
  {
  }

  /**
   * For every interleaving of requests and checks: a key's creations are its removals plus one if
   * it is there, and its claims are its alerts, its lost mails and the mails still under way.
   */
  lemma {:induction false} EveryRunConserves(s: State, steps: seq<Step>, key: string)
    ensures Conserves(s, Run(s, steps).0, Run(s, steps).1, key)
    decreases |steps|
  {
    hide Next, Mailing, Count;
    if steps == [] {
      forall e ensures Count([], e) == 0 {
        CountNone(e);
      }
    } else {
      var one := Next(s, steps[0]);
      var more := Run(one.0, steps[1..]);
      StepConserves(s, steps[0], key);
      EveryRunConserves(one.0, steps[1..], key);
      forall e ensures Count(one.1 + more.1, e) == Count(one.1, e) + Count(more.1, e) {
        CountTogether(one.1, more.1, e);
      }
    }
  }

  /** Once an entry is gone and no mail about it is under way, it is not alerted on again without being re-created. */
  lemma NoSecondAlertWithoutReregistering(s: State, steps: seq<Step>, key: string)
    requires key !in s.redis && Mailing(s, key) == {}
    ensures Count(Run(s, steps).1, Alerted(key)) <= Count(Run(s, steps).1, Created(key))
  {
    hide Run, Count;
    EveryRunConserves(s, steps, key);
  }

  // ------------------------------------------------------------------ the two operations, uninterrupted

  function FreshOnly(redis: Registry, now: int): Registry {
    map k | k in redis && redis[k].Record? && !Stale(redis[k], now) :: redis[k]
  }

  function StaleKeys(redis: Registry, now: int): set<string> {
    set k | k in redis && Stale(redis[k], now)
  }

  class ReplicaRegistryService {
    const isMaster: bool
    var redis: Registry

    constructor (isMaster: bool, redis: Registry)
      ensures this.isMaster == isMaster && this.redis == redis
    {
      this.isMaster, this.redis := isMaster, redis;
    }

    /** recordReplicaRequest(): fails on a value that does not parse, which it leaves in place. */
    method RecordReplicaRequest(key: string, now: int) returns (ok: bool)
      modifies this
      ensures ok <==> !isMaster || key !in old(redis) || old(redis)[key].Record?
      ensures isMaster && ok ==>
        && key in redis && redis == old(redis)[key := redis[key]] && redis[key].Record? && redis[key].lastSeenAt == now
        && (key in old(redis) ==> redis[key].firstSeenAt == old(redis)[key].firstSeenAt
                                  && redis[key].requestCount == old(redis)[key].requestCount + 1)
        && (key !in old(redis) ==> redis[key].firstSeenAt == now && redis[key].requestCount == 1)
      ensures !isMaster || !ok ==> redis == old(redis)
    {
      if !isMaster {
        return true;
      }
      var existing := if key in redis then Some(redis[key]) else None;
      if existing == Some(Corrupt) {
        return false;
      }
      redis := redis[key := NewRecord(existing, now)];
      ok := true;
    }

    /**
     * checkStaleReplicas(): with no mail failing it leaves exactly the fresh entries and alerts on
     * each stale one once; the first failing mail stops it, and that alert alone is lost.
     */
    method CheckStaleReplicas(now: int, mailFails: set<string>) returns (alerts: seq<string>, lost: Option<string>)
      modifies this
      ensures !isMaster ==> redis == old(redis) && alerts == [] && lost == None
      ensures isMaster ==> (lost.None? <==> StaleKeys(old(redis), now) !! mailFails)
      ensures isMaster && lost.None? ==>
              && (forall k :: k in redis <==>
                    k in old(redis) && old(redis)[k].Record? && now - old(redis)[k].lastSeenAt <= 86400000)
              && (forall k :: k in alerts <==>
                    k in old(redis) && old(redis)[k].Record? && now - old(redis)[k].lastSeenAt > 86400000)
      ensures forall i, j :: 0 <= i < j < |alerts| ==> alerts[i] != alerts[j]
      ensures forall k :: k in redis ==> k in old(redis) && redis[k] == old(redis)[k]
      ensures forall k :: k in FreshOnly(old(redis), now) ==> k in redis
      ensures forall k :: k in StaleKeys(old(redis), now) && k !in redis <==> k in alerts || lost == Some(k)
      ensures lost.Some? ==> lost.value in mailFails && lost.value !in alerts
    {
      hide Stale;
      alerts, lost := [], None;
      if !isMaster {
        return;
      }
      var all := redis;
      var todo := all.Keys;
      while todo != {}
        invariant todo <= all.Keys && lost == None
        invariant forall k :: k in redis <==> k in all && (k in todo || (all[k].Record? && !Stale(all[k], now)))
        invariant forall k :: k in redis ==> redis[k] == all[k]
        invariant forall k :: k in alerts <==> k in all && k !in todo && Stale(all[k], now)
        invariant forall i, j :: 0 <= i < j < |alerts| ==> alerts[i] != alerts[j]
        invariant forall k :: k in alerts ==> k !in mailFails
        decreases todo
      {
        var key :| key in todo;
        ADayMakesStale(all[key], now);
        todo := todo - {key};
        if all[key].Corrupt? {
          redis := redis - {key};
        } else if Stale(all[key], now) {
          redis := redis - {key};
          if key in mailFails {
            lost := Some(key);
            assert key in StaleKeys(all, now);
            return;
          }
          alerts := alerts + [key];
        }
      }
      forall k | k in all {
        ADayMakesStale(all[k], now);
      }
    }
  }

  lemma ADayMakesStale(e: Entry, now: int)
    ensures Stale(e, now) <==> e.Record? && now - e.lastSeenAt > 86400000
  {
  }
}
