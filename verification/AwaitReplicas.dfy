/** Waiting for replicas to (re)connect before an order goes out: one hard timer, one settle timer. */
module AwaitReplicas {
  import opened Options
  import opened ReplicaLink
  import opened Registry

  /** A wait under way, or its result; the flags say which timers are armed. */
  datatype Wait = Wait(hardTimer: bool, settleTimer: bool, result: Option<seq<LinkInfo>>)

  /** What can happen meanwhile; `clients` is the registry at that moment. */
  datatype Event =
    | CameOnline(info: LinkInfo, clients: seq<LinkInfo>)
    | WentAway(clients: seq<LinkInfo>)
    | SettleFired(clients: seq<LinkInfo>)
    | HardFired(clients: seq<LinkInfo>)

  function Begun(role: Role, clients: seq<LinkInfo>): Wait {
    Wait(true, OfRole(clients, role) != [], None)
  }

  function Next(role: Role, w: Wait, e: Event): Wait {
    if w.result.Some? then w
    else match e
      case CameOnline(info, _) => if info.role == role then w.(settleTimer := true) else w
      case WentAway(_) => w
      case SettleFired(clients) => if w.settleTimer then Wait(false, false, Some(OfRole(clients, role))) else w
      case HardFired(clients) => if w.hardTimer then Wait(false, false, Some(OfRole(clients, role))) else w
  }

  function Run(role: Role, w: Wait, events: seq<Event>): Wait {
    if events == [] then w else Next(role, Run(role, w, events[..|events| - 1]), events[|events| - 1])
  }

  /** The promise of awaitReplicas() and its handlers. */
  class Waiter {
    const role: Role
    const registry: ReplicaLinkRegistry
    var done: bool
    var hardTimer: bool
    var settleTimer: bool
    var resolved: Option<seq<LinkInfo>>

    ghost function State(): Wait
      reads this
    {
      Wait(hardTimer, settleTimer, resolved)
    }

    ghost predicate Valid()
      reads this
    {
      done <==> resolved.Some?
    }

    constructor (role: Role, registry: ReplicaLinkRegistry)
      ensures Valid() && State() == Begun(role, registry.clients) && this.role == role && this.registry == registry
    {
      this.role, this.registry := role, registry;
      done, hardTimer, settleTimer, resolved := false, true, false, None;
      new;
      var targets := registry.List(role);
      if |targets| > 0 {
        settleTimer := true;
      }
    }

    method Finish()
      requires Valid()
      modifies this
      ensures Valid() && State() == if old(resolved).Some? then old(State())
              else Wait(false, false, Some(OfRole(registry.clients, role)))
    {
      if done {
        return;
      }
      done, hardTimer, settleTimer := true, false, false;
      var targets := registry.List(role);
      resolved := Some(targets);
    }

    /** The subscription, which finishing ends. */
    method OnOnline(info: LinkInfo)
      requires Valid()
      modifies this
      ensures Valid() && State() == Next(role, old(State()), CameOnline(info, registry.clients))
      ensures hardTimer == old(hardTimer) && resolved == old(resolved)
      ensures settleTimer == (old(settleTimer) || (old(resolved).None? && info.role == role))
    {
      if !done && info.role == role {
        settleTimer := true;
      }
    }

    method OnSettleTimer()
      requires Valid()
      modifies this
      ensures Valid() && State() == Next(role, old(State()), SettleFired(registry.clients))
      ensures resolved == if old(resolved).Some? || !old(settleTimer) then old(resolved)
                          else Some(OfRole(registry.clients, role))
    {
      if settleTimer {
        Finish();
      }
    }

    method OnHardTimer()
      requires Valid()
      modifies this
      ensures Valid() && State() == Next(role, old(State()), HardFired(registry.clients))
      ensures resolved == if old(resolved).Some? || !old(hardTimer) then old(resolved)
                          else Some(OfRole(registry.clients, role))
    {
      if hardTimer {
        Finish();
      }
    }
  }

  // ------------------------------------------------------------------ over any run

  predicate IsTarget(role: Role, e: Event) {
    e.CameOnline? && e.info.role == role
  }

  /** The settle timer is armed as soon as there is, or was, a replica to wait for. */
  predicate SeenTarget(role: Role, clients: seq<LinkInfo>, events: seq<Event>) {
    OfRole(clients, role) != [] || exists i :: 0 <= i < |events| && IsTarget(role, events[i])
  }

  /** While a wait lasts its hard timer is armed, and its settle timer exactly if some replica of the role was seen. */
  lemma {:induction false} EveryWaitHasItsTimers(role: Role, clients: seq<LinkInfo>, events: seq<Event>)
    ensures var w := Run(role, Begun(role, clients), events);
            && (w.result.None? ==> w.hardTimer && (w.settleTimer <==> SeenTarget(role, clients, events)))
            && (w.result.Some? ==> !w.hardTimer && !w.settleTimer)
  {
    hide OfRole;
    if events != [] {
      var init := events[..|events| - 1];
      EveryWaitHasItsTimers(role, clients, init);
      assert SeenTarget(role, clients, events) <==>
          SeenTarget(role, clients, init) || IsTarget(role, events[|events| - 1]);
    }
  }

  /** The wait ends with the first timer that fires while armed, and with the registry as it is then. */
  predicate Ends(role: Role, clients: seq<LinkInfo>, events: seq<Event>, i: nat)
    requires i < |events|
  {
    events[i].HardFired? || (events[i].SettleFired? && SeenTarget(role, clients, events[..i]))
  }

  /** The first such event, or the number of events. */
  function FirstEnd(role: Role, clients: seq<LinkInfo>, events: seq<Event>): (i: nat)
    ensures i <= |events|
    ensures i < |events| ==> Ends(role, clients, events, i)
    ensures forall j :: 0 <= j < i ==> !Ends(role, clients, events, j)
  {
    if events == [] then 0
    else
      var n := |events| - 1;
      var i := FirstEnd(role, clients, events[..n]);
      assert forall j :: 0 <= j < n ==> events[..n][..j] == events[..j];
      assert forall j :: 0 <= j < n ==> Ends(role, clients, events[..n], j) == Ends(role, clients, events, j);
      if i < n then i else if Ends(role, clients, events, n) then n else n + 1
  }

  /** The wait resolves at that event and never again, with the role's clients connected at that moment, if any. */
  lemma {:induction false} ResultIsTheRegistryAtTheEnd(role: Role, clients: seq<LinkInfo>, events: seq<Event>)
    ensures var w, i := Run(role, Begun(role, clients), events), FirstEnd(role, clients, events);
            w.result == if i < |events| then Some(OfRole(events[i].clients, role)) else None
  {
    hide OfRole, SeenTarget;
    if events != [] {
      var n := |events| - 1;
      EveryWaitHasItsTimers(role, clients, events[..n]);
      ResultIsTheRegistryAtTheEnd(role, clients, events[..n]);
    }
  }
}
