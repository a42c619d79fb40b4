/** The registry of connected replica clients: a Map keyed by socket, iterated in insertion order. */
module Registry {
  import opened Options
  import opened ReplicaLink
  import opened Propagation

  function OfRole(clients: seq<LinkInfo>, role: Role): seq<LinkInfo> {
    if clients == [] then []
    else OfRole(clients[..|clients| - 1], role)
         + if clients[|clients| - 1].role == role then [clients[|clients| - 1]] else []
  }

  function TargetRole(imageOrder: bool): Role {
    if imageOrder then Updater else App
  }

  /** What each client answered to an order; Promise.all keeps the order of the entries. */
  function Answers(targets: seq<LinkInfo>, reply: LinkInfo -> (Option<Ack>, Option<string>)): seq<DispatchResult> {
    seq(|targets|, i requires 0 <= i < |targets| =>
      DispatchResult(targets[i], reply(targets[i]).0, reply(targets[i]).1))
  }

  lemma {:induction false} OfRoleIsTheRoleExactly(clients: seq<LinkInfo>, role: Role)
    requires DistinctSockets(clients)
    ensures DistinctSockets(OfRole(clients, role))
    ensures forall c :: c in OfRole(clients, role) <==> c in clients && c.role == role
  {
    if clients != [] {
      var n := |clients| - 1;
      OfRoleIsTheRoleExactly(clients[..n], role);
      assert clients == clients[..n] + [clients[n]];
      var kept := OfRole(clients[..n], role);
      forall i | 0 <= i < |kept| ensures kept[i].id != clients[n].id {
        assert kept[i] in clients[..n];
      }
    }
  }

  /**
   * An order with images reaches every connected updater, one without every connected app, each once,
   * and nobody else, and brings back what each one replied; so a run's records are keyed by distinct
   * sockets, as the propagation handlers assume.
   */
  lemma OrdersReachExactlyOneRole(clients: seq<LinkInfo>, imageOrder: bool,
                                  reply: LinkInfo -> (Option<Ack>, Option<string>))
    requires DistinctSockets(clients)
    ensures var results := Answers(OfRole(clients, TargetRole(imageOrder)), reply);
            && DistinctResults(results)
            && (forall c :: c in clients && (if imageOrder then c.role.Updater? else c.role.App?) <==>
                exists i :: 0 <= i < |results| && results[i].replica == c)
            && (forall r :: r in results ==> r.ack == reply(r.replica).0 && r.error == reply(r.replica).1)
  {
    var targets := OfRole(clients, TargetRole(imageOrder));
    OfRoleIsTheRoleExactly(clients, TargetRole(imageOrder));
    var results := Answers(targets, reply);
    forall c | c in targets ensures exists i :: 0 <= i < |results| && results[i].replica == c {
      var i :| 0 <= i < |targets| && targets[i] == c;
      assert results[i].replica == c;
    }
  }

  class ReplicaLinkRegistry {
    var clients: seq<LinkInfo>
    /** Fired on deployProgress$ and replicaOnline$, oldest first. */
    var progress: seq<(LinkInfo, Frame)>
    var online: seq<LinkInfo>

    ghost predicate Valid()
      reads this
    {
      DistinctSockets(clients)
    }

    constructor ()
      ensures Valid() && clients == [] && progress == [] && online == []
    {
      clients, progress, online := [], [], [];
    }

    method Find(id: SocketId) returns (i: nat)
      ensures i <= |clients| && (i < |clients| ==> clients[i].id == id)
      ensures i == |clients| ==> forall j :: 0 <= j < |clients| ==> clients[j].id != id
    {
      i := 0;
      while i < |clients| && clients[i].id != id
        invariant 0 <= i <= |clients|
        invariant forall j :: 0 <= j < i ==> clients[j].id != id
      {
        i := i + 1;
      }
    }

    /** Map.set: an existing key keeps its place. */
    method Register(info: LinkInfo)
      requires Valid()
      modifies this`clients, this`online
      ensures Valid() && online == old(online) + [info]
      ensures forall c :: c in clients <==> c == info || (c in old(clients) && c.id != info.id)
    {
      var i := Find(info.id);
      if i < |clients| {
        assert old(clients) == old(clients[..i]) + [old(clients[i])] + old(clients[i + 1..]);
        clients := clients[..i] + [info] + clients[i + 1..];
      } else {
        clients := clients + [info];
      }
      online := online + [info];
    }

    method Unregister(id: SocketId)
      requires Valid()
      modifies this`clients
      ensures Valid()
      ensures forall c :: c in clients <==> c in old(clients) && c.id != id
    {
      var i := Find(id);
      if i < |clients| {
        assert old(clients) == old(clients[..i]) + [old(clients[i])] + old(clients[i + 1..]);
        clients := clients[..i] + clients[i + 1..];
      }
    }

    /** A frame is forwarded, tagged with its sender, exactly when the socket is registered. */
    method HandleDeployProgress(id: SocketId, f: Frame)
      requires Valid()
      modifies this`progress
      ensures (forall c :: c in clients ==> c.id != id) ==> progress == old(progress)
      ensures forall c :: c in clients && c.id == id ==> progress == old(progress) + [(c, f)]
    {
      var i := Find(id);
      if i < |clients| {
        progress := progress + [(clients[i], f)];
      }
    }

    method List(role: Role) returns (r: seq<LinkInfo>)
      ensures r == OfRole(clients, role)
    {
      r := [];
      for i := 0 to |clients|
        invariant r == OfRole(clients[..i], role)
      {
        assert clients[..i + 1][..i] == clients[..i];
        if clients[i].role == role {
          r := r + [clients[i]];
        }
      }
      assert clients[..|clients|] == clients;
    }
  }
}
