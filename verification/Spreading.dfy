/** Whom a message can reach: in a network whose links are open connections, exactly the nodes that a walk leads to
    from the announcing node which is no longer than the announced TTL stands for. */
module Spreading {
  import opened Basics
  import opened Bytes
  import opened RingView
  import opened Connections
  import opened Strategy
  import opened Network
  import Copies

  // ---- runs, one action longer ----

  lemma OneMore(top: Topology, nets: seq<Net>, actions: seq<Action>, a: Action) returns (more: seq<Net>)
    requires IsRun(top, nets, actions) && CanAct(top, nets[|actions|], a)
    ensures more == nets + [Act(top, nets[|actions|], a)]
    ensures IsRun(top, more, actions + [a])
  {
    hide CanAct, Act;
    more := nets + [Act(top, nets[|actions|], a)];
    forall i | 0 <= i < |actions| + 1
      ensures CanAct(top, more[i], (actions + [a])[i]) && more[i + 1] == Act(top, more[i], (actions + [a])[i])
    {
      if i < |actions| {
        assert CanAct(top, nets[i], actions[i]) && nets[i + 1] == Act(top, nets[i], actions[i]);
      }
    }
  }

  // ---- the peers a tick may choose ----

  lemma {:induction false} SomeOf(s: set<ConnectionId>, n: nat) returns (ids: seq<ConnectionId>)
    requires n <= |s|
    ensures Distinct(ids) && |ids| == n && forall i :: 0 <= i < n ==> ids[i] in s
    decreases n
  {
    if n == 0 {
      ids := [];
    } else {
      var x :| x in s;
      var rest := SomeOf(s - {x}, n - 1);
      ids := rest + [x];
    }
  }

  lemma ChoiceWith(open: set<ConnectionId>, degree: nat, id: ConnectionId) returns (ids: seq<ConnectionId>)
    requires id in open && degree >= 1
    ensures Chosen(open, degree, ids) && id in ids
  {
    var n := Min(degree, |open|);
    assert open == (open - {id}) + {id};
    var rest := SomeOf(open - {id}, n - 1);
    ids := rest + [id];
    assert ids[n - 1] == id;
  }

  /** Each push that is sent to a linked peer flies there, and nothing else does. */
  lemma {:induction false} FliesIff(top: Topology, i: nat, outs: seq<Out>, f: Flight)
    ensures f in FlightsOf(top, i, outs) <==>
      exists o :: o in outs && o.ToPeer? && o.msg == MPush(f.push)
        && Endpoint(i, o.id) in top.link && top.link[Endpoint(i, o.id)] == Endpoint(f.to, f.id)
  {
    if outs != [] {
      var front, last := outs[..|outs| - 1], outs[|outs| - 1];
      FliesIff(top, i, front, f);
      assert outs == front + [last];
    }
  }

  // ---- one hop ----

  /** Every link is between open connections, of nodes that send to somebody. */
  predicate AllOpen(top: Topology, net: Net) {
    && |top.envs| == |net.nodes|
    && forall e :: e in top.link ==>
         && e.node < |net.nodes| && e.id in net.nodes[e.node].conns.open && top.envs[e.node].degree >= 1
         && top.link[e].node < |net.nodes| && top.link[e].id in net.nodes[top.link[e].node].conns.open
  }

  function Stored(n: Node): seq<Push> {
    n.invalid + n.valid + n.sent
  }

  /** The node at place j of the path is about to send push p, and those after it have nothing stored. */
  predicate AtPlace(top: Topology, net: Net, path: seq<nat>, j: nat, p: Push) {
    && j < |path| && AllOpen(top, net) && (forall m :: 0 <= m < |path| ==> path[m] < |net.nodes|)
    && net.nodes[path[j]].valid == [p]
    && forall m :: j < m < |path| ==> Stored(net.nodes[path[m]]) == []
  }

  /** The node at place j of the path holds the message, with its TTL counted down, and those after it nothing. */
  predicate HeldAt(top: Topology, net: Net, path: seq<nat>, j: nat, p: Push) {
    && j < |path| && AllOpen(top, net) && (forall m :: 0 <= m < |path| ==> path[m] < |net.nodes|)
    && net.nodes[path[j]].invalid == [p] && net.nodes[path[j]].valid == []
    && forall m :: j < m < |path| ==> Stored(net.nodes[path[m]]) == []
  }

  /** The push is on its way to the node at place j of the path, where and after which nothing is stored. */
  predicate ComesTo(top: Topology, net: Net, path: seq<nat>, j: nat, p: Push, id: ConnectionId) {
    && j < |path| && AllOpen(top, net) && (forall m :: 0 <= m < |path| ==> path[m] < |net.nodes|)
    && Flight(path[j], id, p) in net.flights && id in net.nodes[path[j]].conns.open
    && forall m :: j <= m < |path| ==> Stored(net.nodes[path[m]]) == []
  }

  predicate IsPath(top: Topology, path: seq<nat>) {
    path != [] && Distinct(path) && forall m :: 0 < m < |path| ==> top.Linked(path[m - 1], path[m])
  }

  lemma TickSends(top: Topology, net: Net, path: seq<nat>, j: nat, p: Push, e: Endpoint) returns (a: Action)
    requires AtPlace(top, net, path, j, p) && Distinct(path) && j + 1 < |path|
    requires e in top.link && e.node == path[j] && top.link[e].node == path[j + 1]
    ensures a.Local? && !a.e.Announce? && CanAct(top, net, a)
    ensures ComesTo(top, Act(top, net, a), path, j + 1, p, top.link[e].id)
  {
    hide Step, FlightsOf, Chosen, Enabled, Stored;
    var i, n := path[j], net.nodes[path[j]];
    var ids := ChoiceWith(n.conns.open.Keys, top.envs[i].degree, e.id);
    a := Local(i, GossipTick([ids]), 0);
    OneTick(top, i, top.envs[i], n, p, ids, e.id);
  }

  lemma OneTick(top: Topology, i: nat, env: Env, n: Node, p: Push, ids: seq<ConnectionId>, id: ConnectionId)
    requires n.valid == [p] && Chosen(n.conns.open.Keys, env.degree, ids) && id in ids && Endpoint(i, id) in top.link
    ensures Enabled(env, n, GossipTick([ids]))
    ensures var (n', outs) := Step(env, n, GossipTick([ids]), 0); var far := top.link[Endpoint(i, id)];
      n'.conns == n.conns && Flight(far.node, far.id, p) in FlightsOf(top, i, outs)
  {
    hide FlightsOf, Chosen, TickPushes, InsertedAll, StepConnection;
    RowFlies(top, i, p, ids, id);
  }

  lemma RowFlies(top: Topology, i: nat, p: Push, ids: seq<ConnectionId>, id: ConnectionId)
    requires id in ids && Endpoint(i, id) in top.link
    ensures var far := top.link[Endpoint(i, id)];
      Flight(far.node, far.id, p) in FlightsOf(top, i, TickPushes([p], [ids]))
  {
    hide FlightsOf;
    var outs := TickPushes([p], [ids]);
    RowIs(p, ids);
    var k :| 0 <= k < |ids| && ids[k] == id;
    assert outs[k] == ToPeer(id, MPush(p));
    var far := top.link[Endpoint(i, id)];
    FliesIff(top, i, outs, Flight(far.node, far.id, p));
  }

  lemma RowIs(p: Push, ids: seq<ConnectionId>)
    ensures TickPushes([p], [ids]) == PushesTo(p, ids)
  {
    assert [p][..0] == [] && [ids][..0] == [];
  }

  lemma ArrivesAndNotifies(top: Topology, net: Net, path: seq<nat>, j: nat, p: Push, id: ConnectionId)
    returns (a: Action)
    requires ComesTo(top, net, path, j, p, id) && Distinct(path)
    ensures a.Deliver? && CanAct(top, net, a) && Actor(net, a) == Some(path[j])
    ensures Outputs(top, net, a) == [Notify(p.messageId, p.gossipType, p.payload)]
    ensures HeldAt(top, Act(top, net, a), path, j, p)
  {
    hide StepConnection;
    var k :| 0 <= k < |net.flights| && net.flights[k] == Flight(path[j], id, p);
    a := Deliver(k);
    var n := net.nodes[path[j]];
    assert n.invalid == [] && n.valid == [] && n.sent == [];
    assert Act(top, net, a).nodes == net.nodes[path[j] := n.(invalid := [p])];
  }

  lemma ValidatedGoesOn(top: Topology, net: Net, i: nat, p: Push) returns (a: Action)
    requires |top.envs| == |net.nodes| && i < |net.nodes| && net.nodes[i].invalid == [p] && net.nodes[i].valid == []
    requires p.ttl != 1
    ensures a == Local(i, Validation(p.messageId, true), 0) && CanAct(top, net, a)
    ensures Act(top, net, a).nodes ==
      net.nodes[i := net.nodes[i].(invalid := [], valid := [p.(ttl := DecrementedTtl(p.ttl))])]
  {
    a := Local(i, Validation(p.messageId, true), 0);
    assert FirstWithId([p], p.messageId) == Some(p);
    assert RingView.Removed([p], top.envs[i].cap, p) == [];
  }

  /** From the node at place j the message can get to the next one, which notifies its module of it. */
  lemma Hop(top: Topology, nets: seq<Net>, actions: seq<Action>, path: seq<nat>, j: nat, p: Push)
    returns (nets': seq<Net>, actions': seq<Action>)
    requires IsRun(top, nets, actions) && IsPath(top, path) && j + 1 < |path|
    requires AtPlace(top, nets[|actions|], path, j, p)
    ensures IsRun(top, nets', actions') && |actions'| == |actions| + 2
    ensures actions'[..|actions|] == actions && nets'[..|nets|] == nets
    ensures !Announces(actions'[|actions|]) && !Announces(actions'[|actions| + 1])
    ensures NotifiesAt(top, nets', actions', |actions| + 1, path[j + 1], p.messageId, p.gossipType, p.payload)
    ensures |nets'| == |actions'| + 1 && HeldAt(top, nets'[|actions'|], path, j + 1, p)
  {
    hide CanAct, Act, Outputs, IsRun, HeldAt, ComesTo, AllOpen;
    assert top.Linked(path[j], path[j + 1]);
    var e :| e in top.link && e.node == path[j] && top.link[e].node == path[j + 1];
    RunLength(top, nets, actions);
    var net := nets[|actions|];
    var tick := TickSends(top, net, path, j, p, e);
    var sent := Act(top, net, tick);
    var arrives := ArrivesAndNotifies(top, sent, path, j + 1, p, top.link[e].id);
    var nets1 := OneMore(top, nets, actions, tick);
    RunLength(top, nets1, actions + [tick]);
    nets' := OneMore(top, nets1, actions + [tick], arrives);
    actions' := actions + [tick] + [arrives];
  }

  lemma RunLength(top: Topology, nets: seq<Net>, actions: seq<Action>)
    requires IsRun(top, nets, actions)
    ensures |nets| == |actions| + 1
  {
  }

  /** Action k makes node i notify its module of this message. */
  ghost predicate NotifiesAt(top: Topology, nets: seq<Net>, actions: seq<Action>, k: nat, i: nat, messageId: uint16,
                             dataType: uint16, data: bytes)
  {
    && k < |actions| && k < |nets| && CanAct(top, nets[k], actions[k]) && Actor(nets[k], actions[k]) == Some(i)
    && Notify(messageId, dataType, data) in Outputs(top, nets[k], actions[k])
  }

  /** The run starts with this announcement, and has no other. */
  ghost predicate StartsWith(top: Topology, nets: seq<Net>, actions: seq<Action>, net: Net, n: nat, e: Event) {
    && IsRun(top, nets, actions) && nets[0] == net && actions != [] && actions[0] == Local(n, e, 0)
    && forall m :: 0 < m < |actions| ==> !Announces(actions[m])
  }

  lemma AnnounceStores(top: Topology, net: Net, path: seq<nat>, e: Event)
    requires Quiet(net) && AllOpen(top, net) && IsPath(top, path) && e.Announce?
    requires forall m :: 0 <= m < |path| ==> path[m] < |net.nodes|
    ensures CanAct(top, net, Local(path[0], e, 0))
    ensures AtPlace(top, Act(top, net, Local(path[0], e, 0)), path, 0, Push(e.ttl, e.dataType, e.messageId, e.data))
  {
    forall m | 0 <= m < |path| ensures Stored(net.nodes[path[m]]) == [] {
      assert net.nodes[path[m]] in net.nodes;
    }
  }

  /** One more node down the path is notified of the message. */
  lemma HopFrom(top: Topology, nets: seq<Net>, actions: seq<Action>, net: Net, e: Event, path: seq<nat>, j: nat,
          p: Push) returns (nets': seq<Net>, actions': seq<Action>)
    requires IsPath(top, path) && j + 1 < |path| && StartsWith(top, nets, actions, net, path[0], e)
    requires AtPlace(top, nets[|actions|], path, j, p)
    ensures StartsWith(top, nets', actions', net, path[0], e)
    ensures HeldAt(top, nets'[|actions'|], path, j + 1, p)
    ensures NotifiesAt(top, nets', actions', |actions'| - 1, path[j + 1], p.messageId, p.gossipType, p.payload)
  {
    hide AtPlace, HeldAt, NotifiesAt, IsRun, IsPath, Announces;
    RunLength(top, nets, actions);
    nets', actions' := Hop(top, nets, actions, path, j, p);
    assert nets'[0] == nets'[..|nets|][0];
    forall m | 0 < m < |actions'| ensures !Announces(actions'[m]) {
      if m < |actions| {
        assert actions'[m] == actions'[..|actions|][m];
      }
    }
  }

  /** A message announced for enough hops can get to place j of the path, where it is notified as announced. */
  lemma {:induction false} GetsTo(top: Topology, net: Net, e: Event, path: seq<nat>, j: nat)
    returns (nets: seq<Net>, actions: seq<Action>, p: Push)
    requires Quiet(net) && AllOpen(top, net) && IsPath(top, path) && e.Announce?
    requires forall m :: 0 <= m < |path| ==> path[m] < |net.nodes|
    requires 1 <= j < |path| && j <= Rank(e.ttl)
    ensures StartsWith(top, nets, actions, net, path[0], e) && HeldAt(top, nets[|actions|], path, j, p)
    ensures p.messageId == e.messageId && p.gossipType == e.dataType && p.payload == e.data
    ensures Rank(p.ttl) == Rank(e.ttl) - (j - 1)
    ensures NotifiesAt(top, nets, actions, |actions| - 1, path[j], e.messageId, e.dataType, e.data)
  {
    hide AtPlace, HeldAt, NotifiesAt, IsPath, CanAct, Act, Rank, Quiet, AllOpen;
    if j == 1 {
      p := Push(e.ttl, e.dataType, e.messageId, e.data);
      AnnounceStores(top, net, path, e);
      EmptyRun(top, net);
      var start := OneMore(top, [net], [], Local(path[0], e, 0));
      assert [] + [Local(path[0], e, 0)] == [Local(path[0], e, 0)];
      nets, actions := HopFrom(top, start, [Local(path[0], e, 0)], net, e, path, 0, p);
    } else {
      var q;
      nets, actions, q := GetsTo(top, net, e, path, j - 1);
      RankOne(q.ttl);
      RunLength(top, nets, actions);
      var validates := HeldGoesOn(top, nets[|actions|], path, j - 1, q);
      nets := OneMore(top, nets, actions, validates);
      actions := actions + [validates];
      p := q.(ttl := DecrementedTtl(q.ttl));
      DecrementUsesOneHop(q.ttl);
      nets, actions := HopFrom(top, nets, actions, net, e, path, j - 1, p);
    }
  }

  lemma EmptyRun(top: Topology, net: Net)
    ensures IsRun(top, [net], [])
  {
  }

  lemma RankOne(ttl: byte)
    ensures Rank(ttl) == 1 <==> ttl == 1
  {
  }

  lemma HeldGoesOn(top: Topology, net: Net, path: seq<nat>, j: nat, p: Push) returns (a: Action)
    requires HeldAt(top, net, path, j, p) && IsPath(top, path) && p.ttl != 1
    ensures a.Local? && !Announces(a) && CanAct(top, net, a)
    ensures AtPlace(top, Act(top, net, a), path, j, p.(ttl := DecrementedTtl(p.ttl)))
  {
    hide CanAct, Act;
    a := ValidatedGoesOn(top, net, path[j], p);
  }

  // ---- walks and paths ----

  /** A walk can be shortened to one that meets no node twice. */
  lemma {:induction false} PathOf(top: Topology, a: nat, b: nat, h: nat) returns (path: seq<nat>)
    requires top.Walk(a, b, h)
    ensures IsPath(top, path) && path[0] == a && path[|path| - 1] == b && |path| - 1 <= h
    decreases h
  {
    if h == 0 {
      path := [a];
    } else {
      var c: nat :| top.Walk(a, c, h - 1) && top.Linked(c, b);
      var front := PathOf(top, a, c, h - 1);
      if b in front {
        var k :| 0 <= k < |front| && front[k] == b;
        path := front[..k + 1];
      } else {
        path := front + [b];
      }
    }
  }

  lemma PathInNet(top: Topology, net: Net, path: seq<nat>)
    requires AllOpen(top, net) && IsPath(top, path) && path[0] < |net.nodes|
    ensures forall m :: 0 <= m < |path| ==> path[m] < |net.nodes|
  {
    forall m | 0 <= m < |path| ensures path[m] < |net.nodes| {
      if m > 0 {
        assert top.Linked(path[m - 1], path[m]);
      }
    }
  }

  // ---- whom a message can reach ----

  /** Some run with this one announcement makes node i notify its module of just this message. */
  ghost predicate CanReach(top: Topology, net: Net, n: nat, e: Event, i: nat)
    requires e.Announce?
  {
    exists nets: seq<Net>, actions: seq<Action>, k: nat ::
      StartsWith(top, nets, actions, net, n, e) && NotifiesAt(top, nets, actions, k, i, e.messageId, e.dataType, e.data)
  }

  /** In a network whose links are open connections, a message announced for t hops can reach another node exactly
      if a walk of at most t links leads there; a TTL of 0 means 256. */
  lemma ReachedIff(top: Topology, net: Net, n: nat, i: nat, ttl: byte, dataType: uint16, data: bytes, messageId: uint16)
    requires Quiet(net) && AllOpen(top, net) && n < |net.nodes| && i != n
    ensures CanReach(top, net, n, Announce(ttl, dataType, data, messageId), i) <==>
      exists h: nat :: top.Walk(n, i, h) && h <= (if ttl == 0 then 256 else ttl)
  {
    hide Quiet, AllOpen, CanReach, Rank;
    var e := Announce(ttl, dataType, data, messageId);
    if CanReach(top, net, n, e, i) {
      ReachedIsNear(top, net, n, e, i);
    }
    if h: nat :| top.Walk(n, i, h) && h <= (if ttl == 0 then 256 else ttl) {
      NearIsReached(top, net, n, e, i, h);
    }
  }

  lemma NearIsReached(top: Topology, net: Net, n: nat, e: Event, i: nat, h: nat)
    requires Quiet(net) && AllOpen(top, net) && n < |net.nodes| && i != n && e.Announce?
    requires top.Walk(n, i, h) && h <= (if e.ttl == 0 then 256 else e.ttl)
    ensures CanReach(top, net, n, e, i)
  {
    hide Quiet, AllOpen, StartsWith, NotifiesAt, HeldAt, IsPath;
    var path := PathOf(top, n, i, h);
    OnPath(top, path);
    PathInNet(top, net, path);
    var nets, actions, p := GetsTo(top, net, e, path, |path| - 1);
    SomeAction(top, nets, actions, net, n, e);
  }

  lemma OnPath(top: Topology, path: seq<nat>)
    requires IsPath(top, path)
    ensures |path| >= 1
  {
  }

  lemma SomeAction(top: Topology, nets: seq<Net>, actions: seq<Action>, net: Net, n: nat, e: Event)
    requires StartsWith(top, nets, actions, net, n, e)
    ensures |actions| >= 1
  {
  }

  lemma ReachedIsNear(top: Topology, net: Net, n: nat, e: Event, i: nat)
    requires Quiet(net) && e.Announce? && CanReach(top, net, n, e, i)
    ensures exists h: nat :: top.Walk(n, i, h) && h <= (if e.ttl == 0 then 256 else e.ttl)
  {
    hide Quiet, CanAct, Act, Outputs;
    var nets: seq<Net>, actions: seq<Action>, k: nat :| StartsWith(top, nets, actions, net, n, e)
      && NotifiesAt(top, nets, actions, k, i, e.messageId, e.dataType, e.data);
    var a, h := Copies.NotifiedWasAnnounced(top, nets, actions, k, e.messageId, e.dataType, e.data);
    assert actions[..k][a] == actions[a];
    assert a == 0;
  }
}
