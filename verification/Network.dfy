/** A network of gossip nodes and the pushes in flight between them. */
module Network {
  import opened Basics
  import opened Bytes
  import opened RingView
  import opened Connections
  import opened Strategy

  /** A copy on its way to node `to`, where it arrives on connection `id`. */
  datatype Flight = Flight(to: nat, id: ConnectionId, push: Push)

  datatype Net = Net(nodes: seq<Node>, flights: seq<Flight>)

  datatype Endpoint = Endpoint(node: nat, id: ConnectionId)

  /** The arguments of each node, and where each connection end leads. */
  datatype Topology = Topology(envs: seq<Env>, link: map<Endpoint, Endpoint>) {
    predicate Linked(a: nat, b: nat) {
      exists e :: e in link && e.node == a && link[e].node == b
    }

    /** A walk of h links leads from node a to node b. */
    ghost predicate Walk(a: nat, b: nat, h: nat)
      decreases h
    {
      if h == 0 then a == b else exists c: nat :: Walk(a, c, h - 1) && Linked(c, b)
    }
  }

  /** A copy arrives, is lost, or a node takes any other event at some time. */
  datatype Action = Deliver(k: nat) | Lose(k: nat) | Local(i: nat, e: Event, now: int64)

  predicate Announces(a: Action) {
    a.Local? && a.e.Announce?
  }

  function DropAt<T>(s: seq<T>, k: nat): (r: seq<T>)
    requires k < |s|
    ensures forall x :: x in r ==> x in s
    ensures multiset(r) + multiset{s[k]} == multiset(s)
  {
    assert s == s[..k] + [s[k]] + s[k + 1..];
    s[..k] + s[k + 1..]
  }

  /** The copies that a node's output puts in flight. */
  function FlightsOf(top: Topology, i: nat, outs: seq<Out>): seq<Flight> {
    if outs == [] then []
    else
      var before := FlightsOf(top, i, outs[..|outs| - 1]);
      match outs[|outs| - 1]
      case ToPeer(id, MPush(push)) =>
        if Endpoint(i, id) in top.link then
          var far := top.link[Endpoint(i, id)];
          before + [Flight(far.node, far.id, push)]
        else before
      case _ => before
  }

  predicate CanAct(top: Topology, net: Net, a: Action) {
    |top.envs| == |net.nodes| &&
    match a
    case Deliver(k) => k < |net.flights| && net.flights[k].to < |net.nodes|
    case Lose(k) => k < |net.flights|
    case Local(i, e, _) => i < |net.nodes| && !e.PushMsg? && Enabled(top.envs[i], net.nodes[i], e)
  }

  function Act(top: Topology, net: Net, a: Action): Net
    requires CanAct(top, net, a)
  {
    match a
    case Deliver(k) =>
      var f := net.flights[k];
      var node := Step(top.envs[f.to], net.nodes[f.to], PushMsg(f.id, f.push), 0).0;  // no clock involved
      net.(nodes := net.nodes[f.to := node], flights := DropAt(net.flights, k))
    case Lose(k) => net.(flights := DropAt(net.flights, k))
    case Local(i, e, now) =>
      var (node, outs) := Step(top.envs[i], net.nodes[i], e, now);
      Net(net.nodes[i := node], net.flights + FlightsOf(top, i, outs))
  }

  /** The node that an action is a turn of; none where a copy is lost. */
  function Actor(net: Net, a: Action): Option<nat>
    requires a.Deliver? ==> a.k < |net.flights|
  {
    match a
    case Deliver(k) => Some(net.flights[k].to)
    case Lose(_) => None
    case Local(i, _, _) => Some(i)
  }

  /** What that node sends, to its peers and to its module. */
  function Outputs(top: Topology, net: Net, a: Action): seq<Out>
    requires CanAct(top, net, a)
  {
    match a
    case Deliver(k) =>
      var f := net.flights[k];
      Step(top.envs[f.to], net.nodes[f.to], PushMsg(f.id, f.push), 0).1
    case Lose(_) => []
    case Local(i, e, now) => Step(top.envs[i], net.nodes[i], e, now).1
  }

  ghost predicate IsRun(top: Topology, nets: seq<Net>, actions: seq<Action>) {
    && |nets| == |actions| + 1
    && forall i :: 0 <= i < |actions| ==>
      CanAct(top, nets[i], actions[i]) && nets[i + 1] == Act(top, nets[i], actions[i])
  }

  /** Nothing has been announced yet: no message is stored or in flight. */
  predicate Quiet(net: Net) {
    && net.flights == []
    && forall n :: n in net.nodes ==> n.invalid == [] && n.valid == [] && n.sent == []
  }

  // ---- how far a message travels ----

  /** The hops a TTL stands for: decrementing 0 wraps to 255, so 0 stands for 256 hops. */
  function Rank(ttl: byte): (r: nat)
    ensures r >= 1 && r % 256 == ttl
  {
    if ttl == 0 then 256 else ttl
  }

  lemma InsertedElements<T>(s: seq<T>, cap: nat, v: T)
    ensures forall x :: x in Inserted(s, cap, v) ==> x in s || x == v
  {
  }

  lemma {:induction false} InsertedAllElements<T>(s: seq<T>, cap: nat, vs: seq<T>)
    ensures forall x :: x in InsertedAll(s, cap, vs) ==> x in s || x in vs
    decreases |vs|
  {
    if vs != [] {
      InsertedAllElements(s, cap, vs[..|vs| - 1]);
      InsertedElements(InsertedAll(s, cap, vs[..|vs| - 1]), cap, vs[|vs| - 1]);
    }
  }

  /** A validated copy has used up one hop more. */
  lemma DecrementUsesOneHop(ttl: byte)
    ensures ttl != 1 ==> Rank(DecrementedTtl(ttl)) == Rank(ttl) - 1
  {
  }

  /** Connection events send no pushes. */
  lemma OthersSendNoPush(env: Env, n: Node, e: Event, now: int64)
    requires !AboutMessages(e) && Enabled(env, n, e)
    ensures forall o :: o in Step(env, n, e, now).1 ==> !(o.ToPeer? && o.msg.MPush?)
  {
  }

  /** Only a push that arrives is notified, as it is. */
  lemma OnlyPushesNotify(env: Env, n: Node, e: Event, now: int64, o: Out)
    requires Enabled(env, n, e) && o in Step(env, n, e, now).1 && o.Notify?
    ensures e.PushMsg? && o == Notify(e.push.messageId, e.push.gossipType, e.push.payload)
  {
    if e.GossipTick? {
      TickOnlyPushes(n.valid, e.chosen);
    }
  }

  lemma {:induction false} TickOnlyPushes(drained: seq<Push>, chosen: seq<seq<ConnectionId>>)
    requires |drained| == |chosen|
    ensures forall o :: o in TickPushes(drained, chosen) ==> o.ToPeer?
    decreases |drained|
  {
    if drained != [] {
      TickOnlyPushes(drained[..|drained| - 1], chosen[..|drained| - 1]);
    }
  }

  lemma {:induction false} NoPushNoFlight(top: Topology, i: nat, outs: seq<Out>)
    requires forall o :: o in outs ==> !(o.ToPeer? && o.msg.MPush?)
    ensures FlightsOf(top, i, outs) == []
  {
    if outs != [] {
      assert outs[|outs| - 1] in outs;
      NoPushNoFlight(top, i, outs[..|outs| - 1]);
    }
  }

  lemma {:induction false} FlightsOfConcat(top: Topology, i: nat, a: seq<Out>, b: seq<Out>)
    ensures FlightsOf(top, i, a + b) == FlightsOf(top, i, a) + FlightsOf(top, i, b)
  {
    if b == [] {
      assert a + b == a;
    } else {
      FlightsOfConcat(top, i, a, b[..|b| - 1]);
      assert (a + b)[..|a + b| - 1] == a + b[..|b| - 1];
    }
  }
}
