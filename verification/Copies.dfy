/** The same network with each copy's own history: the announcing action it stems from and the nodes it went
    through. Leaving the histories out gives the network of module Network, step by step; so what is proved of
    a copy's history holds of the push at its place in every run. */
module Copies {
  import opened Basics
  import opened Bytes
  import opened RingView
  import opened Connections
  import opened Strategy
  import opened Network

  /** A copy of the message that action number `origin` announced; path lists the nodes it was at, announcer first. */
  datatype Copy = Copy(push: Push, origin: nat, path: seq<nat>) {
    function Hops(): int {
      |path| - 1
    }
  }

  datatype CopyFlight = CopyFlight(to: nat, id: ConnectionId, copy: Copy) {
    function Erased(): Flight {
      Flight(to, id, copy.push)
    }
  }

  datatype CopyNode = CopyNode(
    conns: Conns,
    invalid: seq<Copy>,
    valid: seq<Copy>,
    sent: seq<Copy>,
    jobs: multiset<Job>,
    issued: set<bytes>)
  {
    function Erased(): Node {
      Node(conns, Pushes(invalid), Pushes(valid), Pushes(sent), jobs, issued)
    }
  }

  datatype CopyNet = CopyNet(nodes: seq<CopyNode>, flights: seq<CopyFlight>) {
    function Erased(): Net {
      Net(ErasedNodes(nodes), ErasedFlights(flights))
    }
  }

  function Pushes(s: seq<Copy>): (r: seq<Push>)
    ensures |r| == |s| && forall i :: 0 <= i < |s| ==> r[i] == s[i].push
  {
    seq(|s|, i requires 0 <= i < |s| => s[i].push)
  }

  function ErasedNodes(s: seq<CopyNode>): (r: seq<Node>)
    ensures |r| == |s| && forall i :: 0 <= i < |s| ==> r[i] == s[i].Erased()
  {
    seq(|s|, i requires 0 <= i < |s| => s[i].Erased())
  }

  function ErasedFlights(s: seq<CopyFlight>): (r: seq<Flight>)
    ensures |r| == |s| && forall i :: 0 <= i < |s| ==> r[i] == s[i].Erased()
  {
    seq(|s|, i requires 0 <= i < |s| => s[i].Erased())
  }

  // ---- the steps, on copies ----

  /** A push arrives. */
  function Taken(env: Env, n: CopyNode, id: ConnectionId, c: Copy): CopyNode {
    if id !in n.conns.open || Known(n.Erased(), c.push.messageId) then n
    else n.(invalid := Inserted(n.invalid, env.cap, c))
  }

  /** The place of the first copy with the id, or the length. */
  function Place(s: seq<Copy>, messageId: uint16): (k: nat)
    ensures k <= |s| && (k < |s| ==> s[k].push.messageId == messageId)
    ensures forall j :: 0 <= j < k ==> s[j].push.messageId != messageId
  {
    if s == [] || s[0].push.messageId == messageId then 0 else 1 + Place(s[1..], messageId)
  }

  function RemovedAt(s: seq<Copy>, cap: nat, k: nat): seq<Copy>
    requires k < |s|
  {
    if cap < 2 then [] else DropAt(s, k)
  }

  /** A copy that used up one more hop. */
  function Decremented(c: Copy): Copy {
    c.(push := c.push.(ttl := DecrementedTtl(c.push.ttl)))
  }

  function Validated(env: Env, n: CopyNode, messageId: uint16, isValid: bool): CopyNode {
    var k := Place(n.invalid, messageId);
    if k == |n.invalid| then n
    else
      var c, left := n.invalid[k], n.(invalid := RemovedAt(n.invalid, env.cap, k));
      if !isValid then left
      else if c.push.ttl == 1 then left.(sent := Inserted(left.sent, env.cap, c))
      else left.(valid := Inserted(left.valid, env.cap, Decremented(c)))
  }

  /** Node i takes an event that is no push, in the action with this number. */
  function LocalStep(env: Env, n: CopyNode, e: Event, now: int64, i: nat, number: nat): CopyNode
    requires Enabled(env, n.Erased(), e)
  {
    match e
    case Announce(_, _, _, _) => n.(valid := Inserted(n.valid, env.cap, Copy(AnnouncedPush(e), number, [i])))
    case Validation(messageId, isValid) => Validated(env, n, messageId, isValid)
    case GossipTick(_) => n.(valid := [], sent := InsertedAll(n.sent, env.cap, n.valid))
    case _ =>
      var s := Step(env, n.Erased(), e, now).0;
      n.(conns := s.conns, jobs := s.jobs, issued := s.issued)
  }

  /** The flights of one copy from node i to the peers: each goes on its own way. */
  function FlightsTo(top: Topology, i: nat, c: Copy, ids: seq<ConnectionId>): seq<CopyFlight> {
    if ids == [] then []
    else
      var before, id := FlightsTo(top, i, c, ids[..|ids| - 1]), ids[|ids| - 1];
      if Endpoint(i, id) !in top.link then before
      else
        var far := top.link[Endpoint(i, id)];
        before + [CopyFlight(far.node, far.id, c.(path := c.path + [far.node]))]
  }

  function TickFlights(top: Topology, i: nat, drained: seq<Copy>, chosen: seq<seq<ConnectionId>>): seq<CopyFlight>
    requires |drained| == |chosen|
    decreases |drained|
  {
    if drained == [] then []
    else
      var n := |drained| - 1;
      TickFlights(top, i, drained[..n], chosen[..n]) + FlightsTo(top, i, drained[n], chosen[n])
  }

  /** The action with this number. */
  function CopyAct(top: Topology, net: CopyNet, a: Action, number: nat): CopyNet
    requires CanAct(top, net.Erased(), a)
  {
    match a
    case Deliver(k) =>
      var f := net.flights[k];
      net.(nodes := net.nodes[f.to := Taken(top.envs[f.to], net.nodes[f.to], f.id, f.copy)],
        flights := DropAt(net.flights, k))
    case Lose(k) => net.(flights := DropAt(net.flights, k))
    case Local(i, e, now) =>
      var n := net.nodes[i];
      CopyNet(net.nodes[i := LocalStep(top.envs[i], n, e, now, i, number)],
              net.flights + if e.GossipTick? then TickFlights(top, i, n.valid, e.chosen) else [])
  }

  // ---- leaving out the histories ----

  lemma PushesInserted(s: seq<Copy>, cap: nat, c: Copy)
    ensures Pushes(Inserted(s, cap, c)) == Inserted(Pushes(s), cap, c.push)
  {
  }

  lemma {:induction false} PushesInsertedAll(s: seq<Copy>, cap: nat, cs: seq<Copy>)
    ensures Pushes(InsertedAll(s, cap, cs)) == InsertedAll(Pushes(s), cap, Pushes(cs))
    decreases |cs|
  {
    if cs != [] {
      var init := cs[..|cs| - 1];
      PushesInsertedAll(s, cap, init);
      PushesInserted(InsertedAll(s, cap, init), cap, cs[|cs| - 1]);
      assert Pushes(cs)[..|cs| - 1] == Pushes(init);
    }
  }

  lemma {:induction false} PlaceIsFirst(s: seq<Copy>, messageId: uint16)
    ensures var k := Place(s, messageId);
      FirstWithId(Pushes(s), messageId) == if k < |s| then Some(s[k].push) else None
  {
    if s != [] && s[0].push.messageId != messageId {
      PlaceIsFirst(s[1..], messageId);
      assert Pushes(s)[1..] == Pushes(s[1..]);
    }
  }

  /** The first push with an id is the first with its value: removing either is the same. */
  lemma PushesRemoved(s: seq<Copy>, cap: nat, messageId: uint16)
    requires Place(s, messageId) < |s|
    ensures var k := Place(s, messageId);
      Pushes(RemovedAt(s, cap, k)) == RingView.Removed(Pushes(s), cap, s[k].push)
  {
    var k := Place(s, messageId);
    assert Pushes(s)[k] == s[k].push;
    FirstIndex(Pushes(s), s[k].push, k);
  }

  lemma FirstIndex(s: seq<Push>, p: Push, k: nat)
    requires k < |s| && s[k] == p && forall j :: 0 <= j < k ==> s[j] != p
    ensures IndexOf(s, p) == k
  {
  }

  lemma TakenErases(env: Env, n: CopyNode, id: ConnectionId, c: Copy)
    ensures Taken(env, n, id, c).Erased() == Step(env, n.Erased(), PushMsg(id, c.push), 0).0
  {
    PushesInserted(n.invalid, env.cap, c);
  }

  lemma ValidatedErases(env: Env, n: CopyNode, messageId: uint16, isValid: bool, now: int64)
    ensures Validated(env, n, messageId, isValid).Erased() ==
      Step(env, n.Erased(), Validation(messageId, isValid), now).0
  {
    hide Inserted, RingView.Removed, Pushes, Place;
    var k := Place(n.invalid, messageId);
    PlaceIsFirst(n.invalid, messageId);
    if k < |n.invalid| {
      PushesRemoved(n.invalid, env.cap, messageId);
      var left := n.(invalid := RemovedAt(n.invalid, env.cap, k));
      var removed := RingView.Removed(Pushes(n.invalid), env.cap, n.invalid[k].push);
      assert left.Erased() == n.Erased().(invalid := removed);
      if isValid {
        ForwardedErases(env, left, n.invalid[k]);
      }
    }
  }

  lemma ForwardedErases(env: Env, left: CopyNode, c: Copy)
    ensures left.(sent := Inserted(left.sent, env.cap, c)).Erased()
         == left.Erased().(sent := Inserted(Pushes(left.sent), env.cap, c.push))
    ensures left.(valid := Inserted(left.valid, env.cap, Decremented(c))).Erased()
         == left.Erased().(valid := Inserted(Pushes(left.valid), env.cap, Decremented(c).push))
  {
    PushesInserted(left.sent, env.cap, c);
    PushesInserted(left.valid, env.cap, Decremented(c));
  }

  lemma LocalStepErases(env: Env, n: CopyNode, e: Event, now: int64, i: nat, number: nat)
    requires Enabled(env, n.Erased(), e) && !e.PushMsg?
    ensures LocalStep(env, n, e, now, i, number).Erased() == Step(env, n.Erased(), e, now).0
  {
    if e.Announce? {
      PushesInserted(n.valid, env.cap, Copy(AnnouncedPush(e), number, [i]));
    } else if e.Validation? {
      ValidatedErases(env, n, e.messageId, e.isValid, now);
    } else if e.GossipTick? {
      PushesInsertedAll(n.sent, env.cap, n.valid);
    }
  }

  lemma {:induction false} FlightsToErase(top: Topology, i: nat, c: Copy, ids: seq<ConnectionId>)
    ensures ErasedFlights(FlightsTo(top, i, c, ids)) == FlightsOf(top, i, PushesTo(c.push, ids))
  {
    if ids != [] {
      var n := |ids| - 1;
      FlightsToErase(top, i, c, ids[..n]);
      assert PushesTo(c.push, ids)[..n] == PushesTo(c.push, ids[..n]);
    }
  }

  lemma {:induction false} TickFlightsErase(top: Topology, i: nat, drained: seq<Copy>, chosen: seq<seq<ConnectionId>>)
    requires |drained| == |chosen|
    ensures ErasedFlights(TickFlights(top, i, drained, chosen)) ==
      FlightsOf(top, i, TickPushes(Pushes(drained), chosen))
    decreases |drained|
  {
    if drained != [] {
      var n := |drained| - 1;
      TickFlightsErase(top, i, drained[..n], chosen[..n]);
      FlightsToErase(top, i, drained[n], chosen[n]);
      assert Pushes(drained)[..n] == Pushes(drained[..n]);
      FlightsOfConcat(top, i, TickPushes(Pushes(drained[..n]), chosen[..n]), PushesTo(drained[n].push, chosen[n]));
    }
  }

  lemma LocalFlightsErase(top: Topology, i: nat, env: Env, n: CopyNode, e: Event, now: int64)
    requires Enabled(env, n.Erased(), e) && !e.PushMsg?
    ensures FlightsOf(top, i, Step(env, n.Erased(), e, now).1)
         == if e.GossipTick? then ErasedFlights(TickFlights(top, i, n.valid, e.chosen)) else []
  {
    if e.GossipTick? {
      TickFlightsErase(top, i, n.valid, e.chosen);
    } else {
      if !AboutMessages(e) {
        OthersSendNoPush(env, n.Erased(), e, now);
      }
      NoPushNoFlight(top, i, Step(env, n.Erased(), e, now).1);
    }
  }

  /** Every step on copies is, without the histories, the step of the network. */
  lemma ActErases(top: Topology, net: CopyNet, a: Action, number: nat)
    requires CanAct(top, net.Erased(), a)
    ensures CopyAct(top, net, a, number).Erased() == Act(top, net.Erased(), a)
  {
    match a {
      case Lose(k) =>
        ErasedDrop(net.flights, k);
      case Deliver(k) =>
        var f := net.flights[k];
        ErasedDrop(net.flights, k);
        TakenErases(top.envs[f.to], net.nodes[f.to], f.id, f.copy);
        ErasedUpdate(net.nodes, f.to, Taken(top.envs[f.to], net.nodes[f.to], f.id, f.copy));
      case Local(i, e, now) =>
        var n := net.nodes[i];
        LocalStepErases(top.envs[i], n, e, now, i, number);
        ErasedUpdate(net.nodes, i, LocalStep(top.envs[i], n, e, now, i, number));
        LocalFlightsErase(top, i, top.envs[i], n, e, now);
        ErasedConcat(net.flights, if e.GossipTick? then TickFlights(top, i, n.valid, e.chosen) else []);
    }
  }

  lemma ErasedDrop(s: seq<CopyFlight>, k: nat)
    requires k < |s|
    ensures ErasedFlights(DropAt(s, k)) == DropAt(ErasedFlights(s), k)
  {
  }

  lemma ErasedConcat(s: seq<CopyFlight>, more: seq<CopyFlight>)
    ensures ErasedFlights(s + more) == ErasedFlights(s) + ErasedFlights(more)
  {
  }

  lemma ErasedUpdate(s: seq<CopyNode>, i: nat, n: CopyNode)
    requires i < |s|
    ensures ErasedNodes(s[i := n]) == ErasedNodes(s)[i := n.Erased()]
  {
  }

  // ---- the histories of a run ----

  function Unsent(n: Node): CopyNode {
    CopyNode(n.conns, [], [], [], n.jobs, n.issued)
  }

  /** The network at the start of a run, in which no message is stored or in flight. */
  function AtStart(net: Net): (c: CopyNet)
    requires Quiet(net)
    ensures c.Erased() == net && c.flights == []
  {
    var c := CopyNet(seq(|net.nodes|, i requires 0 <= i < |net.nodes| => Unsent(net.nodes[i])), []);
    assert forall i :: 0 <= i < |net.nodes| ==> net.nodes[i] in net.nodes && c.nodes[i].Erased() == net.nodes[i];
    assert ErasedNodes(c.nodes) == net.nodes;
    c
  }

  /** The network after k actions of a run, with the history of each copy. */
  ghost function Histories(top: Topology, nets: seq<Net>, actions: seq<Action>, k: nat): (c: CopyNet)
    requires IsRun(top, nets, actions) && Quiet(nets[0]) && k < |nets|
    ensures c.Erased() == nets[k]
  {
    if k == 0 then AtStart(nets[0])
    else
      var before := Histories(top, nets, actions, k - 1);
      ActErases(top, before, actions[k - 1], k - 1);
      CopyAct(top, before, actions[k - 1], k - 1)
  }

  /** The copy's own way: from the node of its own announcement, link by link, to node i. */
  predicate Came(top: Topology, past: seq<Action>, i: nat, c: Copy) {
    && c.origin < |past| && past[c.origin].Local? && past[c.origin].e.Announce?
    && var e := past[c.origin].e;
    && c.push.messageId == e.messageId && c.push.gossipType == e.dataType && c.push.payload == e.data
    && c.path != [] && c.path[0] == past[c.origin].i && c.path[|c.path| - 1] == i
    && forall j :: 0 < j < |c.path| ==> top.Linked(c.path[j - 1], c.path[j])
  }

  /** The rank of the TTL that the copy's own message was announced with. */
  function StartRank(past: seq<Action>, c: Copy): nat
    requires c.origin < |past| && past[c.origin].Local? && past[c.origin].e.Announce?
  {
    Rank(past[c.origin].e.ttl)
  }

  /** A copy in flight to node i or waiting there: the last link is not counted down yet. */
  predicate Arriving(top: Topology, past: seq<Action>, i: nat, c: Copy) {
    Came(top, past, i, c) && c.Hops() >= 1 && c.Hops() + Rank(c.push.ttl) == StartRank(past, c) + 1
  }

  /** A copy to be sent from node i. */
  predicate Leaving(top: Topology, past: seq<Action>, i: nat, c: Copy) {
    Came(top, past, i, c) && c.Hops() + Rank(c.push.ttl) == StartRank(past, c)
  }

  /** A copy that is not sent from node i again: it was sent, or had used up its hops. */
  predicate Finished(top: Topology, past: seq<Action>, i: nat, c: Copy) {
    Leaving(top, past, i, c) || (Arriving(top, past, i, c) && c.push.ttl == 1)
  }

  predicate NodeOk(top: Topology, past: seq<Action>, i: nat, n: CopyNode) {
    && (forall c :: c in n.invalid ==> Arriving(top, past, i, c))
    && (forall c :: c in n.valid ==> Leaving(top, past, i, c))
    && (forall c :: c in n.sent ==> Finished(top, past, i, c))
  }

  predicate FlightsOk(top: Topology, past: seq<Action>, fs: seq<CopyFlight>) {
    forall f :: f in fs ==> Arriving(top, past, f.to, f.copy)
  }

  predicate NetOk(top: Topology, past: seq<Action>, net: CopyNet) {
    && FlightsOk(top, past, net.flights)
    && forall i :: 0 <= i < |net.nodes| ==> NodeOk(top, past, i, net.nodes[i])
  }

  lemma NodeOkGrows(top: Topology, past: seq<Action>, a: Action, i: nat, n: CopyNode)
    requires NodeOk(top, past, i, n)
    ensures NodeOk(top, past + [a], i, n)
  {
  }

  lemma NetOkGrows(top: Topology, past: seq<Action>, a: Action, net: CopyNet)
    requires NetOk(top, past, net)
    ensures NetOk(top, past + [a], net)
  {
    hide NodeOk;
    forall i | 0 <= i < |net.nodes| ensures NodeOk(top, past + [a], i, net.nodes[i]) {
      NodeOkGrows(top, past, a, i, net.nodes[i]);
    }
  }

  lemma TakenOk(top: Topology, past: seq<Action>, env: Env, i: nat, n: CopyNode, id: ConnectionId, c: Copy)
    requires NodeOk(top, past, i, n) && Arriving(top, past, i, c)
    ensures NodeOk(top, past, i, Taken(env, n, id, c))
  {
    InsertedElements(n.invalid, env.cap, c);
  }

  lemma ValidatedOk(top: Topology, past: seq<Action>, env: Env, i: nat, n: CopyNode, messageId: uint16, isValid: bool)
    requires NodeOk(top, past, i, n)
    ensures NodeOk(top, past, i, Validated(env, n, messageId, isValid))
  {
    var k := Place(n.invalid, messageId);
    if k < |n.invalid| {
      var c := n.invalid[k];
      assert c in n.invalid;
      DecrementUsesOneHop(c.push.ttl);
      InsertedElements(n.sent, env.cap, c);
      InsertedElements(n.valid, env.cap, Decremented(c));
    }
  }

  /** `past` ends with the action that brings the event. */
  lemma LocalStepOk(top: Topology, past: seq<Action>, env: Env, i: nat, n: CopyNode, e: Event, now: int64)
    requires NodeOk(top, past, i, n) && Enabled(env, n.Erased(), e)
    requires past != [] && past[|past| - 1] == Local(i, e, now)
    ensures NodeOk(top, past, i, LocalStep(env, n, e, now, i, |past| - 1))
  {
    if e.Validation? {
      ValidatedOk(top, past, env, i, n, e.messageId, e.isValid);
    } else if e.GossipTick? {
      InsertedAllElements(n.sent, env.cap, n.valid);
    } else if e.Announce? {
      InsertedElements(n.valid, env.cap, Copy(AnnouncedPush(e), |past| - 1, [i]));
    }
  }

  lemma OneLinkFurther(top: Topology, past: seq<Action>, i: nat, j: nat, c: Copy)
    requires Leaving(top, past, i, c) && top.Linked(i, j)
    ensures Arriving(top, past, j, c.(path := c.path + [j]))
  {
  }

  lemma {:induction false} FlightsToOk(top: Topology, past: seq<Action>, i: nat, c: Copy, ids: seq<ConnectionId>)
    requires Leaving(top, past, i, c)
    ensures FlightsOk(top, past, FlightsTo(top, i, c, ids))
  {
    if ids != [] {
      FlightsToOk(top, past, i, c, ids[..|ids| - 1]);
      var id := ids[|ids| - 1];
      if Endpoint(i, id) in top.link {
        OneLinkFurther(top, past, i, top.link[Endpoint(i, id)].node, c);
      }
    }
  }

  lemma {:induction false} TickFlightsOk(top: Topology, past: seq<Action>, i: nat, drained: seq<Copy>,
          chosen: seq<seq<ConnectionId>>)
    requires |drained| == |chosen| && forall c :: c in drained ==> Leaving(top, past, i, c)
    ensures FlightsOk(top, past, TickFlights(top, i, drained, chosen))
    decreases |drained|
  {
    if drained != [] {
      var n := |drained| - 1;
      TickFlightsOk(top, past, i, drained[..n], chosen[..n]);
      FlightsToOk(top, past, i, drained[n], chosen[n]);
    }
  }

  lemma LocalActOk(top: Topology, past: seq<Action>, net: CopyNet, i: nat, e: Event, now: int64)
    requires CanAct(top, net.Erased(), Local(i, e, now)) && NetOk(top, past, net)
    requires past != [] && past[|past| - 1] == Local(i, e, now)
    ensures NetOk(top, past, CopyAct(top, net, Local(i, e, now), |past| - 1))
  {
    hide LocalStep, Came;
    var n := net.nodes[i];
    LocalStepOk(top, past, top.envs[i], i, n, e, now);
    if e.GossipTick? {
      TickFlightsOk(top, past, i, n.valid, e.chosen);
    }
  }

  /** Every action keeps that each copy's TTL counts the links of its own way. */
  lemma ActKeepsHops(top: Topology, past: seq<Action>, net: CopyNet, a: Action)
    requires CanAct(top, net.Erased(), a) && NetOk(top, past, net)
    ensures NetOk(top, past + [a], CopyAct(top, net, a, |past|))
  {
    hide Came;
    NetOkGrows(top, past, a, net);
    var more := past + [a];
    match a {
      case Lose(_) =>
      case Deliver(k) =>
        var f := net.flights[k];
        assert f in net.flights;
        TakenOk(top, more, top.envs[f.to], f.to, net.nodes[f.to], f.id, f.copy);
      case Local(i, e, now) =>
        LocalActOk(top, more, net, i, e, now);
    }
  }

  lemma {:induction false} AlwaysOk(top: Topology, nets: seq<Net>, actions: seq<Action>, k: nat)
    requires IsRun(top, nets, actions) && Quiet(nets[0]) && k < |nets|
    ensures NetOk(top, actions[..k], Histories(top, nets, actions, k))
  {
    hide CanAct, Act, CopyAct, NetOk, Quiet;
    if k == 0 {
      StartOk(top, nets[0]);
    } else {
      AlwaysOk(top, nets, actions, k - 1);
      ActKeepsHops(top, actions[..k - 1], Histories(top, nets, actions, k - 1), actions[k - 1]);
      assert actions[..k] == actions[..k - 1] + [actions[k - 1]];
    }
  }

  lemma StartOk(top: Topology, net: Net)
    requires Quiet(net)
    ensures NetOk(top, [], AtStart(net))
  {
    var c := AtStart(net);
    forall i | 0 <= i < |c.nodes| ensures NodeOk(top, [], i, c.nodes[i]) {
      assert c.nodes[i].Erased() == net.nodes[i] && net.nodes[i] in net.nodes;
      assert c.nodes[i].invalid == [] && c.nodes[i].valid == [] && c.nodes[i].sent == [];
    }
  }

  /** A copy at node i: its message is the one that its own announcing action brought, it came over h links from
      the node of that action, and was announced for at least h hops, of which a TTL of 0 means 256. */
  predicate StemsFromAnnounce(top: Topology, past: seq<Action>, i: nat, c: Copy) {
    c.origin < |past| &&
    match past[c.origin]
    case Local(n, Announce(ttl, dataType, data, messageId), _) =>
      && c.push.messageId == messageId && c.push.gossipType == dataType && c.push.payload == data
      && c.path != [] && c.path[0] == n && c.path[|c.path| - 1] == i
      && (forall j :: 0 < j < |c.path| ==> top.Linked(c.path[j - 1], c.path[j]))
      && c.Hops() <= (if ttl == 0 then 256 else ttl)
    case _ => false
  }

  /** Such a copy before it is validated there: it carries t - (h - 1) modulo 256 of the announced TTL t. */
  predicate CountsItsHops(top: Topology, past: seq<Action>, i: nat, c: Copy) {
    && StemsFromAnnounce(top, past, i, c)
    && 1 <= c.Hops() && c.push.ttl == (past[c.origin].e.ttl - (c.Hops() - 1)) % 256
  }

  /** In every run of every network, each push in flight or waiting for validation is a copy of the message of one
      earlier Announce event; it carries the TTL of that event less one for each link of its own way after the
      first, modulo 256; and it came over at most as many links as that TTL stands for. */
  lemma CopyCarriesItsHops(top: Topology, nets: seq<Net>, actions: seq<Action>, k: nat)
    requires IsRun(top, nets, actions) && Quiet(nets[0]) && k < |nets|
    ensures var c := Histories(top, nets, actions, k);
      && c.Erased() == nets[k]
      && (forall f :: f in c.flights ==> CountsItsHops(top, actions[..k], f.to, f.copy))
      && forall i, j :: 0 <= i < |c.nodes| && 0 <= j < |c.nodes[i].invalid| ==>
           CountsItsHops(top, actions[..k], i, c.nodes[i].invalid[j])
  {
    hide CountsItsHops, Arriving;
    var c := Histories(top, nets, actions, k);
    AlwaysOk(top, nets, actions, k);
    forall f | f in c.flights ensures CountsItsHops(top, actions[..k], f.to, f.copy) {
      ArrivingCounts(top, actions[..k], f.to, f.copy);
    }
    forall i, j | 0 <= i < |c.nodes| && 0 <= j < |c.nodes[i].invalid|
      ensures CountsItsHops(top, actions[..k], i, c.nodes[i].invalid[j])
    {
      assert NodeOk(top, actions[..k], i, c.nodes[i]) && c.nodes[i].invalid[j] in c.nodes[i].invalid;
      ArrivingCounts(top, actions[..k], i, c.nodes[i].invalid[j]);
    }
  }

  lemma ArrivingCounts(top: Topology, past: seq<Action>, i: nat, c: Copy)
    requires Arriving(top, past, i, c)
    ensures CountsItsHops(top, past, i, c)
  {
  }

  lemma {:induction false} WayIsWalk(top: Topology, path: seq<nat>)
    requires path != [] && forall j :: 0 < j < |path| ==> top.Linked(path[j - 1], path[j])
    ensures top.Walk(path[0], path[|path| - 1], |path| - 1)
  {
    if |path| > 1 {
      WayIsWalk(top, path[..|path| - 1]);
      assert top.Linked(path[|path| - 2], path[|path| - 1]);
    }
  }

  /** The message was announced before at a node from which h links lead to node i, for at least h hops. */
  ghost predicate AnnouncedFor(top: Topology, past: seq<Action>, a: nat, h: nat, i: nat, messageId: uint16,
                               dataType: uint16, data: bytes)
  {
    && a < |past| && past[a].Local? && past[a].e.Announce?
    && past[a].e.messageId == messageId && past[a].e.dataType == dataType && past[a].e.data == data
    && top.Walk(past[a].i, i, h) && h <= (if past[a].e.ttl == 0 then 256 else past[a].e.ttl)
  }

  lemma StoredCopyNear(top: Topology, past: seq<Action>, i: nat, c: Copy)
    requires Arriving(top, past, i, c) || Leaving(top, past, i, c) || Finished(top, past, i, c)
    ensures c.Hops() >= 0
    ensures AnnouncedFor(top, past, c.origin, c.Hops(), i, c.push.messageId, c.push.gossipType, c.push.payload)
  {
    WayIsWalk(top, c.path);
  }

  /** No node stores a message unless a walk leads to it, no longer than the announced TTL stands for, from a node
      that announced just this message earlier in the run. */
  lemma StoredWithinRank(top: Topology, nets: seq<Net>, actions: seq<Action>, k: nat, i: nat, p: Push)
    returns (a: nat, h: nat)
    requires IsRun(top, nets, actions) && Quiet(nets[0]) && k < |nets| && i < |nets[k].nodes|
    requires var n := nets[k].nodes[i]; p in n.invalid || p in n.valid || p in n.sent
    ensures AnnouncedFor(top, actions[..k], a, h, i, p.messageId, p.gossipType, p.payload)
  {
    hide Came, AnnouncedFor;
    var net := Histories(top, nets, actions, k);
    AlwaysOk(top, nets, actions, k);
    var n := net.nodes[i];
    assert NodeOk(top, actions[..k], i, n) && n.Erased() == nets[k].nodes[i];
    var c := CopyOf(if p in Pushes(n.invalid) then n.invalid else if p in Pushes(n.valid) then n.valid else n.sent, p);
    StoredCopyNear(top, actions[..k], i, c);
    a, h := c.origin, c.Hops();
  }

  lemma CopyOf(s: seq<Copy>, p: Push) returns (c: Copy)
    requires p in Pushes(s)
    ensures c in s && c.push == p
  {
    var j :| 0 <= j < |s| && Pushes(s)[j] == p;
    c := s[j];
  }

  /** Whatever a node notifies its module of was announced before, with this id, type and data, at a node from
      which a walk leads to it that is no longer than the announced TTL stands for. */
  lemma NotifiedWasAnnounced(top: Topology, nets: seq<Net>, actions: seq<Action>, k: nat, messageId: uint16,
                             dataType: uint16, data: bytes) returns (a: nat, h: nat)
    requires IsRun(top, nets, actions) && Quiet(nets[0]) && k < |actions| && CanAct(top, nets[k], actions[k])
    requires Notify(messageId, dataType, data) in Outputs(top, nets[k], actions[k])
    ensures Actor(nets[k], actions[k]).Some?
    ensures AnnouncedFor(top, actions[..k], a, h, Actor(nets[k], actions[k]).value, messageId, dataType, data)
  {
    hide Came, AnnouncedFor, Step;
    var o := Notify(messageId, dataType, data);
    match actions[k] {
      case Lose(_) =>
      case Local(i, e, now) =>
        OnlyPushesNotify(top.envs[i], nets[k].nodes[i], e, now, o);
      case Deliver(m) =>
        var f := nets[k].flights[m];
        OnlyPushesNotify(top.envs[f.to], nets[k].nodes[f.to], PushMsg(f.id, f.push), 0, o);
        var net := Histories(top, nets, actions, k);
        AlwaysOk(top, nets, actions, k);
        assert net.flights[m].Erased() == f && net.flights[m] in net.flights;
        StoredCopyNear(top, actions[..k], f.to, net.flights[m].copy);
        a, h := net.flights[m].copy.origin, net.flights[m].copy.Hops();
    }
  }
}
