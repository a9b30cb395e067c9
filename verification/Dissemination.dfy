/** Why the spreading of messages ends: a weight over all copies that every forwarding step lowers,
    even when the duplicate caches have forgotten everything. */
module Dissemination {
  import opened Basics
  import opened Bytes
  import opened RingView
  import opened Connections
  import opened Strategy
  import opened Network

  function Total<T>(s: seq<T>, w: T -> nat): nat {
    if s == [] then 0 else Total(s[..|s| - 1], w) + w(s[|s| - 1])
  }

  lemma {:induction false} TotalConcat<T>(a: seq<T>, b: seq<T>, w: T -> nat)
    ensures Total(a + b, w) == Total(a, w) + Total(b, w)
  {
    if b == [] {
      assert a + b == a;
    } else {
      TotalConcat(a, b[..|b| - 1], w);
      assert (a + b)[..|a + b| - 1] == a + b[..|b| - 1];
    }
  }

  lemma TotalOne<T>(x: T, w: T -> nat)
    ensures Total([x], w) == w(x)
  {
    assert [x][..0] == [];
  }

  lemma TotalHead<T>(s: seq<T>, w: T -> nat)
    requires s != []
    ensures Total(s, w) == w(s[0]) + Total(s[1..], w)
  {
    TotalConcat([s[0]], s[1..], w);
    TotalOne(s[0], w);
    assert s == [s[0]] + s[1..];
  }

  lemma TotalWithout<T>(s: seq<T>, k: nat, w: T -> nat)
    requires k < |s|
    ensures Total(s[..k] + s[k + 1..], w) == Total(s, w) - w(s[k])
  {
    TotalConcat(s[..k], s[k..], w);
    TotalHead(s[k..], w);
    TotalConcat(s[..k], s[k + 1..], w);
    assert s[..k] + s[k..] == s && s[k..][1..] == s[k + 1..];
  }

  lemma TotalUpdated<T>(s: seq<T>, k: nat, x: T, w: T -> nat)
    requires k < |s|
    ensures Total(s[k := x], w) == Total(s, w) - w(s[k]) + w(x)
  {
    TotalWithout(s, k, w);
    TotalWithout(s[k := x], k, w);
    assert s[k := x][..k] + s[k := x][k + 1..] == s[..k] + s[k + 1..];
  }

  lemma TotalInserted<T>(s: seq<T>, cap: nat, v: T, w: T -> nat)
    ensures Total(Inserted(s, cap, v), w) <= Total(s, w) + w(v)
  {
    if s == [] {
      TotalOne(v, w);
    } else {
      var kept := if |s| < EffectiveCap(cap) then s[1..] else s[2..];
      TotalHead(s, w);
      if |s| >= EffectiveCap(cap) {
        TotalHead(s[1..], w);
        assert s[1..][1..] == kept;
      }
      TotalRotated(v, kept, s[0], w);
    }
  }

  lemma TotalRotated<T>(v: T, kept: seq<T>, last: T, w: T -> nat)
    ensures Total([v] + kept + [last], w) == w(v) + Total(kept, w) + w(last)
  {
    TotalConcat([v], kept, w);
    TotalOne(v, w);
    TotalConcat([v] + kept, [last], w);
    TotalOne(last, w);
  }

  lemma TotalEmpty<T>(w: T -> nat)
    ensures Total([], w) == 0
  {
  }

  lemma TotalRemoved<T>(s: seq<T>, cap: nat, v: T, w: T -> nat)
    requires v in s
    ensures Total(RingView.Removed(s, cap, v), w) <= Total(s, w) - w(v)
  {
    hide Total;
    TotalWithout(s, IndexOf(s, v), w);
    TotalEmpty(w);
  }

  /** The weight of a copy in flight with r hops left, when no node sends a message to more than d
      peers: delivered, validated and sent on, it becomes at most d copies with r - 1 hops left. */
  function FlightWeight(d: nat, r: nat): (w: nat)
    ensures w >= 2
  {
    if r <= 1 then 2 else d * FlightWeight(d, r - 1) + 3
  }

  function WaitingWeight(d: nat, r: nat): nat {
    FlightWeight(d, r) - 1
  }

  function SendingWeight(d: nat, r: nat): nat {
    d * FlightWeight(d, r) + 1
  }

  function Waiting(d: nat): Push -> nat {
    (p: Push) => WaitingWeight(d, Rank(p.ttl))
  }

  function Sending(d: nat): Push -> nat {
    (p: Push) => SendingWeight(d, Rank(p.ttl))
  }

  function Flying(d: nat): Flight -> nat {
    (f: Flight) => FlightWeight(d, Rank(f.push.ttl))
  }

  function NodeWeight(d: nat): Node -> nat {
    (n: Node) => Total(n.invalid, Waiting(d)) + Total(n.valid, Sending(d))
  }

  function Weight(d: nat, net: Net): nat {
    Total(net.flights, Flying(d)) + Total(net.nodes, NodeWeight(d))
  }

  /** The steps that consume a copy, settle a message, or send one on. */
  predicate Progresses(top: Topology, net: Net, a: Action)
    requires CanAct(top, net, a)
  {
    match a
    case Deliver(_) => true
    case Lose(_) => true
    case Local(i, e, _) =>
      (e.Validation? && Holds(net.nodes[i].invalid, e.messageId)) || (e.GossipTick? && net.nodes[i].valid != [])
  }

  predicate DegreeAtMost(top: Topology, d: nat) {
    forall i :: 0 <= i < |top.envs| ==> top.envs[i].degree <= d
  }

  lemma DeliveredWeighsLess(d: nat, env: Env, n: Node, id: ConnectionId, p: Push)
    ensures NodeWeight(d)(Step(env, n, PushMsg(id, p), 0).0) < NodeWeight(d)(n) + FlightWeight(d, Rank(p.ttl))
  {
    TotalInserted(n.invalid, env.cap, p, Waiting(d));
  }

  lemma ValidatedWeighsLess(d: nat, env: Env, n: Node, e: Event, now: int64)
    requires e.Validation?
    ensures var n' := Step(env, n, e, now).0;
            if Holds(n.invalid, e.messageId) then NodeWeight(d)(n') < NodeWeight(d)(n) else n' == n
  {
    hide StepConnection, FirstWithId, Total, RingView.Removed, Inserted;
    var found := FirstWithId(n.invalid, e.messageId);
    if found.Some? {
      var p := found.value;
      var q := p.(ttl := DecrementedTtl(p.ttl));
      TotalRemoved(n.invalid, env.cap, p, Waiting(d));
      TotalInserted(n.valid, env.cap, q, Sending(d));
      DecrementUsesOneHop(p.ttl);
    }
  }

  lemma {:induction false} TickSendsLess(d: nat, top: Topology, i: nat, drained: seq<Push>,
          chosen: seq<seq<ConnectionId>>)
    requires |drained| == |chosen| && forall m :: 0 <= m < |chosen| ==> |chosen[m]| <= d
    ensures Total(FlightsOf(top, i, TickPushes(drained, chosen)), Flying(d)) + |drained| <= Total(drained, Sending(d))
    decreases |drained|
  {
    if drained != [] {
      var n := |drained| - 1;
      var before, row := TickPushes(drained[..n], chosen[..n]), PushesTo(drained[n], chosen[n]);
      TickSendsLess(d, top, i, drained[..n], chosen[..n]);
      FlightsOfConcat(top, i, before, row);
      TotalConcat(FlightsOf(top, i, before), FlightsOf(top, i, row), Flying(d));
      RowWeighs(d, top, i, drained[n], row);
      MulMonotone(|row|, d, FlightWeight(d, Rank(drained[n].ttl)));
    }
  }

  lemma MulMonotone(a: nat, b: nat, c: nat)
    requires a <= b
    ensures a * c <= b * c
  {
  }

  lemma {:induction false} RowWeighs(d: nat, top: Topology, i: nat, p: Push, row: seq<Out>)
    requires forall o :: o in row ==> o.ToPeer? && o.msg == MPush(p)
    ensures Total(FlightsOf(top, i, row), Flying(d)) <= |row| * FlightWeight(d, Rank(p.ttl))
  {
    if row != [] {
      hide FlightWeight, Rank, FlightsOf, Total, Flying;
      var init, out := row[..|row| - 1], row[|row| - 1];
      assert out in row;
      RowWeighs(d, top, i, p, init);
      OneMoreFlight(d, top, i, p, row);
      MoreTimes(|init|, FlightWeight(d, Rank(p.ttl)));
    }
  }

  lemma OneMoreFlight(d: nat, top: Topology, i: nat, p: Push, row: seq<Out>)
    requires row != [] && row[|row| - 1].ToPeer? && row[|row| - 1].msg == MPush(p)
    ensures Total(FlightsOf(top, i, row), Flying(d))
         <= Total(FlightsOf(top, i, row[..|row| - 1]), Flying(d)) + FlightWeight(d, Rank(p.ttl))
  {
    hide FlightWeight, Rank;
    var init, out := row[..|row| - 1], row[|row| - 1];
    if Endpoint(i, out.id) in top.link {
      var far := top.link[Endpoint(i, out.id)];
      var f := Flight(far.node, far.id, p);
      TotalConcat(FlightsOf(top, i, init), [f], Flying(d));
      TotalOne(f, Flying(d));
    }
  }

  lemma MoreTimes(n: nat, w: nat)
    ensures (n + 1) * w == n * w + w
  {
  }

  /** A local step changes the weight of its node and adds the copies it sends. */
  lemma LocalWeighsLess(d: nat, top: Topology, net: Net, a: Action)
    requires CanAct(top, net, a) && a.Local? && !Announces(a) && DegreeAtMost(top, d)
    ensures var (n', outs) := Step(top.envs[a.i], net.nodes[a.i], a.e, a.now);
            var after := NodeWeight(d)(n') + Total(FlightsOf(top, a.i, outs), Flying(d));
            && after <= NodeWeight(d)(net.nodes[a.i])
            && (Progresses(top, net, a) ==> after < NodeWeight(d)(net.nodes[a.i]))
  {
    var env, n := top.envs[a.i], net.nodes[a.i];
    var (n', outs) := Step(env, n, a.e, a.now);
    if a.e.Validation? {
      ValidatedWeighsLess(d, env, n, a.e, a.now);
    } else if a.e.GossipTick? {
      assert env.degree <= d;
      TickSendsLess(d, top, a.i, n.valid, a.e.chosen);
    } else {
      assert n'.invalid == n.invalid && n'.valid == n.valid;
      OthersSendNoPush(env, n, a.e, a.now);
      NoPushNoFlight(top, a.i, outs);
    }
  }

  lemma DeliverFalls(d: nat, top: Topology, net: Net, k: nat)
    requires CanAct(top, net, Deliver(k))
    ensures Weight(d, Act(top, net, Deliver(k))) < Weight(d, net)
  {
    var f := net.flights[k];
    var n' := Step(top.envs[f.to], net.nodes[f.to], PushMsg(f.id, f.push), 0).0;
    TotalWithout(net.flights, k, Flying(d));
    TotalUpdated(net.nodes, f.to, n', NodeWeight(d));
    DeliveredWeighsLess(d, top.envs[f.to], net.nodes[f.to], f.id, f.push);
  }

  lemma LocalFalls(d: nat, top: Topology, net: Net, a: Action)
    requires CanAct(top, net, a) && a.Local? && !Announces(a) && DegreeAtMost(top, d)
    ensures Weight(d, Act(top, net, a)) <= Weight(d, net)
    ensures Progresses(top, net, a) ==> Weight(d, Act(top, net, a)) < Weight(d, net)
  {
    var (n', outs) := Step(top.envs[a.i], net.nodes[a.i], a.e, a.now);
    LocalWeighsLess(d, top, net, a);
    TotalUpdated(net.nodes, a.i, n', NodeWeight(d));
    TotalConcat(net.flights, FlightsOf(top, a.i, outs), Flying(d));
  }

  /** Without new announcements the weight never grows, and falls on every step of progress. */
  lemma WeightFalls(d: nat, top: Topology, net: Net, a: Action)
    requires CanAct(top, net, a) && !Announces(a) && DegreeAtMost(top, d)
    ensures Weight(d, Act(top, net, a)) <= Weight(d, net)
    ensures Progresses(top, net, a) ==> Weight(d, Act(top, net, a)) < Weight(d, net)
  {
    match a {
      case Lose(k) => TotalWithout(net.flights, k, Flying(d));
      case Deliver(k) => DeliverFalls(d, top, net, k);
      case Local(_, _, _) => LocalFalls(d, top, net, a);
    }
  }

  /** How many of the first k steps make progress. */
  ghost function ProgressSteps(top: Topology, nets: seq<Net>, actions: seq<Action>, k: nat): nat
    requires IsRun(top, nets, actions) && k <= |actions|
  {
    if k == 0 then 0
    else ProgressSteps(top, nets, actions, k - 1) + if Progresses(top, nets[k - 1], actions[k - 1]) then 1 else 0
  }

  /** Dissemination ends: from any state, a run without new announcements has at most as many steps
      of progress as the weight of that state. */
  lemma {:induction false} DisseminationEnds(d: nat, top: Topology, nets: seq<Net>, actions: seq<Action>, k: nat)
    requires IsRun(top, nets, actions) && DegreeAtMost(top, d) && k <= |actions|
    requires forall a :: a in actions ==> !Announces(a)
    ensures ProgressSteps(top, nets, actions, k) + Weight(d, nets[k]) <= Weight(d, nets[0])
  {
    hide CanAct, Act, Weight, Progresses, Announces, DegreeAtMost;
    if k > 0 {
      DisseminationEnds(d, top, nets, actions, k - 1);
      assert actions[k - 1] in actions;
      WeightFalls(d, top, nets[k - 1], actions[k - 1]);
    }
  }

  /** A step that takes a copy out of the air, settles a message that waits, or sends messages on. */
  predicate Spends(net: Net, a: Action) {
    match a
    case Deliver(_) => true
    case Lose(_) => true
    case Local(i, Validation(messageId, _), _) =>
      i < |net.nodes| && exists p :: p in net.nodes[i].invalid && p.messageId == messageId
    case Local(i, GossipTick(_), _) => i < |net.nodes| && net.nodes[i].valid != []
    case _ => false
  }

  lemma RunStep(top: Topology, nets: seq<Net>, actions: seq<Action>, k: nat)
    requires IsRun(top, nets, actions) && k < |actions|
    ensures |nets| == |actions| + 1 && CanAct(top, nets[k], actions[k]) && nets[k + 1] == Act(top, nets[k], actions[k])
  {
  }

  lemma SpendsIsProgress(top: Topology, net: Net, a: Action)
    requires CanAct(top, net, a) && Spends(net, a)
    ensures Progresses(top, net, a)
  {
  }

  lemma OneLess(s: set<nat>, x: nat)
    ensures |s| == |s - {x}| + if x in s then 1 else 0
  {
    if x in s {
      assert s == (s - {x}) + {x};
    } else {
      assert s - {x} == s;
    }
  }

  lemma {:induction false} SpendingCounted(top: Topology, nets: seq<Net>, actions: seq<Action>, k: nat, steps: set<nat>)
    requires IsRun(top, nets, actions) && k <= |actions|
    requires forall j :: j in steps ==> j < k && Spends(nets[j], actions[j])
    ensures |steps| <= ProgressSteps(top, nets, actions, k)
  {
    hide CanAct, Act, Progresses, Spends, IsRun;
    if k == 0 {
      assert steps == {};
    } else {
      RunStep(top, nets, actions, k - 1);
      SpendingCounted(top, nets, actions, k - 1, steps - {k - 1});
      OneLess(steps, k - 1);
      if k - 1 in steps {
        SpendsIsProgress(top, nets[k - 1], actions[k - 1]);
      }
    }
  }

  function Power(d: nat, k: nat): nat {
    if k == 0 then 1 else d * Power(d, k - 1)
  }

  lemma {:induction false} FlightWeightIs(d: nat, r: nat)
    requires r >= 1
    ensures (d - 1) * FlightWeight(d, r) == (2 * d + 1) * Power(d, r - 1) - 3
  {
    var q := r - 1;
    if q > 0 {
      FlightWeightIs(d, q);
      var w, p := FlightWeight(d, q), Power(d, q - 1);
      assert FlightWeight(d, r) == d * w + 3 && Power(d, q) == d * p;
      OneHopMore(d, w, p);
    }
  }

  lemma OneHopMore(d: nat, w: nat, p: nat)
    requires (d - 1) * w == (2 * d + 1) * p - 3
    ensures (d - 1) * (d * w + 3) == (2 * d + 1) * (d * p) - 3
  {
    var x, y := (d - 1) * w, (2 * d + 1) * p;
    calc {
      (d - 1) * (d * w + 3);
      (d - 1) * (d * w) + (d - 1) * 3;
      { Swapped(d - 1, d, w); }
      d * x + (d - 1) * 3;
      { assert x == y - 3; Spread(d, y); }
      d * y - 3;
      { Swapped(2 * d + 1, d, p); }
      (2 * d + 1) * (d * p) - 3;
    }
  }

  lemma Spread(d: int, y: int)
    ensures d * (y - 3) + (d - 1) * 3 == d * y - 3
  {
  }

  lemma Swapped(a: int, b: int, c: int)
    ensures a * (b * c) == b * (a * c)
  {
  }

  /** One message, announced where nothing is stored, with no node sending to more than d peers: among all steps of a
      run of any length, those that deliver or lose a copy, settle a message or send messages on are at most
      d * w + 1, where (d - 1) * w is (2 * d + 1) times the power of d to one less than the hops announced, less 3. */
  lemma OneMessageEnds(d: nat, top: Topology, nets: seq<Net>, actions: seq<Action>, steps: set<nat>) returns (w: nat)
    requires IsRun(top, nets, actions) && DegreeAtMost(top, d) && Quiet(nets[0]) && |actions| > 0
    requires Announces(actions[0]) && forall k :: 0 < k < |actions| ==> !Announces(actions[k])
    requires forall k :: k in steps ==> k < |actions| && Spends(nets[k], actions[k])
    ensures |steps| <= d * w + 1
    ensures (d - 1) * w == (2 * d + 1) * Power(d, Rank(actions[0].e.ttl) - 1) - 3
  {
    hide IsRun, CanAct, Act, Weight, Power, Rank, FlightWeight, Spends, DegreeAtMost, ProgressSteps, Quiet;
    w := FlightWeight(d, Rank(actions[0].e.ttl));
    SpentAtMost(d, top, nets, actions, steps);
    FlightWeightIs(d, Rank(actions[0].e.ttl));
  }

  lemma SpentAtMost(d: nat, top: Topology, nets: seq<Net>, actions: seq<Action>, steps: set<nat>)
    requires IsRun(top, nets, actions) && DegreeAtMost(top, d) && Quiet(nets[0]) && |actions| > 0
    requires Announces(actions[0]) && forall k :: 0 < k < |actions| ==> !Announces(actions[k])
    requires forall k :: k in steps ==> k < |actions| && Spends(nets[k], actions[k])
    ensures |steps| <= d * FlightWeight(d, Rank(actions[0].e.ttl)) + 1
  {
    hide IsRun, CanAct, Act, Weight, Rank, FlightWeight, Spends, DegreeAtMost, ProgressSteps, Quiet;
    SpendingCounted(top, nets, actions, |actions|, steps);
    OneMessageFalls(d, top, nets, actions, |actions|);
    RunStep(top, nets, actions, 0);
    AnnouncedWeighs(d, top, nets[0], actions[0]);
  }

  lemma {:induction false} OneMessageFalls(d: nat, top: Topology, nets: seq<Net>, actions: seq<Action>, k: nat)
    requires IsRun(top, nets, actions) && DegreeAtMost(top, d) && 1 <= k <= |actions| && Announces(actions[0])
    requires forall j :: 0 < j < |actions| ==> !Announces(actions[j])
    ensures ProgressSteps(top, nets, actions, k) + Weight(d, nets[k]) <= Weight(d, nets[1])
  {
    hide CanAct, Act, Weight, DegreeAtMost;
    if k == 1 {
      assert ProgressSteps(top, nets, actions, 0) == 0;
    } else {
      OneMessageFalls(d, top, nets, actions, k - 1);
      WeightFalls(d, top, nets[k - 1], actions[k - 1]);
    }
  }

  lemma {:induction false} QuietWeighsNothing(d: nat, nodes: seq<Node>)
    requires forall n :: n in nodes ==> n.invalid == [] && n.valid == [] && n.sent == []
    ensures Total(nodes, NodeWeight(d)) == 0
  {
    if nodes != [] {
      var n := nodes[|nodes| - 1];
      assert n in nodes;
      QuietWeighsNothing(d, nodes[..|nodes| - 1]);
      assert NodeWeight(d)(n) == 0;
    }
  }

  lemma AnnouncedWeighs(d: nat, top: Topology, net: Net, a: Action)
    requires CanAct(top, net, a) && Quiet(net) && Announces(a)
    ensures Weight(d, Act(top, net, a)) == d * FlightWeight(d, Rank(a.e.ttl)) + 1
  {
    hide FlightWeight, Rank, StepConnection;
    var n := net.nodes[a.i];
    assert n in net.nodes;
    var p := AnnouncedPush(a.e);
    var n' := n.(valid := [p]);
    assert Step(top.envs[a.i], n, a.e, a.now) == (n', []);
    QuietWeighsNothing(d, net.nodes);
    TotalUpdated(net.nodes, a.i, n', NodeWeight(d));
    TotalOne(p, Sending(d));
    assert NodeWeight(d)(n) == 0 && NodeWeight(d)(n') == Sending(d)(p);
    assert Act(top, net, a).flights == [] + FlightsOf(top, a.i, []);
  }
}
