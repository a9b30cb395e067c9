/** What comes in from outside, and the runs of the state machine that a series of inputs leads to. */
module Inputs {
  import opened Basics
  import opened Bytes
  import opened RingView
  import opened Connections
  import opened Strategy
  import Handshake

  /** What the loop's select delivers. For the two ticks that visit the open connections the event depends on
      their order in the manager's slice; what comes in is a random permutation for each message, or nothing. */
  datatype Input = Occurs(e: Event) | GossipTimer(perms: seq<seq<nat>>) | RenewalTimer

  predicate CanHappen(env: Env, s: Node, x: Input) {
    match x
    case Occurs(e) => !e.GossipTick? && !e.RenewalTick? && Enabled(env, s, e)
    case GossipTimer(perms) => |perms| == |s.valid| && forall perm :: perm in perms ==>
      IsPermutation(perm, |s.conns.open|)
    case RenewalTimer => true
  }

  predicate Delivers(x: Input, e: Event) {
    match x
    case Occurs(e') => e == e'
    case GossipTimer(_) => e.GossipTick?
    case RenewalTimer => e.RenewalTick?
  }

  /** The state after an input: the order of the open connections has no influence on it. */
  function After(env: Env, s: Node, x: Input, now: int64): Node
    requires CanHappen(env, s, x)
  {
    match x
    case Occurs(e) => Step(env, s, e, now).0
    case GossipTimer(_) => s.(valid := [], sent := InsertedAll(s.sent, env.cap, s.valid))
    case RenewalTimer => s.(conns := s.conns.AllSentPowReq())
  }

  lemma AfterIsStep(env: Env, s: Node, x: Input, e: Event, now: int64)
    requires CanHappen(env, s, x) && Delivers(x, e) && Enabled(env, s, e)
    ensures Step(env, s, e, now).0 == After(env, s, x, now)
  {
  }

  function NewIds(x: Input): set<ConnectionId> {
    if x.Occurs? && x.e.NewConn? then {x.e.id} else {}
  }

  /** The inputs can come in one after the other from state s on, and bring only ids that were not used. */
  predicate AllCanHappen(env: Env, s: Node, xs: seq<Input>, nows: seq<int64>, used: set<ConnectionId>)
    requires |xs| == |nows|
    decreases |xs|
  {
    xs == [] ||
    (CanHappen(env, s, xs[0]) && NewIds(xs[0]) !! used
     && AllCanHappen(env, After(env, s, xs[0], nows[0]), xs[1..], nows[1..], used + NewIds(xs[0])))
  }

  lemma AllGoOn(env: Env, s: Node, xs: seq<Input>, nows: seq<int64>, i: nat, used: set<ConnectionId>, e: Event)
    requires i < |xs| == |nows| && AllCanHappen(env, s, xs[i..], nows[i..], used)
    ensures CanHappen(env, s, xs[i]) && NewIds(xs[i]) !! used
    ensures Delivers(xs[i], e) && Enabled(env, s, e) ==>
      AllCanHappen(env, Step(env, s, e, nows[i]).0, xs[i + 1..], nows[i + 1..], used + NewIds(xs[i]))
  {
    assert xs[i..][0] == xs[i] && xs[i..][1..] == xs[i + 1..];
    assert nows[i..][0] == nows[i] && nows[i..][1..] == nows[i + 1..];
    if Delivers(xs[i], e) && Enabled(env, s, e) {
      AfterIsStep(env, s, xs[i], e, nows[i]);
    }
  }

  /** Event i of the run sends this. */
  ghost predicate Sends(t: Trace, i: nat, outs: seq<Out>)
    requires i < |t.events|
  {
    |t.states| == |t.events| + 1 && |t.nows| == |t.events| && Enabled(t.env, t.states[i], t.events[i])
    && outs == Step(t.env, t.states[i], t.events[i], t.nows[i]).1
  }

  /** Every id that a state of the run has is in `used`. */
  ghost predicate KnownIn(t: Trace, used: set<ConnectionId>) {
    forall i, id :: 0 <= i < |t.states| && t.states[i].conns.Has(id) ==> id in used
  }

  ghost predicate Answers(t: Trace, xs: seq<Input>, outs: seq<seq<Out>>) {
    |outs| == |t.events| == |xs| && forall i :: 0 <= i < |xs| ==> Delivers(xs[i], t.events[i]) && Sends(t, i, outs[i])
  }

  lemma AnswersMore(t: Trace, xs: seq<Input>, outs: seq<seq<Out>>, x: Input, e: Event, now: int64, s: Node,
          out: seq<Out>)
    requires |t.states| == |t.events| + 1 && |t.nows| == |t.events| && Answers(t, xs, outs) && Delivers(x, e)
    requires Enabled(t.env, LastState(t), e) && out == Step(t.env, LastState(t), e, now).1
    ensures Answers(Continued(t, e, now, s), xs + [x], outs + [out])
  {
    var more := Continued(t, e, now, s);
    forall i | 0 <= i < |xs| + 1
      ensures Delivers((xs + [x])[i], more.events[i]) && Sends(more, i, (outs + [out])[i])
    {
      if i < |xs| {
        assert Sends(t, i, outs[i]);
      } else {
        assert more.events[i] == e && more.states[i] == LastState(t) && more.nows[i] == now;
      }
    }
  }

  lemma StillFresh(t: Trace, e: Event, now: int64, s: Node, used: set<ConnectionId>, x: Input)
    requires t.IsRun() && t.FreshIds() && KnownIn(t, used) && Continued(t, e, now, s).IsRun()
    requires StepsTo(t.env, LastState(t), e, now, s) && Delivers(x, e) && NewIds(x) !! used
    ensures Continued(t, e, now, s).FreshIds() && KnownIn(Continued(t, e, now, s), used + NewIds(x))
  {
    var more := Continued(t, e, now, s);
    forall i, id | 0 <= i < |more.states| && more.states[i].conns.Has(id) ensures id in used + NewIds(x) {
      if i == |t.states| {
        Handshake.NothingJoinsUnasked(t.env, LastState(t), e, now, s, id);
        assert LastState(t) == t.states[i - 1];
      }
    }
    forall i, j | 0 <= j <= i < |more.events| && more.events[i].NewConn?
      ensures !more.states[j].conns.Has(more.events[i].id)
    {
      if i < |t.events| {
        assert t.events[i] == more.events[i] && t.states[j] == more.states[j];
      } else {
        assert more.events[i].id in NewIds(x) && more.states[j] == t.states[j];
      }
    }
  }

  /** The run t is what the inputs lead to from the start, and sends these outputs. */
  ghost predicate Goes(t: Trace, env: Env, neighbours: set<ConnectionId>, xs: seq<Input>, nows: seq<int64>,
                       outs: seq<seq<Out>>, used: set<ConnectionId>)
  {
    && t.IsRun() && t.FreshIds() && t.env == env && t.neighbours == neighbours && t.nows == nows
    && Answers(t, xs, outs) && KnownIn(t, used)
  }

  lemma StartGoes(t: Trace, env: Env, neighbours: set<ConnectionId>)
    requires t == Trace(env, neighbours, [Started(neighbours)], [], [])
    ensures Goes(t, env, neighbours, [], [], [], neighbours) && LastState(t) == Started(neighbours)
  {
  }

  lemma NewIdsAreNew(t: Trace, env: Env, neighbours: set<ConnectionId>, xs: seq<Input>, nows: seq<int64>,
                     outs: seq<seq<Out>>, used: set<ConnectionId>, x: Input)
    requires Goes(t, env, neighbours, xs, nows, outs, used) && NewIds(x) !! used
    ensures forall id :: id in NewIds(x) ==> !LastState(t).conns.Has(id)
  {
  }

  lemma LastIdsUsed(t: Trace, env: Env, neighbours: set<ConnectionId>, xs: seq<Input>, nows: seq<int64>,
                    outs: seq<seq<Out>>, used: set<ConnectionId>)
    requires Goes(t, env, neighbours, xs, nows, outs, used)
    ensures forall id :: LastState(t).conns.Has(id) ==> id in used
  {
  }

  lemma GoesOn(t: Trace, env: Env, neighbours: set<ConnectionId>, xs: seq<Input>, nows: seq<int64>, i: nat,
               outs: seq<seq<Out>>, used: set<ConnectionId>, e: Event, out: seq<Out>, s: Node)
    requires i < |xs| == |nows| && forall j, k :: 0 <= j <= k < |nows| ==> nows[j] <= nows[k]
    requires Goes(t, env, neighbours, xs[..i], nows[..i], outs, used) && NewIds(xs[i]) !! used
    requires Delivers(xs[i], e) && Enabled(env, LastState(t), e) && Step(env, LastState(t), e, nows[i]) == (s, out)
    ensures var more := Continued(t, e, nows[i], s);
      && Goes(more, env, neighbours, xs[..i + 1], nows[..i + 1], outs + [out], used + NewIds(xs[i])) &&
        LastState(more) == s
  {
    assert xs[..i + 1] == xs[..i] + [xs[i]] && nows[..i + 1] == nows[..i] + [nows[i]];
    ContinuedIsRun(t, e, nows[i], s);
    AnswersMore(t, xs[..i], outs, xs[i], e, nows[i], s, out);
    StillFresh(t, e, nows[i], s, used, xs[i]);
  }

  lemma GoesMeans(t: Trace, env: Env, neighbours: set<ConnectionId>, xs: seq<Input>, nows: seq<int64>,
          outs: seq<seq<Out>>, used: set<ConnectionId>)
    requires Goes(t, env, neighbours, xs, nows, outs, used)
    ensures t.IsRun() && t.FreshIds() && t.env == env && t.neighbours == neighbours && t.nows == nows
    ensures |outs| == |t.events| == |xs|
    ensures forall i :: 0 <= i < |xs| ==> Delivers(xs[i], t.events[i]) && Sends(t, i, outs[i])
  {
  }

  // ---- every run comes from inputs ----

  /** An event that can happen is delivered by an input that can come. */
  lemma EventHasInput(env: Env, s: Node, e: Event) returns (x: Input)
    requires Enabled(env, s, e)
    ensures CanHappen(env, s, x) && Delivers(x, e) && NewIds(x) == if e.NewConn? then {e.id} else {}
  {
    if e.GossipTick? {
      var n := |s.conns.open|;
      var perm := seq(n, i requires 0 <= i < n => i);
      x := GossipTimer(seq(|s.valid|, _ => perm));
    } else if e.RenewalTick? {
      x := RenewalTimer;
    } else {
      x := Occurs(e);
    }
  }

  /** The rest of a run from state i on comes from inputs; `used` are ids known so far. */
  lemma {:induction false} RestHasInputs(t: Trace, i: nat, used: set<ConnectionId>) returns (xs: seq<Input>)
    requires t.IsRun() && t.FreshIds() && i <= |t.events|
    requires forall id :: id in used ==> exists j :: 0 <= j <= i && t.states[j].conns.Has(id)
    ensures |xs| == |t.events| - i && AllCanHappen(t.env, t.states[i], xs, t.nows[i..], used)
    ensures forall j :: 0 <= j < |xs| ==> Delivers(xs[j], t.events[i + j])
    decreases |t.events| - i
  {
    hide Step, StepMessage, StepConnection, Enabled, CanHappen, After;
    if i == |t.events| {
      xs := [];
    } else {
      var e := t.events[i];
      assert StepsTo(t.env, t.states[i], e, t.nows[i], t.states[i + 1]);
      var x := EventHasInput(t.env, t.states[i], e);
      AfterIsStep(t.env, t.states[i], x, e, t.nows[i]);
      NewIsKnown(t, i);
      var rest := RestHasInputs(t, i + 1, used + NewIds(x));
      xs := [x] + rest;
      assert t.nows[i..][1..] == t.nows[i + 1..] && xs[1..] == rest;
    }
  }

  lemma NewIsKnown(t: Trace, i: nat)
    requires t.IsRun() && i < |t.events|
    ensures t.events[i].NewConn? ==> t.states[i + 1].conns.Has(t.events[i].id)
  {
    assert StepsTo(t.env, t.states[i], t.events[i], t.nows[i], t.states[i + 1]);
  }

  /** Every run with fresh ids comes from some series of inputs that can come in. */
  lemma RunHasInputs(t: Trace) returns (xs: seq<Input>)
    requires t.IsRun() && t.FreshIds()
    ensures |xs| == |t.events| && AllCanHappen(t.env, Started(t.neighbours), xs, t.nows, t.neighbours)
    ensures forall j :: 0 <= j < |xs| ==> Delivers(xs[j], t.events[j])
  {
    hide AllCanHappen, Delivers;
    forall id | id in t.neighbours ensures exists j :: 0 <= j <= 0 && t.states[j].conns.Has(id) {
      assert t.states[0].conns.Has(id);
    }
    xs := RestHasInputs(t, 0, t.neighbours);
    assert t.nows[0..] == t.nows;
  }
}
