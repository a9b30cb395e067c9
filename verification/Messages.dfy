/** What happens to messages over whole runs of a node: nothing is lost silently, a remembered
    message is not notified again, and how long a node remembers. */
module Messages {
  import opened Basics
  import opened Bytes
  import opened RingView
  import opened Connections
  import opened Strategy

  /** How many messages of s have this id. */
  function Count(s: seq<Push>, id: uint16): nat {
    if s == [] then 0 else Count(s[..|s| - 1], id) + if s[|s| - 1].messageId == id then 1 else 0
  }

  /** How many slots of the three buffers this id takes. */
  function Slots(s: Node, id: uint16): nat {
    Count(s.invalid, id) + Count(s.valid, id) + Count(s.sent, id)
  }

  predicate Bounded(env: Env, s: Node) {
    |s.invalid| <= EffectiveCap(env.cap) && |s.valid| <= EffectiveCap(env.cap) && |s.sent| <= EffectiveCap(env.cap)
  }

  /** What a series of insertions overwrites. */
  function EvictedAll(s: seq<Push>, cap: nat, vs: seq<Push>): seq<Push>
    decreases |vs|
  {
    if vs == [] then []
    else
      var init := vs[..|vs| - 1];
      EvictedAll(s, cap, init) + Evicted(InsertedAll(s, cap, init), cap)
  }

  /** The push of a known sender's message whose id is in no buffer. */
  predicate Accepts(s: Node, e: Event) {
    e.PushMsg? && e.id in s.conns.open && !Known(s, e.push.messageId)
  }

  /** The messages overwritten in full buffers. */
  function EvictedBy(env: Env, s: Node, e: Event): seq<Push> {
    match e
    case PushMsg(_, _) => if Accepts(s, e) then Evicted(s.invalid, env.cap) else []
    case Announce(_, _, _, _) => Evicted(s.valid, env.cap)
    case Validation(messageId, isValid) =>
      var found := FirstWithId(s.invalid, messageId);
      if found.None? || !isValid then []
      else if found.value.ttl == 1 then Evicted(s.sent, env.cap)
      else Evicted(s.valid, env.cap)
    case GossipTick(_) => EvictedAll(s.sent, env.cap, s.valid)
    case _ => []
  }

  /** The message that a negative validation drops. */
  function RejectedBy(s: Node, e: Event): seq<Push> {
    if e.Validation? && !e.isValid && Holds(s.invalid, e.messageId)
      then [FirstWithId(s.invalid, e.messageId).value] else []
  }

  /** What a ring of capacity 0 or 1 loses beside the message that a validation removes. */
  function LostBy(env: Env, s: Node, e: Event): seq<Push> {
    if env.cap < 2 && e.Validation? && Holds(s.invalid, e.messageId)
    then RingView.Without(s.invalid, FirstWithId(s.invalid, e.messageId).value) else []
  }

  function AddedBy(s: Node, e: Event): seq<Push> {
    if Accepts(s, e) then [e.push] else if e.Announce? then [AnnouncedPush(e)] else []
  }

  lemma {:induction false} CountConcat(a: seq<Push>, b: seq<Push>, id: uint16)
    ensures Count(a + b, id) == Count(a, id) + Count(b, id)
  {
    if b == [] {
      assert a + b == a;
    } else {
      CountConcat(a, b[..|b| - 1], id);
      assert (a + b)[..|a + b| - 1] == a + b[..|b| - 1];
    }
  }

  lemma CountOne(p: Push, id: uint16)
    ensures Count([p], id) == if p.messageId == id then 1 else 0
  {
  }

  lemma CountSplit(p: Push, rest: seq<Push>, id: uint16)
    ensures Count([p] + rest, id) == Count([p], id) + Count(rest, id)
    ensures Count(rest + [p], id) == Count([p], id) + Count(rest, id)
  {
    CountConcat([p], rest, id);
    CountConcat(rest, [p], id);
  }

  lemma CountHead(s: seq<Push>, id: uint16)
    requires s != []
    ensures Count(s, id) == Count([s[0]], id) + Count(s[1..], id)
  {
    CountSplit(s[0], s[1..], id);
    assert s == [s[0]] + s[1..];
  }

  lemma CountEnds(first: Push, middle: seq<Push>, last: Push, id: uint16)
    ensures Count([first] + middle + [last], id) == Count([first], id) + Count(middle, id) + Count([last], id)
  {
    CountSplit(first, middle, id);
    CountSplit(last, [first] + middle, id);
  }

  lemma InsertedCount(s: seq<Push>, cap: nat, p: Push, id: uint16)
    requires |s| <= EffectiveCap(cap)
    ensures Count(Inserted(s, cap, p), id) + Count(Evicted(s, cap), id) == Count(s, id) + Count([p], id)
    ensures |Inserted(s, cap, p)| <= EffectiveCap(cap)
  {
    if s != [] {
      CountHead(s, id);
      if |s| < EffectiveCap(cap) {
        CountEnds(p, s[1..], s[0], id);
      } else {
        CountHead(s[1..], id);
        assert s[1..][1..] == s[2..];
        CountEnds(p, s[2..], s[0], id);
      }
    }
  }

  lemma {:induction false} InsertedAllCount(s: seq<Push>, cap: nat, vs: seq<Push>, id: uint16)
    requires |s| <= EffectiveCap(cap)
    ensures Count(InsertedAll(s, cap, vs), id) + Count(EvictedAll(s, cap, vs), id) == Count(s, id) + Count(vs, id)
    ensures |InsertedAll(s, cap, vs)| <= EffectiveCap(cap)
    decreases |vs|
  {
    if vs != [] {
      var init, v := vs[..|vs| - 1], vs[|vs| - 1];
      InsertedAllCount(s, cap, init, id);
      InsertedCount(InsertedAll(s, cap, init), cap, v, id);
      CountConcat(EvictedAll(s, cap, init), Evicted(InsertedAll(s, cap, init), cap), id);
      CountOne(v, id);
    }
  }

  lemma RemovedCount(s: seq<Push>, p: Push, id: uint16)
    requires p in s
    ensures Count(Without(s, p), id) + Count([p], id) == Count(s, id)
  {
    var i := IndexOf(s, p);
    CountAround(s[..i], p, s[i + 1..], id);
    assert s == s[..i] + [p] + s[i + 1..];
  }

  lemma CountAround(x: seq<Push>, p: Push, y: seq<Push>, id: uint16)
    ensures Count(x + [p] + y, id) == Count(x + y, id) + Count([p], id)
  {
    CountConcat(x + [p], y, id);
    CountConcat(x, [p], id);
    CountConcat(x, y, id);
  }

  /** Conservation: for every id, the slots it takes after a step, with its evicted, rejected and lost
      messages, are the slots it took before and its added messages. Messages move between the
      buffers and vanish in no other way; with a cache size of at least two, none is lost. */
  lemma StepConserves(env: Env, s: Node, e: Event, now: int64, s': Node, id: uint16)
    requires Bounded(env, s) && StepsTo(env, s, e, now, s')
    ensures Slots(s', id) + Count(EvictedBy(env, s, e), id) + Count(RejectedBy(s, e), id) + Count(LostBy(env, s, e), id)
         == Slots(s, id) + Count(AddedBy(s, e), id)
    ensures Bounded(env, s')
  {
    if e.PushMsg? {
      PushConserves(env, s, e, now, s', id);
    } else if e.Announce? {
      AnnounceConserves(env, s, e, now, s', id);
    } else if e.Validation? {
      hide StepMessage, StepConnection, EvictedBy, RejectedBy, LostBy, Slots, FirstWithId;
      ValidationConserves(env, s, e, now, s', id);
    } else if e.GossipTick? {
      TickConserves(env, s, e, now, s', id);
    } else {
      hide StepMessage, StepConnection;
      OthersKeepMessages(env, s, e, now, s');
    }
  }

  lemma PushConserves(env: Env, s: Node, e: Event, now: int64, s': Node, id: uint16)
    requires Bounded(env, s) && e.PushMsg? && StepsTo(env, s, e, now, s')
    ensures Slots(s', id) + Count(EvictedBy(env, s, e), id) + Count(RejectedBy(s, e), id) + Count(LostBy(env, s, e), id)
         == Slots(s, id) + Count(AddedBy(s, e), id)
    ensures Bounded(env, s')
  {
    hide StepConnection, FirstWithId, Holds;
    InsertedCount(s.invalid, env.cap, e.push, id);
  }

  lemma AnnounceConserves(env: Env, s: Node, e: Event, now: int64, s': Node, id: uint16)
    requires Bounded(env, s) && e.Announce? && StepsTo(env, s, e, now, s')
    ensures Slots(s', id) + Count(EvictedBy(env, s, e), id) + Count(RejectedBy(s, e), id) + Count(LostBy(env, s, e), id)
         == Slots(s, id) + Count(AddedBy(s, e), id)
    ensures Bounded(env, s')
  {
    hide StepConnection, FirstWithId, Holds;
    InsertedCount(s.valid, env.cap, AnnouncedPush(e), id);
  }

  lemma TickConserves(env: Env, s: Node, e: Event, now: int64, s': Node, id: uint16)
    requires Bounded(env, s) && e.GossipTick? && StepsTo(env, s, e, now, s')
    ensures Slots(s', id) + Count(EvictedBy(env, s, e), id) + Count(RejectedBy(s, e), id) + Count(LostBy(env, s, e), id)
         == Slots(s, id) + Count(AddedBy(s, e), id)
    ensures Bounded(env, s')
  {
    hide StepConnection, FirstWithId, Holds, InsertedAll, EvictedAll;
    InsertedAllCount(s.sent, env.cap, s.valid, id);
  }

  lemma OthersKeepMessages(env: Env, s: Node, e: Event, now: int64, s': Node)
    requires StepsTo(env, s, e, now, s') && !AboutMessages(e)
    ensures s'.invalid == s.invalid && s'.valid == s.valid && s'.sent == s.sent
  {
  }

  lemma ValidationConserves(env: Env, s: Node, e: Event, now: int64, s': Node, id: uint16)
    requires Bounded(env, s) && e.Validation? && StepsTo(env, s, e, now, s')
    ensures Slots(s', id) + Count(EvictedBy(env, s, e), id) + Count(RejectedBy(s, e), id) +
      Count(LostBy(env, s, e), id) == Slots(s, id)
    ensures Bounded(env, s')
  {
    var found := FirstWithId(s.invalid, e.messageId);
    if found.Some? {
      hide StepConnection, StepMessage, FirstWithId, Count, Inserted, RingView.Removed, RingView.Without;
      TakenConserves(env, s, e, now, s', found.value, id);
      if e.isValid {
        ForwardedConserves(env, s, e, now, s', found.value, id);
      } else {
        RejectedConserves(env, s, e, now, s', found.value, id);
      }
    }
  }

  /** The waiting messages lose the one that is settled, and what a small ring loses beside it. */
  lemma TakenConserves(env: Env, s: Node, e: Event, now: int64, s': Node, p: Push, id: uint16)
    requires Bounded(env, s) && e.Validation? && StepsTo(env, s, e, now, s')
    requires FirstWithId(s.invalid, e.messageId) == Some(p)
    ensures Count(s'.invalid, id) + Count(LostBy(env, s, e), id) + Count([p], id) == Count(s.invalid, id)
    ensures |s'.invalid| <= EffectiveCap(env.cap)
  {
    hide StepConnection, FirstWithId, Inserted;
    assert s'.invalid == RingView.Removed(s.invalid, env.cap, p);
    RemovedCount(s.invalid, p, id);
  }

  lemma RejectedConserves(env: Env, s: Node, e: Event, now: int64, s': Node, p: Push, id: uint16)
    requires Bounded(env, s) && e.Validation? && !e.isValid && StepsTo(env, s, e, now, s')
    requires FirstWithId(s.invalid, e.messageId) == Some(p)
    ensures s'.valid == s.valid && s'.sent == s.sent
    ensures RejectedBy(s, e) == [p] && EvictedBy(env, s, e) == []
  {
    hide StepConnection, FirstWithId, Count, Inserted, RingView.Removed;
  }

  lemma ForwardedConserves(env: Env, s: Node, e: Event, now: int64, s': Node, p: Push, id: uint16)
    requires Bounded(env, s) && e.Validation? && e.isValid && StepsTo(env, s, e, now, s')
    requires FirstWithId(s.invalid, e.messageId) == Some(p)
    ensures Count(s'.valid, id) + Count(s'.sent, id) + Count(EvictedBy(env, s, e), id)
         == Count(s.valid, id) + Count(s.sent, id) + Count([p], id)
    ensures |s'.valid| <= EffectiveCap(env.cap) && |s'.sent| <= EffectiveCap(env.cap)
  {
    var q := p.(ttl := DecrementedTtl(p.ttl));
    CountOne(p, id);
    CountOne(q, id);
    if p.ttl == 1 {
      InsertedCount(s.sent, env.cap, p, id);
    } else {
      InsertedCount(s.valid, env.cap, q, id);
    }
  }

  lemma {:induction false} HoldsIffCounted(s: seq<Push>, id: uint16)
    ensures Holds(s, id) <==> Count(s, id) > 0
  {
    if s != [] {
      var init, last := s[..|s| - 1], s[|s| - 1];
      HoldsIffCounted(init, id);
      assert s == init + [last];
    }
  }

  lemma KnownIffSlots(s: Node, id: uint16)
    ensures Known(s, id) <==> Slots(s, id) > 0
  {
    HoldsIffCounted(s.invalid, id);
    HoldsIffCounted(s.valid, id);
    HoldsIffCounted(s.sent, id);
  }

  lemma {:induction false} AlwaysBounded(t: Trace, i: nat)
    requires t.IsRun() && i < |t.states|
    ensures Bounded(t.env, t.states[i])
  {
    hide Step, StepMessage, StepConnection, Enabled;
    if i > 0 {
      AlwaysBounded(t, i - 1);
      assert StepsTo(t.env, t.states[i - 1], t.events[i - 1], t.nows[i - 1], t.states[i]);
      StepConserves(t.env, t.states[i - 1], t.events[i - 1], t.nows[i - 1], t.states[i], 0);
    }
  }

  /** Event i makes the node notify its module of message `id`. */
  predicate Notifies(t: Trace, i: nat, id: uint16)
    requires i < |t.events| == |t.states| - 1 == |t.nows| && Enabled(t.env, t.states[i], t.events[i])
  {
    var e := t.events[i];
    e.PushMsg? && Step(t.env, t.states[i], e, t.nows[i]).1 == [Notify(id, e.push.gossipType, e.push.payload)]
  }

  /** Event i overwrites or rejects a message with this id. */
  predicate Forgets(t: Trace, i: nat, id: uint16)
    requires i < |t.events| == |t.states| - 1
  {
    Count(EvictedBy(t.env, t.states[i], t.events[i]), id) + Count(RejectedBy(t.states[i], t.events[i]), id) > 0
  }

  /** Event i makes a ring of capacity 0 or 1 lose a message with this id. */
  predicate Loses(t: Trace, i: nat, id: uint16)
    requires i < |t.events| == |t.states| - 1
    ensures Loses(t, i, id) ==> t.env.cap < 2
  {
    Count(LostBy(t.env, t.states[i], t.events[i]), id) > 0
  }

  lemma NotificationIsNews(t: Trace, i: nat, id: uint16)
    requires t.IsRun() && i < |t.events|
    requires StepsTo(t.env, t.states[i], t.events[i], t.nows[i], t.states[i + 1])
    requires Notifies(t, i, id)
    ensures !Known(t.states[i], id) && Known(t.states[i + 1], id)
  {
    var s, e := t.states[i], t.events[i];
    assert Accepts(s, e) && e.push.messageId == id;
    assert t.states[i + 1].invalid[0] == e.push;
  }

  /** A known id stays known until a step forgets or loses it. */
  lemma {:induction false} KnownUntilForgotten(t: Trace, i: nat, j: nat, id: uint16) returns (k: nat)
    requires t.IsRun() && i <= j < |t.states|
    requires Known(t.states[i], id) && !Known(t.states[j], id)
    ensures i <= k < j && (Forgets(t, k, id) || Loses(t, k, id))
  {
    hide Step, StepMessage, StepConnection, Enabled;
    k := j - 1;
    assert StepsTo(t.env, t.states[k], t.events[k], t.nows[k], t.states[j]);
    if Known(t.states[k], id) {
      AlwaysBounded(t, k);
      UnknownAgain(t.env, t.states[k], t.events[k], t.nows[k], t.states[j], id);
    } else {
      k := KnownUntilForgotten(t, i, k, id);
    }
  }

  lemma UnknownAgain(env: Env, s: Node, e: Event, now: int64, s': Node, id: uint16)
    requires Bounded(env, s) && StepsTo(env, s, e, now, s')
    requires Known(s, id) && !Known(s', id)
    ensures Count(EvictedBy(env, s, e), id) + Count(RejectedBy(s, e), id) + Count(LostBy(env, s, e), id) > 0
  {
    hide Step, StepMessage, StepConnection, Enabled;
    StepConserves(env, s, e, now, s', id);
    KnownIffSlots(s, id);
    KnownIffSlots(s', id);
  }

  /** Between two notifications of the same message id, an entry with that id was overwritten in a
      full buffer, rejected by a validation or, with a cache size below two, lost. */
  lemma AtMostOneNotificationWhileRemembered(t: Trace, i: nat, j: nat, id: uint16) returns (k: nat)
    requires t.IsRun() && i < j < |t.events|
    requires StepsTo(t.env, t.states[i], t.events[i], t.nows[i], t.states[i + 1])
    requires StepsTo(t.env, t.states[j], t.events[j], t.nows[j], t.states[j + 1])
    requires Notifies(t, i, id) && Notifies(t, j, id)
    ensures i < k < j && (Forgets(t, k, id) || Loses(t, k, id))
  {
    NotificationIsNews(t, i, id);
    NotificationIsNews(t, j, id);
    k := KnownUntilForgotten(t, i + 1, j, id);
  }

  /** Events i and j of a run notify the module of the same message id. */
  ghost predicate NotifiedAgain(t: Trace, i: nat, j: nat, id: uint16) {
    && t.IsRun() && i < j < |t.events|
    && StepsTo(t.env, t.states[i], t.events[i], t.nows[i], t.states[i + 1]) && Notifies(t, i, id)
    && StepsTo(t.env, t.states[j], t.events[j], t.nows[j], t.states[j + 1]) && Notifies(t, j, id)
  }

  ghost predicate ForgottenBetween(t: Trace, i: nat, j: nat, id: uint16)
    requires NotifiedAgain(t, i, j, id)
  {
    exists k :: i < k < j && Forgets(t, k, id)
  }

  /** An id is notified again only after it was forgotten, in all runs with a cache size, exactly if that size is
      at least two: a smaller ring loses its other value when one is removed. */
  lemma NotifiedAgainOnlyIfForgotten(env: Env)
    ensures (forall t: Trace, i: nat, j: nat, id: uint16 ::
              t.env == env && NotifiedAgain(t, i, j, id) ==> ForgottenBetween(t, i, j, id)) <==> env.cap >= 2
  {
    if env.cap >= 2 {
      forall t: Trace, i: nat, j: nat, id: uint16 | t.env == env && NotifiedAgain(t, i, j, id)
        ensures ForgottenBetween(t, i, j, id)
      {
        var k := AtMostOneNotificationWhileRemembered(t, i, j, id);
      }
    } else {
      var t := SmallCacheRun(env);
      assert NotifiedAgain(t, 3, 5, 2);
      assert !ForgottenBetween(t, 3, 5, 2);
    }
  }

  /** A neighbour is opened and pushes two messages; when the first one is validated, the second is lost, and
      notified when it is pushed again. */
  lemma SmallCacheRun(env: Env) returns (t: Trace)
    requires env.cap < 2
    ensures t.env == env && NotifiedAgain(t, 3, 5, 2) && !Forgets(t, 4, 2)
  {
    t := OpenedRun(env, []);
    t := PushedTwice(t, [], Push(2, 0, 1, []), Push(2, 0, 2, []));
  }

  lemma OpenedRun(env: Env, id: ConnectionId) returns (t: Trace)
    ensures t.IsRun() && t.env == env && AtZero(t) && |t.events| == 2
    ensures var s := LastState(t); id in s.conns.open && s.invalid == s.valid == s.sent == []
  {
    t := Trace(env, {id}, [Started({id})], [], []);
    var s1 := Started({id}).(jobs := multiset{ConnJob(id, [])});
    t := Extended(t, ConnChall(id, []), s1);
    var s2 := Step(env, s1, JobDone(ConnJob(id, []), 0, false), 0).0;
    t := Extended(t, JobDone(ConnJob(id, []), 0, false), s2);
  }

  predicate AtZero(t: Trace) {
    forall i :: 0 <= i < |t.nows| ==> t.nows[i] == 0
  }

  lemma Extended(t: Trace, e: Event, s: Node) returns (more: Trace)
    requires t.IsRun() && AtZero(t) && StepsTo(t.env, LastState(t), e, 0, s)
    ensures more.IsRun() && AtZero(more) && LastState(more) == s && more.env == t.env
    ensures more.states == t.states + [s] && more.events == t.events + [e]
  {
    hide Step, StepMessage, StepConnection, Enabled;
    more := Continued(t, e, 0, s);
    ContinuedIsRun(t, e, 0, s);
  }

  lemma PushedTwice(t: Trace, id: ConnectionId, a: Push, b: Push) returns (more: Trace)
    requires t.env.cap < 2 && t.IsRun() && AtZero(t) && |t.events| == 2
    requires var s := LastState(t); id in s.conns.open && s.invalid == s.valid == s.sent == []
    requires a.ttl == 2 && a.messageId != b.messageId
    ensures more.env == t.env && NotifiedAgain(more, 3, 5, b.messageId) && !Forgets(more, 4, b.messageId)
  {
    hide Step, StepMessage, StepConnection, Enabled;
    var s3, s4, s5, s6 := TwoPushesOneLost(t.env, LastState(t), id, a, b);
    var e := PushMsg(id, b);
    more := PushedFour(t, PushMsg(id, a), e, Validation(a.messageId, true), s3, s4, s5, s6);
    NotifyAt(more, 3, s3, s4, e);
    NotifyAt(more, 5, s5, s6, e);
    NothingForgotten(more, a, b);
  }

  lemma PushedFour(t: Trace, e2: Event, e: Event, e4: Event, s3: Node, s4: Node, s5: Node, s6: Node)
    returns (more: Trace)
    requires t.IsRun() && AtZero(t) && |t.events| == 2
    requires StepsTo(t.env, LastState(t), e2, 0, s3) && StepsTo(t.env, s3, e, 0, s4)
    requires StepsTo(t.env, s4, e4, 0, s5) && StepsTo(t.env, s5, e, 0, s6)
    ensures more.IsRun() && AtZero(more) && more.env == t.env && |more.events| == 6
    ensures more.states == t.states + [s3, s4] + [s5, s6] && more.events == t.events + [e2, e] + [e4, e]
  {
    hide Step, StepMessage, StepConnection, Enabled;
    var half := ExtendedTwice(t, e2, s3, e, s4);
    more := ExtendedTwice(half, e4, s5, e, s6);
  }

  lemma ExtendedTwice(t: Trace, e: Event, s: Node, e': Event, s': Node) returns (more: Trace)
    requires t.IsRun() && AtZero(t) && StepsTo(t.env, LastState(t), e, 0, s) && StepsTo(t.env, s, e', 0, s')
    ensures more.IsRun() && AtZero(more) && LastState(more) == s' && more.env == t.env
    ensures more.states == t.states + [s, s'] && more.events == t.events + [e, e']
  {
    hide Step, StepMessage, StepConnection, Enabled;
    var half := Extended(t, e, s);
    more := Extended(half, e', s');
  }

  lemma NotifyAt(t: Trace, i: nat, s: Node, s': Node, e: Event)
    requires t.IsRun() && i < |t.events| && t.states[i] == s && t.states[i + 1] == s' && t.events[i] == e &&
      t.nows[i] == 0
    requires e.PushMsg? && StepsTo(t.env, s, e, 0, s')
    requires Step(t.env, s, e, 0).1 == [Notify(e.push.messageId, e.push.gossipType, e.push.payload)]
    ensures StepsTo(t.env, t.states[i], t.events[i], t.nows[i], t.states[i + 1]) && Notifies(t, i, e.push.messageId)
  {
  }

  lemma NothingForgotten(t: Trace, a: Push, b: Push)
    requires t.env.cap < 2 && |t.events| == 6 && |t.states| == 7 && t.events[4] == Validation(a.messageId, true)
    requires t.states[4].invalid == [b, a] && t.states[4].valid == [] && a.ttl == 2 && a.messageId != b.messageId
    ensures !Forgets(t, 4, b.messageId)
  {
    assert [b, a][1..] == [a];
  }

  lemma TwoPushesOneLost(env: Env, s: Node, id: ConnectionId, a: Push, b: Push)
    returns (s1: Node, s2: Node, s3: Node, s4: Node)
    requires env.cap < 2 && id in s.conns.open && s.invalid == s.valid == s.sent == []
    requires a.ttl == 2 && a.messageId != b.messageId
    ensures StepsTo(env, s, PushMsg(id, a), 0, s1)
    ensures StepsTo(env, s1, PushMsg(id, b), 0, s2)
    ensures Step(env, s1, PushMsg(id, b), 0).1 == [Notify(b.messageId, b.gossipType, b.payload)]
    ensures StepsTo(env, s2, Validation(a.messageId, true), 0, s3) && s2.invalid == [b, a] && s2.valid == []
    ensures StepsTo(env, s3, PushMsg(id, b), 0, s4)
    ensures Step(env, s3, PushMsg(id, b), 0).1 == [Notify(b.messageId, b.gossipType, b.payload)]
  {
    s1, s2, s3 := s.(invalid := [a]), s.(invalid := [b, a]), s.(valid := [a.(ttl := 1)]);
    s4 := s3.(invalid := [b]);
    assert [b, a][1..] == [a] && [a][1..] == [];
  }

  /** If announced messages draw fresh ids, no id ever takes two slots of the three buffers. */
  lemma {:induction false} OneSlotPerId(t: Trace, i: nat, id: uint16)
    requires t.IsRun() && i < |t.states|
    requires forall k :: 0 <= k < |t.events| && t.events[k].Announce? ==> !Known(t.states[k], t.events[k].messageId)
    ensures Slots(t.states[i], id) <= 1
  {
    hide Step, StepMessage, StepConnection, Enabled;
    if i > 0 {
      var s, e, s' := t.states[i - 1], t.events[i - 1], t.states[i];
      OneSlotPerId(t, i - 1, id);
      AlwaysBounded(t, i - 1);
      assert StepsTo(t.env, s, e, t.nows[i - 1], s');
      StepConserves(t.env, s, e, t.nows[i - 1], s', id);
      AddsOnlyUnknown(s, e, id);
      KnownIffSlots(s, id);
    }
  }

  lemma AddsOnlyUnknown(s: Node, e: Event, id: uint16)
    requires e.Announce? ==> !Known(s, e.messageId)
    ensures Count(AddedBy(s, e), id) <= if Known(s, id) then 0 else 1
  {
    var added := AddedBy(s, e);
    if added != [] {
      CountOne(added[0], id);
    }
  }

  // ---- how long sentMessages remembers ----

  /** What a step inserts into sentMessages, in order. */
  function SentBy(s: Node, e: Event): seq<Push> {
    match e
    case Validation(messageId, isValid) =>
      var found := FirstWithId(s.invalid, messageId);
      if found.Some? && isValid && found.value.ttl == 1 then [found.value] else []
    case GossipTick(_) => s.valid
    case _ => []
  }

  /** All that was inserted into sentMessages before event i. */
  function SentLog(t: Trace, i: nat): seq<Push>
    requires i <= |t.events| == |t.states| - 1
  {
    if i == 0 then [] else SentLog(t, i - 1) + SentBy(t.states[i - 1], t.events[i - 1])
  }

  lemma {:induction false} InsertedAllConcat(s: seq<Push>, cap: nat, a: seq<Push>, b: seq<Push>)
    ensures InsertedAll(InsertedAll(s, cap, a), cap, b) == InsertedAll(s, cap, a + b)
    decreases |b|
  {
    if b == [] {
      assert a + b == a;
    } else {
      InsertedAllConcat(s, cap, a, b[..|b| - 1]);
      assert (a + b)[..|a + b| - 1] == a + b[..|b| - 1];
    }
  }

  lemma StepSends(env: Env, s: Node, e: Event, now: int64, s': Node)
    requires StepsTo(env, s, e, now, s')
    ensures s'.sent == InsertedAll(s.sent, env.cap, SentBy(s, e))
  {
    if e.Validation? && SentBy(s, e) != [] {
      assert SentBy(s, e)[..0] == [];
      assert InsertedAll(s.sent, env.cap, SentBy(s, e)[..0]) == s.sent;
    }
  }

  lemma {:induction false} SentIsInsertedLog(t: Trace, i: nat)
    requires t.IsRun() && i < |t.states|
    ensures t.states[i].sent == InsertedAll([], t.env.cap, SentLog(t, i))
  {
    hide Step, StepMessage, StepConnection, Enabled;
    if i > 0 {
      SentIsInsertedLog(t, i - 1);
      var s, e := t.states[i - 1], t.events[i - 1];
      assert StepsTo(t.env, s, e, t.nows[i - 1], t.states[i]);
      StepSends(t.env, s, e, t.nows[i - 1], t.states[i]);
      InsertedAllConcat([], t.env.cap, SentLog(t, i - 1), SentBy(s, e));
      assert SentLog(t, i) == SentLog(t, i - 1) + SentBy(s, e);
    }
  }

  /** sentMessages holds exactly the last cap messages that were put into it, in order. */
  lemma SentIsRecentHistory(t: Trace, i: nat)
    requires t.IsRun() && i < |t.states|
    ensures Chronological(t.states[i].sent) == LastN(SentLog(t, i), EffectiveCap(t.env.cap))
  {
    hide Step, StepMessage, StepConnection, Enabled;
    SentIsInsertedLog(t, i);
    HistoryBound(t.env.cap, SentLog(t, i));
  }

  /** A message put into sentMessages suppresses pushes with its id until cap later insertions. */
  lemma SentSuppressesPushes(t: Trace, x: nat, i: nat)
    requires t.IsRun() && i < |t.events| && x < |SentLog(t, i)|
    requires |SentLog(t, i)| - x <= EffectiveCap(t.env.cap)
    requires StepsTo(t.env, t.states[i], t.events[i], t.nows[i], t.states[i + 1])
    requires t.events[i].PushMsg? && t.events[i].push.messageId == SentLog(t, i)[x].messageId
    ensures t.states[i + 1] == t.states[i] && Step(t.env, t.states[i], t.events[i], t.nows[i]).1 == []
  {
    var log, sent, n := SentLog(t, i), t.states[i].sent, EffectiveCap(t.env.cap);
    SentIsRecentHistory(t, i);
    var y := if |log| <= n then x else x - (|log| - n);
    assert Chronological(sent)[y] == log[x];
    assert log[x] in sent;
  }

  // ---- the gossip tick ----

  /** A tick empties validMessages and sends the m-th drained message to the m-th chosen list of
      peers: min(degree, open peers) of them, pairwise distinct and open. */
  lemma TickSendsToChosen(env: Env, s: Node, chosen: seq<seq<ConnectionId>>, now: int64)
    requires Enabled(env, s, GossipTick(chosen))
    ensures var (s', outs) := Step(env, s, GossipTick(chosen), now);
            var k := Min(env.degree, |s.conns.open|);
            && s'.valid == [] && s'.invalid == s.invalid && s'.conns == s.conns
            && s'.sent == InsertedAll(s.sent, env.cap, s.valid)
            && |outs| == |s.valid| * k
            && (forall m :: 0 <= m < |s.valid| ==> |chosen[m]| == k && Distinct(chosen[m]))
            && (forall m, i :: 0 <= m < |s.valid| && 0 <= i < k ==> chosen[m][i] in s.conns.open)
            && forall m, i :: 0 <= m < |s.valid| && 0 <= i < k ==>
              OutAt(outs, k, m, i, ToPeer(chosen[m][i], MPush(s.valid[m])))
  {
    TickPushesAt(s.valid, chosen, Min(env.degree, |s.conns.open|));
  }

  /** outs, read in rows of length k, has `out` in row m at place i. */
  predicate OutAt(outs: seq<Out>, k: nat, m: nat, i: nat, out: Out) {
    0 <= m * k + i < |outs| && outs[m * k + i] == out
  }

  lemma {:induction false} TickPushesAt(drained: seq<Push>, chosen: seq<seq<ConnectionId>>, k: nat)
    requires |drained| == |chosen| && forall m :: 0 <= m < |chosen| ==> |chosen[m]| == k
    ensures |TickPushes(drained, chosen)| == |drained| * k
    ensures forall m, i :: 0 <= m < |drained| && 0 <= i < k ==>
      OutAt(TickPushes(drained, chosen), k, m, i, ToPeer(chosen[m][i], MPush(drained[m])))
    decreases |drained|
  {
    if drained != [] {
      var n := |drained| - 1;
      TickPushesAt(drained[..n], chosen[..n], k);
      var before, row := TickPushes(drained[..n], chosen[..n]), PushesTo(drained[n], chosen[n]);
      assert TickPushes(drained, chosen) == before + row;
      RowsLength(n, k);
      forall m, i | 0 <= m < |drained| && 0 <= i < k
        ensures OutAt(before + row, k, m, i, ToPeer(chosen[m][i], MPush(drained[m])))
      {
        if m < n {
          assert OutAt(before, k, m, i, ToPeer(chosen[..n][m][i], MPush(drained[..n][m])));
          EarlierRow(before, row, k, m, i, ToPeer(chosen[m][i], MPush(drained[m])));
        } else {
          LastRow(before, row, k, m, i);
        }
      }
    }
  }

  lemma RowsLength(n: nat, k: nat)
    ensures (n + 1) * k == n * k + k
  {
  }

  lemma EarlierRow(before: seq<Out>, row: seq<Out>, k: nat, m: nat, i: nat, out: Out)
    requires OutAt(before, k, m, i, out)
    ensures OutAt(before + row, k, m, i, out)
  {
  }

  lemma LastRow(before: seq<Out>, row: seq<Out>, k: nat, n: nat, i: nat)
    requires |before| == n * k && i < |row|
    ensures OutAt(before + row, k, n, i, row[i])
  {
  }
}
