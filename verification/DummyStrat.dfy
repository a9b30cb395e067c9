/** The strategy's loop on its real state: three ring buffers of shared messages and the connection
    manager. Every branch is proved to be the step of the state machine in module Strategy. */
module DummyStrat {
  import opened Basics
  import opened Bytes
  import opened RingView
  import opened RingBuffer
  import opened Cookies
  import opened ProofOfWork
  import opened Connections
  import opened ConnectionManager
  import opened Strategy
  import opened Inputs
  import Handshake

  class StoredMessage {
    var message: Push

    constructor (message: Push)
      ensures this.message == message
    {
      this.message := message;
    }
  }

  ghost function PushesOf(s: seq<StoredMessage>): (r: seq<Push>)
    reads s
    ensures |r| == |s|
  {
    seq(|s|, i requires 0 <= i < |s| reads s => s[i].message)
  }

  twostate lemma SamePushes(s: seq<StoredMessage>)
    requires forall m :: m in s ==> m.message == old(m.message)
    ensures PushesOf(s) == old(PushesOf(s))
  {
  }

  // ---- the buffers' values follow their references ----

  lemma PushesOfInserted(s: seq<StoredMessage>, cap: nat, m: StoredMessage)
    ensures PushesOf(Inserted(s, cap, m)) == Inserted(PushesOf(s), cap, m.message)
  {
  }

  lemma {:induction false} PushesOfInsertedAll(s: seq<StoredMessage>, cap: nat, ms: seq<StoredMessage>)
    ensures PushesOf(InsertedAll(s, cap, ms)) == InsertedAll(PushesOf(s), cap, PushesOf(ms))
    decreases |ms|
  {
    if ms != [] {
      var init := ms[..|ms| - 1];
      PushesOfInsertedAll(s, cap, init);
      PushesOfInserted(InsertedAll(s, cap, init), cap, ms[|ms| - 1]);
      assert PushesOf(ms)[..|ms| - 1] == PushesOf(init);
    }
  }

  /** Removing the first reference to a message removes the first equal value. */
  lemma PushesOfRemoved(s: seq<StoredMessage>, cap: nat, k: nat)
    requires k < |s| && forall j :: 0 <= j < k ==> s[j].message != s[k].message
    ensures PushesOf(RingView.Removed(s, cap, s[k])) == RingView.Removed(PushesOf(s), cap, s[k].message)
  {
    IndexOfIs(s, s[k], k);
    assert PushesOf(s)[k] == s[k].message;
    IndexOfIs(PushesOf(s), s[k].message, k);
  }

  lemma {:induction false} FirstWithIdAt(s: seq<Push>, messageId: uint16, k: nat)
    requires k < |s| && s[k].messageId == messageId && forall j :: 0 <= j < k ==> s[j].messageId != messageId
    ensures FirstWithId(s, messageId) == Some(s[k])
    decreases k
  {
    if k > 0 {
      FirstWithIdAt(s[1..], messageId, k - 1);
    }
  }

  // ---- no message is referenced twice ----

  lemma InsertedRefs(s: seq<StoredMessage>, cap: nat, m: StoredMessage)
    ensures forall x :: x in Inserted(s, cap, m) ==> x in s || x == m
    ensures Distinct(s) && m !in s ==> Distinct(Inserted(s, cap, m))
  {
  }

  lemma RemovedRefs(s: seq<StoredMessage>, cap: nat, m: StoredMessage)
    ensures forall x :: x in RingView.Removed(s, cap, m) ==> x in s
    ensures Distinct(s) ==> Distinct(RingView.Removed(s, cap, m)) && m !in RingView.Removed(s, cap, m)
  {
  }

  lemma {:induction false} InsertedAllRefs(s: seq<StoredMessage>, cap: nat, ms: seq<StoredMessage>)
    ensures forall x :: x in InsertedAll(s, cap, ms) ==> x in s || x in ms
    decreases |ms|
  {
    if ms != [] {
      InsertedAllRefs(s, cap, ms[..|ms| - 1]);
      InsertedRefs(InsertedAll(s, cap, ms[..|ms| - 1]), cap, ms[|ms| - 1]);
    }
  }

  datatype Buffers = Buffers(invalid: seq<Push>, valid: seq<Push>, sent: seq<Push>)

  /** The buffers and the output after a message event; such an event changes nothing else. */
  function AfterMessage(env: Env, s: Node, e: Event): (r: (Buffers, seq<Out>))
    requires Enabled(env, s, e) && AboutMessages(e)
    ensures StepMessage(env, s, e) == (s.(invalid := r.0.invalid, valid := r.0.valid, sent := r.0.sent), r.1)
  {
    var (s', outs) := StepMessage(env, s, e);
    (Buffers(s'.invalid, s'.valid, s'.sent), outs)
  }

  /** The connections, jobs, created cookies and output after a connection event; such an event
      leaves the buffers alone. */
  function AfterConnection(env: Env, s: Node, e: Event, now: int64): (r: (Conns, multiset<Job>, set<bytes>, seq<Out>))
    requires Enabled(env, s, e) && !AboutMessages(e)
    ensures StepConnection(env, s, e, now) == (s.(conns := r.0, jobs := r.1, issued := r.2), r.3)
  {
    var (s', outs) := StepConnection(env, s, e, now);
    (s'.conns, s'.jobs, s'.issued, outs)
  }

  lemma MessageStep(env: Env, s: Node, e: Event, now: int64, b: Buffers, outs: seq<Out>)
    requires AboutMessages(e) && Enabled(env, s, e) && (b, outs) == AfterMessage(env, s, e)
    ensures Step(env, s, e, now) == (s.(invalid := b.invalid, valid := b.valid, sent := b.sent), outs)
  {
  }

  lemma ConnectionStep(env: Env, s: Node, e: Event, now: int64, s': Node, outs: seq<Out>)
    requires !AboutMessages(e) && Enabled(env, s, e)
    requires (s'.conns, s'.jobs, s'.issued, outs) == AfterConnection(env, s, e, now)
    requires s'.invalid == s.invalid && s'.valid == s.valid && s'.sent == s.sent
    ensures Step(env, s, e, now) == (s', outs)
  {
  }

  lemma RenewalStep(env: Env, s: Node, order: seq<ConnectionId>, now: int64)
    requires Enumerates(s.conns.open.Keys, order)
    ensures Enabled(env, s, RenewalTick(order))
    ensures AfterConnection(env, s, RenewalTick(order), now) ==
      (s.conns.AllSentPowReq(), s.jobs, s.issued, Requests(order))
  {
  }

  lemma ValidationStep(env: Env, s: Node, messageId: uint16, isValid: bool)
    ensures Enabled(env, s, Validation(messageId, isValid))
    ensures var found, kept := FirstWithId(s.invalid, messageId), Buffers(s.invalid, s.valid, s.sent);
      AfterMessage(env, s, Validation(messageId, isValid)) == (
        if found.None? then kept
        else
          var left := kept.(invalid := RingView.Removed(s.invalid, env.cap, found.value));
          if isValid then Forwarded(env.cap, left, found.value) else left,
        [])
  {
  }

  /** No id is known twice, and a renewal job refers to the one connection that is known under its id, if any is,
      and as an open one. */
  ghost predicate Captures(captured: ConnMap, s: Node, peers: set<GossipConnection>) {
    && s.conns.Disjoint()
    && (forall job :: job in s.jobs && job.RenewJob? ==> job.id in captured)
    && (forall id :: id in captured ==>
          captured[id].id == id && id !in s.conns.toBeProved && id !in s.conns.inProgress)
    && (forall c :: c in peers && c.id in captured ==> captured[c.id] == c)
  }

  /** The connection that the job of a renewal challenge refers to. */
  ghost predicate Catches(captured: ConnMap, captured': ConnMap, s: Node, e: Event, s': Node,
          peers': set<GossipConnection>) {
    if e.PowChall? && s'.jobs != s.jobs then
      && e.id in s'.conns.open && e.id in captured' && captured'[e.id].id == e.id
      && captured' == captured[e.id := captured'[e.id]]
      && forall c :: c in peers' && c.id == e.id ==> c == captured'[e.id]
    else captured' == captured
  }

  lemma CapturesSame(captured: ConnMap, s: Node, s': Node, peers: set<GossipConnection>)
    requires Captures(captured, s, peers) && s'.conns == s.conns && s'.jobs == s.jobs
    ensures Captures(captured, s', peers)
  {
  }

  lemma CapturesKept(env: Env, captured: ConnMap, s: Node, peers: set<GossipConnection>, e: Event, now: int64,
                     captured': ConnMap, s': Node, peers': set<GossipConnection>)
    requires Captures(captured, s, peers) && StepsTo(env, s, e, now, s')
    requires forall c :: c in peers' ==> c in peers || e == NewConn(c.id)
    requires e.NewConn? ==> e.id !in captured && !s.conns.Has(e.id)
    requires Catches(captured, captured', s, e, s', peers')
    ensures Captures(captured', s', peers')
  {
    Handshake.StepKeepsDisjoint(env, s, e, now, s');
    forall job | job in s'.jobs && job.RenewJob? ensures job.id in captured' {
      if job !in s.jobs {
        Handshake.NewRenewal(env, s, e, now, s', job);
      }
    }
    forall id | id in captured'
      ensures captured'[id].id == id && id !in s'.conns.toBeProved && id !in s'.conns.inProgress
    {
      Handshake.NothingJoinsUnasked(env, s, e, now, s', id);
    }
  }

  /** A validated message counts as sent when its last hop is used up, and is else to be sent. */
  function Forwarded(cap: nat, b: Buffers, p: Push): Buffers {
    if p.ttl == 1 then b.(sent := Inserted(b.sent, cap, p))
    else b.(valid := Inserted(b.valid, cap, p.(ttl := DecrementedTtl(p.ttl))))
  }

  class DummyStrat {
    const env: Env
    const invalidMessages: Ringbuffer<StoredMessage>
    const validMessages: Ringbuffer<StoredMessage>
    const sentMessages: Ringbuffer<StoredMessage>
    const connManager: ConnectionManager
    var captured: map<ConnectionId, GossipConnection>  // what the goroutines of renewal jobs refer to
    ghost var jobs: multiset<Job>
    ghost var issued: set<bytes>

    ghost predicate ValidRings()
      reads invalidMessages, validMessages, sentMessages, invalidMessages.nodes, validMessages.nodes, sentMessages.nodes
    {
      && invalidMessages != validMessages && invalidMessages != sentMessages && validMessages != sentMessages
      && invalidMessages.cap == validMessages.cap == sentMessages.cap == env.cap
      && invalidMessages.Valid() && validMessages.Valid() && sentMessages.Valid()
    }

    /** A message waiting for validation is referenced once: its TTL will be changed in place. */
    ghost predicate ValidRefs()
      reads invalidMessages, validMessages, sentMessages
    {
      && Distinct(invalidMessages.View())
      && DisjointSeqs(invalidMessages.View(), validMessages.View())
      && DisjointSeqs(invalidMessages.View(), sentMessages.View())
    }

    ghost predicate Valid()
      reads invalidMessages, validMessages, sentMessages, invalidMessages.nodes, validMessages.nodes,
        sentMessages.nodes, connManager
    {
      ValidRings() && ValidRefs() && connManager.Valid()
    }

    ghost predicate CapturedOk()
      reads this, invalidMessages, validMessages, sentMessages, connManager, connManager.Peers()
      reads invalidMessages.View(), validMessages.View(), sentMessages.View()
    {
      Captures(captured, View(), connManager.Peers())
    }

    /** The messages whose TTL may be changed in place. */
    ghost function Waiting(): set<StoredMessage>
      reads invalidMessages
    {
      set m | m in invalidMessages.View()
    }

    ghost function RingNodes(): set<Ring<StoredMessage>>
      reads invalidMessages, validMessages, sentMessages
    {
      (set n | n in invalidMessages.nodes) + (set n | n in validMessages.nodes) + (set n | n in sentMessages.nodes)
    }

    ghost function Pushes(): Buffers
      reads invalidMessages, validMessages, sentMessages, invalidMessages.View(), validMessages.View(),
        sentMessages.View()
    {
      Buffers(PushesOf(invalidMessages.View()), PushesOf(validMessages.View()), PushesOf(sentMessages.View()))
    }

    ghost function View(): Node
      reads this, invalidMessages, validMessages, sentMessages, connManager, connManager.Peers()
      reads invalidMessages.View(), validMessages.View(), sentMessages.View()
    {
      Node(connManager.View(), Pushes().invalid, Pushes().valid, Pushes().sent, jobs, issued)
    }

    /** The manager was made for the neighbours before. */
    constructor (env: Env, connManager: ConnectionManager)
      requires connManager.Valid()
      ensures Valid() && this.env == env && this.connManager == connManager && captured == map[]
      ensures fresh(invalidMessages) && fresh(validMessages) && fresh(sentMessages)
      ensures invalidMessages.nodes == [] && validMessages.nodes == [] && sentMessages.nodes == []
      ensures Pushes() == Buffers([], [], []) && jobs == multiset{} && issued == {}
    {
      this.env := env;
      this.connManager := connManager;
      invalidMessages := new Ringbuffer(env.cap);
      validMessages := new Ringbuffer(env.cap);
      sentMessages := new Ringbuffer(env.cap);
      captured := map[];
      jobs, issued := multiset{}, {};
    }

    /** A new object is at the start of a run. */
    lemma StartedView(neighbours: set<ConnectionId>)
      requires connManager.View() == Started(neighbours).conns
      requires Pushes() == Buffers([], [], []) && jobs == multiset{} && issued == {}
      ensures View() == Started(neighbours)
      ensures captured == map[] ==> CapturedOk()
    {
    }

    method FindFirstMessage(ring: Ringbuffer<StoredMessage>, messageId: uint16)
      returns (r: StoredMessage?, ghost k: nat)
      requires ring.Valid()
      ensures r == null <==> FirstWithId(PushesOf(ring.View()), messageId).None?
      ensures r != null ==> k < |ring.View()| && r == ring.View()[k]
      ensures r != null ==> FirstWithId(PushesOf(ring.View()), messageId) == Some(r.message)
      ensures r != null ==> forall j :: 0 <= j < k ==> ring.View()[j].message != r.message
    {
      var found := ring.FindFirst((p: StoredMessage) reads p => p.message.messageId == messageId);
      ghost var refs, pushes := ring.View(), PushesOf(ring.View());
      k := 0;
      if found.None? {
        r := null;
        assert forall p :: p in pushes ==> p.messageId != messageId by {
          assert forall i :: 0 <= i < |refs| ==> refs[i] in refs && pushes[i] == refs[i].message;
        }
      } else {
        r := found.value;
        k :| 0 <= k < |refs| && refs[k] == r && r.message.messageId == messageId
             && forall j :: 0 <= j < k ==> refs[j].message.messageId != messageId;
        FirstWithIdAt(pushes, messageId, k);
      }
    }

    method StoreInvalid(msg: StoredMessage)
      requires ValidRings()
      modifies invalidMessages, invalidMessages.nodes
      ensures ValidRings() && invalidMessages.View() == Inserted(old(invalidMessages.View()), env.cap, msg)
      ensures PushesOf(invalidMessages.View()) == old(Inserted(PushesOf(invalidMessages.View()), env.cap, msg.message))
      ensures forall n :: n in invalidMessages.nodes ==> n in old(invalidMessages.nodes) || fresh(n)
    {
      hide ValuesOf, Inserted;
      ghost var stored := Inserted(invalidMessages.View(), env.cap, msg);
      PushesOfInserted(invalidMessages.View(), env.cap, msg);
      invalidMessages.Insert(msg);
      assert forall n :: n in validMessages.nodes ==> n.next == old(n.next) && n.prev == old(n.prev);
      assert forall n :: n in sentMessages.nodes ==> n.next == old(n.next) && n.prev == old(n.prev);
      assert PushesOf(stored) == old(PushesOf(stored));
    }

    method StoreValid(msg: StoredMessage)
      requires ValidRings()
      modifies validMessages, validMessages.nodes
      ensures ValidRings() && validMessages.View() == Inserted(old(validMessages.View()), env.cap, msg)
      ensures PushesOf(validMessages.View()) == old(Inserted(PushesOf(validMessages.View()), env.cap, msg.message))
      ensures forall n :: n in validMessages.nodes ==> n in old(validMessages.nodes) || fresh(n)
    {
      hide ValuesOf, Inserted;
      ghost var stored := Inserted(validMessages.View(), env.cap, msg);
      PushesOfInserted(validMessages.View(), env.cap, msg);
      validMessages.Insert(msg);
      assert forall n :: n in invalidMessages.nodes ==> n.next == old(n.next) && n.prev == old(n.prev);
      assert forall n :: n in sentMessages.nodes ==> n.next == old(n.next) && n.prev == old(n.prev);
      assert PushesOf(stored) == old(PushesOf(stored));
    }

    method StoreSent(msg: StoredMessage)
      requires ValidRings()
      modifies sentMessages, sentMessages.nodes
      ensures ValidRings() && sentMessages.View() == Inserted(old(sentMessages.View()), env.cap, msg)
      ensures PushesOf(sentMessages.View()) == old(Inserted(PushesOf(sentMessages.View()), env.cap, msg.message))
      ensures forall n :: n in sentMessages.nodes ==> n in old(sentMessages.nodes) || fresh(n)
    {
      hide ValuesOf, Inserted;
      ghost var stored := Inserted(sentMessages.View(), env.cap, msg);
      PushesOfInserted(sentMessages.View(), env.cap, msg);
      sentMessages.Insert(msg);
      assert forall n :: n in invalidMessages.nodes ==> n.next == old(n.next) && n.prev == old(n.prev);
      assert forall n :: n in validMessages.nodes ==> n.next == old(n.next) && n.prev == old(n.prev);
      assert PushesOf(stored) == old(PushesOf(stored));
    }

    /** Whether the id is in one of the buffers. */
    method FindKnown(messageId: uint16) returns (known: bool)
      requires ValidRings()
      ensures known ==
        (Holds(Pushes().sent, messageId) || Holds(Pushes().valid, messageId) || Holds(Pushes().invalid, messageId))
    {
      hide PushesOf, FirstWithId, Circular;
      var sent, _ := FindFirstMessage(sentMessages, messageId);
      var valid, _ := FindFirstMessage(validMessages, messageId);
      var invalid, _ := FindFirstMessage(invalidMessages, messageId);
      known := sent != null || valid != null || invalid != null;
    }

    /** Stores a push that waits for validation. */
    method AddInvalid(push: Push)
      requires ValidRings() && ValidRefs()
      modifies invalidMessages, invalidMessages.nodes
      ensures ValidRings() == old(ValidRings()) && ValidRefs() == old(ValidRefs())
      ensures Pushes() == old(Pushes()).(invalid := Inserted(old(Pushes()).invalid, env.cap, push))
      ensures forall n :: n in invalidMessages.nodes ==> n in old(invalidMessages.nodes) || fresh(n)
      ensures forall m :: m in invalidMessages.View() ==> m in old(invalidMessages.View()) || fresh(m)
    {
      var msg := new StoredMessage(push);
      InsertedRefs(invalidMessages.View(), env.cap, msg);
      StoreInvalid(msg);
    }

    /** A push is stored and notified when its sender is open and its id is in no buffer. */
    method OnPush(id: ConnectionId, push: Push) returns (outs: seq<Out>)
      requires Valid()
      modifies invalidMessages, invalidMessages.nodes
      ensures ValidRings() == ValidRefs() == old(Valid())
      ensures (Pushes(), outs) == AfterMessage(env, old(View()), PushMsg(id, push))
      ensures forall n :: n in invalidMessages.nodes ==> n in old(invalidMessages.nodes) || fresh(n)
      ensures forall m :: m in invalidMessages.View() ==> m in old(invalidMessages.View()) || fresh(m)
    {
      hide StepConnection, Inserted, FirstWithId, Holds, RingView.Removed, TickPushes;
      var peer := connManager.FindValid(id);
      if peer == null {
        return [];
      }
      var known := FindKnown(push.messageId);
      if known {
        return [];
      }
      AddInvalid(push);
      outs := [Notify(push.messageId, push.gossipType, push.payload)];
    }

    /** An announced message is valid at once. */
    method OnAnnounce(ttl: byte, dataType: uint16, data: bytes, messageId: uint16)
      requires Valid()
      modifies validMessages, validMessages.nodes
      ensures ValidRings() == ValidRefs() == old(Valid())
      ensures (Pushes(), []) == AfterMessage(env, old(View()), Announce(ttl, dataType, data, messageId))
      ensures forall n :: n in validMessages.nodes ==> n in old(validMessages.nodes) || fresh(n)
    {
      hide StepConnection;
      var msg := new StoredMessage(Push(ttl, dataType, messageId, data));
      InsertedRefs(validMessages.View(), env.cap, msg);
      StoreValid(msg);
    }

    /** Takes the k-th message, the first with its value, out of those waiting for validation. */
    method TakeInvalid(msg: StoredMessage, ghost k: nat)
      requires ValidRings() && ValidRefs()
      requires k < |invalidMessages.View()| && invalidMessages.View()[k] == msg
      requires forall j :: 0 <= j < k ==> invalidMessages.View()[j].message != msg.message
      modifies invalidMessages, invalidMessages.nodes
      ensures ValidRings() == old(ValidRings()) && ValidRefs() == old(ValidRefs())
      ensures msg !in invalidMessages.View() && msg !in validMessages.View() && msg !in sentMessages.View()
      ensures Pushes() == old(Pushes()).(invalid := RingView.Removed(old(Pushes()).invalid, env.cap, msg.message))
      ensures forall n :: n in invalidMessages.nodes ==> n in old(invalidMessages.nodes)
      ensures forall m :: m in invalidMessages.View() ==> m in old(invalidMessages.View())
    {
      hide Circular, RingView.Removed;
      ghost var left, valid, sent := RingView.Removed(invalidMessages.View(), env.cap, msg), validMessages.View(),
        sentMessages.View();
      RemovedRefs(invalidMessages.View(), env.cap, msg);
      PushesOfRemoved(invalidMessages.View(), env.cap, k);
      assert msg in invalidMessages.View();
      RemoveInvalid(msg);
      assert PushesOf(left) == old(PushesOf(left));
      assert PushesOf(valid) == old(PushesOf(valid)) && PushesOf(sent) == old(PushesOf(sent));
    }

    method RemoveInvalid(msg: StoredMessage)
      requires ValidRings()
      modifies invalidMessages, invalidMessages.nodes
      ensures ValidRings() && invalidMessages.View() == RingView.Removed(old(invalidMessages.View()), env.cap, msg)
      ensures forall n :: n in invalidMessages.nodes ==> n in old(invalidMessages.nodes)
    {
      hide ValuesOf, RingView.Removed;
      var _ := invalidMessages.Remove(msg);
      assert forall n :: n in validMessages.nodes ==> n.next == old(n.next) && n.prev == old(n.prev);
      assert forall n :: n in sentMessages.nodes ==> n.next == old(n.next) && n.prev == old(n.prev);
    }

    /** Counts the TTL down, in place, of a message that is in no buffer. */
    method CountDown(msg: StoredMessage)
      requires msg !in invalidMessages.View() && msg !in validMessages.View() && msg !in sentMessages.View()
      modifies msg
      ensures msg.message == old(msg.message).(ttl := DecrementedTtl(old(msg.message.ttl)))
      ensures Pushes() == old(Pushes())
    {
      msg.message := msg.message.(ttl := DecrementedTtl(msg.message.ttl));
    }

    /** A rejected message is dropped; a valid one goes to those sent when its last hop is used up,
        and else, counted down, to those to send. */
    method OnValidation(messageId: uint16, isValid: bool)
      requires Valid()
      modifies invalidMessages, invalidMessages.nodes, validMessages, validMessages.nodes, sentMessages,
        sentMessages.nodes
      modifies invalidMessages.View()
      ensures ValidRings() == ValidRefs() == old(Valid())
      ensures (Pushes(), []) == AfterMessage(env, old(View()), Validation(messageId, isValid))
      ensures forall n :: n in invalidMessages.nodes ==> n in old(invalidMessages.nodes)
      ensures forall m :: m in invalidMessages.View() ==> m in old(invalidMessages.View())
      ensures forall n :: n in validMessages.nodes ==> n in old(validMessages.nodes) || fresh(n)
      ensures forall n :: n in sentMessages.nodes ==> n in old(sentMessages.nodes) || fresh(n)
    {
      hide StepConnection, StepMessage, AfterMessage, Forwarded, Inserted, RingView.Removed, FirstWithId, PushesOf,
        Enabled;
      ValidationStep(env, View(), messageId, isValid);
      var msg, k := FindFirstMessage(invalidMessages, messageId);
      if msg == null {
        return;  // the source also removes a nil reference, which no buffer holds
      }
      TakeInvalid(msg, k);
      if !isValid {
        return;
      }
      Forward(msg);
    }

    method Forward(msg: StoredMessage)
      requires ValidRings() && ValidRefs()
      requires msg !in invalidMessages.View() && msg !in validMessages.View() && msg !in sentMessages.View()
      modifies msg, validMessages, validMessages.nodes, sentMessages, sentMessages.nodes
      ensures ValidRings() == old(ValidRings()) && ValidRefs() == old(ValidRefs())
      ensures Pushes() == Forwarded(env.cap, old(Pushes()), old(msg.message))
      ensures forall n :: n in validMessages.nodes ==> n in old(validMessages.nodes) || fresh(n)
      ensures forall n :: n in sentMessages.nodes ==> n in old(sentMessages.nodes) || fresh(n)
    {
      if msg.message.ttl == 1 {
        InsertedRefs(sentMessages.View(), env.cap, msg);
        StoreSent(msg);
      } else {
        CountDown(msg);
        InsertedRefs(validMessages.View(), env.cap, msg);
        StoreValid(msg);
      }
    }

    /** Sends every message to be sent to the peers that the permutations choose, and moves it to
        those sent. */
    method OnGossipTick(perms: seq<seq<nat>>) returns (outs: seq<Out>)
      requires Valid() && |perms| == |validMessages.View()|
      requires forall perm :: perm in perms ==> IsPermutation(perm, |connManager.openConnections|)
      modifies validMessages, validMessages.nodes, sentMessages, sentMessages.nodes
      ensures ValidRings() == ValidRefs() == old(Valid())
      ensures Enabled(env, old(View()), GossipTick(Rows(connManager.openConnections, perms, env.degree)))
      ensures (Pushes(), outs) ==
        AfterMessage(env, old(View()), GossipTick(Rows(connManager.openConnections, perms, env.degree)))
      ensures fresh(SendNodes() - old(SendNodes()))
    {
      RowsChosen(connManager.openConnections, connManager.openConnectionsMap, perms, env.degree);
      assert connManager.openConnectionsMap.Keys == View().conns.open.Keys;
      outs := DrainAll(perms);
    }

    method DrainAll(perms: seq<seq<nat>>) returns (outs: seq<Out>)
      requires Valid() && |perms| == |validMessages.View()|
      requires forall perm :: perm in perms ==> IsPermutation(perm, |connManager.openConnections|)
      modifies validMessages, validMessages.nodes, sentMessages, sentMessages.nodes
      ensures ValidRings() == ValidRefs() == old(Valid())
      ensures var b := old(Pushes()); Pushes() == Buffers(b.invalid, [], InsertedAll(b.sent, env.cap, b.valid))
      ensures outs == TickPushes(old(Pushes()).valid, Rows(connManager.openConnections, perms, env.degree))
      ensures fresh(SendNodes() - old(SendNodes()))
    {
      hide Inserted, RingView.Removed, InsertedAll, TickPushes, Rows, Row;
      ghost var sent0, invalid := sentMessages.View(), invalidMessages.View();
      var drained := validMessages.ExtractToSlice();
      ghost var sent := InsertedAll(sent0, env.cap, drained);
      PushesOfInsertedAll(sent0, env.cap, drained);
      InsertedAllRefs(sent0, env.cap, drained);
      outs := Drain(drained, perms);
      assert sentMessages.View() == sent && invalidMessages.View() == invalid;
      SamePushes(invalid);
      SamePushes(sent);
    }

    ghost function SendNodes(): set<Ring<StoredMessage>>
      reads validMessages, sentMessages
    {
      (set n | n in validMessages.nodes) + (set n | n in sentMessages.nodes)
    }

    /** The tick's loop over the drained messages. */
    method Drain(drained: seq<StoredMessage>, perms: seq<seq<nat>>) returns (outs: seq<Out>)
      requires ValidRings() && drained == validMessages.View() && |perms| == |drained|
      requires forall perm :: perm in perms ==> IsPermutation(perm, |connManager.openConnections|)
      modifies validMessages, validMessages.nodes, sentMessages, sentMessages.nodes
      ensures ValidRings() == old(ValidRings())
      ensures validMessages.View() == [] &&
        sentMessages.View() == InsertedAll(old(sentMessages.View()), env.cap, drained)
      ensures outs == TickPushes(old(PushesOf(drained)), Rows(connManager.openConnections, perms, env.degree))
      ensures fresh(SendNodes() - old(SendNodes()))
    {
      hide Inserted, RingView.Removed, InsertedAll, TickPushes, LeftToDrain, Rows, Row, PushesOf;
      ghost var sent0, pushes := sentMessages.View(), PushesOf(drained);
      ghost var rows := Rows(connManager.openConnections, perms, env.degree);
      outs := [];
      DrainEnds(drained, sent0, env.cap);
      assert |pushes| == |rows| == |drained|;
      for i := 0 to |drained|
        invariant ValidRings() == true
        invariant fresh(SendNodes() - old(SendNodes()))
        invariant validMessages.View() == LeftToDrain(drained, env.cap, i)
        invariant sentMessages.View() == InsertedAll(sent0, env.cap, drained[..i])
        invariant outs == TickPushes(pushes[..i], rows[..i])
      {
        outs := DrainNext(drained, perms, i, sent0, pushes, rows, outs);
      }
      assert pushes[..|drained|] == pushes && drained[..|drained|] == drained && rows[..|drained|] == rows;
    }

    /** One turn of the loop. */
    method DrainNext(drained: seq<StoredMessage>, perms: seq<seq<nat>>, i: nat, ghost sent0: seq<StoredMessage>,
                     ghost pushes: seq<Push>, ghost rows: seq<seq<ConnectionId>>, outs: seq<Out>) returns (r: seq<Out>)
      requires ValidRings() && i < |drained| == |perms|
      requires validMessages.View() == LeftToDrain(drained, env.cap, i)
      requires sentMessages.View() == InsertedAll(sent0, env.cap, drained[..i])
      requires forall perm :: perm in perms ==> IsPermutation(perm, |connManager.openConnections|)
      requires pushes == PushesOf(drained) && rows == Rows(connManager.openConnections, perms, env.degree)
      requires outs == TickPushes(pushes[..i], rows[..i])
      modifies validMessages, validMessages.nodes, sentMessages, sentMessages.nodes
      ensures ValidRings() == old(ValidRings()) && fresh(SendNodes() - old(SendNodes()))
      ensures validMessages.View() == LeftToDrain(drained, env.cap, i + 1)
      ensures sentMessages.View() == InsertedAll(sent0, env.cap, drained[..i + 1])
      ensures r == TickPushes(pushes[..i + 1], rows[..i + 1])
    {
      TickGrows(pushes, rows, i);
      DrainStep(drained, sent0, env.cap, i);
      var more := DrainOne(drained[i], perms[i]);
      r := outs + more;
    }

    /** The pushes of one message to the first peers of a permutation. */
    method SendToSome(push: Push, perm: seq<nat>) returns (outs: seq<Out>)
      requires IsPermutation(perm, |connManager.openConnections|)
      ensures outs == PushesTo(push, Row(connManager.openConnections, perm, env.degree))
    {
      var peers := connManager.ActionOnPermutedValid(perm, env.degree);
      outs := [];
      for i := 0 to |peers|
        invariant |outs| == i && forall j :: 0 <= j < i ==> outs[j] == ToPeer(peers[j].id, MPush(push))
      {
        outs := outs + [ToPeer(peers[i].id, MPush(push))];
      }
    }

    /** Sends one message, removes it from those to send and inserts it into those sent. */
    method DrainOne(msg: StoredMessage, perm: seq<nat>) returns (outs: seq<Out>)
      requires ValidRings() && IsPermutation(perm, |connManager.openConnections|)
      modifies validMessages, validMessages.nodes, sentMessages, sentMessages.nodes
      ensures ValidRings() == old(ValidRings()) && fresh(SendNodes() - old(SendNodes()))
      ensures validMessages.View() == RingView.Removed(old(validMessages.View()), env.cap, msg)
      ensures sentMessages.View() == Inserted(old(sentMessages.View()), env.cap, msg)
      ensures outs == PushesTo(msg.message, Row(connManager.openConnections, perm, env.degree))
    {
      outs := SendToSome(msg.message, perm);
      RemoveValid(msg);
      StoreSent(msg);
    }

    method RemoveValid(msg: StoredMessage)
      requires ValidRings()
      modifies validMessages, validMessages.nodes
      ensures ValidRings() && validMessages.View() == RingView.Removed(old(validMessages.View()), env.cap, msg)
      ensures forall n :: n in validMessages.nodes ==> n in old(validMessages.nodes)
    {
      hide ValuesOf, RingView.Removed;
      var _ := validMessages.Remove(msg);
      assert forall n :: n in invalidMessages.nodes ==> n.next == old(n.next) && n.prev == old(n.prev);
      assert forall n :: n in sentMessages.nodes ==> n.next == old(n.next) && n.prev == old(n.prev);
    }

    /** A closed connection is removed from all data structures; only a removed one is closed fully. */
    method OnUnregister(id: ConnectionId, ghost now: int64) returns (outs: seq<Out>)
      requires connManager.Valid()
      modifies connManager
      ensures connManager.Valid()
      ensures (connManager.View(), jobs, issued, outs) == AfterConnection(env, old(View()), Unregister(id), now)
      ensures connManager.Peers() <= old(connManager.Peers())
    {
      hide StepMessage, Keyed, Apart, Agree, ViewOf;
      var peer := connManager.Remove(id);
      outs := if peer != null then [Close(id)] else [];
    }

    /** Any connection is accepted and has to give a proof. */
    method OnNewConn(id: ConnectionId, ghost now: int64) returns (outs: seq<Out>)
      requires connManager.Valid()
      modifies connManager
      ensures connManager.Valid()
      ensures (connManager.View(), jobs, issued, outs) == AfterConnection(env, old(View()), NewConn(id), now)
      ensures forall c :: c in connManager.Peers() ==> c in old(connManager.Peers()) || (fresh(c) && c.id == id)
    {
      hide StepMessage, Keyed, Apart, Agree, ViewOf;
      var conn := new GossipConnection(id);
      connManager.AddInProgress(conn);
      outs := [];
    }

    /** A connection in progress gets a challenge with an encrypted cookie. */
    method OnConnReq(id: ConnectionId, chall: bytes, now: int64) returns (outs: seq<Out>)
      requires connManager.Valid() && |chall| == NONCE_SIZE
      modifies this`issued
      ensures (old(connManager.View()), jobs, issued, outs) ==
        AfterConnection(env, old(View()), ConnReq(id, chall), now)
    {
      hide StepMessage, Keyed, Apart, Agree, ViewOf;
      var cookie := new ConnCookie(chall, now, id);
      var peer := connManager.FindInProgress(id);
      if peer == null {
        return [];
      }
      var c := Create(env.aead, cookie);
      issued := issued + {c};
      outs := [ToPeer(id, MConnChall(c))];
    }

    /** A challenge on a connection to be proved starts a proof-of-work job; on any other it removes it. */
    method OnConnChall(id: ConnectionId, cookie: bytes, ghost now: int64) returns (outs: seq<Out>)
      requires connManager.Valid()
      modifies connManager, this`jobs
      ensures connManager.Valid()
      ensures (connManager.View(), jobs, issued, outs) == AfterConnection(env, old(View()), ConnChall(id, cookie), now)
      ensures connManager.Peers() <= old(connManager.Peers())
    {
      hide StepMessage, Keyed, Apart, Agree, ViewOf;
      var peer := connManager.FindToBeProved(id);
      if peer == null {
        var _ := connManager.Remove(id);
        return [];
      }
      jobs := jobs + multiset{ConnJob(id, cookie)};
      outs := [];
    }

    /** An open connection that asks to renew its proof gets a challenge. */
    method OnPowReq(id: ConnectionId, chall: bytes, now: int64) returns (outs: seq<Out>)
      requires connManager.Valid() && |chall| == NONCE_SIZE
      modifies this`issued
      ensures (old(connManager.View()), jobs, issued, outs) == AfterConnection(env, old(View()), PowReq(id, chall), now)
    {
      hide StepMessage, Keyed, Apart, Agree, ViewOf;
      var cookie := new ConnCookie(chall, now, id);
      var peer := connManager.FindValid(id);
      if peer == null {
        return [];
      }
      var c := Create(env.aead, cookie);
      issued := issued + {c};
      outs := [ToPeer(id, MPowChall(c))];
    }

    /** A renewal challenge starts a job if it was asked for; else the connection is removed. */
    method OnPowChall(id: ConnectionId, cookie: bytes, ghost now: int64) returns (outs: seq<Out>)
      requires connManager.Valid()
      modifies connManager, this`jobs, this`captured
      ensures connManager.Valid()
      ensures (connManager.View(), jobs, issued, outs) == AfterConnection(env, old(View()), PowChall(id, cookie), now)
      ensures if jobs == old(jobs) then captured == old(captured)
              else jobs == old(jobs) + multiset{RenewJob(id, cookie)} && id in connManager.openConnectionsMap
                   && captured == old(captured)[id := connManager.openConnectionsMap[id]]
      ensures connManager.Peers() <= old(connManager.Peers())
    {
      hide StepMessage, Keyed, Apart, Agree;
      var peer := connManager.FindValid(id);
      if peer == null || !peer.sentPowReq {
        var _ := connManager.Remove(id);
        return [];
      }
      jobs := jobs + multiset{RenewJob(id, cookie)};
      captured := captured[id := peer];
      outs := [];
    }

    /** The check of a returned cookie: decryption, hash and destination. Null if one fails. */
    method CheckProof(id: ConnectionId, nonce: uint64, cookie: bytes) returns (c: ConnCookie?)
      requires Readable(env.aead, cookie)
      ensures c != null <==> ProofOk(env, id, nonce, cookie)
      ensures c != null ==> ReadCookie(env.aead, cookie) == Some(c.Value())
    {
      var mypow := new PowMarsh(nonce, cookie);
      c := Read(env.aead, cookie);
      if c == null {
        return;
      }
      var powValidity := CheckWork(env.hash, First8bits0, mypow);
      if !powValidity || c.dest != id {
        c := null;
      }
    }

    /** A proof opens a connection in progress if all four checks pass; else the connection is removed. */
    method OnConnPoW(id: ConnectionId, nonce: uint64, cookie: bytes, now: int64) returns (outs: seq<Out>)
      requires connManager.Valid() && (id in connManager.powInProgress ==> Readable(env.aead, cookie))
      modifies connManager, connManager.Peers()
      ensures connManager.Valid()
      ensures (connManager.View(), jobs, issued, outs) ==
        AfterConnection(env, old(View()), ConnPoW(id, nonce, cookie), now)
      ensures connManager.Peers() <= old(connManager.Peers())
    {
      hide StepMessage, Keyed, Apart, Agree, ViewOf, ProofOk, ReadCookie, CreateCookie;
      var peer := connManager.FindInProgress(id);
      if peer == null {
        var _ := connManager.Remove(id);
        return [];
      }
      var c := CheckProof(id, nonce, cookie);
      if c == null || now - c.timestamp > POW_TIMEOUT {
        var _ := connManager.Remove(id);
        return [];
      }
      connManager.MakeValid(id, c.timestamp);
      outs := [];
    }

    /** A renewed proof gives an open connection a new timestamp; the cookie's age is not checked. */
    method OnPowPoW(id: ConnectionId, nonce: uint64, cookie: bytes, now: int64) returns (outs: seq<Out>)
      requires connManager.Valid() && (id in connManager.openConnectionsMap ==> Readable(env.aead, cookie))
      modifies connManager, connManager.Peers()
      ensures connManager.Valid()
      ensures (connManager.View(), jobs, issued, outs) ==
        AfterConnection(env, old(View()), PowPoW(id, nonce, cookie), now)
      ensures connManager.Peers() <= old(connManager.Peers())
    {
      hide StepMessage, Keyed, Apart, Agree, ViewOf, ProofOk, ReadCookie, CreateCookie;
      var peer := connManager.FindValid(id);
      if peer == null {
        var _ := connManager.Remove(id);
        return [];
      }
      var c := CheckProof(id, nonce, cookie);
      if c == null {
        var _ := connManager.Remove(id);
        return [];
      }
      connManager.MakeValid(id, c.timestamp);
      outs := [];
    }

    /** A finished handshake job sends its proof and opens the connection, if it is still known. */
    method OnConnJobDone(id: ConnectionId, cookie: bytes, nonce: uint64, closed: bool, now: int64)
      returns (outs: seq<Out>)
      requires connManager.Valid() && ConnJob(id, cookie) in jobs
      modifies connManager, connManager.Peers(), this`jobs
      ensures connManager.Valid()
      ensures (connManager.View(), jobs, issued, outs) ==
        AfterConnection(env, old(View()), JobDone(ConnJob(id, cookie), nonce, closed), now)
      ensures connManager.Peers() <= old(connManager.Peers())
    {
      hide StepMessage, Keyed, Apart, Agree, ViewOf;
      jobs := jobs - multiset{ConnJob(id, cookie)};
      if closed {
        return [];
      }
      connManager.MakeValid(id, now);
      outs := [ToPeer(id, MConnPoW(nonce, cookie))];
    }

    /** Open connections whose proof has expired are closed. */
    method OnTimeoutTick(now: int64) returns (outs: seq<Out>)
      requires connManager.Valid()
      modifies connManager
      ensures connManager.Valid()
      ensures (connManager.View(), jobs, issued, outs) == AfterConnection(env, old(View()), TimeoutTick, now)
      ensures connManager.Peers() <= old(connManager.Peers())
    {
      hide StepMessage, Keyed, Apart, Agree, ViewOf;
      connManager.CullConnections(Expired(now));
      outs := [];
    }

    /** A finished renewal job sends its proof; `peer` is the connection the job was started for. */
    method OnRenewJobDone(peer: GossipConnection, cookie: bytes, nonce: uint64, closed: bool, ghost now: int64)
      returns (outs: seq<Out>)
      requires connManager.Valid() && RenewJob(peer.id, cookie) in jobs
      // addresses are not reused: only this connection can be known under its id, and only as an open one
      requires !Files(connManager.toBeProvedConnections, peer) && !Files(connManager.powInProgress, peer)
      requires peer.id in connManager.openConnectionsMap ==> connManager.openConnectionsMap[peer.id] == peer
      modifies peer`sentPowReq, this`jobs
      ensures (connManager.View(), jobs, issued, outs) ==
        AfterConnection(env, old(View()), JobDone(RenewJob(peer.id, cookie), nonce, closed), now)
    {
      hide StepMessage, Keyed, Apart, Agree, ViewOf;
      jobs := jobs - multiset{RenewJob(peer.id, cookie)};
      if closed {
        return [];
      }
      connManager.ClearRequest(peer);
      outs := [ToPeer(peer.id, MPowPoW(nonce, cookie))];
    }

    /** Every open peer is asked to renew its proof. */
    method OnRenewalTick(ghost now: int64) returns (outs: seq<Out>)
      requires connManager.Valid()
      modifies connManager.openConnections
      ensures Enabled(env, old(View()), RenewalTick(Ids(connManager.openConnections)))
      ensures (connManager.View(), jobs, issued, outs) ==
        AfterConnection(env, old(View()), RenewalTick(Ids(connManager.openConnections)), now)
    {
      hide StepMessage, StepConnection, Enabled, AfterConnection, ViewOf, Keyed, Apart, Agree;
      IdsEnumerate(connManager.openConnections, connManager.openConnectionsMap);
      ViewKeys(connManager.openConnectionsMap);
      ghost var order := Ids(connManager.openConnections);
      RenewalStep(env, View(), order, now);
      var ids := connManager.MarkRequested();
      assert ids == order == Ids(connManager.openConnections);
      outs := seq(|ids|, i requires 0 <= i < |ids| => ToPeer(ids[i], MPowReq));
      assert outs == Requests(ids);
    }

    // ---- the loop ----

    /** The branches of the select that are about messages. */
    method HandleMessage(x: Input) returns (outs: seq<Out>, ghost e: Event)
      requires Valid() && CanHappen(env, View(), x) && (x.Occurs? ==> AboutMessages(x.e)) && !x.RenewalTimer?
      modifies invalidMessages, invalidMessages.nodes, validMessages, validMessages.nodes, sentMessages,
        sentMessages.nodes
      modifies invalidMessages.View()
      ensures ValidRings() == ValidRefs() == old(Valid()) && Delivers(x, e) && AboutMessages(e)
      ensures Enabled(env, old(View()), e) && (Pushes(), outs) == AfterMessage(env, old(View()), e)
      ensures fresh(RingNodes() - old(RingNodes())) && fresh(Waiting() - old(Waiting()))
    {
      hide StepConnection, StepMessage, AfterMessage, Known, Pushes, Circular, ValuesOf;
      if x.GossipTimer? {
        outs, e := HandleTick(x.perms);
        return;
      }
      e, outs := x.e, [];
      match x.e {
        case PushMsg(id, push) => outs := OnPush(id, push);
        case Announce(ttl, dataType, data, messageId) => OnAnnounce(ttl, dataType, data, messageId);
        case Validation(messageId, isValid) => OnValidation(messageId, isValid);
      }
    }

    method HandleTick(perms: seq<seq<nat>>) returns (outs: seq<Out>, ghost e: Event)
      requires Valid() && CanHappen(env, View(), GossipTimer(perms))
      modifies validMessages, validMessages.nodes, sentMessages, sentMessages.nodes
      ensures ValidRings() == ValidRefs() == old(Valid()) && e.GossipTick? && Enabled(env, old(View()), e)
      ensures (Pushes(), outs) == AfterMessage(env, old(View()), e)
      ensures fresh(SendNodes() - old(SendNodes()))
    {
      SliceCoversMap(connManager.openConnections, connManager.openConnectionsMap);
      assert connManager.openConnectionsMap.Keys == View().conns.open.Keys;
      e := GossipTick(Rows(connManager.openConnections, perms, env.degree));
      outs := OnGossipTick(perms);
    }

    /** What a branch about connections does. */
    twostate predicate Handled(e: Event, now: int64, outs: seq<Out>)
      requires !AboutMessages(e) && Enabled(env, old(View()), e)
      reads this, connManager, connManager.Peers()
    {
      && connManager.Valid()
      && (connManager.View(), jobs, issued, outs) == AfterConnection(env, old(View()), e, now)
      && (forall c :: c in connManager.Peers() ==> c in old(connManager.Peers()) || (fresh(c) && e == NewConn(c.id)))
      && (if e.PowChall? && jobs != old(jobs)
          then e.id in connManager.openConnectionsMap &&
            captured == old(captured)[e.id := connManager.openConnectionsMap[e.id]]
          else captured == old(captured))
    }

    method HandleRequest(e: Event, now: int64) returns (outs: seq<Out>)
      requires Valid() && Enabled(env, View(), e) && (e.Unregister? || e.NewConn? || e.ConnReq? || e.PowReq?)
      modifies connManager, this`issued
      ensures Handled(e, now, outs)
    {
      hide StepMessage, StepConnection, AfterConnection, Circular;
      match e {
        case Unregister(id) => outs := OnUnregister(id, now);
        case NewConn(id) => outs := OnNewConn(id, now);
        case ConnReq(id, chall) => outs := OnConnReq(id, chall, now);
        case PowReq(id, chall) => outs := OnPowReq(id, chall, now);
      }
    }

    method HandleChallenge(e: Event, now: int64) returns (outs: seq<Out>)
      requires Valid() && (e.ConnChall? || e.PowChall?)
      modifies connManager, this`jobs, this`captured
      ensures Handled(e, now, outs)
    {
      hide StepMessage, StepConnection, AfterConnection, Circular;
      match e {
        case ConnChall(id, cookie) => outs := OnConnChall(id, cookie, now);
        case PowChall(id, cookie) => outs := OnPowChall(id, cookie, now);
      }
    }

    method HandleProof(e: Event, now: int64) returns (outs: seq<Out>)
      requires Valid() && Enabled(env, View(), e) && (e.ConnPoW? || e.PowPoW?)
      modifies connManager, connManager.Peers()
      ensures Handled(e, now, outs)
    {
      hide StepMessage, StepConnection, AfterConnection, Circular;
      match e {
        case ConnPoW(id, nonce, cookie) => outs := OnConnPoW(id, nonce, cookie, now);
        case PowPoW(id, nonce, cookie) => outs := OnPowPoW(id, nonce, cookie, now);
      }
    }

    method HandleJob(e: Event, now: int64) returns (outs: seq<Out>)
      requires Valid() && CapturedOk() && e.JobDone? && Enabled(env, View(), e)
      modifies connManager, connManager.Peers(), captured.Values, this`jobs
      ensures Handled(e, now, outs)
    {
      hide StepMessage, StepConnection, AfterConnection, Circular;
      match e.job {
        case ConnJob(id, cookie) => outs := OnConnJobDone(id, cookie, e.nonce, e.closed, now);
        case RenewJob(id, cookie) => outs := OnRenewJobDone(captured[id], cookie, e.nonce, e.closed, now);
      }
    }

    method HandleTimer(x: Input, now: int64) returns (outs: seq<Out>, ghost e: Event)
      requires Valid() && (x.RenewalTimer? || x == Occurs(TimeoutTick))
      modifies connManager, connManager.Peers()
      ensures Delivers(x, e) && (e.RenewalTick? || e.TimeoutTick?) && Enabled(env, old(View()), e) &&
        Handled(e, now, outs)
    {
      hide StepMessage, StepConnection, AfterConnection, Circular;
      if x.RenewalTimer? {
        e := RenewalTick(Ids(connManager.openConnections));
        outs := OnRenewalTick(now);
      } else {
        e := TimeoutTick;
        outs := OnTimeoutTick(now);
      }
    }

    /** The branches that are about connections, and the ends of jobs. */
    method HandleConnection(x: Input, now: int64) returns (outs: seq<Out>, ghost e: Event)
      requires Valid() && CapturedOk() && CanHappen(env, View(), x) && (x.Occurs? ==> !AboutMessages(x.e)) &&
        !x.GossipTimer?
      modifies connManager, connManager.Peers(), captured.Values, this`jobs, this`issued, this`captured
      ensures Delivers(x, e) && !AboutMessages(e) && Enabled(env, old(View()), e) && Handled(e, now, outs)
    {
      if x.RenewalTimer? || x.e.TimeoutTick? {
        outs, e := HandleTimer(x, now);
        return;
      }
      e := x.e;
      if x.e.ConnChall? || x.e.PowChall? {
        outs := HandleChallenge(x.e, now);
      } else if x.e.ConnPoW? || x.e.PowPoW? {
        outs := HandleProof(x.e, now);
      } else if x.e.JobDone? {
        outs := HandleJob(x.e, now);
      } else {
        outs := HandleRequest(x.e, now);
      }
    }

    /** No other connection is known under the id of an open one. */
    lemma OnlyOpen(id: ConnectionId)
      requires connManager.Valid() && connManager.View().Disjoint() && id in connManager.openConnectionsMap
      ensures connManager.openConnectionsMap[id].id == id && id in connManager.View().open
      ensures forall c :: c in connManager.Peers() && c.id == id ==> c == connManager.openConnectionsMap[id]
    {
      var v := connManager.View();
      assert v.toBeProved.Keys == connManager.toBeProvedConnections.Keys &&
        v.inProgress.Keys == connManager.powInProgress.Keys;
      assert id in v.open && id !in v.toBeProved && id !in v.inProgress;
    }

    /** One turn of the loop, or the end of a job. */
    method Handle(x: Input, now: int64) returns (outs: seq<Out>, ghost e: Event)
      requires Valid() && CapturedOk() && CanHappen(env, View(), x)
      requires NewIds(x) !! captured.Keys && forall id :: id in NewIds(x) ==> !View().conns.Has(id)
      modifies this, connManager, connManager.Peers(), captured.Values
      modifies invalidMessages, validMessages, sentMessages, RingNodes(), Waiting()
      ensures Valid() == CapturedOk() == old(Valid())
      ensures Delivers(x, e) && Enabled(env, old(View()), e) && Step(env, old(View()), e, now) == (View(), outs)
      ensures forall n :: n in RingNodes() ==> n in old(RingNodes()) || fresh(n)
      ensures forall m :: m in Waiting() ==> m in old(Waiting()) || fresh(m)
      ensures forall c :: c in connManager.Peers() ==> c in old(connManager.Peers()) || fresh(c)
      ensures forall c :: c in captured.Values ==>
        c in old(captured.Values) || c in old(connManager.Peers()) || fresh(c)
      ensures forall id :: id in captured ==> id in old(captured) || View().conns.Has(id)
    {
      hide Step, StepConnection, StepMessage, Enabled, CanHappen, Captures, Valid, View, Delivers;
      if x.GossipTimer? || (x.Occurs? && AboutMessages(x.e)) {
        outs, e := TurnMessage(x, now);
      } else {
        outs, e := TurnConnection(x, now);
      }
    }

    method TurnMessage(x: Input, now: int64) returns (outs: seq<Out>, ghost e: Event)
      requires Valid() && CapturedOk() && CanHappen(env, View(), x) && (x.Occurs? ==> AboutMessages(x.e)) &&
        !x.RenewalTimer?
      modifies invalidMessages, invalidMessages.nodes, validMessages, validMessages.nodes, sentMessages,
        sentMessages.nodes
      modifies invalidMessages.View()
      ensures Valid() == CapturedOk() == old(Valid()) && Delivers(x, e) && AboutMessages(e) &&
        Enabled(env, old(View()), e)
      ensures Step(env, old(View()), e, now) == (View(), outs)
      ensures captured == old(captured) && connManager.Peers() == old(connManager.Peers())
      ensures fresh(RingNodes() - old(RingNodes())) && fresh(Waiting() - old(Waiting()))
    {
      hide StepConnection, StepMessage, Enabled, CanHappen, Captures, Inserted, RingView.Removed,
        ConnectionManager.Valid;
      ghost var s, peers := View(), connManager.Peers();
      outs, e := LeaveConnections(x);
      ghost var b := Pushes();
      MessageStep(env, s, e, now, b, outs);
      assert View() == s.(invalid := b.invalid, valid := b.valid, sent := b.sent);
      CapturesSame(captured, s, View(), peers);
    }

    /** Events about messages leave the connections alone. */
    method LeaveConnections(x: Input) returns (outs: seq<Out>, ghost e: Event)
      requires Valid() && CanHappen(env, View(), x) && (x.Occurs? ==> AboutMessages(x.e)) && !x.RenewalTimer?
      modifies invalidMessages, invalidMessages.nodes, validMessages, validMessages.nodes, sentMessages,
        sentMessages.nodes
      modifies invalidMessages.View()
      ensures ValidRings() == ValidRefs() == old(Valid()) && Delivers(x, e) && AboutMessages(e)
      ensures Enabled(env, old(View()), e) && (Pushes(), outs) == AfterMessage(env, old(View()), e)
      ensures fresh(RingNodes() - old(RingNodes())) && fresh(Waiting() - old(Waiting()))
      ensures connManager.View() == old(connManager.View()) && connManager.Valid() == old(connManager.Valid())
      ensures connManager.Peers() == old(connManager.Peers())
    {
      hide Step, StepConnection, StepMessage, AfterMessage, Enabled, CanHappen, Captures, Valid, ValidRings, ValidRefs;
      hide ViewOf, Keyed, Apart, Agree, View, Delivers, Pushes;
      outs, e := HandleMessage(x);
    }

    method TurnConnection(x: Input, now: int64) returns (outs: seq<Out>, ghost e: Event)
      requires Valid() && CapturedOk() && CanHappen(env, View(), x) && (x.Occurs? ==> !AboutMessages(x.e)) &&
        !x.GossipTimer?
      requires NewIds(x) !! captured.Keys && forall id :: id in NewIds(x) ==> !View().conns.Has(id)
      modifies connManager, connManager.Peers(), captured.Values, this`jobs, this`issued, this`captured
      ensures Valid() == CapturedOk() == old(Valid())
      ensures Delivers(x, e) && Enabled(env, old(View()), e) && Step(env, old(View()), e, now) == (View(), outs)
      ensures RingNodes() == old(RingNodes()) && Waiting() == old(Waiting())
      ensures fresh(connManager.Peers() - old(connManager.Peers()))
      ensures captured.Values <= old(captured.Values) + connManager.Peers()
      ensures forall id :: id in captured ==> id in old(captured) || View().conns.Has(id)
    {
      ghost var s, captured0, peers0 := View(), captured, connManager.Peers();
      outs, e := LeaveMessages(x, now);
      ConnectionStep(env, s, e, now, View(), outs);
      CapturedStays(captured0, s, peers0, e, now);
    }

    /** Events about connections leave the messages alone. */
    method LeaveMessages(x: Input, now: int64) returns (outs: seq<Out>, ghost e: Event)
      requires Valid() && CapturedOk() && CanHappen(env, View(), x) && (x.Occurs? ==> !AboutMessages(x.e)) &&
        !x.GossipTimer?
      modifies connManager, connManager.Peers(), captured.Values, this`jobs, this`issued, this`captured
      ensures Delivers(x, e) && !AboutMessages(e) && Enabled(env, old(View()), e) && Handled(e, now, outs)
      ensures ValidRings() == old(ValidRings()) && ValidRefs() == old(ValidRefs()) && Pushes() == old(Pushes())
      ensures RingNodes() == old(RingNodes()) && Waiting() == old(Waiting())
    {
      hide Step, StepConnection, StepMessage, AfterConnection, Enabled, CanHappen, Captures, Valid, ValidRings,
        ValidRefs;
      hide PushesOf, Ringbuffer.Valid, ConnectionManager.Valid, ConnectionManager.View, View, Handled, Delivers;
      ghost var invalid, valid, sent := invalidMessages.View(), validMessages.View(), sentMessages.View();
      outs, e := HandleConnection(x, now);
      assert PushesOf(invalid) == old(PushesOf(invalid));
      assert PushesOf(valid) == old(PushesOf(valid)) && PushesOf(sent) == old(PushesOf(sent));
    }

    lemma CapturedStays(captured0: ConnMap, s: Node, peers0: set<GossipConnection>, e: Event, now: int64)
      requires connManager.Valid() && Captures(captured0, s, peers0) && StepsTo(env, s, e, now, View())
      requires forall c :: c in connManager.Peers() ==> c in peers0 || e == NewConn(c.id)
      requires e.NewConn? ==> e.id !in captured0 && !s.conns.Has(e.id)
      requires if e.PowChall? && View().jobs != s.jobs
               then e.id in connManager.openConnectionsMap &&
                 captured == captured0[e.id := connManager.openConnectionsMap[e.id]]
               else captured == captured0
      ensures CapturedOk() && captured.Values <= captured0.Values + connManager.Peers()
      ensures forall id :: id in captured ==> id in captured0 || View().conns.Has(id)
    {
      var s' := View();
      Handshake.StepKeepsDisjoint(env, s, e, now, s');
      if e.PowChall? && s'.jobs != s.jobs {
        OnlyOpen(e.id);
      }
      CapturesKept(env, captured0, s, peers0, e, now, captured, s', connManager.Peers());
    }

    /** The loop. The views it goes through are a run of the state machine, and what it sends is what the steps of
        that run send. */
    method Listen(neighbours: set<ConnectionId>, xs: seq<Input>, nows: seq<int64>)
      returns (outs: seq<seq<Out>>, ghost t: Trace)
      requires Valid() && CapturedOk() && captured == map[] && View() == Started(neighbours)
      requires |xs| == |nows| && forall i, j :: 0 <= i <= j < |nows| ==> nows[i] <= nows[j]
      requires AllCanHappen(env, Started(neighbours), xs, nows, neighbours)
      modifies this, connManager, connManager.Peers(), captured.Values
      modifies invalidMessages, validMessages, sentMessages, RingNodes(), Waiting()
      ensures Valid() == CapturedOk() == old(Valid())
      ensures t.IsRun() && t.FreshIds() && t.env == env && t.neighbours == neighbours && t.nows == nows
      ensures View() == LastState(t) && |outs| == |t.events| == |xs|
      ensures forall i :: 0 <= i < |xs| ==> Delivers(xs[i], t.events[i]) && Sends(t, i, outs[i])
    {
      hide *;
      outs := [];
      t := Trace(env, neighbours, [View()], [], []);
      StartGoes(t, env, neighbours);
      ghost var used := neighbours;
      for i := 0 to |xs|
        invariant Valid() == CapturedOk() == true
        invariant forall n :: n in RingNodes() ==> n in old(RingNodes()) || fresh(n)
        invariant forall m :: m in Waiting() ==> m in old(Waiting()) || fresh(m)
        invariant forall c :: c in connManager.Peers() ==> c in old(connManager.Peers()) || fresh(c)
        invariant forall c :: c in captured.Values ==>
          c in old(captured.Values) || c in old(connManager.Peers()) || fresh(c)
        invariant Goes(t, env, neighbours, xs[..i], nows[..i], outs, used) && View() == LastState(t)
        invariant captured.Keys <= used && AllCanHappen(env, View(), xs[i..], nows[i..], used)
      {
        ghost var s, e := View(), TimeoutTick;
        AllGoOn(env, s, xs, nows, i, used, e);
        NewIdsAreNew(t, env, neighbours, xs[..i], nows[..i], outs, used, xs[i]);
        var out;
        out, e := Handle(xs[i], nows[i]);
        AllGoOn(env, s, xs, nows, i, used, e);
        GoesOn(t, env, neighbours, xs, nows, i, outs, used, e, out, View());
        outs := outs + [out];
        t := Continued(t, e, nows[i], View());
        used := used + NewIds(xs[i]);
        LastIdsUsed(t, env, neighbours, xs[..i + 1], nows[..i + 1], outs, used);
      }
      assert xs[..|xs|] == xs && nows[..|nows|] == nows;
      GoesMeans(t, env, neighbours, xs, nows, outs, used);
    }
  }

  /** What is left of the drained buffer when i messages have been removed in order. */
  function LeftToDrain<T>(drained: seq<T>, cap: nat, i: nat): seq<T>
    requires i <= |drained|
  {
    if cap < 2 && i > 0 then [] else drained[i..]
  }

  lemma DrainEnds(drained: seq<StoredMessage>, sent: seq<StoredMessage>, cap: nat)
    ensures LeftToDrain(drained, cap, 0) == drained && LeftToDrain(drained, cap, |drained|) == []
    ensures InsertedAll(sent, cap, drained[..0]) == sent && TickPushes([], []) == []
  {
  }

  lemma DrainStep(drained: seq<StoredMessage>, sent: seq<StoredMessage>, cap: nat, i: nat)
    requires i < |drained|
    ensures RingView.Removed(LeftToDrain(drained, cap, i), cap, drained[i]) == LeftToDrain(drained, cap, i + 1)
    ensures InsertedAll(sent, cap, drained[..i + 1]) == Inserted(InsertedAll(sent, cap, drained[..i]), cap, drained[i])
  {
    assert drained[..i + 1][..i] == drained[..i];
    assert drained[i..][0] == drained[i];
  }

  /** The ids of the first min(degree, number of peers) peers of a permutation. */
  function Row(peers: seq<GossipConnection>, perm: seq<nat>, degree: nat): (r: seq<ConnectionId>)
    requires IsPermutation(perm, |peers|)
  {
    seq(Min(degree, |peers|), i requires 0 <= i < Min(degree, |peers|) => peers[perm[i]].id)
  }

  function Rows(peers: seq<GossipConnection>, perms: seq<seq<nat>>, degree: nat): (r: seq<seq<ConnectionId>>)
    requires forall perm :: perm in perms ==> IsPermutation(perm, |peers|)
    ensures |r| == |perms| && forall i :: 0 <= i < |r| ==> r[i] == Row(peers, perms[i], degree)
  {
    seq(|perms|, i requires 0 <= i < |perms| => Row(peers, perms[i], degree))
  }

  function Ids(peers: seq<GossipConnection>): seq<ConnectionId> {
    seq(|peers|, i requires 0 <= i < |peers| => peers[i].id)
  }

  lemma IdsEnumerate(peers: seq<GossipConnection>, m: ConnMap)
    requires Agree(peers, m) && Keyed(m)
    ensures Enumerates(m.Keys, Ids(peers))
  {
    SliceCoversMap(peers, m);
  }

  lemma RowsChosen(peers: seq<GossipConnection>, m: ConnMap, perms: seq<seq<nat>>, degree: nat)
    requires Agree(peers, m) && Keyed(m) && forall perm :: perm in perms ==> IsPermutation(perm, |peers|)
    ensures forall i :: 0 <= i < |perms| ==> Chosen(m.Keys, degree, Rows(peers, perms, degree)[i])
  {
    SliceCoversMap(peers, m);
    forall i | 0 <= i < |perms| ensures Chosen(m.Keys, degree, Rows(peers, perms, degree)[i]) {
      RowChosen(peers, m, perms[i], degree);
    }
  }

  lemma RowChosen(peers: seq<GossipConnection>, m: ConnMap, perm: seq<nat>, degree: nat)
    requires Agree(peers, m) && |peers| == |m.Keys| && IsPermutation(perm, |peers|)
    ensures Chosen(m.Keys, degree, Row(peers, perm, degree))
  {
    forall i, j | 0 <= i < j < Min(degree, |peers|) ensures peers[perm[i]].id != peers[perm[j]].id {
      assert perm[i] < perm[j] || perm[j] < perm[i];
    }
  }

  lemma TickGrows(pushes: seq<Push>, rows: seq<seq<ConnectionId>>, i: nat)
    requires i < |pushes| == |rows|
    ensures TickPushes(pushes[..i + 1], rows[..i + 1]) ==
      TickPushes(pushes[..i], rows[..i]) + PushesTo(pushes[i], rows[i])
  {
    assert pushes[..i + 1][..i] == pushes[..i] && rows[..i + 1][..i] == rows[..i];
  }

  /** The slice has as many connections as the map. */
  lemma {:induction false} SliceCoversMap(s: seq<GossipConnection>, m: ConnMap)
    requires Agree(s, m) && Keyed(m)
    ensures |s| == |m.Keys|
    decreases |s|
  {
    if s == [] {
      assert m.Keys == {};
    } else {
      var last := |s| - 1;
      var id := s[last].id;
      SwapRemovedAgrees(s, m, last);
      assert SwapRemoved(s, last) == s[..last];
      SliceCoversMap(s[..last], m - {id});
      assert m.Keys == (m - {id}).Keys + {id};
    }
  }

  ghost predicate DisjointSeqs<T>(a: seq<T>, b: seq<T>) {
    forall x :: x in a ==> x !in b
  }
}
