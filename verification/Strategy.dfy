/** One gossip node as a state machine over the events of its loop. */
module Strategy {
  import opened Basics
  import opened Bytes
  import opened RingView
  import opened Cookies
  import opened ProofOfWork
  import opened Connections

  const POW_TIMEOUT: int := 7_000_000_000  // nanoseconds

  datatype Push = Push(ttl: byte, gossipType: uint16, messageId: uint16, payload: bytes)

  /** What a node is started with: its cipher, the hash, and the two strategy arguments. */
  datatype Env = Env(aead: Aead, hash: Hash, cap: nat, degree: nat)

  /** A started proof-of-work computation, which ends in a step of its own. */
  datatype Job = ConnJob(id: ConnectionId, cookie: bytes) | RenewJob(id: ConnectionId, cookie: bytes)

  /** `issued` is a history variable: the cookies this node has created. */
  datatype Node = Node(
    conns: Conns,
    invalid: seq<Push>,
    valid: seq<Push>,
    sent: seq<Push>,
    jobs: multiset<Job>,
    issued: set<bytes>)

  datatype HzMsg =
    | MPush(push: Push)
    | MConnChall(cookie: bytes)
    | MConnPoW(nonce: uint64, cookie: bytes)
    | MPowReq
    | MPowChall(cookie: bytes)
    | MPowPoW(nonce: uint64, cookie: bytes)

  datatype Out =
    | ToPeer(id: ConnectionId, msg: HzMsg)
    | Notify(messageId: uint16, dataType: uint16, data: bytes)
    | Close(id: ConnectionId)

  /** The events of the loop. Random draws, the scheduler's choices and what a finished job found
      are part of the event: the cipher nonce `chall`, the id of an announced message, the peers
      chosen for each message of a gossip tick, the job that ends. */
  datatype Event =
    | Unregister(id: ConnectionId)
    | NewConn(id: ConnectionId)
    | PushMsg(id: ConnectionId, push: Push)
    | ConnReq(id: ConnectionId, chall: bytes)
    | ConnChall(id: ConnectionId, cookie: bytes)
    | ConnPoW(id: ConnectionId, nonce: uint64, cookie: bytes)
    | PowReq(id: ConnectionId, chall: bytes)
    | PowChall(id: ConnectionId, cookie: bytes)
    | PowPoW(id: ConnectionId, nonce: uint64, cookie: bytes)
    | JobDone(job: Job, nonce: uint64, closed: bool)
    | Announce(ttl: byte, dataType: uint16, data: bytes, messageId: uint16)
    | Validation(messageId: uint16, isValid: bool)
    | GossipTick(chosen: seq<seq<ConnectionId>>)
    | RenewalTick(order: seq<ConnectionId>)
    | TimeoutTick

  function FirstWithId(s: seq<Push>, messageId: uint16): (r: Option<Push>)
    ensures r.Some? ==> r.value in s && r.value.messageId == messageId
    ensures r.None? ==> forall p :: p in s ==> p.messageId != messageId
  {
    if s == [] then None
    else if s[0].messageId == messageId then Some(s[0])
    else FirstWithId(s[1..], messageId)
  }

  predicate Holds(s: seq<Push>, messageId: uint16) {
    FirstWithId(s, messageId).Some?
  }

  /** The message id is in one of the three buffers. */
  predicate Known(s: Node, messageId: uint16) {
    Holds(s.sent, messageId) || Holds(s.valid, messageId) || Holds(s.invalid, messageId)
  }

  /** max(ttl - 1, 0) on a uint8: zero wraps around. */
  function DecrementedTtl(ttl: byte): byte {
    if ttl == 0 then 255 else ttl - 1
  }

  function AnnouncedPush(e: Event): Push
    requires e.Announce?
  {
    Push(e.ttl, e.dataType, e.messageId, e.data)
  }

  function NewCookie(e: Event, now: int64): Cookie
    requires e.ConnReq? || e.PowReq?
  {
    Cookie(e.chall, now, e.id)
  }

  function PushesTo(p: Push, ids: seq<ConnectionId>): (r: seq<Out>)
    ensures |r| == |ids| && forall i :: 0 <= i < |ids| ==> r[i] == ToPeer(ids[i], MPush(p))
  {
    seq(|ids|, i requires 0 <= i < |ids| => ToPeer(ids[i], MPush(p)))
  }

  function TickPushes(drained: seq<Push>, chosen: seq<seq<ConnectionId>>): seq<Out>
    requires |drained| == |chosen|
    decreases |drained|
  {
    if drained == [] then []
    else
      var n := |drained| - 1;
      TickPushes(drained[..n], chosen[..n]) + PushesTo(drained[n], chosen[n])
  }

  function Requests(order: seq<ConnectionId>): seq<Out> {
    seq(|order|, i requires 0 <= i < |order| => ToPeer(order[i], MPowReq))
  }

  /** A cookie this node can read that names the sender, with a nonce that meets the check. */
  predicate ProofOk(env: Env, id: ConnectionId, nonce: uint64, cookie: bytes)
    requires Readable(env.aead, cookie)
  {
    var c := ReadCookie(env.aead, cookie);
    c.Some? && CheckProofOfWork(env.hash, First8bits0, Layout([], cookie), nonce) && c.value.dest == id
  }

  function Expired(now: int): Peer -> bool {
    (peer: Peer) => !(now - peer.timestamp < POW_TIMEOUT)
  }

  /** The first min(degree, number of open peers) entries of a permutation of the open peers. */
  predicate Chosen(open: set<ConnectionId>, degree: nat, ids: seq<ConnectionId>) {
    && Distinct(ids) && |ids| == Min(degree, |open|)
    && forall i :: 0 <= i < |ids| ==> ids[i] in open
  }

  predicate Enumerates(open: set<ConnectionId>, ids: seq<ConnectionId>) {
    Distinct(ids) && |ids| == |open| && forall i :: 0 <= i < |ids| ==> ids[i] in open
  }

  /** The events that can occur: a drawn nonce has the cipher's nonce size, a random choice is one
      the scheduler can make, and a cookie is long enough for the loop's slice expressions. */
  predicate Enabled(env: Env, s: Node, e: Event) {
    match e
    case ConnReq(_, chall) => |chall| == NONCE_SIZE
    case PowReq(_, chall) => |chall| == NONCE_SIZE
    case ConnPoW(id, _, cookie) => id in s.conns.inProgress ==> Readable(env.aead, cookie)
    case PowPoW(id, _, cookie) => id in s.conns.open ==> Readable(env.aead, cookie)
    case JobDone(job, _, _) => job in s.jobs
    case GossipTick(chosen) => |chosen| == |s.valid| && forall i :: 0 <= i < |chosen| ==>
      Chosen(s.conns.open.Keys, env.degree, chosen[i])
    case RenewalTick(order) => Enumerates(s.conns.open.Keys, order)
    case _ => true
  }

  function Dropped(s: Node, id: ConnectionId): Node {
    s.(conns := s.conns.Remove(id))
  }

  function StepConnection(env: Env, s: Node, e: Event, now: int64): (Node, seq<Out>)
    requires Enabled(env, s, e)
  {
    match e
    case Unregister(id) => (Dropped(s, id), if s.conns.Has(id) then [Close(id)] else [])
    case NewConn(id) => (s.(conns := s.conns.AddInProgress(id)), [])
    case ConnReq(id, chall) =>
      if id !in s.conns.inProgress then (s, [])
      else
        var cookie := CreateCookie(env.aead, NewCookie(e, now));
        (s.(issued := s.issued + {cookie}), [ToPeer(id, MConnChall(cookie))])
    case ConnChall(id, cookie) =>
      if id !in s.conns.toBeProved then (Dropped(s, id), [])
      else (s.(jobs := s.jobs + multiset{ConnJob(id, cookie)}), [])
    case ConnPoW(id, nonce, cookie) =>
      if id !in s.conns.inProgress || !ProofOk(env, id, nonce, cookie) then (Dropped(s, id), [])
      else
        var timestamp := ReadCookie(env.aead, cookie).value.timestamp;
        if now - timestamp > POW_TIMEOUT then (Dropped(s, id), [])
        else (s.(conns := s.conns.MakeValid(id, timestamp)), [])
    case PowReq(id, chall) =>
      if id !in s.conns.open then (s, [])
      else
        var cookie := CreateCookie(env.aead, NewCookie(e, now));
        (s.(issued := s.issued + {cookie}), [ToPeer(id, MPowChall(cookie))])
    case PowChall(id, cookie) =>
      if id !in s.conns.open || !s.conns.open[id].sentPowReq then (Dropped(s, id), [])
      else (s.(jobs := s.jobs + multiset{RenewJob(id, cookie)}), [])
    case PowPoW(id, nonce, cookie) =>
      if id !in s.conns.open || !ProofOk(env, id, nonce, cookie) then (Dropped(s, id), [])
      else (s.(conns := s.conns.MakeValid(id, ReadCookie(env.aead, cookie).value.timestamp)), [])
    case JobDone(job, nonce, closed) =>
      var s' := s.(jobs := s.jobs - multiset{job});
      if closed then (s', [])
      else if job.ConnJob? then
        (s'.(conns := s.conns.MakeValid(job.id, now)), [ToPeer(job.id, MConnPoW(nonce, job.cookie))])
      else
        (s'.(conns := s.conns.SetSentPowReq(job.id, false)), [ToPeer(job.id, MPowPoW(nonce, job.cookie))])
    case RenewalTick(order) => (s.(conns := s.conns.AllSentPowReq()), Requests(order))
    case TimeoutTick => (s.(conns := s.conns.Cull(Expired(now))), [])
    case _ => (s, [])
  }

  function StepMessage(env: Env, s: Node, e: Event): (Node, seq<Out>)
    requires Enabled(env, s, e)
  {
    match e
    case PushMsg(id, push) =>
      if id !in s.conns.open || Known(s, push.messageId) then (s, [])
      else (s.(invalid := Inserted(s.invalid, env.cap, push)), [Notify(push.messageId, push.gossipType, push.payload)])
    case Announce(_, _, _, _) => (s.(valid := Inserted(s.valid, env.cap, AnnouncedPush(e))), [])
    case Validation(messageId, isValid) =>
      var found := FirstWithId(s.invalid, messageId);
      if found.None? then (s, [])
      else
        var s' := s.(invalid := RingView.Removed(s.invalid, env.cap, found.value));
        if !isValid then (s', [])
        else if found.value.ttl == 1 then (s'.(sent := Inserted(s.sent, env.cap, found.value)), [])
        else (s'.(valid := Inserted(s.valid, env.cap, found.value.(ttl := DecrementedTtl(found.value.ttl)))), [])
    case GossipTick(chosen) =>
      (s.(valid := [], sent := InsertedAll(s.sent, env.cap, s.valid)), TickPushes(s.valid, chosen))
    case _ => (s, [])
  }

  predicate AboutMessages(e: Event) {
    e.PushMsg? || e.Announce? || e.Validation? || e.GossipTick?
  }

  /** One turn of the loop (or the end of a job) at time `now`: the new state and what is sent. */
  function Step(env: Env, s: Node, e: Event, now: int64): (Node, seq<Out>)
    requires Enabled(env, s, e)
  {
    if AboutMessages(e) then StepMessage(env, s, e) else StepConnection(env, s, e, now)
  }

  function Started(neighbours: set<ConnectionId>): Node {
    Node(Conns(map id | id in neighbours :: Peer(0, false), map[], map[]), [], [], [], multiset{}, {})
  }

  /** A run of the loop from its start: states[i] is the state before events[i], which happens at
      nows[i]; the clock never goes back. */
  datatype Trace = Trace(env: Env, neighbours: set<ConnectionId>, states: seq<Node>, events: seq<Event>,
          nows: seq<int64>) {
    ghost predicate IsRun() {
      && |states| == |events| + 1 && |nows| == |events|
      && states[0] == Started(neighbours)
      && (forall i :: 0 <= i < |events| ==> StepsTo(env, states[i], events[i], nows[i], states[i + 1]))
      && (forall i, j :: 0 <= i <= j < |nows| ==> nows[i] <= nows[j])
    }

    /** Remote addresses are not reused: a new connection's id was in no map before. */
    ghost predicate FreshIds()
      requires IsRun()
    {
      forall i, j :: 0 <= j <= i < |events| && events[i].NewConn? ==> !states[j].conns.Has(events[i].id)
    }

    /** Ideal encryption: what opens under this node's key is a cookie this node created. */
    ghost predicate NoForgery()
      requires IsRun()
    {
      forall i :: 0 <= i < |events| && events[i].ConnPoW? && Opens(env, events[i].cookie) ==>
        events[i].cookie in states[i].issued
    }
  }

  predicate Opens(env: Env, cookie: bytes) {
    Readable(env.aead, cookie) && ReadCookie(env.aead, cookie).Some?
  }

  ghost predicate StepsTo(env: Env, s: Node, e: Event, now: int64, s': Node) {
    Enabled(env, s, e) && s' == Step(env, s, e, now).0
  }

  /** A run that goes on with one more event. */
  function Continued(t: Trace, e: Event, now: int64, s: Node): Trace {
    t.(states := t.states + [s], events := t.events + [e], nows := t.nows + [now])
  }

  function LastState(t: Trace): Node {
    if t.states == [] then Started(t.neighbours) else t.states[|t.states| - 1]
  }

  lemma ContinuedIsRun(t: Trace, e: Event, now: int64, s: Node)
    requires t.IsRun() && StepsTo(t.env, LastState(t), e, now, s)
    requires forall i :: 0 <= i < |t.nows| ==> t.nows[i] <= now
    ensures Continued(t, e, now, s).IsRun()
  {
    var more := Continued(t, e, now, s);
    forall i | 0 <= i < |more.events|
      ensures StepsTo(more.env, more.states[i], more.events[i], more.nows[i], more.states[i + 1])
    {
      if i < |t.events| {
        assert StepsTo(t.env, t.states[i], t.events[i], t.nows[i], t.states[i + 1]);
      } else {
        assert more.states[i] == LastState(t) && more.events[i] == e && more.nows[i] == now && more.states[i + 1] == s;
      }
    }
  }
}
