/** The life of a single connection: over whole runs, each connection follows an automaton of its own, whatever
    happens to the others. */
module Sessions {
  import opened Basics
  import opened Bytes
  import opened Cookies
  import opened ProofOfWork
  import opened Connections
  import opened Strategy
  import opened Handshake

  datatype Phase = Away | Outgoing(peer: Peer) | Incoming(peer: Peer) | Connected(peer: Peer)

  function PhaseOf(c: Conns, id: ConnectionId): Phase {
    if id in c.toBeProved then Outgoing(c.toBeProved[id])
    else if id in c.inProgress then Incoming(c.inProgress[id])
    else if id in c.open then Connected(c.open[id])
    else Away
  }

  // ---- the check of a proof, on bytes ----

  /** What the cookie decrypts to with its first 24 bytes as the cipher's nonce, if it is long enough. */
  function Text(env: Env, cookie: bytes): Option<bytes> {
    if |cookie| < 24 then None
    else
      var text := env.aead.Open(cookie[..24], cookie[24..]);
      if text.Some? && |text.value| >= 32 then text else None
  }

  /** The cookie decrypts to one for this destination, and its hash with the nonce starts with a zero byte. */
  predicate Passes(env: Env, id: ConnectionId, nonce: uint64, cookie: bytes) {
    Text(env, cookie).Some? && Text(env, cookie).value[32..] == id && env.hash(cookie + BE64(nonce))[0] == 0
  }

  /** The time in the first eight bytes. */
  function Stamp(env: Env, cookie: bytes): int
    requires Text(env, cookie).Some?
  {
    ToInt64(ReadBE64(Text(env, cookie).value[..8]))
  }

  lemma ProofMeans(env: Env, id: ConnectionId, nonce: uint64, cookie: bytes)
    requires Readable(env.aead, cookie)
    ensures ProofOk(env, id, nonce, cookie) <==> Passes(env, id, nonce, cookie)
    ensures Passes(env, id, nonce, cookie) ==>
      ReadCookie(env.aead, cookie).Some? && ReadCookie(env.aead, cookie).value.timestamp == Stamp(env, cookie)
  {
    SolvesMeans(env.hash, cookie, nonce);
  }

  // ---- one connection alone ----

  /** What an event at time `now` does to a connection: seven seconds is the time a proof has to arrive in, and the
      age at which a connection times out. */
  function Next(env: Env, id: ConnectionId, ph: Phase, e: Event, now: int64): Phase {
    match e
    case Unregister(x) => if x == id then Away else ph
    case NewConn(x) => if x == id then Incoming(Peer(0, false)) else ph
    case ConnChall(x, _) => if x == id && !ph.Outgoing? then Away else ph
    case ConnPoW(x, nonce, cookie) =>
      if x != id then ph
      else if ph.Incoming? && Passes(env, id, nonce, cookie) && now - Stamp(env, cookie) <= 7_000_000_000 then
        Connected(Peer(Stamp(env, cookie), ph.peer.sentPowReq))
      else Away
    case PowChall(x, _) => if x == id && !(ph.Connected? && ph.peer.sentPowReq) then Away else ph
    case PowPoW(x, nonce, cookie) =>
      if x != id then ph
      else if ph.Connected? && Passes(env, id, nonce, cookie) then
        Connected(Peer(Stamp(env, cookie), ph.peer.sentPowReq))
      else Away
    case JobDone(ConnJob(x, _), _, false) =>
      if x == id && !ph.Away? then Connected(Peer(now, ph.peer.sentPowReq)) else ph
    case JobDone(RenewJob(x, _), _, false) =>
      if x == id && ph.Connected? then Connected(Peer(ph.peer.timestamp, false)) else ph
    case RenewalTick(_) => if ph.Connected? then Connected(Peer(ph.peer.timestamp, true)) else ph
    case TimeoutTick => if ph.Connected? && now - ph.peer.timestamp >= 7_000_000_000 then Away else ph
    case _ => ph
  }

  lemma PhaseRemoved(c: Conns, x: ConnectionId, id: ConnectionId)
    requires c.Disjoint()
    ensures PhaseOf(c.Remove(x), id) == if x == id then Away else PhaseOf(c, id)
  {
  }

  lemma PhaseMadeValid(c: Conns, x: ConnectionId, timestamp: int, id: ConnectionId)
    requires c.Disjoint()
    ensures PhaseOf(c.MakeValid(x, timestamp), id) ==
      if x == id && c.Has(id) then Connected(Peer(timestamp, PhaseOf(c, id).peer.sentPowReq)) else PhaseOf(c, id)
  {
  }

  lemma PhaseAdded(c: Conns, x: ConnectionId, id: ConnectionId)
    requires c.Disjoint() && !c.Has(x)
    ensures PhaseOf(c.AddInProgress(x), id) == if x == id then Incoming(Peer(0, false)) else PhaseOf(c, id)
  {
  }

  lemma PhaseRequested(c: Conns, x: ConnectionId, id: ConnectionId)
    requires c.Disjoint()
    ensures PhaseOf(c.SetSentPowReq(x, false), id) ==
      if x == id && id in c.open then Connected(Peer(PhaseOf(c, id).peer.timestamp, false)) else PhaseOf(c, id)
    ensures PhaseOf(c.AllSentPowReq(), id) ==
      if id in c.open then Connected(Peer(PhaseOf(c, id).peer.timestamp, true)) else PhaseOf(c, id)
  {
  }

  lemma PhaseCulled(c: Conns, now: int, id: ConnectionId)
    requires c.Disjoint()
    ensures PhaseOf(c.Cull(Expired(now)), id) ==
      if id in c.open && now - c.open[id].timestamp >= 7_000_000_000 then Away else PhaseOf(c, id)
  {
  }

  lemma PhaseMeans(c: Conns, id: ConnectionId)
    requires c.Disjoint()
    ensures PhaseOf(c, id).Away? <==> !c.Has(id)
    ensures PhaseOf(c, id).Outgoing? <==> id in c.toBeProved
    ensures PhaseOf(c, id).Incoming? <==> id in c.inProgress
    ensures PhaseOf(c, id).Connected? <==> id in c.open
    ensures id in c.toBeProved ==> PhaseOf(c, id) == Outgoing(c.toBeProved[id])
    ensures id in c.inProgress ==> PhaseOf(c, id) == Incoming(c.inProgress[id])
    ensures id in c.open ==> PhaseOf(c, id) == Connected(c.open[id])
  {
  }

  lemma ProofStep(env: Env, s: Node, e: Event, now: int64, s': Node, id: ConnectionId)
    requires StepsTo(env, s, e, now, s') && s.conns.Disjoint() && (e.ConnPoW? || e.PowPoW?)
    ensures PhaseOf(s'.conns, id) == Next(env, id, PhaseOf(s.conns, id), e, now)
  {
    hide PhaseOf, ProofOk, Passes, Stamp, Text, ReadCookie, StepMessage, Conns.Remove, Conns.MakeValid, Conns.Disjoint;
    PhaseMeans(s.conns, id);
    PhaseMeans(s.conns, e.id);
    PhaseRemoved(s.conns, e.id, id);
    if (if e.ConnPoW? then e.id in s.conns.inProgress else e.id in s.conns.open) {
      ProofMeans(env, e.id, e.nonce, e.cookie);
      if Passes(env, e.id, e.nonce, e.cookie) {
        PhaseMadeValid(s.conns, e.id, ReadCookie(env.aead, e.cookie).value.timestamp, id);
      }
    }
  }

  lemma JobStep(env: Env, s: Node, e: Event, now: int64, s': Node, id: ConnectionId)
    requires StepsTo(env, s, e, now, s') && s.conns.Disjoint() && e.JobDone?
    ensures PhaseOf(s'.conns, id) == Next(env, id, PhaseOf(s.conns, id), e, now)
  {
    hide PhaseOf, StepMessage, Conns.MakeValid, Conns.SetSentPowReq, Conns.Disjoint;
    PhaseMeans(s.conns, id);
    PhaseMadeValid(s.conns, e.job.id, now, id);
    PhaseRequested(s.conns, e.job.id, id);
  }

  lemma OtherStep(env: Env, s: Node, e: Event, now: int64, s': Node, id: ConnectionId)
    requires StepsTo(env, s, e, now, s') && s.conns.Disjoint() && !e.ConnPoW? && !e.PowPoW? && !e.JobDone?
    requires e.NewConn? ==> !s.conns.Has(e.id)
    ensures PhaseOf(s'.conns, id) == Next(env, id, PhaseOf(s.conns, id), e, now)
  {
    hide PhaseOf, StepMessage, Conns.Remove, Conns.AddInProgress, Conns.AllSentPowReq, Conns.Cull, Conns.Disjoint;
    PhaseMeans(s.conns, id);
    PhaseRequested(s.conns, id, id);
    PhaseCulled(s.conns, now, id);
    if e.NewConn? {
      PhaseAdded(s.conns, e.id, id);
    } else if e.Unregister? || e.ConnChall? || e.PowChall? {
      PhaseMeans(s.conns, e.id);
      PhaseRemoved(s.conns, e.id, id);
    } else if AboutMessages(e) {
      MessagesKeepConns(env, s, e, now, s');
    }
  }

  lemma MessagesKeepConns(env: Env, s: Node, e: Event, now: int64, s': Node)
    requires StepsTo(env, s, e, now, s') && AboutMessages(e)
    ensures s'.conns == s.conns && s'.jobs == s.jobs && s'.issued == s.issued
  {
  }

  /** In every run each connection follows its automaton. */
  lemma EachAlone(t: Trace, i: nat, id: ConnectionId)
    requires t.IsRun() && t.FreshIds() && i < |t.events|
    ensures PhaseOf(t.states[i + 1].conns, id)
         == Next(t.env, id, PhaseOf(t.states[i].conns, id), t.events[i], t.nows[i])
  {
    hide Step, StepMessage, StepConnection, Enabled, PhaseOf, Next;
    var s, e, now, s' := t.states[i], t.events[i], t.nows[i], t.states[i + 1];
    AlwaysDisjoint(t, i);
    assert StepsTo(t.env, s, e, now, s');
    if e.ConnPoW? || e.PowPoW? {
      ProofStep(t.env, s, e, now, s', id);
    } else if e.JobDone? {
      JobStep(t.env, s, e, now, s', id);
    } else {
      OtherStep(t.env, s, e, now, s', id);
    }
  }

  // ---- what that means for a run ----

  /** What an event does to the connection, in terms of the three maps. */
  lemma StepOfOne(t: Trace, i: nat, id: ConnectionId) returns (ph: Phase)
    requires t.IsRun() && t.FreshIds() && i < |t.events|
    ensures ph == PhaseOf(t.states[i].conns, id)
    ensures t.states[i].conns.Disjoint() && t.states[i + 1].conns.Disjoint()
    ensures PhaseOf(t.states[i + 1].conns, id) == Next(t.env, id, ph, t.events[i], t.nows[i])
  {
    hide Step, StepMessage, StepConnection, Enabled, PhaseOf, Next;
    ph := PhaseOf(t.states[i].conns, id);
    AlwaysDisjoint(t, i);
    AlwaysDisjoint(t, i + 1);
    EachAlone(t, i, id);
  }

  /** The events that can move a connection: its own messages, except the two that only ask for a challenge. */
  predicate Moves(e: Event, id: ConnectionId) {
    match e
    case Unregister(x) => x == id
    case ConnChall(x, _) => x == id
    case ConnPoW(x, _, _) => x == id
    case PowChall(x, _) => x == id
    case PowPoW(x, _, _) => x == id
    case _ => false
  }

  /** No handshake job ever ends for a connection that came in. */
  lemma NoJobForIncoming(t: Trace, k: nat, i: nat, id: ConnectionId)
    requires t.IsRun() && t.FreshIds() && k < |t.events| && t.events[k] == NewConn(id) && i < |t.events|
    requires StepsTo(t.env, t.states[i], t.events[i], t.nows[i], t.states[i + 1])
    ensures t.events[i].JobDone? ==> !(t.events[i].job.ConnJob? && t.events[i].job.id == id)
  {
    hide Step, StepMessage, StepConnection;
    OutgoingAreNeighbours(t, i, id);
    assert id in t.neighbours ==> t.states[0].conns.Has(id);
  }

  /** A new connection is in progress, and stays so until a message of its own moves it. */
  lemma {:induction false} StaysInProgress(t: Trace, k: nat, j: nat, id: ConnectionId)
    requires t.IsRun() && t.FreshIds() && k < j < |t.states| && t.events[k] == NewConn(id)
    requires forall i :: k < i < j ==> !Moves(t.events[i], id)
    ensures id in t.states[j].conns.inProgress && t.states[j].conns.inProgress[id] == Peer(0, false)
    ensures id !in t.states[j].conns.toBeProved && id !in t.states[j].conns.open
  {
    hide Step, StepMessage, StepConnection, Enabled, PhaseOf, Conns.Disjoint;
    if k < j - 1 {
      StaysInProgress(t, k, j - 1, id);
    }
    assert StepsTo(t.env, t.states[j - 1], t.events[j - 1], t.nows[j - 1], t.states[j]);
    NoJobForIncoming(t, k, j - 1, id);
    var ph := StepOfOne(t, j - 1, id);
    PhaseMeans(t.states[j - 1].conns, id);
    PhaseMeans(t.states[j].conns, id);
  }

  function Sent(t: Trace, i: nat): seq<Out>
    requires i < |t.events| == |t.nows| == |t.states| - 1 && Enabled(t.env, t.states[i], t.events[i])
  {
    Step(t.env, t.states[i], t.events[i], t.nows[i]).1
  }

  lemma IsEnabled(t: Trace, i: nat)
    requires t.IsRun() && i < |t.events|
    ensures Enabled(t.env, t.states[i], t.events[i])
    ensures t.states[i + 1] == Step(t.env, t.states[i], t.events[i], t.nows[i]).0
  {
    assert StepsTo(t.env, t.states[i], t.events[i], t.nows[i], t.states[i + 1]);
  }

  /** The cookie made for this request; its answers pass. */
  function FreshCookie(env: Env, id: ConnectionId, chall: bytes, now: int64): bytes {
    CreateCookie(env.aead, Cookie(chall, now, id))
  }

  lemma OwnCookiePasses(env: Env, id: ConnectionId, chall: bytes, now: int64, nonce: uint64)
    requires env.aead.Correct() && |chall| == NONCE_SIZE && Computed(env.hash, FreshCookie(env, id, chall, now), nonce)
    ensures Passes(env, id, nonce, FreshCookie(env, id, chall, now))
    ensures Stamp(env, FreshCookie(env, id, chall, now)) == now
  {
    hide Computed, CheckProofOfWork;
    var cookie := FreshCookie(env, id, chall, now);
    ReadsBackCreated(env.aead, Cookie(chall, now, id));
    ComputedPasses(env.hash, cookie, nonce);
    ProofMeans(env, id, nonce, cookie);
  }

  /** From its first contact on: a peer that connects in event n, asks for a cookie in event k and returns it in
      event j with a nonce that ComputePoW can give for it, and sends nothing else that moves its connection, gets
      its cookie, and its connection opens with the cookie's time if the answer comes within seven seconds, and is
      gone if not. Whatever happened to all the other connections meanwhile. */
  lemma HonestPeerConnects(t: Trace, n: nat, k: nat, j: nat, id: ConnectionId, chall: bytes, nonce: uint64)
    requires t.IsRun() && t.FreshIds() && t.env.aead.Correct()
    requires n < k < j < |t.events| && t.events[n] == NewConn(id) && t.events[k] == ConnReq(id, chall)
    requires var c := FreshCookie(t.env, id, chall, t.nows[k]);
      t.events[j] == ConnPoW(id, nonce, c) && Computed(t.env.hash, c, nonce)
    requires forall i :: n < i < j ==> !Moves(t.events[i], id)
    ensures Enabled(t.env, t.states[k], t.events[k])
    ensures Sent(t, k) == [ToPeer(id, MConnChall(FreshCookie(t.env, id, chall, t.nows[k])))]
    ensures if t.nows[j] as int - t.nows[k] <= 7_000_000_000
            then id in t.states[j + 1].conns.open && t.states[j + 1].conns.open[id] == Peer(t.nows[k], false)
            else !t.states[j + 1].conns.Has(id)
  {
    hide Step, StepMessage, StepConnection, Enabled, Computed, FreshCookie, Passes, Stamp;
    IsEnabled(t, k);
    StaysInProgress(t, n, k, id);
    StaysInProgress(t, n, j, id);
    RequestAnswered(t, k, id, chall);
    OwnCookiePasses(t.env, id, chall, t.nows[k], nonce);
    ProofInTimeOpens(t, j, id, nonce, FreshCookie(t.env, id, chall, t.nows[k]));
  }

  /** A passing proof opens its connection with the cookie's time if it is in time; else the id is gone. */
  lemma ProofInTimeOpens(t: Trace, j: nat, id: ConnectionId, nonce: uint64, cookie: bytes)
    requires t.IsRun() && t.FreshIds() && j < |t.events| && t.events[j] == ConnPoW(id, nonce, cookie)
    requires id in t.states[j].conns.inProgress && Passes(t.env, id, nonce, cookie)
    ensures if t.nows[j] - Stamp(t.env, cookie) <= 7_000_000_000
            then id in t.states[j + 1].conns.open && t.states[j + 1].conns.open[id]
              == Peer(Stamp(t.env, cookie), t.states[j].conns.inProgress[id].sentPowReq)
            else !t.states[j + 1].conns.Has(id)
  {
    hide Step, StepMessage, StepConnection, Enabled, PhaseOf, Passes, Stamp, Text, Conns.Disjoint;
    var ph := StepOfOne(t, j, id);
    PhaseMeans(t.states[j].conns, id);
    PhaseMeans(t.states[j + 1].conns, id);
  }

  /** A request of a connection in progress is answered with a new cookie for it. */
  lemma RequestAnswered(t: Trace, k: nat, id: ConnectionId, chall: bytes)
    requires t.IsRun() && k < |t.events| && Enabled(t.env, t.states[k], t.events[k])
    requires t.events[k] == ConnReq(id, chall) && id in t.states[k].conns.inProgress
    ensures |chall| == NONCE_SIZE
    ensures Sent(t, k) == [ToPeer(id, MConnChall(FreshCookie(t.env, id, chall, t.nows[k])))]
  {
  }

  lemma RenewalAnswered(t: Trace, k: nat, id: ConnectionId, chall: bytes)
    requires t.IsRun() && k < |t.events| && Enabled(t.env, t.states[k], t.events[k])
    requires t.events[k] == PowReq(id, chall) && id in t.states[k].conns.open
    ensures |chall| == NONCE_SIZE
    ensures Sent(t, k) == [ToPeer(id, MPowChall(FreshCookie(t.env, id, chall, t.nows[k])))]
  {
  }

  /** An open peer that asks for a renewal in event k and returns the cookie it gets in event j, still open then,
      with a nonce that ComputePoW can give for it, is open afterwards with the time of its request: however long
      that is ago. */
  lemma HonestRenewal(t: Trace, k: nat, j: nat, id: ConnectionId, chall: bytes, nonce: uint64)
    requires t.IsRun() && t.FreshIds() && t.env.aead.Correct()
    requires k < j < |t.events| && t.events[k] == PowReq(id, chall) && id in t.states[k].conns.open
    requires var c := FreshCookie(t.env, id, chall, t.nows[k]);
      t.events[j] == PowPoW(id, nonce, c) && Computed(t.env.hash, c, nonce) && id in t.states[j].conns.open
    ensures Enabled(t.env, t.states[k], t.events[k])
    ensures Sent(t, k) == [ToPeer(id, MPowChall(FreshCookie(t.env, id, chall, t.nows[k])))]
    ensures id in t.states[j + 1].conns.open
    ensures t.states[j + 1].conns.open[id] == Peer(t.nows[k], t.states[j].conns.open[id].sentPowReq)
  {
    hide StepMessage, StepConnection, Computed, PhaseOf, Passes, Stamp, FreshCookie, Conns.Disjoint;
    IsEnabled(t, k);
    RenewalAnswered(t, k, id, chall);
    OwnCookiePasses(t.env, id, chall, t.nows[k], nonce);
    var ph := StepOfOne(t, j, id);
    PhaseMeans(t.states[j].conns, id);
    PhaseMeans(t.states[j + 1].conns, id);
  }

  /** A renewed proof keeps its connection exactly if it is open and the proof passes; if not, the id is gone. */
  lemma RenewalKeptIff(t: Trace, j: nat, id: ConnectionId, nonce: uint64, cookie: bytes)
    requires t.IsRun() && t.FreshIds() && j < |t.events| && t.events[j] == PowPoW(id, nonce, cookie)
    ensures t.states[j + 1].conns.Has(id) <==> id in t.states[j].conns.open && Passes(t.env, id, nonce, cookie)
    ensures t.states[j + 1].conns.Has(id) ==> id in t.states[j + 1].conns.open
  {
    hide Step, StepMessage, StepConnection, Enabled, PhaseOf, Passes, Stamp, Conns.Disjoint;
    var ph := StepOfOne(t, j, id);
    PhaseMeans(t.states[j].conns, id);
    PhaseMeans(t.states[j + 1].conns, id);
  }

  // ---- timing out ----

  /** A timeout tick closes exactly the open connections with a timestamp at least seven seconds old, and changes
      nothing about the others. */
  lemma TickClosesExactly(t: Trace, k: nat, id: ConnectionId)
    requires t.IsRun() && t.FreshIds() && k < |t.events| && t.events[k].TimeoutTick?
    ensures id in t.states[k + 1].conns.open <==>
      id in t.states[k].conns.open && t.nows[k] - t.states[k].conns.open[id].timestamp < 7_000_000_000
    ensures id in t.states[k + 1].conns.open ==> t.states[k + 1].conns.open[id] == t.states[k].conns.open[id]
    ensures id !in t.states[k].conns.open ==> PhaseOf(t.states[k + 1].conns, id) == PhaseOf(t.states[k].conns, id)
  {
    hide Step, StepMessage, StepConnection, Enabled, PhaseOf, Conns.Disjoint;
    var ph := StepOfOne(t, k, id);
    PhaseMeans(t.states[k].conns, id);
    PhaseMeans(t.states[k + 1].conns, id);
  }

  /** Event m gives an open connection no reason to be closed: no message of its own breaks the protocol, and at a
      timeout tick its timestamp is less than seven seconds old. */
  predicate NoReason(env: Env, p: Peer, e: Event, now: int64, id: ConnectionId) {
    match e
    case Unregister(x) => x != id
    case ConnChall(x, _) => x != id
    case ConnPoW(x, _, _) => x != id
    case PowChall(x, _) => x != id || p.sentPowReq
    case PowPoW(x, nonce, cookie) => x != id || Passes(env, id, nonce, cookie)
    case TimeoutTick => now - p.timestamp < 7_000_000_000
    case _ => true
  }

  lemma OpenStepIff(t: Trace, m: nat, id: ConnectionId)
    requires t.IsRun() && t.FreshIds() && m < |t.events| && id in t.states[m].conns.open
    ensures id in t.states[m + 1].conns.open <==>
      NoReason(t.env, t.states[m].conns.open[id], t.events[m], t.nows[m], id)
    ensures id !in t.states[m + 1].conns.open ==> !t.states[m + 1].conns.Has(id)
  {
    hide Step, StepMessage, StepConnection, Enabled, PhaseOf, Passes, Stamp, Conns.Disjoint;
    var ph := StepOfOne(t, m, id);
    PhaseMeans(t.states[m].conns, id);
    PhaseMeans(t.states[m + 1].conns, id);
  }

  /** An open connection stays open exactly as long as no event gives a reason to close it, and when it is closed it
      is gone for the rest of the run. */
  lemma {:induction false} StaysOpenIff(t: Trace, i: nat, j: nat, id: ConnectionId)
    requires t.IsRun() && t.FreshIds() && i <= j < |t.states| && id in t.states[i].conns.open
    ensures id in t.states[j].conns.open <==>
      forall m :: i <= m < j ==>
        id in t.states[m].conns.open && NoReason(t.env, t.states[m].conns.open[id], t.events[m], t.nows[m], id)
    ensures id !in t.states[j].conns.open ==> !t.states[j].conns.Has(id)
  {
    hide Step, StepMessage, StepConnection, Enabled, NoReason;
    if i < j {
      StaysOpenIff(t, i, j - 1, id);
      if id in t.states[j - 1].conns.open {
        OpenStepIff(t, j - 1, id);
      } else {
        RemovedStaysOut(t, i, j - 1, j, id);
      }
    }
  }

  // ---- jobs ----

  /** Event i starts this job: an expected challenge with its cookie. */
  predicate Starts(s: Node, e: Event, job: Job) {
    match job
    case ConnJob(id, cookie) => e == ConnChall(id, cookie) && id in s.conns.toBeProved
    case RenewJob(id, cookie) => e == PowChall(id, cookie) && id in s.conns.open && s.conns.open[id].sentPowReq
  }

  function StartsBefore(t: Trace, j: nat, job: Job): nat
    requires j <= |t.events| == |t.states| - 1
  {
    if j == 0 then 0 else StartsBefore(t, j - 1, job) + if Starts(t.states[j - 1], t.events[j - 1], job) then 1 else 0
  }

  function EndsBefore(t: Trace, j: nat, job: Job): nat
    requires j <= |t.events|
  {
    if j == 0 then 0
    else EndsBefore(t, j - 1, job) + if t.events[j - 1].JobDone? && t.events[j - 1].job == job then 1 else 0
  }

  lemma JobsStep(env: Env, s: Node, e: Event, now: int64, s': Node, job: Job)
    requires StepsTo(env, s, e, now, s')
    ensures s'.jobs[job] + (if e.JobDone? && e.job == job then 1 else 0)
         == s.jobs[job] + (if Starts(s, e, job) then 1 else 0)
  {
    hide ProofOk, ReadCookie, FirstWithId;
    if AboutMessages(e) {
      MessagesKeepConns(env, s, e, now, s');
    }
  }

  /** Every expected challenge starts one job, and every job ends at most once. */
  lemma {:induction false} JobsConserved(t: Trace, j: nat, job: Job)
    requires t.IsRun() && j < |t.states|
    ensures t.states[j].jobs[job] + EndsBefore(t, j, job) == StartsBefore(t, j, job)
  {
    hide Step, StepMessage, StepConnection, Enabled, Starts;
    if j > 0 {
      JobsConserved(t, j - 1, job);
      assert StepsTo(t.env, t.states[j - 1], t.events[j - 1], t.nows[j - 1], t.states[j]);
      JobsStep(t.env, t.states[j - 1], t.events[j - 1], t.nows[j - 1], t.states[j], job);
    }
  }

  lemma {:induction false} StartsOnce(t: Trace, p: nat, j: nat, job: Job)
    requires p < j <= |t.events| == |t.states| - 1 && StartsBefore(t, p, job) == 0
    requires forall m :: p < m < j ==> !Starts(t.states[m], t.events[m], job)
    ensures StartsBefore(t, j, job) <= 1
  {
    if p < j - 1 {
      StartsOnce(t, p, j - 1, job);
    }
  }

  lemma {:induction false} NoStartsBefore(t: Trace, p: nat, job: Job)
    requires p <= |t.events| == |t.states| - 1
    requires forall m :: 0 <= m < p ==> !Starts(t.states[m], t.events[m], job)
    ensures StartsBefore(t, p, job) == 0
  {
    if p > 0 {
      NoStartsBefore(t, p - 1, job);
    }
  }

  lemma {:induction false} EndCounts(t: Trace, m: nat, j: nat, job: Job)
    requires m < j <= |t.events| && t.events[m].JobDone? && t.events[m].job == job
    ensures EndsBefore(t, j, job) >= 1
  {
    if m < j - 1 {
      EndCounts(t, m, j - 1, job);
    }
  }

  // ---- outgoing connections ----

  /** A neighbour never comes in as a new connection. */
  lemma NeighboursDoNotComeIn(t: Trace, i: nat, id: ConnectionId)
    requires t.IsRun() && t.FreshIds() && i < |t.events| && id in t.neighbours
    ensures t.events[i] != NewConn(id)
  {
    assert t.states[0].conns.Has(id);
  }

  /** A neighbour is to be proved until a message of its own moves it. */
  lemma {:induction false} StaysToBeProved(t: Trace, j: nat, id: ConnectionId)
    requires t.IsRun() && t.FreshIds() && j < |t.states| && id in t.neighbours
    requires forall i :: 0 <= i < j ==> !Moves(t.events[i], id)
    ensures id in t.states[j].conns.toBeProved && t.states[j].conns.toBeProved[id] == Peer(0, false)
  {
    hide Step, StepMessage, StepConnection, Enabled, PhaseOf, Conns.Disjoint;
    if j > 0 {
      StaysToBeProved(t, j - 1, id);
      NeighboursDoNotComeIn(t, j - 1, id);
      NoJobYet(t, j - 1, id);
      var ph := StepOfOne(t, j - 1, id);
      PhaseMeans(t.states[j - 1].conns, id);
      PhaseMeans(t.states[j].conns, id);
    }
  }

  lemma NoJobYet(t: Trace, i: nat, id: ConnectionId)
    requires t.IsRun() && i < |t.events| && forall m :: 0 <= m < i ==> !Moves(t.events[m], id)
    ensures t.events[i].JobDone? ==> !(t.events[i].job.ConnJob? && t.events[i].job.id == id)
  {
    hide Step, StepMessage, StepConnection;
    assert StepsTo(t.env, t.states[i], t.events[i], t.nows[i], t.states[i + 1]);
    if t.events[i].JobDone? && t.events[i].job.ConnJob? && t.events[i].job.id == id {
      var k := JobStarted(t, i, t.events[i].job);
      assert false;
    }
  }

  /** Before event q no job of the connection has ended, if one was started, in event p, and its end is q. */
  lemma NoJobMeanwhile(t: Trace, p: nat, m: nat, q: nat, id: ConnectionId, cookie: bytes)
    requires t.IsRun() && p < m < q < |t.events|
    requires t.events[p] == ConnChall(id, cookie) && t.events[q].JobDone? && t.events[q].job == ConnJob(id, cookie)
    requires forall i :: 0 <= i < q && i != p ==> !Moves(t.events[i], id)
    ensures t.events[m].JobDone? ==> !(t.events[m].job.ConnJob? && t.events[m].job.id == id)
  {
    hide Step, StepMessage, StepConnection;
    var job := ConnJob(id, cookie);
    IsEnabled(t, m);
    IsEnabled(t, q);
    if t.events[m].JobDone? && t.events[m].job.ConnJob? && t.events[m].job.id == id {
      var k := JobStarted(t, m, t.events[m].job);
      assert Moves(t.events[k], id);
      assert t.events[m].job == job;
      NoStartsBefore(t, p, job);
      StartsOnce(t, p, q, job);
      EndCounts(t, m, q, job);
      JobsConserved(t, q, job);
    }
  }

  /** The challenge starts the job, and the connection stays to be proved until the job ends. */
  lemma {:induction false} StaysChallenged(t: Trace, p: nat, j: nat, q: nat, id: ConnectionId, cookie: bytes)
    requires t.IsRun() && t.FreshIds() && id in t.neighbours && p < j <= q < |t.events|
    requires t.events[p] == ConnChall(id, cookie) && t.events[q].JobDone? && t.events[q].job == ConnJob(id, cookie)
    requires forall i :: 0 <= i < q && i != p ==> !Moves(t.events[i], id)
    ensures id in t.states[j].conns.toBeProved && t.states[j].conns.toBeProved[id] == Peer(0, false)
  {
    hide Step, StepMessage, StepConnection, Enabled, PhaseOf, Conns.Disjoint;
    if p == j - 1 {
      StaysToBeProved(t, p, id);
    } else {
      StaysChallenged(t, p, j - 1, q, id, cookie);
      NoJobMeanwhile(t, p, j - 1, q, id, cookie);
    }
    NeighboursDoNotComeIn(t, j - 1, id);
    var ph := StepOfOne(t, j - 1, id);
    PhaseMeans(t.states[j - 1].conns, id);
    PhaseMeans(t.states[j].conns, id);
  }

  lemma JobEndSends(t: Trace, q: nat, job: Job, nonce: uint64)
    requires t.IsRun() && q < |t.events| && Enabled(t.env, t.states[q], t.events[q])
    requires t.events[q] == JobDone(job, nonce, false)
    ensures Sent(t, q) == [ToPeer(job.id, if job.ConnJob? then MConnPoW(nonce, job.cookie)
                                          else MPowPoW(nonce, job.cookie))]
  {
  }

  /** The outgoing side of a handshake, from the start on: the neighbour's only message is a challenge in event p,
      and the job it starts ends in event q. Then its proof is sent and the connection is open from now on. */
  lemma HonestNeighbourOpens(t: Trace, p: nat, q: nat, id: ConnectionId, cookie: bytes, nonce: uint64)
    requires t.IsRun() && t.FreshIds() && id in t.neighbours && p < q < |t.events|
    requires t.events[p] == ConnChall(id, cookie) && t.events[q] == JobDone(ConnJob(id, cookie), nonce, false)
    requires forall i :: 0 <= i < q && i != p ==> !Moves(t.events[i], id)
    ensures Enabled(t.env, t.states[q], t.events[q])
    ensures Sent(t, q) == [ToPeer(id, MConnPoW(nonce, cookie))]
    ensures id in t.states[q + 1].conns.open && t.states[q + 1].conns.open[id] == Peer(t.nows[q], false)
  {
    hide Step, StepMessage, StepConnection, Enabled, PhaseOf, Conns.Disjoint, Moves;
    IsEnabled(t, q);
    StaysChallenged(t, p, q, q, id, cookie);
    JobEndSends(t, q, ConnJob(id, cookie), nonce);
    var ph := StepOfOne(t, q, id);
    PhaseMeans(t.states[q].conns, id);
    PhaseMeans(t.states[q + 1].conns, id);
  }

  // ---- two nodes ----

  /** Node b, at which a appears as atB, and node a, which has b as its neighbour atA: a connects in b's event n and
      asks for a cookie in event k; the cookie that b sends reaches a in a's event p; a's job finds a nonce in event
      q, and what a sends reaches b in b's event j. Then b opens the connection with the time it made the cookie if
      that is at most seven seconds ago, and a opens it with the time its job ended. */
  lemma TheyConnect(a: Trace, b: Trace, atA: ConnectionId, atB: ConnectionId, n: nat, k: nat, j: nat, p: nat, q: nat,
          chall: bytes, nonce: uint64, cookie: bytes)
    requires a.IsRun() && a.FreshIds() && b.IsRun() && b.FreshIds() && b.env.aead.Correct() && a.env.hash == b.env.hash
    requires n < k < j < |b.events| && cookie == FreshCookie(b.env, atB, chall, b.nows[k])
    requires b.events[n] == NewConn(atB) && b.events[k] == ConnReq(atB, chall)
    requires b.events[j] == ConnPoW(atB, nonce, cookie) && Computed(a.env.hash, cookie, nonce)
    requires forall i :: n < i < j ==> !Moves(b.events[i], atB)
    requires atA in a.neighbours && p < q < |a.events|
    requires a.events[p] == ConnChall(atA, cookie) && a.events[q] == JobDone(ConnJob(atA, cookie), nonce, false)
    requires forall i :: 0 <= i < q && i != p ==> !Moves(a.events[i], atA)
    ensures Enabled(b.env, b.states[k], b.events[k]) && Sent(b, k) == [ToPeer(atB, MConnChall(cookie))]
    ensures Enabled(a.env, a.states[q], a.events[q]) && Sent(a, q) == [ToPeer(atA, MConnPoW(nonce, cookie))]
    ensures atA in a.states[q + 1].conns.open && a.states[q + 1].conns.open[atA] == Peer(a.nows[q], false)
    ensures if b.nows[j] as int - b.nows[k] <= 7_000_000_000
            then atB in b.states[j + 1].conns.open && b.states[j + 1].conns.open[atB] == Peer(b.nows[k], false)
            else !b.states[j + 1].conns.Has(atB)
  {
    hide Step, StepMessage, StepConnection, Enabled, Moves, FreshCookie, Computed;
    HonestPeerConnects(b, n, k, j, atB, chall, nonce);
    HonestNeighbourOpens(a, p, q, atA, cookie, nonce);
  }

  // ---- renewals ----

  /** A renewal tick asks every open peer, and expects a challenge from it. */
  lemma TickAsks(t: Trace, r: nat, id: ConnectionId)
    requires t.IsRun() && t.FreshIds() && r < |t.events| && t.events[r].RenewalTick? && id in t.states[r].conns.open
    ensures id in t.states[r + 1].conns.open
    ensures t.states[r + 1].conns.open[id] == Peer(t.states[r].conns.open[id].timestamp, true)
  {
    hide Step, StepMessage, StepConnection, Enabled, PhaseOf, Conns.Disjoint;
    var ph := StepOfOne(t, r, id);
    PhaseMeans(t.states[r].conns, id);
    PhaseMeans(t.states[r + 1].conns, id);
  }

  /** While no renewal job of it ends, an open peer that was asked counts as asked. */
  lemma {:induction false} StaysAsked(t: Trace, r: nat, j: nat, id: ConnectionId)
    requires t.IsRun() && t.FreshIds() && r < j < |t.states| && t.events[r].RenewalTick?
    requires id in t.states[r].conns.open && id in t.states[j].conns.open
    requires forall i :: r < i < j ==> !(t.events[i].JobDone? && t.events[i].job.RenewJob? && t.events[i].job.id == id)
    ensures t.states[j].conns.open[id].sentPowReq
  {
    hide Step, StepMessage, StepConnection, Enabled, PhaseOf, NoReason, Passes, Stamp, Conns.Disjoint;
    StaysOpenIff(t, r, j, id);
    if r == j - 1 {
      TickAsks(t, r, id);
    } else {
      assert id in t.states[j - 1].conns.open;
      StaysAsked(t, r, j - 1, id);
      var ph := StepOfOne(t, j - 1, id);
      PhaseMeans(t.states[j - 1].conns, id);
      PhaseMeans(t.states[j].conns, id);
    }
  }

  /** The end of a renewal job sends its proof, and the next challenge has to be asked for again. */
  lemma RenewalJobEnds(t: Trace, q: nat, id: ConnectionId, cookie: bytes, nonce: uint64)
    requires t.IsRun() && t.FreshIds() && q < |t.events| && t.events[q] == JobDone(RenewJob(id, cookie), nonce, false)
    ensures Enabled(t.env, t.states[q], t.events[q]) && Sent(t, q) == [ToPeer(id, MPowPoW(nonce, cookie))]
    ensures id in t.states[q + 1].conns.open <==> id in t.states[q].conns.open
    ensures id in t.states[q].conns.open ==>
      t.states[q + 1].conns.open[id] == Peer(t.states[q].conns.open[id].timestamp, false)
  {
    hide Step, StepMessage, StepConnection, Enabled, PhaseOf, Conns.Disjoint;
    IsEnabled(t, q);
    JobEndSends(t, q, RenewJob(id, cookie), nonce);
    var ph := StepOfOne(t, q, id);
    PhaseMeans(t.states[q].conns, id);
    PhaseMeans(t.states[q + 1].conns, id);
  }

  /** A challenge that was asked for starts exactly one job and keeps its connection; one that was not asked for
      costs the connection. */
  lemma ChallengeWhenAsked(t: Trace, p: nat, id: ConnectionId, cookie: bytes)
    requires t.IsRun() && t.FreshIds() && p < |t.events| && t.events[p] == PowChall(id, cookie)
    ensures t.states[p + 1].conns.Has(id) <==> id in t.states[p].conns.open && t.states[p].conns.open[id].sentPowReq
    ensures var (c, c', job) := (t.states[p].conns, t.states[p + 1].conns, RenewJob(id, cookie));
      c'.Has(id) ==> (id in c'.open && c'.open[id] == c.open[id]
                      && t.states[p + 1].jobs[job] == t.states[p].jobs[job] + 1)
  {
    hide Step, StepMessage, StepConnection, Enabled, PhaseOf, Conns.Disjoint;
    assert StepsTo(t.env, t.states[p], t.events[p], t.nows[p], t.states[p + 1]);
    JobsStep(t.env, t.states[p], t.events[p], t.nows[p], t.states[p + 1], RenewJob(id, cookie));
    var ph := StepOfOne(t, p, id);
    PhaseMeans(t.states[p].conns, id);
    PhaseMeans(t.states[p + 1].conns, id);
  }

  /** A whole renewal of node x at node y, which appears as atX at x, while x appears as atY at y: x's tick asks y in
      event r; y answers x's PowReq in event k; its challenge reaches x in event p, x's job finds a nonce in event q,
      and its proof reaches y in event j. If the connection is open at both ends when these messages arrive, y has
      afterwards the time at which it answered as the connection's timestamp. */
  lemma TheyRenew(x: Trace, y: Trace, atX: ConnectionId, atY: ConnectionId, r: nat, p: nat, q: nat, k: nat, j: nat,
          chall: bytes, nonce: uint64, cookie: bytes)
    requires x.IsRun() && x.FreshIds() && y.IsRun() && y.FreshIds() && y.env.aead.Correct() && x.env.hash == y.env.hash
    requires r < p < q < |x.events| && x.events[r].RenewalTick?
    requires atX in x.states[r].conns.open && atX in x.states[p].conns.open
    requires forall i :: r < i < p ==> !(x.events[i].JobDone? && x.events[i].job.RenewJob? && x.events[i].job.id == atX)
    requires x.events[p] == PowChall(atX, cookie) && x.events[q] == JobDone(RenewJob(atX, cookie), nonce, false)
    requires k < j < |y.events| && y.events[k] == PowReq(atY, chall) && atY in y.states[k].conns.open
    requires cookie == FreshCookie(y.env, atY, chall, y.nows[k]) && Computed(x.env.hash, cookie, nonce)
    requires y.events[j] == PowPoW(atY, nonce, cookie) && atY in y.states[j].conns.open
    ensures Enabled(y.env, y.states[k], y.events[k]) && Sent(y, k) == [ToPeer(atY, MPowChall(cookie))]
    ensures atX in x.states[p + 1].conns.open && RenewJob(atX, cookie) in x.states[p + 1].jobs
    ensures Enabled(x.env, x.states[q], x.events[q]) && Sent(x, q) == [ToPeer(atX, MPowPoW(nonce, cookie))]
    ensures atY in y.states[j + 1].conns.open && y.states[j + 1].conns.open[atY].timestamp == y.nows[k]
  {
    hide Step, StepMessage, StepConnection, Enabled, FreshCookie, Computed;
    StaysAsked(x, r, p, atX);
    ChallengeWhenAsked(x, p, atX, cookie);
    RenewalJobEnds(x, q, atX, cookie, nonce);
    HonestRenewal(y, k, j, atY, chall, nonce);
  }

  // ---- all that is sent ----

  /** The reason for which event e makes a node send this. */
  predicate Reason(env: Env, s: Node, e: Event, now: int64, o: Out)
    requires Enabled(env, s, e)
  {
    match o
    case ToPeer(id, MPush(push)) =>
      e.GossipTick? && exists m :: 0 <= m < |s.valid| && s.valid[m] == push && id in e.chosen[m]
    case ToPeer(id, MConnChall(cookie)) =>
      e.ConnReq? && e.id == id && id in s.conns.inProgress && cookie == FreshCookie(env, id, e.chall, now)
    case ToPeer(id, MConnPoW(nonce, cookie)) => e == JobDone(ConnJob(id, cookie), nonce, false)
    case ToPeer(id, MPowReq) => e.RenewalTick? && id in s.conns.open
    case ToPeer(id, MPowChall(cookie)) =>
      e.PowReq? && e.id == id && id in s.conns.open && cookie == FreshCookie(env, id, e.chall, now)
    case ToPeer(id, MPowPoW(nonce, cookie)) => e == JobDone(RenewJob(id, cookie), nonce, false)
    case Notify(messageId, dataType, data) =>
      && e.PushMsg? && e.push.messageId == messageId && e.push.gossipType == dataType && e.push.payload == data
      && e.id in s.conns.open && forall p :: p in s.sent + s.valid + s.invalid ==> p.messageId != messageId
    case Close(id) => e == Unregister(id) && s.conns.Has(id)
  }

  /** A node sends something exactly if there is a reason for it. */
  lemma SentIff(env: Env, s: Node, e: Event, now: int64, o: Out)
    requires Enabled(env, s, e)
    ensures o in Step(env, s, e, now).1 <==> Reason(env, s, e, now, o)
  {
    if e.GossipTick? {
      hide StepConnection, TickPushes;
      TickSent(s.valid, e.chosen, o);
    } else if e.RenewalTick? {
      hide StepMessage, Enumerates;
      RequestsSent(s.conns.open.Keys, e.order, o);
    } else if e.PushMsg? {
      hide StepConnection, Known;
      KnownMeans(s, e.push.messageId);
    } else if AboutMessages(e) {
      hide StepConnection, Known;
    } else {
      hide StepMessage;
      ConnectionSentIff(env, s, e, now, o);
    }
  }

  lemma ConnectionSentIff(env: Env, s: Node, e: Event, now: int64, o: Out)
    requires Enabled(env, s, e) && !AboutMessages(e) && !e.RenewalTick?
    ensures o in Step(env, s, e, now).1 <==> Reason(env, s, e, now, o)
  {
    hide StepMessage, ReadCookie, ProofOk, CreateCookie, Readable, Enumerates, Chosen;
    hide Conns.Remove, Conns.MakeValid, Conns.SetSentPowReq, Conns.Cull;
  }

  lemma KnownMeans(s: Node, messageId: uint16)
    ensures Known(s, messageId) <==> exists p :: p in s.sent + s.valid + s.invalid && p.messageId == messageId
  {
  }

  lemma {:induction false} TickSent(drained: seq<Push>, chosen: seq<seq<ConnectionId>>, o: Out)
    requires |drained| == |chosen|
    ensures o in TickPushes(drained, chosen) <==>
      o.ToPeer? && o.msg.MPush? && exists m :: 0 <= m < |drained| && drained[m] == o.msg.push && o.id in chosen[m]
    decreases |drained|
  {
    if drained != [] {
      var n := |drained| - 1;
      hide TickPushes, PushesTo;
      TickSent(drained[..n], chosen[..n], o);
      RowSent(drained[n], chosen[n], o);
      TickPushesMore(drained, chosen);
      assert forall m :: 0 <= m < n ==> drained[..n][m] == drained[m] && chosen[..n][m] == chosen[m];
    }
  }

  lemma TickPushesMore(drained: seq<Push>, chosen: seq<seq<ConnectionId>>)
    requires |drained| == |chosen| && drained != []
    ensures var n := |drained| - 1;
      TickPushes(drained, chosen) == TickPushes(drained[..n], chosen[..n]) + PushesTo(drained[n], chosen[n])
  {
  }

  lemma RowSent(p: Push, ids: seq<ConnectionId>, o: Out)
    ensures o in PushesTo(p, ids) <==> o.ToPeer? && o.msg == MPush(p) && o.id in ids
  {
    var row := PushesTo(p, ids);
    if o.ToPeer? && o.msg == MPush(p) && o.id in ids {
      var i :| 0 <= i < |ids| && ids[i] == o.id;
      assert row[i] == o;
    }
  }

  lemma RequestsSent(open: set<ConnectionId>, order: seq<ConnectionId>, o: Out)
    requires Enumerates(open, order)
    ensures o in Requests(order) <==> o.ToPeer? && o.msg.MPowReq? && o.id in open
  {
    EnumeratesAll(open, order);
    if o.ToPeer? && o.msg.MPowReq? && o.id in open {
      var i :| 0 <= i < |order| && order[i] == o.id;
      assert Requests(order)[i] == o;
    }
  }

  lemma {:induction false} EnumeratesAll(open: set<ConnectionId>, order: seq<ConnectionId>)
    requires Enumerates(open, order)
    ensures forall id :: id in open <==> id in order
  {
    if order != [] {
      var last := order[|order| - 1];
      var rest := order[..|order| - 1];
      forall i | 0 <= i < |rest| ensures rest[i] in open - {last} {
        assert order[i] != last;
      }
      EnumeratesAll(open - {last}, rest);
      assert order == rest + [last];
    }
  }

  /** It sends one thing at a time, except at the two ticks; a renewal tick asks each peer once. */
  lemma SentOnce(env: Env, s: Node, e: Event, now: int64)
    requires Enabled(env, s, e)
    ensures !e.GossipTick? && !e.RenewalTick? ==> |Step(env, s, e, now).1| <= 1
    ensures e.RenewalTick? ==> Distinct(Step(env, s, e, now).1)
  {
    hide Known, ReadCookie, ProofOk;
  }

  /** In every run a connection is closed at most once. */
  lemma ClosedOnce(t: Trace, i: nat, j: nat, id: ConnectionId)
    requires t.IsRun() && t.FreshIds() && i < j < |t.events|
    requires Enabled(t.env, t.states[i], t.events[i]) && Close(id) in Sent(t, i)
    ensures Enabled(t.env, t.states[j], t.events[j]) && Close(id) !in Sent(t, j)
  {
    hide Step, StepMessage, StepConnection, Enabled, PhaseOf, Conns.Disjoint;
    IsEnabled(t, j);
    SentIff(t.env, t.states[i], t.events[i], t.nows[i], Close(id));
    SentIff(t.env, t.states[j], t.events[j], t.nows[j], Close(id));
    var ph := StepOfOne(t, i, id);
    PhaseMeans(t.states[i + 1].conns, id);
    RemovedStaysOut(t, i, i + 1, j, id);
  }

  // ---- these exchanges can happen ----

  /** The run goes on with an event that can happen next. */
  lemma GoesOnWith(t: Trace, e: Event, now: int64) returns (more: Trace)
    requires t.IsRun() && t.FreshIds() && Enabled(t.env, LastState(t), e)
    requires forall i :: 0 <= i < |t.nows| ==> t.nows[i] <= now
    requires e.NewConn? ==> forall i :: 0 <= i < |t.states| ==> !t.states[i].conns.Has(e.id)
    ensures more == Continued(t, e, now, Step(t.env, LastState(t), e, now).0)
    ensures more.IsRun() && more.FreshIds() && LastState(more) == Step(t.env, LastState(t), e, now).0
    ensures forall i :: 0 <= i < |more.nows| ==> more.nows[i] <= now
  {
    hide Step, Enabled;
    var s := Step(t.env, LastState(t), e, now).0;
    more := Continued(t, e, now, s);
    assert StepsTo(t.env, LastState(t), e, now, s);
    ContinuedIsRun(t, e, now, s);
    forall i, j | 0 <= j <= i < |more.events| && more.events[i].NewConn?
      ensures !more.states[j].conns.Has(more.events[i].id)
    {
      assert more.states[j] == t.states[j];
    }
  }

  /** What the events that only ask leave: the peer where it is, and its answer possible. */
  lemma AskedForCookie(env: Env, s: Node, id: ConnectionId, chall: bytes, now: int64)
    requires env.aead.Correct() && |chall| == NONCE_SIZE
    ensures Enabled(env, s, ConnReq(id, chall)) && Enabled(env, s, PowReq(id, chall))
    ensures Step(env, s, ConnReq(id, chall), now).0.conns == s.conns
    ensures Step(env, s, PowReq(id, chall), now).0.conns == s.conns
    ensures forall s', nonce :: Enabled(env, s', ConnPoW(id, nonce, FreshCookie(env, id, chall, now)))
    ensures forall s', nonce :: Enabled(env, s', PowPoW(id, nonce, FreshCookie(env, id, chall, now)))
  {
    hide StepMessage, Readable, CreateCookie;
    FreshCookieReadable(env, id, chall, now);
  }

  /** Any run can go on with the handshake of a peer not seen before, and then has it open. */
  lemma PeerCanConnect(t: Trace, id: ConnectionId, chall: bytes, nonce: uint64, now: int64) returns (more: Trace)
    requires t.IsRun() && t.FreshIds() && t.env.aead.Correct() && |chall| == NONCE_SIZE
    requires Computed(t.env.hash, FreshCookie(t.env, id, chall, now), nonce)
    requires forall i :: 0 <= i < |t.states| ==> !t.states[i].conns.Has(id)
    requires forall i :: 0 <= i < |t.nows| ==> t.nows[i] <= now
    ensures more.IsRun() && more.FreshIds() && more.env == t.env
    ensures more.events == t.events
      + [NewConn(id), ConnReq(id, chall), ConnPoW(id, nonce, FreshCookie(t.env, id, chall, now))]
    ensures id in LastState(more).conns.open
  {
    hide Step, StepMessage, StepConnection, FreshCookie, Computed, Readable;
    var t1 := GoesOnWith(t, NewConn(id), now);
    AskedForCookie(t.env, LastState(t1), id, chall, now);
    var t2 := GoesOnWith(t1, ConnReq(id, chall), now);
    more := GoesOnWith(t2, ConnPoW(id, nonce, FreshCookie(t.env, id, chall, now)), now);
    hide Enabled;
    var n := |t.events|;
    HonestPeerConnects(more, n, n + 1, n + 2, id, chall, nonce);
  }

  lemma FreshCookieReadable(env: Env, id: ConnectionId, chall: bytes, now: int64)
    requires env.aead.Correct() && |chall| == NONCE_SIZE
    ensures Readable(env.aead, FreshCookie(env, id, chall, now))
  {
    ReadsBackCreated(env.aead, Cookie(chall, now, id));
  }

  /** Any run can go on with the challenge of a neighbour that is still to be proved, and then has it open. */
  lemma NeighbourCanConnect(t: Trace, id: ConnectionId, cookie: bytes, nonce: uint64, now: int64) returns (more: Trace)
    requires t.IsRun() && t.FreshIds() && id in LastState(t).conns.toBeProved
    requires forall i :: 0 <= i < |t.nows| ==> t.nows[i] <= now
    ensures more.IsRun() && more.FreshIds() && more.env == t.env
    ensures more.events == t.events + [ConnChall(id, cookie), JobDone(ConnJob(id, cookie), nonce, false)]
    ensures id in LastState(more).conns.open
  {
    hide StepMessage;
    var t1 := GoesOnWith(t, ConnChall(id, cookie), now);
    assert ConnJob(id, cookie) in LastState(t1).jobs && id in LastState(t1).conns.toBeProved;
    more := GoesOnWith(t1, JobDone(ConnJob(id, cookie), nonce, false), now);
  }

  /** Any run can go on with the renewal of an open peer, and then has it open with the new time. */
  lemma PeerCanRenew(t: Trace, id: ConnectionId, chall: bytes, nonce: uint64, now: int64) returns (more: Trace)
    requires t.IsRun() && t.FreshIds() && t.env.aead.Correct() && |chall| == NONCE_SIZE
    requires Computed(t.env.hash, FreshCookie(t.env, id, chall, now), nonce) && id in LastState(t).conns.open
    requires forall i :: 0 <= i < |t.nows| ==> t.nows[i] <= now
    ensures more.IsRun() && more.FreshIds() && more.env == t.env
    ensures more.events == t.events + [PowReq(id, chall), PowPoW(id, nonce, FreshCookie(t.env, id, chall, now))]
    ensures id in LastState(more).conns.open && LastState(more).conns.open[id].timestamp == now
  {
    hide Step, StepMessage, StepConnection, FreshCookie, Computed, Readable;
    AskedForCookie(t.env, LastState(t), id, chall, now);
    var t1 := GoesOnWith(t, PowReq(id, chall), now);
    more := GoesOnWith(t1, PowPoW(id, nonce, FreshCookie(t.env, id, chall, now)), now);
    hide Enabled;
    var n := |t.events|;
    HonestRenewal(more, n, n + 1, id, chall, nonce);
  }

  /** Any run can go on with a tick that asks for a renewal, the peer's challenge and the end of the job. */
  lemma RenewalCanHappen(t: Trace, id: ConnectionId, order: seq<ConnectionId>, cookie: bytes, nonce: uint64,
          now: int64) returns (more: Trace)
    requires t.IsRun() && t.FreshIds() && id in LastState(t).conns.open
    requires Distinct(order) && forall x :: x in order <==> x in LastState(t).conns.open
    requires forall i :: 0 <= i < |t.nows| ==> t.nows[i] <= now
    ensures more.IsRun() && more.FreshIds() && more.env == t.env
    ensures more.events == t.events
      + [RenewalTick(order), PowChall(id, cookie), JobDone(RenewJob(id, cookie), nonce, false)]
    ensures id in LastState(more).conns.open && !LastState(more).conns.open[id].sentPowReq
  {
    hide Step, StepMessage, StepConnection, Enumerates;
    DistinctCoversAll(LastState(t).conns.open.Keys, order);
    var t1 := GoesOnWith(t, RenewalTick(order), now);
    RenewalSteps(t.env, LastState(t), id, order, cookie, nonce, now);
    var t2 := GoesOnWith(t1, PowChall(id, cookie), now);
    more := GoesOnWith(t2, JobDone(RenewJob(id, cookie), nonce, false), now);
  }

  lemma RenewalSteps(env: Env, s: Node, id: ConnectionId, order: seq<ConnectionId>, cookie: bytes, nonce: uint64,
          now: int64)
    requires id in s.conns.open && Enabled(env, s, RenewalTick(order))
    ensures var s1 := Step(env, s, RenewalTick(order), now).0;
      var s2 := Step(env, s1, PowChall(id, cookie), now).0;
      && RenewJob(id, cookie) in s2.jobs
      && var s3 := Step(env, s2, JobDone(RenewJob(id, cookie), nonce, false), now).0;
      id in s3.conns.open && !s3.conns.open[id].sentPowReq
  {
    hide StepMessage, Enumerates;
    var s1 := Step(env, s, RenewalTick(order), now).0;
    assert id in s1.conns.open && s1.conns.open[id].sentPowReq;
    var s2 := Step(env, s1, PowChall(id, cookie), now).0;
    assert RenewJob(id, cookie) in s2.jobs && s2.conns == s1.conns;
  }

  lemma {:induction false} DistinctCoversAll(open: set<ConnectionId>, order: seq<ConnectionId>)
    requires Distinct(order) && forall x :: x in order <==> x in open
    ensures Enumerates(open, order)
  {
    if order == [] {
      assert open == {};
    } else {
      var rest, last := order[..|order| - 1], order[|order| - 1];
      assert order == rest + [last];
      assert forall i :: 0 <= i < |rest| ==> rest[i] == order[i] && rest[i] != last;
      DistinctCoversAll(open - {last}, rest);
    }
  }

  // ---- the cookies that were made ----

  /** Event k sends this cookie to somebody. */
  predicate SendsCookie(t: Trace, k: nat, cookie: bytes)
    requires k < |t.events| == |t.nows| == |t.states| - 1
  {
    && Enabled(t.env, t.states[k], t.events[k])
    && exists o :: o in Sent(t, k) && o.ToPeer? && (o.msg == MConnChall(cookie) || o.msg == MPowChall(cookie))
  }

  lemma IssuedStep(t: Trace, k: nat, cookie: bytes)
    requires t.IsRun() && k < |t.events|
    ensures cookie in t.states[k + 1].issued <==> cookie in t.states[k].issued || SendsCookie(t, k, cookie)
  {
    var s, e, now := t.states[k], t.events[k], t.nows[k];
    IsEnabled(t, k);
    if AboutMessages(e) {
      hide Step, StepMessage, StepConnection;
      assert StepsTo(t.env, s, e, now, t.states[k + 1]);
      MessagesKeepConns(t.env, s, e, now, t.states[k + 1]);
      if o :| o in Sent(t, k) && o.ToPeer? && (o.msg == MConnChall(cookie) || o.msg == MPowChall(cookie)) {
        SentIff(t.env, s, e, now, o);
      }
    } else if e.ConnReq? || e.PowReq? {
      hide StepMessage;
      var c := CreateCookie(t.env.aead, NewCookie(e, now));
      if (if e.ConnReq? then e.id in s.conns.inProgress else e.id in s.conns.open) {
        assert Sent(t, k) == [ToPeer(e.id, if e.ConnReq? then MConnChall(c) else MPowChall(c))];
        assert Sent(t, k)[0] in Sent(t, k);
      }
    } else {
      hide StepMessage;
      assert t.states[k + 1].issued == s.issued;
      if o :| o in Sent(t, k) && o.ToPeer? && (o.msg == MConnChall(cookie) || o.msg == MPowChall(cookie)) {
        SentIff(t.env, s, e, now, o);
      }
    }
  }

  /** The cookies counted as a node's own are exactly those that it has sent. */
  lemma {:induction false} IssuedIffSent(t: Trace, i: nat, cookie: bytes)
    requires t.IsRun() && i < |t.states|
    ensures cookie in t.states[i].issued <==> exists k :: 0 <= k < i && SendsCookie(t, k, cookie)
  {
    hide Step, StepMessage, StepConnection, Enabled, SendsCookie;
    if i > 0 {
      IssuedIffSent(t, i - 1, cookie);
      IssuedStep(t, i - 1, cookie);
    }
  }
}
