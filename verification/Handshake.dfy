/** What the handshake guarantees over whole runs of a node. */
module Handshake {
  import opened Basics
  import opened Bytes
  import opened Cookies
  import opened ProofOfWork
  import opened Connections
  import opened Strategy

  // ---- what one step can change ----

  /** Only a new connection brings a new id. */
  lemma OnlyNewConnAdds(env: Env, s: Node, e: Event, now: int64, s': Node)
    requires StepsTo(env, s, e, now, s') && !e.NewConn?
    ensures NoNewIds(s.conns, s'.conns)
  {
    if e.JobDone? {
      MakeValidAddsNothing(s.conns, e.job.id, now);
      UpdatesAddNothing(s.conns, e.job.id, false, Expired(now));
    } else if e.RenewalTick? || e.TimeoutTick? {
      UpdatesAddNothing(s.conns, [], false, Expired(now));
    } else if e.ConnPoW? || e.PowPoW? {
      RemoveAddsNothing(s.conns, e.id);
      if Opens(env, e.cookie) {
        MakeValidAddsNothing(s.conns, e.id, ReadCookie(env.aead, e.cookie).value.timestamp);
      }
    } else if e.Unregister? || e.ConnChall? || e.PowChall? {
      RemoveAddsNothing(s.conns, e.id);
    }
  }

  lemma NothingJoinsUnasked(env: Env, s: Node, e: Event, now: int64, s': Node, id: ConnectionId)
    requires StepsTo(env, s, e, now, s')
    ensures id in s'.conns.toBeProved ==> id in s.conns.toBeProved
    ensures id in s'.conns.inProgress && id !in s.conns.inProgress ==> e == NewConn(id)
    ensures s'.conns.Has(id) && !s.conns.Has(id) ==> e == NewConn(id)
  {
    if e.NewConn? {
      AddInProgressAddsOne(s.conns, e.id);
    } else {
      OnlyNewConnAdds(env, s, e, now, s');
    }
  }

  lemma StepKeepsDisjoint(env: Env, s: Node, e: Event, now: int64, s': Node)
    requires StepsTo(env, s, e, now, s') && s.conns.Disjoint()
    requires e.NewConn? ==> !s.conns.Has(e.id)
    ensures s'.conns.Disjoint()
  {
    if e.NewConn? {
      AddInProgressAddsOne(s.conns, e.id);
    } else {
      OnlyNewConnAdds(env, s, e, now, s');
    }
  }

  lemma HowItOpens(env: Env, s: Node, e: Event, now: int64, s': Node, id: ConnectionId)
    requires StepsTo(env, s, e, now, s')
    requires id in s'.conns.open && id !in s.conns.open
    ensures s.conns.Has(id)
    ensures || (e.ConnPoW? && OpensByProof(env, s, e, now, id) && s'.conns.open[id].timestamp >= now - POW_TIMEOUT)
            || (e.JobDone? && OpensByJob(s, e, id) && s'.conns.open[id].timestamp == now)
  {
    if e.ConnPoW? {
      ProofOpens(env, s, e, now, s', id);
    } else if e.JobDone? {
      JobOpens(env, s, e, now, s', id);
    } else {
      OthersOpenNothing(env, s, e, now, s', id);
    }
  }

  lemma ProofOpens(env: Env, s: Node, e: Event, now: int64, s': Node, id: ConnectionId)
    requires StepsTo(env, s, e, now, s') && e.ConnPoW?
    requires id in s'.conns.open && id !in s.conns.open
    ensures s.conns.Has(id) && OpensByProof(env, s, e, now, id) && s'.conns.open[id].timestamp >= now - POW_TIMEOUT
  {
  }

  lemma JobOpens(env: Env, s: Node, e: Event, now: int64, s': Node, id: ConnectionId)
    requires StepsTo(env, s, e, now, s') && e.JobDone?
    requires id in s'.conns.open && id !in s.conns.open
    ensures s.conns.Has(id) && OpensByJob(s, e, id) && s'.conns.open[id].timestamp == now
  {
  }

  lemma OthersOpenNothing(env: Env, s: Node, e: Event, now: int64, s': Node, id: ConnectionId)
    requires StepsTo(env, s, e, now, s') && !e.ConnPoW? && !e.JobDone?
    ensures id in s'.conns.open ==> id in s.conns.open
  {
  }

  /** A ConnPoW from a connection in progress that passes decryption, hash, destination and age. */
  predicate OpensByProof(env: Env, s: Node, e: Event, now: int64, id: ConnectionId)
    requires e.ConnPoW?
  {
    && e.id == id && id in s.conns.inProgress
    && Readable(env.aead, e.cookie) && ProofOk(env, id, e.nonce, e.cookie)
    && now - ReadCookie(env.aead, e.cookie).value.timestamp <= POW_TIMEOUT
  }

  predicate OpensByJob(s: Node, e: Event, id: ConnectionId)
    requires e.JobDone?
  {
    e.job.ConnJob? && e.job.id == id && e.job in s.jobs && !e.closed
  }

  lemma NewJob(env: Env, s: Node, e: Event, now: int64, s': Node, job: Job)
    requires StepsTo(env, s, e, now, s') && job.ConnJob? && job in s'.jobs && job !in s.jobs
    ensures e == ConnChall(job.id, job.cookie) && job.id in s.conns.toBeProved
  {
  }

  lemma NewRenewal(env: Env, s: Node, e: Event, now: int64, s': Node, job: Job)
    requires StepsTo(env, s, e, now, s') && job.RenewJob? && job in s'.jobs && job !in s.jobs
    ensures e == PowChall(job.id, job.cookie) && job.id in s.conns.open
  {
  }

  lemma NewlyIssued(env: Env, s: Node, e: Event, now: int64, s': Node, cookie: bytes)
    requires StepsTo(env, s, e, now, s') && cookie in s'.issued && cookie !in s.issued
    ensures (e.ConnReq? && e.id in s.conns.inProgress) || (e.PowReq? && e.id in s.conns.open)
    ensures cookie == CreateCookie(env.aead, NewCookie(e, now)) && |e.chall| == NONCE_SIZE
  {
  }

  // ---- whole runs ----

  /** The three sets of ids stay disjoint. */
  lemma {:induction false} AlwaysDisjoint(t: Trace, i: nat)
    requires t.IsRun() && t.FreshIds() && i < |t.states|
    ensures t.states[i].conns.Disjoint()
  {
    hide Step, StepMessage, StepConnection, Enabled;
    if i > 0 {
      AlwaysDisjoint(t, i - 1);
      assert StepsTo(t.env, t.states[i - 1], t.events[i - 1], t.nows[i - 1], t.states[i]);
      StepKeepsDisjoint(t.env, t.states[i - 1], t.events[i - 1], t.nows[i - 1], t.states[i]);
    }
  }

  /** Once removed, an id stays out of all sets, even if its pending job ends later. */
  lemma {:induction false} RemovedStaysOut(t: Trace, i: nat, j: nat, k: nat, id: ConnectionId)
    requires t.IsRun() && t.FreshIds() && i <= j <= k < |t.states|
    requires t.states[i].conns.Has(id) && !t.states[j].conns.Has(id)
    ensures !t.states[k].conns.Has(id)
  {
    hide Step, StepMessage, StepConnection, Enabled;
    if j < k {
      RemovedStaysOut(t, i, j, k - 1, id);
      assert StepsTo(t.env, t.states[k - 1], t.events[k - 1], t.nows[k - 1], t.states[k]);
      NothingJoinsUnasked(t.env, t.states[k - 1], t.events[k - 1], t.nows[k - 1], t.states[k], id);
    }
  }

  /** A connection that was open never waits for a proof again. */
  lemma {:induction false} NeverBackFromOpen(t: Trace, i: nat, j: nat, id: ConnectionId)
    requires t.IsRun() && t.FreshIds() && i <= j < |t.states|
    requires id in t.states[i].conns.open
    ensures id !in t.states[j].conns.inProgress && id !in t.states[j].conns.toBeProved
  {
    hide Step, StepMessage, StepConnection, Enabled;
    if i == j {
      AlwaysDisjoint(t, i);
    } else {
      NeverBackFromOpen(t, i, j - 1, id);
      assert StepsTo(t.env, t.states[j - 1], t.events[j - 1], t.nows[j - 1], t.states[j]);
      NothingJoinsUnasked(t.env, t.states[j - 1], t.events[j - 1], t.nows[j - 1], t.states[j], id);
    }
  }

  /** Only the initial neighbours are ever to be proved or have a handshake job. */
  lemma {:induction false} OutgoingAreNeighbours(t: Trace, i: nat, id: ConnectionId)
    requires t.IsRun() && i < |t.states|
    ensures id in t.states[i].conns.toBeProved ==> id in t.neighbours
    ensures forall job :: job in t.states[i].jobs && job.ConnJob? && job.id == id ==> id in t.neighbours
  {
    hide Step, StepMessage, StepConnection, Enabled;
    if i > 0 {
      var s, e, now, s' := t.states[i - 1], t.events[i - 1], t.nows[i - 1], t.states[i];
      OutgoingAreNeighbours(t, i - 1, id);
      assert StepsTo(t.env, s, e, now, s');
      NothingJoinsUnasked(t.env, s, e, now, s', id);
      forall job | job in s'.jobs && job.ConnJob? && job.id == id ensures id in t.neighbours {
        if job !in s.jobs {
          NewJob(t.env, s, e, now, s', job);
        }
      }
    }
  }

  /** An initial neighbour is never in progress: it was known from the start. */
  lemma {:induction false} NeighboursNotInProgress(t: Trace, i: nat, id: ConnectionId)
    requires t.IsRun() && t.FreshIds() && i < |t.states| && id in t.neighbours
    ensures id !in t.states[i].conns.inProgress
  {
    hide Step, StepMessage, StepConnection, Enabled;
    if i > 0 {
      NeighboursNotInProgress(t, i - 1, id);
      assert StepsTo(t.env, t.states[i - 1], t.events[i - 1], t.nows[i - 1], t.states[i]);
      NothingJoinsUnasked(t.env, t.states[i - 1], t.events[i - 1], t.nows[i - 1], t.states[i], id);
      assert t.states[0].conns.Has(id);
    }
  }

  /** A created cookie was created in a step that answered a request of its destination. */
  lemma {:induction false} IssuedBefore(t: Trace, i: nat, cookie: bytes) returns (k: nat)
    requires t.IsRun() && i < |t.states| && cookie in t.states[i].issued
    ensures k < i
    ensures (t.events[k].ConnReq? && t.events[k].id in t.states[k].conns.inProgress) ||
      (t.events[k].PowReq? && t.events[k].id in t.states[k].conns.open)
    ensures |t.events[k].chall| == NONCE_SIZE
    ensures cookie == CreateCookie(t.env.aead, NewCookie(t.events[k], t.nows[k]))
  {
    hide Step, StepMessage, StepConnection, Enabled;
    assert StepsTo(t.env, t.states[i - 1], t.events[i - 1], t.nows[i - 1], t.states[i]);
    if cookie in t.states[i - 1].issued {
      k := IssuedBefore(t, i - 1, cookie);
    } else {
      NewlyIssued(t.env, t.states[i - 1], t.events[i - 1], t.nows[i - 1], t.states[i], cookie);
      k := i - 1;
    }
  }

  /** An accepted connection is open only after it asked for a cookie, got one from this node, and
      returned it in a ConnPoW that passed all four checks. */
  lemma {:induction false} AcceptedOnlyAfterProof(t: Trace, i: nat, id: ConnectionId) returns (k: nat, j: nat)
    requires t.IsRun() && t.FreshIds() && t.NoForgery() && t.env.aead.Correct()
    requires i < |t.states| && id in t.states[i].conns.open && id !in t.neighbours
    ensures k < j < i && t.events[k].ConnReq? && t.events[k].id == id
    ensures t.events[j].ConnPoW? && OpensByProof(t.env, t.states[j], t.events[j], t.nows[j], id)
    ensures t.events[j].cookie == CreateCookie(t.env.aead, NewCookie(t.events[k], t.nows[k]))
  {
    hide Step, StepMessage, StepConnection, Enabled;
    var s, e, now, s' := t.states[i - 1], t.events[i - 1], t.nows[i - 1], t.states[i];
    assert StepsTo(t.env, s, e, now, s');
    if id in s.conns.open {
      k, j := AcceptedOnlyAfterProof(t, i - 1, id);
    } else {
      HowItOpens(t.env, s, e, now, s', id);
      OutgoingAreNeighbours(t, i - 1, id);
      j := i - 1;
      k := IssuedBefore(t, j, e.cookie);
      ReadsBackCreated(t.env.aead, NewCookie(t.events[k], t.nows[k]));
      if id in t.states[k].conns.open {
        NeverBackFromOpen(t, k, j, id);
      }
    }
  }

  /** An outgoing connection is open only after a ConnChall came on it and the job this started
      has sent its proof. */
  lemma {:induction false} OutgoingOnlyAfterChallenge(t: Trace, i: nat, id: ConnectionId) returns (k: nat, j: nat)
    requires t.IsRun() && t.FreshIds()
    requires i < |t.states| && id in t.states[i].conns.open && id in t.neighbours
    ensures k < j < i && t.events[j].JobDone? && OpensByJob(t.states[j], t.events[j], id)
    ensures t.events[k] == ConnChall(id, t.events[j].job.cookie) && id in t.states[k].conns.toBeProved
  {
    hide Step, StepMessage, StepConnection, Enabled;
    var s, e, now, s' := t.states[i - 1], t.events[i - 1], t.nows[i - 1], t.states[i];
    assert StepsTo(t.env, s, e, now, s');
    if id in s.conns.open {
      k, j := OutgoingOnlyAfterChallenge(t, i - 1, id);
    } else {
      NeighboursNotInProgress(t, i - 1, id);
      OutgoingOpensByJob(t.env, s, e, now, s', id);
      j := i - 1;
      k := JobStarted(t, j, e.job);
    }
  }

  lemma OutgoingOpensByJob(env: Env, s: Node, e: Event, now: int64, s': Node, id: ConnectionId)
    requires StepsTo(env, s, e, now, s') && id !in s.conns.inProgress
    requires id in s'.conns.open && id !in s.conns.open
    ensures e.JobDone? && OpensByJob(s, e, id)
  {
    hide Step, StepMessage, StepConnection, Enabled;
    HowItOpens(env, s, e, now, s', id);
  }

  lemma {:induction false} JobStarted(t: Trace, i: nat, job: Job) returns (k: nat)
    requires t.IsRun() && i < |t.states| && job.ConnJob? && job in t.states[i].jobs
    ensures k < i && t.events[k] == ConnChall(job.id, job.cookie) && job.id in t.states[k].conns.toBeProved
  {
    hide Step, StepMessage, StepConnection, Enabled;
    assert StepsTo(t.env, t.states[i - 1], t.events[i - 1], t.nows[i - 1], t.states[i]);
    if job in t.states[i - 1].jobs {
      k := JobStarted(t, i - 1, job);
    } else {
      NewJob(t.env, t.states[i - 1], t.events[i - 1], t.nows[i - 1], t.states[i], job);
      k := i - 1;
    }
  }

  // ---- freshness ----

  /** The time of the last timeout tick before event i, or the start. */
  function LastCull(t: Trace, start: int64, i: nat): int64
    requires i <= |t.events| == |t.nows|
  {
    if i == 0 then start
    else if t.events[i - 1].TimeoutTick? then t.nows[i - 1]
    else LastCull(t, start, i - 1)
  }

  /** The largest timestamp an open connection was given since it was opened. */
  function BestTimestamp(t: Trace, i: nat, id: ConnectionId): int
    requires i < |t.states| && id in t.states[i].conns.open
  {
    var current := t.states[i].conns.open[id].timestamp;
    if i == 0 || id !in t.states[i - 1].conns.open then current
    else
      var before := BestTimestamp(t, i - 1, id);
      if before < current then current else before
  }

  /** Timeout ticks come at most POW_TIMEOUT apart. */
  ghost predicate CullsInTime(t: Trace, start: int64)
    requires t.IsRun()
  {
    && (forall i :: 0 <= i < |t.nows| ==> start <= t.nows[i])
    && forall i :: 0 <= i < |t.events| ==> t.nows[i] - LastCull(t, start, i) <= POW_TIMEOUT
  }

  lemma {:induction false} FreshAtLastCull(t: Trace, start: int64, i: nat, id: ConnectionId)
    requires t.IsRun() && CullsInTime(t, start)
    requires i < |t.states| && id in t.states[i].conns.open
    ensures BestTimestamp(t, i, id) >= LastCull(t, start, i) - POW_TIMEOUT
  {
    hide Step, StepMessage, StepConnection, Enabled;
    if i > 0 {
      var s, e, now, s' := t.states[i - 1], t.events[i - 1], t.nows[i - 1], t.states[i];
      assert StepsTo(t.env, s, e, now, s');
      LastCullIsPast(t, start, i - 1);
      if id !in s.conns.open {
        HowItOpens(t.env, s, e, now, s', id);
      } else {
        FreshAtLastCull(t, start, i - 1, id);
        if e.TimeoutTick? {
          SurvivorIsFresh(t.env, s, e, now, s', id);
        }
      }
    }
  }

  /** A peer that a timeout tick leaves open has a timestamp less than POW_TIMEOUT old. */
  lemma SurvivorIsFresh(env: Env, s: Node, e: Event, now: int64, s': Node, id: ConnectionId)
    requires StepsTo(env, s, e, now, s') && e.TimeoutTick? && id in s'.conns.open
    ensures id in s.conns.open && s'.conns.open[id] == s.conns.open[id] &&
      now - s'.conns.open[id].timestamp < POW_TIMEOUT
  {
  }

  lemma {:induction false} LastCullIsPast(t: Trace, start: int64, i: nat)
    requires t.IsRun() && CullsInTime(t, start) && i < |t.nows|
    ensures LastCull(t, start, i) <= t.nows[i]
  {
    hide Step, StepMessage, StepConnection, Enabled;
    if i > 0 {
      LastCullIsPast(t, start, i - 1);
    }
  }

  /** At any time, an open peer was given since it opened a timestamp at most 2 * POW_TIMEOUT old.
      The stored timestamp itself may go back, since a renewal does not check the cookie's age. */
  lemma OpenPeersAreFresh(t: Trace, start: int64, i: nat, id: ConnectionId)
    requires t.IsRun() && CullsInTime(t, start)
    requires i < |t.events| && id in t.states[i].conns.open
    ensures t.nows[i] - BestTimestamp(t, i, id) <= 2 * POW_TIMEOUT
  {
    hide Step, StepMessage, StepConnection, Enabled;
    FreshAtLastCull(t, start, i, id);
  }

  // ---- the honest handshake ----

  /** A peer asks for a cookie in event k and returns it in event j with any nonce that ComputePoW can give
      for it. Whatever happened to the other connections meanwhile: if it is still in progress, its connection
      opens with the cookie's timestamp when the answer is in time, and is removed when it is not. */
  lemma HonestHandshakeCompletes(t: Trace, k: nat, j: nat, id: ConnectionId, chall: bytes, nonce: uint64)
    requires t.IsRun() && t.FreshIds() && t.env.aead.Correct()
    requires k < j < |t.events| && t.events[k] == ConnReq(id, chall) && id in t.states[k].conns.inProgress
    requires var c := CreateCookie(t.env.aead, Cookie(chall, t.nows[k], id));
      t.events[j] == ConnPoW(id, nonce, c) && Computed(t.env.hash, c, nonce) && id in t.states[j].conns.inProgress
    ensures StepsTo(t.env, t.states[k], t.events[k], t.nows[k], t.states[k + 1])
    ensures Step(t.env, t.states[k], t.events[k], t.nows[k]).1
         == [ToPeer(id, MConnChall(CreateCookie(t.env.aead, Cookie(chall, t.nows[k], id))))]
    ensures if t.nows[j] - t.nows[k] <= POW_TIMEOUT
            then id in t.states[j + 1].conns.open && t.states[j + 1].conns.open[id].timestamp == t.nows[k]
                 && id !in t.states[j + 1].conns.inProgress
            else !t.states[j + 1].conns.Has(id)
  {
    assert StepsTo(t.env, t.states[k], t.events[k], t.nows[k], t.states[k + 1]);
    assert StepsTo(t.env, t.states[j], t.events[j], t.nows[j], t.states[j + 1]);
    AlwaysDisjoint(t, j);
    CreatedCookieOpens(t.env, t.states[j], id, Cookie(chall, t.nows[k], id), nonce, t.nows[j], t.states[j + 1]);
  }

  lemma CreatedCookieOpens(env: Env, s: Node, id: ConnectionId, c: Cookie, nonce: uint64, now: int64, s': Node)
    requires env.aead.Correct() && |c.chall| == NONCE_SIZE && c.dest == id
    requires Computed(env.hash, CreateCookie(env.aead, c), nonce)
    requires id in s.conns.inProgress && id !in s.conns.open && id !in s.conns.toBeProved
    requires StepsTo(env, s, ConnPoW(id, nonce, CreateCookie(env.aead, c)), now, s')
    ensures if now - c.timestamp <= POW_TIMEOUT
            then id in s'.conns.open && s'.conns.open[id].timestamp == c.timestamp && id !in s'.conns.inProgress
            else !s'.conns.Has(id)
  {
    ReadsBackCreated(env.aead, c);
    ComputedPasses(env.hash, CreateCookie(env.aead, c), nonce);
  }
}
