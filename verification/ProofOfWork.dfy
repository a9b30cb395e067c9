/** The proof of work: what is hashed, the check, and the parallel search as a step system. */
module ProofOfWork {
  import opened Basics
  import opened Bytes

  const WORKERS: nat := 32
  const NONCES: nat := 0x1_0000_0000_0000_0000

  type Digest = d: seq<byte> | |d| == 32 witness seq(32, _ => 0)

  /** SHA-256, of which only the type is used. */
  type Hash = bytes -> Digest

  predicate First8bits0(digest: Digest) {
    digest[0] == 0
  }

  /** A work item's byte layout: a part that is skipped, the rest of the data, and the nonce. */
  datatype Layout = Layout(skipped: bytes, prefix: bytes) {
    function Marshal(nonce: uint64): bytes {
      skipped + prefix + BE64(nonce)
    }
  }

  predicate CheckProofOfWork(hash: Hash, pred: Digest -> bool, e: Layout, nonce: uint64) {
    pred(hash(e.Marshal(nonce)[|e.skipped|..]))
  }

  /** The work item of a handshake: the cookie followed by the nonce; nothing is skipped. */
  class PowMarsh {
    var PowNonce: uint64
    var Cookie: bytes

    constructor (nonce: uint64, cookie: bytes)
      ensures PowNonce == nonce && Cookie == cookie
    {
      PowNonce, Cookie := nonce, cookie;
    }

    ghost function Item(): Layout
      reads this
    {
      Layout([], Cookie)
    }

    method Marshal() returns (buf: array<byte>)
      ensures fresh(buf) && buf[..] == Item().Marshal(PowNonce)
    {
      buf := new byte[8 + |Cookie|](_ => 0);
      var idx := 0;
      CopyInto(buf, idx, Cookie);
      idx := idx + |Cookie|;
      CopyInto(buf, idx, BE64(PowNonce));
      assert buf[..] == Cookie + BE64(PowNonce);
      assert [] + Cookie == Cookie;
    }

    method SetNonce(n: uint64)
      modifies this`PowNonce
      ensures PowNonce == n
    {
      PowNonce := n;
    }

    method AddToNonce(n: uint64)
      modifies this`PowNonce
      ensures PowNonce == (old(PowNonce) + n) % NONCES
    {
      PowNonce := (PowNonce + n) % NONCES;
    }

    function StripPrefixLen(): (n: nat)
      reads this
      ensures n == |Item().skipped|
    {
      0
    }

    function PrefixLen(): (n: nat)
      reads this
      ensures n == |Item().prefix|
    {
      |Cookie|
    }

    method Clone() returns (c: PowMarsh)
      ensures fresh(c) && c.Item() == Item() && c.PowNonce == PowNonce
    {
      c := new PowMarsh(PowNonce, Cookie);
    }
  }

  /** The check on a work item object: one hash over the stripped marshalling. */
  method CheckWork(hash: Hash, pred: Digest -> bool, e: PowMarsh) returns (ok: bool)
    ensures ok == CheckProofOfWork(hash, pred, e.Item(), e.PowNonce)
  {
    var buf := e.Marshal();
    assert buf[..][e.StripPrefixLen()..] == e.Item().Marshal(e.PowNonce)[|e.Item().skipped|..];
    ok := pred(hash(buf[..][e.StripPrefixLen()..]));
  }

  /** The nonce a worker tries in its k-th turn. */
  function NonceAt(id: nat, k: nat): uint64 {
    (id + WORKERS * k) % NONCES
  }

  /** Every nonce belongs to exactly one worker and turn of the first 2^59 turns. */
  lemma NoncesPartitioned(n: uint64)
    ensures n % WORKERS < WORKERS && n / WORKERS < NONCES / WORKERS
    ensures NonceAt(n % WORKERS, n / WORKERS) == n
    ensures forall id: nat, k: nat ::
      id < WORKERS && k < NONCES / WORKERS && NonceAt(id, k) == n ==> id == n % WORKERS && k == n / WORKERS
  {
  }

  datatype Pc = Selecting | Trying | Offering | Stopped

  /** A search worker: the turn it is in, its nonce, the saved and the current hash input. */
  datatype Worker = Worker(id: nat, turn: nat, nonce: uint64, saved: bytes, written: bytes, pc: Pc)

  datatype Caller = Spawning | Receiving | Received(r: uint64) | Cancelled(r: uint64) | Returned(r: uint64)

  datatype Search = Search(workers: seq<Worker>, caller: Caller)

  /** The problem searched: hash, predicate and work item. */
  datatype Problem = Problem(hash: Hash, pred: Digest -> bool, item: Layout) {
    predicate Solves(nonce: uint64) {
      CheckProofOfWork(hash, pred, item, nonce)
    }
  }

  /** A new worker hashes the marshalled item without skipped part and nonce, and keeps that state. */
  function Spawned(p: Problem, id: nat): Worker
    requires id < WORKERS
  {
    var m := p.item.Marshal(0)[|p.item.skipped|..];
    Worker(id, 0, id, m[..|p.item.prefix|], [], Selecting)
  }

  function CallerStep(p: Problem, s: Search): Search
    requires |s.workers| <= WORKERS
  {
    match s.caller
    case Spawning =>
      if |s.workers| < WORKERS then s.(workers := s.workers + [Spawned(p, |s.workers|)]) else s.(caller := Receiving)
    case Cancelled(r) =>
      if forall w :: w in s.workers ==> w.pc.Stopped? then s.(caller := Returned(r)) else s
    case Received(r) => s.(caller := Cancelled(r))
    case _ => s  // waiting for a result, or done
  }

  predicate ContextDone(c: Caller) {
    c.Cancelled? || c.Returned?
  }

  function WorkerStep(p: Problem, s: Search, i: nat): Search
    requires i < |s.workers|
  {
    var w := s.workers[i];
    match w.pc
    case Selecting =>
      s.(workers := s.workers[i := w.(pc := if ContextDone(s.caller) then Stopped else Trying)])
    case Trying =>
      var written := w.saved + BE64(w.nonce);  // the hash state is restored before the nonce is written
      var w' := w.(written := written);
      if p.pred(p.hash(written)) then s.(workers := s.workers[i := w'.(pc := Offering)])
      else s.(workers :=
        s.workers[i := w'.(turn := w.turn + 1, nonce := (w.nonce + WORKERS) % NONCES, pc := Selecting)])
    case Offering =>
      // a result is taken only while the caller waits for one; otherwise it is dropped
      Search(s.workers[i := w.(pc := Stopped)], if s.caller.Receiving? then Received(w.nonce) else s.caller)
    case Stopped => s
  }

  predicate SearchStep(p: Problem, s: Search, s': Search) {
    (|s.workers| <= WORKERS && s' == CallerStep(p, s)) || exists i :: 0 <= i < |s.workers| && s' == WorkerStep(p, s, i)
  }

  const IDLE := Search([], Spawning)

  ghost predicate SearchRun(p: Problem, run: seq<Search>) {
    && run != [] && run[0] == IDLE
    && forall i :: 0 <= i < |run| - 1 ==> SearchStep(p, run[i], run[i + 1])
  }

  ghost predicate WorkerOk(p: Problem, w: Worker, id: nat) {
    && w.id == id < WORKERS && w.nonce == NonceAt(id, w.turn)
    && w.saved == p.item.prefix
    && (w.pc.Offering? ==> p.Solves(w.nonce))
    && forall k: nat :: k < w.turn ==> !p.Solves(NonceAt(id, k))
  }

  function Result(c: Caller): Option<uint64> {
    match c
    case Received(r) => Some(r)
    case Cancelled(r) => Some(r)
    case Returned(r) => Some(r)
    case _ => None
  }

  /** A result solves the problem, and no earlier nonce of the same worker does. */
  ghost predicate ResultOk(p: Problem, r: uint64) {
    && p.Solves(r)
    && exists k: nat :: r == NonceAt(r % WORKERS, k) && forall j: nat :: j < k ==> !p.Solves(NonceAt(r % WORKERS, j))
  }

  ghost predicate Inv(p: Problem, s: Search) {
    && |s.workers| <= WORKERS
    && (forall i :: 0 <= i < |s.workers| ==> WorkerOk(p, s.workers[i], i))
    && (Result(s.caller).Some? ==> ResultOk(p, Result(s.caller).value))
    && (s.caller.Returned? ==> forall w :: w in s.workers ==> w.pc.Stopped?)
  }

  /** Hashing the restored prefix state and then the nonce is hashing the whole stripped item. */
  lemma RestoredStateHashesAll(item: Layout, nonce: uint64)
    ensures item.prefix + BE64(nonce) == item.Marshal(nonce)[|item.skipped|..]
    ensures item.Marshal(nonce)[|item.skipped|..][..|item.prefix|] == item.prefix
  {
  }

  lemma NextNonce(id: nat, k: nat)
    ensures (NonceAt(id, k) + WORKERS) % NONCES == NonceAt(id, k + 1)
  {
  }

  lemma NonceKeepsResidue(id: nat, k: nat)
    requires id < WORKERS
    ensures NonceAt(id, k) % WORKERS == id
  {
  }

  lemma WorkerStepKeepsInv(p: Problem, s: Search, i: nat)
    requires Inv(p, s) && i < |s.workers|
    ensures Inv(p, WorkerStep(p, s, i))
  {
    WorkerMoveOk(p, s, i);
    var w := s.workers[i];
    if w.pc.Offering? && s.caller.Receiving? {
      OfferOk(p, w);
    }
  }

  lemma WorkerMoveOk(p: Problem, s: Search, i: nat)
    requires i < |s.workers| && WorkerOk(p, s.workers[i], i)
    ensures WorkerOk(p, WorkerStep(p, s, i).workers[i], i)
  {
    var w := s.workers[i];
    if w.pc.Trying? {
      TryOk(p, w);
    }
  }

  lemma TryOk(p: Problem, w: Worker)
    requires WorkerOk(p, w, w.id) && w.pc.Trying?
    ensures p.pred(p.hash(w.saved + BE64(w.nonce))) <==> p.Solves(w.nonce)
    ensures !p.Solves(w.nonce) ==> forall k: nat :: k < w.turn + 1 ==> !p.Solves(NonceAt(w.id, k))
    ensures (w.nonce + WORKERS) % NONCES == NonceAt(w.id, w.turn + 1)
  {
    RestoredStateHashesAll(p.item, w.nonce);
    NextNonce(w.id, w.turn);
  }

  lemma OfferOk(p: Problem, w: Worker)
    requires WorkerOk(p, w, w.id) && w.pc.Offering?
    ensures ResultOk(p, w.nonce)
  {
    NonceKeepsResidue(w.id, w.turn);
  }

  lemma CallerStepKeepsInv(p: Problem, s: Search)
    requires Inv(p, s)
    ensures Inv(p, CallerStep(p, s))
  {
    if s.caller.Spawning? && |s.workers| < WORKERS {
      SpawnedOk(p, |s.workers|);
    }
  }

  lemma SpawnedOk(p: Problem, id: nat)
    requires id < WORKERS
    ensures WorkerOk(p, Spawned(p, id), id)
  {
    RestoredStateHashesAll(p.item, 0);
  }

  lemma StepKeepsInv(p: Problem, s: Search, s': Search)
    requires Inv(p, s) && SearchStep(p, s, s')
    ensures Inv(p, s')
  {
    if s' == CallerStep(p, s) {
      CallerStepKeepsInv(p, s);
    } else {
      var i :| 0 <= i < |s.workers| && s' == WorkerStep(p, s, i);
      WorkerStepKeepsInv(p, s, i);
    }
  }

  lemma {:induction false} RunKeepsInv(p: Problem, run: seq<Search>, i: nat)
    requires SearchRun(p, run) && i < |run|
    ensures Inv(p, run[i])
  {
    if i > 0 {
      RunKeepsInv(p, run, i - 1);
      StepKeepsInv(p, run[i - 1], run[i]);
    }
  }

  /** Every result solves the problem, and no earlier nonce of its worker does. */
  lemma ResultSolves(p: Problem, run: seq<Search>, i: nat)
    requires SearchRun(p, run) && i < |run| && Result(run[i].caller).Some?
    ensures p.Solves(Result(run[i].caller).value) && ResultOk(p, Result(run[i].caller).value)
  {
    RunKeepsInv(p, run, i);
  }

  /** At most one value is received: a result never changes again. */
  lemma {:induction false} OneResult(p: Problem, run: seq<Search>, i: nat, j: nat)
    requires SearchRun(p, run) && i <= j < |run| && Result(run[i].caller).Some?
    ensures Result(run[j].caller) == Result(run[i].caller)
  {
    if i < j {
      OneResult(p, run, i, j - 1);
      assert SearchStep(p, run[j - 1], run[j]);
    }
  }

  /** How many own steps a worker can still take once the context is done. */
  function StepsLeft(pc: Pc): nat {
    match pc
    case Trying => 2
    case Selecting => 1
    case Offering => 1
    case Stopped => 0
  }

  function ExitWork(ws: seq<Worker>): nat {
    if ws == [] then 0 else ExitWork(ws[..|ws| - 1]) + StepsLeft(ws[|ws| - 1].pc)
  }

  lemma {:induction false} ExitWorkUpdated(ws: seq<Worker>, i: nat, w: Worker)
    requires i < |ws|
    ensures ExitWork(ws[i := w]) == ExitWork(ws) - StepsLeft(ws[i].pc) + StepsLeft(w.pc)
  {
    var last := |ws| - 1;
    if i < last {
      ExitWorkUpdated(ws[..last], i, w);
      assert ws[i := w][..last] == ws[..last][i := w];
    } else {
      assert ws[i := w][..last] == ws[..last];
    }
  }

  lemma {:induction false} ExitWorkZero(ws: seq<Worker>)
    ensures ExitWork(ws) == 0 <==> forall w :: w in ws ==> w.pc.Stopped?
  {
    if ws != [] {
      ExitWorkZero(ws[..|ws| - 1]);
      assert ws == ws[..|ws| - 1] + [ws[|ws| - 1]];
    }
  }

  lemma RunningWorkerMoves(p: Problem, s: Search, i: nat)
    requires i < |s.workers| && !s.workers[i].pc.Stopped? && ContextDone(s.caller)
    ensures ExitWork(WorkerStep(p, s, i).workers) < ExitWork(s.workers) && WorkerStep(p, s, i).caller == s.caller
  {
    ExitWorkUpdated(s.workers, i, WorkerStep(p, s, i).workers[i]);
  }

  lemma {:induction false} ExitWorkAtMost(ws: seq<Worker>)
    ensures ExitWork(ws) <= 2 * |ws|
  {
    if ws != [] {
      ExitWorkAtMost(ws[..|ws| - 1]);
    }
  }

  /** How many of the steps from state i to state j of a run change a worker. */
  function WorkerMoves(run: seq<Search>, i: nat, j: nat): nat
    requires i <= j < |run|
  {
    if i == j then 0 else WorkerMoves(run, i, j - 1) + if run[j - 1].workers == run[j].workers then 0 else 1
  }

  lemma StepAfterDone(p: Problem, s: Search, s': Search)
    requires SearchStep(p, s, s') && ContextDone(s.caller)
    ensures |s'.workers| == |s.workers| && ContextDone(s'.caller) && Result(s'.caller) == Result(s.caller)
    ensures s'.workers == s.workers || ExitWork(s'.workers) < ExitWork(s.workers)
  {
    if |s.workers| > WORKERS || s' != CallerStep(p, s) {
      var i :| 0 <= i < |s.workers| && s' == WorkerStep(p, s, i);
      if !s.workers[i].pc.Stopped? {
        RunningWorkerMoves(p, s, i);
      }
    }
  }

  lemma RunStepAfterDone(p: Problem, run: seq<Search>, n: nat)
    requires SearchRun(p, run) && n < |run| - 1 && ContextDone(run[n].caller)
    ensures |run[n + 1].workers| == |run[n].workers| && ContextDone(run[n + 1].caller)
    ensures Result(run[n + 1].caller) == Result(run[n].caller)
    ensures MovesOrStays(run, n)
  {
    hide CallerStep, WorkerStep, Result, ExitWork;
    assert SearchStep(p, run[n], run[n + 1]);
    StepAfterDone(p, run[n], run[n + 1]);
  }

  lemma {:induction false} StaysDone(p: Problem, run: seq<Search>, i: nat, j: nat)
    requires SearchRun(p, run) && i <= j < |run| && ContextDone(run[i].caller)
    ensures ContextDone(run[j].caller) && |run[j].workers| == |run[i].workers| &&
      Result(run[j].caller) == Result(run[i].caller)
  {
    hide SearchStep, Result;
    if i < j {
      StaysDone(p, run, i, j - 1);
      RunStepAfterDone(p, run, j - 1);
    }
  }

  lemma {:induction false} MovesBounded(run: seq<Search>, i: nat, j: nat)
    requires i <= j < |run|
    requires forall n :: i <= n < j ==> MovesOrStays(run, n)
    ensures WorkerMoves(run, i, j) + ExitWork(run[j].workers) <= ExitWork(run[i].workers)
  {
    if i < j {
      MovesBounded(run, i, j - 1);
      assert MovesOrStays(run, j - 1);
    }
  }

  predicate MovesOrStays(run: seq<Search>, n: nat)
    requires n < |run| - 1
  {
    run[n + 1].workers == run[n].workers || ExitWork(run[n + 1].workers) < ExitWork(run[n].workers)
  }

  /** In every run, once the context is done, the workers make at most two moves each, however the steps
      interleave. */
  lemma FewMovesAfterDone(p: Problem, run: seq<Search>, i: nat, j: nat)
    requires SearchRun(p, run) && i <= j < |run| && ContextDone(run[i].caller)
    ensures WorkerMoves(run, i, j) + ExitWork(run[j].workers) <= ExitWork(run[i].workers) <= 2 * |run[i].workers|
  {
    ExitWorkAtMost(run[i].workers);
    forall n | i <= n < j ensures MovesOrStays(run, n) {
      StaysDone(p, run, i, n);
      RunStepAfterDone(p, run, n);
    }
    MovesBounded(run, i, j);
  }

  /** Once the context is done no worker can block. In every run the workers then make at most two moves
      each; while one of them is running each of its steps is such a move; and when all have stopped the
      caller's step returns the value it received. */
  lemma WorkersExit(p: Problem, run: seq<Search>, i: nat, j: nat)
    requires SearchRun(p, run) && i <= j < |run| && run[i].caller.Cancelled?
    ensures WorkerMoves(run, i, j) <= 2 * |run[i].workers| <= 2 * WORKERS
    ensures forall w :: 0 <= w < |run[j].workers| && !run[j].workers[w].pc.Stopped? ==>
      WorkerStep(p, run[j], w).workers != run[j].workers
    ensures |run[j].workers| <= WORKERS
    ensures (forall w :: w in run[j].workers ==> w.pc.Stopped?) ==>
      CallerStep(p, run[j]).caller == Returned(run[i].caller.r)
  {
    RunKeepsInv(p, run, i);
    StaysDone(p, run, i, j);
    FewMovesAfterDone(p, run, i, j);
    forall w | 0 <= w < |run[j].workers| && !run[j].workers[w].pc.Stopped?
      ensures WorkerStep(p, run[j], w).workers != run[j].workers
    {
      RunningWorkerMoves(p, run[j], w);
    }
  }

  /** A value that ComputePoW may return for a cookie. */
  ghost predicate Computed(hash: Hash, cookie: bytes, nonce: uint64) {
    exists run: seq<Search> ::
      SearchRun(Problem(hash, First8bits0, Layout([], cookie)), run) && run[|run| - 1].caller == Returned(nonce)
  }

  lemma ComputedPasses(hash: Hash, cookie: bytes, nonce: uint64)
    requires Computed(hash, cookie, nonce)
    ensures CheckProofOfWork(hash, First8bits0, Layout([], cookie), nonce)
  {
    var p := Problem(hash, First8bits0, Layout([], cookie));
    var run: seq<Search> :| SearchRun(p, run) && run[|run| - 1].caller == Returned(nonce);
    ResultSolves(p, run, |run| - 1);
  }

  // ---- what a search can return ----

  /** Some run comes to this state. */
  ghost predicate Comes(p: Problem, s: Search) {
    exists run: seq<Search> :: SearchRun(p, run) && run[|run| - 1] == s
  }

  lemma ComesFurther(p: Problem, s: Search, s': Search)
    requires Comes(p, s) && SearchStep(p, s, s')
    ensures Comes(p, s')
  {
    hide SearchStep;
    var run: seq<Search> :| SearchRun(p, run) && run[|run| - 1] == s;
    var more := run + [s'];
    forall i | 0 <= i < |more| - 1 ensures SearchStep(p, more[i], more[i + 1]) {
      if i < |run| - 1 {
        assert SearchStep(p, run[i], run[i + 1]);
      }
    }
    assert SearchRun(p, more);
  }

  lemma CallerGoesOn(p: Problem, s: Search)
    requires Comes(p, s) && |s.workers| <= WORKERS
    ensures Comes(p, CallerStep(p, s))
  {
    hide CallerStep;
    assert SearchStep(p, s, CallerStep(p, s));
    ComesFurther(p, s, CallerStep(p, s));
  }

  lemma WorkerGoesOn(p: Problem, s: Search, i: nat)
    requires Comes(p, s) && i < |s.workers|
    ensures Comes(p, WorkerStep(p, s, i))
  {
    hide WorkerStep;
    assert SearchStep(p, s, WorkerStep(p, s, i));
    ComesFurther(p, s, WorkerStep(p, s, i));
  }

  function FirstWorkers(p: Problem, n: nat): (ws: seq<Worker>)
    requires n <= WORKERS
    ensures |ws| == n && forall i :: 0 <= i < n ==> ws[i] == Spawned(p, i)
  {
    seq(n, i requires 0 <= i < n => Spawned(p, i))
  }

  lemma {:induction false} AllGetSpawned(p: Problem, n: nat)
    requires n <= WORKERS
    ensures Comes(p, Search(FirstWorkers(p, n), Spawning))
  {
    if n == 0 {
      assert FirstWorkers(p, 0) == [];
      assert SearchRun(p, [IDLE]);
    } else {
      AllGetSpawned(p, n - 1);
      CallerGoesOn(p, Search(FirstWorkers(p, n - 1), Spawning));
      assert FirstWorkers(p, n) == FirstWorkers(p, n - 1) + [Spawned(p, n - 1)];
    }
  }

  /** Worker `id` when it comes to its k-th turn. */
  function AtTurn(p: Problem, id: nat, k: nat): Worker {
    Worker(id, k, NonceAt(id, k), p.item.prefix,
           if k == 0 then [] else p.item.prefix + BE64(NonceAt(id, k - 1)), Selecting)
  }

  lemma SpawnedAtTurn(p: Problem, id: nat)
    requires id < WORKERS
    ensures Spawned(p, id) == AtTurn(p, id, 0)
  {
    hide CheckProofOfWork;
    RestoredStateHashesAll(p.item, 0);
    assert NonceAt(id, 0) == id;
  }

  lemma FailedTurn(p: Problem, ws: seq<Worker>, id: nat, k: nat)
    requires id < |ws| <= WORKERS && ws[id] == AtTurn(p, id, k) && !p.Solves(NonceAt(id, k))
    requires Comes(p, Search(ws, Receiving))
    ensures Comes(p, Search(ws[id := AtTurn(p, id, k + 1)], Receiving))
  {
    hide Comes;
    var s := Search(ws, Receiving);
    TwoStepsOfTurn(p, s, id, k);
    WorkerGoesOn(p, s, id);
    WorkerGoesOn(p, WorkerStep(p, s, id), id);
  }

  lemma TwoStepsOfTurn(p: Problem, s: Search, id: nat, k: nat)
    requires id < |s.workers| && s.workers[id] == AtTurn(p, id, k) && !p.Solves(NonceAt(id, k)) && s.caller.Receiving?
    ensures var s1 := WorkerStep(p, s, id);
      && |s1.workers| == |s.workers|
      && WorkerStep(p, s1, id) == Search(s.workers[id := AtTurn(p, id, k + 1)], Receiving)
  {
    hide NonceAt;
    RestoredStateHashesAll(p.item, NonceAt(id, k));
    NextNonce(id, k);
  }

  lemma {:induction false} FailedTurns(p: Problem, id: nat, k: nat)
    requires id < WORKERS && forall j: nat :: j < k ==> !p.Solves(NonceAt(id, j))
    ensures Comes(p, Search(FirstWorkers(p, WORKERS)[id := AtTurn(p, id, k)], Receiving))
  {
    hide Comes, NonceAt, AtTurn, Spawned;
    var all := FirstWorkers(p, WORKERS);
    if k == 0 {
      SpawnedAtTurn(p, id);
      AllGetSpawned(p, WORKERS);
      CallerGoesOn(p, Search(all, Spawning));
      assert all[id := AtTurn(p, id, 0)] == all;
    } else {
      FailedTurns(p, id, k - 1);
      var ws := all[id := AtTurn(p, id, k - 1)];
      FailedTurn(p, ws, id, k - 1);
      assert ws[id := AtTurn(p, id, k)] == all[id := AtTurn(p, id, k)];
    }
  }

  /** A worker whose nonce solves hands it over to a caller that waits. */
  lemma HandsOver(p: Problem, ws: seq<Worker>, id: nat, k: nat)
    requires id < |ws| <= WORKERS && ws[id] == AtTurn(p, id, k) && p.Solves(NonceAt(id, k))
    requires Comes(p, Search(ws, Receiving))
    ensures exists w: Worker :: w.pc.Stopped? && Comes(p, Search(ws[id := w], Cancelled(NonceAt(id, k))))
  {
    var s := Search(ws, Receiving);
    WorkerGoesOn(p, s, id);
    var s1 := WorkerStep(p, s, id);
    WorkerGoesOn(p, s1, id);
    RestoredStateHashesAll(p.item, NonceAt(id, k));
    var s2 := WorkerStep(p, s1, id);
    assert s2.workers[id].pc.Offering? && s2.workers[id].nonce == NonceAt(id, k);
    WorkerGoesOn(p, s2, id);
    var s3 := WorkerStep(p, s2, id);
    CallerGoesOn(p, s3);
    assert s3.workers == ws[id := s3.workers[id]];
  }

  /** All workers from place i on stop, one after the other, and the caller returns. */
  lemma {:induction false} AllStop(p: Problem, ws: seq<Worker>, i: nat, r: uint64)
    requires i <= |ws| <= WORKERS && Comes(p, Search(ws, Cancelled(r)))
    requires forall j :: 0 <= j < |ws| ==> ws[j].pc.Stopped? || (ws[j].pc.Selecting? && i <= j)
    ensures exists s :: Comes(p, s) && s.caller == Returned(r)
    decreases |ws| - i
  {
    var s := Search(ws, Cancelled(r));
    if i == |ws| {
      CallerGoesOn(p, s);
      assert CallerStep(p, s).caller == Returned(r);
    } else {
      WorkerGoesOn(p, s, i);
      AllStop(p, WorkerStep(p, s, i).workers, i + 1, r);
    }
  }

  lemma FirstSolutionReturned(p: Problem, id: nat, k: nat)
    requires id < WORKERS && p.Solves(NonceAt(id, k)) && forall j: nat :: j < k ==> !p.Solves(NonceAt(id, j))
    ensures exists s :: Comes(p, s) && s.caller == Returned(NonceAt(id, k))
  {
    var all := FirstWorkers(p, WORKERS);
    FailedTurns(p, id, k);
    var ws := all[id := AtTurn(p, id, k)];
    HandsOver(p, ws, id, k);
    var w: Worker :| w.pc.Stopped? && Comes(p, Search(ws[id := w], Cancelled(NonceAt(id, k))));
    AllStop(p, ws[id := w], 0, NonceAt(id, k));
  }

  lemma EarlierTurns(nonce: uint64, m: uint64, k: nat)
    requires nonce == NonceAt(nonce % WORKERS, k) && m < nonce && m % WORKERS == nonce % WORKERS
    ensures m / WORKERS < k && m == NonceAt(nonce % WORKERS, m / WORKERS)
  {
    NoncesPartitioned(m);
  }

  lemma TurnsBelow(nonce: uint64, j: nat)
    requires j < nonce / WORKERS
    ensures NonceAt(nonce % WORKERS, j) < nonce && NonceAt(nonce % WORKERS, j) % WORKERS == nonce % WORKERS
  {
    NonceKeepsResidue(nonce % WORKERS, j);
  }

  /** What ComputePoW can return for a cookie, however its workers interleave: a nonce whose hash with the cookie
      starts with a zero byte, while no smaller nonce with the same remainder by 32 has such a hash. */
  lemma ComputedIff(hash: Hash, cookie: bytes, nonce: uint64)
    ensures Computed(hash, cookie, nonce) <==>
      (hash(cookie + BE64(nonce))[0] == 0 &&
       forall m: uint64 :: m < nonce && m % 32 == nonce % 32 ==> hash(cookie + BE64(m))[0] != 0)
  {
    var p := Problem(hash, First8bits0, Layout([], cookie));
    forall m: uint64 ensures p.Solves(m) <==> hash(cookie + BE64(m))[0] == 0 {
      SolvesMeans(hash, cookie, m);
    }
    hide Comes, SearchRun, CheckProofOfWork, NonceAt;
    if Computed(hash, cookie, nonce) {
      var k := ResultTurn(hash, cookie, nonce);
      forall m: uint64 | m < nonce && m % 32 == nonce % 32 ensures !p.Solves(m) {
        EarlierTurns(nonce, m, k);
      }
    }
    if p.Solves(nonce) && forall m: uint64 :: m < nonce && m % 32 == nonce % 32 ==> !p.Solves(m) {
      forall j: nat | j < nonce / WORKERS ensures !p.Solves(NonceAt(nonce % WORKERS, j)) {
        TurnsBelow(nonce, j);
      }
      NoncesPartitioned(nonce);
      FirstSolutionReturned(p, nonce % WORKERS, nonce / WORKERS);
      ReturnedIsComputed(hash, cookie, nonce);
    }
  }

  lemma SolvesMeans(hash: Hash, cookie: bytes, m: uint64)
    ensures Problem(hash, First8bits0, Layout([], cookie)).Solves(m) <==> hash(cookie + BE64(m))[0] == 0
  {
    assert Layout([], cookie).Marshal(m)[0..] == cookie + BE64(m);
  }

  lemma ReturnedIsComputed(hash: Hash, cookie: bytes, nonce: uint64)
    requires exists s :: Comes(Problem(hash, First8bits0, Layout([], cookie)), s) && s.caller == Returned(nonce)
    ensures Computed(hash, cookie, nonce)
  {
  }

  lemma ResultTurn(hash: Hash, cookie: bytes, nonce: uint64) returns (k: nat)
    requires Computed(hash, cookie, nonce)
    ensures var p := Problem(hash, First8bits0, Layout([], cookie));
      && p.Solves(nonce) && nonce == NonceAt(nonce % WORKERS, k)
      && forall j: nat :: j < k ==> !p.Solves(NonceAt(nonce % WORKERS, j))
  {
    var p := Problem(hash, First8bits0, Layout([], cookie));
    var run: seq<Search> :| SearchRun(p, run) && run[|run| - 1].caller == Returned(nonce);
    ResultSolves(p, run, |run| - 1);
    k :| nonce == NonceAt(nonce % WORKERS, k) && forall j: nat :: j < k ==> !p.Solves(NonceAt(nonce % WORKERS, j));
  }
}
