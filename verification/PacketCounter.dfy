/** Counting sent packets: counters report one count per window of time, and a tester adds up what all of them
    logged. Both fold counts into the current bucket with the same few lines. */
module PacketCounter {
  import opened Basics

  const WIDTH: nat := 0x1_0000_0000_0000_0000  // of Go's uint, which wraps around

  /** Nanoseconds since the zero time. */
  type Time = nat

  datatype Count = Count(bucket: Time, cnt: uint64)

  /** The current bucket and what was counted in it, and the finished buckets. */
  datatype State = State(t: Time, cnt: uint64, reported: seq<Count>) {
    function Flushed(): seq<Count> {
      if t == 0 then reported else reported + [Count(t, cnt)]
    }

    function Next(c: Count): State {
      if c.bucket == t then this.(cnt := (cnt + c.cnt) % WIDTH) else State(c.bucket, c.cnt, Flushed())
    }
  }

  function AddUp(counts: seq<Count>): State {
    if counts == [] then State(0, 0, []) else AddUp(counts[..|counts| - 1]).Next(counts[|counts| - 1])
  }

  // ---- the counter ----

  /** time.Time.Truncate */
  function Truncate(t: Time, d: int): Time {
    if d <= 0 then t else t - t % d
  }

  class Counter {
    var t: Time
    var cnt: uint64
    var reported: seq<Count>  // what `do` was called with
    const granularity: int

    constructor (granularity: int)
      ensures View() == AddUp([]) && this.granularity == granularity
    {
      t, cnt, reported, this.granularity := 0, 0, [], granularity;
    }

    ghost function View(): State
      reads this
    {
      State(t, cnt, reported)
    }

    method Do(t: Time, cnt: uint64)
      modifies this`reported
      ensures reported == old(reported) + [Count(t, cnt)]
    {
      reported := reported + [Count(t, cnt)];
    }

    method Add(i: uint64, clock: Time)
      modifies this
      ensures View() == old(View()).Next(Count(Truncate(clock, granularity), i))
    {
      var now := Truncate(clock, granularity);
      if now == t {
        cnt := (cnt + i) % WIDTH;
        return;
      }
      if t != 0 {
        Do(t, cnt);
      }
      cnt := i;
      t := now;
    }

    method Finalize()
      modifies this
      ensures View() == old(View()).(reported := old(View()).Flushed())
    {
      if t != 0 {
        Do(t, cnt);
      }
    }
  }

  /** One call of Add: i packets, at the time now. */
  datatype Arrival = Arrival(now: Time, i: uint64)

  /** The calls as counts, each of the bucket its time is cut to. */
  function Amounts(d: int, adds: seq<Arrival>): (cs: seq<Count>)
    ensures |cs| == |adds|
  {
    seq(|adds|, i requires 0 <= i < |adds| => Count(Truncate(adds[i].now, d), adds[i].i))
  }

  /** What a counter reports in a run of Adds that one Finalize ends. */
  function Reports(d: int, adds: seq<Arrival>): seq<Count> {
    AddUp(Amounts(d, adds)).Flushed()
  }

  // ---- sums ----

  function Share(c: Count, b: Option<Time>): nat {
    if b == None || b == Some(c.bucket) then c.cnt else 0
  }

  /** The sum of the counts of one bucket, or of all. */
  function Sum(counts: seq<Count>, b: Option<Time>): nat {
    if counts == [] then 0 else Share(counts[|counts| - 1], b) + Sum(counts[..|counts| - 1], b)
  }

  predicate HasBucket(counts: seq<Count>, b: Time) {
    exists i :: 0 <= i < |counts| && counts[i].bucket == b
  }

  predicate NonDecreasing(counts: seq<Count>) {
    forall i :: 0 < i < |counts| ==> counts[i - 1].bucket <= counts[i].bucket
  }

  predicate Increasing(counts: seq<Count>) {
    forall i :: 0 < i < |counts| ==> counts[i - 1].bucket < counts[i].bucket
  }

  lemma SumPush(counts: seq<Count>, c: Count, b: Option<Time>)
    ensures Sum(counts + [c], b) == Share(c, b) + Sum(counts, b)
  {
    assert (counts + [c])[..|counts|] == counts;
  }

  lemma SumAppend(a: seq<Count>, c: seq<Count>, b: Option<Time>)
    ensures Sum(a + c, b) == Sum(a, b) + Sum(c, b)
  {
    if c == [] {
      assert a + c == a;
    } else {
      var front := c[..|c| - 1];
      SumAppend(a, front, b);
      SumPush(a + front, c[|c| - 1], b);
      assert a + c == (a + front) + [c[|c| - 1]];
    }
  }

  lemma SumWithout(counts: seq<Count>, i: nat, b: Option<Time>)
    requires i < |counts|
    ensures Sum(counts, b) == Share(counts[i], b) + Sum(counts[..i] + counts[i + 1..], b)
  {
    var front, back := counts[..i], counts[i + 1..];
    assert counts == front + [counts[i]] + back;
    SumAppend(front + [counts[i]], back, b);
    SumPush(front, counts[i], b);
    SumAppend(front, back, b);
  }

  lemma Taken<T>(a: seq<T>, c: seq<T>) returns (i: nat)
    requires a != [] && multiset(a) == multiset(c)
    ensures i < |c| && c[i] == a[|a| - 1]
    ensures multiset(a[..|a| - 1]) == multiset(c[..i] + c[i + 1..])
  {
    var front, last := a[..|a| - 1], a[|a| - 1];
    assert a == front + [last];
    assert last in multiset(c);
    i :| 0 <= i < |c| && c[i] == last;
    assert c == c[..i] + [last] + c[i + 1..];
    Around(front, last, []);
    Around(c[..i], last, c[i + 1..]);
    assert front + [last] + [] == a && front + [] == front;
    Cancel(multiset(front), multiset(c[..i] + c[i + 1..]), last);
  }

  lemma Around<T>(x: seq<T>, m: T, y: seq<T>)
    ensures multiset(x + [m] + y) == multiset(x + y) + multiset{m}
  {
  }

  lemma Cancel<T>(a: multiset<T>, c: multiset<T>, m: T)
    requires a + multiset{m} == c + multiset{m}
    ensures a == c
  {
    forall x ensures a[x] == c[x] {
      assert (a + multiset{m})[x] == (c + multiset{m})[x];
    }
  }

  lemma {:induction false} SumOfPermutation(a: seq<Count>, c: seq<Count>, b: Option<Time>)
    requires multiset(a) == multiset(c)
    ensures Sum(a, b) == Sum(c, b)
  {
    if a == [] {
      assert |multiset(c)| == 0;
    } else {
      var i := Taken(a, c);
      SumWithout(c, i, b);
      SumOfPermutation(a[..|a| - 1], c[..i] + c[i + 1..], b);
    }
  }

  lemma BucketsOfPermutation(a: seq<Count>, c: seq<Count>, b: Time)
    requires multiset(a) == multiset(c)
    ensures HasBucket(a, b) ==> HasBucket(c, b)
  {
    if HasBucket(a, b) {
      var i :| 0 <= i < |a| && a[i].bucket == b;
      assert a[i] in multiset(c);
      assert a[i] in c;
    }
  }

  lemma NoneThere(counts: seq<Count>, b: Time)
    requires !HasBucket(counts, b)
    ensures Sum(counts, Some(b)) == 0
  {
    if counts != [] {
      assert counts[|counts| - 1].bucket != b;
      var front := counts[..|counts| - 1];
      assert forall i :: 0 <= i < |front| ==> front[i] == counts[i];
      NoneThere(front, b);
    }
  }

  lemma IncreasingMeans(counts: seq<Count>, i: nat, j: nat)
    requires Increasing(counts) && i < j < |counts|
    ensures counts[i].bucket < counts[j].bucket
  {
    if i + 1 < j {
      IncreasingMeans(counts, i, j - 1);
    }
  }

  lemma OnlyOne(counts: seq<Count>, i: nat)
    requires Increasing(counts) && i < |counts|
    ensures Sum(counts, Some(counts[i].bucket)) == counts[i].cnt
  {
    var front, last := counts[..|counts| - 1], |counts| - 1;
    if i == last {
      forall j | 0 <= j < last
        ensures front[j].bucket != counts[i].bucket
      {
        IncreasingMeans(counts, j, last);
      }
      NoneThere(front, counts[i].bucket);
    } else {
      IncreasingMeans(counts, i, last);
      OnlyOne(front, i);
    }
  }

  lemma SameRemainder(a: nat, c: nat, wraps: nat)
    requires a == c + wraps * WIDTH
    ensures a % WIDTH == c % WIDTH && (c < WIDTH ==> a % WIDTH == c)
  {
    if wraps > 0 {
      SameRemainder(a - WIDTH, c, wraps - 1);
      assert (a - WIDTH) % WIDTH == a % WIDTH;
    }
  }

  // ---- what adding up keeps ----

  /** In each bucket, and in all, the buckets add up to what was counted, short only of what wrapped around:
      whatever the order. What was counted at the zero time, which stands for no bucket, is dropped. */
  lemma {:induction false} Conserved(counts: seq<Count>, b: Option<Time>) returns (wraps: nat)
    requires b != Some(0) && (b == None ==> !HasBucket(counts, 0))
    ensures Sum(counts, b) == Sum(AddUp(counts).Flushed(), b) + wraps * WIDTH
  {
    if counts == [] {
      wraps := 0;
    } else {
      var front, c := counts[..|counts| - 1], counts[|counts| - 1];
      assert HasBucket(front, 0) ==> HasBucket(counts, 0);
      wraps := Conserved(front, b);
      var more := ConservedStep(AddUp(front), c, b);
      wraps := wraps + more;
    }
  }

  lemma ConservedStep(s: State, c: Count, b: Option<Time>) returns (wraps: nat)
    requires b != Some(0) && (b == None ==> c.bucket != 0)
    ensures Share(c, b) + Sum(s.Flushed(), b) == Sum(s.Next(c).Flushed(), b) + wraps * WIDTH
  {
    wraps := 0;
    if c.bucket != s.t {
      SumPush(s.Flushed(), c, b);
    } else if s.t != 0 {
      SumPush(s.reported, Count(s.t, s.cnt), b);
      SumPush(s.reported, Count(s.t, (s.cnt + c.cnt) % WIDTH), b);
      if b == None || b == Some(s.t) {
        wraps := (s.cnt + c.cnt) / WIDTH;
      }
    }
  }

  lemma {:induction false} BucketsKept(counts: seq<Count>, b: Time)
    ensures HasBucket(AddUp(counts).Flushed(), b) <==> b != 0 && HasBucket(counts, b)
    ensures AddUp(counts).t == if counts == [] then 0 else counts[|counts| - 1].bucket
  {
    if counts != [] {
      var front, c := counts[..|counts| - 1], counts[|counts| - 1];
      BucketsKept(front, b);
      BucketPushed(front, c, b);
      assert counts == front + [c];
      var s := AddUp(front);
      BucketPushed(s.reported, Count(s.t, s.cnt), b);
      BucketPushed(s.reported, Count(s.t, (s.cnt + c.cnt) % WIDTH), b);
      BucketPushed(s.Flushed(), c, b);
    }
  }

  lemma BucketPushed(counts: seq<Count>, c: Count, b: Time)
    ensures HasBucket(counts + [c], b) <==> HasBucket(counts, b) || c.bucket == b
  {
    var more := counts + [c];
    assert more[|counts|] == c;
    if HasBucket(counts, b) {
      var i :| 0 <= i < |counts| && counts[i].bucket == b;
      assert more[i].bucket == b;
    }
  }

  /** Counts that come in order give strictly increasing buckets. */
  lemma {:induction false} InOrder(counts: seq<Count>)
    requires NonDecreasing(counts)
    ensures Increasing(AddUp(counts).Flushed())
  {
    if counts != [] {
      var front, c := counts[..|counts| - 1], counts[|counts| - 1];
      InOrder(front);
      BucketsKept(front, 0);
      if AddUp(front).t == 0 {
        NothingYet(front);
      }
      NextInOrder(AddUp(front), c);
    }
  }

  lemma NextInOrder(s: State, c: Count)
    requires Increasing(s.Flushed()) && s.t <= c.bucket && (s.t == 0 ==> s.reported == [])
    ensures Increasing(s.Next(c).Flushed())
  {
    var f, g := s.Flushed(), s.Next(c).Flushed();
    assert forall i :: 0 <= i < |f| ==> g[i].bucket == f[i].bucket;
    assert s.t != 0 ==> f[|f| - 1].bucket == s.t;
  }

  lemma NothingYet(counts: seq<Count>)
    requires NonDecreasing(counts) && AddUp(counts).t == 0
    ensures AddUp(counts).Flushed() == []
  {
    if counts != [] {
      var front := counts[..|counts| - 1];
      BucketsKept(counts, 0);
      BucketsKept(front, 0);
      NothingYet(front);
    }
  }

  /** With no count at the zero time, the buckets are strictly increasing exactly when the counts came in order. */
  lemma {:induction false} InOrderIff(counts: seq<Count>)
    requires !HasBucket(counts, 0)
    ensures Increasing(AddUp(counts).Flushed()) <==> NonDecreasing(counts)
  {
    if NonDecreasing(counts) {
      InOrder(counts);
    } else {
      var front, c := counts[..|counts| - 1], counts[|counts| - 1];
      assert HasBucket(front, 0) ==> HasBucket(counts, 0);
      InOrderIff(front);
      BucketsKept(front, 0);
      var s := AddUp(front);
      assert c.bucket != 0;
      if |front| > 0 {
        assert front[|front| - 1] == counts[|front| - 1] && s.t != 0;
        OutOfOrder(counts, s, c);
      }
    }
  }

  lemma OutOfOrder(counts: seq<Count>, s: State, c: Count)
    requires s.t != 0 && c.bucket != 0
    requires !Increasing(s.Flushed()) || c.bucket < s.t
    ensures !Increasing(s.Next(c).Flushed())
  {
    var f, g := s.Flushed(), s.Next(c).Flushed();
    assert forall i :: 0 <= i < |f| ==> g[i].bucket == f[i].bucket;
    if !Increasing(f) {
      var i :| 0 < i < |f| && f[i - 1].bucket >= f[i].bucket;
      assert g[i - 1].bucket >= g[i].bucket;
    } else {
      assert g[|f| - 1].bucket == s.t && g[|f|] == c;
    }
  }

  // ---- tallies ----

  /** One count for each bucket but the zero time, in order, of all that was counted there. */
  ghost predicate IsTally(counts: seq<Count>, r: seq<Count>) {
    && Increasing(r)
    && (forall i :: 0 <= i < |r| ==> r[i].cnt == Sum(counts, Some(r[i].bucket)) % WIDTH)
    && (forall b :: HasBucket(r, b) <==> b != 0 && HasBucket(counts, b))
  }

  /** Adding up counts that come in order gives their tally. */
  lemma AddedUpIsTally(counts: seq<Count>)
    requires NonDecreasing(counts)
    ensures IsTally(counts, AddUp(counts).Flushed())
  {
    var r := AddUp(counts).Flushed();
    InOrder(counts);
    forall b
      ensures HasBucket(r, b) <==> b != 0 && HasBucket(counts, b)
    {
      BucketsKept(counts, b);
    }
    forall i | 0 <= i < |r|
      ensures r[i].cnt == Sum(counts, Some(r[i].bucket)) % WIDTH
    {
      EntryIsSum(counts, i);
    }
  }

  lemma EntryIsSum(counts: seq<Count>, i: nat)
    requires NonDecreasing(counts) && i < |AddUp(counts).Flushed()|
    ensures var e := AddUp(counts).Flushed()[i]; e.cnt == Sum(counts, Some(e.bucket)) % WIDTH
  {
    var r := AddUp(counts).Flushed();
    var e := r[i];
    InOrder(counts);
    BucketsKept(counts, e.bucket);
    var wraps := Conserved(counts, Some(e.bucket));
    OnlyOne(r, i);
    SameRemainder(Sum(counts, Some(e.bucket)), e.cnt, wraps);
  }

  lemma TallyOfPermutation(a: seq<Count>, c: seq<Count>, r: seq<Count>)
    requires multiset(a) == multiset(c) && IsTally(a, r)
    ensures IsTally(c, r)
  {
    forall b
      ensures HasBucket(a, b) <==> HasBucket(c, b)
    {
      BucketsOfPermutation(a, c, b);
      BucketsOfPermutation(c, a, b);
    }
    forall i | 0 <= i < |r|
      ensures r[i].cnt == Sum(c, Some(r[i].bucket)) % WIDTH
    {
      SumOfPermutation(a, c, Some(r[i].bucket));
    }
  }

  lemma SameBuckets(r: seq<Count>, q: seq<Count>)
    requires Increasing(r) && Increasing(q) && forall b :: HasBucket(r, b) <==> HasBucket(q, b)
    ensures |r| == |q| && forall i :: 0 <= i < |r| ==> r[i].bucket == q[i].bucket
  {
    if r == [] {
      assert q != [] ==> HasBucket(q, q[0].bucket);
    } else {
      assert HasBucket(r, r[|r| - 1].bucket);
      LastIsGreatest(r, q);
      assert HasBucket(q, q[|q| - 1].bucket);
      LastIsGreatest(q, r);
      var r', q' := r[..|r| - 1], q[..|q| - 1];
      forall b
        ensures HasBucket(r', b) <==> HasBucket(q', b)
      {
        AllButLast(r, b);
        AllButLast(q, b);
      }
      SameBuckets(r', q');
    }
  }

  lemma LastIsGreatest(r: seq<Count>, q: seq<Count>)
    requires r != [] && Increasing(q) && HasBucket(q, r[|r| - 1].bucket)
    ensures q != [] && r[|r| - 1].bucket <= q[|q| - 1].bucket
  {
    var i :| 0 <= i < |q| && q[i].bucket == r[|r| - 1].bucket;
    if i < |q| - 1 {
      IncreasingMeans(q, i, |q| - 1);
    }
  }

  lemma AllButLast(r: seq<Count>, b: Time)
    requires Increasing(r) && r != []
    ensures HasBucket(r[..|r| - 1], b) <==> HasBucket(r, b) && b != r[|r| - 1].bucket
  {
    var front := r[..|r| - 1];
    assert r == front + [r[|r| - 1]];
    BucketPushed(front, r[|r| - 1], b);
    if HasBucket(front, b) {
      var i :| 0 <= i < |front| && front[i].bucket == b;
      IncreasingMeans(r, i, |r| - 1);
    }
  }

  /** Counts have one tally only: it does not depend on how they are sorted. */
  lemma TallyUnique(counts: seq<Count>, r: seq<Count>, q: seq<Count>)
    requires IsTally(counts, r) && IsTally(counts, q)
    ensures r == q
  {
    SameBuckets(r, q);
  }

  // ---- adding up the log ----

  const SENT := "hz packet sent"

  datatype Event = Event(Msg: string, MsgType: uint16, count: Count)

  predicate Wanted(e: Event, gtype: uint16, all: bool) {
    e.Msg == SENT && (all || gtype == e.MsgType)
  }

  function Picked(e: Event, gtype: uint16, all: bool): seq<Count> {
    if Wanted(e, gtype, all) then [e.count] else []
  }

  function Selected(events: seq<Event>, gtype: uint16, all: bool): seq<Count> {
    if events == [] then []
    else Selected(events[..|events| - 1], gtype, all) + Picked(events[|events| - 1], gtype, all)
  }

  function Inserted(sorted: seq<Count>, c: Count): (r: seq<Count>)
    ensures |r| == |sorted| + 1
  {
    if sorted == [] || sorted[|sorted| - 1].bucket <= c.bucket then sorted + [c]
    else Inserted(sorted[..|sorted| - 1], c) + [sorted[|sorted| - 1]]
  }

  lemma InsertedIsSorted(sorted: seq<Count>, c: Count)
    requires NonDecreasing(sorted)
    ensures NonDecreasing(Inserted(sorted, c))
    ensures Inserted(sorted, c)[|sorted|] == c
      || (sorted != [] && Inserted(sorted, c)[|sorted|] == sorted[|sorted| - 1] &&
        c.bucket < sorted[|sorted| - 1].bucket)
  {
    if sorted != [] && c.bucket < sorted[|sorted| - 1].bucket {
      InsertedIsSorted(sorted[..|sorted| - 1], c);
    }
  }

  lemma InsertedHolds(sorted: seq<Count>, c: Count)
    ensures multiset(Inserted(sorted, c)) == multiset(sorted) + multiset{c}
  {
    if sorted != [] && c.bucket < sorted[|sorted| - 1].bucket {
      assert sorted == sorted[..|sorted| - 1] + [sorted[|sorted| - 1]];
      InsertedHolds(sorted[..|sorted| - 1], c);
    }
  }

  function Sorted(counts: seq<Count>): (r: seq<Count>)
    ensures NonDecreasing(r) && multiset(r) == multiset(counts)
  {
    if counts == [] then [] else
    var front := Sorted(counts[..|counts| - 1]);
    InsertedIsSorted(front, counts[|counts| - 1]);
    InsertedHolds(front, counts[|counts| - 1]);
    assert counts == counts[..|counts| - 1] + [counts[|counts| - 1]];
    Inserted(front, counts[|counts| - 1])
  }

  /** slices.SortFunc promises an ordered permutation, and no more. */
  method SortFunc(counts: seq<Count>) returns (r: seq<Count>)
    ensures NonDecreasing(r) && multiset(r) == multiset(counts)
  {
    r := Sorted(counts);
  }

  method ProcessSentPackets(events: seq<Event>, processing: bool, gtype: uint16, all: bool)
    returns (ret: seq<Count>, ok: bool)
    ensures ok == processing
    ensures if ok then IsTally(Selected(events, gtype, all), ret) else ret == []
  {
    if !processing {
      return [], false;
    }
    var sentEvents := [];
    for i := 0 to |events|
      invariant sentEvents == Selected(events[..i], gtype, all)
    {
      assert events[..i + 1][..i] == events[..i];
      if !Wanted(events[i], gtype, all) {
        continue;
      }
      sentEvents := sentEvents + [events[i].count];
    }
    assert events[..|events|] == events;
    ghost var selected := sentEvents;
    sentEvents := SortFunc(sentEvents);
    ret := Merge(sentEvents);
    ok := true;
    AddedUpIsTally(sentEvents);
    TallyOfPermutation(sentEvents, selected, ret);
  }

  /** The last part of ProcessSentPackets. */
  method Merge(sentEvents: seq<Count>) returns (ret: seq<Count>)
    ensures ret == AddUp(sentEvents).Flushed()
  {
    var currTime, cnt: uint64 := 0, 0;
    ret := [];
    for i := 0 to |sentEvents|
      invariant State(currTime, cnt, ret) == AddUp(sentEvents[..i])
    {
      assert sentEvents[..i + 1][..i] == sentEvents[..i];
      var e := sentEvents[i];
      if currTime == e.bucket {
        cnt := (cnt + e.cnt) % WIDTH;
        continue;
      }
      if currTime != 0 {
        ret := ret + [Count(currTime, cnt)];
      }
      currTime := e.bucket;
      cnt := e.cnt;
    }
    assert sentEvents[..|sentEvents|] == sentEvents;
    if currTime != 0 {
      ret := ret + [Count(currTime, cnt)];
    }
  }

  // ---- from the counters to the result ----

  /** A counter's calls of Add, and the message type its reports are logged with: 0 where none is logged. */
  datatype CounterRun = CounterRun(mtype: uint16, granularity: int, adds: seq<Arrival>)

  function Logged(mtype: uint16, counts: seq<Count>): (es: seq<Event>)
    ensures |es| == |counts|
  {
    seq(|counts|, i requires 0 <= i < |counts| => Event(SENT, mtype, counts[i]))
  }

  /** Everything the counters log, one after the other. */
  function LogOf(runs: seq<CounterRun>): seq<Event> {
    if runs == [] then [] else Logged(runs[0].mtype, Reports(runs[0].granularity, runs[0].adds)) + LogOf(runs[1..])
  }

  /** Everything added to the counters of a type, or to all counters. */
  function AmountsOf(runs: seq<CounterRun>, gtype: uint16, all: bool): seq<Count> {
    if runs == [] then []
    else (if all || gtype == runs[0].mtype then Amounts(runs[0].granularity, runs[0].adds) else [])
         + AmountsOf(runs[1..], gtype, all)
  }

  lemma SelectedAppend(a: seq<Event>, e: seq<Event>, gtype: uint16, all: bool)
    ensures Selected(a + e, gtype, all) == Selected(a, gtype, all) + Selected(e, gtype, all)
  {
    if e == [] {
      assert a + e == a;
    } else {
      var front, last := e[..|e| - 1], e[|e| - 1];
      SelectedAppend(a, front, gtype, all);
      assert (a + e)[..|a + e| - 1] == a + front && (a + e)[|a + e| - 1] == last;
    }
  }

  lemma SelectedOne(e: Event, gtype: uint16, all: bool)
    ensures Selected([e], gtype, all) == Picked(e, gtype, all)
  {
    assert [e][..0] == [];
  }

  lemma SelectedWithout(e: seq<Event>, i: nat, gtype: uint16, all: bool)
    requires i < |e|
    ensures multiset(Selected(e, gtype, all))
         == multiset(Selected(e[..i] + e[i + 1..], gtype, all)) + multiset(Picked(e[i], gtype, all))
  {
    var x, y := e[..i], e[i + 1..];
    assert e == x + [e[i]] + y;
    SelectedAppend(x + [e[i]], y, gtype, all);
    SelectedAppend(x, [e[i]], gtype, all);
    SelectedOne(e[i], gtype, all);
    SelectedAppend(x, y, gtype, all);
  }

  lemma {:induction false} SelectedPermutation(a: seq<Event>, e: seq<Event>, gtype: uint16, all: bool)
    requires multiset(a) == multiset(e)
    ensures multiset(Selected(a, gtype, all)) == multiset(Selected(e, gtype, all))
  {
    if a == [] {
      assert |multiset(e)| == 0;
    } else {
      var i := Taken(a, e);
      SelectedPermutation(a[..|a| - 1], e[..i] + e[i + 1..], gtype, all);
      SelectedWithout(e, i, gtype, all);
    }
  }

  lemma SelectedLogged(mtype: uint16, counts: seq<Count>, gtype: uint16, all: bool)
    ensures Selected(Logged(mtype, counts), gtype, all) == if all || gtype == mtype then counts else []
  {
    if counts != [] {
      var front := counts[..|counts| - 1];
      SelectedLogged(mtype, front, gtype, all);
      assert Logged(mtype, counts)[..|counts| - 1] == Logged(mtype, front);
      assert counts == front + [counts[|counts| - 1]];
    }
  }

  lemma NothingSelected(noise: seq<Event>, gtype: uint16, all: bool)
    requires forall i :: 0 <= i < |noise| ==> !Wanted(noise[i], gtype, all)
    ensures Selected(noise, gtype, all) == []
  {
    if noise != [] {
      var front := noise[..|noise| - 1];
      assert forall i :: 0 <= i < |front| ==> front[i] == noise[i];
      NothingSelected(front, gtype, all);
    }
  }

  lemma BucketsAppend(a: seq<Count>, c: seq<Count>, b: Time)
    ensures HasBucket(a + c, b) <==> HasBucket(a, b) || HasBucket(c, b)
  {
    if HasBucket(a, b) {
      var i :| 0 <= i < |a| && a[i].bucket == b;
      assert (a + c)[i].bucket == b;
    }
    if HasBucket(c, b) {
      var i :| 0 <= i < |c| && c[i].bucket == b;
      assert (a + c)[|a| + i].bucket == b;
    }
  }

  /** The log keeps, over all counters, every bucket's sum and the total, up to wrapping. */
  lemma {:induction false} LogConserves(runs: seq<CounterRun>, gtype: uint16, all: bool, b: Option<Time>)
    returns (wraps: nat)
    requires b != Some(0) && (b == None ==> !HasBucket(AmountsOf(runs, gtype, all), 0))
    ensures Sum(AmountsOf(runs, gtype, all), b) == Sum(Selected(LogOf(runs), gtype, all), b) + wraps * WIDTH
  {
    if runs == [] {
      wraps := 0;
    } else {
      var run := runs[0];
      var amounts, reports := Amounts(run.granularity, run.adds), Reports(run.granularity, run.adds);
      var mine := if all || gtype == run.mtype then amounts else [];
      BucketsAppend(mine, AmountsOf(runs[1..], gtype, all), 0);
      wraps := LogConserves(runs[1..], gtype, all, b);
      SumAppend(mine, AmountsOf(runs[1..], gtype, all), b);
      SelectedAppend(Logged(run.mtype, reports), LogOf(runs[1..]), gtype, all);
      SelectedLogged(run.mtype, reports, gtype, all);
      SumAppend(Selected(Logged(run.mtype, reports), gtype, all), Selected(LogOf(runs[1..]), gtype, all), b);
      if all || gtype == run.mtype {
        var more := Conserved(amounts, b);
        wraps := wraps + more;
      }
    }
  }

  lemma {:induction false} LogBuckets(runs: seq<CounterRun>, gtype: uint16, all: bool, b: Time)
    ensures HasBucket(Selected(LogOf(runs), gtype, all), b) <==> b != 0 && HasBucket(AmountsOf(runs, gtype, all), b)
  {
    if runs != [] {
      var run := runs[0];
      var amounts, reports := Amounts(run.granularity, run.adds), Reports(run.granularity, run.adds);
      var mine := if all || gtype == run.mtype then amounts else [];
      LogBuckets(runs[1..], gtype, all, b);
      BucketsAppend(mine, AmountsOf(runs[1..], gtype, all), b);
      SelectedAppend(Logged(run.mtype, reports), LogOf(runs[1..]), gtype, all);
      SelectedLogged(run.mtype, reports, gtype, all);
      BucketsAppend(Selected(Logged(run.mtype, reports), gtype, all), Selected(LogOf(runs[1..]), gtype, all), b);
      BucketsKept(amounts, b);
    }
  }

  /** The result on a log that holds the reports of any number of counters, in any order among other events, is
      the tally of what was added to them. */
  lemma ResultIsTallyOfAmounts(runs: seq<CounterRun>, log: seq<Event>, noise: seq<Event>, gtype: uint16, all: bool,
          ret: seq<Count>)
    requires multiset(log) == multiset(LogOf(runs) + noise)
    requires forall i :: 0 <= i < |noise| ==> !Wanted(noise[i], gtype, all)
    requires IsTally(Selected(log, gtype, all), ret)
    ensures IsTally(AmountsOf(runs, gtype, all), ret)
  {
    SelectedPermutation(log, LogOf(runs) + noise, gtype, all);
    SelectedAppend(LogOf(runs), noise, gtype, all);
    NothingSelected(noise, gtype, all);
    var logged := Selected(LogOf(runs), gtype, all);
    TallyOfPermutation(Selected(log, gtype, all), logged, ret);
    forall b
      ensures HasBucket(logged, b) <==> b != 0 && HasBucket(AmountsOf(runs, gtype, all), b)
    {
      LogBuckets(runs, gtype, all, b);
    }
    forall i | 0 <= i < |ret|
      ensures ret[i].cnt == Sum(AmountsOf(runs, gtype, all), Some(ret[i].bucket)) % WIDTH
    {
      assert HasBucket(ret, ret[i].bucket);
      LoggedSum(runs, gtype, all, ret[i].bucket);
    }
  }

  lemma LoggedSum(runs: seq<CounterRun>, gtype: uint16, all: bool, b: Time)
    requires b != 0
    ensures Sum(AmountsOf(runs, gtype, all), Some(b)) % WIDTH == Sum(Selected(LogOf(runs), gtype, all), Some(b)) % WIDTH
  {
    var wraps := LogConserves(runs, gtype, all, Some(b));
    SameRemainder(Sum(AmountsOf(runs, gtype, all), Some(b)), Sum(Selected(LogOf(runs), gtype, all), Some(b)), wraps);
  }

  lemma BelowWidth(total: nat, kept: nat, wraps: nat)
    requires total == kept + wraps * WIDTH && total < WIDTH
    ensures kept == total
  {
  }

  /** A tally of counts none of which is at the zero time has their total, if that does not wrap around. */
  lemma TallyTotal(counts: seq<Count>, r: seq<Count>)
    requires IsTally(counts, r) && !HasBucket(counts, 0) && Sum(counts, None) < WIDTH
    ensures Sum(r, None) == Sum(counts, None)
  {
    var sorted := Sorted(counts);
    AddedUpIsTally(sorted);
    TallyOfPermutation(sorted, counts, AddUp(sorted).Flushed());
    TallyUnique(counts, r, AddUp(sorted).Flushed());
    SumOfPermutation(counts, sorted, None);
    BucketsOfPermutation(sorted, counts, 0);
    var wraps := Conserved(sorted, None);
    BelowWidth(Sum(counts, None), Sum(r, None), wraps);
  }
}
