/** What a counter's reports, and the tester's result, say about the clock: how many packets were added in each
    window of time. */
module Windows {
  import opened Basics
  import opened PacketCounter

  /** How long a window is; without a positive granularity each moment is one of its own. */
  function Length(granularity: int): (d: nat)
    ensures d > 0
  {
    if granularity > 0 then granularity else 1
  }

  /** The packets added from time `from` on and before time `to`. */
  function AddedWithin(adds: seq<Arrival>, from: Time, to: Time): nat {
    if adds == [] then 0
    else
      var last := adds[|adds| - 1];
      AddedWithin(adds[..|adds| - 1], from, to) + if from <= last.now < to then last.i else 0
  }

  /** Some call came in that time. */
  predicate AddsWithin(adds: seq<Arrival>, from: Time, to: Time) {
    exists k :: 0 <= k < |adds| && from <= adds[k].now < to
  }

  lemma QuotientOf(t: nat, d: nat, m: nat)
    requires d > 0 && d * m <= t < d * m + d
    ensures t / d == m && t - t % d == d * m
  {
    var q, r := t / d, t % d;
    assert t == d * q + r;
    MulUp(d, q, m);
    MulUp(d, m, q);
  }

  lemma {:induction false} MulUp(d: nat, a: nat, b: nat)
    ensures a < b ==> d * a + d <= d * b
    ensures a <= b ==> d * a <= d * b
  {
    if a < b {
      MulUp(d, a, b - 1);
      assert d * b == d * (b - 1) + d;
    }
  }

  lemma IsMultiple(b: nat, d: nat) returns (m: nat)
    requires d > 0 && b % d == 0
    ensures b == d * m
  {
    m := b / d;
  }

  /** A time is cut to the start of the window that it is in. */
  lemma CutToStart(t: Time, granularity: int, b: Time)
    ensures Truncate(t, granularity) % Length(granularity) == 0
    ensures b % Length(granularity) == 0 ==> (Truncate(t, granularity) == b <==> b <= t < b + Length(granularity))
  {
    if granularity > 0 {
      var d := Length(granularity);
      QuotientOf(t, d, t / d);
      MultipleHasNoRest(d, t / d);
      if b % d == 0 && b <= t < b + d {
        var m := IsMultiple(b, d);
        QuotientOf(t, d, m);
      }
    }
  }

  lemma MultipleHasNoRest(d: nat, m: nat)
    requires d > 0
    ensures d * m % d == 0
  {
    QuotientOf(d * m, d, m);
  }

  lemma {:induction false} SumOfAmounts(d: int, adds: seq<Arrival>, b: Time)
    requires b % Length(d) == 0
    ensures Sum(Amounts(d, adds), Some(b)) == AddedWithin(adds, b, b + Length(d))
  {
    if adds != [] {
      var init, last := adds[..|adds| - 1], adds[|adds| - 1];
      SumOfAmounts(d, init, b);
      CutToStart(last.now, d, b);
      assert Amounts(d, adds) == Amounts(d, init) + [Count(Truncate(last.now, d), last.i)];
      SumPush(Amounts(d, init), Count(Truncate(last.now, d), last.i), Some(b));
    }
  }

  lemma BucketsOfAmounts(d: int, adds: seq<Arrival>, b: Time)
    ensures HasBucket(Amounts(d, adds), b) <==> b % Length(d) == 0 && AddsWithin(adds, b, b + Length(d))
  {
    if HasBucket(Amounts(d, adds), b) {
      var i :| 0 <= i < |adds| && Amounts(d, adds)[i].bucket == b;
      CutToStart(adds[i].now, d, b);
    }
    if b % Length(d) == 0 && AddsWithin(adds, b, b + Length(d)) {
      var k :| 0 <= k < |adds| && b <= adds[k].now < b + Length(d);
      CutToStart(adds[k].now, d, b);
      assert Amounts(d, adds)[k].bucket == b;
    }
  }

  /** A counter's reports are about the windows in which something was added, each under its start; for each they
      add up to what was added in it, modulo the width of the counter, whatever the clock does. Only the window
      that starts at the zero time is never reported. */
  lemma ReportsAreWindows(d: int, adds: seq<Arrival>, b: Time)
    ensures HasBucket(Reports(d, adds), b) <==> b > 0 && b % Length(d) == 0 && AddsWithin(adds, b, b + Length(d))
    ensures b > 0 && b % Length(d) == 0 ==>
      Sum(Reports(d, adds), Some(b)) % WIDTH == AddedWithin(adds, b, b + Length(d)) % WIDTH
  {
    BucketsKept(Amounts(d, adds), b);
    BucketsOfAmounts(d, adds, b);
    if b > 0 && b % Length(d) == 0 {
      var wraps := Conserved(Amounts(d, adds), Some(b));
      SumOfAmounts(d, adds, b);
      SameRemainder(AddedWithin(adds, b, b + Length(d)), Sum(Reports(d, adds), Some(b)), wraps);
    }
  }

  lemma CutsInOrder(t: Time, u: Time, d: int)
    requires t <= u
    ensures Truncate(t, d) <= Truncate(u, d)
  {
    var b := Truncate(u, d);
    CutToStart(u, d, b);
    CutToStart(t, d, Truncate(t, d));
    if d > 0 && b < Truncate(t, d) {
      var m := IsMultiple(b, d);
      var n := IsMultiple(Truncate(t, d), d);
      MulUp(d, m, n);
      MulUp(d, n, m);
    }
  }

  /** While the clock does not go back, there is one report for each window, in order, with all that was added. */
  lemma OneReportPerWindow(d: int, adds: seq<Arrival>)
    requires forall i :: 0 < i < |adds| ==> adds[i - 1].now <= adds[i].now
    ensures Increasing(Reports(d, adds))
    ensures forall i :: 0 <= i < |Reports(d, adds)| ==>
      var r := Reports(d, adds)[i]; r.cnt == AddedWithin(adds, r.bucket, r.bucket + Length(d)) % WIDTH
  {
    var counts := Amounts(d, adds);
    forall i | 0 < i < |adds| ensures counts[i - 1].bucket <= counts[i].bucket {
      CutsInOrder(adds[i - 1].now, adds[i].now, d);
    }
    AddedUpIsTally(counts);
    hide AddUp, Amounts, Sum, AddedWithin, Increasing, Length;
    forall i | 0 <= i < |Reports(d, adds)|
      ensures var r := Reports(d, adds)[i]; r.cnt == AddedWithin(adds, r.bucket, r.bucket + Length(d)) % WIDTH
    {
      EntryIsWindow(d, adds, i);
    }
  }

  lemma EntryIsWindow(d: int, adds: seq<Arrival>, i: nat)
    requires IsTally(Amounts(d, adds), Reports(d, adds)) && i < |Reports(d, adds)|
    ensures var r := Reports(d, adds)[i]; r.cnt == AddedWithin(adds, r.bucket, r.bucket + Length(d)) % WIDTH
  {
    hide AddUp, Amounts, Sum, AddedWithin, Increasing, Length, Reports;
    var r := Reports(d, adds)[i];
    assert HasBucket(Reports(d, adds), r.bucket);
    ReportsAreWindows(d, adds, r.bucket);
    SumOfAmounts(d, adds, r.bucket);
  }

  // ---- the tester's result ----

  predicate Counts(run: CounterRun, gtype: uint16, all: bool) {
    all || run.mtype == gtype
  }

  /** What was added to the counters of the type, or to all, in their windows that start at time b. */
  function AddedAt(runs: seq<CounterRun>, gtype: uint16, all: bool, b: Time): nat {
    if runs == [] then 0
    else
      var r := runs[0];
      (if Counts(r, gtype, all) && b % Length(r.granularity) == 0
       then AddedWithin(r.adds, b, b + Length(r.granularity)) else 0)
      + AddedAt(runs[1..], gtype, all, b)
  }

  /** Something was added to one of these counters in a window that starts at time b. */
  predicate AddsAt(runs: seq<CounterRun>, gtype: uint16, all: bool, b: Time) {
    exists i :: 0 <= i < |runs| && AddsToRunAt(runs[i], gtype, all, b)
  }

  predicate AddsToRunAt(r: CounterRun, gtype: uint16, all: bool, b: Time) {
    Counts(r, gtype, all) && b % Length(r.granularity) == 0 && AddsWithin(r.adds, b, b + Length(r.granularity))
  }

  lemma NoCountsThere(d: int, adds: seq<Arrival>, b: Time)
    requires b % Length(d) != 0
    ensures Sum(Amounts(d, adds), Some(b)) == 0
  {
    BucketsOfAmounts(d, adds, b);
    NoneThere(Amounts(d, adds), b);
  }

  lemma {:induction false} SumOfRuns(runs: seq<CounterRun>, gtype: uint16, all: bool, b: Time)
    ensures Sum(AmountsOf(runs, gtype, all), Some(b)) == AddedAt(runs, gtype, all, b)
  {
    if runs != [] {
      hide Sum, Amounts, Length;
      var r := runs[0];
      var mine := if all || gtype == r.mtype then Amounts(r.granularity, r.adds) else [];
      SumOfRuns(runs[1..], gtype, all, b);
      SumAppend(mine, AmountsOf(runs[1..], gtype, all), Some(b));
      if b % Length(r.granularity) == 0 {
        SumOfAmounts(r.granularity, r.adds, b);
      } else {
        NoCountsThere(r.granularity, r.adds, b);
      }
      EmptySum(b);
    }
  }

  lemma EmptySum(b: Time)
    ensures Sum([], Some(b)) == 0
  {
  }

  lemma {:induction false} BucketsOfRuns(runs: seq<CounterRun>, gtype: uint16, all: bool, b: Time)
    ensures HasBucket(AmountsOf(runs, gtype, all), b) <==> AddsAt(runs, gtype, all, b)
  {
    if runs != [] {
      hide Amounts, Length, AddsWithin;
      var r, others := runs[0], runs[1..];
      var mine := if all || gtype == r.mtype then Amounts(r.granularity, r.adds) else [];
      BucketsOfRuns(others, gtype, all, b);
      BucketsAppend(mine, AmountsOf(others, gtype, all), b);
      BucketsOfAmounts(r.granularity, r.adds, b);
      assert HasBucket(mine, b) <==> AddsToRunAt(r, gtype, all, b);
      if AddsAt(others, gtype, all, b) {
        var i :| 0 <= i < |others| && AddsToRunAt(others[i], gtype, all, b);
        assert runs[i + 1] == others[i];
      }
      if AddsAt(runs, gtype, all, b) && !AddsToRunAt(r, gtype, all, b) {
        var i :| 0 <= i < |runs| && AddsToRunAt(runs[i], gtype, all, b);
        assert others[i - 1] == runs[i];
      }
    }
  }

  /** The tester's result on a log of any number of counters, shuffled and among other events: one count for each
      time at which a window starts that something was added in, in order, of all that was added in them. */
  lemma ResultIsWindowSums(runs: seq<CounterRun>, log: seq<Event>, noise: seq<Event>, gtype: uint16, all: bool,
          ret: seq<Count>)
    requires multiset(log) == multiset(LogOf(runs) + noise)
    requires forall i :: 0 <= i < |noise| ==>
      noise[i].Msg != "hz packet sent" || !(all || gtype == noise[i].MsgType)
    requires IsTally(Selected(log, gtype, all), ret)
    ensures forall i :: 0 < i < |ret| ==> ret[i - 1].bucket < ret[i].bucket
    ensures forall b :: (exists i :: 0 <= i < |ret| && ret[i].bucket == b) <==> b > 0 && AddsAt(runs, gtype, all, b)
    ensures forall i :: 0 <= i < |ret| ==> ret[i].cnt == AddedAt(runs, gtype, all, ret[i].bucket) % WIDTH
  {
    hide AddsAt, AddedAt, Sum, Selected;
    ResultIsTallyOfAmounts(runs, log, noise, gtype, all, ret);
    forall b ensures HasBucket(ret, b) <==> b > 0 && AddsAt(runs, gtype, all, b) {
      BucketsOfRuns(runs, gtype, all, b);
    }
    forall i | 0 <= i < |ret| ensures ret[i].cnt == AddedAt(runs, gtype, all, ret[i].bucket) % WIDTH {
      SumOfRuns(runs, gtype, all, ret[i].bucket);
    }
  }
}
