/** What a ring buffer holds, as a sequence: the value at `data` first (the newest), then the
    oldest value, and so on up to the second newest.

    A ring built with capacity 0 or 1 links up to two nodes, because unlinking the successor of a
    one-node ring changes nothing; `EffectiveCap` is the number of nodes a ring can reach. */
module RingView {

  function EffectiveCap(cap: nat): nat {
    if cap < 2 then 2 else cap
  }

  function IndexOf<T(==)>(s: seq<T>, v: T): (i: nat)
    requires v in s
    ensures i < |s| && s[i] == v && forall j :: 0 <= j < i ==> s[j] != v
  {
    if s[0] == v then 0 else 1 + IndexOf(s[1..], v)
  }

  function Without<T(==)>(s: seq<T>, v: T): (r: seq<T>)
    requires v in s
    ensures |r| == |s| - 1
    ensures multiset(r) + multiset{v} == multiset(s)
  {
    var i := IndexOf(s, v);
    assert s == s[..i] + ([v] + s[i + 1..]);
    s[..i] + s[i + 1..]
  }

  /** The view after `Insert(v)`. */
  function Inserted<T>(s: seq<T>, cap: nat, v: T): seq<T> {
    if s == [] then [v]
    else if |s| < EffectiveCap(cap) then [v] + s[1..] + [s[0]]
    else [v] + s[2..] + [s[0]]
  }

  /** The view after `Remove(v)`. */
  function Removed<T(==)>(s: seq<T>, cap: nat, v: T): seq<T> {
    if v !in s then s
    else if cap < 2 then []  // the node count drops to zero although a second node may be linked
    else Without(s, v)
  }

  /** The value an insertion overwrites, if any. */
  function Evicted<T>(s: seq<T>, cap: nat): seq<T> {
    if |s| < EffectiveCap(cap) then [] else [s[1]]
  }

  function InsertedAll<T>(s: seq<T>, cap: nat, vs: seq<T>): seq<T>
    decreases |vs|
  {
    if vs == [] then s else Inserted(InsertedAll(s, cap, vs[..|vs| - 1]), cap, vs[|vs| - 1])
  }

  /** The same values from the oldest to the newest. */
  function Chronological<T>(s: seq<T>): seq<T> {
    if s == [] then [] else s[1..] + [s[0]]
  }

  function LastN<T>(s: seq<T>, n: nat): (r: seq<T>)
    ensures |r| == if |s| <= n then |s| else n
  {
    if |s| <= n then s else s[|s| - n..]
  }

  /** Insert drops the oldest value exactly when the ring is full, and appends the new one. */
  lemma InsertedIsQueue<T>(s: seq<T>, cap: nat, v: T)
    requires |s| <= EffectiveCap(cap)
    ensures Chronological(Inserted(s, cap, v)) == LastN(Chronological(s), EffectiveCap(cap) - 1) + [v]
    ensures |Inserted(s, cap, v)| <= EffectiveCap(cap)
  {
    if 0 < |s| < EffectiveCap(cap) {
      assert Chronological(Inserted(s, cap, v)) == s[1..] + [s[0]] + [v];
    }
  }

  /** Insert loses at most the evicted value. */
  lemma InsertedConserves<T>(s: seq<T>, cap: nat, v: T)
    requires |s| <= EffectiveCap(cap)
    ensures multiset(Inserted(s, cap, v)) + multiset(Evicted(s, cap)) == multiset(s) + multiset{v}
  {
    if s == [] {
      assert Inserted(s, cap, v) == [v] && Evicted(s, cap) == [];
    } else if |s| < EffectiveCap(cap) {
      FirstToTheEnd(s, v);
    } else {
      SecondForNew(s, v);
    }
  }

  lemma FirstToTheEnd<T>(s: seq<T>, v: T)
    requires s != []
    ensures multiset([v] + s[1..] + [s[0]]) == multiset(s) + multiset{v}
  {
    var first, rest := s[0], s[1..];
    assert s == [first] + rest;
    assert multiset([v] + rest + [first]) == multiset([v] + rest) + multiset{first};
  }

  lemma SecondForNew<T>(s: seq<T>, v: T)
    requires |s| >= 2
    ensures multiset([v] + s[2..] + [s[0]]) + multiset([s[1]]) == multiset(s) + multiset{v}
  {
    var first, rest := s[0], s[1..];
    FirstToTheEnd([first] + rest[1..], v);
    assert ([first] + rest[1..])[1..] == s[2..];
    assert s == [first] + rest && rest == [s[1]] + rest[1..];
    assert multiset(s) == multiset{first} + (multiset{s[1]} + multiset(rest[1..]));
  }

  lemma InsertedAllMore<T>(s: seq<T>, cap: nat, vs: seq<T>, v: T)
    ensures InsertedAll(s, cap, vs + [v]) == Inserted(InsertedAll(s, cap, vs), cap, v)
  {
    assert (vs + [v])[..|vs|] == vs;
  }

  /** After k insertions into an empty ring, it holds the last min(k, capacity) values in order. */
  lemma {:induction false} HistoryBound<T>(cap: nat, vs: seq<T>)
    ensures Chronological(InsertedAll([], cap, vs)) == LastN(vs, EffectiveCap(cap))
    ensures |InsertedAll([], cap, vs)| <= EffectiveCap(cap)
  {
    if vs != [] {
      hide *;
      var init, v := vs[..|vs| - 1], vs[|vs| - 1];
      assert vs == init + [v];
      HistoryBound(cap, init);
      HistoryGrows(cap, InsertedAll([], cap, init), init, v);
      InsertedAllMore([], cap, init, v);
    }
  }

  lemma HistoryGrows<T>(cap: nat, s: seq<T>, vs: seq<T>, v: T)
    requires |s| <= EffectiveCap(cap) && Chronological(s) == LastN(vs, EffectiveCap(cap))
    ensures Chronological(Inserted(s, cap, v)) == LastN(vs + [v], EffectiveCap(cap))
    ensures |Inserted(s, cap, v)| <= EffectiveCap(cap)
  {
    hide Inserted, Chronological, LastN;
    InsertedIsQueue(s, cap, v);
    LastNExtended(vs, v, EffectiveCap(cap));
  }

  lemma LastNExtended<T>(s: seq<T>, v: T, n: nat)
    requires n > 0
    ensures LastN(LastN(s, n), n - 1) + [v] == LastN(s + [v], n)
  {
  }

  /** What k insertions leave, place by place: the newest value first, then the oldest one that is left, and so on;
      as many as were inserted, up to the capacity, and never fewer than two of them. */
  lemma HoldsTheLast<T>(cap: nat, vs: seq<T>)
    ensures var r, full := InsertedAll([], cap, vs), if cap < 2 then 2 else cap;
      && |r| == (if |vs| <= full then |vs| else full)
      && (vs != [] ==> r[0] == vs[|vs| - 1])
      && forall i :: 1 <= i < |r| ==> r[i] == vs[|vs| - |r| + i - 1]
  {
    hide InsertedAll;
    HistoryBound(cap, vs);
    var r := InsertedAll([], cap, vs);
    assert |Chronological(r)| == |r|;
    if vs != [] {
      assert Chronological(r)[|r| - 1] == r[0];
    }
    forall i | 1 <= i < |r| ensures r[i] == vs[|vs| - |r| + i - 1] {
      assert Chronological(r)[i - 1] == r[i];
    }
  }

  /** Removal takes out one of the equal values and keeps all others, if there is one and the capacity is at least
      two; without one it changes nothing, and a smaller capacity loses every value. */
  lemma RemovedKeepsRest<T>(s: seq<T>, cap: nat, v: T)
    ensures cap >= 2 || v !in s ==> multiset(Removed(s, cap, v)) == multiset(s) - multiset{v}
    ensures v !in s ==> Removed(s, cap, v) == s
    ensures cap < 2 && v in s ==> Removed(s, cap, v) == []
  {
    if v in s {
      assert multiset(Without(s, v)) + multiset{v} == multiset(s);
    } else {
      assert v !in multiset(s);
    }
  }

  /** The advertised capacity is respected by every run of insertions exactly when it is at least
      two: with a smaller one, two insertions already leave two values linked. */
  lemma CapacityRespected(cap: nat)
    ensures (forall vs: seq<int> :: |InsertedAll([], cap, vs)| <= cap) <==> cap >= 2
  {
    forall vs: seq<int> ensures |InsertedAll([], cap, vs)| <= EffectiveCap(cap) {
      HistoryBound(cap, vs);
    }
    HistoryBound(cap, [1, 2]);
    assert |Chronological(InsertedAll([], cap, [1, 2]))| == 2;
  }

  /** Removing the newest value makes the oldest one the newest, so later evictions come in a
      rotated order; removing any other value keeps the order of the rest. */
  lemma RemovedOrder<T>(s: seq<T>, cap: nat, v: T)
    requires cap >= 2 && v in s
    ensures v == s[0] && |s| >= 2 ==>
      Chronological(Removed(s, cap, v)) == Chronological(s)[1..|s| - 1] + [Chronological(s)[0]]
    ensures v != s[0] ==>
      exists k :: 0 <= k < |s| - 1 && Chronological(s)[k] == v
        && Chronological(Removed(s, cap, v)) == Chronological(s)[..k] + Chronological(s)[k + 1..]
  {
    if v == s[0] {
      assert Removed(s, cap, v) == s[1..];
    } else {
      var i := IndexOf(s, v);
      LaterRemoved(s, i);
      assert Chronological(s)[i - 1] == v;
    }
  }

  lemma LaterRemoved<T>(s: seq<T>, i: nat)
    requires 0 < i < |s|
    ensures Chronological(s[..i] + s[i + 1..]) == Chronological(s)[..i - 1] + Chronological(s)[i..]
  {
    var left := s[..i] + s[i + 1..];
    assert left[1..] == s[1..i] + s[i + 1..];
    assert Chronological(s) == s[1..] + [s[0]];
  }
}
