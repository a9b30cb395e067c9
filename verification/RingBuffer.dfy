/** The ring buffer on linked nodes. Class `Ring` is Go's `container/ring`, the standard-library
    circular list the buffer is built on. */
module RingBuffer {
  import opened Basics
  import opened RingView

  /** A node of a circular list. */
  class Ring<T> {
    var next: Ring<T>
    var prev: Ring<T>
    const Value: T  // assigned once, right after the node is created
    ghost const owner: object  // the ring buffer the node was made for

    constructor (v: T, ghost owner: object)
      ensures next == this && prev == this && Value == v && this.owner == owner
    {
      next, prev, Value := this, this, v;
      this.owner := owner;
    }

    /** The node `n` places further. */
    method Move(n: nat, ghost nodes: seq<Ring<T>>) returns (r: Ring<T>)
      requires Circular(nodes) && nodes[0] == this
      ensures r == nodes[Ahead(n, |nodes|)]
    {
      r := this;
      for i := 0 to n
        invariant r == nodes[Ahead(i, |nodes|)]
      {
        r := r.next;
      }
    }

    /** Makes `s` the successor of this node, and the old successor of this node the successor of
        the old predecessor of `s`. */
    method Link(s: Ring<T>) returns (n: Ring<T>)
      modifies this`next, next`prev, s`prev, s.prev`next
      ensures n == old(next)
      ensures next == if old(s.prev) == this then n else s
      ensures old(s.prev).next == n
      ensures n.prev == old(s.prev)
      ensures s.prev == if n == s then old(s.prev) else this
    {
      n := next;
      var p := s.prev;
      next := s;
      s.prev := this;
      n.prev := p;
      p.next := n;
    }

    /** Takes the following node out of the ring; a ring of one node stays as it is. */
    method UnlinkOne(ghost nodes: seq<Ring<T>>) returns (removed: Ring<T>)
      requires Circular(nodes) && nodes[0] == this
      modifies nodes
      ensures removed == nodes[Succ(0, |nodes|)]
      ensures Circular(AfterUnlink(nodes))
    {
      var s := Move(2, nodes);
      assert Ahead(2, |nodes|) == Succ(Ahead(1, |nodes|), |nodes|) && Ahead(1, |nodes|) == Succ(0, |nodes|);
      removed := Link(s);
      UnlinkedSuccessor(nodes, s);
    }
  }

  /** The index of the node `n` places after the first of `size` circular nodes. */
  function Ahead(n: nat, size: nat): (i: nat)
    requires size > 0
    ensures i < size
  {
    if n == 0 then 0 else Succ(Ahead(n - 1, size), size)
  }

  function Succ(i: nat, n: nat): nat
    requires i < n
  {
    if i + 1 == n then 0 else i + 1
  }

  function Pred(i: nat, n: nat): nat
    requires i < n
  {
    if i == 0 then n - 1 else i - 1
  }

  /** The nodes form one doubly linked circle, in this order. */
  ghost predicate Circular<T>(nodes: seq<Ring<T>>)
    reads nodes
  {
    && nodes != []
    && Distinct(nodes)
    && (forall i {:trigger nodes[i].next} :: 0 <= i < |nodes| ==> nodes[i].next == nodes[Succ(i, |nodes|)])
    && (forall i {:trigger nodes[i].prev} :: 0 <= i < |nodes| ==> nodes[i].prev == nodes[Pred(i, |nodes|)])
  }

  function ValuesOf<T>(nodes: seq<Ring<T>>): seq<T> {
    seq(|nodes|, i requires 0 <= i < |nodes| => nodes[i].Value)
  }

  function Rotated<T>(s: seq<T>, k: nat): seq<T>
    requires k <= |s|
  {
    s[k..] + s[..k]
  }

  function Shifted(i: nat, k: nat, n: nat): (j: nat)
    requires i < n && k < n
    ensures j < n
  {
    if i + k < n then i + k else i + k - n
  }

  lemma RotatedAt<T>(s: seq<T>, k: nat, i: nat)
    requires k < |s| && i < |s|
    ensures Rotated(s, k)[i] == s[Shifted(i, k, |s|)]
  {
  }

  lemma RotatedDistinct<T>(s: seq<T>, k: nat)
    requires k < |s| && Distinct(s)
    ensures Distinct(Rotated(s, k))
  {
    forall i, j | 0 <= i < j < |s| ensures Rotated(s, k)[i] != Rotated(s, k)[j] {
      RotatedAt(s, k, i);
      RotatedAt(s, k, j);
    }
  }

  /** A circle may be read from any of its nodes. */
  lemma RotatedCircular<T>(nodes: seq<Ring<T>>, k: nat)
    requires Circular(nodes) && k < |nodes|
    ensures Circular(Rotated(nodes, k))
  {
    var r, n := Rotated(nodes, k), |nodes|;
    RotatedDistinct(nodes, k);
    forall i | 0 <= i < n
      ensures r[i].next == r[Succ(i, n)] && r[i].prev == r[Pred(i, n)]
    {
      RotatedAt(nodes, k, i);
      RotatedAt(nodes, k, Succ(i, n));
      RotatedAt(nodes, k, Pred(i, n));
    }
  }

  class Ringbuffer<T(==)> {
    var data: Ring?<T>
    var len: nat
    const cap: nat
    ghost var nodes: seq<Ring<T>>  // the linked nodes, starting from data

    ghost predicate Valid()
      reads this, nodes
    {
      && |nodes| <= EffectiveCap(cap)
      && (len == 0 <==> nodes == [])
      && (len > 0 ==> len == if cap < 2 then 1 else |nodes|)
      && (len > 0 ==> data == nodes[0] && Circular(nodes))
      && (forall n :: n in nodes ==> n.owner == this)
    }

    ghost function View(): seq<T>
      reads this
    {
      ValuesOf(nodes)
    }

    constructor (capacity: nat)
      ensures Valid() && View() == [] && cap == capacity && nodes == []
    {
      data, len, cap, nodes := null, 0, capacity, [];
    }

    method Insert(v: T)
      requires Valid()
      modifies this, nodes
      ensures Valid() && View() == Inserted(old(View()), cap, v)
      ensures forall n :: n in nodes ==> n in old(nodes) || fresh(n)
    {
      if len == 0 {
        data := new Ring(v, this);
        nodes := [data];
        len := 1;
      } else {
        if len >= cap {
          UnlinkOldest();
        }
        LinkNewest(v);
        InsertedNodes(old(nodes), cap, data);
      }
    }

    /** Removes the element after `data`, if there is one. */
    method UnlinkOldest()
      requires Valid() && len > 0
      modifies this, nodes
      ensures nodes == AfterUnlink(old(nodes)) && Circular(nodes)
      ensures data == old(data) == nodes[0] && len == old(len) - 1
    {
      var _ := data.UnlinkOne(nodes);
      nodes := AfterUnlink(nodes);
      len := len - 1;
    }

    /** The plain insert: the new node follows `data` and takes its place. */
    method LinkNewest(v: T)
      requires nodes != [] && Circular(nodes) && data == nodes[0]
      modifies this, nodes
      ensures fresh(data) && data.Value == v && data.owner == this && len == old(len) + 1
      ensures nodes == [data] + old(nodes)[1..] + [old(nodes)[0]] && Circular(nodes)
    {
      var x := new Ring(v, this);
      InsertAfter(data, x, nodes);
      nodes := [x] + nodes[1..] + [nodes[0]];
      data := x;
      len := len + 1;
    }

    /** Removes the first value equal to `v`; false stands for the error ErrNotPresent. */
    method Remove(v: T) returns (ok: bool)
      requires Valid()
      modifies this, nodes
      ensures Valid() && View() == Removed(old(View()), cap, v)
      ensures ok == (v in old(View()))
      ensures forall n :: n in nodes ==> n in old(nodes)
    {
      if len == 0 {
        return false;
      }
      var i, k := Locate(v);
      if i == null {
        return false;
      }
      RemovedNodes(nodes, v, k);
      UnlinkNode(i, k);
      return true;
    }

    /** Remove's search: the first node holding `v`, if the walk round the ring meets one. */
    method Locate(v: T) returns (i: Ring?<T>, ghost k: nat)
      requires Valid() && len > 0
      ensures i == null ==> v !in View()
      ensures i != null ==> k < |nodes| && i == nodes[k] && i.Value == v
      ensures i != null ==> forall j :: 0 <= j < k ==> nodes[j].Value != v
    {
      i, k := data, 0;
      while true
        invariant k < |nodes| && i == nodes[k]
        invariant forall j :: 0 <= j < k ==> nodes[j].Value != v
        decreases |nodes| - k
      {
        if i.Value == v {
          return;
        }
        if i.next == data {
          assert k + 1 == |nodes|;
          return null, k;
        }
        i := i.next;
        k := k + 1;
      }
    }

    /** Takes the node `i` out, and moves `data` on if it was that node. */
    method UnlinkNode(i: Ring<T>, ghost k: nat)
      requires Valid() && k < |nodes| && i == nodes[k]
      modifies this, nodes
      ensures Valid() && nodes == if cap < 2 then [] else old(nodes)[..k] + old(nodes)[k + 1..]
    {
      if data == i {
        var p := i.prev;
        UnlinkAfter(p, k);
        ghost var rest := nodes[..k] + nodes[k + 1..];
        assert rest != [] ==> rest[|rest| - 1] == p;
        data := p.next;
      } else {
        UnlinkAfter(i.prev, k);
      }
      len := len - 1;
      nodes := if len == 0 then [] else nodes[..k] + nodes[k + 1..];
    }

    /** Unlinks nodes[k], given its predecessor. */
    method UnlinkAfter(p: Ring<T>, ghost k: nat)
      requires Valid() && k < |nodes| && p == nodes[Pred(k, |nodes|)]
      modifies nodes
      ensures |nodes| > 1 ==> Circular(nodes[..k] + nodes[k + 1..])
    {
      ghost var from := Rotated(nodes, Pred(k, |nodes|));
      RotatedCircular(nodes, Pred(k, |nodes|));
      var _ := p.UnlinkOne(from);
      if |nodes| > 1 {
        LeftAfterUnlink(nodes, k);
        RotatedBack(AfterUnlink(from), if k == 0 then 1 else |nodes| - k);
      }
    }

    /** The values in the order in which Do applies its function to them. */
    method Do() returns (visited: seq<T>)
      requires Valid()
      ensures visited == View()
    {
      if len == 0 {
        return [];
      }
      visited := [data.Value];
      var i := data.next;
      ghost var k := 1;
      while i != data
        invariant 1 <= k <= |nodes| && i == nodes[if k == |nodes| then 0 else k]
        invariant visited == View()[..k]
        decreases |nodes| - k
      {
        visited := visited + [i.Value];
        i := i.next;
        k := k + 1;
      }
    }

    method ExtractToSlice() returns (ret: seq<T>)
      requires Valid()
      ensures ret == View()
    {
      ret := Do();
    }

    method Filter(f: T ~> bool) returns (result: seq<T>)
      requires Valid() && forall x :: x in View() ==> f.requires(x)
      ensures result == Matching(View(), f)
    {
      result := [];
      if len == 0 {
        return;
      }
      assert View()[0] == data.Value;
      if f(data.Value) {
        result := result + [data.Value];
      }
      var i := data.next;
      ghost var k := 1;
      assert View()[..1] == [data.Value];
      while i != data
        invariant 1 <= k <= |nodes| && i == nodes[if k == |nodes| then 0 else k]
        invariant result == Matching(View()[..k], f)
        decreases |nodes| - k
      {
        assert View()[k] == i.Value && View()[..k + 1][..k] == View()[..k];
        if f(i.Value) {
          result := result + [i.Value];
        }
        i := i.next;
        k := k + 1;
      }
      assert View()[..k] == View();
    }

    method FindFirst(f: T ~> bool) returns (r: Option<T>)
      requires Valid() && forall x :: x in View() ==> f.requires(x)
      ensures r.None? ==> forall x :: x in View() ==> !f(x)
      ensures r.Some? ==> exists k :: 0 <= k < |View()| && View()[k] == r.value && f(View()[k])
                                 && forall j :: 0 <= j < k ==> !f(View()[j])
    {
      if len == 0 {
        return None;
      }
      assert View()[0] == data.Value;
      if f(data.Value) {
        return Some(data.Value);
      }
      var i := data.next;
      ghost var k := 1;
      while i != data
        invariant 1 <= k <= |nodes| && i == nodes[if k == |nodes| then 0 else k]
        invariant forall j :: 0 <= j < k ==> !f(View()[j])
        decreases |nodes| - k
      {
        assert View()[k] == i.Value;
        if f(i.Value) {
          return Some(i.Value);
        }
        i := i.next;
        k := k + 1;
      }
      return None;
    }
  }

  /** The values on which f holds, in order. */
  ghost function Matching<T>(s: seq<T>, f: T ~> bool): seq<T>
    requires forall x :: x in s ==> f.requires(x)
    reads set x, o | x in s && o in f.reads(x) :: o
  {
    if s == [] then []
    else
      var last := s[|s| - 1];
      assert last in s;
      Matching(s[..|s| - 1], f) + if f(last) then [last] else []
  }

  /** Unlinking the node after nodes[Pred(k)] drops nodes[k] and keeps the order. */
  lemma LeftAfterUnlink<T>(nodes: seq<T>, k: nat)
    requires k < |nodes| && |nodes| > 1
    ensures nodes[..k] + nodes[k + 1..]
         == Rotated(AfterUnlink(Rotated(nodes, Pred(k, |nodes|))), if k == 0 then 1 else |nodes| - k)
  {
    var p := Pred(k, |nodes|);
    var from := Rotated(nodes, p);
    if k == 0 {
      assert from == [nodes[p]] + nodes[..p];
      assert from[2..] == nodes[1..p];
    } else {
      assert from[2..] == nodes[k + 1..] + nodes[..p];
      assert AfterUnlink(from) == ([nodes[p]] + nodes[k + 1..]) + nodes[..p];
      assert nodes[..k] == nodes[..p] + [nodes[p]];
    }
  }

  lemma RotatedBack<T>(left: seq<Ring<T>>, k: nat)
    requires Circular(left) && k <= |left|
    ensures Circular(Rotated(left, k))
  {
    if k < |left| {
      RotatedCircular(left, k);
    } else {
      assert Rotated(left, k) == left;
    }
  }

  /** Dropping the first node that holds `v` drops the first `v` from the values. */
  lemma RemovedNodes<T>(nodes: seq<Ring<T>>, v: T, k: nat)
    requires k < |nodes| && nodes[k].Value == v && forall j :: 0 <= j < k ==> nodes[j].Value != v
    ensures v in ValuesOf(nodes)
    ensures ValuesOf(nodes[..k] + nodes[k + 1..]) == Without(ValuesOf(nodes), v)
  {
    assert ValuesOf(nodes)[k] == v;
    IndexOfIs(ValuesOf(nodes), v, k);
  }

  lemma IndexOfIs<T>(s: seq<T>, v: T, k: nat)
    requires k < |s| && s[k] == v && forall j :: 0 <= j < k ==> s[j] != v
    ensures IndexOf(s, v) == k
  {
  }

  /** Linking in node `x` changes the sequence of values as Inserted says. */
  lemma InsertedNodes<T>(nodes: seq<Ring<T>>, cap: nat, x: Ring<T>)
    requires nodes != []
    ensures ValuesOf(Inserted(nodes, cap, x)) == Inserted(ValuesOf(nodes), cap, x.Value)
    ensures var rest := if |nodes| < EffectiveCap(cap) then nodes else AfterUnlink(nodes);
            Inserted(nodes, cap, x) == [x] + rest[1..] + [rest[0]]
  {
    var r, v := Inserted(nodes, cap, x), Inserted(ValuesOf(nodes), cap, x.Value);
    var k := if |nodes| < EffectiveCap(cap) then 0 else 1;
    forall i | 0 <= i < |r| ensures r[i].Value == v[i] {
      assert r[i] == if i == 0 then x else if i == |r| - 1 then nodes[0] else nodes[i + k];
    }
  }

  /** The nodes left when the second one is unlinked. */
  function AfterUnlink<T>(nodes: seq<T>): seq<T>
    requires nodes != []
  {
    if |nodes| == 1 then nodes else [nodes[0]] + nodes[2..]
  }

  /** Links a new node into a circle; read from the new node, the circle ends with `head`. */
  method InsertAfter<T>(head: Ring<T>, x: Ring<T>, ghost nodes: seq<Ring<T>>)
    requires Circular(nodes) && nodes[0] == head && x !in nodes && x.prev == x == x.next
    modifies x, nodes
    ensures Circular([x] + nodes[1..] + [head])
  {
    LinkAfter(head, x, nodes);
    RotatedByOne([head, x] + nodes[1..]);
    assert ([head, x] + nodes[1..])[1..] == [x] + nodes[1..];
  }

  method LinkAfter<T>(head: Ring<T>, x: Ring<T>, ghost nodes: seq<Ring<T>>)
    requires Circular(nodes) && nodes[0] == head && x !in nodes && x.prev == x == x.next
    modifies x, nodes
    ensures Circular([head, x] + nodes[1..])
  {
    var _ := head.Link(x);
    LinkedSuccessor(nodes, x);
  }

  lemma RotatedByOne<T>(nodes: seq<Ring<T>>)
    requires Circular(nodes) && |nodes| > 1
    ensures Circular(nodes[1..] + [nodes[0]])
  {
    RotatedCircular(nodes, 1);
    assert Rotated(nodes, 1) == nodes[1..] + [nodes[0]];
  }

  /** The pointers Link sets when it inserts a new node `x` after nodes[0]. */
  lemma LinkedSuccessor<T>(nodes: seq<Ring<T>>, x: Ring<T>)
    requires nodes != [] && x !in nodes && Distinct(nodes)
    requires nodes[0].next == x && x.prev == nodes[0]
    requires var n := nodes[Succ(0, |nodes|)]; x.next == n && n.prev == x
    requires forall i {:trigger nodes[i].next} :: 0 < i < |nodes| ==> nodes[i].next == nodes[Succ(i, |nodes|)]
    requires forall i {:trigger nodes[i].prev} :: 0 <= i < |nodes| && i != Succ(0, |nodes|) ==>
      nodes[i].prev == nodes[Pred(i, |nodes|)]
    ensures Circular([nodes[0], x] + nodes[1..])
  {
    var r := [nodes[0], x] + nodes[1..];
    forall i | 2 <= i < |r|
      ensures r[i].next == r[Succ(i, |r|)] && r[i].prev == r[Pred(i, |r|)]
    {
      assert r[i] == nodes[i - 1];
      assert i > 2 ==> r[i - 1] == nodes[i - 2];
    }
  }

  /** The pointers Link sets when it drops nodes[1], `s` being the node two places after nodes[0]. */
  lemma UnlinkedSuccessor<T>(nodes: seq<Ring<T>>, s: Ring<T>)
    requires nodes != [] && Distinct(nodes)
    requires s == nodes[if |nodes| <= 2 then 0 else 2]
    requires nodes[0].next == s && s.prev == nodes[0]
    requires forall i {:trigger nodes[i].next} :: 1 < i < |nodes| ==> nodes[i].next == nodes[Succ(i, |nodes|)]
    requires forall i {:trigger nodes[i].prev} :: 0 <= i < |nodes| && nodes[i] != s && i != 1 ==>
      nodes[i].prev == nodes[Pred(i, |nodes|)]
    ensures Circular(AfterUnlink(nodes))
  {
    if |nodes| > 1 {
      var r := [nodes[0]] + nodes[2..];
      forall i | 0 <= i < |r|
        ensures r[i].next == r[Succ(i, |r|)] && r[i].prev == r[Pred(i, |r|)]
      {
        assert r[i] == nodes[if i == 0 then 0 else i + 1];
        assert i > 1 ==> r[i - 1] == nodes[i];
      }
    }
  }
}
