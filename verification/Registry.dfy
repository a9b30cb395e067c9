/** Which connections are to be notified of which message type. */
module Registry {
  import opened Basics
  import opened Connections

  type GossipType = uint16

  /** A registered module: two are the same only if they are the same object. */
  class Conn {
    const Id: ConnectionId

    constructor (id: ConnectionId)
      ensures Id == id
    {
      Id := id;
    }
  }

  type Lists = map<GossipType, seq<Conn>>

  function Registered(data: Lists, t: GossipType): seq<Conn> {
    if t in data then data[t] else []
  }

  /** The place of the first connection with this id, or the length of the list. */
  function Place(l: seq<Conn>, id: ConnectionId): (i: nat)
    ensures i <= |l| && (i < |l| ==> l[i].Id == id)
    ensures forall j :: 0 <= j < i ==> l[j].Id != id
  {
    if l == [] || l[0].Id == id then 0 else 1 + Place(l[1..], id)
  }

  predicate Holds(l: seq<Conn>, id: ConnectionId) {
    Place(l, id) < |l|
  }

  predicate DistinctIds(l: seq<Conn>) {
    forall i, j :: 0 <= i < j < |l| ==> l[i].Id != l[j].Id
  }

  predicate AllDistinct(data: Lists) {
    forall t :: t in data ==> DistinctIds(data[t])
  }

  /** The last connection takes the place of the one removed. */
  function WithoutId(l: seq<Conn>, id: ConnectionId): seq<Conn> {
    if Holds(l, id) then l[Place(l, id) := l[|l| - 1]][..|l| - 1] else l
  }

  function Added(data: Lists, t: GossipType, c: Conn): Lists {
    if Holds(Registered(data, t), c.Id) then data else data[t := Registered(data, t) + [c]]
  }

  function Removed(data: Lists, id: ConnectionId): Lists {
    map t | t in data :: WithoutId(data[t], id)
  }

  /** Null if none of these types has the id, or else the connection that one of them has under it. */
  predicate IsTakenOut(data: Lists, types: set<GossipType>, id: ConnectionId, ret: Conn?) {
    if ret == null then forall t :: t in types && t in data ==> !Holds(data[t], id)
    else exists t :: t in types && t in data && Holds(data[t], id) && ret == data[t][Place(data[t], id)]
  }

  lemma NothingTakenOut(data: Lists, id: ConnectionId)
    ensures IsTakenOut(data, {}, id, null)
  {
  }

  lemma TakeOutMore(data: Lists, types: set<GossipType>, k: GossipType, id: ConnectionId, ret: Conn?, removed: Conn?)
    requires k in data && IsTakenOut(data, types, id, ret)
    requires removed == if Holds(data[k], id) then data[k][Place(data[k], id)] else null
    ensures IsTakenOut(data, types + {k}, id, if removed != null then removed else ret)
  {
    if removed == null && ret != null {
      var t :| t in types && t in data && Holds(data[t], id) && ret == data[t][Place(data[t], id)];
      assert t in types + {k};
    }
  }

  class NotifyMap {
    var data: Lists

    constructor ()
      ensures data == map[]
    {
      data := map[];
    }

    method Load(t: GossipType) returns (res: seq<Conn>)
      ensures res == Registered(data, t)
    {
      res := if t in data then data[t] else [];
    }

    /** Registers the connection, unless one with its id is registered for the type already. */
    method AddChannelToType(t: GossipType, newChannel: Conn) returns (ok: bool)
      modifies this
      ensures ok == !Holds(Registered(old(data), t), newChannel.Id)
      ensures data == Added(old(data), t, newChannel)
    {
      var reg := if t in data then data[t] else [];
      for i := 0 to |reg|
        invariant forall j :: 0 <= j < i ==> reg[j].Id != newChannel.Id
      {
        if reg[i].Id == newChannel.Id {
          return false;
        }
      }
      data := data[t := reg + [newChannel]];
      return true;
    }

    /** The search through one list. */
    method SwapRemove(l: seq<Conn>, unreg: ConnectionId) returns (r: seq<Conn>, removed: Conn?)
      ensures r == WithoutId(l, unreg)
      ensures removed == if Holds(l, unreg) then l[Place(l, unreg)] else null
      ensures removed == null ==> r == l
    {
      for i := 0 to |l|
        invariant i <= Place(l, unreg)
      {
        if l[i].Id == unreg {
          r := l[i := l[|l| - 1]];
          return r[..|l| - 1], l[i];
        }
      }
      return l, null;
    }

    /** Removes the connection with this id from every type; returns one that was removed, or null. The types
        come in any order, as Go's maps have none. */
    method RemoveChannel(unreg: ConnectionId) returns (ret: Conn?)
      modifies this
      ensures data == Removed(old(data), unreg)
      ensures IsTakenOut(old(data), old(data).Keys, unreg, ret)
    {
      hide IsTakenOut, WithoutId, Place, Holds;
      ret := null;
      ghost var before := data;
      NothingTakenOut(before, unreg);
      var todo := data.Keys;
      assert before.Keys - todo == {};
      while todo != {}
        invariant todo <= data.Keys == before.Keys
        invariant forall t :: t in todo ==> data[t] == before[t]
        invariant forall t :: t in before.Keys - todo ==> data[t] == WithoutId(before[t], unreg)
        invariant IsTakenOut(before, before.Keys - todo, unreg, ret)
      {
        var k :| k in todo;
        ghost var done := before.Keys - todo;
        var l, removed := SwapRemove(data[k], unreg);
        TakeOutMore(before, done, k, unreg, ret, removed);
        if removed != null {
          data := data[k := l];
          ret := removed;
        }
        assert data[k] == WithoutId(before[k], unreg);
        todo := todo - {k};
        assert before.Keys - todo == done + {k};
      }
      assert before.Keys - todo == before.Keys;
      assert data == Removed(before, unreg);
    }
  }

  // ---- runs ----

  datatype Op = Add(t: GossipType, c: Conn) | Remove(id: ConnectionId)

  function Apply(data: Lists, op: Op): Lists {
    match op
    case Add(t, c) => Added(data, t, c)
    case Remove(id) => Removed(data, id)
  }

  function Run(ops: seq<Op>): Lists {
    if ops == [] then map[] else Apply(Run(ops[..|ops| - 1]), ops[|ops| - 1])
  }

  predicate Adds(op: Op, t: GossipType, id: ConnectionId) {
    op.Add? && op.t == t && op.c.Id == id
  }

  predicate RemovedAfter(ops: seq<Op>, k: nat, id: ConnectionId) {
    exists j :: k < j < |ops| && ops[j] == Remove(id)
  }

  /** Some registration of the id for the type was asked for and not removed since. */
  predicate AskedFor(ops: seq<Op>, t: GossipType, id: ConnectionId) {
    exists k :: 0 <= k < |ops| && Adds(ops[k], t, id) && !RemovedAfter(ops, k, id)
  }

  /** The registration at place i was the first of its id since the last removal, and was not removed since. */
  predicate Standing(ops: seq<Op>, i: nat, t: GossipType, c: Conn)
    requires i < |ops|
  {
    ops[i] == Add(t, c) && !AskedFor(ops[..i], t, c.Id) && !RemovedAfter(ops, i, c.Id)
  }

  predicate Stands(ops: seq<Op>, t: GossipType, c: Conn) {
    exists i :: 0 <= i < |ops| && Standing(ops, i, t, c)
  }

  lemma RemovedAfterOneMore(ops: seq<Op>, op: Op, k: nat, id: ConnectionId)
    requires k < |ops|
    ensures RemovedAfter(ops + [op], k, id) <==> RemovedAfter(ops, k, id) || op == Remove(id)
  {
    var more := ops + [op];
    if op == Remove(id) {
      assert more[|ops|] == Remove(id);
    }
    if RemovedAfter(ops, k, id) {
      var j :| k < j < |ops| && ops[j] == Remove(id);
      assert more[j] == Remove(id);
    }
  }

  lemma AskedForOneMore(ops: seq<Op>, op: Op, t: GossipType, id: ConnectionId)
    ensures AskedFor(ops + [op], t, id) <==> Adds(op, t, id) || (op != Remove(id) && AskedFor(ops, t, id))
  {
    var more := ops + [op];
    forall k | 0 <= k < |ops|
      ensures RemovedAfter(more, k, id) <==> RemovedAfter(ops, k, id) || op == Remove(id)
    {
      RemovedAfterOneMore(ops, op, k, id);
    }
    if Adds(op, t, id) {
      assert more[|ops|] == op && !RemovedAfter(more, |ops|, id);
    } else if op != Remove(id) && AskedFor(ops, t, id) {
      var k :| 0 <= k < |ops| && Adds(ops[k], t, id) && !RemovedAfter(ops, k, id);
      assert Adds(more[k], t, id) && !RemovedAfter(more, k, id);
    }
  }

  lemma StandsOneMore(ops: seq<Op>, op: Op, t: GossipType, c: Conn)
    ensures Stands(ops + [op], t, c) <==>
            (op == Add(t, c) && !AskedFor(ops, t, c.Id)) || (op != Remove(c.Id) && Stands(ops, t, c))
  {
    var more := ops + [op];
    assert more[..|ops|] == ops;
    forall i | 0 <= i < |ops|
      ensures Standing(more, i, t, c) <==> Standing(ops, i, t, c) && op != Remove(c.Id)
    {
      RemovedAfterOneMore(ops, op, i, c.Id);
      assert more[..i] == ops[..i];
    }
    assert Standing(more, |ops|, t, c) <==> op == Add(t, c) && !AskedFor(ops, t, c.Id);
    if Stands(ops, t, c) && op != Remove(c.Id) {
      var i :| 0 <= i < |ops| && Standing(ops, i, t, c);
      assert Standing(more, i, t, c);
    }
  }

  lemma WithoutIdIs(l: seq<Conn>, id: ConnectionId)
    requires DistinctIds(l)
    ensures DistinctIds(WithoutId(l, id)) && !Holds(WithoutId(l, id), id)
    ensures forall c :: c in WithoutId(l, id) <==> c in l && c.Id != id
  {
    var r := WithoutId(l, id);
    if Holds(l, id) {
      var p := Place(l, id);
      forall c | c in l && c.Id != id
        ensures c in r
      {
        var i :| 0 <= i < |l| && l[i] == c;
        assert if i == |l| - 1 then r[p] == c else r[i] == c;
      }
    }
  }

  lemma HoldsIff(l: seq<Conn>, id: ConnectionId)
    ensures Holds(l, id) <==> exists c :: c in l && c.Id == id
  {
    if Holds(l, id) {
      assert l[Place(l, id)] in l;
    }
  }

  lemma ApplyKeepsDistinct(data: Lists, op: Op)
    requires AllDistinct(data)
    ensures AllDistinct(Apply(data, op))
  {
    if op.Remove? {
      forall t | t in data
        ensures DistinctIds(WithoutId(data[t], op.id))
      {
        WithoutIdIs(data[t], op.id);
      }
    }
  }

  lemma ListAfter(data: Lists, op: Op, t: GossipType, c: Conn)
    requires AllDistinct(data)
    ensures c in Registered(Apply(data, op), t) <==>
            (op == Add(t, c) && !Holds(Registered(data, t), c.Id)) || (op != Remove(c.Id) && c in Registered(data, t))
  {
    if op.Remove? && t in data {
      WithoutIdIs(data[t], op.id);
    }
  }

  lemma HoldsAfter(data: Lists, op: Op, t: GossipType, id: ConnectionId)
    requires AllDistinct(data)
    ensures Holds(Registered(Apply(data, op), t), id) <==>
            Adds(op, t, id) || (op != Remove(id) && Holds(Registered(data, t), id))
  {
    var l := Registered(data, t);
    HoldsIff(l, id);
    HoldsIff(Registered(Apply(data, op), t), id);
    match op {
      case Add(t', c) =>
        if Adds(op, t, id) && !Holds(l, id) {
          assert c in l + [c];
        } else if Holds(l, id) {
          var d :| d in l && d.Id == id;
          assert d in l + [c];
        }
      case Remove(id') =>
        if t in data {
          WithoutIdIs(l, id');
        }
    }
  }

  lemma {:induction false} RunHolds(ops: seq<Op>, t: GossipType, id: ConnectionId)
    ensures AllDistinct(Run(ops))
    ensures Holds(Registered(Run(ops), t), id) <==> AskedFor(ops, t, id)
  {
    if ops != [] {
      var before, op := ops[..|ops| - 1], ops[|ops| - 1];
      RunHolds(before, t, id);
      assert ops == before + [op];
      ApplyKeepsDistinct(Run(before), op);
      HoldsAfter(Run(before), op, t, id);
      AskedForOneMore(before, op, t, id);
    }
  }

  /** After any run, a type's list has no id twice, and holds exactly the registrations made first and not
      removed since. */
  lemma {:induction false} RunIsStanding(ops: seq<Op>, t: GossipType, c: Conn)
    ensures DistinctIds(Registered(Run(ops), t))
    ensures c in Registered(Run(ops), t) <==> Stands(ops, t, c)
  {
    RunHolds(ops, t, c.Id);
    if ops != [] {
      var before, op := ops[..|ops| - 1], ops[|ops| - 1];
      RunIsStanding(before, t, c);
      RunHolds(before, t, c.Id);
      assert ops == before + [op];
      ListAfter(Run(before), op, t, c);
      StandsOneMore(before, op, t, c);
    }
  }

  /** Removal takes the id out of every type, and comes back empty-handed exactly when no registration of it,
      for any type, stood. */
  lemma RemovalClears(ops: seq<Op>, id: ConnectionId, t: GossipType)
    ensures !Holds(Registered(Run(ops + [Remove(id)]), t), id)
    ensures (forall u :: u in Run(ops) ==> !Holds(Run(ops)[u], id)) <==> forall u :: !AskedFor(ops, u, id)
  {
    hide Run, AskedFor, Place;
    RunHolds(ops + [Remove(id)], t, id);
    AskedForOneMore(ops, Remove(id), t, id);
    var data := Run(ops);
    if forall u :: u in data ==> !Holds(data[u], id) {
      forall u ensures !AskedFor(ops, u, id) {
        RunHolds(ops, u, id);
        NotThere(data, u, id);
      }
    } else {
      var u :| u in data && Holds(data[u], id);
      RunHolds(ops, u, id);
      assert Registered(data, u) == data[u];
      assert AskedFor(ops, u, id);
    }
  }

  lemma NotThere(data: Lists, u: GossipType, id: ConnectionId)
    requires u in data ==> !Holds(data[u], id)
    ensures !Holds(Registered(data, u), id)
  {
  }
}
