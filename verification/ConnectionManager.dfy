/** The connection manager: three maps and a slice over shared connection objects. */
module ConnectionManager {
  import opened Basics
  import opened Connections

  class GossipConnection {
    const id: ConnectionId
    var timestamp: int
    var sentPowReq: bool

    constructor (id: ConnectionId)
      ensures this.id == id && View() == Peer(0, false)
    {
      this.id, timestamp, sentPowReq := id, 0, false;
    }

    function View(): Peer
      reads this
    {
      Peer(timestamp, sentPowReq)
    }
  }

  type ConnMap = map<ConnectionId, GossipConnection>

  ghost function ViewOf(m: ConnMap): map<ConnectionId, Peer>
    reads m.Values
  {
    map id | id in m :: m[id].View()
  }

  lemma ViewKeys(m: ConnMap)
    ensures ViewOf(m).Keys == m.Keys
  {
  }

  lemma ViewAt(m: ConnMap, id: ConnectionId)
    ensures id in ViewOf(m) <==> id in m
    ensures id in m ==> ViewOf(m)[id] == m[id].View()
  {
  }

  lemma ViewWithout(m: ConnMap, id: ConnectionId)
    ensures ViewOf(m - {id}) == ViewOf(m) - {id} && (m - {id}).Values <= m.Values
  {
  }

  lemma ViewWith(m: ConnMap, c: GossipConnection)
    ensures ViewOf(m[c.id := c]) == ViewOf(m)[c.id := c.View()] && m[c.id := c].Values <= m.Values + {c}
  {
  }

  /** Each connection is filed under its own id. */
  ghost predicate Keyed(m: ConnMap) {
    forall id :: id in m ==> m[id].id == id
  }

  /** No connection object is in both maps. */
  ghost predicate Apart(m: ConnMap, n: ConnMap) {
    forall id :: id in m && id in n ==> m[id] != n[id]
  }

  ghost predicate Files(m: ConnMap, c: GossipConnection) {
    c.id in m && m[c.id] == c
  }

  ghost predicate DistinctIds(s: seq<GossipConnection>) {
    forall i, j :: 0 <= i < j < |s| ==> s[i].id != s[j].id
  }

  /** The slice lists exactly the map's connections, pointer for pointer. */
  ghost predicate Agree(s: seq<GossipConnection>, m: ConnMap) {
    && DistinctIds(s)
    && (forall i :: 0 <= i < |s| ==> s[i].id in m && m[s[i].id] == s[i])
    && (forall id :: id in m ==> m[id] in s)
  }

  /** The slice after entry i is overwritten by the last one and the last place is dropped. */
  function SwapRemoved<T>(s: seq<T>, i: nat): (r: seq<T>)
    requires i < |s|
    ensures |r| == |s| - 1 && r[..i] == s[..i]
  {
    s[i := s[|s| - 1]][..|s| - 1]
  }

  /** Swap-removal drops exactly the connection at i. */
  lemma SwapRemovedElements(s: seq<GossipConnection>, i: nat)
    requires i < |s| && DistinctIds(s)
    ensures DistinctIds(SwapRemoved(s, i))
    ensures forall c :: c in SwapRemoved(s, i) <==> c in s && c != s[i]
    ensures forall j :: i <= j < |s| - 1 ==> SwapRemoved(s, i)[j] in s[i + 1..]
  {
    var r := SwapRemoved(s, i);
    forall c | c in s && c != s[i] ensures c in r {
      var k :| 0 <= k < |s| && s[k] == c;
      assert r[if k == |s| - 1 then i else k] == c;
    }
    forall j | i <= j < |s| - 1 ensures r[j] in s[i + 1..] {
      assert r[j] == s[i + 1..][if j == i then |s| - 2 - i else j - i - 1];
    }
  }

  lemma SwapRemovedAgrees(s: seq<GossipConnection>, m: ConnMap, i: nat)
    requires i < |s| && Agree(s, m) && Keyed(m)
    ensures Agree(SwapRemoved(s, i), m - {s[i].id})
  {
    SwapRemovedElements(s, i);
    var r, m' := SwapRemoved(s, i), m - {s[i].id};
    forall j | 0 <= j < |r| ensures r[j].id in m' && m'[r[j].id] == r[j] {
      assert r[j] in s && r[j] != s[i];
      var k :| 0 <= k < |s| && s[k] == r[j];
    }
  }

  lemma AllMarked(s: seq<GossipConnection>, m: ConnMap, before: map<ConnectionId, Peer>)
    requires Agree(s, m) && Keyed(m) && before.Keys == m.Keys
    requires forall i :: 0 <= i < |s| ==> s[i].View() == before[s[i].id].(sentPowReq := true)
    ensures ViewOf(m) == map id | id in before :: before[id].(sentPowReq := true)
  {
    forall id | id in m ensures m[id].View() == before[id].(sentPowReq := true) {
      var k :| 0 <= k < |s| && s[k] == m[id];
    }
  }

  lemma AppendedAgrees(s: seq<GossipConnection>, m: ConnMap, c: GossipConnection)
    requires Agree(s, m) && Keyed(m) && c.id !in m
    ensures Agree(s + [c], m[c.id := c]) && Keyed(m[c.id := c])
  {
    var s', m' := s + [c], m[c.id := c];
    forall id | id in m' ensures m'[id] in s' {
      assert s'[|s|] == c;
    }
  }

  /** What f says of each connection of the slice. */
  ghost function Verdicts(s: seq<GossipConnection>, f: Peer -> bool): (bad: seq<bool>)
    reads s
    ensures |bad| == |s| && forall i :: 0 <= i < |s| ==> bad[i] == f(s[i].View())
  {
    seq(|s|, i requires 0 <= i < |s| reads s => f(s[i].View()))
  }

  /** The places before n that are marked bad, in ascending order. */
  function Marked(bad: seq<bool>, n: nat): (r: seq<nat>)
    requires n <= |bad|
    ensures Ascending(r, n)
  {
    if n == 0 then [] else Marked(bad, n - 1) + if bad[n - 1] then [n - 1] else []
  }

  /** Ascending places with room for the later ones up to n. */
  ghost predicate Ascending(marked: seq<nat>, n: nat) {
    && (forall i :: 0 <= i < |marked| ==> marked[i] + (|marked| - i) <= n)
    && (forall i, j :: 0 <= i < j < |marked| ==> marked[i] < marked[j])
  }

  lemma {:induction false} MarkedIffBad(bad: seq<bool>, n: nat, k: nat)
    requires k < n <= |bad|
    ensures k in Marked(bad, n) <==> bad[k]
  {
    if k < n - 1 {
      MarkedIffBad(bad, n - 1, k);
    }
  }

  /** The slice after swap-removal at all marked places from the i-th on, last one first. */
  function SwapRemovedAll<T>(s: seq<T>, marked: seq<nat>, i: nat): (r: seq<T>)
    requires i <= |marked| && Ascending(marked, |s|)
    ensures |r| == |s| - (|marked| - i)
    decreases |marked| - i
  {
    if i == |marked| then s else SwapRemoved(SwapRemovedAll(s, marked, i + 1), marked[i])
  }

  /** The i-th marked place, or the end of the slice. */
  function Place(marked: seq<nat>, i: nat, n: nat): nat
    requires i <= |marked|
  {
    if i < |marked| then marked[i] else n
  }

  /** Between two consecutive marked places nothing is bad. */
  lemma NothingBetween(bad: seq<bool>, i: nat, k: nat)
    requires var marked := Marked(bad, |bad|); i < |marked| && marked[i] < k < Place(marked, i + 1, |bad|)
    ensures !bad[k]
  {
    var marked := Marked(bad, |bad|);
    if bad[k] {
      MarkedIffBad(bad, |bad|, k);
      var j :| 0 <= j < |marked| && marked[j] == k;
      if j <= i {
        assert false;
      }
    }
  }

  ghost function Culled(m: ConnMap, f: Peer -> bool): ConnMap
    reads m.Values
  {
    map id | id in m && !f(m[id].View()) :: m[id]
  }

  /** The map after the ids of the bad ones among the first n connections are deleted. */
  function Deleted(m: ConnMap, s: seq<GossipConnection>, bad: seq<bool>, n: nat): ConnMap
    requires n <= |s| == |bad|
  {
    if n == 0 then m
    else if bad[n - 1] then Deleted(m, s, bad, n - 1) - {s[n - 1].id}
    else Deleted(m, s, bad, n - 1)
  }

  lemma {:induction false} DeletedIds(m: ConnMap, s: seq<GossipConnection>, bad: seq<bool>, n: nat, id: ConnectionId)
    requires n <= |s| == |bad|
    ensures id in Deleted(m, s, bad, n) <==> id in m && forall j :: 0 <= j < n && s[j].id == id ==> !bad[j]
    ensures id in Deleted(m, s, bad, n) ==> Deleted(m, s, bad, n)[id] == m[id]
  {
    if n > 0 {
      DeletedIds(m, s, bad, n - 1, id);
    }
  }

  lemma AllDeleted(m: ConnMap, s: seq<GossipConnection>, f: Peer -> bool)
    requires Agree(s, m) && Keyed(m)
    ensures Deleted(m, s, Verdicts(s, f), |s|) == Culled(m, f)
  {
    var bad := Verdicts(s, f);
    forall id ensures id in Deleted(m, s, bad, |s|) <==> id in Culled(m, f) {
      DeletedIds(m, s, bad, |s|, id);
      if id in m {
        var k :| 0 <= k < |s| && s[k] == m[id];
        assert bad[k] == f(m[id].View());
      }
    }
    forall id | id in Culled(m, f) ensures Deleted(m, s, bad, |s|)[id] == Culled(m, f)[id] {
      DeletedIds(m, s, bad, |s|, id);
    }
  }

  lemma CulledAgrees(slice: seq<GossipConnection>, m: ConnMap, f: Peer -> bool, now: seq<GossipConnection>)
    requires Agree(slice, m) && Keyed(m) && DistinctIds(now)
    requires forall c :: c in now <==> c in slice && !f(c.View())
    ensures Agree(now, Culled(m, f)) && Keyed(Culled(m, f)) && Culled(m, f).Values <= m.Values
    ensures ViewOf(Culled(m, f)) == map id | id in ViewOf(m) && !f(ViewOf(m)[id]) :: ViewOf(m)[id]
  {
    forall i | 0 <= i < |now| ensures now[i].id in Culled(m, f) && Culled(m, f)[now[i].id] == now[i] {
      assert now[i] in slice;
      var k :| 0 <= k < |slice| && slice[k] == now[i];
    }
  }

  /** From slice to now the bad connections from place k on were dropped, and no others. */
  ghost predicate Dropped(slice: seq<GossipConnection>, now: seq<GossipConnection>, bad: seq<bool>, k: nat)
    requires |bad| == |slice|
  {
    && DistinctIds(now)
    && k <= |now| && k <= |slice| && now[..k] == slice[..k]
    && (forall j :: k <= j < |now| ==> Keeps(slice, bad, now[j]))
    && (forall p :: 0 <= p < |slice| && !bad[p] ==> slice[p] in now)
  }

  ghost predicate Keeps(slice: seq<GossipConnection>, bad: seq<bool>, c: GossipConnection)
    requires |bad| == |slice|
  {
    exists p :: 0 <= p < |slice| && !bad[p] && slice[p] == c
  }

  /** Swap-removing the next marked place below k leaves nothing to drop from there on. */
  lemma DropStep(slice: seq<GossipConnection>, now: seq<GossipConnection>, bad: seq<bool>, k: nat, r: nat)
    requires |bad| == |slice| && DistinctIds(slice) && Dropped(slice, now, bad, k)
    requires r < k && bad[r] && forall p :: r < p < k ==> !bad[p]
    ensures Dropped(slice, SwapRemoved(now, r), bad, r)
  {
    var now' := SwapRemoved(now, r);
    SwapRemovedElements(now, r);
    assert now[r] == slice[r] && now'[..r] == slice[..r];
    forall j | r < j < |now| ensures Keeps(slice, bad, now[j]) {
      if j < k {
        assert now[j] == now[..k][j] == slice[j];
      }
    }
    forall j | r <= j < |now'| ensures Keeps(slice, bad, now'[j]) {
      assert now'[j] in now[r + 1..];
    }
  }

  /** Because the places are taken in descending order, exactly the bad connections go. */
  lemma {:induction false} SwapRemovedAllDrops(slice: seq<GossipConnection>, bad: seq<bool>, i: nat)
    requires |bad| == |slice| && DistinctIds(slice) && i <= |Marked(bad, |bad|)|
    ensures var marked := Marked(bad, |bad|);
            Dropped(slice, SwapRemovedAll(slice, marked, i), bad, Place(marked, i, |slice|))
    decreases |Marked(bad, |bad|)| - i
  {
    var marked := Marked(bad, |bad|);
    if i < |marked| {
      SwapRemovedAllDrops(slice, bad, i + 1);
      forall p | marked[i] < p < Place(marked, i + 1, |bad|) ensures !bad[p] {
        NothingBetween(bad, i, p);
      }
      MarkedIffBad(bad, |bad|, marked[i]);
      DropStep(slice, SwapRemovedAll(slice, marked, i + 1), bad, Place(marked, i + 1, |slice|), marked[i]);
    }
  }

  lemma CulledSlice(slice: seq<GossipConnection>, f: Peer -> bool)
    requires DistinctIds(slice)
    ensures var bad := Verdicts(slice, f);
            var now := SwapRemovedAll(slice, Marked(bad, |bad|), 0);
            DistinctIds(now) && forall c :: c in now <==> c in slice && !f(c.View())
  {
    var bad := Verdicts(slice, f);
    var marked := Marked(bad, |bad|);
    var now := SwapRemovedAll(slice, marked, 0);
    SwapRemovedAllDrops(slice, bad, 0);
    var k := Place(marked, 0, |slice|);
    forall j | 0 <= j < |now| ensures Keeps(slice, bad, now[j]) {
      if j < k {
        assert now[j] == now[..k][j] == slice[j];
        MarkedIffBad(bad, |bad|, j);
      }
    }
    forall c | c in slice && !f(c.View()) ensures c in now {
      var p :| 0 <= p < |slice| && slice[p] == c;
      assert !bad[p];
    }
  }

  class ConnectionManager {
    var toBeProvedConnections: ConnMap
    var openConnections: seq<GossipConnection>
    var openConnectionsMap: ConnMap
    var powInProgress: ConnMap

    ghost predicate Valid()
      reads this
    {
      && Keyed(toBeProvedConnections) && Keyed(powInProgress) && Keyed(openConnectionsMap)
      && Apart(toBeProvedConnections, powInProgress)
      && Apart(toBeProvedConnections, openConnectionsMap)
      && Apart(powInProgress, openConnectionsMap)
      && Agree(openConnections, openConnectionsMap)
    }

    ghost function Peers(): set<GossipConnection>
      reads this
    {
      toBeProvedConnections.Values + powInProgress.Values + openConnectionsMap.Values
    }

    ghost function View(): Conns
      reads this, Peers()
    {
      Conns(ViewOf(toBeProvedConnections), ViewOf(powInProgress), ViewOf(openConnectionsMap))
    }

    ghost predicate Manages(c: GossipConnection)
      reads this
    {
      Files(toBeProvedConnections, c) || Files(powInProgress, c) || Files(openConnectionsMap, c)
    }

    /** A later connection in the list replaces an earlier one with the same id. */
    constructor (toBeProved: seq<ConnectionId>)
      ensures Valid() && fresh(Peers())
      ensures View() == Conns(map id | id in toBeProved :: Peer(0, false), map[], map[])
    {
      openConnections, openConnectionsMap, powInProgress := [], map[], map[];
      toBeProvedConnections := map[];
      new;
      for i := 0 to |toBeProved|
        invariant openConnections == [] && openConnectionsMap == map[] && powInProgress == map[]
        invariant Keyed(toBeProvedConnections) && fresh(toBeProvedConnections.Values)
        invariant forall id :: id in toBeProvedConnections <==> id in toBeProved[..i]
        invariant forall id :: id in toBeProvedConnections ==> toBeProvedConnections[id].View() == Peer(0, false)
      {
        var conn := new GossipConnection(toBeProved[i]);
        ghost var before := toBeProvedConnections;
        toBeProvedConnections := toBeProvedConnections[toBeProved[i] := conn];
        assert toBeProvedConnections.Values <= before.Values + {conn};
        assert toBeProved[..i + 1] == toBeProved[..i] + [toBeProved[i]];
      }
    }

    method FindToBeProved(id: ConnectionId) returns (peer: GossipConnection?)
      requires Valid()
      ensures peer != null <==> id in View().toBeProved
      ensures peer != null ==> id in toBeProvedConnections && peer == toBeProvedConnections[id]
    {
      peer := if id in toBeProvedConnections then toBeProvedConnections[id] else null;
    }

    method FindInProgress(id: ConnectionId) returns (peer: GossipConnection?)
      requires Valid()
      ensures peer != null <==> id in View().inProgress
      ensures peer != null ==> id in powInProgress && peer == powInProgress[id]
    {
      peer := if id in powInProgress then powInProgress[id] else null;
    }

    method FindValid(id: ConnectionId) returns (peer: GossipConnection?)
      requires Valid()
      ensures peer != null <==> id in View().open
      ensures peer != null ==> id in openConnectionsMap && peer == openConnectionsMap[id]
    {
      peer := if id in openConnectionsMap then openConnectionsMap[id] else null;
    }

    /** Takes the connection out of the first map that has it; null stands for the error. */
    method Remove(id: ConnectionId) returns (peer: GossipConnection?)
      requires Valid()
      modifies this
      ensures Valid() && View() == old(View()).Remove(id)
      ensures peer != null <==> old(View()).Has(id)
      ensures peer != null ==> peer.id == id && peer in old(Peers()) && peer.View() == old(View()).Found(id)
      ensures Peers() <= old(Peers()) && (peer != null ==> !Manages(peer))
    {
      hide ViewOf, Agree;
      ViewAt(toBeProvedConnections, id);
      ViewAt(powInProgress, id);
      ViewAt(openConnectionsMap, id);
      ghost var view := View();
      if id in toBeProvedConnections {
        peer := toBeProvedConnections[id];
        ViewWithout(toBeProvedConnections, id);
        toBeProvedConnections := toBeProvedConnections - {id};
        assert ViewOf(toBeProvedConnections) == view.toBeProved - {id};
        return;
      }
      if id in powInProgress {
        peer := powInProgress[id];
        ViewWithout(powInProgress, id);
        powInProgress := powInProgress - {id};
        assert ViewOf(powInProgress) == view.inProgress - {id};
        return;
      }
      peer := RemoveOpen(id);
    }

    /** The last part of Remove: the connection is open or unknown. */
    method RemoveOpen(id: ConnectionId) returns (peer: GossipConnection?)
      requires Valid() && id !in toBeProvedConnections && id !in powInProgress
      modifies this`openConnections, this`openConnectionsMap
      ensures Valid() && View() == old(View()).(open := old(View()).open - {id})
      ensures peer != null <==> id in old(View()).open
      ensures peer != null ==> peer.id == id && peer in old(Peers()) && peer.View() == old(View()).open[id]
      ensures Peers() <= old(Peers()) && (peer != null ==> !Manages(peer))
    {
      ViewWithout(openConnectionsMap, id);
      if id in openConnectionsMap {
        peer := openConnectionsMap[id];
        RemoveFromSlice(id);
        return;
      }
      assert openConnectionsMap - {id} == openConnectionsMap;
      peer := null;
    }

    /** Deletes an open connection from the map and, by swap-removal, from the slice. */
    method RemoveFromSlice(id: ConnectionId)
      requires Valid() && id in openConnectionsMap
      modifies this`openConnections, this`openConnectionsMap
      ensures openConnectionsMap == old(openConnectionsMap) - {id}
      ensures Agree(openConnections, openConnectionsMap)
    {
      ghost var map0 := openConnectionsMap;
      assert map0[id] in openConnections;
      openConnectionsMap := openConnectionsMap - {id};
      for i := 0 to |openConnections|
        invariant openConnections == old(openConnections) && openConnectionsMap == map0 - {id}
        invariant forall j :: 0 <= j < i ==> openConnections[j].id != id
      {
        if openConnections[i].id == id {
          SwapRemovedAgrees(openConnections, map0, i);
          openConnections := SwapRemoved(openConnections, i);
          return;
        }
      }
      assert false;  // Agree: the slice lists every connection of the map
    }

    /** Gives an open connection a new timestamp; moves any other known connection to the open ones. */
    method MakeValid(id: ConnectionId, timestamp: int)
      requires Valid()
      modifies this, Peers()
      ensures Valid() && View() == old(View()).MakeValid(id, timestamp)
      ensures Peers() <= old(Peers())
    {
      if id in openConnectionsMap {
        Touch(openConnectionsMap[id], timestamp);
        return;
      }
      var peer := Remove(id);
      if peer == null {
        return;
      }
      Open(peer, timestamp);
    }

    method Touch(peer: GossipConnection, timestamp: int)
      requires Valid() && Files(openConnectionsMap, peer)
      modifies peer`timestamp
      ensures View() == old(View()).MakeValid(peer.id, timestamp)
    {
      ghost var view := View();
      peer.timestamp := timestamp;
      assert ViewOf(openConnectionsMap) == view.open[peer.id := view.open[peer.id].(timestamp := timestamp)];
      assert ViewOf(toBeProvedConnections) == view.toBeProved && ViewOf(powInProgress) == view.inProgress;
    }

    /** Makes a connection that no map has an open one. */
    method Open(peer: GossipConnection, timestamp: int)
      requires Valid() && !Manages(peer) && peer.id !in openConnectionsMap
      modifies this`openConnections, this`openConnectionsMap, peer`timestamp
      ensures Valid() && View() ==
        old(View()).(open := old(View()).open[peer.id := old(peer.View()).(timestamp := timestamp)])
      ensures Peers() <= old(Peers()) + {peer}
    {
      Stamp(peer, timestamp);
      Append(peer);
    }

    method Stamp(peer: GossipConnection, timestamp: int)
      requires Valid() && !Manages(peer)
      modifies peer`timestamp
      ensures View() == old(View()) && peer.timestamp == timestamp
    {
      peer.timestamp := timestamp;
    }

    method Append(peer: GossipConnection)
      requires Valid() && !Manages(peer) && peer.id !in openConnectionsMap
      modifies this`openConnections, this`openConnectionsMap
      ensures Valid() && View() == old(View()).(open := old(View()).open[peer.id := peer.View()])
      ensures Peers() <= old(Peers()) + {peer}
    {
      hide ViewOf, Keyed, Agree;
      AppendedAgrees(openConnections, openConnectionsMap, peer);
      ViewWith(openConnectionsMap, peer);
      openConnections := openConnections + [peer];
      openConnectionsMap := openConnectionsMap[peer.id := peer];
    }

    method AddInProgress(peer: GossipConnection)
      requires Valid() && !Manages(peer) && peer.View() == Peer(0, false)
      modifies this`powInProgress
      ensures Valid() && View() == old(View()).AddInProgress(peer.id)
      ensures Peers() <= old(Peers()) + {peer}
    {
      ViewWith(powInProgress, peer);
      powInProgress := powInProgress[peer.id := peer];
    }

    /** Notes that a connection has answered a renewal challenge. It has no effect on what the
        manager knows unless the connection is still open. */
    method ClearRequest(peer: GossipConnection)
      requires Valid() && !Files(toBeProvedConnections, peer) && !Files(powInProgress, peer)
      requires peer.id in openConnectionsMap ==> openConnectionsMap[peer.id] == peer
      modifies peer`sentPowReq
      ensures View() == old(View()).SetSentPowReq(peer.id, false)
    {
      ghost var view := View();
      assert peer !in toBeProvedConnections.Values && peer !in powInProgress.Values;
      peer.sentPowReq := false;
      assert ViewOf(toBeProvedConnections) == view.toBeProved && ViewOf(powInProgress) == view.inProgress;
      assert ViewOf(openConnectionsMap) == view.SetSentPowReq(peer.id, false).open;
    }

    /** Marks every open connection as asked for a renewal, in the order of the slice. */
    method MarkRequested() returns (ids: seq<ConnectionId>)
      requires Valid()
      modifies openConnections
      ensures View() == old(View()).AllSentPowReq()
      ensures |ids| == |openConnections| && forall i :: 0 <= i < |ids| ==> ids[i] == openConnections[i].id
    {
      ghost var view := View();
      assert forall c :: c in openConnections ==> Files(openConnectionsMap, c);
      ids := [];
      for i := 0 to |openConnections|
        invariant |ids| == i && forall j :: 0 <= j < i ==> ids[j] == openConnections[j].id
        invariant forall j :: 0 <= j < |openConnections| ==>
          openConnections[j].View() ==
            old(openConnections[j].View()).(sentPowReq := j < i || old(openConnections[j].sentPowReq))
      {
        openConnections[i].sentPowReq := true;
        ids := ids + [openConnections[i].id];
      }
      assert ViewOf(toBeProvedConnections) == view.toBeProved;
      assert ViewOf(powInProgress) == view.inProgress;
      AllMarked(openConnections, openConnectionsMap, view.open);
    }

    /** Closes exactly the open connections on which f holds: what is left in the slice is a
        permutation of the others. */
    method CullConnections(f: Peer -> bool)
      requires Valid()
      modifies this`openConnections, this`openConnectionsMap
      ensures Valid() && View() == old(View()).Cull(f)
      ensures Peers() <= old(Peers())
      ensures forall c :: c in openConnections <==> c in old(openConnections) && !old(f(c.View()))
    {
      ghost var kept, left := Kept(f), Culled(openConnectionsMap, f);
      CulledIsValid(f, kept, left);
      RemoveCulled(f, kept, left);
    }

    method RemoveCulled(f: Peer -> bool, ghost kept: seq<GossipConnection>, ghost left: ConnMap)
      requires Valid() && kept == Kept(f) && left == Culled(openConnectionsMap, f)
      modifies this`openConnections, this`openConnectionsMap
      ensures openConnections == kept && openConnectionsMap == left
      ensures View() == Conns(old(View()).toBeProved, old(View()).inProgress, old(ViewOf(left)))
    {
      hide Culled, Deleted, Marked, Verdicts, SwapRemovedAll;
      AllDeleted(openConnectionsMap, openConnections, f);
      var toRemove := DeleteCulled(f, Verdicts(openConnections, f));
      DropFromSlice(toRemove);
    }

    /** The slice that CullConnections leaves. */
    ghost function Kept(f: Peer -> bool): seq<GossipConnection>
      reads this, openConnections
    {
      SwapRemovedAll(openConnections, Marked(Verdicts(openConnections, f), |openConnections|), 0)
    }

    lemma CulledIsValid(f: Peer -> bool, kept: seq<GossipConnection>, m: ConnMap)
      requires Valid() && kept == Kept(f) && m == Culled(openConnectionsMap, f)
      ensures forall c :: c in kept <==> c in openConnections && !f(c.View())
      ensures Agree(kept, m) && Keyed(m) && Apart(toBeProvedConnections, m) && Apart(powInProgress, m)
      ensures m.Values <= openConnectionsMap.Values && ViewOf(m) == View().Cull(f).open
    {
      CulledSlice(openConnections, f);
      CulledAgrees(openConnections, openConnectionsMap, f, kept);
    }

    /** The first loop: deletes from the map, and collects the slice's indices in ascending order. */
    method DeleteCulled(f: Peer -> bool, ghost bad: seq<bool>) returns (toRemove: seq<nat>)
      requires |bad| == |openConnections| && forall i :: 0 <= i < |bad| ==> bad[i] == f(openConnections[i].View())
      modifies this`openConnectionsMap
      ensures toRemove == Marked(bad, |bad|)
      ensures openConnectionsMap == Deleted(old(openConnectionsMap), openConnections, bad, |bad|)
    {
      toRemove := [];
      for i := 0 to |openConnections|
        invariant toRemove == Marked(bad, i)
        invariant openConnectionsMap == Deleted(old(openConnectionsMap), openConnections, bad, i)
      {
        var peer := openConnections[i];
        assert bad[i] == f(peer.View());
        if f(peer.View()) {
          openConnectionsMap := openConnectionsMap - {peer.id};
          toRemove := toRemove + [i];
        }
      }
    }

    /** The second loop: swap-removal in descending order of the indices. */
    method DropFromSlice(toRemove: seq<nat>)
      requires Ascending(toRemove, |openConnections|)
      modifies this`openConnections
      ensures openConnections == SwapRemovedAll(old(openConnections), toRemove, 0)
    {
      for i := |toRemove| downto 0
        invariant openConnections == SwapRemovedAll(old(openConnections), toRemove, i)
      {
        openConnections := SwapRemoved(openConnections, toRemove[i]);
      }
    }

    /** The connections on which a function is called: the first `max` of a permutation `perm`. */
    method ActionOnPermutedValid(perm: seq<nat>, max: nat) returns (visited: seq<GossipConnection>)
      requires IsPermutation(perm, |openConnections|)
      ensures |visited| == (if max < |openConnections| then max else |openConnections|)
      ensures forall i :: 0 <= i < |visited| ==> visited[i] == openConnections[perm[i]]
      ensures DistinctIds(openConnections) ==> DistinctIds(visited)
    {
      var amount := if max < |openConnections| then max else |openConnections|;
      visited := [];
      for i := 0 to amount
        invariant |visited| == i && forall j :: 0 <= j < i ==> visited[j] == openConnections[perm[j]]
      {
        visited := visited + [openConnections[perm[i]]];
      }
      forall i, j | 0 <= i < j < |visited| && DistinctIds(openConnections) ensures visited[i].id != visited[j].id {
        assert perm[i] < perm[j] || perm[j] < perm[i];
      }
    }
  }
}
