/** The connections of a node as values: what the connection manager's maps mean. */
module Connections {
  import opened Basics
  import opened Bytes

  /** A connection id is the remote TCP address. */
  type ConnectionId = bytes

  datatype Peer = Peer(timestamp: int, sentPowReq: bool)

  datatype Conns = Conns(
    toBeProved: map<ConnectionId, Peer>,
    inProgress: map<ConnectionId, Peer>,
    open: map<ConnectionId, Peer>)
  {
    predicate Has(id: ConnectionId) {
      id in toBeProved || id in inProgress || id in open
    }

    /** Removes the id from the first of the three maps that has it. */
    function Remove(id: ConnectionId): Conns {
      if id in toBeProved then this.(toBeProved := toBeProved - {id})
      else if id in inProgress then this.(inProgress := inProgress - {id})
      else this.(open := open - {id})
    }

    /** The peer that Remove takes out. */
    function Found(id: ConnectionId): Peer
      requires Has(id)
    {
      if id in toBeProved then toBeProved[id] else if id in inProgress then inProgress[id] else open[id]
    }

    /** Gives an open peer a new timestamp, or opens the connection with it. */
    function MakeValid(id: ConnectionId, timestamp: int): Conns {
      if id in open then this.(open := open[id := open[id].(timestamp := timestamp)])
      else if !Has(id) then this
      else Remove(id).(open := open[id := Found(id).(timestamp := timestamp)])
    }

    function AddInProgress(id: ConnectionId): Conns {
      this.(inProgress := inProgress[id := Peer(0, false)])
    }

    function SetSentPowReq(id: ConnectionId, sent: bool): Conns {
      if id in open then this.(open := open[id := open[id].(sentPowReq := sent)]) else this
    }

    function AllSentPowReq(): Conns {
      this.(open := map id | id in open :: open[id].(sentPowReq := true))
    }

    /** Closes exactly the open connections on which f holds. */
    function Cull(f: Peer -> bool): Conns {
      this.(open := map id | id in open && !f(open[id]) :: open[id])
    }

    /** No id is in two of the maps. */
    predicate Disjoint() {
      toBeProved.Keys !! inProgress.Keys !! open.Keys
    }
  }

  /** No id is new, none comes back to waiting for a proof, and the maps stay disjoint. */
  ghost predicate NoNewIds(c: Conns, c': Conns) {
    && c'.toBeProved.Keys <= c.toBeProved.Keys
    && c'.inProgress.Keys <= c.inProgress.Keys
    && (forall id :: c'.Has(id) ==> c.Has(id))
    && (c.Disjoint() ==> c'.Disjoint())
  }

  lemma RemoveAddsNothing(c: Conns, id: ConnectionId)
    ensures NoNewIds(c, c.Remove(id))
  {
  }

  lemma MakeValidAddsNothing(c: Conns, id: ConnectionId, timestamp: int)
    ensures NoNewIds(c, c.MakeValid(id, timestamp))
  {
  }

  lemma UpdatesAddNothing(c: Conns, id: ConnectionId, sent: bool, f: Peer -> bool)
    ensures NoNewIds(c, c.SetSentPowReq(id, sent)) && NoNewIds(c, c.AllSentPowReq()) && NoNewIds(c, c.Cull(f))
  {
  }

  lemma AddInProgressAddsOne(c: Conns, id: ConnectionId)
    ensures var c' := c.AddInProgress(id);
            && c'.toBeProved == c.toBeProved && c'.open == c.open && c'.inProgress.Keys == c.inProgress.Keys + {id}
    ensures c.Disjoint() && !c.Has(id) ==> c.AddInProgress(id).Disjoint()
  {
  }
}
