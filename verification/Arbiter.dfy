/** Who owns the machine connection.  Each method is one section under the mutex; dialing and
    closing a connection that was not published happen outside it. */
module Arbiter {
  datatype Option<T> = None | Some(value: T)

  datatype Mode = Owner | Relay

  /** A connection is named by its place in the order of dialing. */
  type ConnId = nat

  /** The generation is an unsigned 64-bit counter. */
  const GENERATIONS: nat := 0x1_0000_0000_0000_0000

  datatype State = State(mode: Mode, ownerConn: Option<ConnId>, generation: nat)

  const INITIAL := State(Owner, None, 0)

  /** What the first locked section of an operation finds. */
  datatype Lookup = RelayActive | Cached(conn: ConnId) | MustDial

  /** What becomes of a freshly dialed connection. */
  datatype Publication = Refused | Reuse(existing: ConnId) | Published

  function NextGeneration(g: nat): nat {
    (g + 1) % GENERATIONS
  }

  function Look(s: State): Lookup {
    if s.mode != Owner then RelayActive
    else if s.ownerConn.Some? then Cached(s.ownerConn.value)
    else MustDial
  }

  function Verdict(s: State): Publication {
    if s.mode != Owner then Refused
    else if s.ownerConn.Some? then Reuse(s.ownerConn.value)
    else Published
  }

  /** `bump` says whether publishing counts as a new conversation. */
  function Publish(s: State, conn: ConnId, bump: bool): State {
    if Verdict(s).Published? then
      s.(ownerConn := Some(conn), generation := if bump then NextGeneration(s.generation) else s.generation)
    else s
  }

  function Enter(s: State): State {
    State(Relay, None, NextGeneration(s.generation))
  }

  /** The connections a locked section itself closes. */
  function Closing(c: Option<ConnId>): multiset<ConnId> {
    if c.Some? then multiset{c.value} else multiset{}
  }

  function Drop(s: State, conn: ConnId): State {
    if s.ownerConn == Some(conn) then s.(ownerConn := None) else s
  }

  class Arbiter {
    var mode: Mode
    var ownerConn: Option<ConnId>
    var connectionGeneration: nat
    /** How often Close was called on each connection. */
    var closes: multiset<ConnId>

    function Abs(): State
      reads this
    {
      State(mode, ownerConn, connectionGeneration)
    }

    constructor ()
      ensures Abs() == INITIAL && closes == multiset{}
    {
      mode, ownerConn, connectionGeneration, closes := Owner, None, 0, multiset{};
    }

    method EnterRelay()
      modifies this
      ensures Abs() == Enter(old(Abs()))
      ensures closes == old(closes) + Closing(old(ownerConn))
    {
      mode := Relay;
      connectionGeneration := NextGeneration(connectionGeneration);
      if ownerConn != None {
        closes := closes + multiset{ownerConn.value};
        ownerConn := None;
      }
    }

    method ExitRelay()
      modifies this
      ensures Abs() == old(Abs()).(mode := Owner) && closes == old(closes)
    {
      mode := Owner;
    }

    /** The first section of acquiring the owner connection. */
    method LookupOwnerConn() returns (r: Lookup)
      ensures r == Look(Abs())
      ensures r.MustDial? <==> mode == Owner && ownerConn == None
    {
      if mode != Owner {
        return RelayActive;
      }
      if ownerConn != None {
        return Cached(ownerConn.value);
      }
      return MustDial;
    }

    /** The second section, after an operation dialed. */
    method PublishOwnerConn(conn: ConnId) returns (r: Publication)
      modifies this
      ensures r == Verdict(old(Abs())) && Abs() == Publish(old(Abs()), conn, true) && closes == old(closes)
    {
      if mode != Owner {
        return Refused;
      } else if ownerConn != None {
        return Reuse(ownerConn.value);
      }
      ownerConn := Some(conn);
      connectionGeneration := NextGeneration(connectionGeneration);
      return Published;
    }

    /** The second section, after a realtime control dialed. */
    method PublishControlConn(conn: ConnId) returns (r: Publication)
      modifies this
      ensures r == Verdict(old(Abs())) && Abs() == Publish(old(Abs()), conn, false) && closes == old(closes)
    {
      if mode != Owner {
        return Refused;
      } else if ownerConn != None {
        return Reuse(ownerConn.value);
      }
      ownerConn := Some(conn);
      return Published;
    }

    /** Closes and forgets a connection that failed, unless another has taken its place. */
    method DropOwnerConn(conn: ConnId)
      modifies this
      ensures Abs() == Drop(old(Abs()), conn)
      ensures closes == old(closes) + if old(ownerConn) == Some(conn) then multiset{conn} else multiset{}
    {
      if ownerConn == Some(conn) {
        closes := closes + multiset{conn};
        ownerConn := None;
      }
    }
  }
}
