/** The lease object of the WSS server, tied to the lease of the admission model. */
module SocketLease {
  import opened Admission

  /** What all leases of a server share: the bounded semaphore and the active set. */
  class Shared {
    var permits: int
    var active: set<Sock>

    constructor ()
      ensures permits == MAX_PENDING && active == {}
    {
      permits, active := MAX_PENDING, {};
    }

    /** A bounded semaphore: a release past the bound raises and changes nothing. */
    method GiveBack() returns (raised: bool)
      modifies this`permits
      ensures raised <==> old(permits) >= MAX_PENDING
      ensures permits == if raised then old(permits) else old(permits) + 1
    {
      raised := permits >= MAX_PENDING;
      if !raised {
        permits := permits + 1;
      }
    }
  }

  class SocketLease {
    const conn: Conn
    const shared: Shared
    var sock: Sock
    var released: bool

    /** The server state `s`, with this lease and the shared fields as they are now. */
    ghost function View(s: State): State
      reads this, shared
    {
      s.(leases := s.leases[conn := Lease(sock, released)], active := shared.active, permits := shared.permits)
    }

    constructor (conn: Conn, shared: Shared, ghost s: State)
      requires s.active == shared.active && s.permits == shared.permits
      modifies shared
      ensures this.conn == conn && this.shared == shared
      ensures View(s) == s.WithLease(conn)
    {
      this.conn, this.shared, sock, released := conn, shared, Raw(conn), false;
      new;
      shared.active := shared.active + {Raw(conn)};
    }

    method Replace(ghost s: State)
      modifies this`sock, shared`active
      ensures View(s) == old(View(s)).Replaced(conn)
    {
      shared.active := shared.active - {sock};
      sock := Tls(conn);
      shared.active := shared.active + {sock};
    }

    /** The first release gives the permit back; every later one does nothing at all. */
    method Release(ghost s: State) returns (raised: bool)
      modifies this`released, shared`active, shared`permits
      ensures old(released) ==> !raised && View(s) == old(View(s))
      ensures !old(released) ==> (raised <==> old(shared.permits) >= MAX_PENDING)
      ensures !old(released) && !raised ==> View(s) == old(View(s)).Released(conn).PermitBack()
    {
      if released {
        return false;
      }
      released := true;
      shared.active := shared.active - {sock};
      raised := shared.GiveBack();
    }
  }
}
