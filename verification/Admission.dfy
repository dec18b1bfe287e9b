/** Bounded admission in the WSS server: the accept loop, four handshake workers, one thread a link,
    and a close that races with all of them, as steps on one shared state. */
module Admission {
  import opened Runs

  const MAX_PENDING: int := 64

  type Conn = nat     // an accepted connection

  // wrap_socket takes the descriptor out of the raw socket object and puts it into a TLS one.
  datatype Sock = Raw(conn: Conn) | Tls(conn: Conn)
  datatype Fd = AtRaw | AtTls | Gone

  datatype Lease = Lease(sock: Sock, released: bool)

  // Where each thread stands. Releasing: about to run the locked part of lease.release(). Returning:
  // past it, about to give the permit back.
  datatype AcceptPc =
    | Top
    | Accepting
    | Got(conn: Conn)
    | Permitted(conn: Conn)                  // has a permit, no lease yet
    | Leased(conn: Conn)                     // about to re-check `closing`
    | Queueing(conn: Conn)                   // about to put_nowait
    | Rejecting(conn: Conn, stop: bool)      // about to close the lease's socket
    | AcceptReleasing(conn: Conn, stop: bool)
    | AcceptReturning(conn: Conn, stop: bool)
    | Stopped

  datatype WorkerPc =
    | Idle
    | Serving(conn: Conn)                    // took the lease off the queue
    | Wrapping(conn: Conn)                   // from the start of wrap_socket to lease.replace
    | Handling(conn: Conn)
    | Failing(conn: Conn)                    // not transferred: about to close the lease's socket
    | WorkerReleasing(conn: Conn)
    | WorkerReturning(conn: Conn)
    | Exited

  datatype LinkPc = Running | LinkReleasing | LinkReturning

  datatype CloserPc = Ready | Marked | Unlistened | Sweeping(todo: set<Sock>) | Done

  // `missed` records connections whose raw socket object close() closed after the descriptor had left it.
  datatype State = State(accept: AcceptPc, workers: seq<WorkerPc>, links: map<Conn, LinkPc>, closer: CloserPc,
                         closing: bool, permits: int, leases: map<Conn, Lease>, active: set<Sock>,
                         queue: seq<Conn>, fds: map<Conn, Fd>, missed: set<Conn>) {
    // ---- _SocketLease ----

    function WithLease(c: Conn): State {
      this.(leases := leases[c := Lease(Raw(c), false)], active := active + {Raw(c)})
    }

    function Replaced(c: Conn): (r: State)
      requires c in leases
      ensures r == this.(leases := r.leases, active := r.active) && r.leases.Keys == leases.Keys
      ensures forall d <- leases :: d != c ==> r.leases[d] == leases[d]
    {
      this.(leases := leases[c := leases[c].(sock := Tls(c))], active := active - {leases[c].sock} + {Tls(c)})
    }

    /** The locked part of release(). */
    function Released(c: Conn): (r: State)
      requires c in leases
      ensures r == this.(leases := r.leases, active := r.active) && r.leases.Keys == leases.Keys
      ensures forall d <- leases :: d != c ==> r.leases[d] == leases[d]
    {
      if leases[c].released then this
      else this.(leases := leases[c := leases[c].(released := true)], active := active - {leases[c].sock})
    }

    /** Closing a socket object closes the connection only while the object holds the descriptor. */
    function Closed(s: Sock): (r: State)
      ensures r == this.(fds := r.fds) && r.fds.Keys == fds.Keys
      ensures forall d <- fds :: d != s.conn ==> r.fds[d] == fds[d]
    {
      if s.conn in fds && fds[s.conn] == (if s.Raw? then AtRaw else AtTls)
      then this.(fds := fds[s.conn := Gone])
      else this
    }

    function PermitBack(): State {
      this.(permits := permits + 1)
    }
  }

  const Initial := State(Top, [Idle, Idle, Idle, Idle], map[], Ready, false, MAX_PENDING, map[], {}, [], map[], {})

  // ---- the accept loop ----

  datatype AcceptStep = Test | Accept(conn: Conn) | AcceptFails | Acquire | MakeLease | Recheck | Put
                      | CloseLease | Release | GiveBack

  predicate AcceptEnabled(s: State, a: AcceptStep) {
    match a
    case Test => s.accept.Top?
    case Accept(c) => s.accept.Accepting? && c !in s.fds
    case AcceptFails => s.accept.Accepting?
    case Acquire => s.accept.Got?
    case MakeLease => s.accept.Permitted?
    case Recheck => s.accept.Leased?
    case Put => s.accept.Queueing?
    case CloseLease => s.accept.Rejecting? && s.accept.conn in s.leases
    case Release => s.accept.AcceptReleasing? && s.accept.conn in s.leases
    case GiveBack => s.accept.AcceptReturning?
  }

  function AcceptApply(s: State, a: AcceptStep): State
    requires AcceptEnabled(s, a)
  {
    match a
    case Test => s.(accept := if s.closing then Stopped else Accepting)
    case Accept(c) => s.(accept := Got(c), fds := s.fds[c := AtRaw])
    case AcceptFails => s.(accept := Stopped)
    case Acquire =>
      if s.permits > 0 then s.(accept := Permitted(s.accept.conn), permits := s.permits - 1)
      else s.Closed(Raw(s.accept.conn)).(accept := Top)
    case MakeLease => s.WithLease(s.accept.conn).(accept := Leased(s.accept.conn))
    case Recheck =>
      s.(accept := if s.closing then Rejecting(s.accept.conn, true) else Queueing(s.accept.conn))
    case Put =>
      if |s.queue| < MAX_PENDING then s.(accept := Top, queue := s.queue + [s.accept.conn])
      else s.(accept := Rejecting(s.accept.conn, false))
    case CloseLease =>
      s.Closed(s.leases[s.accept.conn].sock).(accept := AcceptReleasing(s.accept.conn, s.accept.stop))
    case Release => s.Released(s.accept.conn).(accept := AcceptReturning(s.accept.conn, s.accept.stop))
    case GiveBack => s.PermitBack().(accept := if s.accept.stop then Stopped else Top)
  }

  // ---- a worker ----

  datatype WorkerStep = Take | Exit | StartWrap | WrapFails | Replace | Transfer | HandleFails
                      | CloseFailed | ReleaseFailed | GiveBackFailed(dies: bool)

  predicate WorkEnabled(s: State, i: nat, w: WorkerStep) {
    i < |s.workers| &&
    var pc := s.workers[i];
    match w
    case Take => pc.Idle? && s.queue != []
    case Exit => pc.Idle? && s.queue == [] && s.closing
    case StartWrap => pc.Serving? && pc.conn in s.fds
    case WrapFails => pc.Wrapping?
    case Replace => pc.Wrapping? && pc.conn in s.leases
    case Transfer => pc.Handling?
    case HandleFails => pc.Handling?
    case CloseFailed => pc.Failing? && pc.conn in s.leases
    case ReleaseFailed => pc.WorkerReleasing? && pc.conn in s.leases
    case GiveBackFailed(_) => pc.WorkerReturning?
  }

  function At(s: State, i: nat, pc: WorkerPc): State
    requires i < |s.workers|
  {
    s.(workers := s.workers[i := pc])
  }

  function WorkApply(s: State, i: nat, w: WorkerStep): State
    requires WorkEnabled(s, i, w)
  {
    var pc := s.workers[i];
    match w
    case Take => At(s, i, Serving(s.queue[0])).(queue := s.queue[1..])
    case Exit => At(s, i, Exited)
    case StartWrap =>
      if s.fds[pc.conn] == AtRaw then At(s, i, Wrapping(pc.conn)).(fds := s.fds[pc.conn := AtTls])
      else At(s, i, Failing(pc.conn))
    case WrapFails => At(s, i, Failing(pc.conn)).Closed(Tls(pc.conn))
    case Replace => At(s, i, Handling(pc.conn)).Replaced(pc.conn)
    case Transfer => At(s, i, Idle).(links := s.links[pc.conn := Running])
    case HandleFails => At(s, i, Failing(pc.conn))
    case CloseFailed => At(s, i, WorkerReleasing(pc.conn)).Closed(s.leases[pc.conn].sock)
    case ReleaseFailed => At(s, i, WorkerReturning(pc.conn)).Released(pc.conn)
    case GiveBackFailed(dies) => At(s, i, if dies then Exited else Idle).PermitBack()
  }

  // ---- a link thread ----

  datatype LinkStep = LinkEnds | ReleaseLink | GiveBackLink

  predicate LinkEnabled(s: State, c: Conn, l: LinkStep) {
    c in s.links &&
    match l
    case LinkEnds => s.links[c].Running?
    case ReleaseLink => s.links[c].LinkReleasing? && c in s.leases
    case GiveBackLink => s.links[c].LinkReturning?
  }

  function LinkApply(s: State, c: Conn, l: LinkStep): State
    requires LinkEnabled(s, c, l)
  {
    match l
    case LinkEnds => s.Closed(Tls(c)).(links := s.links[c := LinkReleasing])
    case ReleaseLink => s.Released(c).(links := s.links[c := LinkReturning])
    case GiveBackLink => s.PermitBack().(links := s.links - {c})
  }

  // ---- close_server ----

  datatype CloseStep = Mark | Unlisten | Snapshot | CloseOne(sock: Sock) | FinishSweep

  predicate CloseEnabled(s: State, k: CloseStep) {
    match k
    case Mark => s.closer.Ready?
    case Unlisten => s.closer.Marked?
    case Snapshot => s.closer.Unlistened?
    case CloseOne(sock) => s.closer.Sweeping? && sock in s.closer.todo
    case FinishSweep => s.closer == Sweeping({})
  }

  function CloseApply(s: State, k: CloseStep): State
    requires CloseEnabled(s, k)
  {
    match k
    case Mark => s.(closing := true, closer := Marked)
    case Unlisten => s.(closer := Unlistened)
    case Snapshot => s.(closer := Sweeping(s.active))
    case CloseOne(sock) =>
      s.Closed(sock).(closer := Sweeping(s.closer.todo - {sock}),
                      missed := if Slipped(s, sock) then s.missed + {sock.conn} else s.missed)
    case FinishSweep => s.(closer := Done)
  }

  /** The raw object being closed has already handed its descriptor to wrap_socket. */
  predicate Slipped(s: State, sock: Sock) {
    sock.Raw? && sock.conn in s.fds && s.fds[sock.conn].AtTls?
  }

  // ---- runs ----

  datatype Action =
    | OfAccept(a: AcceptStep)
    | OfWorker(i: nat, w: WorkerStep)
    | OfLink(c: Conn, l: LinkStep)
    | OfCloser(k: CloseStep)

  predicate Enabled(s: State, a: Action) {
    match a
    case OfAccept(a) => AcceptEnabled(s, a)
    case OfWorker(i, w) => WorkEnabled(s, i, w)
    case OfLink(c, l) => LinkEnabled(s, c, l)
    case OfCloser(k) => CloseEnabled(s, k)
  }

  function Apply(s: State, a: Action): State
    requires Enabled(s, a)
  {
    match a
    case OfAccept(a) => AcceptApply(s, a)
    case OfWorker(i, w) => WorkApply(s, i, w)
    case OfLink(c, l) => LinkApply(s, c, l)
    case OfCloser(k) => CloseApply(s, k)
  }

  ghost predicate Steps(s: State, s': State) {
    exists a :: Enabled(s, a) && s' == Apply(s, a)
  }

  ghost predicate IsRun(run: seq<State>) {
    IsRunOf(run, Initial, Steps)
  }

  ghost predicate Reachable(s: State) {
    ReachableBy(s, Initial, Steps)
  }
}
