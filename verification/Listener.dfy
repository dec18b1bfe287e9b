/** The TCP listener: its accept loop, a receive thread a socket, and close_all, in every interleaving. */
module Listener {
  import opened Runs

  type Sock = nat

  // Got: between accept() and the locked check of `closing`. Added: in the set, thread not started yet.
  datatype AcceptPc = Accepting | Got(sock: Sock) | Added(sock: Sock) | Stopped

  datatype CloserPc = Idle | Sweeping(todo: set<Sock>) | Done

  // Closed: the receive loop has ended and closed its socket, which is still in the set.
  datatype ReceiverPc = Receiving | Closed

  datatype State = State(accept: AcceptPc, receivers: map<Sock, ReceiverPc>, closer: CloserPc,
                         closing: bool, sockets: set<Sock>, accepted: set<Sock>, closed: set<Sock>)

  const Initial := State(Accepting, map[], Idle, false, {}, {}, {})

  datatype Action =
    | Accept(sock: Sock)
    | AcceptFails
    | Check                    // under the lock: close the socket if closing, else add it to the set
    | Start                    // register the link and start its receive thread
    | StartFails
    | ReceiveEnds(sock: Sock)  // _recv_loop returns, having closed its socket
    | Discard(sock: Sock)      // under the lock: the thread takes its socket off the set
    | BeginClose               // close_all, under the lock: set `closing` and copy the set
    | CloseOne(sock: Sock)
    | FinishClose

  predicate Enabled(s: State, a: Action) {
    match a
    case Accept(k) => s.accept.Accepting? && k !in s.accepted
    case AcceptFails => s.accept.Accepting?
    case Check => s.accept.Got?
    case Start => s.accept.Added?
    case StartFails => s.accept.Added?
    case ReceiveEnds(k) => k in s.receivers && s.receivers[k].Receiving?
    case Discard(k) => k in s.receivers && s.receivers[k].Closed?
    case BeginClose => !s.closer.Sweeping?
    case CloseOne(k) => s.closer.Sweeping? && k in s.closer.todo
    case FinishClose => s.closer == Sweeping({})
  }

  function Apply(s: State, a: Action): State
    requires Enabled(s, a)
  {
    match a
    case Accept(k) => s.(accept := Got(k), accepted := s.accepted + {k})
    case AcceptFails => s.(accept := Stopped)
    case Check =>
      if s.closing then s.(accept := Accepting, closed := s.closed + {s.accept.sock})
      else s.(accept := Added(s.accept.sock), sockets := s.sockets + {s.accept.sock})
    case Start => s.(accept := Accepting, receivers := s.receivers[s.accept.sock := Receiving])
    case StartFails => s.(accept := Stopped)
    case ReceiveEnds(k) => s.(receivers := s.receivers[k := Closed], closed := s.closed + {k})
    case Discard(k) => s.(receivers := s.receivers - {k}, sockets := s.sockets - {k})
    case BeginClose => s.(closing := true, closer := Sweeping(s.sockets))
    case CloseOne(k) => s.(closer := Sweeping(s.closer.todo - {k}), closed := s.closed + {k})
    case FinishClose => s.(closer := Done)
  }

  ghost predicate Steps(s: State, s': State) {
    exists a :: Enabled(s, a) && s' == Apply(s, a)
  }

  ghost predicate IsRun(run: seq<State>) {
    IsRunOf(run, Initial, Steps)
  }

  ghost predicate Reachable(s: State) {
    ReachableBy(s, Initial, Steps)
  }

  /** Every socket ever accepted is closed, in the set, or just accepted; and once `closing` is set
      whatever is in the set is closed or about to be. */
  ghost predicate Inv(s: State) {
    && (forall k <- s.accepted :: k in s.closed || k in s.sockets || s.accept == Got(k))
    && (forall k <- s.receivers :: s.receivers[k].Closed? ==> k in s.closed)
    && (s.closing <==> !s.closer.Idle?)
    && (s.closing ==> forall k <- s.sockets :: k in s.closed || (s.closer.Sweeping? && k in s.closer.todo))
    && Served(s)
  }

  /** Whatever has a receive thread is in the set, and what is in the set has one, save the socket whose
      thread is about to be started or could not be. */
  ghost predicate Served(s: State) {
    && s.receivers.Keys <= s.sockets <= s.accepted && s.closed <= s.accepted
    && (s.accept.Got? ==> s.accept.sock in s.accepted && s.accept.sock !in s.sockets && s.accept.sock !in s.closed)
    && (s.accept.Added? ==> s.accept.sock in s.sockets && s.accept.sock !in s.receivers)
    && (s.closer.Sweeping? ==> s.closer.todo <= s.accepted && (s.accept.Got? ==> s.accept.sock !in s.closer.todo))
    && (forall k <- s.sockets :: k in s.receivers || s.accept == Added(k) || s.accept.Stopped?)
    && (forall j, k :: j in s.sockets && k in s.sockets && j !in s.receivers && k !in s.receivers ==> j == k)
  }

  lemma StepIsSafe(s: State, a: Action)
    requires Inv(s) && Enabled(s, a)
    ensures Inv(Apply(s, a))
  {
  }

  lemma ReachableIsSafe(s: State)
    requires Reachable(s)
    ensures Inv(s)
  {
    hide Enabled, Apply, Inv;
    assert Inv(Initial) by { InitialIsSafe(); }
    forall s, s' | Inv(s) && Steps(s, s') ensures Inv(s') {
      var a :| Enabled(s, a) && s' == Apply(s, a);
      StepIsSafe(s, a);
    }
    InvariantOfReachable(s, Initial, Steps, Inv);
  }

  lemma InitialIsSafe()
    ensures Inv(Initial)
  {
  }

  /** Once close_all has finished, every socket ever accepted is closed, save one the accept loop may be
      holding between accept() and its check. */
  lemma CloseAllLeavesNothing(s: State, k: Sock)
    requires Reachable(s) && s.closer.Done? && k in s.accepted
    ensures k in s.closed || s.accept == Got(k)
  {
    ReachableIsSafe(s);
  }

  /** ... and that one is closed by the check itself. */
  lemma CheckClosesLateSocket(s: State)
    requires Reachable(s) && !s.closer.Idle? && s.accept.Got?
    ensures Enabled(s, Check) && s.accept.sock in Apply(s, Check).closed && Apply(s, Check).accept == Accepting
  {
    ReachableIsSafe(s);
  }

  /** Every socket in the set has its receive thread, and every receive thread its socket in the set; only
      the accept loop's current socket may be without, or, once a thread could not be started, one. */
  lemma EachSocketReceives(s: State, k: Sock)
    requires Reachable(s)
    ensures k in s.receivers ==> k in s.sockets
    ensures k in s.sockets && !s.accept.Stopped? ==> k in s.receivers || s.accept == Added(k)
    ensures forall j <- s.sockets :: j != k && k in s.sockets ==> j in s.receivers || k in s.receivers
  {
    ReachableIsSafe(s);
  }

  /** Exactly who closes a socket that is open: the check of the accept loop once the listener is closing,
      its own receive thread, and close_all. */
  lemma ClosedIff(s: State, a: Action, k: Sock)
    requires Reachable(s) && Enabled(s, a) && k !in s.closed
    ensures k in Apply(s, a).closed <==> (a.Check? && s.closing && s.accept == Got(k)) || a == ReceiveEnds(k) || a == CloseOne(k)
  {
  }

  /** A socket joins the set exactly at its check, exactly if the listener is not closing, and is then
      open; and the accept loop ends only when accept() or the start of a thread fails. */
  lemma JoinsIff(s: State, a: Action, k: Sock)
    requires Reachable(s) && Enabled(s, a)
    ensures k !in s.sockets ==> (k in Apply(s, a).sockets <==> a.Check? && !s.closing && s.accept == Got(k))
    ensures k !in s.sockets && k in Apply(s, a).sockets ==> k !in Apply(s, a).closed
    ensures s.closing ==> Apply(s, a).sockets <= s.sockets
    ensures !s.accept.Stopped? ==> (Apply(s, a).accept.Stopped? <==> a.AcceptFails? || a.StartFails?)
  {
    ReachableIsSafe(s);
  }

  /** No thread is ever stuck: whichever line it stands at, the step that runs it is enabled. */
  lemma NeverStuck(s: State)
    requires Reachable(s)
    ensures match s.accept
            case Accepting => Enabled(s, AcceptFails) && forall k: Sock :: k !in s.accepted ==> Enabled(s, Accept(k))
            case Got(_) => Enabled(s, Check)
            case Added(_) => Enabled(s, Start) && Enabled(s, StartFails)
            case Stopped => true
    ensures forall k <- s.receivers ::
              if s.receivers[k].Receiving? then Enabled(s, ReceiveEnds(k)) else Enabled(s, Discard(k))
    ensures match s.closer
            case Sweeping(todo) => if todo == {} then Enabled(s, FinishClose) else forall k <- todo :: Enabled(s, CloseOne(k))
            case _ => Enabled(s, BeginClose)
  {
  }

  predicate StepAt(run: seq<State>, i: int, a: Action) {
    0 < i < |run| && Enabled(run[i - 1], a) && run[i] == Apply(run[i - 1], a)
  }

  /** A receiver that has ended did so at some earlier step of the run. */
  lemma {:induction false} EndedEarlier(run: seq<State>, n: nat, k: Sock)
    requires IsRun(run) && n < |run| && k in run[n].receivers && run[n].receivers[k].Closed?
    ensures exists i :: i <= n && StepAt(run, i, ReceiveEnds(k))
  {
    if n > 0 {
      assert Steps(run[n - 1], run[n]);
      var a :| Enabled(run[n - 1], a) && run[n] == Apply(run[n - 1], a);
      if a == ReceiveEnds(k) {
        assert StepAt(run, n, a);
      } else {
        EndedEarlier(run, n - 1, k);
      }
    }
  }

  /** A socket leaves the set only after its own receive loop, at an earlier step, has ended and closed
      it; close_all closing it is not enough. */
  lemma LeavesSetClosed(run: seq<State>, n: nat, k: Sock)
    requires IsRun(run) && 0 < n < |run| && k in run[n - 1].sockets && k !in run[n].sockets
    ensures exists i :: i < n && StepAt(run, i, ReceiveEnds(k)) && k in run[i].closed
  {
    assert Steps(run[n - 1], run[n]);
    var a :| Enabled(run[n - 1], a) && run[n] == Apply(run[n - 1], a);
    EndedEarlier(run, n - 1, k);
    var i :| i <= n - 1 && StepAt(run, i, ReceiveEnds(k));
    assert k in run[i].closed;
  }
}
