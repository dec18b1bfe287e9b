/** What close leaves behind: the active set is the sockets of the unreleased leases, and every
    connection ever accepted ends up closed unless its descriptor slipped through wrap_socket. */
module AdmissionShutdown {
  import opened Admission
  import opened AdmissionRuns
  import opened Runs

  // ---- the active set ----

  ghost predicate ActiveInv(s: State) {
    && (forall c <- s.leases :: s.leases[c].sock.conn == c)
    && (forall k: Sock :: k in s.active <==> Live(s, k.conn) && s.leases[k.conn].sock == k)
  }

  lemma AcceptKeepsLeases(s: State, a: AcceptStep)
    requires AcceptEnabled(s, a) && !a.MakeLease? && !a.Release?
    ensures AcceptApply(s, a).leases == s.leases && AcceptApply(s, a).active == s.active
  {
    hide State.Closed;
  }

  lemma ActiveStepAccept(s: State, a: AcceptStep)
    requires OwnerInv(s) && ActiveInv(s) && AcceptEnabled(s, a)
    ensures ActiveInv(AcceptApply(s, a))
  {
    hide Owners, State.Closed;
    if a.MakeLease? {
      assert ActiveInv(AcceptApply(s, a));
    } else if a.Release? {
      assert ActiveInv(AcceptApply(s, a));
    } else {
      AcceptKeepsLeases(s, a);
      hide AcceptApply, OwnerInv;
    }
  }

  lemma WorkerKeepsLeases(s: State, i: nat, w: WorkerStep)
    requires WorkEnabled(s, i, w) && !w.Replace? && !w.ReleaseFailed?
    ensures WorkApply(s, i, w).leases == s.leases && WorkApply(s, i, w).active == s.active
  {
    hide State.Closed;
  }

  lemma ActiveStepWorker(s: State, i: nat, w: WorkerStep)
    requires OwnerInv(s) && ActiveInv(s) && WorkEnabled(s, i, w)
    ensures ActiveInv(WorkApply(s, i, w))
  {
    hide State.Closed;
    if w.Replace? {
      WorkerIsOwner(s, i);
      hide OwnerInv;
    } else if w.ReleaseFailed? {
      hide OwnerInv;
    } else {
      WorkerKeepsLeases(s, i, w);
      hide OwnerInv, WorkApply;
    }
  }

  lemma ActiveStepLink(s: State, c: Conn, l: LinkStep)
    requires ActiveInv(s) && LinkEnabled(s, c, l)
    ensures ActiveInv(LinkApply(s, c, l))
  {
    hide State.Closed;
  }

  lemma ActiveStepCloser(s: State, k: CloseStep)
    requires ActiveInv(s) && CloseEnabled(s, k)
    ensures ActiveInv(CloseApply(s, k))
  {
    hide State.Closed;
  }

  // ---- descriptors ----

  /** An untouched raw socket: its lease still names it, and it is open or closed but not wrapped. */
  predicate Unwrapped(s: State, d: Conn) {
    d in s.leases && d in s.fds && s.leases[d].sock == Raw(d) && !s.fds[d].AtTls?
  }

  /** A wrapped socket its lease knows about. */
  predicate Wrapped(s: State, d: Conn) {
    d in s.leases && d in s.fds && s.leases[d].sock == Tls(d) && !s.fds[d].AtRaw?
  }

  predicate IsGone(s: State, d: Conn) {
    d in s.fds && s.fds[d].Gone?
  }

  predicate AcceptDesc(s: State, d: Conn) {
    && ((s.accept == Got(d) || s.accept == Permitted(d)) ==> d in s.fds && s.fds[d].AtRaw?)
    && ((s.accept == Leased(d) || s.accept == Queueing(d)) ==> Unwrapped(s, d))
    && (s.accept.Rejecting? && s.accept.conn == d ==> Unwrapped(s, d))
    && (s.accept.AcceptReleasing? && s.accept.conn == d ==> IsGone(s, d))
  }

  predicate WorkerDesc(s: State, pc: WorkerPc, d: Conn) {
    && (pc == Serving(d) ==> Unwrapped(s, d))
    && (pc == Wrapping(d) ==> d in s.leases && d in s.fds && s.leases[d].sock == Raw(d) && s.fds[d].AtTls?)
    && (pc == Handling(d) ==> Wrapped(s, d))
    && (pc == Failing(d) ==> Wrapped(s, d) || (IsGone(s, d) && Unwrapped(s, d)))
    && (pc == WorkerReleasing(d) ==> IsGone(s, d))
  }

  predicate LinkDesc(s: State, d: Conn) {
    d in s.links ==>
      && (s.links[d].Running? ==> Wrapped(s, d))
      && (s.links[d].LinkReleasing? ==> IsGone(s, d))
  }

  predicate Swept(s: State) {
    s.closer.Sweeping? || s.closer.Done?
  }

  function Todo(s: State): set<Sock> {
    if s.closer.Sweeping? then s.closer.todo else {}
  }

  /** The accept loop holds the connection and has yet to find out that the server is closing, or has
      found out and is about to close it. */
  predicate AcceptWillClose(s: State, d: Conn) {
    s.accept == Leased(d) || (s.accept.Rejecting? && s.accept.conn == d)
  }

  /** After close took its snapshot, an admitted connection is closed, about to be closed, or missed. */
  predicate SweepDesc(s: State, d: Conn) {
    && (!s.closer.Ready? ==> s.closing)
    && (Raw(d) in Todo(s) ==> d in s.leases)
    && (Tls(d) in Todo(s) ==> d in s.leases && s.leases[d].sock == Tls(d))
    && (Swept(s) && Live(s, d) ==>
          IsGone(s, d) || d in s.missed || Raw(d) in Todo(s) || s.leases[d].sock in Todo(s) || AcceptWillClose(s, d))
  }

  /** What holds of a connection's lease and descriptor whoever has it. */
  predicate LeaseDesc(s: State, d: Conn) {
    && (d in s.leases ==> d in s.fds && s.leases[d].sock.conn == d && (s.leases[d].released ==> IsGone(s, d)))
    && (d in s.leases && s.leases[d].sock == Tls(d) ==> Wrapped(s, d))
    && (d in s.fds && d !in s.leases ==> IsGone(s, d) || s.accept == Got(d) || s.accept == Permitted(d))
  }

  /** Everything there is to say about one connection. */
  ghost predicate Desc(s: State, d: Conn) {
    && AcceptDesc(s, d)
    && (d in s.queue ==> Unwrapped(s, d))
    && (forall pc <- s.workers :: WorkerDesc(s, pc, d))
    && LinkDesc(s, d)
    && LeaseDesc(s, d)
    && SweepDesc(s, d)
  }

  ghost predicate DescInv(s: State) {
    forall d: Conn :: Desc(s, d)
  }

  // ---- who else holds it ----

  /** If the accept loop has this connection, nobody else does. */
  lemma AcceptAlone(s: State, d: Conn)
    requires OwnerInv(s)
    requires AcceptOwns(s.accept, d) == 1 || s.accept == Got(d) || s.accept == Permitted(d)
    ensures d !in s.queue && (d in s.links ==> s.links[d].LinkReturning?)
    ensures forall pc <- s.workers :: WorkerOwns(pc, d) == 0
    ensures s.accept == Got(d) || s.accept == Permitted(d) ==> d !in s.links
    ensures AcceptOwns(s.accept, d) == 1 ==> Live(s, d) && d !in s.links
  {
    hide WorkersOwn, AcceptOwns;
    assert Owners(s, d) == if Live(s, d) then 1 else 0;
    assert multiset(s.queue)[d] == 0;
    forall pc | pc in s.workers ensures WorkerOwns(pc, d) == 0 {
      var i: nat :| i < |s.workers| && s.workers[i] == pc;
      OneWorkerOwns(s.workers, i, d);
    }
  }

  lemma QueuedAlone(s: State, d: Conn)
    requires OwnerInv(s) && d in s.queue
    ensures Live(s, d) && AcceptOwns(s.accept, d) == 0 && multiset(s.queue)[d] == 1
    ensures d !in s.links && s.accept != Got(d) && s.accept != Permitted(d)
    ensures forall pc <- s.workers :: WorkerOwns(pc, d) == 0
  {
    hide WorkersOwn, AcceptOwns;
    assert Owners(s, d) == if Live(s, d) then 1 else 0;
    assert multiset(s.queue)[d] >= 1;
    forall pc | pc in s.workers ensures WorkerOwns(pc, d) == 0 {
      var i: nat :| i < |s.workers| && s.workers[i] == pc;
      OneWorkerOwns(s.workers, i, d);
    }
  }

  lemma LinkAlone(s: State, d: Conn)
    requires OwnerInv(s) && d in s.links
    ensures AcceptOwns(s.accept, d) == 0 && d !in s.queue && s.accept != Got(d) && s.accept != Permitted(d)
    ensures forall pc <- s.workers :: WorkerOwns(pc, d) == 0
  {
    hide WorkersOwn, AcceptOwns;
    assert Owners(s, d) == if Live(s, d) then 1 else 0;
    assert multiset(s.queue)[d] == 0;
    forall pc | pc in s.workers ensures WorkerOwns(pc, d) == 0 {
      var i: nat :| i < |s.workers| && s.workers[i] == pc;
      OneWorkerOwns(s.workers, i, d);
    }
  }

  // ---- steps ----

  /** A step that leaves a connection, and whoever holds it, alone. */
  lemma DescFrame(s: State, s': State, d: Conn)
    requires Desc(s, d)
    requires d in s'.leases <==> d in s.leases
    requires d in s.leases ==> s'.leases[d] == s.leases[d]
    requires d in s'.fds <==> d in s.fds
    requires d in s.fds ==> s'.fds[d] == s.fds[d]
    requires s'.accept == s.accept || (!AcceptConcerns(s.accept, d) && !AcceptConcerns(s'.accept, d))
    requires d in s'.queue ==> d in s.queue
    requires forall pc <- s'.workers :: pc in s.workers || !Concerns(pc, d)
    requires d in s'.links <==> d in s.links
    requires d in s.links ==> s'.links[d] == s.links[d]
    requires s'.closer == s.closer && s'.closing == s.closing && s'.missed == s.missed
    ensures Desc(s', d)
  {
  }

  predicate AcceptConcerns(pc: AcceptPc, d: Conn) {
    !pc.Top? && !pc.Accepting? && !pc.Stopped? && !pc.AcceptReturning? && pc.conn == d
  }

  predicate Concerns(pc: WorkerPc, d: Conn) {
    !pc.Idle? && !pc.Exited? && pc.conn == d
  }

  /** The connection a step of the accept loop is about, if it matters to it at all. */
  predicate AcceptStepConcerns(s: State, a: AcceptStep, d: Conn)
    requires AcceptEnabled(s, a)
  {
    if a.Accept? then a.conn == d
    else !a.Test? && !a.AcceptFails? && !a.GiveBack? && s.accept.conn == d
  }

  lemma OtherAccept(s: State, a: AcceptStep, d: Conn)
    requires ActiveInv(s) && Desc(s, d) && AcceptEnabled(s, a) && !AcceptStepConcerns(s, a, d)
    ensures Desc(AcceptApply(s, a), d)
  {
    AcceptFrame(s, a);
    AcceptQueue(s, a);
    OtherAcceptLease(s, a, d);
    OtherAcceptFd(s, a, d);
    OtherAcceptPc(s, a, d);
    assert AcceptApply(s, a).queue == s.queue || s.accept.conn != d;
    hide ActiveInv, Desc, AcceptApply, AcceptEnabled, AcceptConcerns;
    DescFrame(s, AcceptApply(s, a), d);
  }

  lemma OtherAcceptLease(s: State, a: AcceptStep, d: Conn)
    requires AcceptEnabled(s, a) && !AcceptStepConcerns(s, a, d)
    ensures var s' := AcceptApply(s, a);
            (d in s'.leases <==> d in s.leases) && (d in s.leases ==> s'.leases[d] == s.leases[d])
  {
    hide State.Closed, State.Released;
  }

  lemma OtherAcceptFd(s: State, a: AcceptStep, d: Conn)
    requires ActiveInv(s) && AcceptEnabled(s, a) && !AcceptStepConcerns(s, a, d)
    ensures var s' := AcceptApply(s, a);
            (d in s'.fds <==> d in s.fds) && (d in s.fds ==> s'.fds[d] == s.fds[d])
  {
    if a.CloseLease? {
      LeaseNamesConn(s, s.accept.conn);
    }
    hide ActiveInv, State.Closed, State.Released;
  }

  lemma LeasesName(s: State)
    requires ActiveInv(s)
    ensures forall d <- s.leases :: s.leases[d].sock.conn == d
  {
  }

  lemma LeaseNamesConn(s: State, c: Conn)
    requires ActiveInv(s) && c in s.leases
    ensures s.leases[c].sock.conn == c
  {
  }

  lemma OtherAcceptPc(s: State, a: AcceptStep, d: Conn)
    requires AcceptEnabled(s, a) && !AcceptStepConcerns(s, a, d)
    ensures var s' := AcceptApply(s, a);
            && !AcceptConcerns(s.accept, d) && !AcceptConcerns(s'.accept, d)
            && s'.closer == s.closer && s'.closing == s.closing && s'.missed == s.missed
  {
    hide State.Closed, State.Released;
  }

  lemma OwnAcceptEarly(s: State, a: AcceptStep, d: Conn)
    requires OwnerInv(s) && Desc(s, d) && AcceptEnabled(s, a)
    requires a.Acquire? || a.MakeLease? || a.Recheck?
    requires s.accept.conn == d
    ensures Desc(AcceptApply(s, a), d)
  {
    AcceptAlone(s, d);
    AcceptFrame(s, a);
    AcceptQueue(s, a);
    hide OwnerInv;
  }

  lemma OwnAcceptLate(s: State, a: AcceptStep, d: Conn)
    requires OwnerInv(s) && Desc(s, d) && AcceptEnabled(s, a)
    requires a.Put? || a.CloseLease? || a.Release?
    requires s.accept.conn == d
    ensures Desc(AcceptApply(s, a), d)
  {
    AcceptAlone(s, d);
    AcceptFrame(s, a);
    AcceptQueue(s, a);
    hide OwnerInv;
  }

  lemma DescStepAccept(s: State, a: AcceptStep, d: Conn)
    requires OwnerInv(s) && ActiveInv(s) && Desc(s, d) && AcceptEnabled(s, a)
    ensures Desc(AcceptApply(s, a), d)
  {
    if a.Accept? && a.conn == d {
      FreshConn(s, a, d);
    } else if !AcceptStepConcerns(s, a, d) {
      OtherAccept(s, a, d);
    } else if a.Acquire? || a.MakeLease? || a.Recheck? {
      OwnAcceptEarly(s, a, d);
    } else {
      OwnAcceptLate(s, a, d);
    }
  }

  lemma FreshConn(s: State, a: AcceptStep, d: Conn)
    requires OwnerInv(s) && Desc(s, d) && AcceptEnabled(s, a) && a == Accept(d)
    ensures Desc(AcceptApply(s, a), d)
  {
    hide Owners;
  }

  /** The connection a worker's step is about, if it matters to the lease at all. */
  predicate StepConcerns(s: State, i: nat, w: WorkerStep, d: Conn)
    requires WorkEnabled(s, i, w)
  {
    if w.Take? then s.queue[0] == d
    else !w.Exit? && !w.GiveBackFailed? && s.workers[i].conn == d
  }

  lemma OtherWorker(s: State, i: nat, w: WorkerStep, d: Conn)
    requires ActiveInv(s) && Desc(s, d) && WorkEnabled(s, i, w) && !StepConcerns(s, i, w, d)
    ensures Desc(WorkApply(s, i, w), d)
  {
    var s' := WorkApply(s, i, w);
    WorkerFrame(s, i, w, d);
    hide Unwrapped, IsGone, Wrapped, Desc, WorkApply, ActiveInv;
    DescFrame(s, s', d);
  }

  lemma WorkerFrame(s: State, i: nat, w: WorkerStep, d: Conn)
    requires ActiveInv(s) && WorkEnabled(s, i, w) && !StepConcerns(s, i, w, d)
    ensures var s' := WorkApply(s, i, w);
            && (d in s'.leases <==> d in s.leases) && (d in s.leases ==> s'.leases[d] == s.leases[d])
            && (d in s'.fds <==> d in s.fds) && (d in s.fds ==> s'.fds[d] == s.fds[d])
            && s'.accept == s.accept && (d in s'.queue ==> d in s.queue)
            && (forall pc <- s'.workers :: pc in s.workers || !Concerns(pc, d))
            && (d in s'.links <==> d in s.links) && (d in s.links ==> s'.links[d] == s.links[d])
            && s'.closer == s.closer && s'.closing == s.closing && s'.missed == s.missed
  {
    WorkerFrameLease(s, i, w, d);
    WorkerFramePcs(s, i, w, d);
    WorkerFrameRest(s, i, w, d);
    hide WorkApply, WorkEnabled, ActiveInv, StepConcerns;
  }

  lemma WorkerFramePcs(s: State, i: nat, w: WorkerStep, d: Conn)
    requires WorkEnabled(s, i, w) && !StepConcerns(s, i, w, d)
    ensures forall pc <- WorkApply(s, i, w).workers :: pc in s.workers || !Concerns(pc, d)
  {
    hide State.Closed, State.Released, State.Replaced;
    var s' := WorkApply(s, i, w);
    assert s'.workers == s.workers[i := s'.workers[i]] && !Concerns(s'.workers[i], d);
    hide WorkApply, WorkEnabled, Concerns;
  }

  lemma WorkerFrameRest(s: State, i: nat, w: WorkerStep, d: Conn)
    requires WorkEnabled(s, i, w) && !StepConcerns(s, i, w, d)
    ensures var s' := WorkApply(s, i, w);
            && s'.accept == s.accept && (d in s'.queue ==> d in s.queue)
            && (d in s'.links <==> d in s.links) && (d in s.links ==> s'.links[d] == s.links[d])
            && s'.closer == s.closer && s'.closing == s.closing && s'.missed == s.missed
  {
    hide State.Closed, State.Released, State.Replaced;
  }

  lemma WorkerFrameLease(s: State, i: nat, w: WorkerStep, d: Conn)
    requires ActiveInv(s) && WorkEnabled(s, i, w) && !StepConcerns(s, i, w, d)
    ensures var s' := WorkApply(s, i, w);
            && (d in s'.leases <==> d in s.leases) && (d in s.leases ==> s'.leases[d] == s.leases[d])
            && (d in s'.fds <==> d in s.fds) && (d in s.fds ==> s'.fds[d] == s.fds[d])
  {
    if w.CloseFailed? {
      LeaseNamesConn(s, s.workers[i].conn);
    }
    hide ActiveInv, State.Closed, State.Released, State.Replaced;
  }

  lemma WorkerElsewhere(s: State, pc: WorkerPc, d: Conn)
    requires WorkerOwns(pc, d) == 0
    ensures WorkerDesc(s, pc, d)
  {
  }

  /** Putting worker `i` at `pc` says only about `pc` what was not known before. */
  lemma WorkersAfter(s: State, s': State, i: nat, d: Conn)
    requires i < |s.workers| && |s'.workers| == |s.workers| && s'.workers == s.workers[i := s'.workers[i]]
    requires forall j: nat | j < |s.workers| && j != i :: WorkerOwns(s.workers[j], d) == 0
    requires WorkerDesc(s', s'.workers[i], d)
    ensures forall pc <- s'.workers :: WorkerDesc(s', pc, d)
  {
    hide WorkerOwns, WorkerDesc;
    forall pc | pc in s'.workers ensures WorkerDesc(s', pc, d) {
      var j: nat :| j < |s'.workers| && s'.workers[j] == pc;
      if j != i {
        WorkerElsewhere(s', pc, d);
      }
    }
  }

  lemma TakeDesc(s: State, i: nat, d: Conn)
    requires OwnerInv(s) && Desc(s, d) && WorkEnabled(s, i, Take) && s.queue[0] == d
    ensures Desc(WorkApply(s, i, Take), d)
  {
    QueuedAlone(s, d);
    Dequeued(s.queue, d);
    hide OwnerInv;
    assert d !in s.queue[1..];
    var s' := WorkApply(s, i, Take);
    assert Unwrapped(s, d);
    WorkersAfter(s, s', i, d);
  }

  lemma OwnWorkerLease(s: State, i: nat, w: WorkerStep, d: Conn)
    requires WorkEnabled(s, i, w) && StepConcerns(s, i, w, d) && !w.Take?
    requires s.accept != Got(d) && s.accept != Permitted(d) && Live(s, d) && d !in s.links
    requires LeaseDesc(s, d) && WorkerDesc(s, s.workers[i], d)
    ensures var s' := WorkApply(s, i, w);
            LeaseDesc(s', d) && |s'.workers| == |s.workers| && s'.workers == s.workers[i := s'.workers[i]]
            && WorkerDesc(s', s'.workers[i], d) && LinkDesc(s', d)
            && s'.accept == s.accept && s'.queue == s.queue
  {
  }

  lemma OwnWorkerSweep(s: State, i: nat, w: WorkerStep, d: Conn)
    requires WorkEnabled(s, i, w) && StepConcerns(s, i, w, d) && !w.Take?
    requires AcceptOwns(s.accept, d) == 0 && LeaseDesc(s, d) && WorkerDesc(s, s.workers[i], d) && SweepDesc(s, d)
    ensures SweepDesc(WorkApply(s, i, w), d)
  {
  }

  lemma OwnWorker(s: State, i: nat, w: WorkerStep, d: Conn)
    requires OwnerInv(s) && Desc(s, d) && WorkEnabled(s, i, w) && StepConcerns(s, i, w, d) && !w.Take?
    ensures Desc(WorkApply(s, i, w), d)
  {
    WorkerIsOwner(s, i);
    AcceptHasNone(s, d);
    assert s.workers[i] in s.workers && d !in s.queue;
    OwnWorkerLease(s, i, w, d);
    OwnWorkerSweep(s, i, w, d);
    WorkersAfter(s, WorkApply(s, i, w), i, d);
    hide OwnerInv, WorkApply, WorkEnabled, StepConcerns, SweepDesc, LeaseDesc, WorkerDesc, LinkDesc;
  }

  lemma AcceptHasNone(s: State, d: Conn)
    requires OwnerInv(s) && Live(s, d)
    ensures s.accept != Got(d) && s.accept != Permitted(d)
  {
    hide Owners;
  }

  lemma DescStepWorker(s: State, i: nat, w: WorkerStep, d: Conn)
    requires OwnerInv(s) && ActiveInv(s) && Desc(s, d) && WorkEnabled(s, i, w)
    ensures Desc(WorkApply(s, i, w), d)
  {
    hide Desc, OwnerInv, ActiveInv, WorkApply;
    if !StepConcerns(s, i, w, d) {
      OtherWorker(s, i, w, d);
    } else if w.Take? {
      TakeDesc(s, i, d);
    } else {
      OwnWorker(s, i, w, d);
    }
  }

  lemma OwnLink(s: State, c: Conn, l: LinkStep)
    requires OwnerInv(s) && Desc(s, c) && LinkEnabled(s, c, l)
    ensures Desc(LinkApply(s, c, l), c)
  {
    LinkAlone(s, c);
    hide OwnerInv;
    forall pc <- s.workers ensures WorkerDesc(LinkApply(s, c, l), pc, c) {
      WorkerElsewhere(LinkApply(s, c, l), pc, c);
    }
  }

  lemma DescStepLink(s: State, c: Conn, l: LinkStep, d: Conn)
    requires OwnerInv(s) && Desc(s, d) && LinkEnabled(s, c, l)
    ensures Desc(LinkApply(s, c, l), d)
  {
    hide OwnerInv, Unwrapped, IsGone, Wrapped, Desc;
    if c == d {
      OwnLink(s, c, l);
    } else {
      DescFrame(s, LinkApply(s, c, l), d);
    }
  }

  /** A step of close leaves whoever holds a connection with what it has to know of it. */
  lemma CloserHolds(s: State, k: CloseStep, d: Conn)
    requires OwnerInv(s) && Desc(s, d) && CloseEnabled(s, k)
    ensures var s' := CloseApply(s, k);
            && AcceptDesc(s', d) && (d in s'.queue ==> Unwrapped(s', d))
            && (forall pc <- s'.workers :: WorkerDesc(s', pc, d))
            && LinkDesc(s', d) && LeaseDesc(s', d)
  {
    hide Owners, Live;
    if !k.CloseOne? || k.sock.conn != d {
      assert CloseApply(s, k).fds.Keys == s.fds.Keys;
    }
  }

  lemma CloserSweeps(s: State, k: CloseStep, d: Conn)
    requires ActiveInv(s) && Desc(s, d) && CloseEnabled(s, k)
    ensures SweepDesc(CloseApply(s, k), d)
  {
    hide AcceptDesc, WorkerDesc, LinkDesc;
  }

  lemma DescStepCloser(s: State, k: CloseStep, d: Conn)
    requires OwnerInv(s) && ActiveInv(s) && Desc(s, d) && CloseEnabled(s, k)
    ensures Desc(CloseApply(s, k), d)
  {
    CloserHolds(s, k, d);
    CloserSweeps(s, k, d);
    hide OwnerInv, ActiveInv, CloseApply, CloseEnabled;
    hide AcceptDesc, WorkerDesc, LinkDesc, LeaseDesc, SweepDesc, Unwrapped;
  }

  // ---- what close can no longer reach ----

  /** A connection's raw socket and its TLS socket are never both left to sweep, and the sweep is past
      both of a connection it missed. */
  ghost predicate MissInv(s: State) {
    && (forall c: Conn :: !(Raw(c) in Todo(s) && Tls(c) in Todo(s)))
    && (forall c <- s.missed :: c in s.fds && Swept(s) && Raw(c) !in Todo(s) && Tls(c) !in Todo(s))
  }

  /** What every step keeps: closed descriptors stay closed, and missed connections stay missed. */
  predicate Follows(s: State, s': State) {
    s.missed <= s'.missed && s.fds.Keys <= s'.fds.Keys && forall c <- s.fds :: s.fds[c].Gone? ==> s'.fds[c].Gone?
  }

  lemma AcceptFollows(s: State, a: AcceptStep)
    requires AcceptEnabled(s, a)
    ensures var s' := AcceptApply(s, a); Follows(s, s') && s'.closer == s.closer && s'.missed == s.missed
  {
    hide State.Released;
  }

  lemma WorkerFollows(s: State, i: nat, w: WorkerStep)
    requires WorkEnabled(s, i, w)
    ensures var s' := WorkApply(s, i, w); Follows(s, s') && s'.closer == s.closer && s'.missed == s.missed
  {
    hide State.Released, State.Replaced;
  }

  lemma LinkFollows(s: State, c: Conn, l: LinkStep)
    requires LinkEnabled(s, c, l)
    ensures var s' := LinkApply(s, c, l); Follows(s, s') && s'.closer == s.closer && s'.missed == s.missed
  {
    hide State.Released;
  }

  lemma StepFollows(s: State, a: Action)
    requires Enabled(s, a)
    ensures Follows(s, Apply(s, a))
    ensures !a.OfCloser? ==> Apply(s, a).closer == s.closer && Apply(s, a).missed == s.missed
  {
    hide AcceptApply, WorkApply, LinkApply, AcceptEnabled, WorkEnabled, LinkEnabled;
    match a
    case OfAccept(b) => hide Follows; AcceptFollows(s, b);
    case OfWorker(i, w) => hide Follows; WorkerFollows(s, i, w);
    case OfLink(c, l) => hide Follows; LinkFollows(s, c, l);
    case OfCloser(k) =>
  }

  lemma MissStep(s: State, a: Action)
    requires ActiveInv(s) && MissInv(s) && Enabled(s, a)
    ensures MissInv(Apply(s, a))
  {
    StepFollows(s, a);
    if a.OfCloser? {
      hide Enabled, State.Closed, Live;
      if !a.k.Snapshot? {
        hide ActiveInv;
      }
    } else {
      hide Apply, Enabled, ActiveInv;
    }
  }

  // ---- why the accept loop turns a connection away ----

  lemma {:induction false} DistinctFit(q: seq<Conn>, cs: set<Conn>)
    requires forall c: Conn :: multiset(q)[c] <= if c in cs then 1 else 0
    ensures |q| <= |cs|
  {
    if q != [] {
      assert q == [q[0]] + q[1..];
      assert multiset(q) == multiset{q[0]} + multiset(q[1..]);
      assert multiset(q)[q[0]] >= 1;
      forall c: Conn ensures multiset(q[1..])[c] <= if c in cs - {q[0]} then 1 else 0 {
        Dequeued(q, c);
      }
      DistinctFit(q[1..], cs - {q[0]});
    }
  }

  /** When the accept loop is about to queue a lease there is room: that lease is live and not queued, so
      at most 63 others are. */
  lemma RoomToQueue(s: State)
    requires OwnerInv(s) && PermitInv(s) && s.accept.Queueing?
    ensures |s.queue| < MAX_PENDING
  {
    hide WorkersOwn;
    var c := s.accept.conn;
    AcceptAlone(s, c);
    forall d: Conn ensures multiset(s.queue)[d] <= if d in LiveLeases(s) - {c} then 1 else 0 {
      assert Owners(s, d) == if Live(s, d) then 1 else 0;
    }
    DistinctFit(s.queue, LiveLeases(s) - {c});
  }

  /** Once admitted, a connection is turned away only because the server is closing. */
  ghost predicate RejectInv(s: State) {
    (s.accept.Rejecting? || s.accept.AcceptReleasing? || s.accept.AcceptReturning?) ==> s.accept.stop && s.closing
  }

  lemma RejectStep(s: State, a: Action)
    requires OwnerInv(s) && PermitInv(s) && RejectInv(s) && Enabled(s, a)
    ensures RejectInv(Apply(s, a))
  {
    hide OwnerInv, PermitInv, State.Closed, State.Released, State.Replaced, Live;
    if a.OfAccept? {
      if a.a.Put? {
        RoomToQueue(s);
      }
    } else {
      StillClosing(s, a);
    }
  }

  lemma WorkerKeepsClosing(s: State, i: nat, w: WorkerStep)
    requires WorkEnabled(s, i, w)
    ensures WorkApply(s, i, w).accept == s.accept && WorkApply(s, i, w).closing == s.closing
  {
    hide State.Closed, State.Released, State.Replaced;
  }

  lemma StillClosing(s: State, a: Action)
    requires Enabled(s, a) && !a.OfAccept?
    ensures Apply(s, a).accept == s.accept && (s.closing ==> Apply(s, a).closing)
  {
    hide State.Closed, State.Released, WorkApply, WorkEnabled;
    match a
    case OfWorker(i, w) => WorkerKeepsClosing(s, i, w);
    case _ =>
  }

  // ---- every run is safe ----

  ghost predicate Inv(s: State) {
    OwnerInv(s) && PermitInv(s) && ActiveInv(s) && DescInv(s) && MissInv(s) && RejectInv(s)
  }

  lemma StepIsSafe(s: State, a: Action)
    requires Inv(s) && Enabled(s, a)
    ensures Inv(Apply(s, a))
  {
    hide OwnerInv, PermitInv, ActiveInv, Desc, MissInv, RejectInv, AcceptApply, WorkApply, LinkApply, CloseApply;
    MissStep(s, a);
    RejectStep(s, a);
    match a {
      case OfAccept(b) =>
        OwnerStepAccept(s, b);
        PermitStepAccept(s, b);
        ActiveStepAccept(s, b);
        forall d: Conn ensures Desc(Apply(s, a), d) { DescStepAccept(s, b, d); }
      case OfWorker(i, w) =>
        OwnerStepWorker(s, i, w);
        PermitStepWorker(s, i, w);
        ActiveStepWorker(s, i, w);
        forall d: Conn ensures Desc(Apply(s, a), d) { DescStepWorker(s, i, w, d); }
      case OfLink(c, l) =>
        OwnerStepLink(s, c, l);
        PermitStepLink(s, c, l);
        ActiveStepLink(s, c, l);
        forall d: Conn ensures Desc(Apply(s, a), d) { DescStepLink(s, c, l, d); }
      case OfCloser(k) =>
        OwnerStepCloser(s, k);
        PermitStepCloser(s, k);
        ActiveStepCloser(s, k);
        forall d: Conn ensures Desc(Apply(s, a), d) { DescStepCloser(s, k, d); }
    }
  }

  lemma InitialIsSafe()
    ensures Inv(Initial)
  {
    forall c: Conn ensures Owners(Initial, c) == 0 {
      assert WorkersOwn([Idle], c) == 0;
      assert WorkersOwn([Idle, Idle], c) == 0;
      assert WorkersOwn([Idle, Idle, Idle], c) == 0;
    }
    assert Returning([Idle]) == 0;
    assert Returning([Idle, Idle]) == 0;
    assert Returning([Idle, Idle, Idle]) == 0;
    assert LiveLeases(Initial) == {} && LinksReturning(Initial.links) == {};
  }

  /** Every invariant holds in every state of every interleaving. */
  lemma ReachableIsSafe(s: State)
    requires Reachable(s)
    ensures Inv(s)
  {
    hide Enabled, Apply, Inv;
    InitialIsSafe();
    forall s, s' | Inv(s) && Steps(s, s') ensures Inv(s') {
      var a :| Enabled(s, a) && s' == Apply(s, a);
      StepIsSafe(s, a);
    }
    InvariantOfReachable(s, Initial, Steps, Inv);
  }

  // ---- what that means ----

  /** Conservation of permits, and with it the bound on live connections. */
  lemma PermitsConserved(s: State)
    requires Reachable(s)
    ensures s.permits + |LiveLeases(s)| + InFlight(s) == 64
    ensures 0 <= s.permits <= 64 && |LiveLeases(s)| <= 64
  {
    hide OwnerInv, ActiveInv, DescInv, MissInv;
    ReachableIsSafe(s);
  }

  /** Whenever some thread is about to give a permit back, one is missing: the bounded semaphore is
      never released past its bound. */
  lemma NeverOverReleased(s: State, a: Action)
    requires Reachable(s) && Enabled(s, a)
    ensures Apply(s, a).permits <= 64
    ensures Apply(s, a).permits > s.permits ==> s.permits < 64
  {
    hide OwnerInv, ActiveInv, DescInv, Apply, Enabled;
    ReachableIsSafe(s);
    StepIsSafe(s, a);
  }

  /** A second release of a lease does nothing: in particular it gives no permit back. */
  lemma ReleaseTwice(s: State, c: Conn)
    requires c in s.leases
    ensures s.Released(c).Released(c) == s.Released(c)
    ensures s.leases[c].released ==> s.Released(c) == s
  {
  }

  /** So the queue.Full branch is dead: every put succeeds, at the end of the queue. */
  lemma QueueHasRoom(s: State)
    requires Reachable(s) && s.accept.Queueing?
    ensures |s.queue| < 64
    ensures AcceptApply(s, Put).accept == Top && AcceptApply(s, Put).queue == s.queue + [s.accept.conn]
  {
    hide ActiveInv, DescInv, MissInv, OwnerInv, PermitInv;
    ReachableIsSafe(s);
    RoomToQueue(s);
  }

  /** Every unreleased lease has exactly one owner: the accept loop, the queue, a worker or its link. */
  lemma OneOwner(s: State, c: Conn)
    requires Reachable(s)
    ensures Owners(s, c) == if Live(s, c) then 1 else 0
  {
    hide Owners, PermitInv, ActiveInv, DescInv;
    ReachableIsSafe(s);
  }

  /** The active set is exactly the sockets of the unreleased leases. */
  lemma ActiveIsLive(s: State)
    requires Reachable(s)
    ensures s.active == set c | c in s.leases && Live(s, c) :: s.leases[c].sock
  {
    hide OwnerInv, PermitInv, DescInv;
    ReachableIsSafe(s);
  }

  /** Once close has finished, every connection ever accepted is closed, unless the accept loop has just
      got it and has yet to see that the server is closing, or close missed it. */
  lemma CloseLeavesNothing(s: State, c: Conn)
    requires Reachable(s) && s.closer.Done? && c in s.fds
    ensures s.fds[c].Gone? || c in s.missed
            || s.accept == Got(c) || s.accept == Permitted(c) || AcceptWillClose(s, c)
  {
    hide OwnerInv, PermitInv, ActiveInv;
    ReachableIsSafe(s);
    assert Desc(s, c);
  }

  /** No thread is ever stuck: whichever line of the original it stands at, the step that runs it is
      enabled, and no lease or descriptor it wants is missing. */
  lemma StepsFindWhatTheyNeed(s: State)
    requires Reachable(s)
    ensures match s.accept
            case Top => AcceptEnabled(s, Test)
            case Accepting => AcceptEnabled(s, AcceptFails) && forall c: Conn :: c !in s.fds ==> AcceptEnabled(s, Accept(c))
            case Got(_) => AcceptEnabled(s, Acquire)
            case Permitted(_) => AcceptEnabled(s, MakeLease)
            case Leased(_) => AcceptEnabled(s, Recheck)
            case Queueing(_) => AcceptEnabled(s, Put)
            case Rejecting(_, _) => AcceptEnabled(s, CloseLease)
            case AcceptReleasing(_, _) => AcceptEnabled(s, Release)
            case AcceptReturning(_, _) => AcceptEnabled(s, GiveBack)
            case Stopped => true
    ensures forall i: nat | i < |s.workers| ::
              match s.workers[i]
              case Idle => if s.queue != [] then WorkEnabled(s, i, Take) else s.closing ==> WorkEnabled(s, i, Exit)
              case Serving(_) => WorkEnabled(s, i, StartWrap)
              case Wrapping(_) => WorkEnabled(s, i, Replace) && WorkEnabled(s, i, WrapFails)
              case Handling(_) => WorkEnabled(s, i, Transfer) && WorkEnabled(s, i, HandleFails)
              case Failing(_) => WorkEnabled(s, i, CloseFailed)
              case WorkerReleasing(_) => WorkEnabled(s, i, ReleaseFailed)
              case WorkerReturning(_) => forall dies :: WorkEnabled(s, i, GiveBackFailed(dies))
              case Exited => true
    ensures forall c <- s.links ::
              match s.links[c]
              case Running => LinkEnabled(s, c, LinkEnds)
              case LinkReleasing => LinkEnabled(s, c, ReleaseLink)
              case LinkReturning => LinkEnabled(s, c, GiveBackLink)
    ensures match s.closer
            case Ready => CloseEnabled(s, Mark)
            case Marked => CloseEnabled(s, Unlisten)
            case Unlistened => CloseEnabled(s, Snapshot)
            case Sweeping(todo) =>
              if todo == {} then CloseEnabled(s, FinishSweep) else forall k <- todo :: CloseEnabled(s, CloseOne(k))
            case Done => true
  {
    hide PermitInv, ActiveInv, DescInv, MissInv, Owners, Reachable;
    ReachableIsSafe(s);
    if s.accept.Rejecting? || s.accept.AcceptReleasing? {
      AcceptAlone(s, s.accept.conn);
    }
    forall i: nat | i < |s.workers| && !s.workers[i].Idle? && !s.workers[i].Exited? && !s.workers[i].WorkerReturning?
      ensures s.workers[i].conn in s.leases && s.workers[i].conn in s.fds
    {
      WorkerIsOwner(s, i);
    }
  }

  // ---- exactly what close disposes of ----

  /** Closing one socket of the snapshot closes the connection exactly when its descriptor is still in
      the object being closed. */
  lemma SweptIsGoneIff(s: State, k: Sock)
    requires Reachable(s) && CloseEnabled(s, CloseOne(k))
    ensures IsGone(CloseApply(s, CloseOne(k)), k.conn) <==> !Slipped(s, k)
  {
    hide OwnerInv, PermitInv, ActiveInv, MissInv, AcceptDesc, WorkerDesc, LinkDesc;
    ReachableIsSafe(s);
    assert Desc(s, k.conn);
  }

  /** A miss is final: neither socket of the connection is left to sweep, so no step of close touches
      its descriptor again. */
  lemma MissIsFinal(s: State, k: CloseStep, c: Conn)
    requires Reachable(s) && c in s.missed && CloseEnabled(s, k)
    ensures Raw(c) !in Todo(s) && Tls(c) !in Todo(s)
    ensures c in s.fds && c in CloseApply(s, k).fds && CloseApply(s, k).fds[c] == s.fds[c]
    ensures c in CloseApply(s, k).missed
  {
    hide OwnerInv, PermitInv, ActiveInv, DescInv;
    ReachableIsSafe(s);
    if k.CloseOne? {
      assert k.sock == Raw(k.sock.conn) || k.sock == Tls(k.sock.conn);
    }
  }

  /** Step `i` of the run is close closing socket `k`. */
  predicate SweepsAt(run: seq<State>, i: int, k: Sock) {
    CloserAt(run, i, CloseOne(k))
  }

  predicate CloserAt(run: seq<State>, i: int, k: CloseStep) {
    0 < i < |run| && CloseEnabled(run[i - 1], k) && run[i] == CloseApply(run[i - 1], k)
  }

  /** Step `i` of the run is close closing the raw object of a connection already wrapped. */
  predicate SlipsAt(run: seq<State>, i: int, c: Conn) {
    SweepsAt(run, i, Raw(c)) && Slipped(run[i - 1], Raw(c))
  }

  lemma EveryStateReachable(run: seq<State>, n: nat)
    requires IsRun(run) && n < |run|
    ensures Reachable(run[n])
  {
    StateReachable(run, n, Initial, Steps);
  }

  lemma ActionAt(run: seq<State>, n: nat) returns (a: Action)
    requires IsRun(run) && 0 < n < |run|
    ensures Enabled(run[n - 1], a) && run[n] == Apply(run[n - 1], a)
    ensures Follows(run[n - 1], run[n])
  {
    hide Enabled, Apply, Follows;
    assert Steps(run[n - 1], run[n]);
    a :| Enabled(run[n - 1], a) && run[n] == Apply(run[n - 1], a);
    StepFollows(run[n - 1], a);
  }

  lemma {:induction false} RunFollows(run: seq<State>, i: nat, j: nat)
    requires IsRun(run) && i <= j < |run|
    ensures Follows(run[i], run[j])
    decreases j
  {
    hide IsRun, Enabled, Apply;
    if i < j {
      var a := ActionAt(run, j);
      RunFollows(run, i, j - 1);
    }
  }

  lemma MissStepIff(s: State, a: Action, c: Conn)
    requires Enabled(s, a) && c !in s.missed
    ensures c in Apply(s, a).missed <==> a == OfCloser(CloseOne(Raw(c))) && Slipped(s, Raw(c))
  {
    StepFollows(s, a);
    hide AcceptApply, WorkApply, LinkApply, AcceptEnabled, WorkEnabled, LinkEnabled, State.Closed;
  }

  /** Along every run, the missed connections are those that a step of close slipped past. */
  lemma {:induction false} MissedIff(run: seq<State>, n: nat, c: Conn)
    requires IsRun(run) && n < |run|
    ensures c in run[n].missed <==> exists i :: i <= n && SlipsAt(run, i, c)
  {
    hide IsRun, Enabled, Apply, CloseEnabled, CloseApply, Slipped;
    if n == 0 {
      FirstMissesNone(run);
    } else {
      var a := ActionAt(run, n);
      MissedIff(run, n - 1, c);
      if c !in run[n - 1].missed {
        MissStepIff(run[n - 1], a, c);
        if a == OfCloser(CloseOne(Raw(c))) && Slipped(run[n - 1], Raw(c)) {
          CloserAction(run[n - 1], CloseOne(Raw(c)));
          assert SlipsAt(run, n, c);
        }
        if SlipsAt(run, n, c) {
          CloserAction(run[n - 1], CloseOne(Raw(c)));
          MissStepIff(run[n - 1], OfCloser(CloseOne(Raw(c))), c);
        }
      }
    }
  }

  lemma FirstMissesNone(run: seq<State>)
    requires IsRun(run)
    ensures run[0].missed == {}
  {
  }

  lemma CloserAction(s: State, k: CloseStep)
    ensures Enabled(s, OfCloser(k)) <==> CloseEnabled(s, k)
    ensures CloseEnabled(s, k) ==> Apply(s, OfCloser(k)) == CloseApply(s, k)
  {
  }

  /** A socket of the snapshot stays to be swept until it is swept. */
  lemma {:induction false} StillToSweep(run: seq<State>, m: nat, n: nat, k: Sock)
    requires IsRun(run) && m <= n < |run| && k in Todo(run[m])
    requires forall i :: m < i <= n ==> !SweepsAt(run, i, k)
    ensures k in Todo(run[n])
    decreases n
  {
    hide IsRun, Enabled, Apply, Follows;
    if m < n {
      StillToSweep(run, m, n - 1, k);
      var a := ActionAt(run, n);
      assert !SweepsAt(run, n, k);
      StepFollows(run[n - 1], a);
      if a.OfCloser? {
        CloserAction(run[n - 1], a.k);
      }
    }
  }

  /** Close, once done, has closed a socket of its snapshot exactly when it did not miss the connection;
      and one it missed, no step of it ever closed. */
  lemma CloseDisposesIff(run: seq<State>, m: nat, k: Sock)
    requires IsRun(run) && CloserAt(run, m, Snapshot) && k in run[m - 1].active
    requires run[|run| - 1].closer.Done?
    ensures (exists i :: SweepsAt(run, i, k) && IsGone(run[i], k.conn))
            <==> !exists i :: SlipsAt(run, i, k.conn)
    ensures (exists i :: SlipsAt(run, i, k.conn)) ==>
              forall j, step :: CloserAt(run, j, step) && IsGone(run[j], k.conn) ==> IsGone(run[j - 1], k.conn)
  {
    hide IsRun, CloseEnabled, CloseApply, Slipped, Follows, IsGone;
    var last, c := |run| - 1, k.conn;
    TodoAfterSnapshot(run, m, k);
    if i :| SlipsAt(run, i, c) {
      forall j | SweepsAt(run, j, k) ensures !IsGone(run[j], c) {
        SlippedStaysOpen(run, i, j, CloseOne(k), c);
        NotSweptAgain(run, i, j, k);
      }
      forall j, step | CloserAt(run, j, step) && IsGone(run[j], c) ensures IsGone(run[j - 1], c) {
        SlippedStaysOpen(run, i, j, step, c);
      }
    } else {
      if forall i :: m < i <= last ==> !SweepsAt(run, i, k) {
        StillToSweep(run, m, last, k);
        assert false;
      }
      var i :| m < i <= last && SweepsAt(run, i, k);
      EveryStateReachable(run, i - 1);
      SweptIsGoneIff(run[i - 1], k);
      assert SlipsAt(run, i, c) <==> k == Raw(c) && Slipped(run[i - 1], k);
      OnlyRawSlips(run[i - 1], k);
    }
  }

  lemma OnlyRawSlips(s: State, k: Sock)
    ensures Slipped(s, k) ==> k == Raw(k.conn)
  {
  }

  lemma TodoAfterSnapshot(run: seq<State>, m: nat, k: Sock)
    requires CloserAt(run, m, Snapshot) && k in run[m - 1].active
    ensures k in Todo(run[m])
  {
  }

  /** Past a slip, or before it, no step of close closes the connection. */
  lemma SlippedStaysOpen(run: seq<State>, i: int, j: int, step: CloseStep, c: Conn)
    requires IsRun(run) && SlipsAt(run, i, c) && CloserAt(run, j, step)
    ensures IsGone(run[j], c) ==> j > i && c in run[j - 1].missed && IsGone(run[j - 1], c)
  {
    hide IsRun, CloseEnabled;
    if j <= i {
      RunFollows(run, j, i);
    } else {
      hide CloseApply, Slipped;
      MissedIff(run, j - 1, c);
      EveryStateReachable(run, j - 1);
      MissIsFinal(run[j - 1], step, c);
    }
  }

  lemma NotSweptAgain(run: seq<State>, i: int, j: int, k: Sock)
    requires IsRun(run) && SlipsAt(run, i, k.conn) && SweepsAt(run, j, k)
    ensures j <= i
  {
    hide IsRun, Slipped;
    if i < j {
      MissedIff(run, j - 1, k.conn);
      EveryStateReachable(run, j - 1);
      MissIsFinal(run[j - 1], CloseOne(k), k.conn);
    }
  }

  /** A connection refused for want of a permit, or found at the re-check of `closing`, is closed by the
      accept loop itself. */
  lemma AcceptClosesWhatItRefuses(s: State, a: AcceptStep)
    requires Reachable(s) && AcceptEnabled(s, a)
    requires (a.Acquire? && s.permits == 0) || a.CloseLease?
    ensures IsGone(AcceptApply(s, a), s.accept.conn)
  {
    hide OwnerInv, PermitInv, ActiveInv;
    ReachableIsSafe(s);
    assert Desc(s, s.accept.conn);
  }

  /** A connection just accepted is turned away exactly when all 64 permits are behind leases or in
      flight; otherwise it takes one. */
  lemma AdmittedIff(s: State)
    requires Reachable(s) && AcceptEnabled(s, Acquire)
    ensures var s' := AcceptApply(s, Acquire);
            && (IsGone(s', s.accept.conn) <==> |LiveLeases(s)| + InFlight(s) == 64)
            && (|LiveLeases(s)| + InFlight(s) < 64 ==>
                  s'.accept == Permitted(s.accept.conn) && s'.permits == s.permits - 1 && s'.fds == s.fds)
  {
    hide OwnerInv, PermitInv, ActiveInv, MissInv, LiveLeases, InFlight;
    PermitsConserved(s);
    ReachableIsSafe(s);
    assert Desc(s, s.accept.conn);
  }

  /** Which steps put a connection into the queue, turn an admitted one away, and end the accept loop: it
      ends only when the server is closing or accept() fails. */
  lemma AcceptLoopIff(s: State, a: AcceptStep)
    requires Reachable(s) && AcceptEnabled(s, a)
    ensures var s' := AcceptApply(s, a);
            && (s'.queue != s.queue <==> a.Put?) && (a.Put? ==> s'.queue == s.queue + [s.accept.conn])
            && (s'.accept.Rejecting? <==> a.Recheck? && s.closing)
            && (s'.accept.Stopped? <==> a.AcceptFails? || (s.closing && (a.Test? || a.GiveBack?)))
  {
    hide OwnerInv, PermitInv, ActiveInv, DescInv, MissInv;
    ReachableIsSafe(s);
    if a.Put? {
      RoomToQueue(s);
    }
    AcceptQueue(s, a);
    hide State.Closed, State.Released;
  }

  /** A worker takes the connection that has been queued longest, and leaves only when the server is
      closing and nothing is queued, or when an exception it does not catch ends it. */
  lemma WorkerLoopIff(s: State, i: nat, w: WorkerStep)
    requires Reachable(s) && WorkEnabled(s, i, w)
    ensures var s' := WorkApply(s, i, w);
            && |s'.workers| == |s.workers|
            && (s'.workers[i].Exited? <==> (w.Exit? && s.closing && s.queue == []) || w == GiveBackFailed(true))
            && (s'.queue != s.queue <==> w.Take?)
            && (w.Take? ==> s.queue == [s'.workers[i].conn] + s'.queue)
  {
    WorkerPlace(s, i, w);
    hide State.Closed, State.Released, State.Replaced;
  }

  lemma ClosedByAccept(s: State, a: AcceptStep, c: Conn)
    requires AcceptEnabled(s, a) && Desc(s, c) && c in s.fds && !IsGone(s, c) && s.permits >= 0
    requires forall d <- s.leases :: s.leases[d].sock.conn == d
    ensures IsGone(AcceptApply(s, a), c) <==>
            (a.Acquire? && s.accept.conn == c && s.permits == 0) || (a.CloseLease? && s.accept.conn == c)
  {
  }

  lemma ClosedByWorker(s: State, i: nat, w: WorkerStep, c: Conn)
    requires WorkEnabled(s, i, w) && Desc(s, c) && c in s.fds && !IsGone(s, c)
    requires forall d <- s.leases :: s.leases[d].sock.conn == d
    ensures IsGone(WorkApply(s, i, w), c) <==> (w.WrapFails? || w.CloseFailed?) && s.workers[i].conn == c
  {
    assert s.workers[i] in s.workers;
  }

  /** Exactly who closes a connection that is open. */
  lemma ClosedIff(s: State, a: Action, c: Conn)
    requires Reachable(s) && Enabled(s, a) && c in s.fds && !IsGone(s, c)
    ensures IsGone(Apply(s, a), c) <==>
            match a
            case OfAccept(b) => (b.Acquire? && s.accept.conn == c && s.permits == 0) || (b.CloseLease? && s.accept.conn == c)
            case OfWorker(i, w) => (w.WrapFails? || w.CloseFailed?) && s.workers[i].conn == c
            case OfLink(d, l) => l.LinkEnds? && d == c
            case OfCloser(k) => k.CloseOne? && k.sock.conn == c && !Slipped(s, k.sock)
  {
    hide OwnerInv, PermitInv, ActiveInv, MissInv, Reachable;
    PermitsConserved(s);
    ReachableIsSafe(s);
    assert Desc(s, c);
    assert forall d <- s.leases :: s.leases[d].sock.conn == d by { LeasesName(s); }
    match a
    case OfAccept(b) => ClosedByAccept(s, b, c);
    case OfWorker(i, w) => ClosedByWorker(s, i, w, c);
    case OfLink(d, l) =>
    case OfCloser(k) => if k.CloseOne? { SweptIsGoneIff(s, k.sock); }
  }

  // ---- close can miss a connection ----

  lemma ReachStep(s: State, a: Action) returns (s': State)
    requires Reachable(s) && Enabled(s, a)
    ensures s' == Apply(s, a) && Reachable(s')
  {
    hide Enabled, Apply;
    s' := Apply(s, a);
    assert Steps(s, s');
    NextReachable(s, s', Initial, Steps);
  }

  lemma InitialReachable()
    ensures Reachable(Initial)
  {
    FirstReachable(Initial, Steps);
  }

  lemma OneQueued() returns (s: State)
    ensures Reachable(s)
    ensures s == Initial.(permits := 63, leases := map[0 := Lease(Raw(0), false)], active := {Raw(0)},
                          queue := [0], fds := map[0 := AtRaw])
  {
    hide Reachable;
    InitialReachable();
    s := Initial;
    s := ReachStep(s, OfAccept(Test));
    s := ReachStep(s, OfAccept(Accept(0)));
    s := ReachStep(s, OfAccept(Acquire));
    s := ReachStep(s, OfAccept(MakeLease));
    s := ReachStep(s, OfAccept(Recheck));
    s := ReachStep(s, OfAccept(Put));
  }

  lemma OneWrapping() returns (s: State)
    ensures Reachable(s)
    ensures s == Initial.(workers := [Wrapping(0), Idle, Idle, Idle], closer := Sweeping({Raw(0)}),
                          closing := true, permits := 63, leases := map[0 := Lease(Raw(0), false)],
                          active := {Raw(0)}, fds := map[0 := AtTls])
  {
    hide Reachable;
    s := OneQueued();
    s := ReachStep(s, OfWorker(0, Take));
    s := ReachStep(s, OfWorker(0, StartWrap));
    s := ReachStep(s, OfCloser(Mark));
    s := ReachStep(s, OfCloser(Unlisten));
    s := ReachStep(s, OfCloser(Snapshot));
  }

  /** A worker is inside wrap_socket when close takes its snapshot: close has finished, the accept loop
      has stopped, and the link is up and running on an open connection. */
  lemma CloseCanMissALink() returns (s: State)
    ensures Reachable(s) && s.closer.Done? && s.accept.Stopped?
    ensures 0 in s.links && s.links[0].Running? && 0 in s.fds && s.fds[0].AtTls? && 0 in s.missed
  {
    hide Reachable;
    s := OneWrapping();
    s := ReachStep(s, OfWorker(0, Replace));
    s := ReachStep(s, OfCloser(CloseOne(Raw(0))));
    assert s.closer.todo == {};
    s := ReachStep(s, OfCloser(FinishSweep));
    s := ReachStep(s, OfWorker(0, Transfer));
    s := ReachStep(s, OfAccept(Test));
  }
}
