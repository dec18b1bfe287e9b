/** What every step of admission keeps: every unreleased lease has exactly one owner, and permits are
    conserved. */
module AdmissionRuns {
  import opened Admission

  // ---- ownership ----

  predicate Live(s: State, c: Conn) {
    c in s.leases && !s.leases[c].released
  }

  function AcceptOwns(pc: AcceptPc, c: Conn): nat {
    if (pc.Leased? || pc.Queueing? || pc.Rejecting? || pc.AcceptReleasing?) && pc.conn == c then 1 else 0
  }

  function WorkerOwns(pc: WorkerPc, c: Conn): nat {
    if (pc.Serving? || pc.Wrapping? || pc.Handling? || pc.Failing? || pc.WorkerReleasing?) && pc.conn == c
    then 1 else 0
  }

  function WorkersOwn(ws: seq<WorkerPc>, c: Conn): nat {
    if ws == [] then 0 else WorkerOwns(ws[0], c) + WorkersOwn(ws[1..], c)
  }

  function LinkOwns(links: map<Conn, LinkPc>, c: Conn): nat {
    if c in links && !links[c].LinkReturning? then 1 else 0
  }

  /** How many threads, or places in the queue, hold the lease of a connection. */
  function Owners(s: State, c: Conn): nat {
    AcceptOwns(s.accept, c) + multiset(s.queue)[c] + WorkersOwn(s.workers, c) + LinkOwns(s.links, c)
  }

  /** Every unreleased lease has exactly one owner; a released one, none. */
  ghost predicate OwnerInv(s: State) {
    && (forall c: Conn :: Owners(s, c) == if Live(s, c) then 1 else 0)
    && (forall c <- s.links :: c in s.leases && (s.links[c].LinkReturning? ==> s.leases[c].released))
    && (forall c <- s.leases :: c in s.fds)
    && ((s.accept.Got? || s.accept.Permitted?) ==> s.accept.conn in s.fds && s.accept.conn !in s.leases)
  }

  lemma {:induction false} WorkersOwnUpdate(ws: seq<WorkerPc>, i: nat, pc: WorkerPc, c: Conn)
    requires i < |ws|
    ensures WorkersOwn(ws[i := pc], c) == WorkersOwn(ws, c) - WorkerOwns(ws[i], c) + WorkerOwns(pc, c)
  {
    hide WorkerOwns;
    if i == 0 {
      assert ws[i := pc][1..] == ws[1..];
    } else {
      assert ws[i := pc][1..] == ws[1..][i - 1 := pc];
      WorkersOwnUpdate(ws[1..], i - 1, pc, c);
    }
  }

  lemma {:induction false} OneWorkerOwns(ws: seq<WorkerPc>, i: nat, c: Conn)
    requires i < |ws|
    ensures WorkersOwn(ws, c) >= WorkerOwns(ws[i], c)
  {
    hide WorkerOwns;
    if i > 0 {
      OneWorkerOwns(ws[1..], i - 1, c);
    }
  }

  lemma {:induction false} TwoWorkersOwn(ws: seq<WorkerPc>, i: nat, j: nat, c: Conn)
    requires i < j < |ws|
    ensures WorkersOwn(ws, c) >= WorkerOwns(ws[i], c) + WorkerOwns(ws[j], c)
  {
    hide WorkerOwns;
    if i == 0 {
      OneWorkerOwns(ws[1..], j - 1, c);
    } else {
      TwoWorkersOwn(ws[1..], i - 1, j - 1, c);
    }
  }

  lemma Enqueued(q: seq<Conn>, c: Conn, d: Conn)
    ensures multiset(q + [c])[d] == multiset(q)[d] + if c == d then 1 else 0
  {
    assert multiset(q + [c]) == multiset(q) + multiset{c};
  }

  lemma Dequeued(q: seq<Conn>, d: Conn)
    requires q != []
    ensures multiset(q)[d] == multiset(q[1..])[d] + if q[0] == d then 1 else 0
  {
    assert q == [q[0]] + q[1..];
  }

  /** Which steps of the accept loop begin and end a lease. */
  lemma AcceptLives(s: State, a: AcceptStep, c: Conn)
    requires AcceptEnabled(s, a)
    ensures Live(AcceptApply(s, a), c)
            <==> if a.MakeLease? && c == s.accept.conn then true
                 else if a.Release? && c == s.accept.conn then false else Live(s, c)
  {
  }

  lemma AcceptFrame(s: State, a: AcceptStep)
    requires AcceptEnabled(s, a)
    ensures AcceptApply(s, a).workers == s.workers && AcceptApply(s, a).links == s.links
  {
    hide State.Closed, State.Released;
  }

  lemma AcceptQueue(s: State, a: AcceptStep)
    requires AcceptEnabled(s, a)
    ensures AcceptApply(s, a).queue
            == if a.Put? && |s.queue| < MAX_PENDING then s.queue + [s.accept.conn] else s.queue
  {
    hide State.Closed, State.Released;
  }

  lemma AcceptHolds(s: State, a: AcceptStep, c: Conn)
    requires AcceptEnabled(s, a)
    ensures AcceptOwns(AcceptApply(s, a).accept, c) == AcceptOwns(s.accept, c)
            + (if a.MakeLease? && c == s.accept.conn then 1 else 0)
            - (if a.Release? && c == s.accept.conn then 1 else 0)
            - (if a.Put? && |s.queue| < MAX_PENDING && c == s.accept.conn then 1 else 0)
  {
    hide State.Closed, State.Released;
  }

  /** What a step of the accept loop does to the owners of one lease. */
  lemma AcceptEffect(s: State, a: AcceptStep, c: Conn)
    requires AcceptEnabled(s, a)
    ensures var s' := AcceptApply(s, a);
            AcceptOwns(s'.accept, c) + multiset(s'.queue)[c]
               == AcceptOwns(s.accept, c) + multiset(s.queue)[c]
                  + (if a.MakeLease? && c == s.accept.conn then 1 else 0)
                  - (if a.Release? && c == s.accept.conn then 1 else 0)
  {
    AcceptQueue(s, a);
    AcceptHolds(s, a, c);
    hide AcceptApply, AcceptOwns;
    if a.Put? {
      Enqueued(s.queue, s.accept.conn, c);
    }
  }

  lemma OwnerStepAccept(s: State, a: AcceptStep)
    requires OwnerInv(s) && AcceptEnabled(s, a)
    ensures OwnerInv(AcceptApply(s, a))
  {
    var s' := AcceptApply(s, a);
    AcceptBooks(s, a);
    forall c: Conn ensures Owners(s', c) == if Live(s', c) then 1 else 0 {
      hide AcceptApply, AcceptEnabled, WorkersOwn, AcceptOwns, Live, LinkOwns;
      AcceptLives(s, a, c);
      AcceptFrame(s, a);
      AcceptEffect(s, a, c);
      assert Owners(s, c) == if Live(s, c) then 1 else 0;
      if a.MakeLease? {
        NewConnIsNotLive(s, a);
      } else if a.Release? {
        OwnerIsLive(s, a);
      }
    }
  }

  lemma NewConnIsNotLive(s: State, a: AcceptStep)
    requires OwnerInv(s) && AcceptEnabled(s, a) && a.MakeLease?
    ensures s.accept.Permitted? && !Live(s, s.accept.conn)
  {
    hide Owners;
  }

  lemma OwnerIsLive(s: State, a: AcceptStep)
    requires OwnerInv(s) && AcceptEnabled(s, a) && a.Release?
    ensures s.accept.AcceptReleasing? && Live(s, s.accept.conn)
  {
    hide WorkersOwn, LinkOwns;
    assert Owners(s, s.accept.conn) >= 1;
  }

  /** The part of the invariant that is about which connections are on the books. */
  lemma AcceptBooks(s: State, a: AcceptStep)
    requires OwnerInv(s) && AcceptEnabled(s, a)
    ensures var s' := AcceptApply(s, a);
            && (forall c <- s'.links :: c in s'.leases && (s'.links[c].LinkReturning? ==> s'.leases[c].released))
            && (forall c <- s'.leases :: c in s'.fds)
            && ((s'.accept.Got? || s'.accept.Permitted?) ==>
                  s'.accept.conn in s'.fds && s'.accept.conn !in s'.leases)
  {
    hide Owners, Live;
  }

  lemma WorkerLives(s: State, i: nat, w: WorkerStep, c: Conn)
    requires WorkEnabled(s, i, w)
    ensures Live(WorkApply(s, i, w), c)
            <==> if w.ReleaseFailed? && c == s.workers[i].conn then false else Live(s, c)
  {
  }

  lemma WorkerPlace(s: State, i: nat, w: WorkerStep)
    requires WorkEnabled(s, i, w)
    ensures var s' := WorkApply(s, i, w);
            && |s'.workers| == |s.workers| && s'.workers == s.workers[i := s'.workers[i]]
            && s'.accept == s.accept
            && s'.links == if w.Transfer? then s.links[s.workers[i].conn := Running] else s.links
  {
    hide State.Closed, State.Released, State.Replaced;
  }

  lemma WorkerHolds(s: State, i: nat, w: WorkerStep, c: Conn)
    requires WorkEnabled(s, i, w)
    ensures var s' := WorkApply(s, i, w);
            && i < |s'.workers|
            && WorkerOwns(s'.workers[i], c)
               == (if w.Take? && c == s.queue[0] then 1 else 0) + WorkerOwns(s.workers[i], c)
                  - (if (w.ReleaseFailed? || w.Transfer?) && c == s.workers[i].conn then 1 else 0)
            && s'.queue == if w.Take? then s.queue[1..] else s.queue
  {
    hide State.Closed, State.Released, State.Replaced;
  }

  /** What a step of a worker does to the owners of one lease. */
  lemma WorkerEffect(s: State, i: nat, w: WorkerStep, c: Conn)
    requires WorkEnabled(s, i, w)
    ensures var s' := WorkApply(s, i, w);
            && |s'.workers| == |s.workers| && s'.workers == s.workers[i := s'.workers[i]]
            && s'.accept == s.accept
            && multiset(s'.queue)[c] + WorkerOwns(s'.workers[i], c)
               == multiset(s.queue)[c] + WorkerOwns(s.workers[i], c)
                  - (if (w.ReleaseFailed? || w.Transfer?) && c == s.workers[i].conn then 1 else 0)
            && s'.links == if w.Transfer? then s.links[s.workers[i].conn := Running] else s.links
  {
    WorkerPlace(s, i, w);
    WorkerHolds(s, i, w, c);
    if w.Take? {
      Dequeued(s.queue, c);
    }
    hide WorkApply, WorkerOwns;
  }

  lemma OwnerStepWorker(s: State, i: nat, w: WorkerStep)
    requires OwnerInv(s) && WorkEnabled(s, i, w)
    ensures OwnerInv(WorkApply(s, i, w))
  {
    var s' := WorkApply(s, i, w);
    WorkerBooks(s, i, w);
    if w.Transfer? || w.ReleaseFailed? {
      WorkerIsOwner(s, i);
    }
    forall c: Conn ensures Owners(s', c) == if Live(s', c) then 1 else 0 {
      hide WorkApply, WorkEnabled, WorkersOwn, WorkerOwns, AcceptOwns, Live;
      WorkerLives(s, i, w, c);
      WorkerEffect(s, i, w, c);
      WorkersOwnUpdate(s.workers, i, s'.workers[i], c);
      assert Owners(s, c) == if Live(s, c) then 1 else 0;
    }
  }

  /** A lease a worker holds is unreleased, and nobody else holds it. */
  lemma WorkerIsOwner(s: State, i: nat)
    requires OwnerInv(s) && i < |s.workers| && !s.workers[i].Idle? && !s.workers[i].Exited?
    requires WorkerOwns(s.workers[i], s.workers[i].conn) == 1
    ensures var c := s.workers[i].conn;
            Live(s, c) && AcceptOwns(s.accept, c) == 0 && multiset(s.queue)[c] == 0 && c !in s.links
    ensures forall j: nat | j < |s.workers| && j != i :: WorkerOwns(s.workers[j], s.workers[i].conn) == 0
  {
    hide WorkersOwn;
    var c := s.workers[i].conn;
    OneWorkerOwns(s.workers, i, c);
    assert Owners(s, c) == if Live(s, c) then 1 else 0;
    forall j: nat | j < |s.workers| && j != i ensures WorkerOwns(s.workers[j], c) == 0 {
      if i < j {
        TwoWorkersOwn(s.workers, i, j, c);
      } else {
        TwoWorkersOwn(s.workers, j, i, c);
      }
    }
  }

  lemma WorkerBooks(s: State, i: nat, w: WorkerStep)
    requires OwnerInv(s) && WorkEnabled(s, i, w)
    ensures var s' := WorkApply(s, i, w);
            && (forall c <- s'.links :: c in s'.leases && (s'.links[c].LinkReturning? ==> s'.leases[c].released))
            && (forall c <- s'.leases :: c in s'.fds)
            && ((s'.accept.Got? || s'.accept.Permitted?) ==>
                  s'.accept.conn in s'.fds && s'.accept.conn !in s'.leases)
  {
    if w.Transfer? {
      WorkerIsOwner(s, i);
    }
    hide Owners, Live;
  }

  lemma LinkEffect(s: State, c: Conn, l: LinkStep, d: Conn)
    requires LinkEnabled(s, c, l)
    ensures var s' := LinkApply(s, c, l);
            && s'.workers == s.workers && s'.accept == s.accept && s'.queue == s.queue
            && (Live(s', d) <==> if l.ReleaseLink? && d == c then false else Live(s, d))
            && LinkOwns(s'.links, d) == LinkOwns(s.links, d) - if l.ReleaseLink? && d == c then 1 else 0
  {
  }

  lemma OwnerStepLink(s: State, c: Conn, l: LinkStep)
    requires OwnerInv(s) && LinkEnabled(s, c, l)
    ensures OwnerInv(LinkApply(s, c, l))
  {
    hide WorkersOwn, AcceptOwns;
    var s' := LinkApply(s, c, l);
    forall d: Conn ensures Owners(s', d) == if Live(s', d) then 1 else 0 {
      hide LinkOwns, Live;
      LinkEffect(s, c, l, d);
      assert Owners(s, d) == if Live(s, d) then 1 else 0;
    }
  }

  lemma OwnerStepCloser(s: State, k: CloseStep)
    requires OwnerInv(s) && CloseEnabled(s, k)
    ensures OwnerInv(CloseApply(s, k))
  {
    hide WorkersOwn, AcceptOwns, LinkOwns;
    var s' := CloseApply(s, k);
    assert s'.leases == s.leases && s'.accept == s.accept && s'.workers == s.workers && s'.links == s.links
           && s'.queue == s.queue;
    assert s'.fds.Keys == s.fds.Keys;
    assert forall c: Conn :: Owners(s', c) == Owners(s, c) && Live(s', c) == Live(s, c);
  }

  // ---- permits ----

  function LiveLeases(s: State): set<Conn> {
    set c | c in s.leases && Live(s, c)
  }

  function Returning(ws: seq<WorkerPc>): nat {
    if ws == [] then 0 else (if ws[0].WorkerReturning? then 1 else 0) + Returning(ws[1..])
  }

  function LinksReturning(links: map<Conn, LinkPc>): set<Conn> {
    set c | c in links && links[c].LinkReturning?
  }

  /** Permits taken but not yet leased, or released but not yet given back. */
  function InFlight(s: State): nat {
    (if s.accept.Permitted? || s.accept.AcceptReturning? then 1 else 0)
    + Returning(s.workers) + |LinksReturning(s.links)|
  }

  /** Conservation: every permit is free, behind an unreleased lease, or in flight. */
  ghost predicate PermitInv(s: State) {
    s.permits >= 0 && s.permits + |LiveLeases(s)| + InFlight(s) == MAX_PENDING
  }

  lemma {:induction false} ReturningUpdate(ws: seq<WorkerPc>, i: nat, pc: WorkerPc)
    requires i < |ws|
    ensures Returning(ws[i := pc])
            == Returning(ws) - (if ws[i].WorkerReturning? then 1 else 0) + if pc.WorkerReturning? then 1 else 0
  {
    if i == 0 {
      assert ws[i := pc][1..] == ws[1..];
    } else {
      assert ws[i := pc][1..] == ws[1..][i - 1 := pc];
      ReturningUpdate(ws[1..], i - 1, pc);
    }
  }

  /** A permit leaves the pool before its lease is made and comes back after it is released. */
  lemma AcceptPermits(s: State, a: AcceptStep)
    requires AcceptEnabled(s, a) && s.permits >= 0
    ensures var s' := AcceptApply(s, a);
            && s'.permits >= 0
            && s'.permits + (if s'.accept.Permitted? || s'.accept.AcceptReturning? then 1 else 0)
               == s.permits + (if s.accept.Permitted? || s.accept.AcceptReturning? then 1 else 0)
                  + (if a.Release? then 1 else if a.MakeLease? then -1 else 0)
  {
  }

  lemma AcceptLiveLeases(s: State, a: AcceptStep)
    requires AcceptEnabled(s, a)
    ensures LiveLeases(AcceptApply(s, a))
            == if a.MakeLease? then LiveLeases(s) + {s.accept.conn}
               else if a.Release? then LiveLeases(s) - {s.accept.conn} else LiveLeases(s)
  {
    forall c: Conn
      ensures c in LiveLeases(AcceptApply(s, a))
              <==> if a.MakeLease? && c == s.accept.conn then true
                   else if a.Release? && c == s.accept.conn then false else c in LiveLeases(s)
    {
      AcceptLives(s, a, c);
    }
  }

  lemma PermitStepAccept(s: State, a: AcceptStep)
    requires OwnerInv(s) && PermitInv(s) && AcceptEnabled(s, a)
    ensures PermitInv(AcceptApply(s, a))
  {
    if a.MakeLease? {
      NewConnIsNotLive(s, a);
    } else if a.Release? {
      OwnerIsLive(s, a);
    }
    AcceptPermits(s, a);
    AcceptFrame(s, a);
    AcceptLiveLeases(s, a);
    hide AcceptApply, OwnerInv, Returning, LinksReturning;
  }

  lemma WorkerPermits(s: State, i: nat, w: WorkerStep)
    requires WorkEnabled(s, i, w) && s.permits >= 0
    ensures var s' := WorkApply(s, i, w);
            && s'.permits >= 0 && i < |s'.workers|
            && s'.permits + (if s'.workers[i].WorkerReturning? then 1 else 0)
               == s.permits + (if s.workers[i].WorkerReturning? then 1 else 0)
                  + (if w.ReleaseFailed? then 1 else 0)
  {
  }

  lemma WorkerLiveLeases(s: State, i: nat, w: WorkerStep)
    requires WorkEnabled(s, i, w)
    ensures LiveLeases(WorkApply(s, i, w))
            == if w.ReleaseFailed? then LiveLeases(s) - {s.workers[i].conn} else LiveLeases(s)
  {
    forall c: Conn
      ensures c in LiveLeases(WorkApply(s, i, w))
              <==> if w.ReleaseFailed? && c == s.workers[i].conn then false else c in LiveLeases(s)
    {
      WorkerLives(s, i, w, c);
    }
  }

  lemma WorkerReturning(s: State, i: nat, w: WorkerStep)
    requires WorkEnabled(s, i, w)
    ensures var s' := WorkApply(s, i, w);
            && i < |s'.workers| && s'.accept == s.accept
            && Returning(s'.workers) == Returning(s.workers)
               - (if s.workers[i].WorkerReturning? then 1 else 0) + (if s'.workers[i].WorkerReturning? then 1 else 0)
            && LinksReturning(s'.links)
               == if w.Transfer? then LinksReturning(s.links) - {s.workers[i].conn} else LinksReturning(s.links)
  {
    WorkerPlace(s, i, w);
    var s' := WorkApply(s, i, w);
    hide WorkApply;
    ReturningUpdate(s.workers, i, s'.workers[i]);
  }

  lemma PermitStepWorker(s: State, i: nat, w: WorkerStep)
    requires OwnerInv(s) && PermitInv(s) && WorkEnabled(s, i, w)
    ensures PermitInv(WorkApply(s, i, w))
  {
    if w.ReleaseFailed? || w.Transfer? {
      WorkerIsOwner(s, i);
      assert s.workers[i].conn in LiveLeases(s) && s.workers[i].conn !in LinksReturning(s.links);
    }
    WorkerPermits(s, i, w);
    WorkerReturning(s, i, w);
    WorkerLiveLeases(s, i, w);
    hide WorkApply, WorkEnabled, OwnerInv, Returning, LinksReturning, LiveLeases, Live;
    if w.ReleaseFailed? {
      Removed(LiveLeases(s), s.workers[i].conn);
    } else if w.Transfer? {
      assert LinksReturning(s.links) - {s.workers[i].conn} == LinksReturning(s.links);
    }
  }

  lemma LinkPermits(s: State, c: Conn, l: LinkStep)
    requires LinkEnabled(s, c, l) && s.permits >= 0
    ensures var s' := LinkApply(s, c, l);
            && s'.permits == s.permits + (if l.GiveBackLink? then 1 else 0)
            && LinksReturning(s'.links)
               == LinksReturning(s.links) + (if l.ReleaseLink? then {c} else {}) - (if l.GiveBackLink? then {c} else {})
            && (c in LinksReturning(s.links) <==> l.GiveBackLink?)
  {
  }

  lemma Removed(cs: set<Conn>, c: Conn)
    requires c in cs
    ensures |cs - {c}| == |cs| - 1
  {
  }

  lemma Added(cs: set<Conn>, c: Conn)
    requires c !in cs
    ensures |cs + {c}| == |cs| + 1
  {
  }

  lemma LinkLiveLeases(s: State, c: Conn, l: LinkStep)
    requires LinkEnabled(s, c, l)
    ensures LiveLeases(LinkApply(s, c, l)) == if l.ReleaseLink? then LiveLeases(s) - {c} else LiveLeases(s)
  {
    forall d: Conn
      ensures d in LiveLeases(LinkApply(s, c, l))
              <==> if l.ReleaseLink? && d == c then false else d in LiveLeases(s)
    {
      LinkEffect(s, c, l, d);
    }
  }

  lemma LinkIsLive(s: State, c: Conn)
    requires OwnerInv(s) && c in s.links && !s.links[c].LinkReturning?
    ensures Live(s, c) && c in LiveLeases(s)
  {
    hide WorkersOwn, AcceptOwns;
    assert Owners(s, c) >= 1;
  }

  lemma LinkKeepsRest(s: State, c: Conn, l: LinkStep)
    requires LinkEnabled(s, c, l)
    ensures LinkApply(s, c, l).workers == s.workers && LinkApply(s, c, l).accept == s.accept
  {
  }

  lemma PermitStepLink(s: State, c: Conn, l: LinkStep)
    requires OwnerInv(s) && PermitInv(s) && LinkEnabled(s, c, l)
    ensures PermitInv(LinkApply(s, c, l))
  {
    if l.ReleaseLink? {
      LinkIsLive(s, c);
    }
    LinkPermits(s, c, l);
    LinkKeepsRest(s, c, l);
    LinkLiveLeases(s, c, l);
    hide LinkApply, LinkEnabled, OwnerInv, Returning, LinksReturning, LiveLeases, Live;
    if l.ReleaseLink? {
      Removed(LiveLeases(s), c);
      Added(LinksReturning(s.links), c);
    } else if l.GiveBackLink? {
      Removed(LinksReturning(s.links), c);
    }
  }

  lemma PermitStepCloser(s: State, k: CloseStep)
    requires PermitInv(s) && CloseEnabled(s, k)
    ensures PermitInv(CloseApply(s, k))
  {
    hide Returning;
    assert LiveLeases(CloseApply(s, k)) == LiveLeases(s);
  }
}
