/** Safety of the endpoint over every interleaving of its threads. */
module EndpointRuns {
  import opened Bytes
  import opened Endpoint
  import opened Runs

  ghost predicate Steps(s: State, s': State) {
    exists t: Thread, a :: Enabled(s, t, a) && s' == Apply(s, t, a)
  }

  ghost predicate Reachable(s: State) {
    ReachableBy(s, Initial, Steps)
  }

  // ---- node ownership ----

  /** How many native calls are on a stack. */
  function Natives(st: Stack): nat {
    if st == [] then 0
    else Natives(st[..|st| - 1]) + if st[|st| - 1].Native? then 1 else 0
  }

  predicate HasClosing(st: Stack) {
    exists f <- st :: f.Closing?
  }

  /** The lock is held exactly while native calls are on the owner's stack, and nobody else has any. */
  ghost predicate LockInv(s: State) {
    && s.node.nativeCalls == s.lock.depth >= 0
    && (s.lock.owner.None? <==> s.lock.depth == 0)
    && forall t: Thread ::
         && (s.lock.owner == Some(t) ==> Natives(s.Of(t)) == s.lock.depth)
         && (s.lock.owner != Some(t) ==> Natives(s.Of(t)) == 0)
  }

  /** The node is freed at most once, only when closed and idle; and until it is, somebody is left who
      will free it: a native call to unwind or a close to finish. */
  ghost predicate FreeInv(s: State) {
    && s.node.frees == (if s.node.nodeFreed then 1 else 0)
    && (forall t: Thread :: HasClosing(s.Of(t)) ==> s.node.closed)
    && (s.node.nodeFreed ==> s.node.closed && s.node.nativeCalls == 0)
    && (s.node.closed && !s.node.nodeFreed ==> s.node.nativeCalls > 0 || exists t: Thread :: HasClosing(s.Of(t)))
  }

  lemma NativesPush(st: Stack, f: Frame)
    ensures Natives(st + [f]) == Natives(st) + if f.Native? then 1 else 0
  {
    assert (st + [f])[..|st|] == st;
  }

  lemma NativesPop(st: Stack)
    requires st != []
    ensures Natives(st) == Natives(Below(st)) + if Last(st).Native? then 1 else 0
  {
  }

  lemma NativesAfter(s: State, t: Thread, a: Action)
    requires Enabled(s, t, a)
    ensures Natives(StackAfter(s, t, a)) == Natives(s.Of(t)) +
            if a.EndCall? || a.EndSend? then -1 else if a.BeginCall? && !s.node.closed then 1 else 0
  {
    hide Natives, Below, Last, State.Of, Mail.Fresh, Mail.HasOutcome, Lock.FreeFor;
    var st := s.Of(t);
    if st != [] {
      NativesPop(st);
    }
    match a
    case BeginCall(kind) => NativesPush(st, Native(kind));
    case EndSend(_, w) => NativesPush(Below(st), Awaiting(w));
    case CloseMark => NativesPush(st, Closing(s.closers));
    case RunHook => NativesPush(Below(st), Closing(Last(st).hooks[1..]));
    case Register(hook) => NativesPush(st, Firing(hook));
    case WaitExpires => NativesPush(Below(st), Withdrawing(Last(st).ticket));
    case _ =>
  }

  lemma LockStep(s: State, t: Thread, a: Action)
    requires LockInv(s) && Enabled(s, t, a)
    ensures LockInv(Apply(s, t, a))
  {
    hide StackAfter, MailAfter, ClosersAfter, RanAfter, Natives, Mail.Fresh, Mail.HasOutcome;
    NativesAfter(s, t, a);
    var s' := Apply(s, t, a);
    assert forall u: Thread :: u != t ==> s'.Of(u) == s.Of(u);
    if a.EndCall? || a.EndSend? {
      NativeOnTop(s, t);
    }
  }

  lemma NativeOnTop(s: State, t: Thread)
    requires LockInv(s) && s.Of(t) != [] && Last(s.Of(t)).Native?
    ensures s.lock.owner == Some(t) && s.lock.depth > 0
  {
    assert Natives(s.Of(t)) > 0;
  }

  lemma FreeStep(s: State, t: Thread, a: Action)
    requires LockInv(s) && FreeInv(s) && Enabled(s, t, a)
    ensures FreeInv(Apply(s, t, a))
  {
    hide StackAfter, MailAfter, ClosersAfter, RanAfter, Natives, HasClosing, Mail.Fresh, Mail.HasOutcome;
    var s' := Apply(s, t, a);
    ClosingAfter(s, t, a);
    if a.EndCall? || a.EndSend? {
      NativeOnTop(s, t);
    }
    assert forall u: Thread :: u != t ==> s'.Of(u) == s.Of(u);
    if a.CloseMark? && !s.node.closed {
      assert HasClosing(s'.Of(t));
    } else if s.node.closed && !s.node.nodeFreed && s.node.nativeCalls == 0 {
      var u: Thread :| HasClosing(s.Of(u));
      assert a.CloseFinish? || HasClosing(s'.Of(u));
    }
  }

  lemma ClosingAfter(s: State, t: Thread, a: Action)
    requires Enabled(s, t, a)
    ensures HasClosing(s.Of(t)) && !a.CloseFinish? ==> HasClosing(StackAfter(s, t, a))
    ensures a.CloseMark? && !s.node.closed ==> HasClosing(StackAfter(s, t, a))
    ensures HasClosing(StackAfter(s, t, a)) ==> HasClosing(s.Of(t)) || a.CloseMark?
    ensures a.CloseFinish? ==> HasClosing(s.Of(t))
  {
    hide Mail.Fresh, Mail.HasOutcome, Lock.FreeFor;
    var st, st' := s.Of(t), StackAfter(s, t, a);
    if f :| f in st && f.Closing? {
      if st' == st || |st'| > |st| {
        assert f in st';
      } else if !a.CloseFinish? {
        if f in Below(st) {
          assert f in st';
        } else {
          assert f == Last(st) && a.RunHook?;
          assert Last(st') in st';
        }
      }
    }
    if a.CloseMark? && !s.node.closed {
      assert Last(st') in st';
    }
    if a.CloseFinish? || a.RunHook? {
      assert Last(st) in st;
    }
  }

  // ---- teardown hooks ----

  function Content(f: Frame, h: Hook): nat {
    match f
    case Closing(hooks) => multiset(hooks)[h]
    case Firing(hook) => if hook == h then 1 else 0
    case _ => 0
  }

  /** How often a thread has taken on hook `h` without having run it yet. */
  function Carried(st: Stack, h: Hook): nat {
    if st == [] then 0 else Carried(Below(st), h) + Content(Last(st), h)
  }

  lemma CarriedPush(st: Stack, f: Frame, h: Hook)
    ensures Carried(st + [f], h) == Carried(st, h) + Content(f, h)
  {
    assert Below(st + [f]) == st;
  }

  lemma CarriedPop(st: Stack, h: Hook)
    requires st != []
    ensures Carried(st, h) == Carried(Below(st), h) + Content(Last(st), h)
  {
  }

  /** How often all threads together have. */
  ghost function Held(stacks: map<Thread, Stack>, h: Hook): nat {
    if stacks == map[] then 0
    else
      var t: Thread :| t in stacks;
      Carried(stacks[t], h) + Held(stacks - {t}, h)
  }

  lemma {:induction false} HeldWithout(stacks: map<Thread, Stack>, t: Thread, h: Hook)
    requires t in stacks
    ensures Held(stacks, h) == Carried(stacks[t], h) + Held(stacks - {t}, h)
  {
    hide Carried;
    var u: Thread :| u in stacks && Held(stacks, h) == Carried(stacks[u], h) + Held(stacks - {u}, h);
    if u != t {
      HeldWithout(stacks - {u}, t, h);
      HeldWithout(stacks - {t}, u, h);
      assert stacks - {u} - {t} == stacks - {t} - {u};
    }
  }

  lemma HeldUpdate(s: State, t: Thread, st: Stack, h: Hook)
    ensures Held(s.stacks[t := st], h) == Held(s.stacks, h) - Carried(s.Of(t), h) + Carried(st, h)
  {
    hide Held;
    HeldWithout(s.stacks[t := st], t, h);
    if t in s.stacks {
      HeldWithout(s.stacks, t, h);
      assert s.stacks[t := st] - {t} == s.stacks - {t};
    } else {
      assert s.stacks[t := st] - {t} == s.stacks;
    }
  }

  /** Every hook ever registered is waiting in the list, taken on by a thread, or has run: once. */
  ghost predicate HookInv(s: State) {
    && (forall h: Hook ::
          multiset(s.closers)[h] + Held(s.stacks, h) + s.ran[h] == if h in s.issued then 1 else 0)
    && (s.node.closed ==> s.closers == [])
  }

  /** Running the front hook of a list leaves the rest. */
  lemma FrontHook(hooks: seq<Hook>, h: Hook)
    requires hooks != []
    ensures multiset(hooks)[h] == multiset(hooks[1..])[h] + if h == hooks[0] then 1 else 0
  {
    assert hooks == [hooks[0]] + hooks[1..];
  }

  /** What a step does to the hooks its own thread carries. */
  lemma CarriedAfter(s: State, t: Thread, a: Action, h: Hook)
    requires Enabled(s, t, a)
    ensures Carried(StackAfter(s, t, a), h) - Carried(s.Of(t), h) ==
            match a
            case CloseMark => if s.node.closed then 0 else multiset(s.closers)[h]
            case RunHook => if Last(s.Of(t)).hooks[0] == h then -1 else 0
            case Register(hook) => if s.node.closed && hook == h then 1 else 0
            case FireHook => if Last(s.Of(t)).hook == h then -1 else 0
            case _ => 0
  {
    hide Carried, Below, Last, State.Of, Mail.Fresh, Mail.HasOutcome, Lock.FreeFor;
    var st := s.Of(t);
    if st != [] {
      CarriedPop(st, h);
    }
    match a
    case BeginCall(kind) => CarriedPush(st, Native(kind), h);
    case EndSend(_, w) => CarriedPush(Below(st), Awaiting(w), h);
    case CloseMark => CarriedPush(st, Closing(s.closers), h);
    case RunHook =>
      CarriedPush(Below(st), Closing(Last(st).hooks[1..]), h);
      FrontHook(Last(st).hooks, h);
    case Register(hook) => CarriedPush(st, Firing(hook), h);
    case WaitExpires => CarriedPush(Below(st), Withdrawing(Last(st).ticket), h);
    case _ =>
  }

  /** What a step does to the list of hooks and to those that have run. */
  lemma ListedAndRan(s: State, t: Thread, a: Action, h: Hook)
    requires Enabled(s, t, a)
    ensures multiset(ClosersAfter(s, t, a))[h] + RanAfter(s, t, a)[h] ==
            s.ran[h]
            + (if a.CloseMark? && !s.node.closed then 0 else multiset(s.closers)[h])
            + (if a.RunHook? && Last(s.Of(t)).hooks[0] == h then 1 else 0)
            + (if a.FireHook? && Last(s.Of(t)).hook == h then 1 else 0)
            + (if a.Register? && !s.node.closed && a.hook == h then 1 else 0)
  {
    hide Mail.Fresh, Mail.HasOutcome, Lock.FreeFor;
  }

  lemma HookStep(s: State, t: Thread, a: Action)
    requires HookInv(s) && Enabled(s, t, a)
    ensures HookInv(Apply(s, t, a))
  {
    hide StackAfter, MailAfter, LockAfter, ClosersAfter, RanAfter, Carried, Held;
    hide Mail.Fresh, Mail.HasOutcome, Lock.FreeFor;
    var s' := Apply(s, t, a);
    forall h: Hook
      ensures multiset(s'.closers)[h] + Held(s'.stacks, h) + s'.ran[h] == if h in s'.issued then 1 else 0
    {
      CarriedAfter(s, t, a, h);
      ListedAndRan(s, t, a, h);
      HeldUpdate(s, t, StackAfter(s, t, a), h);
    }
    ClosedIsEmpty(s, t, a);
  }

  lemma ClosedIsEmpty(s: State, t: Thread, a: Action)
    requires s.node.closed ==> s.closers == []
    ensures NodeAfter(s, t, a).closed ==> ClosersAfter(s, t, a) == []
  {
  }

  // ---- waiters ----

  predicate Untouched(w: Waiter) {
    !w.event && !w.closed && w.response.None? && w.writes == 0
  }

  /** The holder has been written once: "closed", or the response to its own request, never both. */
  predicate Settled(w: Waiter) {
    w.writes == 1 && (w.closed <==> w.response.None?) && (w.response.Some? ==> w.response.value.forId == w.id)
  }

  predicate InPending(m: Mail, w: Ticket)
    requires w in m.waiters
  {
    m.waiters[w].id in m.pending && m.pending[m.waiters[w].id] == w
  }

  predicate InSlot(m: Mail, w: Ticket) {
    !m.slot.Empty? && m.slot.ticket == w
  }

  predicate SlotInv(m: Mail) {
    match m.slot
    case Empty => true
    case Popped(w, r) =>
      w in m.waiters && Untouched(m.waiters[w]) && r.forId == m.waiters[w].id && r in m.polled
    case Written(w) => w in m.waiters && !m.waiters[w].event && !m.waiters[w].closed && Settled(m.waiters[w])
  }

  predicate WaiterInv(m: Mail, w: Ticket)
    requires w in m.waiters
  {
    && (m.waiters[w].event ==> Settled(m.waiters[w]) && !InPending(m, w) && !InSlot(m, w))
    && (!m.waiters[w].event && !InSlot(m, w) ==> Untouched(m.waiters[w]))
    && (!m.waiters[w].event && !InSlot(m, w) && !m.waiters[w].timedOut ==> InPending(m, w))
    && (InSlot(m, w) || m.waiters[w].timedOut ==> !InPending(m, w))
    && (m.waiters[w].response.Some? ==> m.waiters[w].response.value in m.polled)
  }

  predicate MailInv(m: Mail) {
    && (forall id <- m.pending :: m.pending[id] in m.waiters && m.waiters[m.pending[id]].id == id)
    && (forall v, w :: v in m.waiters && w in m.waiters && v != w ==> m.waiters[v].id != m.waiters[w].id)
    && (forall r <- m.batch :: r in m.polled)
    && SlotInv(m)
    && (forall w <- m.waiters :: WaiterInv(m, w))
  }

  lemma RegisteredKeeps(m: Mail, id: Request, w: Ticket)
    requires MailInv(m) && m.Fresh(id) && w !in m.waiters
    ensures MailInv(m.Registered(id, w))
  {
    assert id !in m.pending;
    var m' := m.Registered(id, w);
    forall v | v in m'.waiters ensures WaiterInv(m', v) {
      assert v in m.waiters ==> WaiterInv(m, v) && m'.waiters[v] == m.waiters[v] && m.waiters[v].id != id;
    }
  }

  lemma WokenKeeps(m: Mail)
    requires MailInv(m)
    ensures MailInv(m.Woken()) && m.Woken().pending == map[]
  {
    var m' := m.Woken();
    forall v | v in m'.waiters ensures WaiterInv(m', v) {
      assert WaiterInv(m, v);
      if v in m.pending.Values {
        var id: Request :| id in m.pending && m.pending[id] == v;
        assert InPending(m, v);
      } else {
        assert !InPending(m, v);
      }
    }
    if !m.slot.Empty? {
      assert WaiterInv(m, m.slot.ticket);
    }
  }

  lemma WithdrawnKeeps(m: Mail, w: Ticket)
    requires MailInv(m) && w in m.waiters
    ensures MailInv(m.Withdrawn(w))
  {
    var m' := m.Withdrawn(w);
    forall v | v in m'.waiters ensures WaiterInv(m', v) {
      assert WaiterInv(m, v);
      assert v != w ==> m.waiters[v].id != m.waiters[w].id;
    }
  }

  lemma TakenKeeps(m: Mail)
    requires MailInv(m) && m.batch != [] && m.slot.Empty?
    ensures MailInv(m.Taken())
  {
    var m', id := m.Taken(), m.batch[0].forId;
    if id in m.pending {
      assert WaiterInv(m, m.pending[id]);
    }
    forall v | v in m'.waiters ensures WaiterInv(m', v) {
      assert WaiterInv(m, v);
    }
  }

  lemma FilledKeeps(m: Mail)
    requires MailInv(m) && m.slot.Popped?
    ensures MailInv(m.Filled())
  {
    var m' := m.Filled();
    forall v | v in m'.waiters ensures WaiterInv(m', v) {
      assert WaiterInv(m, v);
    }
  }

  lemma SignalledKeeps(m: Mail)
    requires MailInv(m) && m.slot.Written?
    ensures MailInv(m.Signalled())
  {
    var m' := m.Signalled();
    forall v | v in m'.waiters ensures WaiterInv(m', v) {
      assert WaiterInv(m, v);
    }
  }

  lemma MailStep(s: State, t: Thread, a: Action)
    requires MailInv(s.mail) && Enabled(s, t, a)
    ensures MailInv(MailAfter(s, t, a))
  {
    hide MailInv, Mail.Registered, Mail.Woken, Mail.Withdrawn, Mail.Polled, Mail.Taken, Mail.Filled, Mail.Signalled;
    match a
    case EndSend(id, w) => RegisteredKeeps(s.mail, id, w);
    case CloseMark => WokenKeeps(s.mail);
    case Withdraw => WithdrawnKeeps(s.mail, Last(s.Of(t)).ticket);
    case Poll(responses) => PolledKeeps(s.mail, responses);
    case TakeNext => TakenKeeps(s.mail);
    case Fill => FilledKeeps(s.mail);
    case Signal => SignalledKeeps(s.mail);
    case _ =>
  }

  lemma PolledKeeps(m: Mail, responses: seq<Response>)
    requires MailInv(m)
    ensures MailInv(m.Polled(responses))
  {
    var m' := m.Polled(responses);
    forall v | v in m'.waiters ensures WaiterInv(m', v) {
      assert WaiterInv(m, v);
    }
  }

  /** A send cannot be interrupted by a close, since it calls nothing back; so nothing can be added to
      `pending` behind a close's back. */
  ghost predicate SendInv(s: State) {
    && (forall t: Thread :: s.Top(t, Native(Send)) ==> !s.node.closed)
    && (forall t: Thread :: s.Of(t) != [] ==> Native(Send) !in Below(s.Of(t)))
    && (s.node.closed ==> s.mail.pending == map[])
  }

  /** Whoever holds a ticket holds one that was issued. */
  predicate TicketKnown(f: Frame, m: Mail) {
    (f.Awaiting? || f.Withdrawing?) ==> f.ticket in m.waiters
  }

  ghost predicate TicketInv(s: State) {
    forall t: Thread, f <- s.Of(t) :: TicketKnown(f, s.mail)
  }

  /** A thread's own stack keeps a send on top, and a send only gets there while the endpoint is open. */
  lemma SendAfter(s: State, t: Thread, a: Action)
    requires Enabled(s, t, a)
    requires s.Of(t) != [] ==> Native(Send) !in Below(s.Of(t))
    ensures var st' := StackAfter(s, t, a);
            st' != [] ==>
              && Native(Send) !in Below(st')
              && (Last(st') == Native(Send) && a != BeginCall(Send) ==> st' == s.Of(t))
              && (Last(st') == Native(Send) && s.node.closed ==> st' == s.Of(t))
  {
    hide Mail.Fresh, Mail.HasOutcome, Lock.FreeFor;
    var st, st' := s.Of(t), StackAfter(s, t, a);
    if st != [] {
      assert st == Below(st) + [Last(st)];
    }
    if st' != [] {
      assert Below(st') == st || Below(st') == Below(st) || st' == Below(st) || st' == st;
      assert Last(st') in st';
      assert forall f :: f in Below(st') ==> f in st';
    }
  }

  lemma SendStep(s: State, t: Thread, a: Action)
    requires LockInv(s) && SendInv(s) && Enabled(s, t, a)
    ensures SendInv(Apply(s, t, a))
  {
    hide Natives, StackAfter, MailAfter, LockAfter, ClosersAfter, RanAfter, Mail.Fresh, Mail.HasOutcome;
    var s' := Apply(s, t, a);
    assert forall u: Thread :: u != t ==> s'.Of(u) == s.Of(u);
    SendAfter(s, t, a);
    forall u: Thread | s'.Top(u, Native(Send)) ensures !s'.node.closed {
      assert u != t ==> s.Top(u, Native(Send));
      if s.Top(u, Native(Send)) {
        NativeOnTop(s, u);
      }
    }
    PendingAfter(s, t, a);
  }

  lemma PendingAfter(s: State, t: Thread, a: Action)
    requires SendInv(s) && Enabled(s, t, a)
    ensures NodeAfter(s, t, a).closed ==> MailAfter(s, t, a).pending == map[]
  {
    hide StackAfter, Mail.Fresh, Mail.HasOutcome;
  }

  lemma TicketStep(s: State, t: Thread, a: Action)
    requires TicketInv(s) && Enabled(s, t, a)
    ensures TicketInv(Apply(s, t, a))
  {
    hide NodeAfter, LockAfter, ClosersAfter, RanAfter, TicketKnown, Mail.Fresh;
    var s' := Apply(s, t, a);
    WaitersGrow(s, t, a);
    forall u: Thread, f | f in s'.Of(u) ensures TicketKnown(f, s'.mail) {
      assert u != t ==> s'.Of(u) == s.Of(u);
      assert f in s.Of(u) ==> TicketKnown(f, s.mail);
      NewFrame(s, t, a, f);
    }
  }

  lemma WaitersGrow(s: State, t: Thread, a: Action)
    requires Enabled(s, t, a)
    ensures forall w <- s.mail.waiters :: w in MailAfter(s, t, a).waiters
    ensures forall f :: TicketKnown(f, s.mail) ==> TicketKnown(f, MailAfter(s, t, a))
  {
  }

  lemma NewFrame(s: State, t: Thread, a: Action, f: Frame)
    requires Enabled(s, t, a) && TicketInv(s)
    ensures f in StackAfter(s, t, a) && f !in s.Of(t) ==> TicketKnown(f, MailAfter(s, t, a))
  {
    var st := s.Of(t);
    if a.WaitExpires? {
      assert TicketKnown(Last(st), s.mail);
    }
  }

  // ---- every run is safe ----

  ghost predicate Inv(s: State) {
    LockInv(s) && FreeInv(s) && HookInv(s) && MailInv(s.mail) && SendInv(s) && TicketInv(s)
  }

  lemma StepIsSafe(s: State, t: Thread, a: Action)
    requires Inv(s) && Enabled(s, t, a)
    ensures Inv(Apply(s, t, a))
  {
    hide LockInv, FreeInv, HookInv, MailInv, SendInv, TicketInv;
    LockStep(s, t, a);
    FreeStep(s, t, a);
    HookStep(s, t, a);
    MailStep(s, t, a);
    SendStep(s, t, a);
    TicketStep(s, t, a);
  }

  lemma InitialIsSafe()
    ensures Inv(Initial)
  {
  }

  /** Every invariant holds in every state of every interleaving. */
  lemma ReachableIsSafe(s: State)
    requires Reachable(s)
    ensures Inv(s)
  {
    hide Enabled, Apply, Inv;
    InitialIsSafe();
    forall s, s' | Inv(s) && Steps(s, s') ensures Inv(s') {
      var t: Thread, a :| Enabled(s, t, a) && s' == Apply(s, t, a);
      StepIsSafe(s, t, a);
    }
    InvariantOfReachable(s, Initial, Steps, Inv);
  }

  lemma ReachStep(s: State, t: Thread, a: Action)
    requires Reachable(s) && Enabled(s, t, a)
    ensures Reachable(Apply(s, t, a))
  {
    hide Enabled, Apply;
    assert Steps(s, Apply(s, t, a));
    NextReachable(s, Apply(s, t, a), Initial, Steps);
  }

  lemma InitialReachable()
    ensures Reachable(Initial)
  {
    FirstReachable(Initial, Steps);
  }

  // ---- what that means ----

  /** The node is freed at most once, never with a native call on any stack, and exactly once by the
      time it is closed, every close has finished and every native call has returned. */
  lemma NodeFreedOnce(s: State)
    requires Reachable(s)
    ensures s.node.frees <= 1
    ensures s.node.frees == 1 ==> s.node.closed && forall t: Thread :: Natives(s.Of(t)) == 0
    ensures s.node.closed && (forall t: Thread :: Natives(s.Of(t)) == 0 && !HasClosing(s.Of(t)))
            ==> s.node.frees == 1
  {
    ReachableIsSafe(s);
  }

  /** After close marks the endpoint closed it stays closed and no native call starts on any thread. */
  lemma NoCallAfterClose(s: State, t: Thread, a: Action, u: Thread)
    requires Enabled(s, t, a) && s.node.closed
    ensures Apply(s, t, a).node.closed
    ensures Natives(Apply(s, t, a).Of(u)) <= Natives(s.Of(u))
  {
    hide Natives, Mail.Fresh, Mail.HasOutcome;
    NativesAfter(s, t, a);
    assert u != t ==> Apply(s, t, a).Of(u) == s.Of(u);
  }

  /** Exactly which steps free the node: a close that finishes with no native call under way, or the
      return of the last native call of a closed endpoint. A close made from inside a native call frees
      nothing itself. */
  lemma FreeingStep(s: State, t: Thread, a: Action)
    requires Reachable(s) && Enabled(s, t, a)
    ensures Apply(s, t, a).node.frees > s.node.frees <==>
            && !s.node.nodeFreed && s.node.closed
            && ((a.CloseFinish? && s.node.nativeCalls == 0)
                || ((a.EndCall? || a.EndSend?) && s.node.nativeCalls == 1))
  {
    hide StackAfter, MailAfter, LockAfter, RanAfter, Natives, Mail.Fresh, Mail.HasOutcome;
    ReachableIsSafe(s);
    if a.CloseFinish? {
      assert Last(s.Of(t)) in s.Of(t);
      assert HasClosing(s.Of(t));
    }
  }

  /** No hook ever runs twice, and once the endpoint is closed and no thread is still closing or
      registering, every hook registered has run exactly once. */
  lemma HooksRunOnce(s: State)
    requires Reachable(s)
    ensures forall h: Hook :: s.ran[h] <= if h in s.issued then 1 else 0
    ensures s.node.closed && (forall t: Thread, f <- s.Of(t) :: !f.Closing? && !f.Firing?)
            ==> forall h: Hook :: s.ran[h] == if h in s.issued then 1 else 0
  {
    hide Held, Carried;
    ReachableIsSafe(s);
    if s.node.closed && (forall t: Thread, f <- s.Of(t) :: !f.Closing? && !f.Firing?) {
      forall h: Hook ensures Held(s.stacks, h) == 0 {
        forall t: Thread | t in s.stacks ensures Carried(s.stacks[t], h) == 0 {
          assert s.Of(t) == s.stacks[t];
          NothingCarried(s.stacks[t], h);
        }
        NothingHeld(s.stacks, h);
      }
    }
  }

  lemma {:induction false} NothingCarried(st: Stack, h: Hook)
    requires forall f <- st :: !f.Closing? && !f.Firing?
    ensures Carried(st, h) == 0
  {
    if st != [] {
      assert Last(st) in st;
      NothingCarried(Below(st), h);
    }
  }

  lemma {:induction false} NothingHeld(stacks: map<Thread, Stack>, h: Hook)
    requires forall t <- stacks :: Carried(stacks[t], h) == 0
    ensures Held(stacks, h) == 0
  {
    hide Carried;
    if stacks != map[] {
      var t: Thread :| t in stacks && Held(stacks, h) == Carried(stacks[t], h) + Held(stacks - {t}, h);
      NothingHeld(stacks - {t}, h);
    }
  }

  /** A request that has not timed out is in exactly one place: on `pending`, with the pump, or
      signalled. Its holder is written at most once, with "closed" or a response polled for its own id.
      After close, only the waiter the pump has already taken can still be unsignalled. */
  lemma WaiterInOnePlace(s: State, w: Ticket)
    requires Reachable(s) && w in s.mail.waiters
    ensures var x := s.mail.waiters[w];
            && (!x.timedOut ==>
                  && (InPending(s.mail, w) || InSlot(s.mail, w) || x.event)
                  && !(InPending(s.mail, w) && InSlot(s.mail, w))
                  && !(InPending(s.mail, w) && x.event) && !(InSlot(s.mail, w) && x.event))
            && x.writes <= 1
            && (x.event ==> Settled(x))
            && (x.response.Some? ==> x.response.value in s.mail.polled)
            && (s.node.closed && !x.event && !x.timedOut ==> InSlot(s.mail, w))
  {
    hide LockInv, FreeInv, HookInv, TicketInv;
    ReachableIsSafe(s);
    assert WaiterInv(s.mail, w);
  }

  /** Once written, a holder never changes again, whatever is polled again later. */
  lemma HolderIsFinal(s: State, t: Thread, a: Action, w: Ticket)
    requires Reachable(s) && Enabled(s, t, a) && w in s.mail.waiters && s.mail.waiters[w].writes == 1
    ensures w in Apply(s, t, a).mail.waiters
    ensures var x, x' := s.mail.waiters[w], Apply(s, t, a).mail.waiters[w];
            x'.closed == x.closed && x'.response == x.response && x'.writes == 1
  {
    hide LockInv, FreeInv, HookInv, TicketInv, SendInv, StackAfter, LockAfter, RanAfter;
    ReachableIsSafe(s);
    assert WaiterInv(s.mail, w);
  }

  /** A waiter that is neither signalled nor given up, and that nobody will ever signal. */
  predicate Stranded(m: Mail, w: Ticket) {
    && w in m.waiters && !m.waiters[w].event && !m.waiters[w].timedOut
    && !InPending(m, w) && !InSlot(m, w)
  }

  // ---- request ids handed out twice ----

  /** Runs of the same machine when libhop may hand out a request id again. */
  ghost predicate StepsReusing(s: State, s': State) {
    exists t: Thread, a :: Possible(s, t, a) && s' == Apply(s, t, a)
  }

  ghost predicate ReachableReusing(s: State) {
    ReachableBy(s, Initial, StepsReusing)
  }

  /** What is left of the waiter invariant: an entry of `pending` stands under its waiter's own id, and
      that waiter is still waiting there and nowhere else. */
  ghost predicate PendingInv(m: Mail) {
    && (forall id <- m.pending ::
          var w := m.pending[id];
          && w in m.waiters && m.waiters[w].id == id
          && !m.waiters[w].event && !m.waiters[w].timedOut && !InSlot(m, w))
    && (!m.slot.Empty? ==> m.slot.ticket in m.waiters)
  }

  lemma PendingStep(s: State, t: Thread, a: Action)
    requires PendingInv(s.mail) && Possible(s, t, a)
    ensures PendingInv(MailAfter(s, t, a))
  {
    hide Lock.FreeFor, Mail.HasOutcome;
  }

  lemma ReusingKeepsPending(s: State)
    requires ReachableReusing(s)
    ensures PendingInv(s.mail)
  {
    hide Possible, Apply, PendingInv;
    assert PendingInv(Initial.mail) by { NothingPending(); }
    forall u: State, v: State | PendingInv(u.mail) && StepsReusing(u, v) ensures PendingInv(v.mail) {
      var t: Thread, a :| Possible(u, t, a) && v == Apply(u, t, a);
      PendingStep(u, t, a);
      AppliedMail(u, t, a);
    }
    InvariantOfReachable(s, Initial, StepsReusing, (u: State) => PendingInv(u.mail));
  }

  lemma NothingPending()
    ensures PendingInv(Initial.mail)
  {
  }

  lemma AppliedMail(s: State, t: Thread, a: Action)
    requires Possible(s, t, a)
    ensures Apply(s, t, a).mail == MailAfter(s, t, a)
  {
  }

  /** The step takes the entry of `pending` that waiter `w` has, for another waiter with the same id. */
  predicate TakesEntry(s: State, t: Thread, a: Action, w: Ticket)
    requires Possible(s, t, a)
  {
    match a
    case EndSend(id, _) => id in s.mail.pending && s.mail.pending[id] == w
    case Withdraw =>
      var v := Last(s.Of(t)).ticket;
      v != w && s.mail.waiters[v].id in s.mail.pending && s.mail.pending[s.mail.waiters[v].id] == w
    case _ => false
  }

  /** Fresh request ids are needed. Exactly which steps strand a waiter when ids may be reused, in every
      state of every interleaving: a registration under the id it is pending under, and the withdrawal
      of an earlier request with that id. */
  lemma ReuseStrandsIff(s: State, t: Thread, a: Action, w: Ticket)
    requires ReachableReusing(s) && Possible(s, t, a) && !Stranded(s.mail, w)
    ensures Stranded(Apply(s, t, a).mail, w) <==> TakesEntry(s, t, a, w)
  {
    ReusingKeepsPending(s);
    AppliedMail(s, t, a);
    hide Apply, ReachableReusing, Lock.FreeFor, Mail.HasOutcome;
  }

  /** Nobody ever signals a stranded waiter: it stays stranded until it gives up. */
  lemma StrandedForGood(s: State, t: Thread, a: Action, w: Ticket)
    requires ReachableReusing(s) && Possible(s, t, a) && Stranded(s.mail, w)
    ensures Stranded(Apply(s, t, a).mail, w)
            || (a.Withdraw? && Last(s.Of(t)).ticket == w && Apply(s, t, a).mail.waiters[w].timedOut)
  {
    ReusingKeepsPending(s);
    AppliedMail(s, t, a);
    hide Apply, ReachableReusing, Lock.FreeFor, Mail.HasOutcome;
  }

  /** While ids are fresh nobody is ever stranded. */
  lemma FreshStrandsNobody(s: State, w: Ticket)
    requires Reachable(s)
    ensures !Stranded(s.mail, w)
  {
    hide LockInv, FreeInv, HookInv, SendInv, TicketInv, Reachable;
    ReachableIsSafe(s);
    assert w in s.mail.waiters ==> WaiterInv(s.mail, w);
  }
}
