/** The endpoint object itself. Each method is one critical section of the original, or a stretch of
    code between two, and its contract says which step of a run it performs. An object made by the
    constructor and driven by `Perform` is therefore always in a reachable state, and everything proved
    of reachable states holds of it. */
module HopEndpoint {
  import opened Bytes
  import opened Endpoint
  import opened EndpointRuns

  /** How many of the hooks raise. */
  function Failures(hooks: seq<Hook>, Raises: Hook -> bool): nat {
    if hooks == [] then 0 else Failures(hooks[1..], Raises) + if Raises(hooks[0]) then 1 else 0
  }

  class HopEndpoint {
    var closed: bool
    var nativeCalls: int
    var nodeFreed: bool
    ghost var frees: nat
    var lockOwner: Option<Thread>
    var lockDepth: int
    var pending: map<Request, Ticket>
    var holders: map<Ticket, Waiter>
    var closers: seq<Hook>
    ghost var polled: set<Response>
    ghost var issued: set<Hook>
    ghost var ran: multiset<Hook>

    // Locals: what each thread is in the middle of, and what the pump has in hand.
    var stacks: map<Thread, Stack>
    var batch: seq<Response>
    var slot: Slot

    ghost function NodeView(): Node
      reads this
    {
      Node(closed, nativeCalls, nodeFreed, frees)
    }

    ghost function LockView(): Lock
      reads this
    {
      Lock(lockOwner, lockDepth)
    }

    ghost function MailView(): Mail
      reads this
    {
      Mail(pending, holders, polled, batch, slot)
    }

    ghost function View(): State
      reads this
    {
      State(NodeView(), LockView(), stacks, closers, issued, ran, MailView())
    }

    /** The object is where some interleaving of its threads has led it. */
    ghost predicate Valid()
      reads this
    {
      Reachable(View())
    }

    constructor ()
      ensures Valid() && View() == Initial
    {
      closed, nativeCalls, nodeFreed, frees := false, 0, false, 0;
      lockOwner, lockDepth := None, 0;
      pending, holders, closers, polled, issued, ran := map[], map[], [], {}, {}, multiset{};
      stacks, batch, slot := map[], [], Empty;
      new;
      InitialReachable();
    }

    // ---- pieces ----

    method Acquire(t: Thread)
      requires LockView().FreeFor(t)
      modifies this`lockOwner, this`lockDepth
      ensures LockView() == old(LockView()).Acquired(t)
    {
      lockOwner, lockDepth := Some(t), lockDepth + 1;
    }

    method Release()
      modifies this`lockOwner, this`lockDepth
      ensures LockView() == old(LockView()).Released()
    {
      lockDepth := lockDepth - 1;
      if lockDepth == 0 {
        lockOwner := None;
      }
    }

    method FreeNodeLocked()
      modifies this`nodeFreed, this`frees
      ensures NodeView() == old(NodeView()).Freed()
    {
      if nodeFreed {
        return;
      }
      frees := frees + 1;
      nodeFreed := true;
    }

    /** The end of _call_node_locked, and with it of the lock's block. */
    method LeaveCall()
      modifies this`lockOwner, this`lockDepth, this`nativeCalls, this`nodeFreed, this`frees
      ensures NodeView() == old(NodeView()).Left() && LockView() == old(LockView()).Released()
    {
      nativeCalls := nativeCalls - 1;
      if closed && nativeCalls == 0 {
        FreeNodeLocked();
      }
      Release();
    }

    /** Writes "closed" into the holder of every pending waiter and sets its event. */
    method WakePending()
      requires pending.Values <= holders.Keys
      modifies this`holders
      ensures holders == map w | w in old(holders) ::
                if w in pending.Values then Woke(old(holders)[w]) else old(holders)[w]
    {
      ghost var was := holders;
      var todo := pending.Values;
      while todo != {}
        invariant todo <= pending.Values && holders.Keys == was.Keys
        invariant forall w <- was :: holders[w] == if w in pending.Values && w !in todo then Woke(was[w]) else was[w]
        decreases |todo|
      {
        var w :| w in todo;
        holders := holders[w := Woke(holders[w])];
        todo := todo - {w};
      }
    }

    /** Marks the endpoint closed, takes the hooks and wakes every pending waiter. */
    method MarkClosed() returns (hooks: seq<Hook>)
      requires pending.Values <= holders.Keys
      modifies this`closed, this`closers, this`pending, this`holders
      ensures NodeView() == old(NodeView()).(closed := true)
      ensures hooks == old(closers) && closers == []
      ensures MailView() == old(MailView()).Woken()
    {
      closed := true;
      hooks, closers := closers, [];
      WakePending();
      pending := map[];
    }

    /** A waiter joins `pending`. */
    method AddWaiter(id: Request, w: Ticket)
      modifies this`pending, this`holders
      ensures MailView() == old(MailView()).Registered(id, w)
    {
      holders := holders[w := Waiter(id, false, false, None, 0, false)];
      pending := pending[id := w];
    }

    /** The pump pops the waiter of the next response, if it is still there. */
    method PopNext()
      requires batch != []
      modifies this`pending, this`batch, this`slot
      ensures MailView() == old(MailView()).Taken()
    {
      var r := batch[0];
      batch := batch[1..];
      if r.forId in pending {
        slot := Popped(pending[r.forId], r);
        pending := pending - {r.forId};
      }
    }

    function Of(t: Thread): Stack
      reads this`stacks
      ensures Of(t) == View().Of(t)
    {
      if t in stacks then stacks[t] else []
    }

    /** The thread goes on to what `st` says. */
    method Continue(t: Thread, st: Stack)
      modifies this`stacks
      ensures stacks == old(stacks)[t := st]
    {
      stacks := stacks[t := st];
    }

    // ---- native calls ----

    /** The way into a native call. A closed endpoint refuses and lets go of the lock. */
    method BeginCall(t: Thread, kind: Kind) returns (refused: bool)
      requires Valid() && Enabled(View(), t, Action.BeginCall(kind))
      modifies this
      ensures Valid() && View() == Apply(old(View()), t, Action.BeginCall(kind))
      ensures refused == old(closed)
    {
      Rebalanced(View(), t);
      ReachStep(View(), t, Action.BeginCall(kind));
      hide Reachable, Lock.Acquired, Lock.Released;
      Acquire(t);
      refused := closed;
      if closed {
        Release();
        Continue(t, Of(t));
      } else {
        nativeCalls := nativeCalls + 1;
        Continue(t, Of(t) + [Native(kind)]);
      }
    }

    /** The way out, whether the native call returned or raised. */
    method EndCall(t: Thread)
      requires Valid() && Enabled(View(), t, Action.EndCall)
      modifies this
      ensures Valid() && View() == Apply(old(View()), t, Action.EndCall)
    {
      ReachStep(View(), t, Action.EndCall);
      hide Reachable, Node.Left, Lock.Released;
      LeaveCall();
      Continue(t, Below(Of(t)));
    }

    /** The native call that sent request `id` returns: before the lock is let go, its waiter joins
        `pending`. */
    method EndSend(t: Thread, id: Request, w: Ticket)
      requires Valid() && Enabled(View(), t, Action.EndSend(id, w))
      modifies this
      ensures Valid() && View() == Apply(old(View()), t, Action.EndSend(id, w))
    {
      ReachStep(View(), t, Action.EndSend(id, w));
      hide Reachable, Mail.Registered, Mail.Fresh, Node.Left, Lock.Released;
      AddWaiter(id, w);
      LeaveCall();
      Continue(t, Below(Of(t)) + [Awaiting(w)]);
    }

    // ---- close and its hooks ----

    /** _register_closer; `fire` tells the caller to run the hook itself, the endpoint being closed. */
    method TakeHook(t: Thread, hook: Hook) returns (fire: bool)
      requires Valid() && Enabled(View(), t, Register(hook))
      modifies this
      ensures Valid() && View() == Apply(old(View()), t, Register(hook))
      ensures fire == old(closed)
    {
      ReachStep(View(), t, Register(hook));
      hide Reachable, Lock.FreeFor;
      fire := closed;
      issued := issued + {hook};
      if !closed {
        closers := closers + [hook];
        Continue(t, Of(t));
      } else {
        Continue(t, Of(t) + [Firing(hook)]);
      }
    }

    /** Registers a teardown hook, which from then on is in one place: in the list of a close to come,
        or, the endpoint being closed, with the caller, who is to run it. */
    method RegisterCloser(t: Thread, hook: Hook) returns (fire: bool)
      requires Valid() && Enabled(View(), t, Register(hook))
      modifies this
      ensures Valid() && View() == Apply(old(View()), t, Register(hook))
      ensures multiset(closers)[hook] == (if fire then 0 else 1)
      ensures Held(stacks, hook) == Carried(Of(t), hook) == (if fire then 1 else 0)
      ensures ran[hook] == 0
    {
      hide Reachable, Enabled, Apply, Held, Carried;
      HookPlaced(View(), t, hook);
      fire := TakeHook(t, hook);
    }

    /** close(), first section: mark, take the hooks, wake every pending waiter. */
    method CloseMark(t: Thread) returns (first: bool)
      requires Valid() && Enabled(View(), t, Action.CloseMark)
      modifies this
      ensures Valid() && View() == Apply(old(View()), t, Action.CloseMark)
      ensures first == !old(closed)
    {
      PendingKnown(View());
      ReachStep(View(), t, Action.CloseMark);
      hide Reachable, Mail.Woken, Lock.FreeFor;
      first := !closed;
      if closed {
        Continue(t, Of(t));
      } else {
        var hooks := MarkClosed();
        Continue(t, Of(t) + [Closing(hooks)]);
      }
    }

    /** close() takes the next of its hooks and runs it. */
    method RunHook(t: Thread) returns (hook: Hook)
      requires Valid() && Enabled(View(), t, Action.RunHook)
      modifies this
      ensures Valid() && View() == Apply(old(View()), t, Action.RunHook)
      ensures hook == old(Last(Of(t)).hooks[0])
    {
      ReachStep(View(), t, Action.RunHook);
      hide Reachable;
      var hooks := Last(Of(t)).hooks;
      hook := hooks[0];
      ran := ran + multiset{hook};
      Continue(t, Below(Of(t)) + [Closing(hooks[1..])]);
    }

    /** close(), last section. */
    method CloseFinish(t: Thread)
      requires Valid() && Enabled(View(), t, Action.CloseFinish)
      modifies this
      ensures Valid() && View() == Apply(old(View()), t, Action.CloseFinish)
    {
      ReachStep(View(), t, Action.CloseFinish);
      hide Reachable;
      if nativeCalls == 0 {
        FreeNodeLocked();
      }
      Continue(t, Below(Of(t)));
    }

    /** The hooks close() took all run, in order, each once, whichever of them raise. `Raises` says
        which do. */
    method RunHooks(t: Thread, Raises: Hook -> bool) returns (swallowed: nat)
      requires Valid() && Of(t) != [] && Last(Of(t)).Closing?
      modifies this
      ensures Valid() && Of(t) == Below(old(Of(t))) + [Closing([])]
      ensures ran == old(ran) + multiset(old(Last(Of(t)).hooks))
      ensures View() == old(View()).(stacks := stacks, ran := ran)
      ensures swallowed == Failures(old(Last(Of(t)).hooks), Raises)
    {
      hide Reachable, Enabled, Apply, Failures;
      swallowed := 0;
      while Last(Of(t)).hooks != []
        invariant Valid() && Of(t) != [] && Last(Of(t)).Closing? && Below(Of(t)) == Below(old(Of(t)))
        invariant View() == old(View()).(stacks := stacks, ran := ran)
        invariant ran + multiset(Last(Of(t)).hooks) == old(ran) + multiset(old(Last(Of(t)).hooks))
        invariant swallowed + Failures(Last(Of(t)).hooks, Raises) == Failures(old(Last(Of(t)).hooks), Raises)
        decreases |Last(Of(t)).hooks|
      {
        NextHook(View(), t, Raises);
        var hook := RunHook(t);
        if Raises(hook) {
          swallowed := swallowed + 1;
        }
      }
      NoHooks(Of(t), Raises);
    }

    /** close() where nobody interrupts it. The first one runs every hook once, whichever of them raise,
        tells every pending waiter that the endpoint is closed, and frees the node unless it was called
        from inside a native call; a second one changes nothing. */
    method Close(t: Thread, Raises: Hook -> bool) returns (swallowed: nat)
      requires Valid() && Enabled(View(), t, Action.CloseMark)
      modifies this
      ensures Valid() && closed && Of(t) == old(Of(t))
      ensures old(closed) ==> View() == old(View()).(stacks := stacks)
      ensures !old(closed) ==>
                && ran == old(ran) + multiset(old(closers)) && closers == []
                && frees == (if old(nativeCalls) == 0 then 1 else 0)
                && MailView() == old(MailView()).Woken()
                && swallowed == Failures(old(closers), Raises)
    {
      hide Reachable, Mail.Woken, Enabled, Apply;
      ghost var was := View();
      CloseMarkEffect(was, t);
      var first := CloseMark(t);
      if !first {
        return 0;
      }
      ghost var marked := View();
      swallowed := RunHooks(t, Raises);
      ghost var mid := View();
      CloseWhole(was, marked, mid, t);
      hide State.Of, Below, Last;
      CloseFinish(t);
    }

    // ---- the rest of a request, and the pump ----

    method FireHook(t: Thread)
      requires Valid() && Enabled(View(), t, Action.FireHook)
      modifies this
      ensures Valid() && View() == Apply(old(View()), t, Action.FireHook)
    {
      ReachStep(View(), t, Action.FireHook);
      hide Reachable;
      ran := ran + multiset{Last(Of(t)).hook};
      Continue(t, Below(Of(t)));
    }

    method WaitOver(t: Thread)
      requires Valid() && Enabled(View(), t, Action.WaitOver)
      modifies this
      ensures Valid() && View() == Apply(old(View()), t, Action.WaitOver)
    {
      ReachStep(View(), t, Action.WaitOver);
      hide Reachable;
      Continue(t, Below(Of(t)));
    }

    method WaitExpires(t: Thread)
      requires Valid() && Enabled(View(), t, Action.WaitExpires)
      modifies this
      ensures Valid() && View() == Apply(old(View()), t, Action.WaitExpires)
    {
      ReachStep(View(), t, Action.WaitExpires);
      hide Reachable;
      Continue(t, Below(Of(t)) + [Withdrawing(Last(Of(t)).ticket)]);
    }

    method Withdraw(t: Thread)
      requires Valid() && Enabled(View(), t, Action.Withdraw)
      modifies this
      ensures Valid() && View() == Apply(old(View()), t, Action.Withdraw)
    {
      ReachStep(View(), t, Action.Withdraw);
      hide Reachable;
      var w := Last(Of(t)).ticket;
      pending := pending - {holders[w].id};
      holders := holders[w := holders[w].(timedOut := true)];
      Continue(t, Below(Of(t)));
    }

    method Poll(t: Thread, responses: seq<Response>)
      requires Valid() && Enabled(View(), t, Action.Poll(responses))
      modifies this
      ensures Valid() && View() == Apply(old(View()), t, Action.Poll(responses))
    {
      ReachStep(View(), t, Action.Poll(responses));
      hide Reachable;
      batch, polled := responses, polled + set r <- responses;
      Continue(t, Of(t));
    }

    method TakeNext(t: Thread)
      requires Valid() && Enabled(View(), t, Action.TakeNext)
      modifies this
      ensures Valid() && View() == Apply(old(View()), t, Action.TakeNext)
    {
      ReachStep(View(), t, Action.TakeNext);
      hide Reachable, Mail.Taken, Lock.FreeFor;
      PopNext();
      Continue(t, Of(t));
    }

    method Fill(t: Thread)
      requires Valid() && Enabled(View(), t, Action.Fill)
      modifies this
      ensures Valid() && View() == Apply(old(View()), t, Action.Fill)
    {
      ReachStep(View(), t, Action.Fill);
      hide Reachable;
      var w := slot.ticket;
      holders := holders[w := holders[w].(response := Some(slot.response), writes := holders[w].writes + 1)];
      slot := Written(w);
      Continue(t, Of(t));
    }

    method Signal(t: Thread)
      requires Valid() && Enabled(View(), t, Action.Signal)
      modifies this
      ensures Valid() && View() == Apply(old(View()), t, Action.Signal)
    {
      ReachStep(View(), t, Action.Signal);
      hide Reachable;
      holders := holders[slot.ticket := holders[slot.ticket].(event := true)];
      slot := Empty;
      Continue(t, Of(t));
    }

    // ---- any step ----

    /** Whatever step a thread can take, the object's own code takes it. */
    method Perform(t: Thread, a: Action)
      requires Valid() && Enabled(View(), t, a)
      modifies this
      ensures Valid() && View() == Apply(old(View()), t, a)
    {
      hide Reachable, Enabled, Apply;
      match a {
        case BeginCall(kind) => var refused := BeginCall(t, kind);
        case EndCall => EndCall(t);
        case EndSend(id, w) => EndSend(t, id, w);
        case CloseMark => var first := CloseMark(t);
        case RunHook => var hook := RunHook(t);
        case CloseFinish => CloseFinish(t);
        case Register(hook) => var fire := RegisterCloser(t, hook);
        case FireHook => FireHook(t);
        case WaitOver => WaitOver(t);
        case WaitExpires => WaitExpires(t);
        case Withdraw => Withdraw(t);
        case Poll(responses) => Poll(t, responses);
        case TakeNext => TakeNext(t);
        case Fill => Fill(t);
        case Signal => Signal(t);
      }
    }
  }

  // ---- what the methods rely on ----

  lemma Rebalanced(s: State, t: Thread)
    requires Reachable(s) && s.lock.FreeFor(t)
    ensures s.lock.Acquired(t).Released() == s.lock
  {
    hide FreeInv, HookInv, MailInv, SendInv, TicketInv, Reachable;
    ReachableIsSafe(s);
  }

  lemma CloseMarkEffect(s: State, t: Thread)
    requires Enabled(s, t, CloseMark)
    ensures var s' := Apply(s, t, CloseMark);
            && s.lock.FreeFor(t)
            && if s.node.closed then s' == s.(stacks := s'.stacks) && s'.Of(t) == s.Of(t)
               else
                 && s' == s.(node := s.node.(closed := true), stacks := s'.stacks, closers := [], mail := s.mail.Woken())
                 && s'.Of(t) == s.Of(t) + [Closing(s.closers)]
  {
    hide Mail.Woken, Lock.FreeFor;
  }

  lemma CloseFinishEffect(s: State, t: Thread)
    requires s.Top(t, Closing([])) && s.lock.FreeFor(t)
    ensures Enabled(s, t, CloseFinish)
    ensures var s' := Apply(s, t, CloseFinish);
            s' == s.(node := s.node.Finished(), stacks := s'.stacks) && s'.Of(t) == Below(s.Of(t))
  {
  }

  /** The three stretches of an uninterrupted first close, put together. */
  lemma CloseWhole(was: State, marked: State, mid: State, t: Thread)
    requires Reachable(was) && !was.node.closed && Enabled(was, t, CloseMark) && marked == Apply(was, t, CloseMark)
    requires mid == marked.(stacks := mid.stacks, ran := mid.ran)
    requires mid.Of(t) == Below(marked.Of(t)) + [Closing([])]
    ensures marked.Of(t) == was.Of(t) + [Closing(was.closers)] && Last(marked.Of(t)).hooks == was.closers
    ensures Enabled(mid, t, CloseFinish)
    ensures var end := Apply(mid, t, CloseFinish);
            && end.node.closed && end.node.frees == (if was.node.nativeCalls == 0 then 1 else 0)
            && end.Of(t) == was.Of(t) && end.closers == [] && end.mail == was.mail.Woken() && end.ran == mid.ran
  {
    OpenIsUnfreed(was);
    hide Reachable, Mail.Woken, Enabled, Apply;
    CloseMarkEffect(was, t);
    CloseFinishEffect(mid, t);
  }

  /** What taking the next hook does to the stack and to what is still to run. */
  lemma NextHook(s: State, t: Thread, Raises: Hook -> bool)
    requires s.Of(t) != [] && Last(s.Of(t)).Closing? && Last(s.Of(t)).hooks != []
    ensures Enabled(s, t, RunHook)
    ensures var hooks, s' := Last(s.Of(t)).hooks, Apply(s, t, RunHook);
            && s' == s.(stacks := s'.stacks, ran := s.ran + multiset{hooks[0]})
            && s'.Of(t) != [] && Below(s'.Of(t)) == Below(s.Of(t)) && Last(s'.Of(t)) == Closing(hooks[1..])
            && multiset(hooks) == multiset{hooks[0]} + multiset(hooks[1..])
            && Failures(hooks, Raises) == Failures(hooks[1..], Raises) + if Raises(hooks[0]) then 1 else 0
  {
    var hooks := Last(s.Of(t)).hooks;
    assert hooks == [hooks[0]] + hooks[1..];
  }

  lemma NoHooks(st: Stack, Raises: Hook -> bool)
    requires st != [] && Last(st).Closing? && Last(st).hooks == []
    ensures st == Below(st) + [Closing([])] && Failures([], Raises) == 0
  {
  }

  lemma PendingKnown(s: State)
    requires Reachable(s)
    ensures s.mail.pending.Values <= s.mail.waiters.Keys
  {
    hide FreeInv, HookInv, LockInv, SendInv, TicketInv, Reachable;
    ReachableIsSafe(s);
  }

  lemma OpenIsUnfreed(s: State)
    requires Reachable(s)
    ensures !s.node.closed ==> s.node.frees == 0 && !s.node.nodeFreed
  {
    hide HookInv, MailInv, LockInv, SendInv, TicketInv, Reachable;
    ReachableIsSafe(s);
  }

  /** A hook not yet registered is nowhere. */
  lemma NewHook(s: State, t: Thread, hook: Hook)
    requires Reachable(s) && hook !in s.issued
    ensures multiset(s.closers)[hook] == Held(s.stacks, hook) == Carried(s.Of(t), hook) == s.ran[hook] == 0
  {
    ReachableIsSafe(s);
    hide FreeInv, MailInv, LockInv, SendInv, TicketInv, Held;
    assert multiset(s.closers)[hook] + Held(s.stacks, hook) + s.ran[hook] == 0;
    if t in s.stacks {
      HeldWithout(s.stacks, t, hook);
    }
  }

  /** Where registering a hook puts it. */
  lemma HookPlaced(s: State, t: Thread, hook: Hook)
    requires Reachable(s) && Enabled(s, t, Register(hook))
    ensures var s' := Apply(s, t, Register(hook));
            && multiset(s'.closers)[hook] == (if s.node.closed then 0 else 1)
            && Held(s'.stacks, hook) == Carried(s'.Of(t), hook) == (if s.node.closed then 1 else 0)
            && s'.ran[hook] == 0
  {
    NewHook(s, t, hook);
    CarriedAfter(s, t, Register(hook), hook);
    HeldUpdate(s, t, StackAfter(s, t, Register(hook)), hook);
    hide Reachable, Held, Carried, StackAfter, Lock.FreeFor;
  }
}
