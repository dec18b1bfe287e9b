/** What the endpoint's threads can always do: none is stuck, every call can be finished, and a response
    that libhop hands out reaches the request it answers. */
module EndpointProgress {
  import opened Bytes
  import opened Endpoint
  import opened EndpointRuns
  import Runs

  // ---- no thread is stuck ----

  /** What a thread can do next, once the lock is free for it. */
  function NextStep(s: State, t: Thread): Action {
    var st := s.Of(t);
    if st == [] then
      if t == PUMP && s.mail.slot.Popped? then Fill
      else if t == PUMP && s.mail.slot.Written? then Signal
      else CloseMark
    else
      match Last(st)
      case Native(_) => EndCall
      case Closing(hooks) => if hooks == [] then CloseFinish else RunHook
      case Firing(_) => FireHook
      case Awaiting(w) => if s.mail.HasOutcome(w) then WaitOver else WaitExpires
      case Withdrawing(_) => Withdraw
  }

  lemma NextStepEnabled(s: State, t: Thread)
    requires Reachable(s) && s.lock.FreeFor(t)
    ensures Enabled(s, t, NextStep(s, t))
  {
    hide LockInv, FreeInv, HookInv, SendInv, Reachable;
    ReachableIsSafe(s);
    if s.Of(t) != [] {
      assert TicketKnown(Last(s.Of(t)), s.mail);
    }
  }

  /** In every reachable state a thread can go on, or it waits for the lock and the one that holds the
      lock can. In particular a request that gave up can always withdraw, and a response the pump has
      popped is always written and signalled. */
  lemma NoDeadlock(s: State, t: Thread)
    requires Reachable(s)
    ensures if s.lock.FreeFor(t) then Enabled(s, t, NextStep(s, t))
            else s.lock.owner.Some? && s.lock.owner.value != t
                 && Enabled(s, s.lock.owner.value, NextStep(s, s.lock.owner.value))
  {
    hide NextStep, Enabled;
    if s.lock.FreeFor(t) {
      NextStepEnabled(s, t);
    } else {
      NextStepEnabled(s, s.lock.owner.value);
    }
  }

  /** Nothing the source lets a thread do is barred: code that runs for the user, inside a sink's call or a
      hook too, may start any call, close or register a hook once the lock is free; a send may return any
      new id; a request returns exactly when its event is set and can give up exactly when it is not; and
      the pump may poll when its batch is done and take the next response when it is not. */
  lemma NothingBarred(s: State, t: Thread)
    requires Reachable(s) && s.lock.FreeFor(t)
    ensures s.Of(t) == [] || s.Top(t, Native(Sink)) || Last(s.Of(t)).Closing? || Last(s.Of(t)).Firing? ==>
              && (forall kind :: Enabled(s, t, BeginCall(kind))) && Enabled(s, t, CloseMark)
              && (forall hook :: hook !in s.issued ==> Enabled(s, t, Register(hook)))
    ensures s.Top(t, Native(Send)) ==>
              forall id, w :: s.mail.Fresh(id) && w !in s.mail.waiters ==> Enabled(s, t, EndSend(id, w))
    ensures forall w <- s.mail.waiters :: s.Top(t, Awaiting(w)) ==>
              if s.mail.waiters[w].event then Enabled(s, t, WaitOver) && !Enabled(s, t, WaitExpires)
              else Enabled(s, t, WaitExpires) && !Enabled(s, t, WaitOver)
    ensures t == PUMP && s.Of(t) == [] && s.mail.slot.Empty? ==>
              if s.mail.batch == [] then forall rs :: Enabled(s, t, Poll(rs)) else Enabled(s, t, TakeNext)
  {
    hide Reachable;
  }

  ghost predicate Moves(s: State, s': State, t: Thread) {
    exists a :: Enabled(s, t, a) && s' == Apply(s, t, a)
  }

  /** States one thread goes through by steps of its own. */
  ghost predicate OwnSteps(path: seq<State>, t: Thread): (b: bool)
    ensures b ==> path != []
  {
    path != [] && forall i :: 0 < i < |path| ==> Moves(path[i - 1], path[i], t)
  }

  lemma OneMoreStep(s: State, t: Thread, a: Action, path: seq<State>)
    requires Enabled(s, t, a) && OwnSteps(path, t) && path[0] == Apply(s, t, a)
    ensures OwnSteps([s] + path, t)
  {
    hide Enabled, Apply;
    assert Moves(s, path[0], t);
    var longer := [s] + path;
    forall i | 0 < i < |longer| ensures Moves(longer[i - 1], longer[i], t) {
      assert longer[i] == path[i - 1];
      assert i > 1 ==> longer[i - 1] == path[i - 2];
    }
  }

  lemma JustOneState(s: State, t: Thread)
    ensures OwnSteps([s], t)
  {
  }

  /** How much a stack has left to do. */
  function Work(st: Stack): nat {
    if st == [] then 0
    else
      Work(Below(st))
      + match Last(st)
        case Closing(hooks) => |hooks| + 1
        case Awaiting(_) => 2
        case _ => 1
  }

  lemma WorkPush(st: Stack, f: Frame)
    ensures Work(st + [f]) == Work(st) + (if f.Closing? then |f.hooks| + 1 else if f.Awaiting? then 2 else 1)
  {
    assert Below(st + [f]) == st;
  }

  lemma NextStepWorks(s: State, t: Thread)
    requires s.Of(t) != [] && Enabled(s, t, NextStep(s, t)) && s.lock.FreeFor(t)
    ensures var s' := Apply(s, t, NextStep(s, t));
            Work(s'.Of(t)) < Work(s.Of(t)) && s'.lock.FreeFor(t)
  {
    hide Work, Below, Last, Mail.Fresh, Mail.HasOutcome;
    var st := s.Of(t);
    assert Work(st) == Work(Below(st)) + (if Last(st).Closing? then |Last(st).hooks| + 1 else if Last(st).Awaiting? then 2 else 1) by {
      WorkPop(st);
    }
    if Last(st).Closing? && Last(st).hooks != [] {
      WorkPush(Below(st), Closing(Last(st).hooks[1..]));
    } else if Last(st).Awaiting? {
      WorkPush(Below(st), Withdrawing(Last(st).ticket));
    }
  }

  lemma WorkPop(st: Stack)
    requires st != []
    ensures Work(st) == Work(Below(st))
                        + (if Last(st).Closing? then |Last(st).hooks| + 1 else if Last(st).Awaiting? then 2 else 1)
  {
  }

  /** Every call can be finished: from any reachable state, a thread that the lock is free for gets out of
      all it is in the middle of by steps of its own, however deep closes, hooks, requests and native
      calls are nested. */
  lemma {:induction false} CanFinish(s: State, t: Thread) returns (path: seq<State>)
    requires Reachable(s) && s.lock.FreeFor(t)
    ensures OwnSteps(path, t) && path[0] == s
    ensures Reachable(path[|path| - 1]) && path[|path| - 1].Of(t) == []
    decreases Work(s.Of(t))
  {
    hide Enabled, Apply, Reachable, OwnSteps, NextStep, Work;
    if s.Of(t) == [] {
      path := [s];
      assert OwnSteps(path, t) by { JustOneState(s, t); }
    } else {
      var a := NextStep(s, t);
      NextStepEnabled(s, t);
      NextStepWorks(s, t);
      ReachStep(s, t, a);
      var rest := CanFinish(Apply(s, t, a), t);
      OneMoreStep(s, t, a, rest);
      path := [s] + rest;
      assert path[|path| - 1] == rest[|rest| - 1];
    }
  }

  // ---- responses reach the requests they answer ----

  /** Exactly how an entry leaves `pending`: a close wakes it, its own request withdraws, or the pump
      takes it for a response to its id. */
  lemma EntryLeavesIff(s: State, t: Thread, a: Action, w: Ticket)
    requires Reachable(s) && Enabled(s, t, a) && w in s.mail.waiters && InPending(s.mail, w)
    ensures var m, m' := s.mail, Apply(s, t, a).mail;
            var byClose := a.CloseMark? && !s.node.closed;
            var byItself := a.Withdraw? && Last(s.Of(t)).ticket == w;
            var byPump := a.TakeNext? && m.batch[0].forId == m.waiters[w].id;
            && w in m'.waiters
            && (!InPending(m', w) <==> byClose || byItself || byPump)
            && (byClose ==> m'.waiters[w].event && m'.waiters[w].closed)
            && (byItself ==> m'.waiters[w].timedOut)
            && (byPump ==> m'.slot == Popped(w, m.batch[0]))
  {
    hide LockInv, FreeInv, HookInv, SendInv, TicketInv, Reachable, Mail.HasOutcome, Lock.FreeFor;
    ReachableIsSafe(s);
    AppliedMail(s, t, a);
    assert WaiterInv(s.mail, w);
    hide Apply;
    if a.Withdraw? && Last(s.Of(t)).ticket != w {
      assert s.mail.waiters[Last(s.Of(t)).ticket].id != s.mail.waiters[w].id;
    }
  }

  function FirstFor(responses: seq<Response>, id: Request): Option<Response> {
    if responses == [] then None
    else if responses[0].forId == id then Some(responses[0])
    else FirstFor(responses[1..], id)
  }

  /** What a pass of the pump makes of one waiter. */
  function Answered(w: Waiter, response: Option<Response>): Waiter {
    if response.None? then w else w.(response := response, event := true, writes := 1)
  }

  /** What the pump's three steps on one response make of the mail. */
  ghost function AfterOne(m: Mail): Mail
    requires MailInv(m) && m.slot.Empty? && m.batch != []
  {
    TakenKeeps(m);
    var m' := m.Taken();
    if m'.slot.Empty? then m'
    else
      FilledKeeps(m');
      m'.Filled().Signalled()
  }

  lemma OneAnswered(m: Mail, w: Ticket)
    requires MailInv(m) && m.slot.Empty? && m.batch != [] && w in m.waiters
    ensures var m' := AfterOne(m);
            && w in m'.waiters
            && if InPending(m, w) && m.waiters[w].id == m.batch[0].forId then
                 m'.waiters[w] == Answered(m.waiters[w], Some(m.batch[0])) && !InPending(m', w)
               else m'.waiters[w] == m.waiters[w] && (InPending(m', w) <==> InPending(m, w))
  {
    assert WaiterInv(m, w);
  }

  /** A step of the pump on a response changes the mail and nothing else. */
  lemma PumpStep(s: State, a: Action)
    requires Reachable(s) && Enabled(s, PUMP, a) && (a.TakeNext? || a.Fill? || a.Signal?)
    ensures var s' := Apply(s, PUMP, a);
            && Reachable(s') && s'.mail == MailAfter(s, PUMP, a)
            && s'.Of(PUMP) == [] && s'.lock == s.lock
  {
    ReachStep(s, PUMP, a);
    hide Reachable, MailAfter, Lock.FreeFor;
  }

  lemma FillAndSignal(s: State) returns (path: seq<State>)
    requires Reachable(s) && s.Of(PUMP) == [] && MailInv(s.mail) && s.mail.slot.Popped?
    ensures OwnSteps(path, PUMP) && path[0] == s
    ensures var s' := path[|path| - 1];
            && Reachable(s') && s'.mail == s.mail.Filled().Signalled()
            && s'.Of(PUMP) == [] && s'.lock == s.lock
  {
    hide Reachable, OwnSteps, Apply, State.Of, MailInv;
    SlotKnown(s.mail);
    var s2 := Apply(s, PUMP, Fill);
    PumpStep(s, Fill);
    var s3 := Apply(s2, PUMP, Signal);
    PumpStep(s2, Signal);
    JustOneState(s3, PUMP);
    OneMoreStep(s2, PUMP, Signal, [s3]);
    OneMoreStep(s, PUMP, Fill, [s2] + [s3]);
    path := [s] + ([s2] + [s3]);
  }

  lemma SlotKnown(m: Mail)
    requires MailInv(m) && m.slot.Popped?
    ensures m.slot.ticket in m.waiters
  {
  }

  lemma TakeOne(s: State) returns (path: seq<State>)
    requires Reachable(s) && s.Of(PUMP) == [] && s.lock.FreeFor(PUMP)
    requires MailInv(s.mail) && s.mail.slot.Empty? && s.mail.batch != []
    ensures OwnSteps(path, PUMP) && path[0] == s
    ensures var s' := path[|path| - 1];
            && Reachable(s') && s'.mail == AfterOne(s.mail)
            && s'.Of(PUMP) == [] && s'.lock == s.lock
            && s'.mail.slot.Empty? && s'.mail.batch == s.mail.batch[1..]
  {
    hide Reachable, OwnSteps, Apply, State.Of, MailInv, Lock.FreeFor;
    TakenKeeps(s.mail);
    var s1 := Apply(s, PUMP, TakeNext);
    PumpStep(s, TakeNext);
    if s1.mail.slot.Empty? {
      JustOneState(s1, PUMP);
      OneMoreStep(s, PUMP, TakeNext, [s1]);
      path := [s] + [s1];
    } else {
      var rest := FillAndSignal(s1);
      OneMoreStep(s, PUMP, TakeNext, rest);
      path := [s] + rest;
      assert path[|path| - 1] == rest[|rest| - 1];
    }
  }

  lemma PathsJoin(one: seq<State>, two: seq<State>, t: Thread)
    requires OwnSteps(one, t) && OwnSteps(two, t) && two[0] == one[|one| - 1]
    ensures var path := one + two[1..];
            OwnSteps(path, t) && path[0] == one[0] && path[|path| - 1] == two[|two| - 1]
  {
    hide Moves;
    var path := one + two[1..];
    forall i | 0 < i < |path| ensures Moves(path[i - 1], path[i], t) {
      if i >= |one| {
        assert path[i] == two[i - |one| + 1] && path[i - 1] == two[i - |one|];
      }
    }
  }

  /** The pump answers: left to itself it works through its batch, and every pending request that a
      response is for gets the first such response, is signalled and leaves `pending`; the others stay as
      they were. */
  lemma {:induction false} PumpAnswers(s: State) returns (path: seq<State>)
    requires Reachable(s) && s.Of(PUMP) == [] && s.lock.FreeFor(PUMP) && s.mail.slot.Empty?
    ensures OwnSteps(path, PUMP) && path[0] == s
    ensures var s' := path[|path| - 1];
            && Reachable(s') && s'.mail.batch == [] && s'.mail.slot.Empty?
            && forall w <- s.mail.waiters ::
                 && w in s'.mail.waiters
                 && var mine := if InPending(s.mail, w) then FirstFor(s.mail.batch, s.mail.waiters[w].id) else None;
                    && s'.mail.waiters[w] == Answered(s.mail.waiters[w], mine)
                    && (InPending(s'.mail, w) <==> InPending(s.mail, w) && mine.None?)
    decreases |s.mail.batch|
  {
    hide Reachable, OwnSteps, Enabled, Apply, AfterOne, MailInv, InPending;
    if s.mail.batch == [] {
      JustOneState(s, PUMP);
      path := [s];
    } else {
      MailHolds(s);
      var one := TakeOne(s);
      var s1 := one[|one| - 1];
      var rest := PumpAnswers(s1);
      PathsJoin(one, rest, PUMP);
      path := one + rest[1..];
      forall w | w in s.mail.waiters
        ensures var s' := rest[|rest| - 1];
                && w in s'.mail.waiters
                && var mine := if InPending(s.mail, w) then FirstFor(s.mail.batch, s.mail.waiters[w].id) else None;
                   && s'.mail.waiters[w] == Answered(s.mail.waiters[w], mine)
                   && (InPending(s'.mail, w) <==> InPending(s.mail, w) && mine.None?)
      {
        OneAnswered(s.mail, w);
      }
    }
  }

  lemma MailHolds(s: State)
    requires Reachable(s)
    ensures MailInv(s.mail)
  {
    hide LockInv, FreeInv, HookInv, MailInv, SendInv, TicketInv, Reachable;
    ReachableIsSafe(s);
  }

  /** So a request whose response libhop hands out is answered with it: whoever polls the response and
      then is not interrupted leaves no pending request behind that one of the responses is for. */
  lemma PolledIsAnswered(s: State, responses: seq<Response>, w: Ticket) returns (path: seq<State>)
    requires Reachable(s) && Enabled(s, PUMP, Poll(responses)) && s.lock.FreeFor(PUMP)
    requires w in s.mail.waiters && InPending(s.mail, w) && FirstFor(responses, s.mail.waiters[w].id).Some?
    ensures OwnSteps(path, PUMP) && path[0] == s
    ensures var s' := path[|path| - 1];
            && Reachable(s') && w in s'.mail.waiters && s'.mail.waiters[w].event && !s'.mail.waiters[w].closed
            && s'.mail.waiters[w].response == FirstFor(responses, s.mail.waiters[w].id)
  {
    hide Reachable, OwnSteps, FirstFor;
    var s1 := Apply(s, PUMP, Poll(responses));
    ReachStep(s, PUMP, Poll(responses));
    var rest := PumpAnswers(s1);
    OneMoreStep(s, PUMP, Poll(responses), rest);
    path := [s] + rest;
    PendingOpen(s, w);
    assert path[|path| - 1] == rest[|rest| - 1];
  }

  lemma PendingOpen(s: State, w: Ticket)
    requires Reachable(s) && w in s.mail.waiters && InPending(s.mail, w)
    ensures !s.mail.waiters[w].closed
  {
    MailHolds(s);
    assert WaiterInv(s.mail, w);
  }

  // ---- no request is forgotten ----

  /** The thread is still in request(), waiting with this ticket or giving up on it. */
  predicate InRequest(st: Stack, w: Ticket) {
    Awaiting(w) in st || Withdrawing(w) in st
  }

  /** A waiter without an outcome still has its request waiting for one. */
  ghost predicate WaitedFor(s: State) {
    forall w <- s.mail.waiters :: !s.mail.waiters[w].event && !s.mail.waiters[w].timedOut ==>
      exists t: Thread :: InRequest(s.Of(t), w)
  }

  lemma StillInRequest(s: State, t: Thread, a: Action, w: Ticket)
    requires Enabled(s, t, a) && InRequest(s.Of(t), w)
    ensures InRequest(StackAfter(s, t, a), w)
            || (a.WaitOver? && s.mail.HasOutcome(w)) || (a.Withdraw? && Last(s.Of(t)).ticket == w)
  {
    hide Mail.Fresh, Mail.HasOutcome, Lock.FreeFor;
    var st, st' := s.Of(t), StackAfter(s, t, a);
    assert st == Below(st) + [Last(st)];
    assert forall f :: f in Below(st) ==> f in st' || st' == [];
    if st' != [] {
      assert Last(st') in st';
    }
  }

  lemma OutcomeAfter(s: State, t: Thread, a: Action, w: Ticket)
    requires Enabled(s, t, a)
    ensures var m, m' := s.mail, MailAfter(s, t, a);
            && (w in m'.waiters && w !in m.waiters ==> a.EndSend? && a.w == w)
            && (w in m.waiters ==>
                  && w in m'.waiters
                  && (m.waiters[w].event ==> m'.waiters[w].event)
                  && (m.waiters[w].timedOut ==> m'.waiters[w].timedOut)
                  && (a.Withdraw? && Last(s.Of(t)).ticket == w ==> m'.waiters[w].timedOut))
  {
    hide Lock.FreeFor;
  }

  lemma WaitedForStep(s: State, t: Thread, a: Action)
    requires WaitedFor(s) && Enabled(s, t, a)
    ensures WaitedFor(Apply(s, t, a))
  {
    var s' := Apply(s, t, a);
    AppliedMail(s, t, a);
    assert s'.Of(t) == StackAfter(s, t, a) && forall u: Thread :: u != t ==> s'.Of(u) == s.Of(u);
    if a.EndSend? {
      assert Awaiting(a.w) in s'.Of(t) by { SendAwaits(s, t, a); }
    }
    hide Apply, StackAfter, MailAfter, InRequest;
    forall w | w in s'.mail.waiters && !s'.mail.waiters[w].event && !s'.mail.waiters[w].timedOut
      ensures exists u: Thread :: InRequest(s'.Of(u), w)
    {
      OutcomeAfter(s, t, a, w);
      if w !in s.mail.waiters {
        assert InRequest(s'.Of(t), w) by { AwaitsIn(s'.Of(t), w); }
      } else {
        var u: Thread :| InRequest(s.Of(u), w);
        if u == t {
          StillInRequest(s, t, a, w);
        }
        assert InRequest(s'.Of(u), w);
      }
    }
  }

  lemma SendAwaits(s: State, t: Thread, a: Action)
    requires Enabled(s, t, a) && a.EndSend?
    ensures Awaiting(a.w) in StackAfter(s, t, a)
  {
    var st' := StackAfter(s, t, a);
    assert st'[|st'| - 1] == Awaiting(a.w);
  }

  lemma AwaitsIn(st: Stack, w: Ticket)
    requires Awaiting(w) in st
    ensures InRequest(st, w)
  {
  }

  lemma NobodyWaits()
    ensures WaitedFor(Initial)
  {
  }

  /** No entry is forgotten in `pending`: while one is there its request has not returned, so when no
      thread is in request() there is none; and no request leaves without an outcome. */
  lemma PendingHasRequest(s: State, w: Ticket)
    requires Reachable(s) && w in s.mail.waiters
    ensures !s.mail.waiters[w].event && !s.mail.waiters[w].timedOut ==> exists t: Thread :: InRequest(s.Of(t), w)
    ensures InPending(s.mail, w) ==> exists t: Thread :: InRequest(s.Of(t), w)
  {
    hide Enabled, Apply, WaitedFor;
    NobodyWaits();
    forall u: State, v: State | WaitedFor(u) && Steps(u, v) ensures WaitedFor(v) {
      var t: Thread, a :| Enabled(u, t, a) && v == Apply(u, t, a);
      WaitedForStep(u, t, a);
    }
    Runs.InvariantOfReachable(s, Initial, Steps, WaitedFor);
    assert WaitedFor(s) ==> !s.mail.waiters[w].event && !s.mail.waiters[w].timedOut ==> exists t: Thread :: InRequest(s.Of(t), w) by {
      WaitedForOne(s, w);
    }
    PendingIsWaiting(s, w);
  }

  lemma WaitedForOne(s: State, w: Ticket)
    requires w in s.mail.waiters
    ensures WaitedFor(s) ==> !s.mail.waiters[w].event && !s.mail.waiters[w].timedOut ==> exists t: Thread :: InRequest(s.Of(t), w)
  {
  }

  lemma PendingIsWaiting(s: State, w: Ticket)
    requires Reachable(s) && w in s.mail.waiters
    ensures InPending(s.mail, w) ==> !s.mail.waiters[w].event && !s.mail.waiters[w].timedOut
  {
    MailHolds(s);
    assert WaiterInv(s.mail, w);
  }

  // ---- who closes, and which calls start ----

  /** Only close() closes, and a call runs exactly when it finds the endpoint open. */
  lemma OnlyCloseCloses(s: State, t: Thread, a: Action)
    requires Enabled(s, t, a)
    ensures Apply(s, t, a).node.closed <==> s.node.closed || a.CloseMark?
  {
  }

  lemma CallRunsIff(s: State, t: Thread, kind: Kind)
    requires Reachable(s) && Enabled(s, t, BeginCall(kind))
    ensures var s' := Apply(s, t, BeginCall(kind));
            && (s'.Of(t) == s.Of(t) + [Native(kind)] <==> !s.node.closed)
            && (!s.node.closed ==> s'.lock.owner == Some(t) && s'.node.nativeCalls == s.node.nativeCalls + 1)
            && (s.node.closed ==> s'.Of(t) == s.Of(t) && s'.lock == s.lock && s'.node == s.node)
  {
  }
}
