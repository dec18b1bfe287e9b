/** The endpoint's shared state and its critical sections, each as a function on values. */
module Endpoint {
  import opened Bytes

  type Thread = nat
  type Hook = nat         // one registration of a teardown hook
  type Request = nat      // a request id, as libhop hands them out
  type Ticket = nat       // one call of request(): its event and its holder

  const PUMP: Thread := 0

  datatype Response = Response(forId: Request, status: nat, body: Octets)

  // ---- the reentrant lock ----

  datatype Lock = Lock(owner: Option<Thread>, depth: int) {
    predicate FreeFor(t: Thread) {
      owner.None? || owner == Some(t)
    }

    function Acquired(t: Thread): Lock
      requires FreeFor(t)
    {
      Lock(Some(t), depth + 1)
    }

    function Released(): Lock {
      Lock(if depth == 1 then None else owner, depth - 1)
    }
  }

  // ---- the node and its native calls ----

  // `frees` counts the calls of node_free.
  datatype Node = Node(closed: bool, nativeCalls: int, nodeFreed: bool, frees: nat) {
    /** _free_node_locked */
    function Freed(): Node {
      if nodeFreed then this else this.(nodeFreed := true, frees := frees + 1)
    }

    /** The start of _call_node_locked. */
    function Entered(): Node {
      this.(nativeCalls := nativeCalls + 1)
    }

    /** The end of _call_node_locked: the last call out of a closed endpoint frees the node. */
    function Left(): Node {
      var n := this.(nativeCalls := nativeCalls - 1);
      if n.closed && n.nativeCalls == 0 then n.Freed() else n
    }

    /** The last critical section of close(). */
    function Finished(): Node {
      if nativeCalls == 0 then Freed() else this
    }
  }

  // ---- requests waiting for their responses ----

  // An event and the holder behind it. `writes` counts how often an outcome was put into the holder.
  datatype Waiter = Waiter(id: Request, event: bool, closed: bool, response: Option<Response>,
                           writes: nat, timedOut: bool)

  // The response the pump has taken a waiter for: popped off `pending`, then written, then signalled.
  datatype Slot = Empty | Popped(ticket: Ticket, response: Response) | Written(ticket: Ticket)

  // `polled` is every response libhop has ever returned, accepted or not.
  datatype Mail = Mail(pending: map<Request, Ticket>, waiters: map<Ticket, Waiter>,
                       polled: set<Response>, batch: seq<Response>, slot: Slot) {
    predicate Fresh(id: Request) {
      forall w <- waiters :: waiters[w].id != id
    }

    /** The waiter's event is set. */
    predicate HasOutcome(w: Ticket) {
      w in waiters && waiters[w].event
    }

    /** A request has been sent and its waiter registered. */
    function Registered(id: Request, w: Ticket): Mail {
      this.(pending := pending[id := w], waiters := waiters[w := Waiter(id, false, false, None, 0, false)])
    }

    /** close() wakes every pending waiter and forgets them. */
    function Woken(): Mail {
      this.(pending := map[],
            waiters := map w | w in waiters :: if w in pending.Values then Woke(waiters[w]) else waiters[w])
    }

    /** A request whose wait ran out withdraws. */
    function Withdrawn(w: Ticket): Mail
      requires w in waiters
    {
      this.(pending := pending - {waiters[w].id}, waiters := waiters[w := waiters[w].(timedOut := true)])
    }

    /** The pump has polled these responses, some of them perhaps again. */
    function Polled(responses: seq<Response>): Mail {
      this.(batch := responses, polled := polled + set r <- responses)
    }

    /** The pump takes the waiter of the next response in its batch, if there is one. */
    function Taken(): Mail
      requires batch != []
    {
      var r := batch[0];
      if r.forId in pending
      then this.(batch := batch[1..], pending := pending - {r.forId}, slot := Popped(pending[r.forId], r))
      else this.(batch := batch[1..])
    }

    function Filled(): Mail
      requires slot.Popped? && slot.ticket in waiters
    {
      var w := waiters[slot.ticket];
      this.(waiters := waiters[slot.ticket := w.(response := Some(slot.response), writes := w.writes + 1)],
            slot := Written(slot.ticket))
    }

    function Signalled(): Mail
      requires slot.Written? && slot.ticket in waiters
    {
      this.(waiters := waiters[slot.ticket := waiters[slot.ticket].(event := true)], slot := Empty)
    }
  }

  function Woke(w: Waiter): Waiter {
    w.(closed := true, event := true, writes := w.writes + 1)
  }

  // ---- what each thread is in the middle of ----

  // Only calls that take a sink can call back into the endpoint before they return.
  datatype Kind = Plain | Sink | Send

  datatype Frame =
    | Native(kind: Kind)          // inside a native call, holding the lock
    | Closing(hooks: seq<Hook>)   // in close() past its first section, with these hooks still to run
    | Firing(hook: Hook)          // _register_closer found the endpoint closed and runs the hook itself
    | Awaiting(ticket: Ticket)    // in request(), waiting for the event
    | Withdrawing(ticket: Ticket) // in request(), the wait ran out

  type Stack = seq<Frame>

  datatype State = State(node: Node, lock: Lock, stacks: map<Thread, Stack>,
                         closers: seq<Hook>, issued: set<Hook>, ran: multiset<Hook>, mail: Mail) {
    function Of(t: Thread): Stack {
      if t in stacks then stacks[t] else []
    }

    predicate Top(t: Thread, f: Frame) {
      Of(t) != [] && Last(Of(t)) == f
    }

    /** The thread is running code that may call the endpoint: user code, a sink, or a hook. */
    predicate Ready(t: Thread) {
      Of(t) == [] || Last(Of(t)) == Native(Sink) || Last(Of(t)).Closing? || Last(Of(t)).Firing?
    }
  }

  function Last(st: Stack): Frame
    requires st != []
  {
    st[|st| - 1]
  }

  function Below(st: Stack): Stack
    requires st != []
  {
    st[..|st| - 1]
  }

  const Initial := State(Node(false, 0, false, 0), Lock(None, 0), map[], [], {}, multiset{},
                         Mail(map[], map[], {}, [], Empty))

  // ---- steps ----

  datatype Action =
    | BeginCall(kind: Kind)             // _with_node or _try_with_node, up to the native call
    | EndCall                           // the native call returns
    | EndSend(id: Request, w: Ticket)   // send_service_request returns a request id
    | CloseMark                         // close(), first critical section
    | RunHook                           // close() runs the next hook, which may raise an Exception
    | CloseFinish                       // close(), last critical section
    | Register(hook: Hook)              // _register_closer
    | FireHook                          // _register_closer runs the hook of a closed endpoint
    | WaitOver                          // request() sees its event and returns or raises
    | WaitExpires                       // request() gives up waiting
    | Withdraw                          // request() takes its entry off `pending`
    | Poll(responses: seq<Response>)    // the pump has taken the responses libhop holds
    | TakeNext                          // the pump pops the next response's waiter
    | Fill                              // ... writes the holder
    | Signal                            // ... sets the event

  /** Thread `t` can take this step now. Steps that need the lock wait until it is free for `t`. */
  predicate Possible(s: State, t: Thread, a: Action) {
    var st := s.Of(t);
    match a
    case BeginCall(_) => s.Ready(t) && s.lock.FreeFor(t)
    case EndCall => st != [] && Last(st).Native?
    case EndSend(_, w) => s.Top(t, Native(Send)) && w !in s.mail.waiters
    case CloseMark => s.Ready(t) && s.lock.FreeFor(t)
    case RunHook => st != [] && Last(st).Closing? && Last(st).hooks != []
    case CloseFinish => s.Top(t, Closing([])) && s.lock.FreeFor(t)
    case Register(hook) => s.Ready(t) && s.lock.FreeFor(t) && hook !in s.issued
    case FireHook => st != [] && Last(st).Firing?
    case WaitOver => st != [] && Last(st).Awaiting? && s.mail.HasOutcome(Last(st).ticket)
    case WaitExpires => st != [] && Last(st).Awaiting? && !s.mail.HasOutcome(Last(st).ticket)
    case Withdraw =>
      st != [] && Last(st).Withdrawing? && Last(st).ticket in s.mail.waiters && s.lock.FreeFor(t)
    case Poll(_) => t == PUMP && st == [] && s.mail.batch == [] && s.mail.slot.Empty?
    case TakeNext => t == PUMP && st == [] && s.lock.FreeFor(t) && s.mail.batch != [] && s.mail.slot.Empty?
    case Fill => t == PUMP && st == [] && s.mail.slot.Popped? && s.mail.slot.ticket in s.mail.waiters
    case Signal => t == PUMP && st == [] && s.mail.slot.Written? && s.mail.slot.ticket in s.mail.waiters
  }

  /** ... and libhop never hands out a request id twice. */
  predicate Enabled(s: State, t: Thread, a: Action): (b: bool)
    ensures b ==> Possible(s, t, a)
  {
    Possible(s, t, a) && (a.EndSend? ==> s.mail.Fresh(a.id))
  }

  /** What the thread is in the middle of after its step. */
  function StackAfter(s: State, t: Thread, a: Action): Stack
    requires Possible(s, t, a)
  {
    var st := s.Of(t);
    match a
    case BeginCall(kind) => if s.node.closed then st else st + [Native(kind)]
    case EndCall => Below(st)
    case EndSend(_, w) => Below(st) + [Awaiting(w)]
    case CloseMark => if s.node.closed then st else st + [Closing(s.closers)]
    case RunHook => Below(st) + [Closing(Last(st).hooks[1..])]
    case CloseFinish => Below(st)
    case Register(hook) => if s.node.closed then st + [Firing(hook)] else st
    case FireHook => Below(st)
    case WaitOver => Below(st)
    case WaitExpires => Below(st) + [Withdrawing(Last(st).ticket)]
    case Withdraw => Below(st)
    case _ => st
  }

  function NodeAfter(s: State, t: Thread, a: Action): Node {
    match a
    case BeginCall(_) => if s.node.closed then s.node else s.node.Entered()
    case EndCall => s.node.Left()
    case EndSend(_, _) => s.node.Left()
    case CloseMark => s.node.(closed := true)
    case CloseFinish => s.node.Finished()
    case _ => s.node
  }

  function LockAfter(s: State, t: Thread, a: Action): Lock
    requires Possible(s, t, a)
  {
    match a
    case BeginCall(_) => if s.node.closed then s.lock else s.lock.Acquired(t)
    case EndCall => s.lock.Released()
    case EndSend(_, _) => s.lock.Released()
    case _ => s.lock
  }

  function MailAfter(s: State, t: Thread, a: Action): Mail
    requires Possible(s, t, a)
  {
    match a
    case EndSend(id, w) => s.mail.Registered(id, w)
    case CloseMark => if s.node.closed then s.mail else s.mail.Woken()
    case Withdraw => s.mail.Withdrawn(Last(s.Of(t)).ticket)
    case Poll(responses) => s.mail.Polled(responses)
    case TakeNext => s.mail.Taken()
    case Fill => s.mail.Filled()
    case Signal => s.mail.Signalled()
    case _ => s.mail
  }

  function ClosersAfter(s: State, t: Thread, a: Action): seq<Hook> {
    match a
    case CloseMark => if s.node.closed then s.closers else []
    case Register(hook) => if s.node.closed then s.closers else s.closers + [hook]
    case _ => s.closers
  }

  function RanAfter(s: State, t: Thread, a: Action): multiset<Hook>
    requires Possible(s, t, a)
  {
    match a
    case RunHook => s.ran + multiset{Last(s.Of(t)).hooks[0]}
    case FireHook => s.ran + multiset{Last(s.Of(t)).hook}
    case _ => s.ran
  }

  function Apply(s: State, t: Thread, a: Action): State
    requires Possible(s, t, a)
  {
    State(NodeAfter(s, t, a), LockAfter(s, t, a), s.stacks[t := StackAfter(s, t, a)],
          ClosersAfter(s, t, a), if a.Register? then s.issued + {a.hook} else s.issued, RanAfter(s, t, a),
          MailAfter(s, t, a))
  }
}
