/** The endpoint's link table: bearers draw link numbers, register and go down on threads of their own
    while the pump reads the table packet by packet. */
module LinkTable {
  import opened Bytes
  import opened Pump
  import opened Runs

  // Both bearers number their links from a counter of their own, shared by all endpoints.
  const FIRST_TCP_LINK: Link := 40000
  const FIRST_WSS_LINK: Link := 60000

  function Number(x: SendFn): Link {
    match x
    case Tcp(i) => FIRST_TCP_LINK + i
    case Wss(j) => FIRST_WSS_LINK + j
  }

  // Refused: it registered with an endpoint already closed, which changed nothing.
  datatype Phase = Drawn | Up | Refused | Ended

  // `outgoing` is what the pump still has to route of its batch; `sent` the sends it has made.
  datatype State = State(tcp: nat, wss: nat, phases: map<SendFn, Phase>, closed: bool,
                         table: map<Link, SendFn>,
                         outgoing: seq<(Link, Octets)>, sent: seq<(SendFn, Octets)>) {
    predicate IsUp(x: SendFn) {
      x in phases && phases[x].Up?
    }
  }

  const Initial := State(0, 0, map[], false, map[], [], [])

  datatype Action =
    | DrawTcp
    | DrawWss
    | Register(x: SendFn)                   // _register_link
    | LinkDown(x: SendFn)                   // _link_down
    | Close
    | Collect(batch: seq<(Link, Octets)>)   // the pump drains the node's outgoing packets
    | RouteNext(raises: bool)               // the pump reads the table for the next packet and sends

  predicate Enabled(s: State, a: Action) {
    match a
    case Register(x) => x in s.phases && s.phases[x].Drawn?
    case LinkDown(x) => x in s.phases && (s.phases[x].Up? || s.phases[x].Refused?)
    case Collect(_) => s.outgoing == []
    case RouteNext(_) => s.outgoing != []
    case _ => true
  }

  function Apply(s: State, a: Action): State
    requires Enabled(s, a)
  {
    match a
    case DrawTcp => s.(tcp := s.tcp + 1, phases := s.phases[Tcp(s.tcp) := Drawn])
    case DrawWss => s.(wss := s.wss + 1, phases := s.phases[Wss(s.wss) := Drawn])
    case Register(x) =>
      if s.closed then s.(phases := s.phases[x := Refused])
      else s.(phases := s.phases[x := Up], table := s.table[Number(x) := x])
    case LinkDown(x) =>
      if s.closed then s.(phases := s.phases[x := Ended])
      else s.(phases := s.phases[x := Ended], table := s.table - {Number(x)})
    case Close => s.(closed := true)
    case Collect(batch) => s.(outgoing := batch)
    case RouteNext(raises) =>
      var (link, data) := s.outgoing[0];
      if link !in s.table then s.(outgoing := s.outgoing[1..])
      else if raises then s.(outgoing := [])
      else s.(outgoing := s.outgoing[1..], sent := s.sent + [(s.table[link], data)])
  }

  ghost predicate Steps(s: State, s': State) {
    exists a :: Enabled(s, a) && s' == Apply(s, a)
  }

  ghost predicate IsRun(run: seq<State>) {
    IsRunOf(run, Initial, Steps)
  }

  ghost predicate Reachable(s: State) {
    ReachableBy(s, Initial, Steps)
  }

  // ---- every run is safe ----

  /** The counters have not yet met. */
  predicate Apart(tcp: nat, wss: nat) {
    tcp <= 20000 || wss == 0
  }

  /** Every link that is up is the one the table names under its number. */
  ghost predicate AllOwn(s: State) {
    forall x: SendFn :: s.IsUp(x) ==> Number(x) in s.table && s.table[Number(x)] == x
  }

  /** The links known are those drawn, and an entry was registered under its own number. */
  ghost predicate Books(s: State) {
    && (forall x: SendFn :: x in s.phases <==> if x.Tcp? then x.i < s.tcp else x.j < s.wss)
    && (forall n <- s.table :: Number(s.table[n]) == n)
    && (forall x <- s.phases :: s.phases[x].Refused? ==> s.closed)
  }

  /** While the endpoint is open the table names only links that are up: one that went down is out. */
  ghost predicate NoneStale(s: State) {
    !s.closed ==> forall n <- s.table :: s.IsUp(s.table[n])
  }

  ghost predicate Inv(s: State) {
    Books(s) && NoneStale(s) && (Apart(s.tcp, s.wss) ==> AllOwn(s))
  }

  lemma BooksStep(s: State, a: Action)
    requires Books(s) && Enabled(s, a)
    ensures Books(Apply(s, a))
  {
  }

  lemma StaleStep(s: State, a: Action)
    requires Books(s) && NoneStale(s) && Enabled(s, a)
    ensures NoneStale(Apply(s, a))
  {
    hide Number;
  }

  lemma DifferentNumbers(s: State, x: SendFn, y: SendFn)
    requires Books(s) && Apart(s.tcp, s.wss) && x in s.phases && y in s.phases && x != y
    ensures Number(x) != Number(y)
  {
  }

  /** A link that is up stays the table's entry for its number unless another takes or frees it. */
  lemma OwnStep(s: State, a: Action, y: SendFn)
    requires Books(s) && Enabled(s, a) && Apply(s, a).IsUp(y)
    requires s.IsUp(y) ==> Number(y) in s.table && s.table[Number(y)] == y
    requires a.Register? || a.LinkDown? ==> a.x == y || Number(a.x) != Number(y)
    ensures Number(y) in Apply(s, a).table && Apply(s, a).table[Number(y)] == y
  {
    hide Number;
  }

  lemma StepIsSafe(s: State, a: Action)
    requires Inv(s) && Enabled(s, a)
    ensures Inv(Apply(s, a))
  {
    BooksStep(s, a);
    StaleStep(s, a);
    var s' := Apply(s, a);
    if Apart(s'.tcp, s'.wss) {
      forall y: SendFn | s'.IsUp(y) ensures Number(y) in s'.table && s'.table[Number(y)] == y {
        if (a.Register? || a.LinkDown?) && a.x != y {
          DifferentNumbers(s, a.x, y);
        }
        OwnStep(s, a, y);
      }
    }
  }

  lemma InitialIsSafe()
    ensures Inv(Initial)
  {
  }

  /** Every invariant holds in every state of every interleaving. */
  lemma ReachableIsSafe(s: State)
    requires Reachable(s)
    ensures Inv(s)
  {
    hide Enabled, Apply, Inv;
    InitialIsSafe();
    forall s, s' | Inv(s) && Steps(s, s') ensures Inv(s') {
      var a :| Enabled(s, a) && s' == Apply(s, a);
      StepIsSafe(s, a);
    }
    InvariantOfReachable(s, Initial, Steps, Inv);
  }

  // ---- what the pump finds ----

  /** Whatever the interleaving, no two numbers lead to the same send function. */
  lemma TableHasOwnFunctions(s: State)
    requires Reachable(s)
    ensures OwnFunctions(s.table)
  {
    ReachableIsSafe(s);
  }

  /** While the counters are apart a batch reaches each link that is up whole and in order, and nothing
      else reaches it. */
  lemma EachLinkServed(s: State, outgoing: seq<(Link, Octets)>, x: SendFn)
    requires Reachable(s) && Apart(s.tcp, s.wss) && s.IsUp(x)
    ensures GivenTo(Calls(s.table, outgoing), x) == ForLink(outgoing, if x.Tcp? then 40000 + x.i else 60000 + x.j)
  {
    ReachableIsSafe(s);
    TableHasOwnFunctions(s);
    EachLinkItsOwn(s.table, outgoing, Number(x));
  }

  /** What the pump does with its next packet while the endpoint is open: it reaches the one link that is
      up under its number, and is dropped if there is none. In particular nothing is ever sent to a link
      that is not up. */
  lemma RouteSendsIff(s: State, raises: bool, x: SendFn)
    requires Reachable(s) && Enabled(s, RouteNext(raises)) && !s.closed
    ensures var (link, data) := s.outgoing[0];
            var s' := Apply(s, RouteNext(raises));
            && (s'.sent == s.sent + [(x, data)] ==> s.IsUp(x) && Number(x) == link)
            && (Apart(s.tcp, s.wss) && !raises && s.IsUp(x) && Number(x) == link ==>
                  s'.sent == s.sent + [(x, data)] && s'.outgoing == s.outgoing[1..])
            && ((forall y: SendFn :: s.IsUp(y) ==> Number(y) != link) ==>
                  s'.sent == s.sent && s'.outgoing == s.outgoing[1..])
  {
    hide Number, Reachable;
    ReachableIsSafe(s);
    var s' := Apply(s, RouteNext(raises));
    assert s'.sent == s.sent + [(x, s.outgoing[0].1)] ==> s'.sent[|s.sent|].0 == x;
    if s.outgoing[0].0 in s.table {
      assert s.IsUp(s.table[s.outgoing[0].0]);
    }
  }

  /** What a link's send function has been given, and what the batch still holds for it. */
  function Account(s: State, x: SendFn): seq<Octets> {
    GivenTo(s.sent, x) + ForLink(s.outgoing, Number(x))
  }

  lemma {:induction false} GivenAppend(sent: seq<(SendFn, Octets)>, next: (SendFn, Octets), x: SendFn)
    ensures GivenTo(sent + [next], x) == GivenTo(sent, x) + if next.0 == x then [next.1] else []
  {
    if sent != [] {
      assert (sent + [next])[1..] == sent[1..] + [next];
      GivenAppend(sent[1..], next, x);
    }
  }

  /** The pump's next send reaches a link exactly when the packet is for it. */
  lemma RouteReaches(s: State, x: SendFn)
    requires Reachable(s) && Apart(s.tcp, s.wss) && s.IsUp(x) && s.outgoing != []
    ensures var link := s.outgoing[0].0;
            link == Number(x) <==> link in s.table && s.table[link] == x
  {
    ReachableIsSafe(s);
  }

  /** Even when other links register and go down in the middle of a batch, a link that stays up loses
      nothing, gets nothing of another's, and keeps its order: its account changes only when a new batch
      is collected, by that batch's packets for it, or when a send raises and the batch is dropped. */
  lemma AccountStep(s: State, a: Action, x: SendFn)
    requires Reachable(s) && Enabled(s, a) && Apart(s.tcp, s.wss) && s.IsUp(x)
    ensures Account(Apply(s, a), x) ==
            if a.Collect? then Account(s, x) + ForLink(a.batch, Number(x))
            else if a.RouteNext? && a.raises && s.outgoing[0].0 in s.table then GivenTo(s.sent, x)
            else Account(s, x)
  {
    hide GivenTo, Number, Reachable;
    if a.RouteNext? {
      RouteReaches(s, x);
      if s.outgoing[0].0 in s.table {
        GivenAppend(s.sent, (s.table[s.outgoing[0].0], s.outgoing[0].1), x);
      }
    }
  }

  /** The states a sequence of steps goes through. */
  ghost predicate IsPath(states: seq<State>, steps: seq<Action>) {
    && |states| == |steps| + 1
    && forall i :: 0 <= i < |steps| ==> Enabled(states[i], steps[i]) && states[i + 1] == Apply(states[i], steps[i])
  }

  /** The packets for one link in all the batches the pump collects along the way. */
  function Collected(steps: seq<Action>, link: Link): seq<Octets> {
    if steps == [] then []
    else
      Collected(steps[..|steps| - 1], link)
      + if steps[|steps| - 1].Collect? then ForLink(steps[|steps| - 1].batch, link) else []
  }

  /** A link comes up once only, and the counters never go back. */
  lemma RegisteredStays(s: State, a: Action, x: SendFn)
    requires Books(s) && Enabled(s, a) && x in s.phases && !s.phases[x].Drawn?
    ensures x in Apply(s, a).phases && !Apply(s, a).phases[x].Drawn?
    ensures Apply(s, a).IsUp(x) ==> s.IsUp(x)
    ensures Apart(Apply(s, a).tcp, Apply(s, a).wss) ==> Apart(s.tcp, s.wss)
  {
  }

  lemma {:induction false} PathReachable(states: seq<State>, steps: seq<Action>, x: SendFn, n: nat)
    requires IsPath(states, steps) && n < |states|
    requires Reachable(states[0]) && x in states[0].phases && !states[0].phases[x].Drawn?
    ensures Reachable(states[n]) && x in states[n].phases && !states[n].phases[x].Drawn?
  {
    hide Enabled, Apply, Reachable;
    if n > 0 {
      PathReachable(states, steps, x, n - 1);
      ReachableIsSafe(states[n - 1]);
      RegisteredStays(states[n - 1], steps[n - 1], x);
      var s' := ReachStep(states[n - 1], steps[n - 1]);
    }
  }

  /** Along any stretch of any run in which a link stays up, the counters are apart and no send raises,
      whatever other links do meanwhile: what the link's send function has been given, with what the
      batch in hand still holds for it, grows by exactly the link's packets of the batches collected, in
      order. */
  lemma {:induction false} AccountRun(states: seq<State>, steps: seq<Action>, x: SendFn)
    requires IsPath(states, steps) && Reachable(states[0]) && RouteNext(true) !in steps
    requires states[0].IsUp(x) && states[|steps|].IsUp(x) && Apart(states[|steps|].tcp, states[|steps|].wss)
    ensures Account(states[|steps|], x) == Account(states[0], x) + Collected(steps, Number(x))
    decreases |steps|
  {
    hide Enabled, Apply, Account, Reachable;
    if steps != [] {
      var n := |steps| - 1;
      PathReachable(states, steps, x, n);
      ReachableIsSafe(states[n]);
      RegisteredStays(states[n], steps[n], x);
      AccountRun(states[..n + 1], steps[..n], x);
      AccountStep(states[n], steps[n], x);
      assert steps[n] in steps;
    }
  }

  // ---- when an entry is overwritten ----

  /** A step breaks the table exactly when a link registers under the number of another that is up. */
  lemma StepOverwritesIff(s: State, a: Action)
    requires Reachable(s) && AllOwn(s) && Enabled(s, a)
    ensures !AllOwn(Apply(s, a)) <==>
            a.Register? && !s.closed && exists y: SendFn :: y != a.x && s.IsUp(y) && Number(y) == Number(a.x)
  {
    ReachableIsSafe(s);
    var s' := Apply(s, a);
    if a.Register? && !s.closed {
      if y: SendFn :| y != a.x && s.IsUp(y) && Number(y) == Number(a.x) {
        assert s'.IsUp(y) && s'.table[Number(y)] == a.x;
      }
    }
    forall y: SendFn | s'.IsUp(y) && (a.Register? && !s.closed ==> a.x == y || Number(a.x) != Number(y))
      ensures Number(y) in s'.table && s'.table[Number(y)] == y
    {
      if s.closed {
        OwnWhenClosed(s, a, y);
      } else {
        OwnStep(s, a, y);
      }
    }
  }

  lemma OwnWhenClosed(s: State, a: Action, y: SendFn)
    requires s.closed && Enabled(s, a) && Apply(s, a).IsUp(y)
    ensures s.IsUp(y) && Apply(s, a).table == s.table
  {
  }

  lemma ReachStep(s: State, a: Action) returns (s': State)
    requires Reachable(s) && Enabled(s, a)
    ensures s' == Apply(s, a) && Reachable(s')
  {
    hide Enabled, Apply;
    s' := Apply(s, a);
    assert Steps(s, s');
    NextReachable(s, s', Initial, Steps);
  }

  /** So many links of each kind have been drawn, and none has registered yet. */
  ghost predicate OnlyDrawn(s: State, tcp: nat, wss: nat) {
    && Reachable(s) && s.tcp == tcp && s.wss == wss && !s.closed
    && forall x <- s.phases :: s.phases[x].Drawn?
  }

  lemma {:induction false} DrawMany(tcp: nat, wss: nat) returns (s: State)
    ensures OnlyDrawn(s, tcp, wss)
  {
    hide Reachable;
    if tcp > 0 {
      s := DrawMany(tcp - 1, wss);
      s := ReachStep(s, DrawTcp);
    } else if wss > 0 {
      s := DrawMany(tcp, wss - 1);
      s := ReachStep(s, DrawWss);
    } else {
      s := Initial;
      InitialReachable();
    }
  }

  /** Closing freezes the table: from then on no link comes up, and none is entered or taken out. */
  lemma CloseFreezes(s: State, a: Action, x: SendFn)
    requires Enabled(Apply(s, Close), a)
    ensures Apply(Apply(s, Close), a).table == s.table
    ensures Apply(Apply(s, Close), a).IsUp(x) ==> s.IsUp(x)
    ensures !a.Close? ==> Apply(s, a).closed == s.closed
  {
  }

  /** A link that has drawn a number can register, and one that has registered can go down; the pump can
      always go on. */
  lemma NeverStuck(s: State, x: SendFn)
    requires x in s.phases
    ensures s.phases[x].Drawn? ==> Enabled(s, Register(x))
    ensures s.phases[x].Up? || s.phases[x].Refused? ==>
              Enabled(s, LinkDown(x)) && !Apply(s, LinkDown(x)).IsUp(x)
    ensures if s.outgoing == [] then forall batch :: Enabled(s, Collect(batch)) else forall raises :: Enabled(s, RouteNext(raises))
  {
  }

  lemma InitialReachable()
    ensures Reachable(Initial)
  {
    FirstReachable(Initial, Steps);
  }

  /** With these many links drawn, every link that is up has the table's entry for its number in every
      interleaving exactly when at most 20000 of them are TCP links or none is a WSS link. */
  lemma EntriesSafeIff(tcp: nat, wss: nat)
    ensures (forall s :: Reachable(s) && s.tcp == tcp && s.wss == wss ==> AllOwn(s)) <==> Apart(tcp, wss)
  {
    hide Reachable;
    forall s | Reachable(s) && s.tcp == tcp && s.wss == wss && Apart(tcp, wss) ensures AllOwn(s) {
      ReachableIsSafe(s);
    }
    if !Apart(tcp, wss) {
      var s := DrawMany(tcp, wss);
      ReachableIsSafe(s);
      s := ReachStep(s, Register(Wss(0)));
      s := ReachStep(s, Register(Tcp(20000)));
      assert s.IsUp(Wss(0)) && s.table[Number(Wss(0))] == Tcp(20000);
      assert !AllOwn(s);
    }
  }
}
