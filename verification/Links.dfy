/** A WebSocket link from Upgrade to close: which packets a byte stream delivers. */
module Links {
  import opened Bytes
  import opened Net
  import opened Frames
  import opened Messages
  import opened Seam

  /** The packets the link loop hands up from a stream. Control frames other than close are skipped;
      close, an error or the end of the stream stops it. */
  function Delivered(s: Octets): seq<Octets>
    decreases |s|
  {
    match ParseMessage(s)
    case Message(opcode, payload, used) =>
      if opcode == CLOSE then []
      else if opcode == BINARY then [payload] + Delivered(s[used..])
      else Delivered(s[used..])
    case _ => []
  }

  // ---- what a peer can say on a link ----

  /** Packets, each fragmented in some way, and control frames other than close between them. */
  predicate IsSession(us: seq<Unit>) {
    forall x <- us :: IsUnit(x) && UnitOpcode(x) != CLOSE
  }

  function SessionWire(us: seq<Unit>): Octets
    requires IsSession(us)
  {
    if us == [] then [] else UnitWire(us[0]) + SessionWire(us[1..])
  }

  function Packets(us: seq<Unit>): seq<Octets> {
    if us == [] then []
    else if us[0].Packet? then [UnitPayload(us[0])] + Packets(us[1..])
    else Packets(us[1..])
  }

  lemma UnitIsBinaryIffPacket(x: Unit)
    requires IsUnit(x)
    ensures UnitOpcode(x) == BINARY <==> x.Packet?
  {
  }

  /** The link delivers the packets of a session in order, each exactly once, and then whatever the
      rest of the stream delivers. */
  lemma {:induction false} SessionDelivered(us: seq<Unit>, tail: Octets)
    requires IsSession(us)
    ensures Delivered(SessionWire(us) + tail) == Packets(us) + Delivered(tail)
  {
    hide ParseMessage, IsUnit, UnitWire, UnitOpcode, UnitPayload;
    if us == [] {
      assert SessionWire(us) + tail == tail;
    } else {
      var x, rest := us[0], us[1..];
      UnitIsBinaryIffPacket(x);
      var s := SessionWire(us) + tail;
      assert s == UnitWire(x) + (SessionWire(rest) + tail);
      UnitParses(x, SessionWire(rest) + tail);
      assert s[|UnitWire(x)|..] == SessionWire(rest) + tail;
      SessionDelivered(rest, tail);
    }
  }

  lemma ShortFrameParses(b0: bv8, b1: bv8, payload: Octets, rest: Octets, room: nat)
    requires |payload| < 126 && b1 as nat == |payload| <= room
    ensures ParseFrame([b0, b1] + payload + rest, room) ==
            if b0 & 0x70 != 0 then Refused(Extensions, 2)
            else if b0 & 0x0F >= 8 && b0 & 0x80 == 0 then Refused(BadControl, 2)
            else Got(b0 & 0x80 != 0, b0 & 0x0F, payload, 2 + |payload|)
  {
    var s := [b0, b1] + payload + rest;
    SmallByte(b1);
    assert Code(s[1]) == |payload| && !HasKey(s[1]);
    assert s[2..2 + |payload|] == payload;
  }

  lemma SmallByte(b: bv8)
    requires b as nat < 126
    ensures b & 0x7F == b && b & 0x80 == 0
  {
  }

  /** What each first byte makes of a short unmasked frame, spelled out: 0x82 is a packet, 0x89 to 0x8F
      are skipped, and everything else, 0x88 among it, ends the link. */
  lemma ShortFrameDelivers(b0: bv8, b1: bv8, payload: Octets, rest: Octets)
    requires |payload| < 126 && b1 as nat == |payload| && b0 != 0x02
    ensures Delivered([b0, b1] + payload + rest) ==
            if b0 == 0x82 then [payload] + Delivered(rest)
            else if 0x89 <= b0 <= 0x8F then Delivered(rest)
            else []
  {
    hide ParseFrame;
    var s := [b0, b1] + payload + rest;
    ShortFrameParses(b0, b1, payload, rest, MAX_PACKET);
    FirstByteCases(b0);
    assert s[2 + |payload|..] == rest;
  }

  lemma FirstByteCases(b0: bv8)
    ensures b0 == 0x82 <==> b0 & 0x70 == 0 && b0 & 0x80 != 0 && b0 & 0x0F == 2
    ensures b0 == 0x02 <==> b0 & 0x70 == 0 && b0 & 0x80 == 0 && b0 & 0x0F == 2
    ensures 0x89 <= b0 <= 0x8F <==> b0 & 0x70 == 0 && b0 & 0x80 != 0 && b0 & 0x0F > 8
  {
  }

  lemma FinalFragment(s: Octets, at: nat, first: Octets, c1: bv8, second: Octets, rest: Octets)
    requires at <= |s| && |first| < 126 && |second| < 126 && c1 as nat == |second|
    requires s[at..] == [0x80, c1] + second + rest
    ensures ParseRest(s, at, first) == Message(BINARY, first + second, at + 2 + |second|)
  {
    hide ParseFrame, ParseRest;
    RestStep(s, at, first);
    ShortFrameParses(0x80, c1, second, rest, MAX_PACKET - |first|);
  }

  lemma FirstFragmentParses(b1: bv8, first: Octets, more: Octets)
    requires |first| < 126 && b1 as nat == |first|
    ensures var s := [0x02, b1] + first + more;
            ParseMessage(s) == ParseRest(s, 2 + |first|, first)
  {
    hide ParseFrame, ParseRest;
    ShortFrameParses(0x02, b1, first, more, MAX_PACKET);
  }

  /** 0x02 opens a packet that 0x80 completes. */
  lemma TwoFragmentsDeliver(b1: bv8, first: Octets, c1: bv8, second: Octets, rest: Octets)
    requires |first| < 126 && b1 as nat == |first| && |second| < 126 && c1 as nat == |second|
    ensures Delivered([0x02, b1] + first + ([0x80, c1] + second + rest)) == [first + second] + Delivered(rest)
  {
    hide ParseMessage, ParseRest;
    var more := [0x80, c1] + second + rest;
    var s := [0x02, b1] + first + more;
    FirstFragmentParses(b1, first, more);
    var at := 2 + |first|;
    assert s[at..] == more;
    FinalFragment(s, at, first, c1, second, rest);
    assert s[at + 2 + |second|..] == rest by {
      assert s[at + 2 + |second|..] == more[2 + |second|..];
    }
  }

  /** A close frame ends the link there: nothing after it is delivered. */
  lemma CloseEndsSession(us: seq<Unit>, close: Frame, junk: Octets)
    requires IsSession(us) && Admissible(close, MAX_PACKET) && close.opcode == CLOSE
    ensures Delivered(SessionWire(us) + Wire(close) + junk) == Packets(us)
  {
    hide ParseMessage, Wire;
    UnitParses(Control(close), junk);
    assert Delivered(Wire(close) + junk) == [];
    SessionDelivered(us, Wire(close) + junk);
    assert SessionWire(us) + Wire(close) + junk == SessionWire(us) + (Wire(close) + junk);
  }

  /** The link loop stops right here: at a close frame, an error, or a cut. */
  predicate Stops(s: Octets) {
    ParseMessage(s).Message? ==> ParseMessage(s).opcode == CLOSE
  }

  lemma {:induction false} StreamIsSession(s: Octets) returns (us: seq<Unit>, rest: Octets)
    ensures IsSession(us) && s == SessionWire(us) + rest && Packets(us) == Delivered(s) && Stops(rest)
    decreases |s|
  {
    hide ParseMessage, IsUnit, UnitWire, UnitOpcode, UnitPayload;
    if Stops(s) {
      us, rest := [], s;
      assert SessionWire([]) + s == s;
    } else {
      var m := ParseMessage(s);
      var x := ParsedIsUnit(s);
      UnitIsBinaryIffPacket(x);
      var more;
      more, rest := StreamIsSession(s[m.used..]);
      us := [x] + more;
      assert us[1..] == more;
      assert s == s[..m.used] + s[m.used..];
      assert SessionWire(us) + rest == UnitWire(x) + (SessionWire(more) + rest);
    }
  }

  /** A stream delivers these packets exactly when it is a session of them, however fragmented and with
      whatever control frames between, up to where the link loop stops. */
  lemma DeliveredGrammar(s: Octets, packets: seq<Octets>)
    ensures Delivered(s) == packets
            <==> exists us, rest :: IsSession(us) && s == SessionWire(us) + rest && Packets(us) == packets && Stops(rest)
  {
    hide IsSession, SessionWire, Packets, ParseMessage;
    if Delivered(s) == packets {
      var us, rest := StreamIsSession(s);
    }
    forall us, rest | IsSession(us) && s == SessionWire(us) + rest && Packets(us) == packets && Stops(rest)
      ensures Delivered(s) == packets
    {
      SessionDelivered(us, rest);
      assert Delivered(rest) == [];
    }
  }

  // ---- cut streams ----

  /** Any stream cut at any byte delivers a prefix of what it would have delivered. */
  lemma {:induction false} CutDeliversPrefix(s: Octets, more: Octets)
    ensures Delivered(s) <= Delivered(s + more)
    decreases |s|
  {
    hide ParseMessage;
    var m := ParseMessage(s);
    if m.Message? {
      MessageVerdictStands(s, more);
      assert (s + more)[m.used..] == s[m.used..] + more;
      CutDeliversPrefix(s[m.used..], more);
    }
  }

  /** A unit that has not fully arrived delivers nothing. */
  lemma PartialUnit(x: Unit, k: nat)
    requires IsUnit(x) && k < |UnitWire(x)|
    ensures ParseMessage(UnitWire(x)[..k]) == Cut
  {
    hide ParseMessage, IsUnit, UnitWire;
    var w := UnitWire(x);
    UnitParses(x, []);
    assert w + [] == w && w == w[..k] + w[k..];
    if !ParseMessage(w[..k]).Cut? {
      MessageVerdictStands(w[..k], w[k..]);
    }
  }

  /** The units whose last byte lies within the first `k` bytes. */
  function Arrived(us: seq<Unit>, k: nat): seq<Unit>
    requires IsSession(us)
  {
    if us == [] || k < |UnitWire(us[0])| then []
    else [us[0]] + Arrived(us[1..], k - |UnitWire(us[0])|)
  }

  /** Cut a session at any byte: exactly the packets that arrived whole are delivered. */
  lemma {:induction false} CutSession(us: seq<Unit>, k: nat)
    requires IsSession(us) && k <= |SessionWire(us)|
    ensures Delivered(SessionWire(us)[..k]) == Packets(Arrived(us, k))
  {
    hide ParseMessage, IsUnit, UnitWire, UnitOpcode, UnitPayload;
    if us != [] {
      var x, rest := us[0], us[1..];
      var w, s := UnitWire(x), SessionWire(us)[..k];
      if k < |w| {
        assert s == w[..k];
        PartialUnit(x, k);
      } else {
        UnitIsBinaryIffPacket(x);
        assert s == w + SessionWire(rest)[..k - |w|];
        UnitParses(x, SessionWire(rest)[..k - |w|]);
        assert s[|w|..] == SessionWire(rest)[..k - |w|];
        CutSession(rest, k - |w|);
        assert Arrived(us, k)[1..] == Arrived(rest, k - |w|);
      }
    }
  }

  // ---- the link loop ----

  /** One turn of the link loop on what the stream spells. */
  lemma DeliveredStep(s: Octets)
    ensures var m := ParseMessage(s);
            Delivered(s) == if !m.Message? || m.opcode == CLOSE then []
                            else if m.opcode == BINARY then [m.payload] + Delivered(s[m.used..])
                            else Delivered(s[m.used..])
  {
    hide ParseMessage;
  }

  /** The loop of a link: it delivers until a close frame, an error or the end of the stream. */
  method DeliverAll(up: Uplink, c: Conn, link: nat) returns (ghost got: seq<Octets>)
    requires c.Valid()
    modifies up, c`buf, c`deadline
    modifies c.sock`incoming, c.sock`now, c.sock`timeout, c.sock`expired
    ensures c.Valid() && up.events == old(up.events) + DataEvents(link, got)
    ensures got <= Delivered(old(c.Stream()))
    ensures !c.sock.expired ==> got == Delivered(old(c.Stream()))
    ensures old(c.sock.now) <= c.sock.now
    ensures c.sock.expired && !old(c.sock.expired) ==> c.sock.now >= old(c.sock.now) + 15.0
  {
    hide ParseMessage, Delivered, DataEvents, Leftover, Conn.Valid;
    got := [];
    assert DataEvents(link, []) == [];
    while true
      invariant c.Valid()
      invariant up.events == old(up.events) + DataEvents(link, got)
      invariant got + Delivered(c.Stream()) == Delivered(old(c.Stream()))
      invariant c.sock.expired == old(c.sock.expired) && old(c.sock.now) <= c.sock.now
      decreases |c.Stream()|
    {
      DeliveredStep(c.Stream());
      var r := ReadMessage(c);
      if r.Err? || r.value.0 == CLOSE {
        break;
      }
      if r.value.0 == BINARY {
        up.Deliver(link, r.value.1);
        DataAppended(link, got, r.value.1);
        got := got + [r.value.1];
      }
    }
  }

  /** Runs a link to its end: it comes up, delivers, goes down once, and its socket is closed. What
      it delivers does not depend on how the socket chunked the bytes, nor on how many of them the
      handshake had already read into the buffer; a deadline can only cut the list short. */
  method RunLink(up: Uplink, c: Conn, link: nat, role: Role) returns (ghost got: seq<Octets>)
    requires c.Valid()
    modifies up, c`buf, c`deadline
    modifies c.sock`incoming, c.sock`now, c.sock`timeout, c.sock`expired, c.sock`open
    ensures up.events == old(up.events) + Life(link, role, got)
    ensures var n := |old(up.events)|;
            && |up.events| == n + |got| + 2
            && up.events[n] == Up(link, role) && up.events[n + |got| + 1] == Down(link)
            && forall i :: 0 <= i < |got| ==> up.events[n + 1 + i] == Data(link, got[i])
    ensures got <= Delivered(old(c.Stream()))
    ensures !c.sock.expired ==> got == Delivered(old(c.Stream()))
    ensures old(c.sock.now) <= c.sock.now
    ensures c.sock.expired && !old(c.sock.expired) ==> c.sock.now >= old(c.sock.now) + 15.0
    ensures !c.sock.open
  {
    hide Delivered, DataEvents, Conn.Valid;
    up.RegisterLink(link, role);
    got := DeliverAll(up, c, link);
    up.LinkDown(link);
    c.sock.Close();
    LifeEvents(link, role, got);
  }
}
