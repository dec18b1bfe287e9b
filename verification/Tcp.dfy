/** The TCP bearer: each packet behind a four-byte length, reassembled from whatever chunks arrive. */
module Tcp {
  import opened Bytes
  import opened Net
  import opened Seam

  // ---- what a byte stream means ----

  datatype Scan = Frame(packet: Octets, used: nat) | Oversize | Wait

  /** What the front of the buffer holds: a whole frame, a length no one may send, or not enough. */
  function Front(s: Octets): (r: Scan)
    ensures r.Frame? ==> 4 <= r.used <= |s|
  {
    if |s| < 4 then Wait
    else
      var n := FromBE(s[..4]);
      if n > MAX_PACKET then Oversize
      else if |s| < 4 + n then Wait
      else Frame(s[4..4 + n], 4 + n)
  }

  /** The packets a whole stream spells, up to the first oversize length or the end. */
  function Reassembled(s: Octets): seq<Octets>
    decreases |s|
  {
    match Front(s)
    case Frame(packet, used) => [packet] + Reassembled(s[used..])
    case _ => []
  }

  lemma NothingReassembled()
    ensures Reassembled([]) == []
  {
  }

  /** What stays in the buffer while the reader waits for more is never more than 1 MiB and 3 bytes. */
  lemma WaitingIsShort(s: Octets)
    requires Front(s) == Wait
    ensures |s| <= MAX_PACKET + 3
  {
  }

  /** A buffer that waits spells no packet by itself. */
  lemma WaitingSpellsNone(s: Octets)
    requires Front(s) == Wait
    ensures Reassembled(s) == []
  {
  }

  /** Nothing behind an oversize length is ever delivered. */
  lemma OversizeEnds(s: Octets, more: Octets)
    requires Front(s) == Oversize
    ensures Reassembled(s + more) == []
  {
    FrontStands(s, more);
    hide Front;
  }

  lemma FrontStands(s: Octets, more: Octets)
    requires Front(s) != Wait
    ensures Front(s + more) == Front(s)
  {
    hide FromBE;
    assert (s + more)[..4] == s[..4];
    var n := FromBE(s[..4]);
    if n <= MAX_PACKET {
      assert (s + more)[4..4 + n] == s[4..4 + n];
    }
  }

  /** Any stream cut at any byte delivers a prefix of what it would have delivered. */
  lemma {:induction false} CutReassemblesPrefix(s: Octets, more: Octets)
    ensures Reassembled(s) <= Reassembled(s + more)
    decreases |s|
  {
    hide Front;
    if Front(s).Frame? {
      FrontStands(s, more);
      var used := Front(s).used;
      assert (s + more)[used..] == s[used..] + more;
      CutReassemblesPrefix(s[used..], more);
    }
  }

  // ---- what the sender writes ----

  /** A packet as the sender frames it, when its length fits four bytes. */
  function Framed(packet: Octets): Octets {
    ToBE(|packet|, 4) + packet
  }

  /** The bytes a packet is sent as, spelled out: its length in four, and the packet itself. */
  lemma FramedBytes(packet: Octets)
    requires |packet| < 0x1_0000_0000
    ensures var w := Framed(packet);
            |w| == 4 + |packet| && Quad(w, 0) == |packet| && w[4..] == packet
  {
    hide Quad;
    var w := Framed(packet);
    SpanValues();
    UnpackPacked(|packet|, 4);
    SpelledByFour(w[..4]);
    assert w[..4] == ToBE(|packet|, 4);
    hide FromBE, ToBE, Span;
    QuadOfPrefix(w);
  }

  lemma QuadOfPrefix(s: Octets)
    requires |s| >= 4
    ensures Quad(s[..4], 0) == Quad(s, 0)
  {
  }

  /** A packet comes off the front exactly when it is all there and its length is at most 1 MiB. */
  lemma FrontBytes(s: Octets)
    ensures Front(s) ==
            if |s| < 4 then Wait
            else if Quad(s, 0) > 0x10_0000 then Oversize
            else if |s| < 4 + Quad(s, 0) then Wait
            else Frame(s[4..4 + Quad(s, 0)], 4 + Quad(s, 0))
  {
    hide Quad, FromBE;
    if |s| >= 4 {
      SpelledByFour(s[..4]);
      QuadOfPrefix(s);
    }
  }

  /** The bytes a batch puts on a TCP link, up to the first length that four bytes cannot hold. */
  function FramedAll(packets: seq<Octets>): Octets {
    if packets == [] || |packets[0]| >= Span(4) then []
    else Framed(packets[0]) + FramedAll(packets[1..])
  }

  /** The packets before the first one over 1 MiB. */
  function Fitting(packets: seq<Octets>): seq<Octets> {
    if packets == [] || |packets[0]| > MAX_PACKET then [] else [packets[0]] + Fitting(packets[1..])
  }

  lemma {:induction false} FittingIff(packets: seq<Octets>)
    ensures Fitting(packets) <= packets && forall p <- Fitting(packets) :: |p| <= MAX_PACKET
    ensures Fitting(packets) == packets <==> forall p <- packets :: |p| <= MAX_PACKET
  {
    if packets != [] {
      FittingIff(packets[1..]);
      assert packets == [packets[0]] + packets[1..];
      if |packets[0]| <= MAX_PACKET {
        assert Fitting(packets)[1..] == Fitting(packets[1..]);
        assert forall p :: p in packets <==> p == packets[0] || p in packets[1..];
      }
    }
  }

  lemma FramedFront(packet: Octets, tail: Octets)
    requires |packet| < Span(4)
    ensures Front(Framed(packet) + tail) ==
            if |packet| > MAX_PACKET then Oversize else Frame(packet, |Framed(packet)|)
  {
    hide ToBE, FromBE, Span;
    var s := Framed(packet) + tail;
    assert s[..4] == ToBE(|packet|, 4);
    UnpackPacked(|packet|, 4);
    assert s[4..4 + |packet|] == packet;
  }

  /** The first packet of the batch over 1 MiB is one that four bytes can announce: TCP sends it. */
  predicate Trips(batch: seq<Octets>) {
    var n := |Fitting(batch)|;
    n < |batch| && |batch[n]| < Span(4)
  }

  /** A batch that starts with a packet that fits goes on as the rest of it does. */
  lemma FitThen(batch: seq<Octets>)
    requires batch != [] && |batch[0]| <= MAX_PACKET
    ensures Fitting(batch) == [batch[0]] + Fitting(batch[1..])
    ensures Trips(batch) <==> Trips(batch[1..])
  {
    hide Span;
    FittingIff(batch[1..]);
  }

  lemma OversizeFirst(batch: seq<Octets>)
    requires batch != [] && |batch[0]| > MAX_PACKET
    ensures Fitting(batch) == [] && (Trips(batch) <==> |batch[0]| < Span(4))
  {
    hide Span;
  }

  lemma FrameThen(packet: Octets, more: Octets)
    requires |packet| < Span(4)
    ensures Reassembled(Framed(packet) + more)
            == if |packet| > MAX_PACKET then [] else [packet] + Reassembled(more)
  {
    FramedFront(packet, more);
    hide Front, Framed, Span;
    assert (Framed(packet) + more)[|Framed(packet)|..] == more;
  }

  /** The receiver gets back exactly the packets a batch sent, up to the first over 1 MiB. If four bytes
      could announce that one, the receiver drops the link at its length; if not, it was never sent, and
      what the link carries next is delivered next. */
  lemma {:induction false} FramedDelivered(batch: seq<Octets>, tail: Octets)
    ensures Reassembled(FramedAll(batch) + tail)
            == Fitting(batch) + if Trips(batch) then [] else Reassembled(tail)
  {
    hide Front, Framed, Reassembled, Fitting, Trips, Span;
    SpanValues();
    if batch == [] || |batch[0]| >= Span(4) {
      assert FramedAll(batch) + tail == tail;
      if batch == [] {
        EmptyBatch();
      } else {
        OversizeFirst(batch);
      }
    } else {
      var more := FramedAll(batch[1..]) + tail;
      assert FramedAll(batch) + tail == Framed(batch[0]) + more;
      FrameThen(batch[0], more);
      if |batch[0]| <= MAX_PACKET {
        FramedDelivered(batch[1..], tail);
        FitThen(batch);
      } else {
        OversizeFirst(batch);
      }
    }
  }

  lemma EmptyBatch()
    ensures Fitting([]) == [] && !Trips([])
  {
  }

  lemma {:induction false} SpelledFits(s: Octets)
    ensures forall p <- Reassembled(s) :: |p| <= MAX_PACKET
    decreases |s|
  {
    if Front(s).Frame? {
      SpelledFits(s[Front(s).used..]);
    }
  }

  lemma FramedFirst(packet: Octets, packets: seq<Octets>)
    requires |packet| < Span(4)
    ensures FramedAll([packet] + packets) == Framed(packet) + FramedAll(packets)
  {
    hide Framed, Span;
    assert ([packet] + packets)[1..] == packets;
  }

  lemma {:induction false} SpelledFraming(s: Octets) returns (rest: Octets)
    ensures s == FramedAll(Reassembled(s)) + rest && !Front(rest).Frame?
    decreases |s|
  {
    hide Front, Framed, FramedAll, Span;
    if Front(s).Frame? {
      var packet, used := Front(s).packet, Front(s).used;
      FrontIsFramed(s);
      rest := SpelledFraming(s[used..]);
      FramedFirst(packet, Reassembled(s[used..]));
      hide Reassembled;
      assert s == s[..used] + s[used..];
    } else {
      rest := s;
      NothingFramed();
      assert [] + rest == rest;
    }
  }

  lemma NothingFramed()
    ensures FramedAll([]) == []
  {
  }

  lemma FrontIsFramed(s: Octets)
    requires Front(s).Frame?
    ensures var (packet, used) := (Front(s).packet, Front(s).used);
            |packet| <= MAX_PACKET < Span(4) && s[..used] == Framed(packet)
  {
    hide FromBE, ToBE, Span;
    SpanValues();
    PackUnpacked(s[..4]);
    var n := FromBE(s[..4]);
    assert s[..4 + n] == s[..4] + s[4..4 + n];
  }

  /** A stream delivers these packets exactly when it is their framing, none over 1 MiB, followed by
      bytes that hold no whole packet at the front. */
  lemma ReassembledGrammar(s: Octets, packets: seq<Octets>)
    ensures Reassembled(s) == packets
            <==> (forall p <- packets :: |p| <= MAX_PACKET)
                 && exists rest :: s == FramedAll(packets) + rest && !Front(rest).Frame?
  {
    hide Front, FramedAll, Reassembled;
    if Reassembled(s) == packets {
      var rest := SpelledFraming(s);
      SpelledFits(s);
    }
    if forall p <- packets :: |p| <= MAX_PACKET {
      forall rest | s == FramedAll(packets) + rest && !Front(rest).Frame? ensures Reassembled(s) == packets {
        FramedDelivered(packets, rest);
        FittingIff(packets);
        NoFrameSpellsNone(rest);
        assert packets + [] == packets;
      }
    }
  }

  lemma NoFrameSpellsNone(s: Octets)
    requires !Front(s).Frame?
    ensures Reassembled(s) == []
  {
  }

  // ---- the loops ----

  /** The sending half of a connected socket: everything written so far. */
  class Outlet {
    var sent: Octets

    constructor ()
      ensures sent == []
    {
      sent := [];
    }

    method SendAll(data: Octets)
      modifies this
      ensures sent == old(sent) + data
    {
      sent := sent + data;
    }
  }

  /** Frames one packet. A length that four bytes cannot hold raises and sends nothing. */
  method SendFramed(out: Outlet, packet: Octets) returns (raised: bool)
    modifies out
    ensures raised <==> |packet| >= 0x1_0000_0000
    ensures out.sent == old(out.sent) + if raised then [] else Framed(packet)
  {
    hide ToBE;
    SpanValues();
    if |packet| >= 0x1_0000_0000 {
      return true;
    }
    out.SendAll(ToBE(|packet|, 4) + packet);
    raised := false;
  }

  /** Taking a whole frame off the front of the buffer, the rest of the stream unread. */
  lemma TakeFront(buf: Octets, unread: Octets)
    requires Front(buf).Frame?
    ensures Reassembled(buf + unread) == [Front(buf).packet] + Reassembled(buf[Front(buf).used..] + unread)
  {
    FrontStands(buf, unread);
    hide Front;
    assert (buf + unread)[Front(buf).used..] == buf[Front(buf).used..] + unread;
  }

  /** Delivers what the buffer holds whole and keeps the rest; `over` means an oversize length.
      `unread` is what the socket has yet to supply. */
  method Drain(up: Uplink, link: nat, buf: Octets, ghost unread: Octets)
    returns (rest: Octets, over: bool, ghost got: seq<Octets>)
    modifies up
    ensures up.events == old(up.events) + DataEvents(link, got)
    ensures Front(rest) == if over then Oversize else Wait
    ensures Reassembled(buf + unread) == got + Reassembled(rest + unread)
  {
    hide FromBE, DataEvents, Reassembled;
    rest, got := buf, [];
    assert DataEvents(link, []) == [];
    while |rest| >= 4
      invariant up.events == old(up.events) + DataEvents(link, got)
      invariant Reassembled(buf + unread) == got + Reassembled(rest + unread)
      decreases |rest|
    {
      var n := FromBE(rest[..4]);
      if n > MAX_PACKET {
        return rest, true, got;
      }
      if |rest| < 4 + n {
        break;
      }
      TakeFront(rest, unread);
      var frame := rest[4..4 + n];
      rest := rest[4 + n..];
      up.Deliver(link, frame);
      DataAppended(link, got, frame);
      got := got + [frame];
    }
    over := false;
  }

  /** Receives until the stream ends or is refused, then takes the link down once and closes. What is
      delivered depends only on the bytes of the stream, not on how they were chunked. */
  method RecvLoop(up: Uplink, sock: Socket, link: nat) returns (ghost got: seq<Octets>)
    requires sock.timeout == None
    modifies up, sock`incoming, sock`now, sock`expired, sock`open
    ensures got == Reassembled(old(sock.incoming))
    ensures up.events == old(up.events) + DataEvents(link, got) + [Down(link)]
    ensures !sock.open
  {
    hide Front, Reassembled, DataEvents;
    NothingReassembled();
    var buf := [];
    got := [];
    assert DataEvents(link, []) == [];
    ghost var stream := sock.incoming;
    assert buf + sock.incoming == stream;
    while true
      invariant sock.timeout == None
      invariant up.events == old(up.events) + DataEvents(link, got)
      invariant Reassembled(stream) == got + Reassembled(buf + sock.incoming)
      invariant |buf| <= MAX_PACKET + 3 && Reassembled(buf) == []
      decreases |sock.incoming|
    {
      ghost var before := sock.incoming;
      var chunk := sock.Recv(65536);
      if !chunk.Chunk? {
        assert buf + sock.incoming == buf;
        break;
      }
      assert buf + before == buf + chunk.data + sock.incoming;
      var rest, over, more := Drain(up, link, buf + chunk.data, sock.incoming);
      DataJoined(link, got, more);
      got := got + more;
      if over {
        OversizeEnds(rest, sock.incoming);
        break;
      }
      WaitingIsShort(rest);
      WaitingSpellsNone(rest);
      buf := rest;
    }
    up.LinkDown(link);
    sock.Close();
  }
}
