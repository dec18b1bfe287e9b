/** The three bearers side by side, over everything one endpoint ever sends on a link: batch after
    batch, as the pump drains them. Over WSS a packet over 1 MiB costs the rest of its own batch, since
    the encoder raises, and the next batch goes on. Over TCP it ends the link, if four bytes can announce
    its length, and nothing after it is delivered. Either socket bearer delivers what was sent, as the
    in-process one always does, exactly when no packet is over 1 MiB. */
module Bearers {
  import opened Bytes
  import opened Net
  import opened Frames
  import opened Messages
  import opened Seam
  import opened Links
  import opened Tcp

  predicate AreKeys(keys: seq<Octets>) {
    forall k <- keys :: |k| == 4
  }

  /** Packet `i` as the encoder frames it: masked under the i-th key when the role masks. */
  function AsUnits(packets: seq<Octets>, mask: bool, keys: seq<Octets>): (us: seq<Unit>)
    requires |keys| == |packets|
    ensures |us| == |packets|
  {
    if packets == [] then []
    else [Packet([PacketFrame(packets[0], if mask then Some(keys[0]) else None)])]
         + AsUnits(packets[1..], mask, keys[1..])
  }

  lemma PacketIsUnit(packet: Octets, key: Option<Octets>)
    requires |packet| <= MAX_PACKET && (key.Some? ==> |key.value| == 4)
    ensures var f := PacketFrame(packet, key);
            var x := Packet([f]);
            IsUnit(x) && UnitOpcode(x) == BINARY && UnitPayload(x) == packet && UnitWire(x) == Wire(f)
  {
    hide Wire, WellFormed;
    var f := PacketFrame(packet, key);
    PacketFrameAdmissible(packet, key);
    assert Text([f]) == f.payload;
    assert WireAll([f]) == Wire(f);
  }

  lemma {:induction false} SentIsSession(packets: seq<Octets>, mask: bool, keys: seq<Octets>)
    requires |keys| == |packets| && AreKeys(keys)
    requires forall p <- packets :: |p| <= MAX_PACKET
    ensures IsSession(AsUnits(packets, mask, keys))
    ensures Packets(AsUnits(packets, mask, keys)) == packets
  {
    hide IsUnit, UnitOpcode, UnitPayload, PacketFrame;
    if packets != [] {
      var key := if mask then Some(keys[0]) else None;
      var us := AsUnits(packets, mask, keys);
      var x, rest := Packet([PacketFrame(packets[0], key)]), AsUnits(packets[1..], mask, keys[1..]);
      assert us == [x] + rest;
      PacketIsUnit(packets[0], key);
      SentIsSession(packets[1..], mask, keys[1..]);
      hide AsUnits;
      assert us[1..] == rest;
      assert forall y :: y in us ==> y == x || y in rest;
    }
  }

  /** The bytes a batch puts on a WSS link: one frame a packet, up to the first the encoder refuses. */
  function WssWire(packets: seq<Octets>, mask: bool, keys: seq<Octets>): Octets
    requires |keys| == |packets| && AreKeys(keys)
  {
    if packets == [] || |packets[0]| > MAX_PACKET then []
    else
      PacketFrameAdmissible(packets[0], if mask then Some(keys[0]) else None);
      Wire(PacketFrame(packets[0], if mask then Some(keys[0]) else None))
      + WssWire(packets[1..], mask, keys[1..])
  }

  lemma {:induction false} WssWireIsSession(packets: seq<Octets>, mask: bool, keys: seq<Octets>)
    requires |keys| == |packets| && AreKeys(keys)
    requires forall p <- packets :: |p| <= MAX_PACKET
    ensures IsSession(AsUnits(packets, mask, keys))
    ensures WssWire(packets, mask, keys) == SessionWire(AsUnits(packets, mask, keys))
  {
    hide IsUnit, UnitOpcode, UnitWire, PacketFrame, Wire;
    SentIsSession(packets, mask, keys);
    if packets != [] {
      PacketIsUnit(packets[0], if mask then Some(keys[0]) else None);
      WssWireIsSession(packets[1..], mask, keys[1..]);
      assert AsUnits(packets, mask, keys)[1..] == AsUnits(packets[1..], mask, keys[1..]);
    }
  }

  lemma {:induction false} WssWireOfFitting(packets: seq<Octets>, mask: bool, keys: seq<Octets>)
    requires |keys| == |packets| && AreKeys(keys)
    ensures |Fitting(packets)| <= |packets|
    ensures WssWire(packets, mask, keys) == WssWire(Fitting(packets), mask, keys[..|Fitting(packets)|])
  {
    hide PacketFrame, Wire;
    var fit := Fitting(packets);
    if fit != [] {
      WssWireOfFitting(packets[1..], mask, keys[1..]);
      assert fit[1..] == Fitting(packets[1..]);
      assert keys[..|fit|][1..] == keys[1..][..|fit| - 1];
    }
  }

  // ---- batch after batch ----

  /** Every packet of every batch, in order. */
  function Flat(batches: seq<seq<Octets>>): seq<Octets> {
    if batches == [] then [] else batches[0] + Flat(batches[1..])
  }

  predicate AreBatchKeys(batches: seq<seq<Octets>>, keys: seq<seq<Octets>>) {
    |keys| == |batches| && forall i :: 0 <= i < |keys| ==> |keys[i]| == |batches[i]| && AreKeys(keys[i])
  }

  /** What a WSS link carries: an oversize packet costs the rest of its own batch. */
  function WssWires(batches: seq<seq<Octets>>, mask: bool, keys: seq<seq<Octets>>): Octets
    requires AreBatchKeys(batches, keys)
  {
    if batches == [] then []
    else WssWire(batches[0], mask, keys[0]) + WssWires(batches[1..], mask, keys[1..])
  }

  /** What a TCP link carries: only a length that four bytes cannot hold ends a batch. */
  function TcpWires(batches: seq<seq<Octets>>): Octets {
    if batches == [] then [] else FramedAll(batches[0]) + TcpWires(batches[1..])
  }

  /** Each batch up to its first packet over 1 MiB. */
  function FittingEach(batches: seq<seq<Octets>>): (fits: seq<seq<Octets>>)
    ensures |fits| == |batches|
  {
    seq(|batches|, i requires 0 <= i < |batches| => Fitting(batches[i]))
  }

  /** The batches up to and including the first that trips. */
  function UpToTrip(batches: seq<seq<Octets>>): seq<seq<Octets>> {
    if batches == [] then []
    else [batches[0]] + if Trips(batches[0]) then [] else UpToTrip(batches[1..])
  }

  /** The batch has nothing to deliver: it is empty or starts with an oversize packet. */
  predicate Silent(batch: seq<Octets>) {
    batch == [] || |batch[0]| > MAX_PACKET
  }

  lemma WssBatchThen(batch: seq<Octets>, mask: bool, keys: seq<Octets>, tail: Octets)
    requires |keys| == |batch| && AreKeys(keys)
    ensures Delivered(WssWire(batch, mask, keys) + tail) == Fitting(batch) + Delivered(tail)
  {
    hide Delivered, WssWire, AsUnits, SessionWire, IsSession, Packets, Fitting;
    var fit := Fitting(batch);
    WssWireOfFitting(batch, mask, keys);
    FittingIff(batch);
    var ks := keys[..|fit|];
    SentIsSession(fit, mask, ks);
    WssWireIsSession(fit, mask, ks);
    SessionDelivered(AsUnits(fit, mask, ks), tail);
  }

  /** What goes in at one end of a WSS link comes out at the other: of each batch, the packets before
      its first oversize one. */
  lemma {:induction false} WssBatchesDelivered(batches: seq<seq<Octets>>, mask: bool, keys: seq<seq<Octets>>)
    requires AreBatchKeys(batches, keys)
    ensures Delivered(WssWires(batches, mask, keys)) == Flat(FittingEach(batches))
  {
    hide Delivered, WssWire, Fitting;
    if batches == [] {
      NothingDelivered();
    } else {
      WssBatchThen(batches[0], mask, keys[0], WssWires(batches[1..], mask, keys[1..]));
      WssBatchesDelivered(batches[1..], mask, keys[1..]);
      assert FittingEach(batches)[1..] == FittingEach(batches[1..]);
    }
  }

  lemma NothingDelivered()
    ensures Delivered([]) == []
  {
  }

  /** A TCP link delivers the same of each batch, until the first one that trips it. */
  lemma {:induction false} TcpBatchesDelivered(batches: seq<seq<Octets>>)
    ensures Reassembled(TcpWires(batches)) == Flat(FittingEach(UpToTrip(batches)))
  {
    hide Reassembled, FramedAll, Fitting, Trips;
    if batches == [] {
      assert Reassembled([]) == [] by { NothingReassembled(); }
    } else {
      FramedDelivered(batches[0], TcpWires(batches[1..]));
      TcpBatchesDelivered(batches[1..]);
      assert FittingEach(UpToTrip(batches))[0] == Fitting(batches[0]);
      if Trips(batches[0]) {
        assert FittingEach(UpToTrip(batches)) == [Fitting(batches[0])];
        assert Flat([Fitting(batches[0])]) == Fitting(batches[0]);
      } else {
        assert FittingEach(UpToTrip(batches))[1..] == FittingEach(UpToTrip(batches[1..]));
      }
    }
  }

  /** Encodings are uniquely decodable: two lists of packets that look the same on the wire are the
      same list, whatever keys masked them. */
  lemma UniquelyDecodable(ps: seq<Octets>, pm: bool, pk: seq<Octets>, qs: seq<Octets>, qm: bool, qk: seq<Octets>)
    requires |pk| == |ps| && AreKeys(pk) && |qk| == |qs| && AreKeys(qk)
    requires forall p <- ps + qs :: |p| <= MAX_PACKET
    requires WssWire(ps, pm, pk) == WssWire(qs, qm, qk)
    ensures ps == qs
  {
    hide WssWire, Delivered;
    WssBatchThen(ps, pm, pk, []);
    WssBatchThen(qs, qm, qk, []);
    NothingDelivered();
    assert forall p :: p in ps || p in qs ==> p in ps + qs;
    FittingIff(ps);
    FittingIff(qs);
    assert ps == Fitting(ps) + [] && qs == Fitting(qs) + [];
  }

  // ---- when the bearers agree ----

  lemma {:induction false} NothingFits(batches: seq<seq<Octets>>)
    ensures Flat(FittingEach(batches)) == [] <==> forall b <- batches :: Silent(b)
  {
    if batches != [] {
      NothingFits(batches[1..]);
      assert FittingEach(batches)[1..] == FittingEach(batches[1..]);
      assert Fitting(batches[0]) == [] <==> Silent(batches[0]);
      assert forall b :: b in batches <==> b == batches[0] || b in batches[1..];
    }
  }

  /** After a batch that trips TCP, no batch has anything to deliver. */
  predicate QuietAfterTrip(batches: seq<seq<Octets>>) {
    forall i, j :: 0 <= i < j < |batches| && Trips(batches[i]) ==> Silent(batches[j])
  }

  lemma QuietStep(batches: seq<seq<Octets>>)
    requires batches != []
    ensures QuietAfterTrip(batches) <==>
            if Trips(batches[0]) then forall b <- batches[1..] :: Silent(b) else QuietAfterTrip(batches[1..])
  {
    hide Trips, Silent;
    var rest := batches[1..];
    if QuietAfterTrip(batches) {
      forall i, j | 0 <= i < j < |rest| && Trips(rest[i]) ensures Silent(rest[j]) {
        assert Trips(batches[i + 1]) && Silent(batches[j + 1]);
      }
      if Trips(batches[0]) {
        forall b | b in rest ensures Silent(b) {
          var j :| 0 <= j < |rest| && rest[j] == b;
          assert Silent(batches[j + 1]);
        }
      }
    }
    if if Trips(batches[0]) then forall b <- rest :: Silent(b) else QuietAfterTrip(rest) {
      forall i, j | 0 <= i < j < |batches| && Trips(batches[i]) ensures Silent(batches[j]) {
        assert batches[j] == rest[j - 1];
        assert i > 0 ==> batches[i] == rest[i - 1];
      }
    }
  }

  lemma {:induction false} CutAtTripIff(batches: seq<seq<Octets>>)
    ensures Flat(FittingEach(UpToTrip(batches))) <= Flat(FittingEach(batches))
    ensures Flat(FittingEach(UpToTrip(batches))) == Flat(FittingEach(batches)) <==> QuietAfterTrip(batches)
  {
    hide Trips, Fitting, Silent;
    if batches != [] {
      var b, rest := batches[0], batches[1..];
      hide QuietAfterTrip;
      QuietStep(batches);
      assert FittingEach(batches)[1..] == FittingEach(rest);
      var cut := FittingEach(UpToTrip(batches));
      assert cut[0] == Fitting(b);
      if Trips(b) {
        assert cut == [Fitting(b)];
        assert Flat([Fitting(b)]) == Fitting(b);
        NothingFits(rest);
      } else {
        assert cut[1..] == FittingEach(UpToTrip(rest));
        CutAtTripIff(rest);
      }
    }
  }

  predicate AllFit(batches: seq<seq<Octets>>) {
    forall b <- batches, p <- b :: |p| <= 0x10_0000
  }

  /** Cutting batches short loses packets, unless every packet fits. */
  lemma {:induction false} FittingLoses(batches: seq<seq<Octets>>)
    ensures |Flat(FittingEach(batches))| <= |Flat(batches)|
    ensures |Flat(FittingEach(batches))| == |Flat(batches)| <==> AllFit(batches)
    ensures AllFit(batches) ==> FittingEach(batches) == batches
  {
    hide Fitting;
    if batches != [] {
      var b, rest := batches[0], batches[1..];
      FittingIff(b);
      FittingLoses(rest);
      assert FittingEach(batches)[0] == Fitting(b) && FittingEach(batches)[1..] == FittingEach(rest);
      assert AllFit(batches) <==> AllFit(rest) && forall p <- b :: |p| <= MAX_PACKET by {
        assert forall c :: c in batches <==> c == b || c in rest;
      }
      assert |Fitting(b)| == |b| ==> Fitting(b) == b;
    }
  }

  /** Over everything ever sent on a link: TCP delivers a prefix of what WSS delivers; they deliver the
      same exactly when no batch after one that trips TCP has anything to deliver; and either delivers
      what was sent, as the in-process bearer does, exactly when no packet is over 1 MiB. */
  lemma BearersAgreeIff(batches: seq<seq<Octets>>, mask: bool, keys: seq<seq<Octets>>)
    requires AreBatchKeys(batches, keys)
    ensures Reassembled(TcpWires(batches)) <= Delivered(WssWires(batches, mask, keys))
    ensures Reassembled(TcpWires(batches)) == Delivered(WssWires(batches, mask, keys)) <==> QuietAfterTrip(batches)
    ensures Delivered(WssWires(batches, mask, keys)) == Flat(batches) <==> AllFit(batches)
    ensures Reassembled(TcpWires(batches)) == Flat(batches) <==> AllFit(batches)
  {
    hide WssWires, Delivered, Reassembled, TcpWires, QuietAfterTrip, FittingEach, UpToTrip, Flat;
    WssBatchesDelivered(batches, mask, keys);
    TcpBatchesDelivered(batches);
    CutAtTripIff(batches);
    FittingLoses(batches);
    if AllFit(batches) {
      NoTrip(batches);
    }
  }

  lemma NoTrip(batches: seq<seq<Octets>>)
    requires AllFit(batches)
    ensures QuietAfterTrip(batches)
  {
    hide Fitting, Span;
    forall b | b in batches ensures !Trips(b) {
      FittingIff(b);
    }
  }

  lemma AloneInBatch(p: Octets)
    ensures Fitting([p]) == if |p| > MAX_PACKET then [] else [p]
    ensures Trips([p]) <==> MAX_PACKET < |p| < Span(4)
  {
    hide Span;
    assert [p][1..] == [] && Fitting([]) == [];
    assert Fitting([p]) == if |p| > MAX_PACKET then [] else [p];
  }

  lemma FlatTwo(a: seq<Octets>, b: seq<Octets>)
    ensures Flat([a]) == a && Flat([a, b]) == a + b
  {
    assert [a, b][1..] == [b] && [b][1..] == [] && [a][1..] == [];
  }

  /** The bearers can part: WSS carries on after an oversize packet, TCP does not. */
  lemma BearersCanPart(big: Octets, packet: Octets, key: Octets)
    requires MAX_PACKET < |big| < Span(4) && |packet| <= MAX_PACKET && |key| == 4
    ensures Delivered(WssWires([[big], [packet]], true, [[key], [key]])) == [packet]
    ensures Reassembled(TcpWires([[big], [packet]])) == []
  {
    hide Delivered, WssWires, Reassembled, TcpWires, Span, Fitting, Trips, Flat;
    var batches := [[big], [packet]];
    WssBatchesDelivered(batches, true, [[key], [key]]);
    TcpBatchesDelivered(batches);
    AloneInBatch(big);
    AloneInBatch(packet);
    assert UpToTrip(batches) == [[big]];
    assert FittingEach(batches) == [[], [packet]] && FittingEach([[big]]) == [[]];
    FlatTwo([], [packet]);
  }

  // ---- whole links ----

  /** Sends one batch, framing packets one after another; an oversize one raises out of it. */
  method SendOverWss(out: Outlet, packets: seq<Octets>, mask: bool, keys: seq<Octets>)
    requires |keys| == |packets| && AreKeys(keys)
    modifies out
    ensures out.sent == old(out.sent) + WssWire(packets, mask, keys)
  {
    hide Wire, PacketFrame, Admissible;
    for i := 0 to |packets|
      invariant out.sent + WssWire(packets[i..], mask, keys[i..])
                == old(out.sent) + WssWire(packets, mask, keys)
    {
      assert packets[i..][1..] == packets[i + 1..] && keys[i..][1..] == keys[i + 1..];
      var r := EncodeFrame(packets[i], mask, keys[i]);
      if r.Oversize? {
        return;
      }
      out.SendAll(r.wire);
    }
  }

  /** Sends one batch; a length that four bytes cannot hold raises out of it. */
  method SendOverTcp(out: Outlet, packets: seq<Octets>)
    modifies out
    ensures out.sent == old(out.sent) + FramedAll(packets)
  {
    hide Framed, Span;
    SpanValues();
    for i := 0 to |packets|
      invariant out.sent + FramedAll(packets[i..]) == old(out.sent) + FramedAll(packets)
    {
      assert packets[i..][1..] == packets[i + 1..];
      var raised := SendFramed(out, packets[i]);
      if raised {
        return;
      }
    }
  }

  lemma WssWiresStep(batches: seq<seq<Octets>>, mask: bool, keys: seq<seq<Octets>>, i: nat)
    requires AreBatchKeys(batches, keys) && i < |batches|
    ensures WssWires(batches[i..], mask, keys[i..])
            == WssWire(batches[i], mask, keys[i]) + WssWires(batches[i + 1..], mask, keys[i + 1..])
  {
    hide WssWire;
    assert batches[i..][1..] == batches[i + 1..] && keys[i..][1..] == keys[i + 1..];
  }

  lemma NoWires(mask: bool)
    ensures WssWires([], mask, []) == []
  {
  }

  /** The pump catches what a batch raises and goes on with the next. */
  method SendBatchesOverWss(out: Outlet, batches: seq<seq<Octets>>, mask: bool, keys: seq<seq<Octets>>)
    requires AreBatchKeys(batches, keys)
    modifies out
    ensures out.sent == old(out.sent) + WssWires(batches, mask, keys)
  {
    hide WssWire, WssWires;
    for i := 0 to |batches|
      invariant out.sent + WssWires(batches[i..], mask, keys[i..])
                == old(out.sent) + WssWires(batches, mask, keys)
    {
      WssWiresStep(batches, mask, keys, i);
      SendOverWss(out, batches[i], mask, keys[i]);
    }
    assert WssWires(batches[|batches|..], mask, keys[|batches|..]) == [] by { NoWires(mask); }
  }

  method SendBatchesOverTcp(out: Outlet, batches: seq<seq<Octets>>)
    modifies out
    ensures out.sent == old(out.sent) + TcpWires(batches)
  {
    hide FramedAll;
    for i := 0 to |batches|
      invariant out.sent + TcpWires(batches[i..]) == old(out.sent) + TcpWires(batches)
    {
      assert batches[i..][1..] == batches[i + 1..];
      SendOverTcp(out, batches[i]);
    }
  }

  /** The in-process bearer: each endpoint's send function is the other's deliver. */
  method SendInProcess(up: Uplink, link: nat, packets: seq<Octets>)
    modifies up
    ensures up.events == old(up.events) + DataEvents(link, packets)
  {
    for i := 0 to |packets|
      invariant up.events == old(up.events) + DataEvents(link, packets[..i])
    {
      up.Deliver(link, packets[i]);
      assert packets[..i + 1] == packets[..i] + [packets[i]];
    }
    assert packets[..|packets|] == packets;
  }

  /** In process, batch after batch. */
  method OverInProcess(up: Uplink, batches: seq<seq<Octets>>, link: nat)
    modifies up
    ensures up.events == old(up.events) + DataEvents(link, Flat(batches))
  {
    hide DataEvents;
    ghost var got := [];
    assert DataEvents(link, got) == [] by { assert |DataEvents(link, [])| == 0; }
    for i := 0 to |batches|
      invariant up.events == old(up.events) + DataEvents(link, got)
      invariant got + Flat(batches[i..]) == Flat(batches)
    {
      assert batches[i..][1..] == batches[i + 1..];
      SendInProcess(up, link, batches[i]);
      DataJoined(link, got, batches[i]);
      got := got + batches[i];
    }
    assert batches[|batches|..] == [] && got + [] == got;
  }

  /** A whole WSS link, sender to receiver, with the first `surplus` bytes read by the handshake. */
  method OverWss(up: Uplink, batches: seq<seq<Octets>>, mask: bool, keys: seq<seq<Octets>>,
                 surplus: nat, broken: bool, now: real, link: nat, role: Role)
    returns (ghost got: seq<Octets>, expired: bool)
    requires AreBatchKeys(batches, keys)
    requires surplus <= |WssWires(batches, mask, keys)|
    modifies up
    ensures up.events == old(up.events) + Life(link, role, got)
    ensures var fits := Flat(FittingEach(batches)); got <= fits && (!expired ==> got == fits)
  {
    hide WssWires, Delivered, FittingEach, Flat, Life;
    var out := new Outlet();
    SendBatchesOverWss(out, batches, mask, keys);
    assert out.sent == WssWires(batches, mask, keys);
    WssBatchesDelivered(batches, mask, keys);
    var sock := new Socket(out.sent[surplus..], broken, now);
    var c := new Conn(sock, out.sent[..surplus]);
    assert c.Stream() == out.sent;
    got := RunLink(up, c, link, role);
    expired := sock.expired;
  }

  /** A whole TCP link, sender to receiver, batch after batch. */
  method OverTcp(up: Uplink, batches: seq<seq<Octets>>, broken: bool, now: real, link: nat)
    modifies up
    ensures up.events == old(up.events) + DataEvents(link, Flat(FittingEach(UpToTrip(batches)))) + [Down(link)]
  {
    hide TcpWires, Reassembled, FittingEach, Flat, UpToTrip, DataEvents;
    var out := new Outlet();
    SendBatchesOverTcp(out, batches);
    assert out.sent == TcpWires(batches);
    TcpBatchesDelivered(batches);
    var sock := new Socket(out.sent, broken, now);
    ghost var got := RecvLoop(up, sock, link);
  }
}
