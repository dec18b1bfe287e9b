/** Whole messages (section 5.4 of RFC 6455): a control frame, or a binary packet in one or more
    fragments of at most 1 MiB together. Departing from the RFC, no control frame may interrupt the
    fragments of a packet. */
module Messages {
  import opened Bytes
  import opened Net
  import opened Frames

  // ---- the grammar ----

  /** What a peer says between two message boundaries. */
  datatype Unit = Packet(fragments: seq<Frame>) | Control(frame: Frame)

  /** The fragments' payloads laid end to end. */
  function Text(fs: seq<Frame>): Octets {
    if fs == [] then [] else fs[0].payload + Text(fs[1..])
  }

  function WireAll(fs: seq<Frame>): Octets
    requires forall i :: 0 <= i < |fs| ==> WellFormed(fs[i])
  {
    if fs == [] then [] else Wire(fs[0]) + WireAll(fs[1..])
  }

  /** Non-empty, only the last frame final, at most `room` bytes of payload in all. */
  predicate Fragments(fs: seq<Frame>, first: bv8, room: nat) {
    && fs != []
    && (forall i :: 0 <= i < |fs| ==> WellFormed(fs[i]) && (fs[i].final <==> i == |fs| - 1))
    && (forall i :: 0 <= i < |fs| ==> fs[i].opcode == if i == 0 then first else CONTINUATION)
    && |Text(fs)| <= room
  }

  predicate IsUnit(x: Unit) {
    match x
    case Packet(fs) => Fragments(fs, BINARY, MAX_PACKET)
    case Control(f) => IsControl(f.opcode) && Admissible(f, MAX_PACKET)
  }

  function UnitWire(x: Unit): Octets
    requires IsUnit(x)
  {
    match x
    case Packet(fs) => WireAll(fs)
    case Control(f) => Wire(f)
  }

  function UnitOpcode(x: Unit): bv8 {
    match x
    case Packet(_) => BINARY
    case Control(f) => f.opcode
  }

  function UnitPayload(x: Unit): Octets {
    match x
    case Packet(fs) => Text(fs)
    case Control(f) => f.payload
  }

  // ---- the parser ----

  datatype Message =
    | Message(opcode: bv8, payload: Octets, used: nat)
    | Broken(why: Error, used: nat)
    | Cut

  function ParseMessage(s: Octets): (m: Message)
    ensures m.Message? ==> 2 <= m.used <= |s| && |m.payload| <= MAX_PACKET
    ensures m.Broken? ==> m.used <= |s| && m.why !in {Closed, Expired}
  {
    match ParseFrame(s, MAX_PACKET)
    case Short => Cut
    case Refused(why, used) => Broken(why, used)
    case Got(final, opcode, payload, used) =>
      if IsControl(opcode) then Message(opcode, payload, used)
      else if opcode != BINARY then Broken(NotBinary, used)
      else if final then Message(opcode, payload, used)
      else ParseRest(s, used, payload)
  }

  /** The continuation of a packet whose first fragments, ending `at` bytes in, held `sofar`. */
  function ParseRest(s: Octets, at: nat, sofar: Octets): (m: Message)
    requires at <= |s| && |sofar| <= MAX_PACKET
    ensures m.Message? ==> at < m.used <= |s| && |m.payload| <= MAX_PACKET && m.opcode == BINARY
    ensures m.Broken? ==> m.used <= |s| && m.why !in {Closed, Expired}
    decreases |s| - at
  {
    match ParseFrame(s[at..], MAX_PACKET - |sofar|)
    case Short => Cut
    case Refused(why, used) => Broken(why, at + used)
    case Got(final, opcode, payload, used) =>
      if opcode != CONTINUATION then Broken(NotContinuation, at + used)
      else if final then Message(BINARY, sofar + payload, at + used)
      else ParseRest(s, at + used, sofar + payload)
  }

  // ---- grammar and parser agree ----

  lemma {:induction false} FragmentsParse(s: Octets, at: nat, sofar: Octets, fs: seq<Frame>, tail: Octets)
    requires at <= |s| && |sofar| <= MAX_PACKET
    requires Fragments(fs, CONTINUATION, MAX_PACKET - |sofar|)
    requires s[at..] == WireAll(fs) + tail
    ensures ParseRest(s, at, sofar) == Message(BINARY, sofar + Text(fs), at + |WireAll(fs)|)
    decreases |fs|
  {
    hide ParseFrame, Wire, WellFormed;
    var f, rest := fs[0], fs[1..];
    FirstFragment(fs, CONTINUATION, MAX_PACKET - |sofar|);
    assert s[at..] == Wire(f) + (WireAll(rest) + tail);
    AdmissibleParses(f, WireAll(rest) + tail, MAX_PACKET - |sofar|);
    if rest == [] {
      assert sofar + Text(fs) == sofar + f.payload;
    } else {
      var next := at + |Wire(f)|;
      assert s[next..] == s[at..][|Wire(f)|..];
      FragmentsParse(s, next, sofar + f.payload, rest, tail);
      assert sofar + Text(fs) == sofar + f.payload + Text(rest);
    }
  }

  lemma FirstFragment(fs: seq<Frame>, first: bv8, room: nat)
    requires Fragments(fs, first, room) && room <= MAX_PACKET && !IsControl(first)
    ensures Admissible(fs[0], room) && (fs[0].final <==> fs[1..] == [])
    ensures fs[1..] != [] ==> Fragments(fs[1..], CONTINUATION, room - |fs[0].payload|)
  {
    hide WellFormed;
    var rest := fs[1..];
    forall i | 0 <= i < |rest|
      ensures WellFormed(rest[i]) && (rest[i].final <==> i == |rest| - 1)
      ensures rest[i].opcode == CONTINUATION
    {
      assert rest[i] == fs[i + 1];
    }
  }

  /** Fragmentation does not matter: however a packet is split, masked and length-coded, the reader
      returns the whole of it, having consumed exactly its bytes. A control frame is returned too. */
  lemma UnitParses(x: Unit, tail: Octets)
    requires IsUnit(x)
    ensures ParseMessage(UnitWire(x) + tail) == Message(UnitOpcode(x), UnitPayload(x), |UnitWire(x)|)
  {
    hide ParseFrame, Wire, WellFormed;
    match x {
      case Control(f) => AdmissibleParses(f, tail, MAX_PACKET);
      case Packet(fs) =>
        FirstFragment(fs, BINARY, MAX_PACKET);
        var f, rest := fs[0], fs[1..];
        var s := WireAll(fs) + tail;
        assert s == Wire(f) + (WireAll(rest) + tail);
        AdmissibleParses(f, WireAll(rest) + tail, MAX_PACKET);
        if rest == [] {
          assert Text(fs) == f.payload;
        } else {
          FragmentsParse(s, |Wire(f)|, f.payload, rest, tail);
        }
    }
  }

  lemma {:induction false} RestIsFragments(s: Octets, at: nat, sofar: Octets) returns (fs: seq<Frame>)
    requires at <= |s| && |sofar| <= MAX_PACKET && ParseRest(s, at, sofar).Message?
    ensures var m := ParseRest(s, at, sofar);
            && Fragments(fs, CONTINUATION, MAX_PACKET - |sofar|)
            && WireAll(fs) == s[at..m.used] && sofar + Text(fs) == m.payload
    decreases |s| - at
  {
    hide ParseFrame, Wire, WellFormed, Recovered;
    var room := MAX_PACKET - |sofar|;
    var p := ParseFrame(s[at..], room);
    ParsedIsAdmissible(s[at..], room);
    var f := Recovered(s[at..], room);
    assert s[at..at + p.used] == s[at..][..p.used];
    if p.final {
      fs := [f];
      assert WireAll(fs) == Wire(f) && Text(fs) == f.payload;
    } else {
      var more := RestIsFragments(s, at + p.used, sofar + p.payload);
      fs := PrependFragment(f, CONTINUATION, more, room);
      assert sofar + Text(fs) == sofar + p.payload + Text(more);
      var m := ParseRest(s, at, sofar);
      assert s[at..m.used] == s[at..at + p.used] + s[at + p.used..m.used];
    }
  }

  lemma PrependFragment(f: Frame, first: bv8, more: seq<Frame>, room: nat) returns (fs: seq<Frame>)
    requires WellFormed(f) && !f.final && f.opcode == first && |f.payload| <= room
    requires Fragments(more, CONTINUATION, room - |f.payload|)
    ensures fs == [f] + more && Fragments(fs, first, room)
    ensures WireAll(fs) == Wire(f) + WireAll(more) && Text(fs) == f.payload + Text(more)
  {
    hide WellFormed, Wire;
    fs := [f] + more;
    assert fs[1..] == more;
  }

  lemma ParsedIsUnit(s: Octets) returns (x: Unit)
    requires ParseMessage(s).Message?
    ensures var m := ParseMessage(s);
            && IsUnit(x) && UnitWire(x) == s[..m.used]
            && UnitOpcode(x) == m.opcode && UnitPayload(x) == m.payload
  {
    hide ParseFrame, Wire, WellFormed, Recovered;
    var p, m := ParseFrame(s, MAX_PACKET), ParseMessage(s);
    ParsedIsAdmissible(s, MAX_PACKET);
    var f := Recovered(s, MAX_PACKET);
    if IsControl(p.opcode) {
      x := Control(f);
    } else if p.final {
      x := Packet([f]);
      assert WireAll([f]) == Wire(f) && Text([f]) == f.payload;
    } else {
      var more := RestIsFragments(s, p.used, p.payload);
      var fs := PrependFragment(f, BINARY, more, MAX_PACKET);
      x := Packet(fs);
      assert s[..m.used] == s[..p.used] + s[p.used..m.used];
    }
  }

  /** The message reader takes exactly the grammar. */
  lemma MessageGrammar(s: Octets, opcode: bv8, payload: Octets, used: nat)
    ensures ParseMessage(s) == Message(opcode, payload, used)
            <==> used <= |s| && exists x ::
                   IsUnit(x) && UnitWire(x) == s[..used]
                   && UnitOpcode(x) == opcode && UnitPayload(x) == payload
  {
    hide ParseMessage, IsUnit, UnitWire, UnitOpcode, UnitPayload;
    if ParseMessage(s) == Message(opcode, payload, used) {
      var x := ParsedIsUnit(s);
      assert IsUnit(x) && UnitWire(x) == s[..used];
    }
    if x :| used <= |s| && IsUnit(x) && UnitWire(x) == s[..used]
            && UnitOpcode(x) == opcode && UnitPayload(x) == payload
    {
      UnitParses(x, s[used..]);
      assert s == s[..used] + s[used..];
    }
  }

  lemma {:induction false} RestVerdictStands(s: Octets, more: Octets, at: nat, sofar: Octets)
    requires at <= |s| && |sofar| <= MAX_PACKET && !ParseRest(s, at, sofar).Cut?
    ensures ParseRest(s + more, at, sofar) == ParseRest(s, at, sofar)
    decreases |s| - at
  {
    hide ParseFrame;
    assert (s + more)[at..] == s[at..] + more;
    FrameVerdictStands(s[at..], more, MAX_PACKET - |sofar|);
    var p := ParseFrame(s[at..], MAX_PACKET - |sofar|);
    if p.Got? && p.opcode == CONTINUATION && !p.final {
      RestVerdictStands(s, more, at + p.used, sofar + p.payload);
    }
  }

  /** Once a message or an error has been read, later bytes cannot change it. */
  lemma MessageVerdictStands(s: Octets, more: Octets)
    requires !ParseMessage(s).Cut?
    ensures ParseMessage(s + more) == ParseMessage(s)
  {
    hide ParseFrame;
    FrameVerdictStands(s, more, MAX_PACKET);
    var p := ParseFrame(s, MAX_PACKET);
    if p.Got? && p.opcode == BINARY && !p.final {
      RestVerdictStands(s, more, p.used, p.payload);
    }
  }

  // ---- the reader ----

  /** What one more frame does to the parse of a packet's rest. */
  lemma RestStep(s: Octets, at: nat, sofar: Octets)
    requires at <= |s| && |sofar| <= MAX_PACKET
    ensures ParseRest(s, at, sofar) ==
            match ParseFrame(s[at..], MAX_PACKET - |sofar|)
            case Short => Cut
            case Refused(why, used) => Broken(why, at + used)
            case Got(final, opcode, payload, used) =>
              if opcode != CONTINUATION then Broken(NotContinuation, at + used)
              else if final then Message(BINARY, sofar + payload, at + used)
              else ParseRest(s, at + used, sofar + payload)
  {
    hide ParseFrame;
  }

  lemma JustOne(part: Octets)
    ensures Join([part]) == part
  {
  }

  lemma JoinOne(chunks: seq<Octets>, part: Octets)
    ensures Join(chunks + [part]) == Join(chunks) + part
  {
    JoinAppend(chunks, [part]);
    JustOne(part);
  }

  /** `ReadFramePart`, told in terms of the stream as it stood when the message began. */
  method NextPart(c: Conn, room: nat, ghost s: Octets, ghost buf: Octets, ghost at: nat)
    returns (r: Result<(bool, bv8, Octets)>)
    requires c.Valid() && Consumed(c, s, buf, at)
    modifies c`buf, c.sock`incoming, c.sock`now, c.sock`timeout, c.sock`expired
    ensures c.Valid() && c.OnTime(old(c.sock.now)) && (r == Err(Expired) ==> c.TimeIsUp())
    ensures c.sock.expired == (old(c.sock.expired) || r == Err(Expired))
    ensures r != Err(Expired) ==>
              match ParseFrame(s[at..], room)
              case Got(final, opcode, payload, used) =>
                r == Ok((final, opcode, payload)) && Consumed(c, s, buf, at + used)
              case Refused(why, used) => r == Err(why) && Consumed(c, s, buf, at + used)
              case Short => r == Err(Closed) && c.sock.incoming == []
  {
    hide Conn.Valid, ParseFrame;
    ghost var p := ParseFrame(s[at..], room);
    r := ReadFramePart(c, room);
    if !p.Short? && r != Err(Expired) {
      ConsumedTwice(c, s, buf, at, p.used);
    }
  }

  /** Collects the continuation frames of a packet whose first frame held `payload`. */
  method ReadRest(c: Conn, payload: Octets, ghost s: Octets, ghost buf: Octets, ghost start: nat)
    returns (r: Result<Octets>)
    requires start <= |s| && c.Valid() && Consumed(c, s, buf, start) && |payload| <= MAX_PACKET
    modifies c`buf, c.sock`incoming, c.sock`now, c.sock`timeout, c.sock`expired
    ensures c.Valid() && c.OnTime(old(c.sock.now)) && (r == Err(Expired) ==> c.TimeIsUp())
    ensures c.sock.expired == (old(c.sock.expired) || r == Err(Expired))
    ensures r != Err(Expired) ==>
              match ParseRest(s, start, payload)
              case Message(_, whole, used) => r == Ok(whole) && Consumed(c, s, buf, used)
              case Broken(why, used) => r == Err(why) && Consumed(c, s, buf, used)
              case Cut => r == Err(Closed) && c.sock.incoming == []
  {
    hide Conn.Valid, Consumed, ParseFrame, ParseRest, Join;
    var chunks, total, final := [payload], |payload|, false;
    ghost var at := start;
    assert Join(chunks) == payload by { JustOne(payload); }
    while !final
      invariant c.Valid() && c.OnTime(old(c.sock.now))
      invariant c.sock.expired == old(c.sock.expired)
      invariant total == |Join(chunks)| <= MAX_PACKET
      invariant at <= |s| && Consumed(c, s, buf, at)
      invariant ParseRest(s, start, payload) == if final then Message(BINARY, Join(chunks), at)
                                                else ParseRest(s, at, Join(chunks))
      decreases |s| - at
    {
      ghost var p := ParseFrame(s[at..], MAX_PACKET - total);
      RestStep(s, at, Join(chunks));
      var more := NextPart(c, MAX_PACKET - total, s, buf, at);
      if more.Err? {
        return Err(more.error);
      }
      at := at + p.used;
      var (last, continuation, part) := more.value;
      final := last;
      if continuation != CONTINUATION {
        return Err(NotContinuation);
      }
      total := total + |part|;
      JoinOne(chunks, part);
      chunks := chunks + [part];
    }
    r := Ok(Join(chunks));
  }

  /** Reads one message. However many fragments and chunks arrive, all reads share one deadline, and none
      gives up before it. */
  method ReadMessage(c: Conn) returns (r: Result<(bv8, Octets)>)
    requires c.Valid()
    modifies c`buf, c`deadline, c.sock`incoming, c.sock`now, c.sock`timeout, c.sock`expired
    ensures c.Valid() && old(c.sock.now) <= c.sock.now <= old(c.sock.now) + 15.0
    ensures r == Err(Expired) ==> c.sock.now == old(c.sock.now) + 15.0
    ensures c.sock.expired == (old(c.sock.expired) || r == Err(Expired))
    ensures r != Err(Expired) ==>
              match ParseMessage(old(c.Stream()))
              case Message(opcode, payload, used) =>
                r == Ok((opcode, payload)) && Consumed(c, old(c.Stream()), old(c.buf), used)
              case Broken(why, used) =>
                r == Err(why) && Consumed(c, old(c.Stream()), old(c.buf), used)
              case Cut => r == Err(Closed) && c.sock.incoming == []
  {
    hide ParseFrame, ParseRest;
    ghost var s, buf := c.Stream(), c.buf;
    c.BeginRead();
    var part := ReadFramePart(c, MAX_PACKET);
    if part.Err? {
      return Err(part.error);
    }
    var (final, opcode, payload) := part.value;
    if IsControl(opcode) {
      return Ok((opcode, payload));
    }
    if opcode != BINARY {
      return Err(NotBinary);
    }
    if final {
      return Ok((opcode, payload));
    }
    var whole := ReadRest(c, payload, s, buf, ParseFrame(s, MAX_PACKET).used);
    r := if whole.Ok? then Ok((opcode, whole.value)) else Err(whole.error);
  }
}
