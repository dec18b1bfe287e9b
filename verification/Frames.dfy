/** One WebSocket frame (section 5.2 of RFC 6455): a declarative grammar of what may be on the wire,
    the parser the link reader implements, and the encoder. The reader is more liberal than the RFC:
    any length form that can hold the length is taken, and masking is taken or left in either role. */
module Frames {
  import opened Bytes
  import opened Net

  datatype Form = Inline | Wide16 | Wide64

  datatype Frame = Frame(final: bool, opcode: bv8, form: Form, key: Option<Octets>, payload: Octets)

  const CONTINUATION: bv8 := 0x0
  const BINARY: bv8 := 0x2
  const CLOSE: bv8 := 0x8

  // ---- the grammar ----

  predicate Fits(form: Form, n: nat) {
    match form
    case Inline => n < 126
    case Wide16 => n < Span(2)
    case Wide64 => n < Span(8)
  }

  /** Something a peer can put on the wire with no extension bit set. */
  predicate WellFormed(f: Frame) {
    && f.opcode < 16
    && (f.key.Some? ==> |f.key.value| == 4)
    && Fits(f.form, |f.payload|)
  }

  /** The first byte: FIN and the opcode. */
  function First(final: bool, opcode: bv8): bv8 {
    (if final then 0x80 else 0) | opcode
  }

  /** The second byte: MASK and the length, or the code of the wider form that carries it. */
  function Second(masked: bool, form: Form, n: nat): bv8
    requires Fits(form, n)
  {
    (if masked then 0x80 else 0)
    | match form
      case Inline => Octet(n)
      case Wide16 => 126
      case Wide64 => 127
  }

  function LengthWidth(form: Form): nat {
    match form
    case Inline => 0
    case Wide16 => 2
    case Wide64 => 8
  }

  /** The bytes before the key and the payload. */
  function Header(f: Frame): (h: Octets)
    requires WellFormed(f)
    ensures |h| == 2 + LengthWidth(f.form)
  {
    [First(f.final, f.opcode), Second(f.key.Some?, f.form, |f.payload|)]
    + ToBE(|f.payload|, LengthWidth(f.form))
  }

  /** The key and the masked payload, or the bare payload. */
  function Body(f: Frame): Octets
    requires WellFormed(f)
  {
    if f.key.Some? then f.key.value + Masked(f.payload, f.key.value) else f.payload
  }

  function Wire(f: Frame): Octets
    requires WellFormed(f)
  {
    Header(f) + Body(f)
  }

  predicate IsControl(opcode: bv8) {
    opcode >= 8
  }

  /** The frames the reader takes when `remaining` bytes of message are still allowed: within the
      limits, and control frames whole and short (section 5.5 of RFC 6455). */
  predicate Admissible(f: Frame, remaining: nat) {
    && WellFormed(f)
    && |f.payload| <= remaining
    && |f.payload| <= MAX_PACKET
    && (IsControl(f.opcode) ==> f.final && |f.payload| <= 125)
  }

  // ---- the parser ----

  // Got and Refused say how many bytes were consumed; Short means the stream ended first.
  datatype Parsed =
    | Got(final: bool, opcode: bv8, payload: Octets, used: nat)
    | Refused(why: Error, used: nat)
    | Short

  predicate Extended(b0: bv8) { b0 & 0x70 != 0 }

  predicate Final(b0: bv8) { b0 & 0x80 != 0 }

  function Opcode(b0: bv8): bv8 { b0 & 0x0F }

  predicate HasKey(b1: bv8) { b1 & 0x80 != 0 }

  function Code(b1: bv8): nat { Value(b1 & 0x7F) }

  function FormOf(b1: bv8): Form {
    if Code(b1) == 126 then Wide16 else if Code(b1) == 127 then Wide64 else Inline
  }

  /** How many bytes come before the key and the payload. */
  function HeaderSize(b1: bv8): (h: nat)
    ensures 2 <= h <= 10
  {
    2 + LengthWidth(FormOf(b1))
  }

  /** The announced payload length, from the second byte and the length bytes after it. */
  function LengthOf(s: Octets): nat
    requires 2 <= |s| && HeaderSize(s[1]) <= |s|
  {
    if FormOf(s[1]).Inline? then Code(s[1]) else FromBE(s[2..HeaderSize(s[1])])
  }

  function ParseFrame(s: Octets, remaining: nat): (p: Parsed)
    ensures p.Got? ==> 2 <= p.used <= |s| && |p.payload| <= remaining && |p.payload| <= MAX_PACKET
    ensures p.Refused? ==> 2 <= p.used <= 10 && p.used <= |s| && p.why !in {Closed, Expired}
  {
    if |s| < 2 then Short
    else if Extended(s[0]) then Refused(Extensions, 2)
    else if |s| < HeaderSize(s[1]) then Short
    else
      var final, opcode, n := Final(s[0]), Opcode(s[0]), LengthOf(s);
      if n > remaining || n > MAX_PACKET then Refused(TooBig, HeaderSize(s[1]))
      else if IsControl(opcode) && (!final || n > 125) then Refused(BadControl, HeaderSize(s[1]))
      else ParseBody(s, HeaderSize(s[1]), final, opcode, HasKey(s[1]), n)
  }

  function ParseBody(s: Octets, h: nat, final: bool, opcode: bv8, masked: bool, n: nat): (p: Parsed)
    requires h <= |s|
    ensures p.Got? ==> h <= p.used <= |s| && |p.payload| == n && p.final == final && p.opcode == opcode
    ensures !p.Refused?
  {
    if masked then
      if |s| < h + 4 + n then Short
      else Got(final, opcode, Masked(s[h + 4..h + 4 + n], s[h..h + 4]), h + 4 + n)
    else
      if |s| < h + n then Short
      else Got(final, opcode, s[h..h + n], h + n)
  }

  // ---- grammar and parser agree ----

  lemma FirstOctet(final: bool, opcode: bv8)
    requires opcode < 16
    ensures var b := First(final, opcode);
            !Extended(b) && Opcode(b) == opcode && (Final(b) <==> final)
  {
  }

  lemma SevenBits(c: bv8)
    requires Value(c) < 128
    ensures (0x80 | c) & 0x7F == c && (0 | c) & 0x7F == c
    ensures (0x80 | c) & 0x80 != 0 && (0 | c) & 0x80 == 0
  {
  }

  lemma SecondOctet(masked: bool, form: Form, n: nat)
    requires Fits(form, n)
    ensures var b := Second(masked, form, n);
            && (HasKey(b) <==> masked) && FormOf(b) == form
            && (form.Inline? ==> Code(b) == n)
  {
    hide Span;
    if form.Inline? {
      SevenBits(Octet(n));
    }
  }

  lemma SplitFirst(b: bv8)
    requires !Extended(b)
    ensures Opcode(b) < 16 && b == First(Final(b), Opcode(b))
  {
  }

  lemma SplitSecond(b: bv8, n: nat)
    requires FormOf(b).Inline? ==> n == Code(b)
    requires Fits(FormOf(b), n)
    ensures b == Second(HasKey(b), FormOf(b), n)
  {
    hide Span;
    if FormOf(b).Inline? {
      OctetValue(b & 0x7F);
    }
  }

  lemma InlineCode(b: bv8)
    ensures FormOf(b).Inline? ==> Code(b) < 126
  {
  }

  lemma HeaderParses(f: Frame, tail: Octets)
    requires WellFormed(f)
    ensures var s := Header(f) + tail;
            && !Extended(s[0]) && Opcode(s[0]) == f.opcode && (Final(s[0]) <==> f.final)
            && (HasKey(s[1]) <==> f.key.Some?)
            && HeaderSize(s[1]) == |Header(f)| && FormOf(s[1]) == f.form
            && LengthOf(s) == |f.payload|
  {
    hide ToBE, FromBE, Span, First, Second, Extended, Opcode, Final, HasKey, Code, FormOf;
    var n := |f.payload|;
    FirstOctet(f.final, f.opcode);
    SecondOctet(f.key.Some?, f.form, n);
    if !f.form.Inline? {
      UnpackPacked(n, LengthWidth(f.form));
      assert (Header(f) + tail)[2..2 + LengthWidth(f.form)] == ToBE(n, LengthWidth(f.form));
    }
  }

  lemma BodyParses(f: Frame, h: Octets, tail: Octets)
    requires WellFormed(f)
    ensures ParseBody(h + Body(f) + tail, |h|, f.final, f.opcode, f.key.Some?, |f.payload|)
            == Got(f.final, f.opcode, f.payload, |h| + |Body(f)|)
  {
    var s, m, n := h + Body(f) + tail, |h|, |f.payload|;
    if f.key.Some? {
      assert s[m..m + 4] == f.key.value;
      assert s[m + 4..m + 4 + n] == Masked(f.payload, f.key.value);
      UnmaskMasked(f.payload, f.key.value);
    } else {
      assert s[m..m + n] == f.payload;
    }
  }

  /** Completeness: an admissible frame is read back exactly, whatever follows it. */
  lemma AdmissibleParses(f: Frame, tail: Octets, remaining: nat)
    requires Admissible(f, remaining)
    ensures ParseFrame(Wire(f) + tail, remaining) == Got(f.final, f.opcode, f.payload, |Wire(f)|)
  {
    hide ToBE, FromBE, Span, First, Second, Extended, Opcode, Final, HasKey, Code, FormOf;
    HeaderParses(f, Body(f) + tail);
    BodyParses(f, Header(f), tail);
    assert Wire(f) + tail == Header(f) + (Body(f) + tail);
    assert Wire(f) + tail == Header(f) + Body(f) + tail;
  }

  /** A frame that is well formed but not admissible is refused once its header has been read, with
      its body still unread. */
  lemma InadmissibleRefused(f: Frame, tail: Octets, remaining: nat)
    requires WellFormed(f) && !Admissible(f, remaining)
    ensures ParseFrame(Header(f) + tail, remaining)
            == Refused(if |f.payload| > remaining || |f.payload| > MAX_PACKET then TooBig else BadControl,
                       |Header(f)|)
  {
    hide ToBE, FromBE, Span, First, Second, Extended, Opcode, Final, HasKey, Code, FormOf;
    HeaderParses(f, tail);
  }

  /** A header is refused exactly when the frame it announces is inadmissible: the body, arrived or not,
      has no say. */
  lemma RefusedIffInadmissible(f: Frame, s: Octets, remaining: nat)
    requires WellFormed(f) && Header(f) <= s
    ensures ParseFrame(s, remaining).Refused? <==> !Admissible(f, remaining)
    ensures ParseFrame(s, remaining).Refused? ==> ParseFrame(s, remaining).used == |Header(f)|
  {
    hide ToBE, FromBE, Span, First, Second, Extended, Opcode, Final, HasKey, Code, FormOf;
    var tail := s[|Header(f)|..];
    assert s == Header(f) + tail;
    HeaderParses(f, tail);
  }

  /** The frame whose wire bytes the parser consumed. */
  function Recovered(s: Octets, remaining: nat): (f: Frame)
    requires ParseFrame(s, remaining).Got?
  {
    var h := HeaderSize(s[1]);
    var p := ParseFrame(s, remaining);
    Frame(p.final, p.opcode, FormOf(s[1]), if HasKey(s[1]) then Some(s[h..h + 4]) else None, p.payload)
  }

  lemma RecoveredHeader(s: Octets, remaining: nat)
    requires ParseFrame(s, remaining).Got?
    ensures var f := Recovered(s, remaining);
            Admissible(f, remaining) && |s| >= |Header(f)| && Header(f) == s[..|Header(f)|]
  {
    hide ToBE, FromBE, Span, First, Second, Extended, Opcode, Final, HasKey, Code, FormOf;
    var f := Recovered(s, remaining);
    var w := LengthWidth(f.form);
    assert |f.payload| == LengthOf(s);
    if !f.form.Inline? {
      PackUnpacked(s[2..2 + w]);
    } else {
      InlineCode(s[1]);
    }
    SplitFirst(s[0]);
    SplitSecond(s[1], |f.payload|);
    assert ToBE(|f.payload|, w) == s[2..2 + w];
    assert s[..2 + w] == [s[0], s[1]] + s[2..2 + w];
  }

  /** Soundness: whatever the parser takes is the wire form of an admissible frame. */
  lemma ParsedIsAdmissible(s: Octets, remaining: nat)
    requires ParseFrame(s, remaining).Got?
    ensures var f := Recovered(s, remaining);
            var p := ParseFrame(s, remaining);
            && Admissible(f, remaining) && Wire(f) == s[..p.used]
            && f.final == p.final && f.opcode == p.opcode && f.payload == p.payload
  {
    hide ToBE, FromBE, Span, First, Second, Extended, Opcode, Final, HasKey, Code, FormOf;
    var f, p := Recovered(s, remaining), ParseFrame(s, remaining);
    RecoveredHeader(s, remaining);
    var h := |Header(f)|;
    if f.key.Some? {
      UnmaskMasked(s[h + 4..p.used], f.key.value);
      assert s[h..p.used] == s[h..h + 4] + s[h + 4..p.used];
      assert Body(f) == s[h..p.used];
    }
    assert s[..p.used] == s[..h] + s[h..p.used];
  }

  /** The reader takes exactly the grammar. */
  lemma FrameGrammar(s: Octets, remaining: nat, final: bool, opcode: bv8, payload: Octets, used: nat)
    ensures ParseFrame(s, remaining) == Got(final, opcode, payload, used)
            <==> used <= |s| && exists f ::
                   Admissible(f, remaining) && Wire(f) == s[..used]
                   && f.final == final && f.opcode == opcode && f.payload == payload
  {
    hide ParseFrame, Recovered, WellFormed, Wire;
    if ParseFrame(s, remaining) == Got(final, opcode, payload, used) {
      ParsedIsAdmissible(s, remaining);
      var f := Recovered(s, remaining);
      assert Wire(f) == s[..used];
    }
    if f :| used <= |s| && Admissible(f, remaining) && Wire(f) == s[..used]
            && f.final == final && f.opcode == opcode && f.payload == payload
    {
      AdmissibleParses(f, s[used..], remaining);
      assert s == s[..used] + s[used..];
    }
  }

  /** The length two, four or ten bytes of header announce, spelled out. */
  predicate Announces(h: Octets, n: nat)
    requires |h| >= 2
  {
    var code := h[1] & 0x7F;
    if code < 126 then |h| == 2 && n == code as nat
    else if code == 126 then |h| == 4 && n == 256 * (h[2] as nat) + (h[3] as nat)
    else |h| == 10 && n == 0x1_0000_0000 * Quad(h, 2) + Quad(h, 6)
  }

  lemma LengthAnnounced(s: Octets)
    requires 2 <= |s| && HeaderSize(s[1]) <= |s|
    ensures Announces(s[..HeaderSize(s[1])], LengthOf(s))
  {
    hide FromBE;
    var h := s[..HeaderSize(s[1])];
    assert h[1] == s[1] && h[2..] == s[2..HeaderSize(s[1])];
    if FormOf(s[1]).Wide16? {
      SpelledByTwo(h[2..]);
    } else if FormOf(s[1]).Wide64? {
      SpelledByEight(h[2..]);
    }
  }

  /** With the key at `h` and the masked bytes behind it, this is the text: each byte is what its masked
      byte and the byte of the key whose turn it is XOR to. */
  predicate Uncovers(s: Octets, h: nat, text: Octets) {
    && h + 4 + |text| <= |s|
    && forall i :: 0 <= i < |text| ==> text[i] == s[h + 4 + i] ^ s[h + i % 4]
  }

  lemma BodyText(s: Octets, h: nat, final: bool, opcode: bv8, masked: bool, n: nat)
    requires h <= |s| && ParseBody(s, h, final, opcode, masked, n).Got?
    ensures var p := ParseBody(s, h, final, opcode, masked, n);
            if masked then p.used == h + 4 + n && Uncovers(s, h, p.payload)
            else p.used == h + n && p.payload == s[h..h + n]
  {
    if masked {
      var text, key := s[h + 4..h + 4 + n], s[h..h + 4];
      hide Masked;
      forall i | 0 <= i < n ensures Masked(text, key)[i] == s[h + 4 + i] ^ s[h + i % 4] {
        MaskedAt(text, key, i);
      }
    }
  }

  lemma BodyOfFrame(s: Octets, remaining: nat)
    requires ParseFrame(s, remaining).Got?
    ensures 2 <= |s| && HeaderSize(s[1]) <= |s|
    ensures ParseFrame(s, remaining) == ParseBody(s, HeaderSize(s[1]), Final(s[0]), Opcode(s[0]), HasKey(s[1]), LengthOf(s))
    ensures !Extended(s[0])
  {
    hide LengthOf, ParseBody, HeaderSize, Final, Opcode, HasKey, Extended;
  }

  /** Which bytes mean what, without the help of the grammar: the bits of the first byte, the length, and
      the text, bare or under the key. */
  lemma FrameBytes(s: Octets, remaining: nat)
    requires ParseFrame(s, remaining).Got?
    ensures var p := ParseFrame(s, remaining);
            && s[0] & 0x70 == 0 && (p.final <==> s[0] & 0x80 != 0) && p.opcode == s[0] & 0x0F
            && var masked := s[1] & 0x80 != 0;
               var h := p.used - |p.payload| - if masked then 4 else 0;
               && 2 <= h && Announces(s[..h], |p.payload|)
               && if masked then Uncovers(s, h, p.payload) else p.payload == s[h..p.used]
  {
    BodyOfFrame(s, remaining);
    LengthAnnounced(s);
    BodyText(s, HeaderSize(s[1]), Final(s[0]), Opcode(s[0]), HasKey(s[1]), LengthOf(s));
    hide LengthOf, Announces, ParseFrame, ParseBody, HeaderSize, Uncovers;
  }

  /** A verdict reached on part of a stream stands whatever arrives afterwards. */
  lemma FrameVerdictStands(s: Octets, more: Octets, remaining: nat)
    requires !ParseFrame(s, remaining).Short?
    ensures ParseFrame(s + more, remaining) == ParseFrame(s, remaining)
  {
    hide FromBE, ParseBody, Extended, Opcode, Final, HasKey, Code, FormOf;
    var t := s + more;
    assert t[0] == s[0] && t[1] == s[1];
    if !Extended(s[0]) {
      var h := HeaderSize(s[1]);
      if h <= |s| {
        assert t[2..h] == s[2..h];
        BodyVerdictStands(s, more, h, HasKey(s[1]), LengthOf(s));
      }
    }
  }

  lemma BodyVerdictStands(s: Octets, more: Octets, h: nat, masked: bool, n: nat)
    requires h <= |s|
    ensures forall final, opcode :: !ParseBody(s, h, final, opcode, masked, n).Short? ==>
              ParseBody(s + more, h, final, opcode, masked, n) == ParseBody(s, h, final, opcode, masked, n)
  {
    hide Masked;
    if masked && h + 4 + n <= |s| {
      assert (s + more)[h..h + 4] == s[h..h + 4];
      assert (s + more)[h + 4..h + 4 + n] == s[h + 4..h + 4 + n];
    } else if !masked && h + n <= |s| {
      assert (s + more)[h..h + n] == s[h..h + n];
    }
  }

  // ---- the encoder ----

  /** The shortest form that holds the length. */
  function Minimal(n: nat): (form: Form) {
    if n < 126 then Inline else if n < 65536 then Wide16 else Wide64
  }

  /** One packet as one final binary frame. */
  function PacketFrame(payload: Octets, key: Option<Octets>): Frame {
    Frame(true, BINARY, Minimal(|payload|), key, payload)
  }

  lemma PacketFrameAdmissible(payload: Octets, key: Option<Octets>)
    requires |payload| <= MAX_PACKET && (key.Some? ==> |key.value| == 4)
    ensures Admissible(PacketFrame(payload, key), MAX_PACKET)
  {
    SpanValues();
  }

  /** No other length form carries the same packet in fewer bytes. */
  lemma PacketFrameIsShortest(payload: Octets, key: Option<Octets>, form: Form)
    requires |payload| <= MAX_PACKET && (key.Some? ==> |key.value| == 4)
    requires WellFormed(Frame(true, BINARY, form, key, payload))
    ensures WellFormed(PacketFrame(payload, key))
    ensures |Wire(PacketFrame(payload, key))| <= |Wire(Frame(true, BINARY, form, key, payload))|
  {
    PacketFrameAdmissible(payload, key);
    SpanValues();
    hide First, Second, ToBE, Masked, Span;
  }

  /** The bytes a packet is sent as, spelled out: 0x82, the length in the shortest form, and the packet,
      bare or under the key. */
  lemma PacketBytes(payload: Octets, key: Option<Octets>)
    requires |payload| <= 0x10_0000 && (key.Some? ==> |key.value| == 4)
    ensures WellFormed(PacketFrame(payload, key))
    ensures var w, n := Wire(PacketFrame(payload, key)), |payload|;
            var h := if n < 126 then 2 else if n < 65536 then 4 else 10;
            && |w| == h + n + (if key.Some? then 4 else 0)
            && w[0] == 0x82 && (w[1] & 0x80 != 0 <==> key.Some?)
            && Announces(w[..h], n)
            && if key.Some? then
                 w[h..h + 4] == key.value && Uncovers(w, h, payload)
               else w[h..] == payload
  {
    hide Announces, Masked, Uncovers, ParseFrame;
    var f := PacketFrame(payload, key);
    PacketFrameAdmissible(payload, key);
    AdmissibleParses(f, [], MAX_PACKET);
    var w := Wire(f);
    assert w + [] == w;
    FrameBytes(w, MAX_PACKET);
  }

  datatype Encoded = Bytes(wire: Octets) | Oversize

  /** Encodes one packet; `random` are the four bytes the masking key is drawn from. */
  method EncodeFrame(payload: Octets, mask: bool, random: Octets) returns (r: Encoded)
    requires |random| == 4
    ensures r.Oversize? <==> |payload| > 0x10_0000
    ensures r.Bytes? ==>
              var f := PacketFrame(payload, if mask then Some(random) else None);
              Admissible(f, MAX_PACKET) && r.wire == Wire(f)
  {
    if |payload| > MAX_PACKET {
      return Oversize;
    }
    PacketFrameAdmissible(payload, if mask then Some(random) else None);
    var header: Octets := [0x82];
    var n := |payload|;
    var mb: bv8 := if mask then 0x80 else 0;
    if n < 126 {
      header := header + [mb | Octet(n)];
    } else if n < 65536 {
      header := header + [mb | 126];
      header := header + ToBE(n, 2);
    } else {
      header := header + [mb | 127];
      header := header + ToBE(n, 8);
    }
    ghost var f := PacketFrame(payload, if mask then Some(random) else None);
    assert header == Header(f);
    var out := payload;
    if mask {
      header := header + random;
      out := Masked(payload, random);
    }
    r := Bytes(header + out);
    assert Header(f) + Body(f) == header + out;
  }

  // ---- the reader ----

  /** After a read that consumed `used` bytes of `stream`: the rest is still there, in order, and the
      buffer holds no more than what was already in it. */
  ghost predicate Consumed(c: Conn, stream: Octets, buf: Octets, used: nat)
    reads c, c.sock
  {
    used <= |stream| && c.Stream() == stream[used..] && c.buf == Leftover(buf, used)
  }

  /** Two reads in a row consume the sum of what each consumed. */
  lemma ConsumedTwice(c: Conn, stream: Octets, buf: Octets, at: nat, used: nat)
    requires at <= |stream| && Consumed(c, stream[at..], Leftover(buf, at), used)
    ensures Consumed(c, stream, buf, at + used)
  {
    assert stream[at..][used..] == stream[at + used..];
  }

  /** `RecvExact`, told in terms of the stream as it stood when the frame began: `at` bytes of it
      have been consumed so far. */
  method Pull(c: Conn, n: nat, ghost s: Octets, ghost buf: Octets, ghost at: nat)
    returns (r: Result<Octets>)
    requires c.Valid() && Consumed(c, s, buf, at)
    modifies c`buf, c.sock`incoming, c.sock`now, c.sock`timeout, c.sock`expired
    ensures c.Valid() && c.OnTime(old(c.sock.now)) && (r == Err(Expired) ==> c.TimeIsUp())
    ensures c.sock.expired == (old(c.sock.expired) || r == Err(Expired))
    ensures r == Err(Expired) || r == if at + n <= |s| then Ok(s[at..at + n]) else Err(Closed)
    ensures r.Ok? ==> Consumed(c, s, buf, at + n)
    ensures r.Err? ==> c.Stream() == s[at..]
    ensures r == Err(Closed) ==> c.sock.incoming == []
  {
    r := c.RecvExact(n);
    if r.Ok? {
      assert s[at..][..n] == s[at..at + n];
      assert s[at..][n..] == s[at + n..];
    }
  }

  /** The extended length, when `code` announces one. */
  method ReadLength(c: Conn, code: nat, ghost s: Octets, ghost buf: Octets)
    returns (r: Result<nat>)
    requires c.Valid() && Consumed(c, s, buf, 2) && 2 <= |s| && code == Code(s[1])
    modifies c`buf, c.sock`incoming, c.sock`now, c.sock`timeout, c.sock`expired
    ensures c.Valid() && c.OnTime(old(c.sock.now)) && (r == Err(Expired) ==> c.TimeIsUp())
    ensures c.sock.expired == (old(c.sock.expired) || r == Err(Expired))
    ensures r == Err(Expired)
            || r == if HeaderSize(s[1]) <= |s| then Ok(LengthOf(s)) else Err(Closed)
    ensures r.Ok? ==> Consumed(c, s, buf, HeaderSize(s[1]))
    ensures r == Err(Closed) ==> c.sock.incoming == []
  {
    hide FromBE, Code;
    if code < 126 || code > 127 {
      return Ok(code);
    }
    var wide := Pull(c, if code == 126 then 2 else 8, s, buf, 2);
    r := if wide.Ok? then Ok(FromBE(wide.value)) else Err(wide.error);
  }

  /** The masking key, when there is one, and the payload it covers. */
  method ReadBody(c: Conn, masked: bool, n: nat,
                  ghost s: Octets, ghost buf: Octets, ghost h: nat, ghost final: bool, ghost opcode: bv8)
    returns (r: Result<Octets>)
    requires c.Valid() && Consumed(c, s, buf, h)
    modifies c`buf, c.sock`incoming, c.sock`now, c.sock`timeout, c.sock`expired
    ensures c.Valid() && c.OnTime(old(c.sock.now)) && (r == Err(Expired) ==> c.TimeIsUp())
    ensures c.sock.expired == (old(c.sock.expired) || r == Err(Expired))
    ensures r != Err(Expired) ==>
              match ParseBody(s, h, final, opcode, masked, n)
              case Got(_, _, payload, used) => r == Ok(payload) && Consumed(c, s, buf, used)
              case _ => r == Err(Closed) && c.sock.incoming == []
  {
    hide Masked;
    var key := [];
    if masked {
      var four := Pull(c, 4, s, buf, h);
      if four.Err? {
        return Err(four.error);
      }
      key := four.value;
    }
    var rest := Pull(c, n, s, buf, if masked then h + 4 else h);
    if rest.Err? {
      return Err(rest.error);
    }
    r := Ok(if masked then Masked(rest.value, key) else rest.value);
  }

  /** Everything before the key and the payload: the first two bytes and the payload length. */
  method ReadHeader(c: Conn, ghost s: Octets, ghost buf: Octets) returns (r: Result<(bv8, bv8, nat)>)
    requires c.Valid() && Consumed(c, s, buf, 0)
    modifies c`buf, c.sock`incoming, c.sock`now, c.sock`timeout, c.sock`expired
    ensures c.Valid() && c.OnTime(old(c.sock.now)) && (r == Err(Expired) ==> c.TimeIsUp())
    ensures c.sock.expired == (old(c.sock.expired) || r == Err(Expired))
    ensures r != Err(Expired) ==>
              if 2 <= |s| && Extended(s[0]) then r == Err(Extensions) && Consumed(c, s, buf, 2)
              else if 2 <= |s| && HeaderSize(s[1]) <= |s| then
                r == Ok((s[0], s[1], LengthOf(s))) && Consumed(c, s, buf, HeaderSize(s[1]))
              else r == Err(Closed) && c.sock.incoming == []
  {
    hide LengthOf, HeaderSize, Extended, Code;
    var two := Pull(c, 2, s, buf, 0);
    if two.Err? {
      return Err(two.error);
    }
    var b0, b1 := two.value[0], two.value[1];
    if Extended(b0) {
      return Err(Extensions);
    }
    var length := ReadLength(c, Code(b1), s, buf);
    r := if length.Ok? then Ok((b0, b1, length.value)) else Err(length.error);
  }

  /** Reads one frame off the connection. */
  method ReadFramePart(c: Conn, remaining: nat) returns (r: Result<(bool, bv8, Octets)>)
    requires c.Valid()
    modifies c`buf, c.sock`incoming, c.sock`now, c.sock`timeout, c.sock`expired
    ensures c.Valid() && c.OnTime(old(c.sock.now)) && (r == Err(Expired) ==> c.TimeIsUp())
    ensures c.sock.expired == (old(c.sock.expired) || r == Err(Expired))
    ensures r != Err(Expired) ==>
              match ParseFrame(old(c.Stream()), remaining)
              case Got(final, opcode, payload, used) =>
                r == Ok((final, opcode, payload)) && Consumed(c, old(c.Stream()), old(c.buf), used)
              case Refused(why, used) =>
                r == Err(why) && Consumed(c, old(c.Stream()), old(c.buf), used)
              case Short => r == Err(Closed) && c.sock.incoming == []
  {
    hide LengthOf, HeaderSize, ParseBody, Extended, Opcode, Final, HasKey;
    ghost var s, buf := c.Stream(), c.buf;
    var header := ReadHeader(c, s, buf);
    if header.Err? {
      return Err(header.error);
    }
    var (b0, b1, n) := header.value;
    var final, opcode := Final(b0), Opcode(b0);
    if n > remaining || n > MAX_PACKET {
      return Err(TooBig);
    }
    if IsControl(opcode) && (!final || n > 125) {
      return Err(BadControl);
    }
    var payload := ReadBody(c, HasKey(b1), n, s, buf, HeaderSize(b1), final, opcode);
    r := if payload.Ok? then Ok((final, opcode, payload.value)) else Err(payload.error);
  }
}
