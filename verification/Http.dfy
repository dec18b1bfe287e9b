/** The HTTP head reader of the Upgrade handshake, and the handover of its surplus bytes to the link. */
module Http {
  import opened Bytes
  import opened Net
  import opened Links
  import opened Seam

  const MAX_HEADER: nat := 16384
  const HANDSHAKE_TIMEOUT: real := 5.0
  const DELIMITER: Octets := [13, 10, 13, 10]

  predicate DelimiterAt(s: Octets, i: nat) {
    i + 4 <= |s| && s[i..i + 4] == DELIMITER
  }

  /** Where the first blank line starts. */
  function FindDelimiter(s: Octets): (r: Option<nat>)
    ensures r.Some? ==> DelimiterAt(s, r.value) && forall j: nat :: j < r.value ==> !DelimiterAt(s, j)
    ensures r.None? ==> forall j: nat :: !DelimiterAt(s, j)
  {
    FindFrom(s, 0)
  }

  function FindFrom(s: Octets, at: nat): (r: Option<nat>)
    requires forall j: nat :: j < at ==> !DelimiterAt(s, j)
    ensures r.Some? ==> DelimiterAt(s, r.value) && forall j: nat :: j < r.value ==> !DelimiterAt(s, j)
    ensures r.None? ==> forall j: nat :: !DelimiterAt(s, j)
    decreases |s| - at
  {
    if at + 4 > |s| then None
    else if DelimiterAt(s, at) then Some(at)
    else FindFrom(s, at + 1)
  }

  /** A prefix of the stream contains a blank line exactly when the stream's first one fits in it. */
  lemma DelimiterInPrefix(s: Octets, k: nat)
    requires k <= |s|
    ensures FindDelimiter(s[..k]) ==
            if FindDelimiter(s).Some? && FindDelimiter(s).value + 4 <= k then FindDelimiter(s) else None
  {
    var whole, part := FindDelimiter(s), FindDelimiter(s[..k]);
    if whole.Some? && whole.value + 4 <= k {
      assert DelimiterAt(s[..k], whole.value);
    }
    if part.Some? {
      assert DelimiterAt(s, part.value);
      assert forall j: nat :: j < part.value && DelimiterAt(s, j) ==> DelimiterAt(s[..k], j);
    }
  }

  // ---- every way a head read can go ----

  /** One receive takes the reader from `have` buffered bytes to `next`. */
  predicate Step(stream: Octets, have: nat, next: nat) {
    && have <= |stream| && have <= MAX_HEADER
    && FindDelimiter(stream[..have]).None?
    && have < next <= |stream| && next <= have + 4096 && next <= MAX_HEADER + 1
  }

  /** The levels the buffer goes through, under some chunking of the stream. */
  predicate Levels(stream: Octets, levels: seq<nat>) {
    && levels != [] && levels[0] == 0
    && forall i :: 0 < i < |levels| ==> Step(stream, levels[i - 1], levels[i])
  }

  predicate Reads(stream: Octets, have: nat) {
    have <= |stream| && have <= MAX_HEADER && FindDelimiter(stream[..have]).Some?
  }

  /** A run no deadline cut short: it has found the blank line, gone over the limit or hit the end. */
  predicate Complete(stream: Octets, levels: seq<nat>) {
    && Levels(stream, levels)
    && var last := levels[|levels| - 1];
       last <= |stream| && (Reads(stream, last) || last > MAX_HEADER || last == |stream|)
  }

  /** Where the head ends, counting the blank line. */
  function HeadEnd(stream: Octets): nat
    requires FindDelimiter(stream).Some?
  {
    FindDelimiter(stream).value + 4
  }

  ghost predicate EveryRunReads(stream: Octets) {
    forall levels :: Complete(stream, levels) ==> Reads(stream, levels[|levels| - 1])
  }

  ghost predicate SomeRunReads(stream: Octets) {
    exists levels :: Complete(stream, levels) && Reads(stream, levels[|levels| - 1])
  }

  /** The head is read whatever the chunking exactly when it ends by byte 12289, or the peer sends no
      more than 16384 bytes in all: a later head can be swallowed together with what follows it. */
  lemma EveryRunReadsIff(stream: Octets)
    requires FindDelimiter(stream).Some?
    ensures EveryRunReads(stream) <==> HeadEnd(stream) <= 12289 || |stream| <= 16384
  {
    hide FindDelimiter;
    var e := HeadEnd(stream);
    DelimiterInPrefix(stream, |stream|);
    assert stream[..|stream|] == stream;
    if e <= 12289 || |stream| <= MAX_HEADER {
      forall levels | Complete(stream, levels) ensures Reads(stream, levels[|levels| - 1]) {
        var last := levels[|levels| - 1];
        DelimiterInPrefix(stream, last);
        if |levels| > 1 {
          var prior := levels[|levels| - 2];
          assert Step(stream, prior, last);
          DelimiterInPrefix(stream, prior);
        }
      }
    } else {
      var levels := [0, 4096, 8192, 12288, 12289, 16385];
      forall i | 0 < i < |levels| ensures Step(stream, levels[i - 1], levels[i]) {
        DelimiterInPrefix(stream, levels[i - 1]);
      }
      assert Complete(stream, levels) && !Reads(stream, levels[|levels| - 1]);
    }
  }

  /** Some chunking lets the head through exactly when it ends by byte 16384. */
  lemma SomeRunReadsIff(stream: Octets)
    requires FindDelimiter(stream).Some?
    ensures SomeRunReads(stream) <==> HeadEnd(stream) <= 16384
  {
    hide FindDelimiter;
    var e := HeadEnd(stream);
    if e <= MAX_HEADER {
      var levels := seq(e + 1, i => i);
      forall i | 0 < i < |levels| ensures Step(stream, levels[i - 1], levels[i]) {
        DelimiterInPrefix(stream, levels[i - 1]);
      }
      DelimiterInPrefix(stream, e);
      assert levels[|levels| - 1] == e;
      assert Complete(stream, levels) && Reads(stream, e);
    }
    if levels :| Complete(stream, levels) && Reads(stream, levels[|levels| - 1]) {
      DelimiterInPrefix(stream, levels[|levels| - 1]);
    }
  }

  /** A head of 12290 bytes, well within the limit, that one chunking reads and another refuses. */
  lemma RefusedUnderOneChunking() returns (stream: Octets)
    ensures FindDelimiter(stream).Some? && HeadEnd(stream) == 12290 && |stream| == 16385
    ensures SomeRunReads(stream) && !EveryRunReads(stream)
  {
    hide SomeRunReads, EveryRunReads;
    var line: Octets := seq(12286, _ => 65);
    stream := line + DELIMITER + seq(4095, _ => 65);
    assert DelimiterAt(stream, 12286);
    forall j: nat | j < 12286 ensures !DelimiterAt(stream, j) {
      assert stream[j..j + 4][0] == 65 != DELIMITER[0];
    }
    EveryRunReadsIff(stream);
    SomeRunReadsIff(stream);
  }

  // ---- the reader ----

  /** Reads up to and beyond the blank line; `levels` records how the socket chunked the bytes. */
  method ReadHttpBytes(sock: Socket) returns (r: Result<(Octets, Octets)>, ghost levels: seq<nat>)
    modifies sock`incoming, sock`now, sock`timeout, sock`expired
    ensures old(sock.now) <= sock.now <= old(sock.now) + 5.0
    ensures r == Err(Expired) ==> sock.now == old(sock.now) + 5.0
    ensures sock.expired == (old(sock.expired) || r == Err(Expired))
    ensures sock.timeout.Some? ==> sock.timeout.value > 0.0 || sock.timeout == old(sock.timeout)
    ensures Levels(old(sock.incoming), levels)
    ensures var have := levels[|levels| - 1];
            have <= 16385 && have <= |old(sock.incoming)|
            && sock.incoming == old(sock.incoming)[have..]
    ensures r != Err(Expired) ==>
              Complete(old(sock.incoming), levels)
              && (r.Ok? <==> Reads(old(sock.incoming), levels[|levels| - 1]))
    ensures r.Ok? ==>
              var (head, rest) := r.value;
              && FindDelimiter(old(sock.incoming)) == Some(|head|)
              && old(sock.incoming) == head + [13, 10, 13, 10] + (rest + sock.incoming)
    ensures r.Err? ==> r.error in {Closed, Expired, TooBig}
  {
    hide FindDelimiter;
    ghost var stream := sock.incoming;
    var data := [];
    levels := [0];
    var deadline := sock.now + HANDSHAKE_TIMEOUT;
    while FindDelimiter(data).None?
      invariant Levels(stream, levels) && levels[|levels| - 1] == |data| <= MAX_HEADER
      invariant |data| <= |stream| && data == stream[..|data|] && sock.incoming == stream[|data|..]
      invariant old(sock.now) <= sock.now <= deadline
      invariant sock.expired == old(sock.expired)
      invariant sock.timeout == old(sock.timeout) || (sock.timeout.Some? && sock.timeout.value > 0.0)
      decreases |sock.incoming|
    {
      var remaining := deadline - sock.now;
      if remaining <= 0.0 {
        sock.expired := true;
        return Err(Expired), levels;
      }
      sock.SetTimeout(remaining);
      var room := MAX_HEADER + 1 - |data|;
      var chunk := sock.Recv(if 4096 < room then 4096 else room);
      if chunk.TimedOut? {
        return Err(Expired), levels;
      }
      if !chunk.Chunk? {
        assert stream[..|stream|] == stream;
        return Err(Closed), levels;
      }
      ghost var was := |data|;
      data := data + chunk.data;
      assert Step(stream, was, |data|);
      levels := levels + [|data|];
      if |data| > MAX_HEADER {
        return Err(TooBig), levels;
      }
    }
    var at := FindDelimiter(data).value;
    DelimiterInPrefix(stream, |data|);
    var head, rest := data[..at], data[at + 4..];
    assert DelimiterAt(data, at);
    assert data == head + DELIMITER + rest;
    assert stream == data + sock.incoming;
    r := Ok((head, rest));
  }

  /** A connection after its Upgrade: the head reader's surplus primes the link's buffer, so the link
      delivers what the bytes after the blank line spell, wherever the handshake stopped reading.
      `accepted` says whether the request was a valid Upgrade. */
  method RunUpgraded(up: Uplink, sock: Socket, link: nat, role: Role, accepted: bool)
    returns (linked: bool, ghost got: seq<Octets>)
    modifies up, sock
    ensures linked ==>
              && accepted && FindDelimiter(old(sock.incoming)).Some?
              && up.events == old(up.events) + Life(link, role, got)
              && var after := old(sock.incoming)[HeadEnd(old(sock.incoming))..];
                 got <= Delivered(after) && (!sock.expired ==> got == Delivered(after))
    ensures !linked ==> up.events == old(up.events) && got == []
    ensures (&& accepted && !sock.expired && FindDelimiter(old(sock.incoming)).Some?
             && (HeadEnd(old(sock.incoming)) <= 12289 || |old(sock.incoming)| <= 16384)) ==> linked
    ensures linked ==> HeadEnd(old(sock.incoming)) <= 16384
    ensures sock.expired && !old(sock.expired) ==>
              sock.now >= old(sock.now) + if linked then 15.0 else 5.0
  {
    hide FindDelimiter, Life, Delivered;
    ghost var stream := sock.incoming;
    var r, levels := ReadHttpBytes(sock);
    if FindDelimiter(stream).Some? {
      EveryRunReadsIff(stream);
      SomeRunReadsIff(stream);
    }
    if r.Err? || !accepted {
      return false, [];
    }
    sock.SetTimeout(READ_TIMEOUT);
    var c := new Conn(sock, r.value.1);
    ghost var e := HeadEnd(stream);
    assert stream[e..] == c.Stream();
    got := RunLink(up, c, link, role);
    linked := true;
  }
}
