/** Byte strings: big-endian numbers, the cyclic XOR mask, and the limits both bearers share. */
module Bytes {
  datatype Option<+T> = None | Some(value: T)

  type Octets = seq<bv8>

  // 1 << 20: the largest packet either socket bearer carries.
  const MAX_PACKET: nat := 0x10_0000

  /** The number a byte stands for. */
  function Value(b: bv8): (n: nat)
    ensures n < 256
  {
    b as nat
  }

  /** The byte that stands for a number. */
  function Octet(n: nat): (b: bv8)
    requires n < 256
    ensures Value(b) == n
  {
    if n == 0 then 0
    else
      var b := Octet(n - 1);
      NextByte(b);
      b + 1
  }

  lemma NextByte(b: bv8)
    requires b != 0xFF
    ensures Value(b + 1) == Value(b) + 1
  {
  }

  lemma ValueIsOneToOne(a: bv8, b: bv8)
    requires Value(a) == Value(b)
    ensures a == b
  {
  }

  lemma OctetValue(b: bv8)
    ensures Octet(Value(b)) == b
  {
    ValueIsOneToOne(Octet(Value(b)), b);
  }

  /** The number that `s` spells in network byte order. */
  function FromBE(s: Octets): nat {
    if s == [] then 0 else FromBE(s[..|s| - 1]) * 256 + Value(s[|s| - 1])
  }

  /** The low `width` bytes of `n` in network byte order. */
  function ToBE(n: nat, width: nat): (s: Octets)
    ensures |s| == width
    decreases width
  {
    if width == 0 then [] else ToBE(n / 256, width - 1) + [Octet(n % 256)]
  }

  /** 256 to the power `width`: the first number that `width` bytes cannot hold. */
  function Span(width: nat): (p: nat)
    ensures p > 0
  {
    if width == 0 then 1 else 256 * Span(width - 1)
  }

  lemma SpanValues()
    ensures Span(2) == 0x1_0000
    ensures Span(4) == 0x1_0000_0000
    ensures Span(8) == 0x1_0000_0000_0000_0000
  {
    assert Span(1) == 256 * Span(0);
    assert Span(2) == 256 * Span(1);
    assert Span(3) == 256 * Span(2);
    assert Span(4) == 256 * Span(3);
    assert Span(5) == 256 * Span(4);
    assert Span(6) == 256 * Span(5);
    assert Span(7) == 256 * Span(6);
  }

  /** One more byte at the end: what the number spelled so far becomes. */
  lemma SpellStep(front: Octets, b: bv8)
    ensures FromBE(front + [b]) == FromBE(front) * 256 + Value(b)
  {
    hide Value;
    assert (front + [b])[..|front|] == front;
  }

  /** A number that fits loses a byte and fits in one byte less. */
  lemma ShorterFits(n: nat, width: nat)
    requires width > 0 && n < Span(width)
    ensures n / 256 < Span(width - 1)
  {
  }

  lemma PackShorter(n: nat, width: nat)
    requires width > 0
    ensures ToBE(n, width) == ToBE(n / 256, width - 1) + [Octet(n % 256)]
    ensures Value(Octet(n % 256)) == n % 256
  {
    hide Octet, Value;
  }

  lemma NothingSpelled()
    ensures FromBE([]) == 0
  {
  }

  /** Packing then unpacking a number that fits gives the number back. */
  lemma {:induction false} UnpackPacked(n: nat, width: nat)
    requires n < Span(width)
    ensures FromBE(ToBE(n, width)) == n
    decreases width
  {
    if width == 0 {
      NothingSpelled();
    } else {
      ShorterFits(n, width);
      hide FromBE, ToBE, Span, Value, Octet;
      UnpackPacked(n / 256, width - 1);
      PackShorter(n, width);
      SpellStep(ToBE(n / 256, width - 1), Octet(n % 256));
    }
  }

  lemma PackStep(q: nat, r: nat, width: nat)
    requires r < 256
    ensures ToBE(q * 256 + r, width + 1) == ToBE(q, width) + [Octet(r)]
  {
    hide Octet, Value;
    assert (q * 256 + r) / 256 == q && (q * 256 + r) % 256 == r;
  }

  /** Unpacking then packing gives the bytes back, and no byte string overflows its width. */
  lemma {:induction false} PackUnpacked(s: Octets)
    ensures FromBE(s) < Span(|s|)
    ensures ToBE(FromBE(s), |s|) == s
  {
    hide Value, Octet, ToBE;
    if s != [] {
      var front, last := s[..|s| - 1], s[|s| - 1];
      PackUnpacked(front);
      PackStep(FromBE(front), Value(last), |front|);
      OctetValue(last);
      assert s == front + [last];
    }
  }

  /** Every byte XORed with the four-byte key, cyclically. */
  function Masked(s: Octets, key: Octets): (r: Octets)
    requires |key| == 4
    ensures |r| == |s|
  {
    seq(|s|, i requires 0 <= i < |s| => s[i] ^ key[i % 4])
  }

  lemma UnmaskMasked(s: Octets, key: Octets)
    requires |key| == 4
    ensures Masked(Masked(s, key), key) == s
  {
    forall i | 0 <= i < |s| ensures Masked(Masked(s, key), key)[i] == s[i] {
      assert (s[i] ^ key[i % 4]) ^ key[i % 4] == s[i];
    }
  }

  /** Under a masked byte, its key byte shows where the text does. */
  lemma MaskedAt(s: Octets, key: Octets, i: nat)
    requires |key| == 4 && i < |s|
    ensures Masked(s, key)[i] ^ key[i % 4] == s[i] && Masked(s, key)[i] == s[i] ^ key[i % 4]
  {
    assert (s[i] ^ key[i % 4]) ^ key[i % 4] == s[i];
  }

  lemma SpellPair(front: Octets, a: bv8, b: bv8)
    ensures FromBE(front + [a, b]) == 0x1_0000 * FromBE(front) + 256 * (a as nat) + (b as nat)
  {
    SpellStep(front, a);
    SpellStep(front + [a], b);
    hide FromBE;
    assert front + [a] + [b] == front + [a, b];
  }

  lemma SpelledByTwo(s: Octets)
    requires |s| == 2
    ensures FromBE(s) == 256 * (s[0] as nat) + (s[1] as nat)
  {
    SpellPair([], s[0], s[1]);
    assert s == [] + [s[0], s[1]];
  }

  /** The number that the four bytes at `i` spell. */
  function Quad(s: Octets, i: nat): nat
    requires i + 4 <= |s|
  {
    0x100_0000 * (s[i] as nat) + 0x1_0000 * (s[i + 1] as nat) + 256 * (s[i + 2] as nat) + (s[i + 3] as nat)
  }

  lemma SpelledByFour(s: Octets)
    requires |s| == 4
    ensures FromBE(s) == Quad(s, 0)
  {
    hide FromBE;
    SpelledByTwo(s[..2]);
    SpellPair(s[..2], s[2], s[3]);
    assert s == s[..2] + [s[2], s[3]];
  }

  lemma SpelledByEight(s: Octets)
    requires |s| == 8
    ensures FromBE(s) == 0x1_0000_0000 * Quad(s, 0) + Quad(s, 4)
  {
    hide FromBE;
    SpelledByFour(s[..4]);
    SpellPair(s[..4], s[4], s[5]);
    SpellPair(s[..6], s[6], s[7]);
    assert s[..6] == s[..4] + [s[4], s[5]];
    assert s == s[..6] + [s[6], s[7]];
  }

  /** The payloads laid end to end, as `b"".join` does. */
  function Join(parts: seq<Octets>): Octets {
    if parts == [] then [] else parts[0] + Join(parts[1..])
  }

  lemma {:induction false} JoinAppend(parts: seq<Octets>, more: seq<Octets>)
    ensures Join(parts + more) == Join(parts) + Join(more)
  {
    if parts == [] {
      assert parts + more == more;
    } else {
      assert (parts + more)[1..] == parts[1..] + more;
      JoinAppend(parts[1..], more);
    }
  }

  /** What is left of a buffer after `n` bytes were taken, when the socket supplied any shortfall. */
  function Leftover(buf: Octets, n: nat): Octets {
    if |buf| >= n then buf[n..] else []
  }
}
