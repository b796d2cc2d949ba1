/** The layout of packets, MAGIC[2] | TYPE[1] | LEN[2] | PAYLOAD | CHECK[1], for any length code and check. */
module PacketFraming {
  import opened Bitwise
  import opened Bytes

  /** "BR". */
  const MAGIC_0 := Byte(false, true, false, false, false, false, true, false)
  const MAGIC_1 := Byte(false, true, false, true, false, false, true, false)

  const HEADER_SIZE := 5
  const FRAME_OVERHEAD := 6

  datatype Packet = Packet(pktType: Byte, payload: Bytes)

  /** What `parse_packet` reports about the frame at the start of a buffer. */
  datatype Parsed = Parsed(pktType: Byte, payloadStart: nat, payloadLen: nat, total: nat)

  /** How lengths are written and read, and the check value. */
  datatype Codec = Codec(enc: nat -> Bytes, dec: Bytes -> nat, check: Bytes -> Byte)

  /** Lengths take two bytes, and those below 65536 are the ones read back. */
  ghost predicate TwoByte(c: Codec)
  {
    && (forall n :: |c.enc(n)| == 2)
    && (forall n :: n < 65536 ==> c.dec(c.enc(n)) == n)
    && (forall b {:trigger c.dec(b)} :: |b| == 2 ==> c.dec(b) < 65536 && c.enc(c.dec(b)) == b)
  }

  function HeaderWith(c: Codec, pktType: Byte, len: nat): Bytes
  {
    [MAGIC_0, MAGIC_1, pktType] + c.enc(len)
  }

  function FrameWith(c: Codec, p: Packet): Bytes
  {
    var body := HeaderWith(c, p.pktType, |p.payload|) + p.payload;
    body + [c.check(body)]
  }

  function ParseWith(c: Codec, buf: Bytes): Option<Parsed>
  {
    if |buf| < FRAME_OVERHEAD then None
    else if buf[0] != MAGIC_0 || buf[1] != MAGIC_1 then None
    else
      var length := c.dec(buf[3..5]);
      var total := HEADER_SIZE + length + 1;
      if |buf| < total then None
      else if buf[HEADER_SIZE + length] != c.check(buf[..HEADER_SIZE + length]) then None
      else Some(Parsed(buf[2], HEADER_SIZE, length, total))
  }

  /** The packet a successful parse stands for. */
  function PacketAt(buf: Bytes, r: Parsed): Packet
    requires r.payloadStart + r.payloadLen <= |buf|
  {
    Packet(r.pktType, buf[r.payloadStart..r.payloadStart + r.payloadLen])
  }

  lemma {:induction false} HeaderInFront(c: Codec, t: Byte, n: nat, rest: Bytes)
    requires TwoByte(c)
    ensures var buf := HeaderWith(c, t, n) + rest;
            && buf[0] == MAGIC_0 && buf[1] == MAGIC_1 && buf[2] == t && buf[3..5] == c.enc(n)
            && buf[..5] == HeaderWith(c, t, n) && buf[5..] == rest
  {}

  lemma {:induction false} FrameWithParts(c: Codec, p: Packet, rest: Bytes)
    requires TwoByte(c)
    ensures var buf, n := FrameWith(c, p) + rest, |p.payload|;
            && |FrameWith(c, p)| == FRAME_OVERHEAD + n
            && buf[0] == MAGIC_0 && buf[1] == MAGIC_1 && buf[2] == p.pktType && buf[3..5] == c.enc(n)
            && buf[5..5 + n] == p.payload
            && buf[..5 + n] == HeaderWith(c, p.pktType, n) + p.payload
            && buf[5 + n] == c.check(HeaderWith(c, p.pktType, n) + p.payload)
  {
    var buf, n := FrameWith(c, p) + rest, |p.payload|;
    var h := HeaderWith(c, p.pktType, n);
    assert buf == h + (p.payload + [c.check(h + p.payload)] + rest);
    HeaderInFront(c, p.pktType, n, p.payload + [c.check(h + p.payload)] + rest);
    assert buf[..5 + n] == h + p.payload;
  }

  lemma {:induction false} ParseOfFrameWith(c: Codec, p: Packet, rest: Bytes)
    requires TwoByte(c) && |p.payload| < 65536
    ensures ParseWith(c, FrameWith(c, p) + rest) == Some(Parsed(p.pktType, 5, |p.payload|, |FrameWith(c, p)|))
    ensures PacketAt(FrameWith(c, p) + rest, ParseWith(c, FrameWith(c, p) + rest).value) == p
  {
    FrameWithParts(c, p, rest);
  }

  lemma {:induction false} ReadHeader(c: Codec, buf: Bytes)
    requires TwoByte(c) && |buf| >= 5 && buf[0] == MAGIC_0 && buf[1] == MAGIC_1
    ensures c.dec(buf[3..5]) < 65536 && buf[..5] == HeaderWith(c, buf[2], c.dec(buf[3..5]))
  {
    assert buf[..5] == [buf[0], buf[1], buf[2]] + buf[3..5];
  }

  lemma {:induction false} FrameWithOf(c: Codec, buf: Bytes, n: nat)
    requires |buf| >= n + FRAME_OVERHEAD && buf[..5] == HeaderWith(c, buf[2], n) && buf[5 + n] == c.check(buf[..5 + n])
    ensures FrameWith(c, Packet(buf[2], buf[5..5 + n])) == buf[..n + FRAME_OVERHEAD]
  {
    assert buf[..5 + n] == buf[..5] + buf[5..5 + n];
    assert buf[..n + FRAME_OVERHEAD] == buf[..5 + n] + [buf[5 + n]];
  }

  lemma {:induction false} ParseWithSound(c: Codec, buf: Bytes)
    requires TwoByte(c) && ParseWith(c, buf).Some?
    ensures var r := ParseWith(c, buf).value;
            && r.payloadStart + r.payloadLen < r.total <= |buf| && r.payloadLen < 65536
            && FrameWith(c, PacketAt(buf, r)) == buf[..r.total]
  {
    ReadHeader(c, buf);
    FrameWithOf(c, buf, ParseWith(c, buf).value.payloadLen);
  }

  /** Whether the last byte is the check value of those before it. */
  predicate Checked(c: Codec, g: Bytes)
    requires g != []
  {
    g[|g| - 1] == c.check(g[..|g| - 1])
  }

  /** A buffer whose header claims everything up to the end of `g` parses if and only if `g` ends in its check value. */
  lemma {:induction false} TrailerDecides(c: Codec, g: Bytes, rest: Bytes)
    requires |g| >= FRAME_OVERHEAD && g[0] == MAGIC_0 && g[1] == MAGIC_1 && c.dec(g[3..5]) == |g| - FRAME_OVERHEAD
    ensures ParseWith(c, g + rest).Some? <==> Checked(c, g)
  {
    var buf := g + rest;
    assert buf[3..5] == g[3..5] && buf[..|g| - 1] == g[..|g| - 1];
  }

  /** A header in front of other bytes, claiming all of them but the last, parses when they are checked. */
  lemma {:induction false} HeaderClaimsAll(c: Codec, t: Byte, f: Bytes, rest: Bytes)
    requires TwoByte(c) && 0 < |f| <= 65536
    ensures var g := HeaderWith(c, t, |f| - 1) + f;
            && (ParseWith(c, g + rest).Some? <==> Checked(c, g))
            && (Checked(c, g) ==> FrameWith(c, Packet(t, f[..|f| - 1])) == g)
  {
    var g := HeaderWith(c, t, |f| - 1) + f;
    HeaderInFront(c, t, |f| - 1, f);
    TrailerDecides(c, g, rest);
    assert g[..|g| - 1] == HeaderWith(c, t, |f| - 1) + f[..|f| - 1];
    assert g == g[..|g| - 1] + [g[|g| - 1]];
  }
}

/** The packets of the brain link: the layout checked by CRC-8, and the errors that catches. */
module BrainProtocol {
  import opened Bitwise
  import opened Bytes
  import opened Crc8
  import opened PacketFraming
  import LinearRegister

  /** Lengths as two bytes, least significant first. */
  function LengthBytes(n: nat): Bytes
  {
    ToLe(n, 2)
  }

  const LINK := Codec(LengthBytes, LeValue, Crc)

  lemma {:induction false} LinkIsTwoByte()
    ensures TwoByte(LINK)
  {
    assert Pow256(2) == 65536;
    forall n: nat | n < 65536 ensures LeValue(LengthBytes(n)) == n { LeRoundTrip(n, 2); }
    forall b: Bytes | |b| == 2 ensures LeValue(b) < 65536 && LengthBytes(LeValue(b)) == b { LeInverse(b); }
  }

  function Header(pktType: Byte, len: nat): (h: Bytes)
    ensures |h| == HEADER_SIZE
  {
    HeaderWith(LINK, pktType, len)
  }

  function Frame(p: Packet): (f: Bytes)
    ensures |f| == FRAME_OVERHEAD + |p.payload|
  {
    FrameWith(LINK, p)
  }

  /** `parse_packet`. */
  function Parse(buf: Bytes): Option<Parsed>
  {
    ParseWith(LINK, buf)
  }

  /** `build_packet`: writes the frame into `out` in place. */
  method BuildPacket(pktType: Byte, payload: Bytes, out: array<Byte>) returns (n: nat)
    requires out.Length >= |payload| + FRAME_OVERHEAD
    modifies out
    ensures n == |payload| + FRAME_OVERHEAD
    ensures out[..n] == Frame(Packet(pktType, payload))
    ensures out[n..] == old(out[n..])
  {
    var len := |payload|;
    out[0] := MAGIC_0;
    out[1] := MAGIC_1;
    out[2] := pktType;
    out[3] := OfValue(len % 256);
    out[4] := OfValue(len / 256 % 256);
    HeaderBytes(pktType, len);
    assert out[..5] == Header(pktType, len);
    CopyIn(payload, out, 5);
    var crc := Crc8.Compute(out[..5 + len]);
    out[5 + len] := crc;
    n := 6 + len;
    assert out[..n] == out[..5 + len] + [crc];
  }

  method CopyIn(src: Bytes, out: array<Byte>, at: nat)
    requires at + |src| <= out.Length
    modifies out
    ensures out[..at + |src|] == old(out[..at]) + src && out[at + |src|..] == old(out[at + |src|..])
  {
    forall i | 0 <= i < |src| {
      out[at + i] := src[i];
    }
  }

  lemma {:induction false} HeaderBytes(pktType: Byte, len: nat)
    ensures Header(pktType, len)
         == [MAGIC_0, MAGIC_1, pktType, OfValue(len % 256), OfValue(len / 256 % 256)]
  {
    assert ToLe(len, 2) == [OfValue(len % 256)] + ToLe(len / 256, 1);
    assert ToLe(len / 256, 1) == [OfValue(len / 256 % 256)] + ToLe(len / 256 / 256, 0);
  }

  // ── Round trip ─────────────────────────────────────────────────────────

  lemma {:induction false} FrameParts(p: Packet, rest: Bytes)
    ensures var buf, n := Frame(p) + rest, |p.payload|;
            && buf[0] == MAGIC_0 && buf[1] == MAGIC_1 && buf[2] == p.pktType
            && buf[3..5] == LengthBytes(n)
            && buf[5..5 + n] == p.payload
            && buf[..5 + n] == Header(p.pktType, n) + p.payload
            && buf[5 + n] == Crc(Header(p.pktType, n) + p.payload)
  {
    LinkIsTwoByte();
    FrameWithParts(LINK, p, rest);
  }

  /** Whatever follows it, the frame of a packet parses back to that packet and its own length. */
  lemma {:induction false} ParseOfFrame(p: Packet, rest: Bytes)
    requires |p.payload| < 65536
    ensures Parse(Frame(p) + rest) == Some(Parsed(p.pktType, 5, |p.payload|, |Frame(p)|))
    ensures PacketAt(Frame(p) + rest, Parse(Frame(p) + rest).value) == p
  {
    LinkIsTwoByte();
    ParseOfFrameWith(LINK, p, rest);
  }

  /** Only frames parse: an accepted prefix is the frame of the packet read from it. */
  lemma {:induction false} ParseSound(buf: Bytes)
    requires Parse(buf).Some?
    ensures var r := Parse(buf).value;
            && r.payloadStart + r.payloadLen < r.total <= |buf| && r.payloadLen < 65536
            && Frame(PacketAt(buf, r)) == buf[..r.total]
  {
    LinkIsTwoByte();
    ParseWithSound(LINK, buf);
  }

  /** The two-byte length field is why: a longer payload is never recovered. */
  lemma {:induction false} ParseRecoversIff(p: Packet, rest: Bytes)
    ensures (exists r :: Parse(Frame(p) + rest) == Some(r) && r.total == |Frame(p)|) <==> |p.payload| < 65536
  {
    if |p.payload| < 65536 {
      ParseOfFrame(p, rest);
    } else if Parse(Frame(p) + rest).Some? {
      ParseSound(Frame(p) + rest);
    }
  }

  // ── Error detection ────────────────────────────────────────────────────

  /** The frame as received with the bits of `e` flipped. */
  function Corrupt(f: Bytes, e: Bytes): (g: Bytes)
    requires |f| == |e|
    ensures |g| == |f|
  {
    LinearRegister.Sum(CRC8, f, e)
  }

  lemma {:induction false} FrameResidue(p: Packet)
    ensures Crc(Frame(p)) == ZERO
  {
    CrcIsLinear();
    LinearRegister.ResidueZeroIffTrailer(CRC8, Header(p.pktType, |p.payload|) + p.payload,
                                         Crc(Header(p.pktType, |p.payload|) + p.payload));
  }

  lemma {:induction false} CrcOfCorrupt(p: Packet, e: Bytes)
    requires |e| == |Frame(p)|
    ensures Crc(Corrupt(Frame(p), e)) == Crc(e)
  {
    FrameResidue(p);
    CrcIsLinear();
    LinearRegister.RunLinear(CRC8, Frame(p), e);
  }

  lemma {:induction false} TrailerIffResidue(g: Bytes)
    requires |g| > 0
    ensures g[|g| - 1] == Crc(g[..|g| - 1]) <==> Crc(g) == ZERO
  {
    CrcIsLinear();
    assert g == g[..|g| - 1] + [g[|g| - 1]];
    LinearRegister.ResidueZeroIffTrailer(CRC8, g[..|g| - 1], g[|g| - 1]);
  }

  lemma {:induction false} UntouchedByte(f: Bytes, e: Bytes, i: nat)
    requires |f| == |e| && i < |f| && e[i] == ZERO
    ensures Corrupt(f, e)[i] == f[i]
  {
    XorUnitAndInverse(f[i], e[i]);
  }

  lemma {:induction false} HeadUntouched(p: Packet, e: Bytes)
    requires |p.payload| < 65536 && |e| == |Frame(p)|
    requires e[0] == e[1] == e[3] == e[4] == ZERO
    ensures var g := Corrupt(Frame(p), e);
            g[0] == MAGIC_0 && g[1] == MAGIC_1 && LINK.dec(g[3..5]) == |p.payload|
  {
    var f, g := Frame(p), Corrupt(Frame(p), e);
    FrameParts(p, []);
    assert f + [] == f;
    UntouchedByte(f, e, 0);
    UntouchedByte(f, e, 1);
    UntouchedByte(f, e, 3);
    UntouchedByte(f, e, 4);
    assert g[3..5] == f[3..5];
    LinkIsTwoByte();
    assert LINK.dec(LINK.enc(|p.payload|)) == |p.payload|;
  }

  /**
    Flipping bits outside the magic and the length field goes unnoticed exactly when the CRC of
    the flipped bits alone is zero.
    */
  lemma {:induction false} CorruptionUnnoticedIff(p: Packet, e: Bytes, rest: Bytes)
    requires |p.payload| < 65536 && |e| == |Frame(p)|
    requires e[0] == e[1] == e[3] == e[4] == ZERO
    ensures Parse(Corrupt(Frame(p), e) + rest).Some? <==> Crc(e) == ZERO
  {
    var g := Corrupt(Frame(p), e);
    HeadUntouched(p, e);
    TrailerDecides(LINK, g, rest);
    TrailerIffResidue(g);
    CrcOfCorrupt(p, e);
  }

  /** Every error burst of at most eight bits that leaves the length field intact is rejected. */
  lemma {:induction false} BurstRejected(p: Packet, e: Bytes, k: nat, s: nat, w: Byte, rest: Bytes)
    requires |p.payload| < 65536 && |e| == |Frame(p)|
    requires IsBurst(e, k, s, w) && e[3] == e[4] == ZERO
    ensures Parse(Corrupt(Frame(p), e) + rest) == None
  {
    var f, g := Frame(p), Corrupt(Frame(p), e);
    FrameParts(p, []);
    assert f + [] == f;
    XorUnitAndInverse(f[0], e[0]);
    XorUnitAndInverse(f[1], e[1]);
    if e[0] == e[1] == ZERO {
      BurstHasNonZeroCrc(e, k, s, w);
      CorruptionUnnoticedIff(p, e, rest);
    } else {
      FlippedByteDiffers(f, e, 0);
      FlippedByteDiffers(f, e, 1);
    }
  }

  lemma {:induction false} FlippedByteDiffers(f: Bytes, e: Bytes, i: nat)
    requires |f| == |e| && i < |f|
    ensures Corrupt(f, e)[i] == f[i] <==> e[i] == ZERO
  {
    assert Corrupt(f, e)[i] == Xor(f[i], e[i]);
    XorFixes(f[i], e[i]);
  }

  lemma {:induction false} XorFixes(a: Byte, e: Byte)
    ensures Xor(a, e) == a <==> e == ZERO
  {}

  /** Every error of odd weight that leaves the length field intact is rejected. */
  lemma {:induction false} OddErrorRejected(p: Packet, e: Bytes, rest: Bytes)
    requires |p.payload| < 65536 && |e| == |Frame(p)|
    requires OddWeight(e) && e[3] == e[4] == ZERO
    ensures Parse(Corrupt(Frame(p), e) + rest) == None
  {
    if e[0] == e[1] == ZERO {
      CrcKeepsParity(e);
      CorruptionUnnoticedIff(p, e, rest);
    } else {
      MagicDamaged(p, e, rest);
    }
  }

  lemma {:induction false} MagicDamaged(p: Packet, e: Bytes, rest: Bytes)
    requires |e| == |Frame(p)| && (e[0] != ZERO || e[1] != ZERO)
    ensures Parse(Corrupt(Frame(p), e) + rest) == None
  {
    FrameParts(p, []);
    assert Frame(p) + [] == Frame(p);
    FlippedByteDiffers(Frame(p), e, 0);
    FlippedByteDiffers(Frame(p), e, 1);
  }

  // ── Torn headers ───────────────────────────────────────────────────────

  /** The length a torn header has to claim to reach exactly to the end of the frame behind it. */
  function Reach(p: Packet): nat
  {
    |Frame(p)| - 1
  }

  /** A torn-off header in front of a frame parses over it if and only if its own check value is zero. */
  lemma {:induction false} TornHeaderSwallowsIff(t: Byte, p: Packet, rest: Bytes)
    requires Reach(p) < 65536
    ensures Parse(Header(t, Reach(p)) + Frame(p) + rest).Some? <==> Crc(Header(t, Reach(p))) == ZERO
  {
    LinkIsTwoByte();
    HeaderClaimsAll(LINK, t, Frame(p), rest);
    FrameResidue(p);
    ResidueInFront(Header(t, Reach(p)), Frame(p));
  }

  lemma {:induction false} ResidueInFront(h: Bytes, f: Bytes)
    requires f != [] && Crc(f) == ZERO
    ensures Checked(LINK, h + f) <==> Crc(h) == ZERO
  {
    TrailerIffResidue(h + f);
    CrcIsLinear();
    LinearRegister.ZeroBehind(CRC8, h, f);
  }

  /** Then the header and the frame together are the frame of another packet. */
  lemma {:induction false} HeaderAndFrame(t: Byte, p: Packet)
    requires Reach(p) < 65536 && Crc(Header(t, Reach(p))) == ZERO
    ensures Frame(Packet(t, Frame(p)[..Reach(p)])) == Header(t, Reach(p)) + Frame(p)
  {
    LinkIsTwoByte();
    HeaderClaimsAll(LINK, t, Frame(p), []);
    FrameResidue(p);
    ResidueInFront(Header(t, Reach(p)), Frame(p));
  }

  /** The one packet type that makes the check value of a header with length `n` zero. */
  function SwallowingType(n: nat): Byte
  {
    var (lo, hi) := (OfValue(n % 256), OfValue(n / 256 % 256));
    Xor(Crc([MAGIC_0, MAGIC_1]), Unshifted(Xor(Unshifted(hi, 8), lo), 8))
  }

  lemma {:induction false} XorTwice(a: Byte, b: Byte)
    ensures Xor(a, Xor(a, b)) == b && Xor(Xor(b, a), a) == b
  {}

  /** Adding a byte that cancels the register down to `Unshifted(x, 8)` leaves it at `x`. */
  lemma {:induction false} SteeredTo(data: Bytes, b: Byte, x: Byte)
    requires Xor(Crc(data), b) == Unshifted(x, 8)
    ensures Crc(data + [b]) == x
  {
    LinearRegister.RunSnoc(CRC8, data, b);
    ShiftedBack(x, 8);
  }

  lemma {:induction false} SwallowingHeader(n: nat)
    ensures Crc(Header(SwallowingType(n), n)) == ZERO
  {
    var (lo, hi, t) := (OfValue(n % 256), OfValue(n / 256 % 256), SwallowingType(n));
    var v := Unshifted(hi, 8);
    XorTwice(Crc([MAGIC_0, MAGIC_1]), Unshifted(Xor(v, lo), 8));
    SteeredTo([MAGIC_0, MAGIC_1], t, Xor(v, lo));
    XorTwice(lo, v);
    SteeredTo([MAGIC_0, MAGIC_1] + [t], lo, hi);
    TrailerIffResidue([MAGIC_0, MAGIC_1] + [t] + [lo] + [hi]);
    assert ([MAGIC_0, MAGIC_1] + [t] + [lo] + [hi])[..4] == [MAGIC_0, MAGIC_1] + [t] + [lo];
    HeaderBytes(t, n);
    assert Header(t, n) == [MAGIC_0, MAGIC_1] + [t] + [lo] + [hi];
  }
}
