/** The byte layouts, with their numbers, of every packet, envelope, stream frame, log record and log file header. */
module WireFormats {
  import opened Bitwise
  import opened Bytes
  import opened Crc8
  import opened LinearRegister
  import opened KeyedHash
  import opened Envelope
  import PacketFraming
  import BrainProtocol
  import ReceivePath
  import LogFormat

  lemma {:induction false} LowByte(v: nat)
    ensures Value(OfValue(v % 256)) == v % 256
  {
    ValueOfOfValue(v % 256);
  }

  /** Two little-endian bytes give back a number below 65536. */
  lemma {:induction false} TwoLe(n: nat)
    requires n < 65536
    ensures var b := ToLe(n, 2); Value(b[0]) == n % 256 && Value(b[1]) == n / 256
  {
    assert ToLe(n, 2) == [OfValue(n % 256)] + ToLe(n / 256, 1);
    assert ToLe(n / 256, 1) == [OfValue(n / 256 % 256)] + ToLe(n / 256 / 256, 0);
    LowByte(n);
    LowByte(n / 256);
  }

  const ONE := Byte(false, false, false, false, false, false, false, true)

  /** The check value of a single one bit is the generator 0x31; with linearity that fixes all of them. */
  lemma {:induction false} Generator()
    ensures Value(ONE) == 1 && Value(Crc([ONE])) == 0x31
  {
    var data := [ONE];
    assert data[..0] == [] && Xor(ZERO, ONE) == ONE;
    assert Crc(data) == Shifted(CRC8, CRC8.add(Run(CRC8, data[..0]), ONE), 8);
    OneShifted();
  }

  lemma {:induction false} OneShifted()
    ensures var one := Byte(false, false, false, false, false, false, false, true);
            Shifted(CRC8, one, 8) == Byte(false, false, true, true, false, false, false, true)
  {
    var one := Byte(false, false, false, false, false, false, false, true);
    var four := Byte(false, false, false, true, false, false, false, false);
    assert Shifted(CRC8, one, 1) == Byte(false, false, false, false, false, false, true, false);
    assert Shifted(CRC8, one, 2) == Byte(false, false, false, false, false, true, false, false);
    assert Shifted(CRC8, one, 3) == Byte(false, false, false, false, true, false, false, false);
    assert Shifted(CRC8, one, 4) == four;
    assert Shifted(CRC8, one, 5) == Byte(false, false, true, false, false, false, false, false);
    assert Shifted(CRC8, one, 6) == Byte(false, true, false, false, false, false, false, false);
    assert Shifted(CRC8, one, 7) == Byte(true, false, false, false, false, false, false, false);
  }

  lemma {:induction false} FrameMagic()
    ensures Value(PacketFraming.MAGIC_0) == 0x42 && Value(PacketFraming.MAGIC_1) == 0x52
  {}

  lemma {:induction false} LengthField(n: nat)
    requires n < 65536
    ensures var b := BrainProtocol.LengthBytes(n); |b| == 2 && Value(b[0]) == n % 256 && Value(b[1]) == n / 256
  {
    TwoLe(n);
  }

  lemma {:induction false} Slots(f: Bytes, b: Bytes)
    requires |f| >= 5 && f[3..5] == b
    ensures |b| == 2 && f[3] == b[0] && f[4] == b[1]
  {}

  /** 0x42 0x52, type, length low and high, payload, CRC-8 of everything before it. */
  lemma {:induction false} FrameLayout(p: PacketFraming.Packet)
    requires |p.payload| < 65536
    ensures var (f, n) := (BrainProtocol.Frame(p), |p.payload|);
            && |f| == 6 + n && Value(f[0]) == 0x42 && Value(f[1]) == 0x52 && f[2] == p.pktType
            && Value(f[3]) == n % 256 && Value(f[4]) == n / 256
            && f[5..5 + n] == p.payload && f[5 + n] == Crc(f[..5 + n])
  {
    var (f, n) := (BrainProtocol.Frame(p), |p.payload|);
    BrainProtocol.FrameParts(p, []);
    assert f + [] == f;
    FrameMagic();
    LengthField(n);
    Slots(f, BrainProtocol.LengthBytes(n));
  }

  /** Nonce with its low byte last, 16 bytes of MAC, length with its low byte first, packet. */
  lemma {:induction false} EnvelopeLayout(mac: Bytes -> Digest, dir: Bytes, nonce: nat, inner: Bytes)
    requires |inner| <= 8192 && nonce < 0x1_0000_0000_0000_0000
    ensures var (e, n) := (Seal(mac, dir, nonce, inner), |inner|);
            && |e| == 26 + n && BeValue(e[..8]) == nonce && Value(e[7]) == nonce % 256
            && e[8..24] == mac(dir + e[..8] + e[24..26] + inner)[..16]
            && Value(e[24]) == n % 256 && Value(e[25]) == n / 256 && e[26..] == inner
  {
    var e := Seal(mac, dir, nonce, inner);
    SealParts(mac, dir, nonce, inner, []);
    assert e + [] == e;
    TwoLe(|inner|);
    NonceBytes(nonce);
    assert e[7] == e[..8][7] && e[24] == e[24..26][0] && e[25] == e[24..26][1];
    assert dir + e[..8] + e[24..26] + inner == MacInput(dir, nonce, inner);
  }

  lemma {:induction false} NonceBytes(nonce: nat)
    requires nonce < U64_SIZE
    ensures BeValue(ToBe(nonce, 8)) == nonce && Value(ToBe(nonce, 8)[7]) == nonce % 256
  {
    LowByte(nonce);
    U64();
    BeRoundTrip(nonce, 8);
  }

  /** "C2S" and "S2C", and the pads of RFC 2104. */
  lemma {:induction false} Labels()
    ensures |DIR_RX| == 3 && Value(DIR_RX[0]) == 0x43 && Value(DIR_RX[1]) == 0x32 && Value(DIR_RX[2]) == 0x53
    ensures |DIR_TX| == 3 && Value(DIR_TX[0]) == 0x53 && Value(DIR_TX[1]) == 0x32 && Value(DIR_TX[2]) == 0x43
    ensures Value(IPAD) == 0x36 && Value(OPAD) == 0x5C
  {}

  /** Stream, length low and high, payload; stream 0 is control. */
  lemma {:induction false} MuxLayout(stream: Byte, payload: Bytes)
    requires |payload| < 65536
    ensures var (f, n) := (ReceivePath.MuxFrame(stream, payload), |payload|);
            && |f| == 3 + n && f[0] == stream && Value(f[1]) == n % 256 && Value(f[2]) == n / 256 && f[3..] == payload
    ensures Value(ReceivePath.STREAM_CONTROL) == 0
  {
    TwoLe(|payload|);
    Parts([stream], ToLe(|payload|, 2), payload);
  }

  lemma {:induction false} Parts(a: Bytes, b: Bytes, c: Bytes)
    requires |b| == 2
    ensures var f := a + b + c;
            && |f| == |a| + 2 + |c| && f[..|a|] == a && f[|a|] == b[0] && f[|a| + 1] == b[1] && f[|a| + 2..] == c
  {}

  /** Time with its low byte first, kind, flags, two zero bytes, 20 bytes of payload. */
  lemma {:induction false} RecordLayout(r: LogFormat.Record)
    requires LogFormat.Fits(r)
    ensures var b := LogFormat.Encode(r);
            && |b| == 32 && LeValue(b[..8]) == r.ts && Value(b[0]) == r.ts % 256 && b[8] == r.kind && b[9] == r.flags
            && b[10] == b[11] == ZERO && b[12..] == r.payload
  {
    var b := LogFormat.Encode(r);
    assert b[..8] == ToLe(r.ts, 8) && b[12..] == r.payload;
    LeRoundTrip(r.ts, 8);
    LowByte(r.ts);
  }

  lemma {:induction false} LogMagic()
    ensures |LogFormat.MAGIC| == 4 && Value(LogFormat.MAGIC[0]) == 0x52 && Value(LogFormat.MAGIC[1]) == 0x42
    ensures Value(LogFormat.MAGIC[2]) == 0x4C && Value(LogFormat.MAGIC[3]) == 0x31
  {}

  /** "RBL1", version 1 and two zero bytes, then the time the file was opened, low bytes first. */
  lemma {:induction false} HeaderLayout(ts: nat)
    requires ts < Pow256(8)
    ensures var h := LogFormat.Header(ts);
            && |h| == 16 && h[..4] == LogFormat.MAGIC && LeValue(h[4..6]) == 1 && h[6..8] == ToLe(0, 2)
            && LeValue(h[8..]) == ts
  {
    var h := LogFormat.Header(ts);
    LogFormat.HeaderParts(ts, []);
    assert h + [] == h && h[8..] == h[8..16];
    LogFormat.HeaderValues(ts);
  }
}
