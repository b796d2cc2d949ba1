/** HMAC of RFC 2104 over an arbitrary hash with 64-byte blocks. */
module KeyedHash {
  import opened Bitwise
  import opened Bytes

  const BLOCK_SIZE := 64

  /** 0x36 and 0x5C. */
  const IPAD := Byte(false, false, true, true, false, true, true, false)
  const OPAD := Byte(false, true, false, true, true, true, false, false)

  function Zeros(n: nat): Bytes
  {
    seq(n, _ => ZERO)
  }

  /** The key brought to block length: hashed first when longer than a block, then zero-padded. */
  function KeyBlock(hash: Bytes -> Digest, key: Bytes): (k: Bytes)
    ensures |k| == BLOCK_SIZE
  {
    var short: Bytes := if |key| > BLOCK_SIZE then hash(key) else key;
    short + Zeros(BLOCK_SIZE - |short|)
  }

  function XorPad(block: Bytes, pad: Byte): (r: Bytes)
    ensures |r| == |block|
  {
    seq(|block|, i requires 0 <= i < |block| => Xor(block[i], pad))
  }

  /** H((K0 xor opad) || H((K0 xor ipad) || text)), section 2 of RFC 2104. */
  function Hmac(hash: Bytes -> Digest, key: Bytes, text: Bytes): Digest
  {
    var k0 := KeyBlock(hash, key);
    hash(XorPad(k0, OPAD) + hash(XorPad(k0, IPAD) + text))
  }

  function MacUnder(hash: Bytes -> Digest, key: Bytes): Bytes -> Digest
  {
    text => Hmac(hash, key, text)
  }

  /** The streaming hasher: it absorbs parts and hashes their concatenation. */
  class Hasher {
    const hash: Bytes -> Digest
    var absorbed: Bytes

    constructor (hash: Bytes -> Digest)
      ensures this.hash == hash && absorbed == []
    {
      this.hash := hash;
      absorbed := [];
    }

    method Update(part: Bytes)
      modifies this
      ensures absorbed == old(absorbed) + part
    {
      absorbed := absorbed + part;
    }

    method Finalize() returns (d: Digest)
      ensures d == hash(absorbed)
    {
      d := hash(absorbed);
    }
  }
}

/** The envelope format: nonce[8 BE] | truncated MAC[16] | inner length[2 LE] | inner packet. */
module Envelope {
  import opened Bitwise
  import opened Bytes

  const NONCE_BYTES := 8
  const HMAC_BYTES := 16
  const LEN_BYTES := 2
  const OVERHEAD := 26
  const MAX_INNER := 8192
  const U64_SIZE := 0x1_0000_0000_0000_0000

  /** "C2S": brain to kernel, the direction the kernel receives. */
  const DIR_RX: Bytes := [
    Byte(false, true, false, false, false, false, true, true),
    Byte(false, false, true, true, false, false, true, false),
    Byte(false, true, false, true, false, false, true, true)]
  /** "S2C": kernel to brain. */
  const DIR_TX: Bytes := [
    Byte(false, true, false, true, false, false, true, true),
    Byte(false, false, true, true, false, false, true, false),
    Byte(false, true, false, false, false, false, true, true)]

  /** The direction label is authenticated but not transmitted. */
  function MacInput(dir: Bytes, nonce: nat, inner: Bytes): Bytes
  {
    dir + ToBe(nonce, NONCE_BYTES) + ToLe(|inner|, LEN_BYTES) + inner
  }

  function Tag(mac: Bytes -> Digest, dir: Bytes, nonce: nat, inner: Bytes): (t: Bytes)
    ensures |t| == HMAC_BYTES
  {
    mac(MacInput(dir, nonce, inner))[..HMAC_BYTES]
  }

  function Seal(mac: Bytes -> Digest, dir: Bytes, nonce: nat, inner: Bytes): (e: Bytes)
    ensures |e| == OVERHEAD + |inner|
  {
    ToBe(nonce, NONCE_BYTES) + Tag(mac, dir, nonce, inner) + ToLe(|inner|, LEN_BYTES) + inner
  }

  /** The next send nonce: a wrapping 64-bit increment. */
  function NextNonce(n: nat): nat
  {
    if n + 1 == U64_SIZE then 0 else n + 1
  }

  /** What an envelope carries. */
  datatype Message = Message(nonce: nat, inner: Bytes)

  /** The checks up to and including the MAC for one direction, with `room` bytes of output space. */
  function OpenFor(mac: Bytes -> Digest, dir: Bytes, frame: Bytes, room: nat): Option<Message>
  {
    if |frame| < OVERHEAD then None
    else
      var nonceB, macB, lenB := frame[..8], frame[8..24], frame[24..26];
      var n := LeValue(lenB);
      if n > MAX_INNER || |frame| < OVERHEAD + n || room < n then None
      else
        var inner := frame[OVERHEAD..OVERHEAD + n];
        if mac(dir + nonceB + lenB + inner)[..HMAC_BYTES] != macB then None
        else Some(Message(BeValue(nonceB), inner))
  }

  /** The checks of `unwrap_consuming`. */
  function Open(mac: Bytes -> Digest, frame: Bytes, room: nat): Option<Message>
  {
    OpenFor(mac, DIR_RX, frame, room)
  }

  lemma {:induction false} U64()
    ensures Pow256(8) == U64_SIZE && Pow256(2) == 65536
  {
    assert Pow256(4) == 256 * 256 * 256 * 256;
    assert Pow256(8) == 256 * 256 * 256 * 256 * Pow256(4);
  }

  lemma {:induction false} SealParts(mac: Bytes -> Digest, dir: Bytes, nonce: nat, inner: Bytes, rest: Bytes)
    ensures var e := Seal(mac, dir, nonce, inner) + rest;
            && e[..8] == ToBe(nonce, 8)
            && e[8..24] == Tag(mac, dir, nonce, inner)
            && e[24..26] == ToLe(|inner|, 2)
            && e[26..26 + |inner|] == inner
  {}

  lemma {:induction false} OpenForOfSeal(mac: Bytes -> Digest, dir: Bytes, nonce: nat, inner: Bytes, rest: Bytes,
                                         room: nat)
    requires nonce < U64_SIZE && |inner| <= MAX_INNER
    ensures OpenFor(mac, dir, Seal(mac, dir, nonce, inner) + rest, room)
         == if |inner| <= room then Some(Message(nonce, inner)) else None
  {
    U64();
    SealParts(mac, dir, nonce, inner, rest);
    LeRoundTrip(|inner|, 2);
    BeRoundTrip(nonce, 8);
    var e := Seal(mac, dir, nonce, inner) + rest;
    assert dir + e[..8] + e[24..26] + inner == MacInput(dir, nonce, inner);
  }

  /** A sealed packet opens, whatever is glued behind it, exactly when there is room for it. */
  lemma {:induction false} OpenOfSeal(mac: Bytes -> Digest, nonce: nat, inner: Bytes, rest: Bytes, room: nat)
    requires nonce < U64_SIZE && |inner| <= MAX_INNER
    ensures Open(mac, Seal(mac, DIR_RX, nonce, inner) + rest, room)
         == if |inner| <= room then Some(Message(nonce, inner)) else None
  {
    OpenForOfSeal(mac, DIR_RX, nonce, inner, rest, room);
  }

  /** Only what was sealed for this direction opens. */
  lemma {:induction false} OpenSound(mac: Bytes -> Digest, frame: Bytes, room: nat)
    requires Open(mac, frame, room).Some?
    ensures var o := Open(mac, frame, room).value;
            && o.nonce < U64_SIZE && |o.inner| <= MAX_INNER && |o.inner| <= room
            && OVERHEAD + |o.inner| <= |frame|
            && Tag(mac, DIR_RX, o.nonce, o.inner) == frame[8..24]
            && frame[..OVERHEAD + |o.inner|] == Seal(mac, DIR_RX, o.nonce, o.inner)
  {
    var o := Open(mac, frame, room).value;
    FieldsInverse(frame);
    assert DIR_RX + frame[..8] + frame[24..26] + o.inner == MacInput(DIR_RX, o.nonce, o.inner);
    Rejoin(frame, |o.inner|);
  }

  lemma {:induction false} FieldsInverse(frame: Bytes)
    requires |frame| >= OVERHEAD
    ensures BeValue(frame[..8]) < U64_SIZE
    ensures ToBe(BeValue(frame[..8]), 8) == frame[..8] && ToLe(LeValue(frame[24..26]), 2) == frame[24..26]
  {
    U64();
    BeInverse(frame[..8]);
    LeInverse(frame[24..26]);
  }

  lemma {:induction false} Rejoin(frame: Bytes, n: nat)
    requires |frame| >= OVERHEAD + n
    ensures frame[..OVERHEAD + n] == frame[..8] + frame[8..24] + frame[24..26] + frame[OVERHEAD..OVERHEAD + n]
  {}

  /** An envelope cut short by the end of a receive does not open. */
  lemma {:induction false} TornDoesNotOpen(mac: Bytes -> Digest, nonce: nat, inner: Bytes, k: nat, room: nat)
    requires |inner| <= MAX_INNER && k < OVERHEAD + |inner|
    ensures Open(mac, Seal(mac, DIR_RX, nonce, inner)[..k], room) == None
  {
    if k >= OVERHEAD {
      var e := Seal(mac, DIR_RX, nonce, inner);
      SealParts(mac, DIR_RX, nonce, inner, []);
      assert e + [] == e;
      assert e[..k][24..26] == e[24..26];
      U64();
      LeRoundTrip(|inner|, 2);
    }
  }

  /** The authenticated bytes determine direction, nonce, length and packet. */
  lemma {:induction false} MacInputInjective(d1: Bytes, n1: nat, i1: Bytes, d2: Bytes, n2: nat, i2: Bytes)
    requires |d1| == |d2| && n1 < U64_SIZE && n2 < U64_SIZE
    requires MacInput(d1, n1, i1) == MacInput(d2, n2, i2)
    ensures d1 == d2 && n1 == n2 && i1 == i2
  {
    var a, b := MacInput(d1, n1, i1), MacInput(d2, n2, i2);
    var d := |d1|;
    assert a[..d] == d1 && b[..d] == d2;
    assert a[d..d + 8] == ToBe(n1, 8) && b[d..d + 8] == ToBe(n2, 8);
    assert a[d + 10..] == i1 && b[d + 10..] == i2;
    U64();
    BeRoundTrip(n1, 8);
    BeRoundTrip(n2, 8);
  }

  lemma {:induction false} DirectionsDiffer()
    ensures DIR_RX != DIR_TX && |DIR_RX| == |DIR_TX| == 3
  {
    assert DIR_RX[0] != DIR_TX[0];
  }
}
