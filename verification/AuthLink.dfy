/**
  The authenticated link: key installation, sealing of outgoing packets, opening of incoming ones
  with replay defence, and the policy that forbids the link without an encrypted session.
  */
module AuthLink {
  import opened Bitwise
  import opened Bytes
  import opened KeyedHash
  import opened Envelope
  import opened Draining

  const KEY_BYTES := 32

  datatype LinkDenial = NoKey | NoAeadSession

  /** A refused frame: its direction and why. */
  datatype Refusal = Refusal(tx: bool, why: LinkDenial)

  /** The state that decides what is sent and accepted. */
  datatype Link = Link(key: Option<Bytes>, watermark: nat, sendNonce: nat)

  /** `link_policy_denial`; `session` is whether an encrypted session is established. */
  function Denial(enforced: bool, keyed: bool, session: bool): Option<LinkDenial>
  {
    if !enforced then None
    else if !keyed then Some(NoKey)
    else if !session then Some(NoAeadSession)
    else None
  }

  /** The console once `r` is to be printed: at most once. */
  function Printed(console: seq<Refusal>, r: Refusal): seq<Refusal>
  {
    if r in console then console else console + [r]
  }

  /** The high-water mark after `fetch_max`. */
  function Raise(watermark: nat, nonce: nat): nat
  {
    if nonce > watermark then nonce else watermark
  }

  /** Keyed `unwrap_consuming`: the new high-water mark and the accepted packet, if any. */
  function Accept(mac: Bytes -> Digest, watermark: nat, frame: Bytes, room: nat): (nat, Option<Rx>)
  {
    match Open(mac, frame, room)
    case None => (watermark, None)
    case Some(o) =>
      (Raise(watermark, o.nonce),
       if o.nonce <= watermark then None else Some(Rx(o.inner, OVERHEAD + |o.inner|)))
  }

  /** `unwrap_consuming` in every mode. */
  function Received(hash: Bytes -> Digest, enforced: bool, session: bool, link: Link, frame: Bytes, room: nat)
    : (Link, Option<Rx>)
  {
    if Denial(enforced, link.key.Some?, session).Some? then (link, None)
    else
      match link.key
      case None => (link, if room < |frame| then None else Some(Rx(frame, |frame|)))
      case Some(key) =>
        var (mark, got) := Accept(MacUnder(hash, key), link.watermark, frame, room);
        (link.(watermark := mark), got)
  }

  /** `wrap` in every mode: the bytes produced (none on refusal) for `room` bytes of output space. */
  function Sent(hash: Bytes -> Digest, enforced: bool, session: bool, link: Link, inner: Bytes, room: nat)
    : (Link, Bytes)
  {
    if Denial(enforced, link.key.Some?, session).Some? then (link, [])
    else
      match link.key
      case None => (link, if room < |inner| then [] else inner)
      case Some(key) =>
        if |inner| > MAX_INNER || room < OVERHEAD + |inner| then (link, [])
        else
          var nonce := NextNonce(link.sendNonce);
          (link.(sendNonce := nonce), Seal(MacUnder(hash, key), DIR_TX, nonce, inner))
  }

  class AuthEnvelope {
    const hash: Bytes -> Digest
    /** The compile-time link policy. */
    const enforced: bool
    var linkKey: Bytes
    var keyLoaded: bool
    const ikey: array<Byte>
    const okey: array<Byte>
    var highestRxNonce: nat
    var sendNonce: nat
    /** One announcement bit per direction and reason. */
    var announced: seq<bool>
    /** The refusals printed since the bits were last reset. */
    var console: seq<Refusal>

    ghost predicate Valid()
      reads this, ikey, okey
    {
      && ikey.Length == okey.Length == BLOCK_SIZE && ikey != okey
      && highestRxNonce < U64_SIZE && sendNonce < U64_SIZE
      && (keyLoaded ==>
            && |linkKey| == KEY_BYTES
            && ikey[..] == XorPad(KeyBlock(hash, linkKey), IPAD)
            && okey[..] == XorPad(KeyBlock(hash, linkKey), OPAD))
      && ConsoleMatchesBits()
    }

    /** A bit is set exactly when its refusal has been printed, and none is printed twice. */
    ghost predicate ConsoleMatchesBits()
      reads this
    {
      && |announced| == 4
      && (forall r: Refusal :: announced[Slot(r)] <==> r in console)
      && (forall i, j :: 0 <= i < j < |console| ==> console[i] != console[j])
    }

    ghost function State(): Link
      reads this
    {
      Link(if keyLoaded then Some(linkKey) else None, highestRxNonce, sendNonce)
    }

    constructor (hash: Bytes -> Digest, enforced: bool)
      ensures Valid() && fresh(ikey) && fresh(okey)
      ensures this.hash == hash && this.enforced == enforced
      ensures State() == Link(None, 0, 0) && console == []
    {
      this.hash := hash;
      this.enforced := enforced;
      linkKey := Zeros(KEY_BYTES);
      keyLoaded := false;
      ikey := new Byte[BLOCK_SIZE](_ => ZERO);
      okey := new Byte[BLOCK_SIZE](_ => ZERO);
      highestRxNonce := 0;
      sendNonce := 0;
      announced := [false, false, false, false];
      console := [];
    }

    /** `init`: install the key, precompute both padded key blocks, seed the nonces. */
    method Init(key: Bytes, time: nat) returns (ok: bool)
      requires Valid() && time < U64_SIZE
      modifies this`linkKey, this`keyLoaded, this`highestRxNonce, this`sendNonce, ikey, okey
      ensures Valid()
      ensures ok == (|key| == 32)
      ensures State() == if ok then Link(Some(key), 0, time) else old(State())
    {
      if |key| != KEY_BYTES { return false; }
      linkKey := key;
      var kPad := key + Zeros(BLOCK_SIZE - |key|);
      assert kPad == KeyBlock(hash, key);
      for i := 0 to BLOCK_SIZE
        modifies ikey, okey
        invariant ikey[..i] == XorPad(kPad, IPAD)[..i]
        invariant okey[..i] == XorPad(kPad, OPAD)[..i]
      {
        ikey[i] := Xor(kPad[i], IPAD);
        okey[i] := Xor(kPad[i], OPAD);
      }
      assert ikey[..] == ikey[..BLOCK_SIZE] && okey[..] == okey[..BLOCK_SIZE];
      keyLoaded := true;
      sendNonce := time;
      highestRxNonce := 0;
      ok := true;
    }

    /** `hmac_sha256_precomputed`: the precomputed blocks give the HMAC of the standard. */
    method HmacPrecomputed(parts: seq<Bytes>) returns (d: Digest)
      requires Valid() && keyLoaded
      ensures d == Hmac(hash, linkKey, Concat(parts))
    {
      var h := new Hasher(hash);
      h.Update(ikey[..]);
      for i := 0 to |parts|
        invariant fresh(h) && h.hash == hash && h.absorbed == ikey[..] + Concat(parts[..i])
      {
        assert parts[..i + 1] == parts[..i] + [parts[i]];
        ConcatSnoc(parts[..i], parts[i]);
        h.Update(parts[i]);
      }
      assert parts[..|parts|] == parts;
      var inner := h.Finalize();
      var outer := new Hasher(hash);
      outer.Update(okey[..]);
      outer.Update(inner);
      assert h.absorbed == XorPad(KeyBlock(hash, linkKey), IPAD) + Concat(parts);
      assert outer.absorbed == XorPad(KeyBlock(hash, linkKey), OPAD) + inner;
      d := outer.Finalize();
    }

    /** `announce_denial`: print each refusal the first time only. */
    method AnnounceDenial(r: Refusal)
      requires Valid()
      modifies this`announced, this`console
      ensures Valid()
      ensures console == Printed(old(console), r)
    {
      var slot := Slot(r);
      var before := announced[slot];
      announced := announced[slot := true];
      SlotInjective();
      if before { return; }
      console := console + [r];
    }

    /** `reset_denial_announcements`. */
    method ResetDenialAnnouncements()
      requires Valid()
      modifies this`announced, this`console
      ensures Valid() && console == []
    {
      announced := [false, false, false, false];
      console := [];
    }

    /** `wrap`: the envelope is written into `out` in place. */
    method Wrap(inner: Bytes, out: array<Byte>, session: bool) returns (n: nat)
      requires Valid() && out != ikey && out != okey
      modifies this`sendNonce, this`announced, this`console, out
      ensures Valid()
      ensures n <= out.Length && out[n..] == old(out[n..])
      ensures (State(), out[..n]) == Sent(hash, enforced, session, old(State()), inner, out.Length)
      ensures console == if !enforced || (keyLoaded && session) then old(console)
                         else Printed(old(console), Refusal(true, if keyLoaded then NoAeadSession else NoKey))
    {
      var why := Denial(enforced, keyLoaded, session);
      if why.Some? {
        AnnounceDenial(Refusal(true, why.value));
        return 0;
      }
      if !keyLoaded {
        if out.Length < |inner| { return 0; }
        Copy(out, 0, inner);
        return |inner|;
      }
      if |inner| > MAX_INNER { return 0; }
      var total := OVERHEAD + |inner|;
      if out.Length < total { return 0; }
      sendNonce := NextNonce(sendNonce);
      var envelope := SealForBrain(sendNonce, inner);
      Copy(out, 0, envelope);
      n := total;
    }

    method SealForBrain(nonce: nat, inner: Bytes) returns (e: Bytes)
      requires Valid() && keyLoaded
      ensures e == Seal(MacUnder(hash, linkKey), DIR_TX, nonce, inner)
    {
      var nonceB := ToBe(nonce, NONCE_BYTES);
      var lenB := ToLe(|inner|, LEN_BYTES);
      var mac := HmacPrecomputed([DIR_TX, nonceB, lenB, inner]);
      FourParts(DIR_TX, nonceB, lenB, inner);
      e := nonceB + mac[..HMAC_BYTES] + lenB + inner;
    }

    /** The tag check of `unwrap_consuming`. */
    method TagMatches(nonceB: Bytes, lenB: Bytes, inner: Bytes, macB: Bytes) returns (ok: bool)
      requires Valid() && keyLoaded
      ensures ok <==> MacUnder(hash, linkKey)(DIR_RX + nonceB + lenB + inner)[..HMAC_BYTES] == macB
    {
      var expected := HmacPrecomputed([DIR_RX, nonceB, lenB, inner]);
      FourParts(DIR_RX, nonceB, lenB, inner);
      ok := expected[..HMAC_BYTES] == macB;
    }

    /** The length checks and the tag check of `unwrap_consuming`. */
    method OpenFrame(frame: Bytes, room: nat) returns (o: Option<Message>)
      requires Valid() && keyLoaded
      ensures o == Open(MacUnder(hash, linkKey), frame, room)
      ensures o.Some? ==> o.value.nonce < U64_SIZE && |o.value.inner| <= room
    {
      if |frame| < OVERHEAD { return None; }
      var nonceB, macB, lenB := frame[..8], frame[8..24], frame[24..26];
      var n := LeValue(lenB);
      if n > MAX_INNER { return None; }
      if |frame| < OVERHEAD + n { return None; }
      if room < n { return None; }
      var inner := frame[OVERHEAD..OVERHEAD + n];
      var genuine := TagMatches(nonceB, lenB, inner, macB);
      if !genuine { return None; }
      U64();
      return Some(Message(BeValue(nonceB), inner));
    }

    /** The replay check of `unwrap_consuming`, behind the tag check. */
    method AcceptFrame(frame: Bytes, room: nat) returns (got: Option<Rx>)
      requires Valid() && keyLoaded
      modifies this`highestRxNonce
      ensures Valid()
      ensures (highestRxNonce, got) == Accept(MacUnder(hash, linkKey), old(highestRxNonce), frame, room)
      ensures got.Some? ==> |got.value.inner| <= room
    {
      var o := OpenFrame(frame, room);
      if o.None? { return None; }
      var nonce, inner := o.value.nonce, o.value.inner;
      var prev := highestRxNonce;
      highestRxNonce := Raise(prev, nonce);
      if nonce <= prev { return None; }
      got := Some(Rx(inner, OVERHEAD + |inner|));
    }

    /**
      `unwrap_consuming`: on success the inner packet is in `out` from `at` on, and `r` is its
      length and the number of bytes of `frame` its envelope took.
      */
    method UnwrapConsuming(frame: Bytes, out: array<Byte>, at: nat, session: bool)
      returns (r: Option<(nat, nat)>)
      requires Valid() && out != ikey && out != okey && at <= out.Length
      modifies this`highestRxNonce, this`announced, this`console, out
      ensures Valid()
      ensures var (link, got) := Received(hash, enforced, session, old(State()), frame, out.Length - at);
              && State() == link
              && Stored(got, r, out.Length - at)
              && out[..at + Count(r)] == old(out[..at]) + Inner(got)
      ensures out[..at] == old(out[..at])
      ensures console == if !enforced || (keyLoaded && session) then old(console)
                         else Printed(old(console), Refusal(false, if keyLoaded then NoAeadSession else NoKey))
    {
      var why := Denial(enforced, keyLoaded, session);
      if why.Some? {
        AnnounceDenial(Refusal(false, why.value));
        return None;
      }
      r := UnwrapPermitted(frame, out, at, session);
    }

    /** `unwrap_consuming` behind the policy check. */
    method UnwrapPermitted(frame: Bytes, out: array<Byte>, at: nat, session: bool)
      returns (r: Option<(nat, nat)>)
      requires Valid() && out != ikey && out != okey && at <= out.Length
      requires !enforced || (keyLoaded && session)
      modifies this`highestRxNonce, out
      ensures Valid()
      ensures var (link, got) := Received(hash, enforced, session, old(State()), frame, out.Length - at);
              && State() == link
              && Stored(got, r, out.Length - at)
              && out[..at + Count(r)] == old(out[..at]) + Inner(got)
      ensures out[..at] == old(out[..at])
    {
      if !keyLoaded {
        if out.Length - at < |frame| { return None; }
        Copy(out, at, frame);
        return Some((|frame|, |frame|));
      }
      var got := AcceptFrame(frame, out.Length - at);
      if got.None? { return None; }
      Copy(out, at, got.value.inner);
      r := Some((|got.value.inner|, got.value.eaten));
    }
  }

  /** Bit index: direction times two plus reason. */
  function Slot(r: Refusal): (s: nat)
    ensures s < 4
  {
    (if r.tx then 2 else 0) + (if r.why == NoKey then 0 else 1)
  }

  lemma {:induction false} SlotInjective()
    ensures forall r, q :: Slot(r) == Slot(q) ==> r == q
  {}

  lemma {:induction false} FourParts(a: Bytes, b: Bytes, c: Bytes, d: Bytes)
    ensures Concat([a, b, c, d]) == a + b + c + d
  {
    assert [a, b, c, d][1..] == [b, c, d];
    assert [b, c, d][1..] == [c, d];
    assert [c, d][1..] == [d];
    assert [d][1..] == [];
    assert Concat([d]) == d + Concat([]) == d;
    assert Concat([c, d]) == c + d;
    assert Concat([b, c, d]) == b + c + d;
  }

  method Copy(out: array<Byte>, at: nat, src: Bytes)
    requires at + |src| <= out.Length
    modifies out
    ensures out[..at + |src|] == old(out[..at]) + src && out[at..at + |src|] == src
    ensures out[at + |src|..] == old(out[at + |src|..])
  {
    forall i | 0 <= i < |src| {
      out[at + i] := src[i];
    }
  }

  /** The length and consumption reported as `r` are those of `got`, which fits into `room` bytes. */
  ghost predicate Stored(got: Option<Rx>, r: Option<(nat, nat)>, room: nat)
  {
    match got
    case None => r.None?
    case Some(rx) => r == Some((|rx.inner|, rx.eaten)) && |rx.inner| <= room
  }

  function Count(r: Option<(nat, nat)>): nat
  {
    if r.None? then 0 else r.value.0
  }

  function Inner(got: Option<Rx>): Bytes
  {
    if got.None? then [] else got.value.inner
  }
}
