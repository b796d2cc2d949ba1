/**
  What `wrap` puts on the wire, seen by the peer, and the link policy, which rules both directions.
  */
module SendPath {
  import opened Bitwise
  import opened Bytes
  import opened KeyedHash
  import opened Envelope
  import opened Draining
  import opened AuthLink
  import opened FrameScanner
  import opened ReceivePath
  import LinkRuns

  // ── The policy ─────────────────────────────────────────────────────────

  /**
    With the policy compiled in, a link without a key or without an encrypted session neither sends
    nor accepts anything, and its state does not move.
    */
  lemma {:induction false} PolicyForbids(mode: Mode, link: Link, bytes: Bytes, room: nat)
    requires mode.enforced && (link.key.None? || !mode.session)
    ensures Received(mode.hash, mode.enforced, mode.session, link, bytes, room) == (link, None)
    ensures Sent(mode.hash, mode.enforced, mode.session, link, bytes, room) == (link, [])
    ensures Drained(mode, link, bytes, room) == (link, []) && Dispatched([]) == []
  {
    CoalescedFramesAllDispatched([]);
  }

  /** On a keyed link a fresh packet that fits is accepted if and only if the policy is off or a session is up. */
  lemma {:induction false} AcceptedIffPermitted(mode: Mode, link: Link, wire: Bytes, m: Message, rest: Bytes, room: nat)
    requires link.key.Some? && CarriedBy(mode, link.key.value, wire, m) && Sealable(m)
    requires link.watermark < m.nonce && |m.inner| <= room
    ensures Turn(mode, link, wire + rest, room)
         == if !mode.enforced || mode.session then (link.(watermark := m.nonce), Some(Rx(m.inner, |wire|)))
            else (link, None)
  {
    if !mode.enforced || mode.session { TurnOnWire(mode, link, wire, m, rest, room); }
  }

  /** Without a key bytes pass unchanged in both directions if and only if the policy is off. */
  lemma {:induction false} PlainIffUnenforced(mode: Mode, link: Link, bytes: Bytes, room: nat)
    requires link.key.None? && |bytes| <= room
    ensures Received(mode.hash, mode.enforced, mode.session, link, bytes, room)
         == (link, if mode.enforced then None else Some(Rx(bytes, |bytes|)))
    ensures Sent(mode.hash, mode.enforced, mode.session, link, bytes, room)
         == (link, if mode.enforced then [] else bytes)
  {}

  // ── Sending ────────────────────────────────────────────────────────────

  /** What an envelope and the output buffer can take. */
  predicate Sendable(inner: Bytes, room: nat)
  {
    |inner| <= 8192 && 26 + |inner| <= room
  }

  /**
    On a permitted keyed link a successful `wrap` is the kernel's atomic seal step: it leaves the
    counter that step leaves, and the peer opens its bytes to the message that step logs. What cannot
    be sent uses up no nonce.
    */
  lemma {:induction false} SentIsKernelSeal(mode: Mode, link: Link, inner: Bytes, room: nat, s: LinkRuns.State,
                                            rest: Bytes)
    requires Operational(mode, link) && s.sendNonce == link.sendNonce < U64_SIZE
    ensures var mac := MacUnder(mode.hash, link.key.value);
            var (after, bytes) := Sent(mode.hash, mode.enforced, mode.session, link, inner, room);
            var t := LinkRuns.Apply(mac, s, LinkRuns.KernelSeal(inner));
            if Sendable(inner, room) then
              && after == link.(sendNonce := t.sendNonce)
              && t.kernelLog == s.kernelLog + [Message(t.sendNonce, inner)]
              && |bytes| == 26 + |inner|
              && OpenFor(mac, DIR_TX, bytes + rest, |inner|) == Some(Message(t.sendNonce, inner))
            else after == link && bytes == []
  {
    if Sendable(inner, room) {
      OpenForOfSeal(MacUnder(mode.hash, link.key.value), DIR_TX, NextNonce(link.sendNonce), inner, rest, |inner|);
    }
  }

  /** Packets sent one after the other. */
  function Sends(send: (Link, Bytes) -> (Link, Bytes), link: Link, inners: seq<Bytes>): (Link, seq<Bytes>)
    decreases |inners|
  {
    if inners == [] then (link, [])
    else
      var (next, bytes) := send(link, inners[0]);
      var (end, more) := Sends(send, next, inners[1..]);
      (end, [bytes] + more)
  }

  /** What a peer takes that accepts only nonces above its mark. */
  function Takes(open: Bytes -> Option<Message>, mark: nat, frames: seq<Bytes>): seq<Message>
    decreases |frames|
  {
    if frames == [] then []
    else
      match open(frames[0])
      case None => Takes(open, mark, frames[1..])
      case Some(m) =>
        if m.nonce <= mark then Takes(open, mark, frames[1..]) else [m] + Takes(open, m.nonce, frames[1..])
  }

  /** `wrap` with `room` bytes of output space. */
  function Wrapper(mode: Mode, room: nat): (Link, Bytes) -> (Link, Bytes)
  {
    (l: Link, p: Bytes) => Sent(mode.hash, mode.enforced, mode.session, l, p, room)
  }

  /** The peer's check, under the kernel's label. */
  function Peer(mac: Bytes -> Digest): Bytes -> Option<Message>
  {
    (frame: Bytes) => OpenFor(mac, DIR_TX, frame, 8192)
  }

  /** The packets that can be sent, numbered from `from + 1` on. */
  function Numbered(from: nat, inners: seq<Bytes>, room: nat): (ms: seq<Message>)
    ensures |ms| <= |inners|
    decreases |inners|
  {
    if inners == [] then []
    else if Sendable(inners[0], room) then [Message(from + 1, inners[0])] + Numbered(from + 1, inners[1..], room)
    else Numbered(from, inners[1..], room)
  }

  /** What can be sent arrives with the next nonce, and nothing else uses one up. */
  ghost predicate Arrives(send: (Link, Bytes) -> (Link, Bytes), open: Bytes -> Option<Message>, mode: Mode,
                          key: Option<Bytes>, room: nat)
  {
    forall l: Link, p: Bytes {:trigger send(l, p)} ::
      Operational(mode, l) && l.key == key && l.sendNonce + 1 < U64_SIZE ==>
        OneArrives(send(l, p), open, l, p, room)
  }

  ghost predicate OneArrives(sent: (Link, Bytes), open: Bytes -> Option<Message>, l: Link, p: Bytes, room: nat)
  {
    if Sendable(p, room)
    then sent.0 == l.(sendNonce := l.sendNonce + 1) && open(sent.1) == Some(Message(l.sendNonce + 1, p))
    else sent.0 == l && open(sent.1) == None
  }

  lemma {:induction false} AllArrive(send: (Link, Bytes) -> (Link, Bytes), open: Bytes -> Option<Message>, mode: Mode,
                                     link: Link, inners: seq<Bytes>, room: nat, mark: nat)
    requires Arrives(send, open, mode, link.key, room)
    requires Operational(mode, link) && mark <= link.sendNonce && link.sendNonce + |inners| < U64_SIZE
    ensures var (end, frames) := Sends(send, link, inners);
            var ms := Numbered(link.sendNonce, inners, room);
            Takes(open, mark, frames) == ms && end == link.(sendNonce := link.sendNonce + |ms|)
    decreases |inners|
  {
    if inners != [] {
      var (next, bytes) := send(link, inners[0]);
      var (end, more) := Sends(send, next, inners[1..]);
      assert OneArrives(send(link, inners[0]), open, link, inners[0], room);
      AllArrive(send, open, mode, next, inners[1..], room,
                if Sendable(inners[0], room) then link.sendNonce + 1 else mark);
      assert ([bytes] + more)[1..] == more;
    }
  }

  lemma {:induction false} SentIs(mode: Mode, link: Link, inner: Bytes, room: nat)
    requires Operational(mode, link) && link.sendNonce + 1 < U64_SIZE
    ensures Sent(mode.hash, mode.enforced, mode.session, link, inner, room)
         == if !Sendable(inner, room) then (link, [])
            else (link.(sendNonce := link.sendNonce + 1),
                  Seal(MacUnder(mode.hash, link.key.value), DIR_TX, link.sendNonce + 1, inner))
  {}

  lemma {:induction false} PeerOpens(mac: Bytes -> Digest, nonce: nat, inner: Bytes)
    requires nonce < U64_SIZE && |inner| <= 8192
    ensures OpenFor(mac, DIR_TX, Seal(mac, DIR_TX, nonce, inner), 8192) == Some(Message(nonce, inner))
  {
    OpenForOfSeal(mac, DIR_TX, nonce, inner, [], 8192);
    assert Seal(mac, DIR_TX, nonce, inner) + [] == Seal(mac, DIR_TX, nonce, inner);
  }

  lemma {:induction false} NothingOpens(mac: Bytes -> Digest)
    ensures OpenFor(mac, DIR_TX, [], 8192) == None
  {}

  lemma {:induction false} WrapSent(mode: Mode, l: Link, p: Bytes, room: nat)
    requires Operational(mode, l) && l.sendNonce + 1 < U64_SIZE && Sendable(p, room)
    ensures var sent := Wrapper(mode, room)(l, p);
            sent.0 == l.(sendNonce := l.sendNonce + 1)
            && sent.1 == Seal(MacUnder(mode.hash, l.key.value), DIR_TX, l.sendNonce + 1, p)
  {
    SentIs(mode, l, p, room);
  }

  lemma {:induction false} PeerGets(mac: Bytes -> Digest, nonce: nat, p: Bytes, bytes: Bytes)
    requires nonce < U64_SIZE && |p| <= 8192 && bytes == Seal(mac, DIR_TX, nonce, p)
    ensures Peer(mac)(bytes) == Some(Message(nonce, p))
  {
    PeerOpens(mac, nonce, p);
  }

  lemma {:induction false} WrapArrives(mode: Mode, l: Link, p: Bytes, room: nat)
    requires Operational(mode, l) && l.sendNonce + 1 < U64_SIZE && Sendable(p, room)
    ensures OneArrives(Wrapper(mode, room)(l, p), Peer(MacUnder(mode.hash, l.key.value)), l, p, room)
  {
    WrapSent(mode, l, p, room);
    PeerGets(MacUnder(mode.hash, l.key.value), l.sendNonce + 1, p, Wrapper(mode, room)(l, p).1);
  }

  lemma {:induction false} WrapRefused(mode: Mode, l: Link, p: Bytes, room: nat, mac: Bytes -> Digest)
    requires Operational(mode, l) && l.sendNonce + 1 < U64_SIZE && !Sendable(p, room)
    ensures OneArrives(Wrapper(mode, room)(l, p), Peer(mac), l, p, room)
  {
    SentIs(mode, l, p, room);
    NothingOpens(mac);
  }

  lemma {:induction false} WrapperArrives(mode: Mode, key: Bytes, room: nat)
    ensures Arrives(Wrapper(mode, room), Peer(MacUnder(mode.hash, key)), mode, Some(key), room)
  {
    forall l: Link, p: Bytes | Operational(mode, l) && l.key == Some(key) && l.sendNonce + 1 < U64_SIZE
      ensures OneArrives(Wrapper(mode, room)(l, p), Peer(MacUnder(mode.hash, key)), l, p, room) {
      if Sendable(p, room) {
        WrapArrives(mode, l, p, room);
      } else {
        WrapRefused(mode, l, p, room, MacUnder(mode.hash, key));
      }
    }
  }

  /**
    Whatever packets are wrapped one after the other, the peer gets exactly those that can be sent,
    in order, with consecutive nonces above the counter, and the counter ends at the last of them.
    */
  lemma {:induction false} WrapsArrive(mode: Mode, link: Link, inners: seq<Bytes>, room: nat, mark: nat)
    requires Operational(mode, link) && mark <= link.sendNonce && link.sendNonce + |inners| < U64_SIZE
    ensures var (end, frames) := Sends(Wrapper(mode, room), link, inners);
            var ms := Numbered(link.sendNonce, inners, room);
            && Takes(Peer(MacUnder(mode.hash, link.key.value)), mark, frames) == ms
            && end == link.(sendNonce := link.sendNonce + |ms|)
  {
    WrapperArrives(mode, link.key.value, room);
    AllArrive(Wrapper(mode, room), Peer(MacUnder(mode.hash, link.key.value)), mode, link, inners, room, mark);
  }
}
