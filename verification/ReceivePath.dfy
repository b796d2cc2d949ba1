/**
  The receive path of `behavior_task`: stream demultiplexing, the loop that drains every envelope
  coalesced into one TCP receive, and the frame scanner behind it.
  */
module ReceivePath {
  import opened Bitwise
  import opened Bytes
  import opened KeyedHash
  import opened Envelope
  import opened Draining
  import opened AuthLink
  import opened BrainProtocol
  import opened PacketFraming
  import opened FrameScanner
  import FrameScanning

  const MUX_HEADER := 3
  /**
    The drain buffer holds four packets of 64 bytes. A receive brings at most 155 bytes: a packet, 26
    bytes of envelope, 46 of encryption, 3 of stream header and 16 to spare.
    */
  const RECV_BUF_SIZE := 256

  /** What the encrypted layer makes of the start of a byte stream: an envelope and how far it read. */
  datatype Plain = Plain(env: Bytes, eaten: nat)

  /** How the link is configured: hash, policy, session, and the encrypted layer if there is one. */
  datatype Mode = Mode(hash: Bytes -> Digest, enforced: bool, session: bool, aead: Option<Bytes -> Plain>)

  /** One turn of the drain loop on the bytes not yet consumed. */
  function Turn(mode: Mode, link: Link, rest: Bytes, room: nat): (Link, Option<Rx>)
  {
    match mode.aead
    case None => Received(mode.hash, mode.enforced, mode.session, link, rest, room)
    case Some(decrypt) =>
      var p := decrypt(rest);
      if p.env == [] then (link, None)
      else
        var (link', got) := Received(mode.hash, mode.enforced, mode.session, link, p.env, room);
        (link', if got.None? then None else Some(Rx(got.value.inner, p.eaten)))
  }

  function Turns(mode: Mode): Decoder<Link>
  {
    (link: Link, rest: Bytes, room: nat) => Turn(mode, link, rest, room)
  }

  /** The whole drain loop: link state and bytes collected, for `room` bytes of output space. */
  function Drained(mode: Mode, link: Link, ctrl: Bytes, room: nat): (Link, Bytes)
  {
    Run(Turns(mode), link, ctrl, room)
  }

  ghost predicate Agrees(turn: Decoder<Link>, mode: Mode)
  {
    forall link: Link, rest: Bytes, room: nat {:trigger Turn(mode, link, rest, room)} ::
      turn(link, rest, room) == Turn(mode, link, rest, room)
  }

  /** One turn of the loop body: `r` is the inner length stored at `filled` and the bytes consumed. */
  method OneTurn(auth: AuthEnvelope, mode: Mode, rest: Bytes, recvBuf: array<Byte>, filled: nat,
                 ghost turn: Decoder<Link>)
    returns (r: Option<(nat, nat)>)
    requires auth.Valid() && recvBuf != auth.ikey && recvBuf != auth.okey && filled <= recvBuf.Length
    requires mode.hash == auth.hash && mode.enforced == auth.enforced && Agrees(turn, mode)
    modifies auth`highestRxNonce, auth`announced, auth`console, recvBuf
    ensures auth.Valid()
    ensures var (link, got) := turn(old(auth.State()), rest, recvBuf.Length - filled);
            && auth.State() == link
            && Stored(got, r, recvBuf.Length - filled)
            && recvBuf[..filled + Count(r)] == old(recvBuf[..filled]) + Inner(got)
    ensures recvBuf[..filled] == old(recvBuf[..filled])
  {
    assert turn(auth.State(), rest, recvBuf.Length - filled)
        == Turn(mode, auth.State(), rest, recvBuf.Length - filled);
    match mode.aead {
      case Some(decrypt) =>
        var p := decrypt(rest);
        if p.env == [] { return None; }
        r := auth.UnwrapConsuming(p.env, recvBuf, filled, mode.session);
        if r.Some? { r := Some((r.value.0, p.eaten)); }
      case None =>
        r := auth.UnwrapConsuming(rest, recvBuf, filled, mode.session);
    }
  }

  /** The loop body: `next` is the new cursor and fill level, or nothing when the loop ends here. */
  method Pump(auth: AuthEnvelope, mode: Mode, ctrl: Bytes, recvBuf: array<Byte>, off: nat, filled: nat,
              ghost turn: Decoder<Link>, ghost start: Link)
    returns (next: Option<(nat, nat)>)
    requires auth.Valid() && recvBuf != auth.ikey && recvBuf != auth.okey
    requires mode.hash == auth.hash && mode.enforced == auth.enforced && Agrees(turn, mode)
    requires off < |ctrl| && filled < recvBuf.Length
    requires Resumes(turn, start, ctrl, recvBuf.Length, auth.State(), off, recvBuf[..filled])
    modifies auth`highestRxNonce, auth`announced, auth`console, recvBuf
    ensures auth.Valid()
    ensures next.None? ==> Ends(turn, start, ctrl, recvBuf.Length, auth.State(), recvBuf[..filled])
    ensures next.Some? ==>
              && off < next.value.0 && filled <= next.value.1 <= recvBuf.Length
              && Resumes(turn, start, ctrl, recvBuf.Length, auth.State(), next.value.0, recvBuf[..next.value.1])
  {
    ghost var link, got := auth.State(), recvBuf[..filled];
    var r := OneTurn(auth, mode, ctrl[off..], recvBuf, filled, turn);
    ResumeStep(turn, start, ctrl, recvBuf.Length, link, off, got);
    if r.None? || r.value.1 == 0 { return None; }
    return Some((off + r.value.1, filled + r.value.0));
  }

  /** The drain loop, collecting inner packets in `recvBuf`. */
  method Drain(auth: AuthEnvelope, mode: Mode, ctrl: Bytes, recvBuf: array<Byte>, ghost turn: Decoder<Link>)
    returns (filled: nat)
    requires auth.Valid() && recvBuf != auth.ikey && recvBuf != auth.okey
    requires mode.hash == auth.hash && mode.enforced == auth.enforced && Agrees(turn, mode)
    modifies auth`highestRxNonce, auth`announced, auth`console, recvBuf
    ensures auth.Valid() && filled <= recvBuf.Length
    ensures (auth.State(), recvBuf[..filled]) == Run(turn, old(auth.State()), ctrl, recvBuf.Length)
  {
    ghost var start, room := auth.State(), recvBuf.Length;
    var off := 0;
    filled := 0;
    ResumeStart(turn, start, ctrl, room);
    assert recvBuf[..0] == [];
    while off < |ctrl| && filled < recvBuf.Length
      invariant auth.Valid() && filled <= recvBuf.Length
      invariant Resumes(turn, start, ctrl, room, auth.State(), off, recvBuf[..filled])
      decreases |ctrl| - off
    {
      var next := Pump(auth, mode, ctrl, recvBuf, off, filled, turn, start);
      if next.None? { return; }
      off, filled := next.value.0, next.value.1;
    }
    ResumeDone(turn, start, ctrl, room, auth.State(), off, recvBuf[..filled]);
  }

  // ── Stream demultiplexing ──────────────────────────────────────────────

  const STREAM_CONTROL := ZERO

  /** A multiplexed frame: stream id, two-byte length, payload. */
  function MuxFrame(stream: Byte, payload: Bytes): Bytes
  {
    [stream] + ToLe(|payload|, 2) + payload
  }

  /** The bytes kept for the brain path: all of them, or the payload of a leading control frame. */
  function Demux(multiStream: bool, raw: Bytes): Bytes
  {
    if !multiStream then raw
    else if |raw| < MUX_HEADER then []
    else
      var len := LeValue(raw[1..3]);
      if len > |raw| - MUX_HEADER || raw[0] != STREAM_CONTROL then []
      else raw[MUX_HEADER..MUX_HEADER + len]
  }

  /** One receive, from raw bytes to the packets dispatched. */
  method Receive(auth: AuthEnvelope, mode: Mode, multiStream: bool, raw: Bytes) returns (ps: seq<Packet>)
    requires auth.Valid()
    requires mode.hash == auth.hash && mode.enforced == auth.enforced
    modifies auth`highestRxNonce, auth`announced, auth`console
    ensures auth.Valid()
    ensures var (link, bytes) := Drained(mode, old(auth.State()), Demux(multiStream, raw), 256);
            auth.State() == link && ps == Dispatched(bytes)
  {
    var recvBuf := new Byte[RECV_BUF_SIZE](_ => ZERO);
    var n := Drain(auth, mode, Demux(multiStream, raw), recvBuf, Turns(mode));
    var buf := recvBuf[..n];
    LinkIsTwoByte();
    var spans := FrameScanning.Scan(LINK, buf);
    FrameScanning.AcceptedAreFrames(LINK, buf, 0);
    ps := FrameScanning.Packets(buf, spans);
  }

  // ── What the brain sends ───────────────────────────────────────────────

  /** How many of the messages, from the first on, carry nonces that increase above the mark. */
  function FreshCount(mark: nat, msgs: seq<Message>): (k: nat)
    ensures k <= |msgs|
    decreases |msgs|
  {
    if msgs == [] || msgs[0].nonce <= mark then 0 else 1 + FreshCount(msgs[0].nonce, msgs[1..])
  }

  ghost predicate AllFresh(mark: nat, msgs: seq<Message>)
  {
    FreshCount(mark, msgs) == |msgs|
  }

  /** What an envelope can hold: a 64-bit nonce and a packet within the size limit. */
  ghost predicate Sealable(m: Message)
  {
    m.nonce < U64_SIZE && |m.inner| <= MAX_INNER
  }

  function Inners(msgs: seq<Message>): (inners: seq<Bytes>)
    ensures |inners| == |msgs|
  {
    if msgs == [] then [] else [msgs[0].inner] + Inners(msgs[1..])
  }

  /** The link states as the messages are accepted one after the other. */
  function States(link: Link, msgs: seq<Message>): (ls: seq<Link>)
    ensures |ls| == |msgs| + 1 && ls[0] == link
    decreases |msgs|
  {
    [link] + if msgs == [] then [] else States(link.(watermark := msgs[0].nonce), msgs[1..])
  }

  /** The high-water mark once the first `j` messages have been accepted. */
  function MarkAfter(mark: nat, msgs: seq<Message>, j: nat): nat
    requires j <= |msgs|
  {
    if j == 0 then mark else msgs[j - 1].nonce
  }

  lemma {:induction false} StateAt(link: Link, msgs: seq<Message>, j: nat)
    requires j <= |msgs|
    ensures States(link, msgs)[j] == link.(watermark := MarkAfter(link.watermark, msgs, j))
    decreases |msgs|
  {
    if j > 0 { StateAt(link.(watermark := msgs[0].nonce), msgs[1..], j - 1); }
  }

  /** The key is loaded and the policy permits frames. */
  ghost predicate Operational(mode: Mode, link: Link)
  {
    link.key.Some? && (mode.enforced ==> mode.session)
  }

  /** `wire` is message `m` as sent: its envelope, or an encrypted frame holding that envelope. */
  ghost predicate CarriedBy(mode: Mode, key: Bytes, wire: Bytes, m: Message)
  {
    var sealed := Seal(MacUnder(mode.hash, key), DIR_RX, m.nonce, m.inner);
    match mode.aead
    case None => wire == sealed
    case Some(decrypt) =>
      |wire| >= |sealed| && forall rest: Bytes :: decrypt(wire + rest) == Plain(sealed, |wire|)
  }

  /** What one turn makes of `m` in front of the stream: the packet if it is fresh and fits, else nothing. */
  function OnMessage(link: Link, m: Message, eaten: nat, room: nat): (Link, Option<Rx>)
  {
    if |m.inner| <= room && link.watermark < m.nonce
    then (link.(watermark := m.nonce), Some(Rx(m.inner, eaten)))
    else (link, None)
  }

  ghost predicate AllCarried(mode: Mode, key: Bytes, wires: seq<Bytes>, msgs: seq<Message>)
  {
    && |wires| == |msgs|
    && forall i :: 0 <= i < |msgs| ==> Sealable(msgs[i]) && CarriedBy(mode, key, wires[i], msgs[i])
  }

  lemma {:induction false} ReceivedSealed(mode: Mode, link: Link, m: Message, rest: Bytes, room: nat)
    requires Operational(mode, link) && Sealable(m)
    ensures Received(mode.hash, mode.enforced, mode.session, link,
                     Seal(MacUnder(mode.hash, link.key.value), DIR_RX, m.nonce, m.inner) + rest, room)
         == OnMessage(link, m, OVERHEAD + |m.inner|, room)
  {
    OpenOfSeal(MacUnder(mode.hash, link.key.value), m.nonce, m.inner, rest, room);
  }

  lemma {:induction false} TurnOnWire(mode: Mode, link: Link, wire: Bytes, m: Message, rest: Bytes, room: nat)
    requires Operational(mode, link) && CarriedBy(mode, link.key.value, wire, m) && Sealable(m)
    ensures Turn(mode, link, wire + rest, room) == OnMessage(link, m, |wire|, room)
  {
    var sealed := Seal(MacUnder(mode.hash, link.key.value), DIR_RX, m.nonce, m.inner);
    if mode.aead.None? {
      ReceivedSealed(mode, link, m, rest, room);
    } else {
      assert mode.aead.value(wire + rest) == Plain(sealed, |wire|);
      ReceivedSealed(mode, link, m, [], room);
      assert sealed + [] == sealed;
    }
  }

  lemma {:induction false} NotShorter(mode: Mode, key: Bytes, wire: Bytes, m: Message)
    requires CarriedBy(mode, key, wire, m)
    ensures |wire| >= OVERHEAD + |m.inner|
  {}

  lemma {:induction false} CarriedDelivers(mode: Mode, link: Link, wire: Bytes, m: Message)
    requires Operational(mode, link) && CarriedBy(mode, link.key.value, wire, m) && Sealable(m)
    requires link.watermark < m.nonce
    ensures Delivers(Turns(mode), link, wire, m.inner, link.(watermark := m.nonce))
  {
    NotShorter(mode, link.key.value, wire, m);
    var turn, next := Turns(mode), link.(watermark := m.nonce);
    forall rest: Bytes, room: nat
      ensures turn(link, wire + rest, room)
           == if |m.inner| <= room then (next, Some(Rx(m.inner, |wire|))) else (link, None) {
      TurnOnWire(mode, link, wire, m, rest, room);
    }
  }

  lemma {:induction false} StaleEndsStream(mode: Mode, link: Link, wire: Bytes, m: Message, rest: Bytes)
    requires Operational(mode, link) && CarriedBy(mode, link.key.value, wire, m) && Sealable(m)
    requires m.nonce <= link.watermark
    ensures EndOfStream(Turns(mode), link, wire + rest)
  {
    forall room: nat ensures Turns(mode)(link, wire + rest, room) == (link, None) {
      TurnOnWire(mode, link, wire, m, rest, room);
    }
  }

  /** A turn that yields nothing leaves the link as it was. */
  lemma {:induction false} RefusalKeeps(mode: Mode, link: Link, rest: Bytes, room: nat)
    ensures Turn(mode, link, rest, room).1.None? ==> Turn(mode, link, rest, room).0 == link
  {}

  lemma {:induction false} UndecodableEnds(mode: Mode, link: Link, tail: Bytes)
    requires Undecodable(Turns(mode), link, tail)
    ensures EndOfStream(Turns(mode), link, tail)
  {
    forall room: nat ensures Turns(mode)(link, tail, room) == (link, None) { RefusalKeeps(mode, link, tail, room); }
  }

  lemma {:induction false} StreamCarries(mode: Mode, link: Link, wires: seq<Bytes>, msgs: seq<Message>)
    requires Operational(mode, link) && AllCarried(mode, link.key.value, wires, msgs)
    requires AllFresh(link.watermark, msgs)
    ensures Carries(Turns(mode), States(link, msgs), wires, Inners(msgs))
    decreases |msgs|
  {
    if msgs != [] {
      var next := link.(watermark := msgs[0].nonce);
      assert CarriedBy(mode, link.key.value, wires[0], msgs[0]);
      CarriedDelivers(mode, link, wires[0], msgs[0]);
      StreamCarries(mode, next, wires[1..], msgs[1..]);
      var states, inners := States(link, msgs), Inners(msgs);
      forall i | 0 <= i < |wires| ensures Delivers(Turns(mode), states[i], wires[i], inners[i], states[i + 1]) {
        if i > 0 {
          assert Delivers(Turns(mode), States(next, msgs[1..])[i - 1], wires[1..][i - 1],
                          Inners(msgs[1..])[i - 1], States(next, msgs[1..])[i]);
        }
      }
    }
  }

  lemma {:induction false} FreshStreamDrained(mode: Mode, link: Link, wires: seq<Bytes>, msgs: seq<Message>,
                                              tail: Bytes, room: nat)
    requires Operational(mode, link) && AllCarried(mode, link.key.value, wires, msgs)
    requires AllFresh(link.watermark, msgs)
    requires EndOfStream(Turns(mode), States(link, msgs)[|msgs|], tail)
    ensures var k := FitCount(Inners(msgs), room);
            Drained(mode, link, Concat(wires) + tail, room) == (States(link, msgs)[k], Concat(Inners(msgs)[..k]))
  {
    StreamCarries(mode, link, wires, msgs);
    RunOfCoalesced(Turns(mode), States(link, msgs), wires, Inners(msgs), tail, room);
  }

  /** The state behind the fresh messages, and why the next one is stale there. */
  lemma {:induction false} BehindFresh(link: Link, msgs: seq<Message>)
    ensures var k := FreshCount(link.watermark, msgs);
            && AllFresh(link.watermark, msgs[..k]) && Inners(msgs[..k]) == Inners(msgs)[..k]
            && States(link, msgs[..k])[k].key == link.key
            && (k < |msgs| ==> msgs[k].nonce <= States(link, msgs[..k])[k].watermark)
    decreases |msgs|
  {
    var k := FreshCount(link.watermark, msgs);
    if k > 0 {
      BehindFresh(link.(watermark := msgs[0].nonce), msgs[1..]);
      assert msgs[..k][1..] == msgs[1..][..k - 1];
    }
  }

  lemma {:induction false} FreshEndsAt(mode: Mode, link: Link, wires: seq<Bytes>, msgs: seq<Message>, tail: Bytes)
    requires Operational(mode, link) && AllCarried(mode, link.key.value, wires, msgs)
    requires EndsIn(mode, link, msgs, tail)
    ensures var k := FreshCount(link.watermark, msgs);
            EndOfStream(Turns(mode), States(link, msgs[..k])[k], Concat(wires[k..]) + tail)
  {
    var k := FreshCount(link.watermark, msgs);
    if k == |msgs| {
      assert msgs[..k] == msgs && Concat(wires[k..]) + tail == tail;
      if tail != [] { UndecodableEnds(mode, States(link, msgs)[k], tail); }
    } else {
      BehindFresh(link, msgs);
      ConcatFrom(wires, k, tail);
      StaleEndsStream(mode, States(link, msgs[..k])[k], wires[k], msgs[k], Concat(wires[k + 1..]) + tail);
    }
  }

  lemma {:induction false} ConcatFrom(wires: seq<Bytes>, k: nat, tail: Bytes)
    requires k < |wires|
    ensures Concat(wires[k..]) + tail == wires[k] + (Concat(wires[k + 1..]) + tail)
  {
    assert wires[k..][1..] == wires[k + 1..];
  }

  /** Behind a stream of fresh messages comes nothing or something undecodable; behind a stale one, anything. */
  ghost predicate EndsIn(mode: Mode, link: Link, msgs: seq<Message>, tail: Bytes)
  {
    AllFresh(link.watermark, msgs) ==> tail == [] || Undecodable(Turns(mode), States(link, msgs)[|msgs|], tail)
  }

  /** How many of the messages the drain takes: those fresh in sequence, as far as they fit. */
  function Taken(mark: nat, msgs: seq<Message>, room: nat): (j: nat)
    ensures j <= |msgs|
  {
    Least(FreshCount(mark, msgs), FitCount(Inners(msgs), room))
  }

  /**
    Whatever envelopes TCP glues into one receive, with whatever nonces, and whatever undecodable
    remainder follows them: the drain loop yields the longest run of their packets whose nonces
    increase above the mark and which fits the buffer, and leaves the mark at the last of them.
    */
  lemma {:induction false} DrainCollectsFreshThatFit(mode: Mode, link: Link, wires: seq<Bytes>, msgs: seq<Message>,
                                                     tail: Bytes, room: nat)
    requires Operational(mode, link) && AllCarried(mode, link.key.value, wires, msgs)
    requires EndsIn(mode, link, msgs, tail)
    ensures var j := Taken(link.watermark, msgs, room);
            var (after, got) := Drained(mode, link, Concat(wires) + tail, room);
            && got == Concat(Inners(msgs)[..j])
            && after == link.(watermark := MarkAfter(link.watermark, msgs, j))
  {
    var k, j := FreshCount(link.watermark, msgs), Taken(link.watermark, msgs, room);
    BehindFresh(link, msgs);
    FreshEndsAt(mode, link, wires, msgs, tail);
    ConcatCut(wires, k, tail);
    FreshStreamDrained(mode, link, wires[..k], msgs[..k], Concat(wires[k..]) + tail, room);
    FitPrefix(Inners(msgs), k, room);
    StateAt(link, msgs[..k], j);
  }

  lemma {:induction false} ConcatCut(wires: seq<Bytes>, k: nat, tail: Bytes)
    requires k <= |wires|
    ensures Concat(wires) + tail == Concat(wires[..k]) + (Concat(wires[k..]) + tail)
  {
    ConcatAppend(wires[..k], wires[k..]);
    assert wires[..k] + wires[k..] == wires;
  }

  /** Nothing is lost in the drain exactly when the packets fit the buffer and none lies behind the fresh ones. */
  lemma {:induction false} DrainLosesNothingIff(mode: Mode, link: Link, wires: seq<Bytes>, msgs: seq<Message>,
                                                tail: Bytes, room: nat)
    requires Operational(mode, link) && AllCarried(mode, link.key.value, wires, msgs)
    requires EndsIn(mode, link, msgs, tail)
    ensures Drained(mode, link, Concat(wires) + tail, room).1 == Concat(Inners(msgs))
       <==> |Concat(Inners(msgs))| <= room && Concat(Inners(msgs)[FreshCount(link.watermark, msgs)..]) == []
  {
    DrainCollectsFreshThatFit(mode, link, wires, msgs, tail, room);
    MissingIff(Inners(msgs), FreshCount(link.watermark, msgs), room);
  }

  lemma {:induction false} InnersNoLonger(mode: Mode, key: Bytes, wires: seq<Bytes>, msgs: seq<Message>)
    requires AllCarried(mode, key, wires, msgs)
    ensures |Concat(Inners(msgs))| <= |Concat(wires)|
    decreases |msgs|
  {
    if msgs != [] {
      NotShorter(mode, key, wires[0], msgs[0]);
      assert forall i :: 0 <= i < |msgs[1..]| ==> wires[1..][i] == wires[i + 1] && msgs[1..][i] == msgs[i + 1];
      InnersNoLonger(mode, key, wires[1..], msgs[1..]);
    }
  }

  /**
    End to end: for every list of packets, however the brain cuts its frames into envelopes, with
    whatever nonces, and however many envelopes share one receive: exactly those packets are
    dispatched, once each and in order, if and only if together they fit the buffer and no part of
    them lies behind the envelopes whose nonces increase above the mark.
    */
  lemma {:induction false} EndToEndIff(mode: Mode, link: Link, ps: seq<Packet>, msgs: seq<Message>, wires: seq<Bytes>,
                                       tail: Bytes, room: nat)
    requires Operational(mode, link) && Frameable(ps)
    requires Concat(Inners(msgs)) == Concat(Frames(ps))
    requires AllCarried(mode, link.key.value, wires, msgs) && EndsIn(mode, link, msgs, tail)
    ensures Dispatched(Drained(mode, link, Concat(wires) + tail, room).1) == ps
       <==> |Concat(Frames(ps))| <= room && Concat(Inners(msgs)[FreshCount(link.watermark, msgs)..]) == []
  {
    var got := Drained(mode, link, Concat(wires) + tail, room).1;
    var j := Taken(link.watermark, msgs, room);
    DrainCollectsFreshThatFit(mode, link, wires, msgs, tail, room);
    MissingIff(Inners(msgs), FreshCount(link.watermark, msgs), room);
    AllDispatchedIff(ps, got, Concat(Inners(msgs)[j..]));
  }

  /** The kernel's buffers are large enough: what fits one receive fits the drain buffer. */
  lemma {:induction false} EndToEnd(mode: Mode, link: Link, ps: seq<Packet>, msgs: seq<Message>, wires: seq<Bytes>,
                                    tail: Bytes)
    requires Operational(mode, link) && Frameable(ps)
    requires Concat(Inners(msgs)) == Concat(Frames(ps))
    requires AllCarried(mode, link.key.value, wires, msgs) && EndsIn(mode, link, msgs, tail)
    requires |Concat(wires) + tail| <= 155
    ensures Dispatched(Drained(mode, link, Concat(wires) + tail, 256).1) == ps
       <==> Concat(Inners(msgs)[FreshCount(link.watermark, msgs)..]) == []
  {
    InnersNoLonger(mode, link.key.value, wires, msgs);
    EndToEndIff(mode, link, ps, msgs, wires, tail, 256);
  }

  /**
    An envelope torn off by the end of the receive is such an undecodable remainder.
    With the encrypted layer it is a remainder that layer cannot decrypt, or an encrypted part of an
    envelope.
    */
  lemma {:induction false} TornUndecodable(mode: Mode, link: Link, nonce: nat, inner: Bytes, k: nat, tail: Bytes)
    requires Operational(mode, link) && |inner| <= MAX_INNER && k < OVERHEAD + |inner|
    requires var part := Seal(MacUnder(mode.hash, link.key.value), DIR_RX, nonce, inner)[..k];
             match mode.aead
             case None => tail == part
             case Some(decrypt) => decrypt(tail).env == [] || decrypt(tail).env == part
    ensures Undecodable(Turns(mode), link, tail)
  {
    forall room: nat ensures Turns(mode)(link, tail, room).1.None? {
      TornDoesNotOpen(MacUnder(mode.hash, link.key.value), nonce, inner, k, room);
    }
  }

  /** A frame per message, with consecutive nonces above `nonce`. */
  function FrameEach(nonce: nat, ps: seq<Packet>): (msgs: seq<Message>)
    ensures |msgs| == |ps|
    decreases |ps|
  {
    if ps == [] then [] else [Message(nonce + 1, Frame(ps[0]))] + FrameEach(nonce + 1, ps[1..])
  }

  function SealEach(mac: Bytes -> Digest, msgs: seq<Message>): (wires: seq<Bytes>)
    ensures |wires| == |msgs|
    ensures forall i :: 0 <= i < |msgs| ==> wires[i] == Seal(mac, DIR_RX, msgs[i].nonce, msgs[i].inner)
  {
    if msgs == [] then [] else [Seal(mac, DIR_RX, msgs[0].nonce, msgs[0].inner)] + SealEach(mac, msgs[1..])
  }

  /** No frame is longer than an envelope may carry. */
  ghost predicate Sendable(ps: seq<Packet>)
  {
    forall k :: 0 <= k < |ps| ==> |Frame(ps[k])| <= MAX_INNER
  }

  lemma {:induction false} FrameEachIsFresh(nonce: nat, ps: seq<Packet>)
    requires Sendable(ps) && nonce + |ps| < U64_SIZE
    ensures AllFresh(nonce, FrameEach(nonce, ps)) && Inners(FrameEach(nonce, ps)) == Frames(ps)
    decreases |ps|
  {
    if ps != [] {
      FrameEachIsFresh(nonce + 1, ps[1..]);
      assert FrameEach(nonce, ps)[1..] == FrameEach(nonce + 1, ps[1..]);
    }
  }

  lemma {:induction false} FrameEachSealable(nonce: nat, ps: seq<Packet>, i: nat)
    requires Sendable(ps) && nonce + |ps| < U64_SIZE && i < |ps|
    ensures Sealable(FrameEach(nonce, ps)[i])
    decreases |ps|
  {
    if i > 0 { FrameEachSealable(nonce + 1, ps[1..], i - 1); }
  }

  /** The plainest sender, one envelope per packet: all packets are dispatched if and only if they fit the buffer. */
  lemma {:induction false} EnvelopePerPacket(mode: Mode, link: Link, ps: seq<Packet>, room: nat)
    requires Operational(mode, link) && mode.aead.None? && Sendable(ps) && link.watermark + |ps| < U64_SIZE
    ensures var wires := SealEach(MacUnder(mode.hash, link.key.value), FrameEach(link.watermark, ps));
            Dispatched(Drained(mode, link, Concat(wires), room).1) == ps <==> |Concat(Frames(ps))| <= room
  {
    var mac, msgs := MacUnder(mode.hash, link.key.value), FrameEach(link.watermark, ps);
    var wires := SealEach(mac, msgs);
    FrameEachIsFresh(link.watermark, ps);
    forall i | 0 <= i < |msgs| ensures Sealable(msgs[i]) { FrameEachSealable(link.watermark, ps, i); }
    assert Inners(msgs)[|msgs|..] == [];
    assert Concat(wires) + [] == Concat(wires);
    EndToEndIff(mode, link, ps, msgs, wires, [], room);
  }

  /** Unkeyed links pass the bytes through, so the same holds for bare frames. */
  lemma {:induction false} PlaintextEndToEnd(mode: Mode, link: Link, ps: seq<Packet>)
    requires link.key.None? && !mode.enforced && mode.aead.None? && Frameable(ps)
    requires |Concat(Frames(ps))| <= 155
    ensures Dispatched(Drained(mode, link, Concat(Frames(ps)), 256).1) == ps
  {
    PlaintextDrain(mode, link, Concat(Frames(ps)), 256);
    assert Drained(mode, link, Concat(Frames(ps)), 256).1 == Concat(Frames(ps));
    CoalescedFramesAllDispatched(ps);
  }

  lemma {:induction false} PlaintextDrain(mode: Mode, link: Link, ctrl: Bytes, room: nat)
    requires link.key.None? && !mode.enforced && mode.aead.None? && |ctrl| <= room
    ensures Drained(mode, link, ctrl, room) == (link, ctrl)
  {
    if ctrl != [] { OneTurnTakesAll(Turns(mode), link, ctrl, room, link); }
  }

  /**
    A stale envelope at the front ends the drain, encrypted layer or not: the fresh ones glued behind
    it are not read, and no nonce is used up.
    */
  lemma {:induction false} StaleEnvelopeHidesRest(mode: Mode, link: Link, wire: Bytes, m: Message, rest: Bytes,
                                                  room: nat)
    requires Operational(mode, link) && CarriedBy(mode, link.key.value, wire, m) && Sealable(m)
    requires m.nonce <= link.watermark
    ensures Drained(mode, link, wire + rest, room) == (link, [])
  {
    TurnOnWire(mode, link, wire, m, rest, room);
  }
}
