/**
  Many receives in sequence, and receives that multiplex several streams: which of the packets sent
  are dispatched.
  */
module Receives {
  import opened Bitwise
  import opened Bytes
  import opened Envelope
  import opened Draining
  import opened AuthLink
  import opened BrainProtocol
  import opened PacketFraming
  import opened FrameScanner
  import opened ReceivePath

  /** Packets as sent: the bytes, and for a keyed link the messages and their wire form. */
  datatype Batch = Batch(payload: Bytes, packets: seq<Packet>, msgs: seq<Message>, wires: seq<Bytes>)

  /** How the brain sends packets: as glued frames without a key, else in envelopes with fresh nonces. */
  ghost predicate SentIn(mode: Mode, link: Link, b: Batch)
  {
    && Frameable(b.packets)
    && if link.key.None?
       then !mode.enforced && mode.aead.None? && b.payload == Concat(Frames(b.packets))
       else
         && Operational(mode, link) && AllCarried(mode, link.key.value, b.wires, b.msgs)
         && AllFresh(link.watermark, b.msgs)
         && Concat(Inners(b.msgs)) == Concat(Frames(b.packets)) && b.payload == Concat(b.wires)
  }

  /** The link once the batch has been taken in. */
  function Later(link: Link, b: Batch): Link
  {
    if link.key.None? then link else link.(watermark := MarkAfter(link.watermark, b.msgs, |b.msgs|))
  }

  lemma {:induction false} KeyedTaken(mode: Mode, link: Link, b: Batch)
    requires link.key.Some? && SentIn(mode, link, b) && |b.payload| <= 155
    ensures Drained(mode, link, b.payload, 256) == (Later(link, b), Concat(Frames(b.packets)))
  {
    assert Concat(b.wires) + [] == b.payload && Inners(b.msgs)[..|b.msgs|] == Inners(b.msgs);
    InnersNoLonger(mode, link.key.value, b.wires, b.msgs);
    AllFitIff(Inners(b.msgs), 256);
    DrainCollectsFreshThatFit(mode, link, b.wires, b.msgs, [], 256);
  }

  /** On plain, keyed and encrypted links one receive of a batch dispatches it and moves the mark behind it. */
  lemma {:induction false} SentIsDispatched(mode: Mode, link: Link, b: Batch)
    requires SentIn(mode, link, b) && |b.payload| <= 155
    ensures var (after, got) := Drained(mode, link, b.payload, 256);
            after == Later(link, b) && Dispatched(got) == b.packets
  {
    if link.key.None? {
      PlaintextDrain(mode, link, b.payload, 256);
    } else {
      KeyedTaken(mode, link, b);
    }
    CoalescedFramesAllDispatched(b.packets);
  }

  // ── Receives in sequence ───────────────────────────────────────────────

  /** The packets dispatched from a sequence of receives. */
  ghost function AllReceived(mode: Mode, multiStream: bool, link: Link, raws: seq<Bytes>): seq<Packet>
    decreases |raws|
  {
    if raws == [] then []
    else
      var (after, got) := Drained(mode, link, Demux(multiStream, raws[0]), 256);
      Dispatched(got) + AllReceived(mode, multiStream, after, raws[1..])
  }

  /** A multiplexed frame: its stream and what it carries. */
  datatype Muxed = Muxed(stream: Byte, batch: Batch)

  function MuxBytes(f: Muxed): Bytes
  {
    MuxFrame(f.stream, f.batch.payload)
  }

  function EachMux(fs: seq<Muxed>): (raws: seq<Bytes>)
    ensures |raws| == |fs|
  {
    if fs == [] then [] else [MuxBytes(fs[0])] + EachMux(fs[1..])
  }

  predicate IsControl(f: Muxed)
  {
    f.stream == STREAM_CONTROL
  }

  /** The control frames carry one batch after the other; other streams are not for the brain path. */
  ghost predicate SentOn(mode: Mode, link: Link, fs: seq<Muxed>)
    decreases |fs|
  {
    fs == [] ||
    (if IsControl(fs[0])
     then SentIn(mode, link, fs[0].batch) && SentOn(mode, Later(link, fs[0].batch), fs[1..])
     else SentOn(mode, link, fs[1..]))
  }

  /** Everything the control frames carry, in order. */
  function ControlPackets(fs: seq<Muxed>): seq<Packet>
  {
    if fs == [] then [] else Carried(fs[0]) + ControlPackets(fs[1..])
  }

  function Carried(f: Muxed): seq<Packet>
  {
    if IsControl(f) then f.batch.packets else []
  }

  /** The bytes kept of a leading multiplexed frame, whatever follows it. */
  lemma {:induction false} DemuxOfFrame(f: Muxed, rest: Bytes)
    requires |f.batch.payload| < 65536
    ensures Demux(true, MuxBytes(f) + rest) == if IsControl(f) then f.batch.payload else []
  {
    var raw, payload := MuxBytes(f) + rest, f.batch.payload;
    assert raw[1..3] == ToLe(|payload|, 2);
    U64();
    LeRoundTrip(|payload|, 2);
    assert raw[MUX_HEADER..MUX_HEADER + |payload|] == payload;
  }

  lemma {:induction false} NothingDrained(mode: Mode, link: Link)
    ensures Drained(mode, link, [], 256) == (link, []) && Dispatched([]) == []
  {
    CoalescedFramesAllDispatched([]);
  }

  /** One receive that starts with a multiplexed frame dispatches what that frame carries. */
  lemma {:induction false} FirstFrameDispatched(mode: Mode, link: Link, fs: seq<Muxed>, rest: Bytes)
    requires fs != [] && SentOn(mode, link, fs) && |MuxBytes(fs[0])| <= 155
    ensures var (after, got) := Drained(mode, link, Demux(true, MuxBytes(fs[0]) + rest), 256);
            Dispatched(got) == Carried(fs[0]) && SentOn(mode, after, fs[1..])
  {
    DemuxOfFrame(fs[0], rest);
    if IsControl(fs[0]) { SentIsDispatched(mode, link, fs[0].batch); } else { NothingDrained(mode, link); }
  }

  /** One multiplexed frame per receive: over any number of receives everything is dispatched, once and in order. */
  lemma {:induction false} ApartAllDispatched(mode: Mode, link: Link, fs: seq<Muxed>)
    requires SentOn(mode, link, fs) && forall i :: 0 <= i < |fs| ==> |MuxBytes(fs[i])| <= 155
    ensures AllReceived(mode, true, link, EachMux(fs)) == ControlPackets(fs)
    decreases |fs|
  {
    if fs != [] {
      FirstFrameDispatched(mode, link, fs, []);
      assert MuxBytes(fs[0]) + [] == MuxBytes(fs[0]) && EachMux(fs)[1..] == EachMux(fs[1..]);
      var after := Drained(mode, link, Demux(true, MuxBytes(fs[0])), 256).0;
      ApartAllDispatched(mode, after, fs[1..]);
    }
  }

  /**
    Glued into one receive only the first frame is read, on plain, keyed and encrypted links alike:
    everything is dispatched if and only if no control packet lies behind the first frame, be that
    one control frame behind another or behind a frame of another stream.
    */
  lemma {:induction false} MultiStreamReadsFirstFrameOnly(mode: Mode, link: Link, fs: seq<Muxed>)
    requires fs != [] && SentOn(mode, link, fs) && |MuxBytes(fs[0])| <= 155
    ensures var got := AllReceived(mode, true, link, [Concat(EachMux(fs))]);
            got == Carried(fs[0]) && (got == ControlPackets(fs) <==> ControlPackets(fs[1..]) == [])
  {
    var rest := Concat(EachMux(fs[1..]));
    assert EachMux(fs)[1..] == EachMux(fs[1..]) && Concat(EachMux(fs)) == MuxBytes(fs[0]) + rest;
    FirstFrameDispatched(mode, link, fs, rest);
    assert [Concat(EachMux(fs))][1..] == [];
    assert Carried(fs[0]) + [] == Carried(fs[0]);
    assert |ControlPackets(fs)| == |Carried(fs[0])| + |ControlPackets(fs[1..])|;
  }

  // ── Receives without multiplexing ──────────────────────────────────────

  ghost predicate SentAll(mode: Mode, link: Link, bs: seq<Batch>)
    decreases |bs|
  {
    bs == [] || (SentIn(mode, link, bs[0]) && SentAll(mode, Later(link, bs[0]), bs[1..]))
  }

  function Payloads(bs: seq<Batch>): (raws: seq<Bytes>)
    ensures |raws| == |bs|
  {
    if bs == [] then [] else [bs[0].payload] + Payloads(bs[1..])
  }

  function AllPackets(bs: seq<Batch>): seq<Packet>
  {
    if bs == [] then [] else bs[0].packets + AllPackets(bs[1..])
  }

  /** Over any number of receives, on every kind of link, every packet sent is dispatched, once and in order. */
  lemma {:induction false} ReceivesDispatchAll(mode: Mode, link: Link, bs: seq<Batch>)
    requires SentAll(mode, link, bs) && forall i :: 0 <= i < |bs| ==> |bs[i].payload| <= 155
    ensures AllReceived(mode, false, link, Payloads(bs)) == AllPackets(bs)
    decreases |bs|
  {
    if bs != [] {
      SentIsDispatched(mode, link, bs[0]);
      assert Payloads(bs)[1..] == Payloads(bs[1..]);
      ReceivesDispatchAll(mode, Later(link, bs[0]), bs[1..]);
    }
  }
}
