/** The TFTP sender: stop-and-wait blocks of 512 bytes, five attempts each, 16-bit block numbers. */
module TftpSender {
  import opened Bitwise
  import opened Bytes

  const BLOCK := 512
  const RETRIES := 5
  const NUMBERS := 65536
  const OP_DATA := 3
  const OP_ACK := 4

  /** The blocks of a file; the last one is short, and empty when the length is a multiple of 512. */
  function Blocks(file: Bytes): nat
  {
    |file| / BLOCK + 1
  }

  function Min(a: nat, b: nat): nat
  {
    if a < b then a else b
  }

  function Chunk(file: Bytes, i: nat): Bytes
    requires i < Blocks(file)
  {
    file[BLOCK * i..Min(BLOCK * (i + 1), |file|)]
  }

  /** What the first `c` blocks hold. */
  function Upto(file: Bytes, c: nat): Bytes
  {
    file[..Min(BLOCK * c, |file|)]
  }

  /** The 16-bit number of block `i`. */
  function Number(i: nat): nat
  {
    (i + 1) % NUMBERS
  }

  datatype Data = Data(number: nat, chunk: Bytes)

  /** A timeout, a datagram under four bytes, or one that opens with two 16-bit words. */
  datatype Reply = Timeout | Short | Words(op: nat, block: nat)

  function Packet(file: Bytes, i: nat): Data
    requires i < Blocks(file)
  {
    Data(Number(i), Chunk(file, i))
  }

  datatype Sender = Sending(block: nat, attempt: nat) | Done | GaveUp(block: nat)

  /** What one reply, or a timeout, makes of the sender. */
  function OnReply(blocks: nat, s: Sender, reply: Reply): Sender
  {
    if !s.Sending? then s
    else if reply == Words(OP_ACK, Number(s.block)) then
      if s.block + 1 < blocks then Sending(s.block + 1, 0) else Done
    else if s.attempt + 1 < RETRIES then s.(attempt := s.attempt + 1)
    else GaveUp(s.block)
  }

  /** The sender of `blocks` blocks after `k` attempts, given the reply to each. */
  function After(blocks: nat, replies: nat -> Reply, k: nat): Sender
  {
    if k == 0 then Sending(0, 0) else OnReply(blocks, After(blocks, replies, k - 1), replies(k - 1))
  }

  /** The packets of the first `k` attempts. */
  function Sent(blocks: nat, packets: nat -> Data, replies: nat -> Reply, k: nat): seq<Data>
  {
    if k == 0 then []
    else
      var s := After(blocks, replies, k - 1);
      Sent(blocks, packets, replies, k - 1) + if s.Sending? then [packets(s.block)] else []
  }

  /** The packet of every block; numbers past the end are not sent. */
  function Packets(file: Bytes): nat -> Data
  {
    (i: nat) => if i < Blocks(file) then Packet(file, i) else Data(0, [])
  }

  /** What has been sent so far is what was to be sent, and it has brought the sender to `s`. */
  ghost predicate Reached(blocks: nat, packets: nat -> Data, replies: nat -> Reply, sent: seq<Data>, s: Sender)
  {
    After(blocks, replies, |sent|) == s && sent == Sent(blocks, packets, replies, |sent|)
  }

  /** The sender once `block` is acknowledged. */
  function Next(blocks: nat, block: nat): Sender
  {
    if block + 1 < blocks then Sending(block + 1, 0) else Done
  }

  /** The block loop of `handle_transfer`; `replies(n)` answers the `n`th send. */
  method HandleTransfer(file: Bytes, replies: nat -> Reply) returns (sent: seq<Data>, done: bool)
    ensures sent == Sent(Blocks(file), Packets(file), replies, |sent|)
    ensures done ==> After(Blocks(file), replies, |sent|) == Done
    ensures !done ==> After(Blocks(file), replies, |sent|).GaveUp?
    ensures |sent| <= 5 * Blocks(file)
  {
    sent := [];
    var blockNum, offset := 1, 0;
    ghost var block := 0;
    ghost var packets := Packets(file);
    while true
      invariant block < Blocks(file) && offset == BLOCK * block && blockNum == Number(block)
      invariant Reached(Blocks(file), packets, replies, sent, Sending(block, 0))
      invariant |sent| <= RETRIES * block
      decreases Blocks(file) - block
    {
      BlockSpan(file, block);
      var chunk := file[offset..Min(offset + BLOCK, |file|)];
      assert packets(block) == Data(blockNum, chunk);
      var acked;
      sent, acked := SendBlock(Blocks(file), packets, replies, sent, block, Data(blockNum, chunk));
      if !acked { return sent, false; }
      offset := offset + |chunk|;
      if |chunk| < BLOCK { return sent, true; }
      NumberNext(block);
      blockNum := (blockNum + 1) % NUMBERS;
      block := block + 1;
    }
  }

  /** One attempt while sending `block`: the packet goes out and the reply decides. */
  lemma {:induction false} OneAttempt(blocks: nat, packets: nat -> Data, replies: nat -> Reply, sent: seq<Data>,
                                      block: nat, attempt: nat)
    requires Reached(blocks, packets, replies, sent, Sending(block, attempt))
    ensures Reached(blocks, packets, replies, sent + [packets(block)],
                    if replies(|sent|) == Words(OP_ACK, Number(block)) then Next(blocks, block)
                    else if attempt + 1 < RETRIES then Sending(block, attempt + 1)
                    else GaveUp(block))
  {}

  /** Send one block until it is acknowledged, at most five times. */
  method SendBlock(ghost blocks: nat, ghost packets: nat -> Data, replies: nat -> Reply, sent0: seq<Data>,
                   ghost block: nat, pkt: Data)
    returns (sent: seq<Data>, acked: bool)
    requires block < blocks && pkt == packets(block) && pkt.number == Number(block)
    requires Reached(blocks, packets, replies, sent0, Sending(block, 0))
    ensures |sent0| < |sent| <= |sent0| + 5 && (!acked ==> |sent| == |sent0| + 5)
    ensures Reached(blocks, packets, replies, sent, if acked then Next(blocks, block) else GaveUp(block))
  {
    sent := sent0;
    var attempt := 0;
    while attempt < RETRIES
      invariant attempt <= RETRIES && |sent| == |sent0| + attempt
      invariant Reached(blocks, packets, replies, sent,
                        if attempt < RETRIES then Sending(block, attempt) else GaveUp(block))
    {
      OneAttempt(blocks, packets, replies, sent, block, attempt);
      sent := sent + [pkt];
      var reply := replies(|sent| - 1);
      if reply == Words(OP_ACK, pkt.number) { return sent, true; }
      attempt := attempt + 1;
    }
    return sent, false;
  }

  /** Without an acknowledgement of the block it is sent five times, no more and no fewer, and then given up. */
  lemma {:induction false} GivesUpAfterFive(blocks: nat, replies: nat -> Reply, k: nat, block: nat, n: nat)
    requires After(blocks, replies, k) == Sending(block, 0) && n <= 5
    requires forall i: nat :: k <= i < k + n ==> replies(i) != Words(4, (block + 1) % 65536)
    ensures After(blocks, replies, k + n) == if n < 5 then Sending(block, n) else GaveUp(block)
  {
    if n > 0 { GivesUpAfterFive(blocks, replies, k, block, n - 1); }
  }

  /** Any other reply, and no reply, is as good as none; the right one moves on. */
  lemma {:induction false} AckMovesOn(blocks: nat, replies: nat -> Reply, k: nat, block: nat, attempt: nat)
    requires After(blocks, replies, k) == Sending(block, attempt) && replies(k) == Words(4, (block + 1) % 65536)
    ensures After(blocks, replies, k + 1) == if block + 1 < blocks then Sending(block + 1, 0) else Done
  {}

  // ── Arithmetic of blocks ───────────────────────────────────────────────

  /** Block `i` is full exactly when another follows it. */
  lemma {:induction false} BlockSpan(file: Bytes, i: nat)
    ensures i < Blocks(file) ==> BLOCK * i <= |file|
    ensures i < Blocks(file) ==> (BLOCK * (i + 1) <= |file| <==> i + 1 < Blocks(file))
  {}

  lemma {:induction false} NumberNext(i: nat)
    ensures (Number(i) + 1) % NUMBERS == Number(i + 1)
  {}

  lemma {:induction false} NumbersDistinct(i: nat, j: nat)
    requires i < NUMBERS && j < NUMBERS && Number(i) == Number(j)
    ensures i == j
  {}

  // ── Wire format ────────────────────────────────────────────────────────

  function EncodeData(d: Data): Bytes
  {
    ToBe(OP_DATA, 2) + ToBe(d.number, 2) + d.chunk
  }

  function EncodeAck(number: nat): Bytes
  {
    ToBe(OP_ACK, 2) + ToBe(number, 2)
  }

  function DecodeReply(b: Bytes): Reply
  {
    if |b| < 4 then Short else Words(BeValue(b[..2]), BeValue(b[2..4]))
  }

  /** Whatever follows its first four bytes, an acknowledgement reads back as its block number. */
  lemma {:induction false} AckRoundTrip(n: nat, rest: Bytes)
    requires n < NUMBERS
    ensures DecodeReply(EncodeAck(n) + rest) == Words(4, n)
  {
    var p := EncodeAck(n) + rest;
    assert p[..2] == ToBe(OP_ACK, 2) && p[2..4] == ToBe(n, 2);
    assert Pow256(2) == 65536;
    BeRoundTrip(OP_ACK, 2);
    BeRoundTrip(n, 2);
  }

  /** A data packet carries its number and its chunk, and is no acknowledgement. */
  lemma {:induction false} DataRoundTrip(d: Data)
    requires d.number < NUMBERS
    ensures DecodeReply(EncodeData(d)) == Words(3, d.number) && EncodeData(d)[4..] == d.chunk
  {
    var p := EncodeData(d);
    assert p[..2] == ToBe(OP_DATA, 2) && p[2..4] == ToBe(d.number, 2);
    assert Pow256(2) == 65536;
    BeRoundTrip(OP_DATA, 2);
    BeRoundTrip(d.number, 2);
  }
}

/**
  Transfers: the sender against a receiver that follows sections 2 and 6 of RFC 1350, over a network
  that may lose, duplicate, delay and reorder. Whatever was ever sent may arrive at any time.
  */
module TftpTransfer {
  import opened Bytes
  import opened TftpSender

  /** `waiting`: the sender has sent and awaits a reply. `accepted` counts the blocks the receiver took. */
  datatype State = State(sender: Sender, waiting: bool, sends: nat, data: set<Data>,
                         accepted: nat, received: Bytes, finished: bool, acks: set<nat>)

  datatype Step = Send | Hear(reply: Reply) | Deliver(packet: Data)

  const INITIAL := State(Sending(0, 0), false, 0, {}, 0, [], false, {})

  /** A reply that is an acknowledgement was sent by the receiver. */
  predicate Genuine(acks: set<nat>, reply: Reply)
  {
    reply.Words? && reply.op == OP_ACK ==> reply.block in acks
  }

  /** One step; a step that is not enabled changes nothing. A duplicate is acknowledged again. */
  function Apply(file: Bytes, s: State, step: Step): State
  {
    match step
    case Send =>
      if s.waiting || !s.sender.Sending? || s.sender.block >= Blocks(file) then s
      else s.(waiting := true, sends := s.sends + 1, data := s.data + {Packet(file, s.sender.block)})
    case Hear(r) =>
      if !s.waiting || !Genuine(s.acks, r) then s
      else s.(waiting := false, sender := OnReply(Blocks(file), s.sender, r))
    case Deliver(d) =>
      if d !in s.data || s.finished || d.number != Number(s.accepted) then s
      else s.(accepted := s.accepted + 1, received := s.received + d.chunk, acks := s.acks + {d.number},
              finished := |d.chunk| < BLOCK)
  }

  function Run(file: Bytes, steps: seq<Step>): State
  {
    if steps == [] then INITIAL
    else Apply(file, Run(file, steps[..|steps| - 1]), steps[|steps| - 1])
  }

  // ── Files of at most 65536 blocks ──────────────────────────────────────

  /** The block the sender is at, or was at last. */
  function At(file: Bytes, s: Sender): nat
  {
    match s
    case Sending(i, _) => i
    case GaveUp(i) => i
    case Done => Blocks(file) - 1
  }

  ghost predicate SenderOk(file: Bytes, s: Sender, accepted: nat)
  {
    && At(file, s) < Blocks(file) && At(file, s) <= accepted <= At(file, s) + 1
    && (s.Sending? ==> s.attempt < RETRIES)
    && (s.Done? ==> accepted == Blocks(file))
  }

  ghost predicate DataOk(file: Bytes, data: set<Data>, at: nat)
    requires at < Blocks(file)
  {
    forall d :: d in data ==> exists j :: 0 <= j <= at && d == Packet(file, j)
  }

  ghost predicate AcksOk(acks: set<nat>, accepted: nat)
  {
    forall n :: n in acks ==> exists j: nat :: j < accepted && n == Number(j)
  }

  /** Attempts the sender may have made by now. */
  function Budget(file: Bytes, s: State): nat
  {
    match s.sender
    case Sending(i, a) => RETRIES * i + a + if s.waiting then 1 else 0
    case GaveUp(i) => RETRIES * (i + 1)
    case Done => RETRIES * Blocks(file)
  }

  ghost predicate Inv(file: Bytes, s: State)
  {
    && SenderOk(file, s.sender, s.accepted)
    && DataOk(file, s.data, At(file, s.sender)) && AcksOk(s.acks, s.accepted)
    && s.received == Upto(file, s.accepted) && (s.finished <==> s.accepted == Blocks(file))
    && s.sends <= Budget(file, s) && (s.waiting ==> s.sender.Sending?)
  }

  lemma {:induction false} SendKeeps(file: Bytes, s: State)
    requires Inv(file, s)
    ensures Inv(file, Apply(file, s, Send))
  {}

  /** An acknowledgement of the current number can only be of the current block. */
  lemma {:induction false} AckMeansAccepted(file: Bytes, acks: set<nat>, accepted: nat, i: nat)
    requires Blocks(file) <= NUMBERS && i < Blocks(file) && accepted <= i + 1
    requires AcksOk(acks, accepted) && Number(i) in acks
    ensures accepted == i + 1
  {
    var j: nat :| j < accepted && Number(i) == Number(j);
    NumbersDistinct(i, j);
  }

  lemma {:induction false} MoreData(file: Bytes, data: set<Data>, i: nat, at: nat)
    requires i <= at < Blocks(file) && DataOk(file, data, i)
    ensures DataOk(file, data, at)
  {}

  lemma {:induction false} HearKeeps(file: Bytes, s: State, r: Reply)
    requires Blocks(file) <= NUMBERS && Inv(file, s)
    ensures Inv(file, Apply(file, s, Hear(r)))
  {
    if s.waiting && Genuine(s.acks, r) {
      var i := s.sender.block;
      if r == Words(OP_ACK, Number(i)) {
        AckMeansAccepted(file, s.acks, s.accepted, i);
        MoreData(file, s.data, i, if i + 1 < Blocks(file) then i + 1 else i);
      }
    }
  }

  /** A packet with the expected number is the expected block. */
  lemma {:induction false} NumberMeansBlock(file: Bytes, data: set<Data>, at: nat, d: Data, accepted: nat)
    requires Blocks(file) <= NUMBERS && at < Blocks(file) && accepted <= at + 1 && accepted < Blocks(file)
    requires DataOk(file, data, at) && d in data && d.number == Number(accepted)
    ensures d == Packet(file, accepted) && accepted <= at
  {
    var j :| 0 <= j <= at && d == Packet(file, j);
    NumbersDistinct(j, accepted);
  }

  lemma {:induction false} UptoNext(file: Bytes, c: nat)
    requires c < Blocks(file)
    ensures Upto(file, c) + Chunk(file, c) == Upto(file, c + 1)
    ensures |Chunk(file, c)| < BLOCK <==> c + 1 == Blocks(file)
  {
    BlockSpan(file, c);
  }

  lemma {:induction false} MoreAcks(acks: set<nat>, accepted: nat)
    requires AcksOk(acks, accepted)
    ensures AcksOk(acks + {Number(accepted)}, accepted + 1)
  {
    forall n | n in acks + {Number(accepted)} ensures exists j: nat :: j < accepted + 1 && n == Number(j) {
      if n in acks {
        var j: nat :| j < accepted && n == Number(j);
      } else {
        assert n == Number(accepted);
      }
    }
  }

  lemma {:induction false} DeliverKeeps(file: Bytes, s: State, d: Data)
    requires Blocks(file) <= NUMBERS && Inv(file, s)
    ensures Inv(file, Apply(file, s, Deliver(d)))
  {
    if d in s.data && !s.finished && d.number == Number(s.accepted) {
      NumberMeansBlock(file, s.data, At(file, s.sender), d, s.accepted);
      UptoNext(file, s.accepted);
      MoreAcks(s.acks, s.accepted);
    }
  }

  lemma {:induction false} RunKeeps(file: Bytes, steps: seq<Step>)
    requires Blocks(file) <= NUMBERS
    ensures Inv(file, Run(file, steps))
  {
    if steps != [] {
      var s, step := Run(file, steps[..|steps| - 1]), steps[|steps| - 1];
      RunKeeps(file, steps[..|steps| - 1]);
      match step
      case Send => SendKeeps(file, s);
      case Hear(r) => HearKeeps(file, s, r);
      case Deliver(d) => DeliverKeeps(file, s, d);
    }
  }

  ghost predicate Complete(file: Bytes, s: State)
  {
    s.finished && s.received == file && s.accepted == |file| / 512 + 1
  }

  /**
    For every file of at most 65536 blocks, on every schedule: the receiver holds a prefix of the
    file, a sender that is done has delivered all of it, and no block was sent more than five times.
    */
  lemma {:induction false} TransferIsCorrect(file: Bytes, steps: seq<Step>)
    requires |file| / 512 + 1 <= 65536
    ensures var s := Run(file, steps);
            && s.received <= file
            && (s.sender.Done? ==> Complete(file, s))
            && s.sends <= 5 * (At(file, s.sender) + 1)
  {
    RunKeeps(file, steps);
    var s := Run(file, steps);
    if s.sender.Done? { BlockSpan(file, Blocks(file) - 1); assert Upto(file, Blocks(file)) == file; }
  }

  // ── Longer files ───────────────────────────────────────────────────────

  function Orderly(file: Bytes, k: nat): seq<Step>
    requires k <= Blocks(file)
  {
    if k == 0 then []
    else Orderly(file, k - 1) + [Send, Deliver(Packet(file, k - 1)), Hear(Words(OP_ACK, Number(k - 1)))]
  }

  /** Blocks that never arrive, each answered by an old acknowledgement of the same number. */
  function Stale(k: nat): seq<Step>
  {
    if k == 0 then [] else Stale(k - 1) + [Send, Hear(Words(OP_ACK, Number(NUMBERS + k - 1)))]
  }

  ghost predicate AllAcked(acks: set<nat>, k: nat)
  {
    forall j: nat :: j < k ==> Number(j) in acks
  }

  lemma {:induction false} RunMore(file: Bytes, a: seq<Step>, x: Step)
    ensures Run(file, a + [x]) == Apply(file, Run(file, a), x)
  {
    assert (a + [x])[..|a|] == a;
  }

  /** A block sent, delivered and acknowledged. */
  lemma {:induction false} OrderlyStep(file: Bytes, a: seq<Step>, i: nat)
    requires i + 1 < Blocks(file)
    requires var s := Run(file, a);
             s.sender == Sending(i, 0) && !s.waiting && !s.finished && s.accepted == i && AllAcked(s.acks, i)
    ensures var t := Run(file, a + [Send] + [Deliver(Packet(file, i))] + [Hear(Words(OP_ACK, Number(i)))]);
            && t.sender == Sending(i + 1, 0) && !t.waiting && !t.finished
            && t.accepted == i + 1 && AllAcked(t.acks, i + 1)
  {
    var b := a + [Send];
    var c := b + [Deliver(Packet(file, i))];
    RunMore(file, a, Send);
    RunMore(file, b, Deliver(Packet(file, i)));
    RunMore(file, c, Hear(Words(OP_ACK, Number(i))));
    UptoNext(file, i);
  }

  lemma {:induction false} OrderlyRun(file: Bytes, k: nat)
    requires k <= NUMBERS < Blocks(file)
    ensures var s := Run(file, Orderly(file, k));
            && s.sender == Sending(k, 0) && !s.waiting && !s.finished
            && s.accepted == k && AllAcked(s.acks, k)
  {
    if k > 0 {
      OrderlyRun(file, k - 1);
      var a, i := Orderly(file, k - 1), k - 1;
      OrderlyStep(file, a, i);
      assert Orderly(file, k) == a + [Send] + [Deliver(Packet(file, i))] + [Hear(Words(OP_ACK, Number(i)))];
    }
  }

  /** All numbers have been acknowledged and the receiver has stopped short; the sender is at block `i`. */
  ghost predicate StaleAt(file: Bytes, s: State, i: nat)
  {
    && s.sender == (if i < Blocks(file) then Sending(i, 0) else Done)
    && !s.waiting && s.accepted == NUMBERS && !s.finished && AllAcked(s.acks, NUMBERS)
  }

  /** A block sent and answered by an old acknowledgement: the sender moves on, the receiver does not. */
  lemma {:induction false} StaleStep(file: Bytes, a: seq<Step>, i: nat)
    requires StaleAt(file, Run(file, a), i) && i < Blocks(file)
    ensures StaleAt(file, Run(file, a + [Send] + [Hear(Words(OP_ACK, Number(i)))]), i + 1)
  {
    RunMore(file, a, Send);
    RunMore(file, a + [Send], Hear(Words(OP_ACK, Number(i))));
    SeenBefore(i);
  }

  lemma {:induction false} StaleRun(file: Bytes, k: nat)
    requires NUMBERS < Blocks(file) && NUMBERS + k <= Blocks(file)
    ensures StaleAt(file, Run(file, Orderly(file, NUMBERS) + Stale(k)), NUMBERS + k)
  {
    var o := Orderly(file, NUMBERS);
    if k == 0 {
      OrderlyRun(file, NUMBERS);
      assert o + Stale(0) == o;
    } else {
      StaleRun(file, k - 1);
      StaleStep(file, o + Stale(k - 1), NUMBERS + k - 1);
      StaleLast(o, k);
    }
  }

  lemma {:induction false} StaleLast(o: seq<Step>, k: nat)
    requires k > 0
    ensures o + Stale(k) == o + Stale(k - 1) + [Send] + [Hear(Words(OP_ACK, Number(NUMBERS + k - 1)))]
  {}

  /** Every number has been used by one of the first 65536 blocks. */
  lemma {:induction false} SeenBefore(i: nat)
    ensures i % NUMBERS < NUMBERS && Number(i % NUMBERS) == Number(i)
  {}

  /** For every longer file there is a schedule on which the sender is done and the receiver is not. */
  lemma {:induction false} LongFileFails(file: Bytes)
    requires Blocks(file) > NUMBERS
    ensures var s := Run(file, Orderly(file, NUMBERS) + Stale(Blocks(file) - NUMBERS));
            s.sender.Done? && !Complete(file, s)
  {
    StaleRun(file, Blocks(file) - NUMBERS);
  }

  /** Done means delivered on every schedule, exactly for the files of at most 65536 blocks. */
  lemma {:induction false} DoneMeansDeliveredIff(file: Bytes)
    ensures |file| / 512 + 1 <= 65536 <==>
            forall steps :: Run(file, steps).sender.Done? ==> Complete(file, Run(file, steps))
  {
    if Blocks(file) <= NUMBERS {
      forall steps ensures Run(file, steps).sender.Done? ==> Complete(file, Run(file, steps)) {
        TransferIsCorrect(file, steps);
      }
    } else {
      LongFileFails(file);
    }
  }
}
