/**
  Left-to-right scanning of a buffer, where `sizes[i]` is the length of the item starting at
  offset `i`, or zero if none starts there.
  */
module Scanning {

  datatype Span = Span(at: nat, len: nat)

  function End(s: Span): nat
  {
    s.at + s.len
  }

  ghost predicate Fits(sizes: seq<nat>)
  {
    forall i :: 0 <= i < |sizes| ==> i + sizes[i] <= |sizes|
  }

  /** Reference scanner: try every offset in turn and jump over what is found. */
  function ScanFrom(sizes: seq<nat>, i: nat): seq<Span>
    decreases |sizes| - i
  {
    if i >= |sizes| then []
    else if sizes[i] > 0 then [Span(i, sizes[i])] + ScanFrom(sizes, i + sizes[i])
    else ScanFrom(sizes, i + 1)
  }

  ghost predicate IsItem(sizes: seq<nat>, s: Span)
  {
    s.at < |sizes| && 0 < s.len == sizes[s.at] && End(s) <= |sizes|
  }

  /** Items in the buffer, from offset `from` on, disjoint and in order. */
  ghost predicate Ordered(sizes: seq<nat>, from: nat, spans: seq<Span>)
    decreases |spans|
  {
    spans == [] || (from <= spans[0].at && IsItem(sizes, spans[0]) && Ordered(sizes, End(spans[0]), spans[1..]))
  }

  ghost predicate Covered(spans: seq<Span>, i: nat)
  {
    exists k :: 0 <= k < |spans| && spans[k].at <= i < End(spans[k])
  }

  /** No item starts at an offset that `spans` leave uncovered. */
  ghost predicate Complete(sizes: seq<nat>, from: nat, spans: seq<Span>)
  {
    forall i {:trigger Covered(spans, i)} :: from <= i < |sizes| && !Covered(spans, i) ==> sizes[i] == 0
  }

  ghost predicate Greedy(sizes: seq<nat>, from: nat, spans: seq<Span>)
  {
    Ordered(sizes, from, spans) && Complete(sizes, from, spans)
  }

  lemma {:induction false} CoveredCons(spans: seq<Span>, i: nat)
    requires spans != []
    ensures Covered(spans, i) <==> spans[0].at <= i < End(spans[0]) || Covered(spans[1..], i)
  {
    if spans[0].at <= i < End(spans[0]) {
    } else if Covered(spans[1..], i) {
      var k :| 0 <= k < |spans[1..]| && spans[1..][k].at <= i < End(spans[1..][k]);
      assert spans[k + 1].at <= i < End(spans[k + 1]);
    }
  }

  /** In an ordered list nothing before `from` is covered. */
  lemma {:induction false} OrderedStartsAt(sizes: seq<nat>, from: nat, spans: seq<Span>, i: nat)
    requires Ordered(sizes, from, spans) && i < from
    ensures !Covered(spans, i)
    decreases |spans|
  {
    if spans != [] {
      CoveredCons(spans, i);
      OrderedStartsAt(sizes, End(spans[0]), spans[1..], i);
    }
  }

  /** The scanner misses no item it could accept, and what it accepts is disjoint and in order. */
  lemma {:induction false} ScanIsGreedy(sizes: seq<nat>, i: nat)
    requires Fits(sizes)
    ensures Greedy(sizes, i, ScanFrom(sizes, i))
    decreases |sizes| - i
  {
    if i < |sizes| && sizes[i] > 0 {
      ScanIsGreedy(sizes, i + sizes[i]);
      var spans := ScanFrom(sizes, i);
      assert spans[1..] == ScanFrom(sizes, i + sizes[i]);
      forall x | i <= x < |sizes| && !Covered(spans, x) ensures sizes[x] == 0 {
        CoveredCons(spans, x);
      }
    } else if i < |sizes| {
      ScanIsGreedy(sizes, i + 1);
      OrderedFrom(sizes, i, i + 1, ScanFrom(sizes, i + 1));
    }
  }

  lemma {:induction false} OrderedFrom(sizes: seq<nat>, i: nat, j: nat, spans: seq<Span>)
    requires Ordered(sizes, j, spans) && i <= j
    ensures Ordered(sizes, i, spans)
  {}

  function TotalLength(spans: seq<Span>): nat
  {
    if spans == [] then 0 else spans[0].len + TotalLength(spans[1..])
  }

  lemma {:induction false} OrderedFitsIn(sizes: seq<nat>, from: nat, spans: seq<Span>)
    requires Ordered(sizes, from, spans) && from <= |sizes|
    ensures from + TotalLength(spans) <= |sizes|
    decreases |spans|
  {
    if spans != [] { OrderedFitsIn(sizes, End(spans[0]), spans[1..]); }
  }

  lemma {:induction false} FirstIsHere(sizes: seq<nat>, i: nat, spans: seq<Span>)
    requires Greedy(sizes, i, spans) && i < |sizes| && sizes[i] > 0
    ensures spans != [] && spans[0] == Span(i, sizes[i])
  {
    assert Covered(spans, i);
    CoveredCons(spans, i);
    if spans[0].at > i { OrderedStartsAt(sizes, End(spans[0]), spans[1..], i); }
  }

  lemma {:induction false} RestIsGreedy(sizes: seq<nat>, i: nat, spans: seq<Span>)
    requires Greedy(sizes, i, spans) && spans != []
    ensures Greedy(sizes, End(spans[0]), spans[1..])
  {
    forall x | End(spans[0]) <= x < |sizes| && !Covered(spans[1..], x) ensures sizes[x] == 0 {
      CoveredCons(spans, x);
    }
  }

  lemma {:induction false} NoneHere(sizes: seq<nat>, i: nat, spans: seq<Span>)
    requires Greedy(sizes, i, spans) && i < |sizes| && sizes[i] == 0
    ensures Greedy(sizes, i + 1, spans)
  {
    assert spans == [] || spans[0].at != i;
  }

  /** Being greedy determines the spans: any such list is the one the scanner finds. */
  lemma {:induction false} GreedyIsScan(sizes: seq<nat>, i: nat, spans: seq<Span>)
    requires Fits(sizes) && Greedy(sizes, i, spans)
    ensures spans == ScanFrom(sizes, i)
    decreases |sizes| - i
  {
    if i < |sizes| && sizes[i] == 0 {
      NoneHere(sizes, i, spans);
      GreedyIsScan(sizes, i + 1, spans);
    } else if i < |sizes| {
      FirstIsHere(sizes, i, spans);
      RestIsGreedy(sizes, i, spans);
      GreedyIsScan(sizes, i + sizes[i], spans[1..]);
      assert spans == [Span(i, sizes[i])] + spans[1..];
    }
  }

  /** Scanning from `i` accepts `found` and then goes on from `j`. */
  ghost predicate Finds(sizes: seq<nat>, i: nat, found: seq<Span>, j: nat)
  {
    ScanFrom(sizes, i) == found + ScanFrom(sizes, j)
  }

  lemma {:induction false} OneStep(sizes: seq<nat>, i: nat)
    requires i < |sizes|
    ensures if sizes[i] > 0 then Finds(sizes, i, [Span(i, sizes[i])], i + sizes[i]) else Finds(sizes, i, [], i + 1)
  {}

  lemma {:induction false} ThenFinds(sizes: seq<nat>, i: nat, xs: seq<Span>, j: nat, ys: seq<Span>, k: nat)
    requires Finds(sizes, i, xs, j) && Finds(sizes, j, ys, k)
    ensures Finds(sizes, i, xs + ys, k)
  {
    assert xs + (ys + ScanFrom(sizes, k)) == (xs + ys) + ScanFrom(sizes, k);
  }

  /** Offsets where nothing starts can be skipped. */
  lemma {:induction false} SkipEmpty(sizes: seq<nat>, i: nat, j: nat)
    requires i <= j <= |sizes|
    requires forall k :: i <= k < j ==> sizes[k] == 0
    ensures ScanFrom(sizes, i) == ScanFrom(sizes, j)
    decreases j - i
  {
    if i < j { SkipEmpty(sizes, i + 1, j); }
  }

  ghost predicate NoneBefore(sizes: seq<nat>, n: nat)
    requires n <= |sizes|
  {
    forall i :: 0 <= i < n ==> sizes[i] == 0
  }

  /** Starting `n` offsets later changes nothing exactly when nothing starts before. */
  lemma {:induction false} SkipsIff(sizes: seq<nat>, n: nat)
    requires Fits(sizes) && n <= |sizes|
    ensures ScanFrom(sizes, 0) == ScanFrom(sizes, n) <==> NoneBefore(sizes, n)
  {
    if NoneBefore(sizes, n) { SkipEmpty(sizes, 0, n); }
    if ScanFrom(sizes, 0) == ScanFrom(sizes, n) {
      ScanIsGreedy(sizes, 0);
      ScanIsGreedy(sizes, n);
      forall i | 0 <= i < n ensures sizes[i] == 0 { OrderedStartsAt(sizes, n, ScanFrom(sizes, n), i); }
    }
  }

  // ── Any mixture of items and garbage ───────────────────────────────────

  /** A stretch of the buffer: an item, or garbage. */
  datatype Piece = Piece(len: nat, good: bool)

  /** Where the items lie when the pieces start at `at`. */
  function Spans(at: nat, pieces: seq<Piece>): seq<Span>
    decreases |pieces|
  {
    if pieces == [] then []
    else (if pieces[0].good then [Span(at, pieces[0].len)] else []) + Spans(at + pieces[0].len, pieces[1..])
  }

  /** The pieces make up the buffer from `at` on. */
  ghost predicate Fitted(sizes: seq<nat>, at: nat, pieces: seq<Piece>)
    decreases |pieces|
  {
    if pieces == [] then at == |sizes|
    else
      && at + pieces[0].len <= |sizes|
      && (pieces[0].good ==> at < |sizes| && 0 < sizes[at] == pieces[0].len)
      && Fitted(sizes, at + pieces[0].len, pieces[1..])
  }

  ghost predicate SilentIn(sizes: seq<nat>, i: nat, j: nat)
  {
    forall k :: i <= k < j && k < |sizes| ==> sizes[k] == 0
  }

  /** No item starts at an offset of the garbage. */
  ghost predicate Silent(sizes: seq<nat>, at: nat, pieces: seq<Piece>)
    decreases |pieces|
  {
    pieces == [] ||
    var next := at + pieces[0].len;
    (pieces[0].good || SilentIn(sizes, at, next)) && Silent(sizes, next, pieces[1..])
  }

  lemma {:induction false} SpansStart(at: nat, pieces: seq<Piece>, k: nat)
    requires k < |Spans(at, pieces)|
    ensures Spans(at, pieces)[k].at >= at
    decreases |pieces|
  {
    var n := pieces[0].len;
    if !pieces[0].good {
      SpansStart(at + n, pieces[1..], k);
    } else if k > 0 {
      SpansStart(at + n, pieces[1..], k - 1);
    }
  }

  /** If the scan from `i` accepts nothing before `j`, nothing starts there. */
  lemma {:induction false} SilentBefore(sizes: seq<nat>, i: nat, j: nat)
    requires Fits(sizes) && i <= j
    requires forall k :: 0 <= k < |ScanFrom(sizes, i)| ==> ScanFrom(sizes, i)[k].at >= j
    ensures SilentIn(sizes, i, j)
  {
    ScanIsGreedy(sizes, i);
    forall k | i <= k < j && k < |sizes| ensures sizes[k] == 0 { assert !Covered(ScanFrom(sizes, i), k); }
  }

  lemma {:induction false} GarbageExact(sizes: seq<nat>, i: nat, j: nat, pieces: seq<Piece>)
    requires Fits(sizes) && i <= j <= |sizes|
    ensures ScanFrom(sizes, i) == Spans(j, pieces)
       <==> SilentIn(sizes, i, j) && ScanFrom(sizes, j) == Spans(j, pieces)
  {
    if ScanFrom(sizes, i) == Spans(j, pieces) {
      forall k | 0 <= k < |Spans(j, pieces)| ensures Spans(j, pieces)[k].at >= j { SpansStart(j, pieces, k); }
      SilentBefore(sizes, i, j);
    }
    if SilentIn(sizes, i, j) { SkipEmpty(sizes, i, j); }
  }

  lemma {:induction false} ItemExact(sizes: seq<nat>, at: nat, s: Span, tail: seq<Span>)
    requires at < |sizes| && sizes[at] > 0 && s == Span(at, sizes[at])
    ensures ScanFrom(sizes, at) == [s] + tail <==> ScanFrom(sizes, End(s)) == tail
  {
    assert ([s] + tail)[1..] == tail && ([s] + ScanFrom(sizes, End(s)))[1..] == ScanFrom(sizes, End(s));
  }

  /** The scanner finds exactly the items, each where it lies, if and only if none starts in the garbage. */
  lemma {:induction false} ExactIff(sizes: seq<nat>, at: nat, pieces: seq<Piece>)
    requires Fits(sizes) && Fitted(sizes, at, pieces)
    ensures ScanFrom(sizes, at) == Spans(at, pieces) <==> Silent(sizes, at, pieces)
    decreases |pieces|
  {
    if pieces != [] {
      var next := at + pieces[0].len;
      ExactIff(sizes, next, pieces[1..]);
      if pieces[0].good {
        ItemExact(sizes, at, Span(at, pieces[0].len), Spans(next, pieces[1..]));
      } else {
        assert Spans(at, pieces) == Spans(next, pieces[1..]);
        GarbageExact(sizes, at, next, pieces[1..]);
      }
    }
  }
}

/**
  The resynchronising frame scanner of `behavior_task`: it walks a receive buffer that may hold
  several coalesced, torn or corrupt frames and dispatches every complete one.
  */
module FrameScanning {
  import opened Bitwise
  import opened Bytes
  import opened PacketFraming
  import opened Scanning

  /** Length of the frame that parses at offset `i`, or zero. */
  function SizeAt(c: Codec, buf: Bytes, i: nat): nat
  {
    if i >= |buf| then 0
    else
      match ParseWith(c, buf[i..])
      case Some(r) => r.total
      case None => 0
  }

  function Sizes(c: Codec, buf: Bytes): (sizes: seq<nat>)
    ensures |sizes| == |buf|
  {
    seq(|buf|, i => if i < 0 then 0 else SizeAt(c, buf, i))
  }

  lemma {:induction false} SizesFit(c: Codec, buf: Bytes)
    ensures Fits(Sizes(c, buf))
  {}

  function SpanPacket(buf: Bytes, s: Span): Packet
    requires End(s) <= |buf| && s.len >= FRAME_OVERHEAD
  {
    Packet(buf[s.at + 2], buf[s.at + HEADER_SIZE..End(s) - 1])
  }

  /** The frame of some packet lies at `s`. */
  ghost predicate IsFrame(c: Codec, buf: Bytes, s: Span)
  {
    && End(s) <= |buf| && FRAME_OVERHEAD <= s.len < 65536 + FRAME_OVERHEAD
    && FrameWith(c, SpanPacket(buf, s)) == buf[s.at..End(s)]
  }

  ghost predicate FramesAt(c: Codec, buf: Bytes, spans: seq<Span>)
  {
    forall k :: 0 <= k < |spans| ==> IsFrame(c, buf, spans[k])
  }

  ghost predicate InBounds(buf: Bytes, spans: seq<Span>)
  {
    forall k :: 0 <= k < |spans| ==> End(spans[k]) <= |buf| && spans[k].len >= FRAME_OVERHEAD
  }

  function Packets(buf: Bytes, spans: seq<Span>): (ps: seq<Packet>)
    requires InBounds(buf, spans)
    ensures |ps| == |spans|
  {
    seq(|spans|, k requires 0 <= k < |spans| => SpanPacket(buf, spans[k]))
  }

  // ── The scanner ────────────────────────────────────────────────────────

  predicate MagicAt(buf: Bytes, i: nat)
  {
    i + 1 < |buf| && buf[i] == MAGIC_0 && buf[i + 1] == MAGIC_1
  }

  ghost predicate NoMagic(buf: Bytes, from: nat, to: nat)
  {
    forall i: nat :: from <= i < to ==> !MagicAt(buf, i)
  }

  /** `windows(2).position(..)`: the first magic pair at or after `from`. */
  method FindMagic(buf: Bytes, from: nat) returns (r: Option<nat>)
    requires from <= |buf|
    ensures r.Some? ==> from <= r.value && MagicAt(buf, r.value)
    ensures NoMagic(buf, from, if r.Some? then r.value else |buf|)
  {
    var i := from;
    while i + 1 < |buf|
      invariant from <= i <= |buf|
      invariant NoMagic(buf, from, i)
    {
      if buf[i] == MAGIC_0 && buf[i + 1] == MAGIC_1 {
        return Some(i);
      }
      i := i + 1;
    }
    r := None;
  }

  lemma {:induction false} NoMagicNoFrame(c: Codec, buf: Bytes, i: nat)
    requires i < |buf| && !MagicAt(buf, i)
    ensures SizeAt(c, buf, i) == 0
  {}

  lemma {:induction false} SkipWithoutMagic(c: Codec, buf: Bytes, i: nat, j: nat)
    requires i <= j <= |buf| && NoMagic(buf, i, j)
    ensures Finds(Sizes(c, buf), i, [], j)
  {
    forall k | i <= k < j ensures Sizes(c, buf)[k] == 0 { NoMagicNoFrame(c, buf, k); }
    SkipEmpty(Sizes(c, buf), i, j);
  }

  /** What the reference scanner does at one offset, in terms of the parser. */
  lemma {:induction false} NextSpan(c: Codec, buf: Bytes, i: nat)
    requires i < |buf|
    ensures match ParseWith(c, buf[i..])
            case Some(r) => 0 < r.total <= |buf| - i && Finds(Sizes(c, buf), i, [Span(i, r.total)], i + r.total)
            case None => Finds(Sizes(c, buf), i, [], i + 1)
  {
    SizeHere(c, buf, i);
    OneStep(Sizes(c, buf), i);
  }

  lemma {:induction false} SizeHere(c: Codec, buf: Bytes, i: nat)
    requires i < |buf|
    ensures var size := Sizes(c, buf)[i];
            match ParseWith(c, buf[i..])
            case Some(r) => 0 < r.total == size <= |buf| - i
            case None => size == 0
  {
    assert Sizes(c, buf)[i] == SizeAt(c, buf, i);
  }

  /** Where the cursor goes after a failed parse: to the next magic pair, or past the end. */
  method NextMagic(c: Codec, buf: Bytes, from: nat) returns (next: nat)
    requires from <= |buf|
    ensures from <= next <= |buf|
    ensures Finds(Sizes(c, buf), from, [], next)
  {
    var magic := FindMagic(buf, from);
    next := if magic.Some? then magic.value else |buf|;
    SkipWithoutMagic(c, buf, from, next);
  }

  /** One turn of the scanning loop: accept the frame under the cursor, or move to the next magic pair. */
  method Advance(c: Codec, buf: Bytes, cursor: nat) returns (found: seq<Span>, next: nat)
    requires cursor < |buf|
    ensures cursor < next <= |buf|
    ensures Finds(Sizes(c, buf), cursor, found, next)
  {
    var parsed := ParseWith(c, buf[cursor..]);
    NextSpan(c, buf, cursor);
    if parsed.Some? {
      return [Span(cursor, parsed.value.total)], cursor + parsed.value.total;
    }
    next := NextMagic(c, buf, cursor + 1);
    found := [];
    ThenFinds(Sizes(c, buf), cursor, found, cursor + 1, found, next);
    assert found + found == found;
  }

  /**
    The scanning loop, with the guard on the shortest possible frame in front of it. It accepts
    what the reference scanner accepts.
    */
  method Scan(c: Codec, buf: Bytes) returns (spans: seq<Span>)
    ensures spans == ScanFrom(Sizes(c, buf), 0)
  {
    spans := [];
    if |buf| < FRAME_OVERHEAD {
      NothingInShort(c, buf);
      return;
    }
    var cursor := 0;
    while cursor < |buf|
      invariant cursor <= |buf|
      invariant Finds(Sizes(c, buf), 0, spans, cursor)
      decreases |buf| - cursor
    {
      var found, next := Advance(c, buf, cursor);
      ThenFinds(Sizes(c, buf), 0, spans, cursor, found, next);
      spans, cursor := spans + found, next;
    }
  }

  lemma {:induction false} NothingInShort(c: Codec, buf: Bytes)
    requires |buf| < FRAME_OVERHEAD
    ensures ScanFrom(Sizes(c, buf), 0) == []
  {
    SkipEmpty(Sizes(c, buf), 0, |buf|);
  }

  /** The spans accepted from offset `i` on. */
  function Accepted(c: Codec, buf: Bytes, i: nat): seq<Span>
  {
    ScanFrom(Sizes(c, buf), i)
  }

  // ── Accepted spans are frames ──────────────────────────────────────────

  lemma {:induction false} SizeGivesFrame(c: Codec, buf: Bytes, i: nat)
    requires TwoByte(c)
    requires SizeAt(c, buf, i) > 0
    ensures IsFrame(c, buf, Span(i, SizeAt(c, buf, i)))
  {
    var r := ParseWith(c, buf[i..]).value;
    ParseWithSound(c, buf[i..]);
    assert buf[i..][..r.total] == buf[i..i + r.total];
    assert buf[i..][5..5 + r.payloadLen] == buf[i + 5..i + 5 + r.payloadLen];
    assert SpanPacket(buf, Span(i, r.total)) == PacketAt(buf[i..], r);
  }

  lemma {:induction false} AcceptedAreFrames(c: Codec, buf: Bytes, i: nat)
    requires TwoByte(c)
    ensures Greedy(Sizes(c, buf), i, ScanFrom(Sizes(c, buf), i))
    ensures FramesAt(c, buf, ScanFrom(Sizes(c, buf), i)) && InBounds(buf, ScanFrom(Sizes(c, buf), i))
  {
    SizesFit(c, buf);
    ScanIsGreedy(Sizes(c, buf), i);
    OrderedAreFrames(c, buf, i, ScanFrom(Sizes(c, buf), i));
  }

  lemma {:induction false} OrderedAreFrames(c: Codec, buf: Bytes, from: nat, spans: seq<Span>)
    requires TwoByte(c)
    requires Ordered(Sizes(c, buf), from, spans)
    ensures FramesAt(c, buf, spans)
    decreases |spans|
  {
    if spans != [] {
      ItemIsFrame(c, buf, spans[0]);
      OrderedAreFrames(c, buf, End(spans[0]), spans[1..]);
      forall k | 0 <= k < |spans| ensures IsFrame(c, buf, spans[k]) {
        assert k == 0 || spans[k] == spans[1..][k - 1];
      }
    }
  }

  lemma {:induction false} ItemIsFrame(c: Codec, buf: Bytes, s: Span)
    requires TwoByte(c)
    requires IsItem(Sizes(c, buf), s)
    ensures IsFrame(c, buf, s)
  {
    assert SizeAt(c, buf, s.at) == s.len;
    SizeGivesFrame(c, buf, s.at);
  }

  /** The packets dispatched from offset `i` of a receive buffer on. */
  ghost function DispatchedFrom(c: Codec, buf: Bytes, i: nat): seq<Packet>
    requires TwoByte(c)
  {
    AcceptedAreFrames(c, buf, i);
    Packets(buf, ScanFrom(Sizes(c, buf), i))
  }

  /** The packets dispatched from a receive buffer. */
  ghost function Dispatched(c: Codec, buf: Bytes): seq<Packet>
    requires TwoByte(c)
  {
    DispatchedFrom(c, buf, 0)
  }

  // ── Streams of frames ──────────────────────────────────────────────────

  function Frames(c: Codec, ps: seq<Packet>): (fs: seq<Bytes>)
    ensures |fs| == |ps|
  {
    if ps == [] then [] else [FrameWith(c, ps[0])] + Frames(c, ps[1..])
  }

  ghost predicate Frameable(ps: seq<Packet>)
  {
    forall k :: 0 <= k < |ps| ==> |ps[k].payload| < 65536
  }

  lemma {:induction false} FrameFound(c: Codec, buf: Bytes, i: nat, p: Packet, more: Bytes)
    requires TwoByte(c) && |p.payload| < 65536
    requires i <= |buf| && buf[i..] == FrameWith(c, p) + more
    ensures var s := Span(i, |FrameWith(c, p)|); SizeAt(c, buf, i) == s.len && SpanPacket(buf, s) == p
  {
    ParseOfFrameWith(c, p, more);
    assert buf[i + 5..i + |FrameWith(c, p)| - 1] == buf[i..][5..5 + |p.payload|];
    assert buf[i + 2] == buf[i..][2];
  }

  lemma {:induction false} PacketsCons(buf: Bytes, s: Span, tail: seq<Span>)
    requires End(s) <= |buf| && s.len >= FRAME_OVERHEAD && InBounds(buf, tail)
    ensures InBounds(buf, [s] + tail)
    ensures Packets(buf, [s] + tail) == [SpanPacket(buf, s)] + Packets(buf, tail)
  {}

  /** A frame in front of a scanned remainder puts its packet in front of the remainder's. */
  lemma {:induction false} ScanCons(c: Codec, buf: Bytes, i: nat)
    requires TwoByte(c)
    requires SizeAt(c, buf, i) > 0
    ensures var s := Span(i, SizeAt(c, buf, i));
            var spans, tail := ScanFrom(Sizes(c, buf), i), ScanFrom(Sizes(c, buf), End(s));
            && IsFrame(c, buf, s) && InBounds(buf, spans) && InBounds(buf, tail)
            && Packets(buf, spans) == [SpanPacket(buf, s)] + Packets(buf, tail)
  {
    var s := Span(i, SizeAt(c, buf, i));
    SizeGivesFrame(c, buf, i);
    AcceptedAreFrames(c, buf, End(s));
    OneStep(Sizes(c, buf), i);
    PacketsCons(buf, s, ScanFrom(Sizes(c, buf), End(s)));
  }

  lemma {:induction false} FramesCons(c: Codec, pre: Bytes, ps: seq<Packet>)
    requires ps != []
    ensures pre + Concat(Frames(c, ps)) == pre + FrameWith(c, ps[0]) + Concat(Frames(c, ps[1..]))
  {
    assert Frames(c, ps)[1..] == Frames(c, ps[1..]);
  }

  lemma {:induction false} FramesLength(c: Codec, buf: Bytes, spans: seq<Span>)
    requires TwoByte(c)
    requires InBounds(buf, spans)
    ensures |Concat(Frames(c, Packets(buf, spans)))| == TotalLength(spans)
    decreases |spans|
  {
    if spans != [] {
      FramesLength(c, buf, spans[1..]);
      assert Packets(buf, spans)[1..] == Packets(buf, spans[1..]);
      FramesCons(c, [], Packets(buf, spans));
      assert [] + Concat(Frames(c, Packets(buf, spans))) == Concat(Frames(c, Packets(buf, spans)));
    }
  }

  /** What is dispatched was there: together the frames are no longer than the buffer. */
  lemma {:induction false} DispatchedFitsBuffer(c: Codec, buf: Bytes)
    requires TwoByte(c)
    ensures |Concat(Frames(c, Dispatched(c, buf)))| <= |buf|
  {
    AcceptedAreFrames(c, buf, 0);
    FramesLength(c, buf, ScanFrom(Sizes(c, buf), 0));
    OrderedFitsIn(Sizes(c, buf), 0, ScanFrom(Sizes(c, buf), 0));
  }

  /** Of the leading bytes of a run of frames, all packets are dispatched exactly when no byte is missing. */
  lemma {:induction false} AllDispatchedIff(c: Codec, ps: seq<Packet>, got: Bytes, missing: Bytes)
    requires TwoByte(c) && Frameable(ps) && Concat(Frames(c, ps)) == got + missing
    ensures Dispatched(c, got) == ps <==> missing == []
  {
    DispatchedFitsBuffer(c, got);
    if missing == [] {
      assert got + missing == got;
      CoalescedFramesAllDispatched(c, ps);
    }
  }

  /** From `i` the scanner dispatches `ps` and then goes on from `j`. */
  ghost predicate Leads(c: Codec, buf: Bytes, i: nat, ps: seq<Packet>, j: nat)
    requires TwoByte(c)
  {
    DispatchedFrom(c, buf, i) == ps + DispatchedFrom(c, buf, j)
  }

  lemma {:induction false} LeadsOn(c: Codec, buf: Bytes, i: nat, ps: seq<Packet>, j: nat, qs: seq<Packet>, k: nat)
    requires TwoByte(c) && Leads(c, buf, i, ps, j) && Leads(c, buf, j, qs, k)
    ensures Leads(c, buf, i, ps + qs, k)
  {
    var rest := DispatchedFrom(c, buf, k);
    assert ps + (qs + rest) == ps + qs + rest;
  }

  /** A frame under the cursor is dispatched and the scan goes on behind it. */
  lemma {:induction false} FrameFirst(c: Codec, buf: Bytes, i: nat, p: Packet, more: Bytes)
    requires TwoByte(c) && |p.payload| < 65536
    requires i <= |buf| && buf[i..] == FrameWith(c, p) + more
    ensures Leads(c, buf, i, [p], |buf| - |more|)
  {
    FrameFound(c, buf, i, p, more);
    ScanCons(c, buf, i);
  }

  /** So is a run of frames. */
  lemma {:induction false} FramesFirst(c: Codec, buf: Bytes, i: nat, ps: seq<Packet>, rest: Bytes)
    requires TwoByte(c) && Frameable(ps)
    requires i <= |buf| && buf[i..] == Concat(Frames(c, ps)) + rest
    ensures Leads(c, buf, i, ps, |buf| - |rest|)
    decreases |ps|
  {
    if ps == [] {
      assert Concat(Frames(c, ps)) + rest == rest;
      LeadsNowhere(c, buf, i);
    } else {
      var more := Concat(Frames(c, ps[1..])) + rest;
      FramesThen(c, ps, rest);
      Behind(buf, i, FrameWith(c, ps[0]), more);
      FramesFirst(c, buf, |buf| - |more|, ps[1..], rest);
      FrameThen(c, buf, i, ps[0], more, ps[1..], |buf| - |rest|);
      assert ps == [ps[0]] + ps[1..];
    }
  }

  lemma {:induction false} LeadsNowhere(c: Codec, buf: Bytes, i: nat)
    requires TwoByte(c)
    ensures Leads(c, buf, i, [], i)
  {}

  lemma {:induction false} FrameThen(c: Codec, buf: Bytes, i: nat, p: Packet, more: Bytes, qs: seq<Packet>, j: nat)
    requires TwoByte(c) && |p.payload| < 65536
    requires i <= |buf| && buf[i..] == FrameWith(c, p) + more && Leads(c, buf, |buf| - |more|, qs, j)
    ensures Leads(c, buf, i, [p] + qs, j)
  {
    FrameFirst(c, buf, i, p, more);
    LeadsOn(c, buf, i, [p], |buf| - |more|, qs, j);
  }

  lemma {:induction false} FramesThen(c: Codec, ps: seq<Packet>, rest: Bytes)
    requires ps != []
    ensures Concat(Frames(c, ps)) + rest == FrameWith(c, ps[0]) + (Concat(Frames(c, ps[1..])) + rest)
  {
    assert Frames(c, ps)[1..] == Frames(c, ps[1..]);
  }

  lemma {:induction false} Behind(buf: Bytes, i: nat, a: Bytes, b: Bytes)
    requires i <= |buf| && buf[i..] == a + b
    ensures buf[|buf| - |b|..] == b
  {
    assert buf[|buf| - |b|..] == buf[i..][|a|..];
  }

  lemma {:induction false} NothingAtEnd(c: Codec, buf: Bytes)
    requires TwoByte(c)
    ensures DispatchedFrom(c, buf, |buf|) == []
  {}

  /** From the start of a run of frames that ends the buffer the scanner recovers exactly their packets. */
  lemma {:induction false} ScanOfFrames(c: Codec, buf: Bytes, i: nat, ps: seq<Packet>)
    requires TwoByte(c) && Frameable(ps)
    requires i <= |buf| && buf[i..] == Concat(Frames(c, ps))
    ensures DispatchedFrom(c, buf, i) == ps
  {
    assert buf[i..] == Concat(Frames(c, ps)) + [];
    FramesFirst(c, buf, i, ps, []);
    NothingAtEnd(c, buf);
  }

  lemma {:induction false} FramesHead(c: Codec, p: Packet, qs: seq<Packet>)
    ensures Concat(Frames(c, [p] + qs)) == FrameWith(c, p) + Concat(Frames(c, qs))
  {
    FramesCons(c, [], [p] + qs);
    assert ([p] + qs)[1..] == qs;
    assert [] + FrameWith(c, p) + Concat(Frames(c, qs)) == FrameWith(c, p) + Concat(Frames(c, qs));
    assert [] + Concat(Frames(c, [p] + qs)) == Concat(Frames(c, [p] + qs));
  }

  /** Coalesced frames are all dispatched, once each and in order. */
  lemma {:induction false} CoalescedFramesAllDispatched(c: Codec, ps: seq<Packet>)
    requires TwoByte(c)
    requires Frameable(ps)
    ensures Dispatched(c, Concat(Frames(c, ps))) == ps
  {
    assert Concat(Frames(c, ps))[0..] == Concat(Frames(c, ps));
    ScanOfFrames(c, Concat(Frames(c, ps)), 0, ps);
  }

  /** No frame starts at any of the first `n` offsets. */
  ghost predicate NoneParse(c: Codec, buf: Bytes, n: nat)
    requires n <= |buf|
  {
    forall i: nat :: i < n ==> ParseWith(c, buf[i..]).None?
  }

  /** In every buffer the scanner passes over the first `n` bytes unharmed exactly when no frame starts in them. */
  lemma {:induction false} PassesOverIff(c: Codec, buf: Bytes, n: nat)
    requires n <= |buf|
    ensures Accepted(c, buf, 0) == Accepted(c, buf, n) <==> NoneParse(c, buf, n)
  {
    SizesFit(c, buf);
    SkipsIff(Sizes(c, buf), n);
    forall i: nat | i < n ensures Sizes(c, buf)[i] == 0 <==> ParseWith(c, buf[i..]).None? { SizeHere(c, buf, i); }
  }

  lemma {:induction false} GarbageSkipped(c: Codec, buf: Bytes, i: nat, garbage: Bytes, rest: Bytes)
    requires i <= |buf| && buf[i..] == garbage + rest && NoneParse(c, garbage + rest, |garbage|)
    ensures Accepted(c, buf, i) == Accepted(c, buf, |buf| - |rest|)
  {
    forall k | i <= k < i + |garbage| ensures Sizes(c, buf)[k] == 0 {
      assert buf[k..] == (garbage + rest)[k - i..];
      SizeHere(c, buf, k);
    }
    SkipEmpty(Sizes(c, buf), i, i + |garbage|);
  }

  /**
    The scanner resynchronises at once after a torn or corrupt part anywhere in the stream, in which,
    glued to the frames behind it, nothing parses.
    */
  lemma {:induction false} ResyncAfterGarbage(c: Codec, ps: seq<Packet>, garbage: Bytes, qs: seq<Packet>)
    requires TwoByte(c) && Frameable(ps) && Frameable(qs)
    requires NoneParse(c, garbage + Concat(Frames(c, qs)), |garbage|)
    ensures Dispatched(c, Concat(Frames(c, ps)) + (garbage + Concat(Frames(c, qs)))) == ps + qs
  {
    var rest, tail := Concat(Frames(c, qs)), garbage + Concat(Frames(c, qs));
    var buf := Concat(Frames(c, ps)) + tail;
    assert buf[0..] == buf;
    FramesFirst(c, buf, 0, ps, tail);
    Behind(buf, 0, Concat(Frames(c, ps)), tail);
    GarbageSkipped(c, buf, |buf| - |tail|, garbage, rest);
    Behind(buf, |buf| - |tail|, garbage, rest);
    ScanOfFrames(c, buf, |buf| - |rest|, qs);
  }

  lemma {:induction false} ResyncWithoutMagic(c: Codec, ps: seq<Packet>, garbage: Bytes, qs: seq<Packet>)
    requires TwoByte(c) && Frameable(ps) && Frameable(qs) && MAGIC_0 !in garbage
    ensures Dispatched(c, Concat(Frames(c, ps)) + (garbage + Concat(Frames(c, qs)))) == ps + qs
  {
    var buf := garbage + Concat(Frames(c, qs));
    forall i: nat | i < |garbage| ensures ParseWith(c, buf[i..]).None? { assert buf[i..][0] == garbage[i]; }
    ResyncAfterGarbage(c, ps, garbage, qs);
  }

  // ── Any mixture of frames and garbage ──────────────────────────────────

  datatype Part = Good(p: Packet) | Bad(bytes: Bytes)

  function PartBytes(c: Codec, part: Part): Bytes
  {
    if part.Good? then FrameWith(c, part.p) else part.bytes
  }

  function Wire(c: Codec, parts: seq<Part>): Bytes
  {
    if parts == [] then [] else PartBytes(c, parts[0]) + Wire(c, parts[1..])
  }

  function Pieces(c: Codec, parts: seq<Part>): seq<Piece>
  {
    if parts == [] then [] else [Piece(|PartBytes(c, parts[0])|, parts[0].Good?)] + Pieces(c, parts[1..])
  }

  function Goods(parts: seq<Part>): seq<Packet>
  {
    if parts == [] then [] else (if parts[0].Good? then [parts[0].p] else []) + Goods(parts[1..])
  }

  ghost predicate PartsFrameable(parts: seq<Part>)
  {
    forall k :: 0 <= k < |parts| && parts[k].Good? ==> |parts[k].p.payload| < 65536
  }

  /** At no offset of a garbage part does a frame parse. */
  ghost predicate BadSilent(c: Codec, parts: seq<Part>)
  {
    Silent(Sizes(c, Wire(c, parts)), 0, Pieces(c, parts))
  }

  /** The scanner accepts exactly the frames, each where it lies. */
  ghost predicate Exact(c: Codec, parts: seq<Part>)
  {
    Accepted(c, Wire(c, parts), 0) == Spans(0, Pieces(c, parts))
  }

  /** What is known of the remainder of a buffer that starts with a part. */
  lemma {:induction false} PartFirst(c: Codec, buf: Bytes, i: nat, parts: seq<Part>)
    requires TwoByte(c) && PartsFrameable(parts) && parts != [] && i <= |buf| && buf[i..] == Wire(c, parts)
    ensures var s := Span(i, |PartBytes(c, parts[0])|);
            && End(s) <= |buf| && buf[End(s)..] == Wire(c, parts[1..]) && PartsFrameable(parts[1..])
            && (parts[0].Good? ==>
                  i < |buf| && 0 < Sizes(c, buf)[i] == s.len && s.len >= FRAME_OVERHEAD
                  && SpanPacket(buf, s) == parts[0].p)
  {
    var first, more := PartBytes(c, parts[0]), Wire(c, parts[1..]);
    Behind(buf, i, first, more);
    if parts[0].Good? {
      FrameFound(c, buf, i, parts[0].p, more);
      assert Sizes(c, buf)[i] == SizeAt(c, buf, i);
    }
  }

  lemma {:induction false} PartsFitted(c: Codec, buf: Bytes, i: nat, parts: seq<Part>)
    requires TwoByte(c) && PartsFrameable(parts) && i <= |buf| && buf[i..] == Wire(c, parts)
    ensures Fitted(Sizes(c, buf), i, Pieces(c, parts))
    decreases |parts|
  {
    if parts != [] {
      PartFirst(c, buf, i, parts);
      PartsFitted(c, buf, i + |PartBytes(c, parts[0])|, parts[1..]);
      assert Pieces(c, parts)[1..] == Pieces(c, parts[1..]);
    }
  }

  lemma {:induction false} GoodPackets(c: Codec, buf: Bytes, i: nat, parts: seq<Part>)
    requires TwoByte(c) && PartsFrameable(parts) && i <= |buf| && buf[i..] == Wire(c, parts)
    ensures InBounds(buf, Spans(i, Pieces(c, parts))) && Packets(buf, Spans(i, Pieces(c, parts))) == Goods(parts)
    decreases |parts|
  {
    if parts != [] {
      var n := |PartBytes(c, parts[0])|;
      PartFirst(c, buf, i, parts);
      GoodPackets(c, buf, i + n, parts[1..]);
      assert Pieces(c, parts)[1..] == Pieces(c, parts[1..]);
      if parts[0].Good? { PacketsCons(buf, Span(i, n), Spans(i + n, Pieces(c, parts[1..]))); }
    }
  }

  /**
    For any mixture of frames and garbage: the scanner accepts exactly the frames, each where it
    lies, if and only if no frame parses at an offset of the garbage; then the packets dispatched are
    exactly those of the frames, in order.
    */
  lemma {:induction false} AcceptsGoodIff(c: Codec, parts: seq<Part>)
    requires TwoByte(c) && PartsFrameable(parts)
    ensures Exact(c, parts) <==> BadSilent(c, parts)
    ensures BadSilent(c, parts) ==> Dispatched(c, Wire(c, parts)) == Goods(parts)
  {
    var buf := Wire(c, parts);
    assert buf[0..] == buf;
    PartsFitted(c, buf, 0, parts);
    GoodPackets(c, buf, 0, parts);
    SizesFit(c, buf);
    ExactIff(Sizes(c, buf), 0, Pieces(c, parts));
  }

  /** Bytes that turn one frame into another in front of the rest have the rest dispatched behind the other packet. */
  lemma {:induction false} FrameSwallowed(c: Codec, h: Bytes, p: Packet, wrong: Packet, qs: seq<Packet>)
    requires TwoByte(c) && FrameWith(c, wrong) == h + FrameWith(c, p) && |wrong.payload| < 65536 && Frameable(qs)
    ensures Dispatched(c, h + Concat(Frames(c, [p] + qs))) == [wrong] + qs
  {
    FramesHead(c, wrong, qs);
    FramesHead(c, p, qs);
    assert h + (FrameWith(c, p) + Concat(Frames(c, qs))) == FrameWith(c, wrong) + Concat(Frames(c, qs));
    CoalescedFramesAllDispatched(c, [wrong] + qs);
  }
}

/** The scanner on the brain link. */
module FrameScanner {
  import opened Bitwise
  import opened Bytes
  import opened Crc8
  import opened PacketFraming
  import opened BrainProtocol
  import FrameScanning

  /** The packets dispatched from a receive buffer. */
  ghost function Dispatched(buf: Bytes): seq<Packet>
  {
    LinkIsTwoByte();
    FrameScanning.Dispatched(LINK, buf)
  }

  function Frames(ps: seq<Packet>): (fs: seq<Bytes>)
    ensures |fs| == |ps|
  {
    FrameScanning.Frames(LINK, ps)
  }

  ghost predicate Frameable(ps: seq<Packet>)
  {
    FrameScanning.Frameable(ps)
  }

  /** Coalesced frames are all dispatched, once each and in order. */
  lemma {:induction false} CoalescedFramesAllDispatched(ps: seq<Packet>)
    requires Frameable(ps)
    ensures Dispatched(Concat(Frames(ps))) == ps
  {
    LinkIsTwoByte();
    FrameScanning.CoalescedFramesAllDispatched(LINK, ps);
  }

  /** What is dispatched was there: together the frames are no longer than the buffer. */
  lemma {:induction false} DispatchedFitsBuffer(buf: Bytes)
    ensures |Concat(Frames(Dispatched(buf)))| <= |buf|
  {
    LinkIsTwoByte();
    FrameScanning.DispatchedFitsBuffer(LINK, buf);
  }

  /** Of the leading bytes of a run of frames, all packets are dispatched exactly when no byte is missing. */
  lemma {:induction false} AllDispatchedIff(ps: seq<Packet>, got: Bytes, missing: Bytes)
    requires Frameable(ps) && Concat(Frames(ps)) == got + missing
    ensures Dispatched(got) == ps <==> missing == []
  {
    LinkIsTwoByte();
    FrameScanning.AllDispatchedIff(LINK, ps, got, missing);
  }

  /** In every buffer the scanner passes over the first `n` bytes unharmed exactly when no frame starts in them. */
  lemma {:induction false} PassesOverIff(buf: Bytes, n: nat)
    requires n <= |buf|
    ensures FrameScanning.Accepted(LINK, buf, 0) == FrameScanning.Accepted(LINK, buf, n)
       <==> FrameScanning.NoneParse(LINK, buf, n)
  {
    FrameScanning.PassesOverIff(LINK, buf, n);
  }

  /**
    For any mixture of frames and garbage the scanner accepts exactly the frames, each where it lies,
    if and only if no frame parses at an offset of the garbage; then their packets are dispatched.
    */
  lemma {:induction false} AcceptsGoodIff(parts: seq<FrameScanning.Part>)
    requires FrameScanning.PartsFrameable(parts)
    ensures FrameScanning.Exact(LINK, parts) <==> FrameScanning.BadSilent(LINK, parts)
    ensures FrameScanning.BadSilent(LINK, parts) ==>
              Dispatched(FrameScanning.Wire(LINK, parts)) == FrameScanning.Goods(parts)
  {
    LinkIsTwoByte();
    FrameScanning.AcceptsGoodIff(LINK, parts);
  }

  /**
    The scanner resynchronises at once after a torn or corrupt part anywhere in the stream, in which,
    glued to the frames behind it, nothing parses.
    */
  lemma {:induction false} ResyncAfterGarbage(ps: seq<Packet>, garbage: Bytes, qs: seq<Packet>)
    requires Frameable(ps) && Frameable(qs)
    requires FrameScanning.NoneParse(LINK, garbage + Concat(Frames(qs)), |garbage|)
    ensures Dispatched(Concat(Frames(ps)) + (garbage + Concat(Frames(qs)))) == ps + qs
  {
    LinkIsTwoByte();
    FrameScanning.ResyncAfterGarbage(LINK, ps, garbage, qs);
  }

  /** In particular after garbage without the first magic byte. */
  lemma {:induction false} ResyncWithoutMagic(ps: seq<Packet>, garbage: Bytes, qs: seq<Packet>)
    requires Frameable(ps) && Frameable(qs) && MAGIC_0 !in garbage
    ensures Dispatched(Concat(Frames(ps)) + (garbage + Concat(Frames(qs)))) == ps + qs
  {
    LinkIsTwoByte();
    FrameScanning.ResyncWithoutMagic(LINK, ps, garbage, qs);
  }

  /**
    It is not enough that the garbage is no frame: for every frame there is a torn-off header that
    swallows it whole. Its packet is then lost and a wrong one dispatched; the frames behind are not
    affected.
    */
  lemma {:induction false} TornHeaderSwallows(p: Packet, qs: seq<Packet>)
    requires Reach(p) < 65536 && Frameable(qs)
    ensures var t := SwallowingType(Reach(p));
            Dispatched(Header(t, Reach(p)) + Concat(Frames([p] + qs))) == [Packet(t, Frame(p)[..Reach(p)])] + qs
  {
    var t := SwallowingType(Reach(p));
    SwallowingHeader(Reach(p));
    HeaderAndFrame(t, p);
    LinkIsTwoByte();
    FrameScanning.FrameSwallowed(LINK, Header(t, Reach(p)), p, Packet(t, Frame(p)[..Reach(p)]), qs);
  }
}
