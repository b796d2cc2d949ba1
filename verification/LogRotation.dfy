/**
  When the logger has a file to write to, and when its flushes lose records: rotation closes the full
  file before it opens the next one, and nothing tries again after a failed open.
  */
module LogRotation {
  import opened Bytes
  import opened Integers
  import opened LogFormat
  import opened LogRing
  import opened Logger

  /** The event flushes a ring that is not empty. */
  predicate Flushes(s: State, e: Event)
  {
    match e
    case Starting(_) => false
    case Logging(_) => false
    case Flushing(_) => s.ring != []
    case Ticking(_) => s.active && |s.ring| >= WATERMARK
    case Stopping(_) => s.active && s.ring != []
  }

  /** The flush fills the file, so that the next one is to be opened. */
  predicate Rotates(s: State, e: Event)
  {
    && Flushes(s, e) && s.file.Some? && e.disk.writeOk
    && Size(s.file.value.(records := s.file.value.records + s.ring)) >= ROTATE_BYTES
  }

  predicate Starts(s: State, e: Event)
  {
    e.Starting? && !s.active
  }

  /** Whether the latest attempt to open a file succeeded, if there was one. */
  function LatestOpen(es: seq<Event>): Option<bool>
  {
    if es == [] then None
    else
      var s, e := Run(es[..|es| - 1]).state, es[|es| - 1];
      if Starts(s, e) || Rotates(s, e) then Some(e.disk.openOk) else LatestOpen(es[..|es| - 1])
  }

  /** A rotation since the latest start failed to open the next file. */
  predicate RotationFailed(es: seq<Event>)
  {
    es != [] &&
    var s, e := Run(es[..|es| - 1]).state, es[|es| - 1];
    if Starts(s, e) && e.disk.openOk then false
    else (Rotates(s, e) && !e.disk.openOk) || RotationFailed(es[..|es| - 1])
  }

  lemma {:induction false} StepFile(s: State, e: Event)
    requires Bounded(s)
    ensures Step(s, e).active ==>
              if Starts(s, e) then Step(s, e).file.Some? && e.disk.openOk
              else s.active && Step(s, e).file.Some? == if Rotates(s, e) then e.disk.openOk else s.file.Some?
    ensures Rotates(s, e) ==> s.active
  {}

  /** While the logger is active it has no file exactly when the latest open attempted failed. */
  lemma {:induction false} NoFileIff(es: seq<Event>)
    ensures var s := Run(es).state;
            s.active ==> LatestOpen(es).Some? && (s.file.None? <==> LatestOpen(es) == Some(false))
  {
    if es != [] {
      var front := es[..|es| - 1];
      NoFileIff(front);
      EveryRecordAccounted(front);
      StepFile(Run(front).state, es[|es| - 1]);
    }
  }

  /** That open was a rotation of the running session: a failed start leaves the logger inactive. */
  lemma {:induction false} NoFileAfterRotationIff(es: seq<Event>)
    ensures var s := Run(es).state; s.active ==> (s.file.None? <==> RotationFailed(es))
  {
    if es != [] {
      var front := es[..|es| - 1];
      NoFileAfterRotationIff(front);
      EveryRecordAccounted(front);
      StepFile(Run(front).state, es[|es| - 1]);
    }
  }

  // ── What is lost ───────────────────────────────────────────────────────

  /** The flush at event `i`, if it is one, has a file and its write succeeds. */
  ghost predicate FlushFine(es: seq<Event>, i: nat)
    requires i < |es|
  {
    Flushes(Run(es[..i]).state, es[i]) ==> es[i].disk.writeOk && !RotationFailed(es[..i])
  }

  lemma {:induction false} FineInFront(es: seq<Event>, i: nat)
    requires i < |es| - 1
    ensures FlushFine(es, i) <==> FlushFine(es[..|es| - 1], i)
  {
    assert es[..|es| - 1][..i] == es[..i];
  }

  lemma {:induction false} InSame(f: Fate, g: Fate, n: nat)
    ensures f in Same(g, n) <==> f == g && n > 0
  {
    if n > 0 { InSame(f, g, n - 1); }
  }

  lemma {:induction false} StepLoses(s: State, e: Event)
    requires Bounded(s)
    ensures Lost in Fates(s, e) <==> Flushes(s, e) && (s.file.None? || !e.disk.writeOk)
    ensures Written in Fates(s, e) <==> Flushes(s, e) && s.file.Some? && e.disk.writeOk
    ensures Flushes(s, e) ==> s.active
  {
    InSame(Lost, Lost, |s.ring|);
    InSame(Lost, Written, |s.ring|);
    InSame(Written, Lost, |s.ring|);
    InSame(Written, Written, |s.ring|);
  }

  /**
    No record of a run is lost if and only if every flush of a non-empty ring could write and no
    earlier rotation of its session failed to open the next file.
    */
  lemma {:induction false} NothingLostIff(es: seq<Event>)
    ensures Lost !in Run(es).fates <==> forall i :: 0 <= i < |es| ==> FlushFine(es, i)
  {
    if es != [] {
      var front, n := es[..|es| - 1], |es| - 1;
      NothingLostIff(front);
      forall i | 0 <= i < n ensures FlushFine(es, i) <==> FlushFine(front, i) { FineInFront(es, i); }
      LastLoses(es);
    }
  }

  lemma {:induction false} LastLoses(es: seq<Event>)
    requires es != []
    ensures Lost in Run(es).fates <==> Lost in Run(es[..|es| - 1]).fates || !FlushFine(es, |es| - 1)
  {
    var front := es[..|es| - 1];
    EveryRecordAccounted(front);
    NoFileAfterRotationIff(front);
    StepLoses(Run(front).state, es[|es| - 1]);
  }

  /** Everything that is on disk after a run, in order. */
  function DiskAfter(es: seq<Event>): seq<Record>
  {
    OnDisk(Files(Run(es).state))
  }

  predicate Stuck(s: State)
  {
    s.active && s.file.None?
  }

  lemma {:induction false} StuckStep(s: State, e: Event)
    requires Stuck(s) && !e.Stopping?
    ensures Stuck(Step(s, e)) && Files(Step(s, e)) == Files(s)
  {}

  lemma {:induction false} StillStuck(es: seq<Event>, e: Event)
    requires Stuck(Run(es).state) && !e.Stopping?
    ensures Stuck(Run(es + [e]).state) && DiskAfter(es + [e]) == DiskAfter(es)
  {
    StuckStep(Run(es).state, e);
    RunSnoc(es, e);
  }

  /** A property of runs that every event but a stop keeps. */
  ghost predicate Keeps(p: seq<Event> -> bool)
  {
    forall es: seq<Event>, e: Event {:trigger p(es + [e])} :: p(es) && !e.Stopping? ==> p(es + [e])
  }

  lemma {:induction false} KeptUntilStopped(p: seq<Event> -> bool, es: seq<Event>, more: seq<Event>)
    requires Keeps(p) && p(es)
    requires forall i :: 0 <= i < |more| ==> !more[i].Stopping?
    ensures p(es + more)
    decreases |more|
  {
    if more == [] {
      assert es + more == es;
    } else {
      assert p(es + [more[0]]);
      KeptUntilStopped(p, es + [more[0]], more[1..]);
      assert es + more == es + [more[0]] + more[1..];
    }
  }

  /**
    After a failed rotation the logger stays without a file until it is stopped, and nothing that is
    flushed in between reaches the disk.
    */
  lemma {:induction false} FailedRotationIsSticky(es: seq<Event>, more: seq<Event>)
    requires Run(es).state.active && RotationFailed(es)
    requires forall i :: 0 <= i < |more| ==> !more[i].Stopping?
    ensures Stuck(Run(es + more).state) && DiskAfter(es + more) == DiskAfter(es)
  {
    NoFileAfterRotationIff(es);
    var disk := DiskAfter(es);
    var p := (es': seq<Event>) => Stuck(Run(es').state) && DiskAfter(es') == disk;
    forall es': seq<Event>, e: Event | p(es') && !e.Stopping? ensures p(es' + [e]) { StillStuck(es', e); }
    KeptUntilStopped(p, es, more);
  }

  // ── Counters and times ─────────────────────────────────────────────────

  predicate FlushFails(s: State, e: Event)
  {
    Flushes(s, e) && (s.file.None? || !e.disk.writeOk)
  }

  function FailedFlushes(es: seq<Event>): nat
  {
    if es == [] then 0
    else
      var front := es[..|es| - 1];
      FailedFlushes(front) + if FlushFails(Run(front).state, es[|es| - 1]) then 1 else 0
  }

  lemma {:induction false} StepErrors(s: State, e: Event)
    ensures Step(s, e).errors == if FlushFails(s, e) then Increment(s.errors) else s.errors
  {}

  /** The error counter is the number of flushes that lost their records, modulo 2^32. */
  lemma {:induction false} ErrorCounter(es: seq<Event>)
    ensures Run(es).state.errors == FailedFlushes(es) % U32_SIZE
  {
    if es != [] {
      var front := es[..|es| - 1];
      ErrorCounter(front);
      ErrorsAfter(Run(front), es[|es| - 1], FailedFlushes(front));
    }
  }

  lemma {:induction false} ErrorsAfter(h: History, e: Event, n: nat)
    requires h.state.errors == n % U32_SIZE
    ensures Extended(h, e).state.errors == (n + if FlushFails(h.state, e) then 1 else 0) % U32_SIZE
  {
    StepErrors(h.state, e);
    CountUp(n);
  }

  function Times(files: seq<LogFile>): (ts: seq<nat>)
    ensures |ts| == |files|
  {
    seq(|files|, i requires 0 <= i < |files| => files[i].openTs)
  }

  predicate OpensFile(s: State, e: Event)
  {
    (Starts(s, e) || Rotates(s, e)) && e.disk.openOk
  }

  /** When each successful open of a run happened. */
  function OpenTimes(es: seq<Event>): seq<nat>
  {
    if es == [] then []
    else
      var front, e := es[..|es| - 1], es[|es| - 1];
      OpenTimes(front) + if OpensFile(Run(front).state, e) then [e.disk.now] else []
  }

  lemma {:induction false} FlushTimes(s: State, e: Event)
    requires Flushes(s, e)
    ensures Times(Files(Flush(s, e.disk)))
         == Times(Files(s)) + if Rotates(s, e) && e.disk.openOk then [e.disk.now] else []
  {}

  lemma {:induction false} StepTimes(s: State, e: Event)
    requires Bounded(s)
    ensures Times(Files(Step(s, e))) == Times(Files(s)) + if OpensFile(s, e) then [e.disk.now] else []
  {
    if Flushes(s, e) { FlushTimes(s, e); }
    if e.Stopping? && s.active { StopTimes(s, e.disk); }
  }

  lemma {:induction false} StopTimes(s: State, disk: Disk)
    requires s.active
    ensures Files(Shutdown(s, disk)) == Files(Flush(s, disk))
  {
    ClosingKeepsDisk(Flush(s.(active := false), disk));
  }

  /** Over every run there is one file on disk per successful open, in order, stamped with its time. */
  lemma {:induction false} OneFilePerOpen(es: seq<Event>)
    ensures Times(Files(Run(es).state)) == OpenTimes(es)
  {
    if es != [] {
      var front := es[..|es| - 1];
      OneFilePerOpen(front);
      EveryRecordAccounted(front);
      StepTimes(Run(front).state, es[|es| - 1]);
    }
  }

  // ── A run in which it happens ──────────────────────────────────────────

  const GOOD := Disk(true, true, 0)

  function Logs(rec: Record, n: nat): seq<Event>
  {
    if n == 0 then [] else Logs(rec, n - 1) + [Logging(rec)]
  }

  /** A start, then `k` times a full ring flushed. */
  function Filling(rec: Record, k: nat): seq<Event>
  {
    if k == 0 then [Starting(GOOD)] else Filling(rec, k - 1) + Logs(rec, CAPACITY) + [Flushing(GOOD)]
  }

  /** The run that fills the file to the threshold and cannot open the next one. */
  function FullThenStuck(rec: Record): seq<Event>
  {
    Filling(rec, 255) + Logs(rec, CAPACITY) + [Flushing(Disk(true, false, 0))]
  }

  ghost predicate Ready(s: State, records: nat)
  {
    s.active && s.ring == [] && s.file.Some? && |s.file.value.records| == records
  }

  lemma {:induction false} RunSnoc(es: seq<Event>, e: Event)
    ensures Run(es + [e]) == Extended(Run(es), e)
  {
    assert (es + [e])[..|es|] == es;
  }

  /** Logging into an active logger whose ring has room appends to the ring. */
  ghost predicate Queues(run: seq<Event> -> State, rec: Record)
  {
    forall es: seq<Event> {:trigger run(es + [Logging(rec)])} :: run(es).active && |run(es).ring| < CAPACITY ==>
      run(es + [Logging(rec)]) == run(es).(ring := run(es).ring + [rec])
  }

  lemma {:induction false} LogsQueued(run: seq<Event> -> State, es: seq<Event>, rec: Record, n: nat)
    requires Queues(run, rec) && run(es).active && |run(es).ring| + n <= CAPACITY
    ensures var s, t := run(es), run(es + Logs(rec, n)); |t.ring| == |s.ring| + n && t == s.(ring := t.ring)
  {
    if n == 0 {
      assert es + Logs(rec, 0) == es;
    } else {
      LogsQueued(run, es, rec, n - 1);
      assert es + Logs(rec, n) == es + Logs(rec, n - 1) + [Logging(rec)];
    }
  }

  lemma {:induction false} LogsFill(es: seq<Event>, rec: Record, n: nat)
    requires Run(es).state.active && |Run(es).state.ring| + n <= CAPACITY
    ensures var s, t := Run(es).state, Run(es + Logs(rec, n)).state;
            |t.ring| == |s.ring| + n && t == s.(ring := t.ring)
  {
    var run := (es': seq<Event>) => Run(es').state;
    forall es': seq<Event> | run(es').active && |run(es').ring| < CAPACITY
      ensures run(es' + [Logging(rec)]) == run(es').(ring := run(es').ring + [rec]) {
      RunSnoc(es', Logging(rec));
    }
    LogsQueued(run, es, rec, n);
  }

  /** A full ring flushed into a file with `k` batches. */
  lemma {:induction false} FullFlush(s: State, k: nat, disk: Disk)
    requires k < 256 && disk.writeOk && |s.ring| == CAPACITY && Ready(s.(ring := []), k * CAPACITY)
    ensures if k < 255 then Ready(Flush(s, disk), (k + 1) * CAPACITY)
            else Flush(s, disk).active && Flush(s, disk).file == Open(disk)
  {}

  lemma {:induction false} FillOnce(es: seq<Event>, rec: Record, k: nat, disk: Disk)
    requires k < 256 && disk.writeOk && Ready(Run(es).state, k * CAPACITY)
    ensures var t := Run(es + Logs(rec, CAPACITY) + [Flushing(disk)]).state;
            if k < 255 then Ready(t, (k + 1) * CAPACITY) else t.active && t.file == Open(disk)
  {
    LogsFill(es, rec, CAPACITY);
    FullFlush(Run(es + Logs(rec, CAPACITY)).state, k, disk);
    RunSnoc(es + Logs(rec, CAPACITY), Flushing(disk));
  }

  lemma {:induction false} Filled(rec: Record, k: nat)
    requires k < 256
    ensures Ready(Run(Filling(rec, k)).state, k * CAPACITY)
  {
    if k == 0 {
      RunSnoc([], Starting(GOOD));
      assert [] + [Starting(GOOD)] == [Starting(GOOD)];
    } else {
      Filled(rec, k - 1);
      FillOnce(Filling(rec, k - 1), rec, k - 1, GOOD);
    }
  }

  /** The state without a file is reached. */
  lemma {:induction false} RotationCanFail(rec: Record)
    ensures var es := FullThenStuck(rec);
            Stuck(Run(es).state) && RotationFailed(es)
  {
    Filled(rec, 255);
    FillOnce(Filling(rec, 255), rec, 255, Disk(true, false, 0));
    NoFileAfterRotationIff(FullThenStuck(rec));
  }

  /** There the next record flushed is lost, although its write would succeed. */
  lemma {:induction false} NextRecordLost(rec: Record)
    ensures Lost in Run(FullThenStuck(rec) + [Logging(rec)] + [Flushing(GOOD)]).fates
  {
    var es := FullThenStuck(rec);
    RotationCanFail(rec);
    RunSnoc(es, Logging(rec));
    RunSnoc(es + [Logging(rec)], Flushing(GOOD));
    EveryRecordAccounted(es + [Logging(rec)]);
    StepLoses(Run(es + [Logging(rec)]).state, Flushing(GOOD));
  }
}
