/**
  The logger on several harts. A push tests the active flag before it takes the ring lock; a flush
  holds the ring lock only while it drains and the file lock only while it writes, and a rotation
  opens the next file without either. Steps of any harts interleave at these boundaries.
  */
module LoggerRaces {
  import opened Bytes
  import opened LogFormat
  import opened LogRing
  import Logger

  /** Where a record that entered the ring is now, or how it left. */
  datatype Fate = Queued | Dropped | Held(hart: nat) | Written | Lost

  /** Where a hart is: past the active test of a push, or between drain and write of a flush. */
  datatype Pc = Pushing(rec: Record) | Holding(batch: seq<Record>)

  datatype State = State(
    ring: seq<Record>,
    active: bool,
    file: Option<LogFile>,
    done: seq<LogFile>,          // files no longer written to, oldest first
    harts: map<nat, Pc>,
    pushed: seq<Record>,         // everything that entered the ring, in order
    fates: seq<Fate>)            // the fate of each of them

  /** Opening, closing and switching may come at any time: the harts that do so hold no lock meanwhile. */
  datatype Step =
    | Test(hart: nat, rec: Record)
    | Put(hart: nat)
    | Drain(hart: nat)
    | Store(hart: nat, writeOk: bool)
    | OpenFile(now: nat)
    | CloseFile
    | Switch(on: bool)

  const INITIAL := State([], false, None, [], map[], [], [])

  function Retag(fates: seq<Fate>, a: Fate, b: Fate): (r: seq<Fate>)
    ensures |r| == |fates| && forall i :: 0 <= i < |r| ==> r[i] == if fates[i] == a then b else fates[i]
  {
    seq(|fates|, i requires 0 <= i < |fates| => if fates[i] == a then b else fates[i])
  }

  /** The oldest queued record is overwritten. */
  function DropOldest(fates: seq<Fate>): (r: seq<Fate>)
    ensures |r| == |fates|
  {
    if fates == [] then []
    else if fates[0] == Queued then [Dropped] + fates[1..]
    else [fates[0]] + DropOldest(fates[1..])
  }

  function PutRecord(s: State, h: nat, rec: Record): State
  {
    var full := |s.ring| == CAPACITY;
    s.(ring := (if full then s.ring[1..] else s.ring) + [rec],
       harts := s.harts - {h},
       pushed := s.pushed + [rec],
       fates := (if full then DropOldest(s.fates) else s.fates) + [Queued])
  }

  function StoreBatch(s: State, h: nat, batch: seq<Record>, writeOk: bool): State
  {
    if s.file.None? || !writeOk then s.(harts := s.harts - {h}, fates := Retag(s.fates, Held(h), Lost))
    else
      var f := s.file.value.(records := s.file.value.records + batch);
      var full := Size(f) >= Logger.ROTATE_BYTES;
      s.(harts := s.harts - {h},
         file := if full then None else Some(f),
         done := if full then s.done + [f] else s.done,
         fates := Retag(s.fates, Held(h), Written))
  }

  function Retired(s: State): seq<LogFile>
  {
    s.done + if s.file.Some? then [s.file.value] else []
  }

  /** One step; a step that is not enabled changes nothing. */
  function Apply(s: State, step: Step): State
  {
    match step
    case Test(h, rec) => if h in s.harts || !s.active then s else s.(harts := s.harts[h := Pushing(rec)])
    case Put(h) => if h in s.harts && s.harts[h].Pushing? then PutRecord(s, h, s.harts[h].rec) else s
    case Drain(h) =>
      if h in s.harts || s.ring == [] then s
      else s.(ring := [], harts := s.harts[h := Holding(s.ring)], fates := Retag(s.fates, Queued, Held(h)))
    case Store(h, ok) => if h in s.harts && s.harts[h].Holding? then StoreBatch(s, h, s.harts[h].batch, ok) else s
    case OpenFile(now) => s.(file := Some(LogFile(now, [])), done := Retired(s))
    case CloseFile => s.(file := None, done := Retired(s))
    case Switch(on) => s.(active := on)
  }

  function Run(steps: seq<Step>): State
  {
    if steps == [] then INITIAL else Apply(Run(steps[..|steps| - 1]), steps[|steps| - 1])
  }

  /** The records with fate `f`, in the order they were pushed. */
  function Select(rs: seq<Record>, fates: seq<Fate>, f: Fate): seq<Record>
    requires |rs| == |fates|
  {
    if rs == [] then [] else (if fates[0] == f then [rs[0]] else []) + Select(rs[1..], fates[1..], f)
  }

  function OnDisk(s: State): seq<Record>
  {
    Logger.OnDisk(Retired(s))
  }

  // ── Selecting ──────────────────────────────────────────────────────────

  lemma {:induction false} SelectNone(rs: seq<Record>, fates: seq<Fate>, f: Fate)
    requires |rs| == |fates| && f !in fates
    ensures Select(rs, fates, f) == []
  {
    if rs != [] { SelectNone(rs[1..], fates[1..], f); }
  }

  lemma {:induction false} SelectSnoc(rs: seq<Record>, fates: seq<Fate>, r: Record, g: Fate, f: Fate)
    requires |rs| == |fates|
    ensures Select(rs + [r], fates + [g], f) == Select(rs, fates, f) + if g == f then [r] else []
  {
    if rs != [] {
      SelectSnoc(rs[1..], fates[1..], r, g, f);
      assert (rs + [r])[1..] == rs[1..] + [r] && (fates + [g])[1..] == fates[1..] + [g];
    }
  }

  lemma {:induction false} RetagCons(fates: seq<Fate>, a: Fate, b: Fate)
    requires fates != []
    ensures Retag(fates, a, b)[1..] == Retag(fates[1..], a, b)
  {}

  /** A fate that is neither the old nor the new one keeps its records. */
  lemma {:induction false} SelectOther(rs: seq<Record>, fates: seq<Fate>, a: Fate, b: Fate, f: Fate)
    requires |rs| == |fates| && f != a && f != b
    ensures Select(rs, Retag(fates, a, b), f) == Select(rs, fates, f)
  {
    if rs != [] {
      RetagCons(fates, a, b);
      SelectOther(rs[1..], fates[1..], a, b, f);
    }
  }

  /** The new fate gains the records of the old one. */
  lemma {:induction false} SelectGains(rs: seq<Record>, fates: seq<Fate>, a: Fate, b: Fate)
    requires |rs| == |fates| && a != b
    ensures multiset(Select(rs, Retag(fates, a, b), b))
         == multiset(Select(rs, fates, b)) + multiset(Select(rs, fates, a))
  {
    if rs != [] {
      RetagCons(fates, a, b);
      SelectGains(rs[1..], fates[1..], a, b);
    }
  }

  /** All of them, and in order, if it had none. */
  lemma {:induction false} SelectMoves(rs: seq<Record>, fates: seq<Fate>, a: Fate, b: Fate)
    requires |rs| == |fates| && b !in fates
    ensures Select(rs, Retag(fates, a, b), b) == Select(rs, fates, a)
  {
    if rs != [] {
      RetagCons(fates, a, b);
      SelectMoves(rs[1..], fates[1..], a, b);
    }
  }

  lemma {:induction false} SelectDropped(rs: seq<Record>, fates: seq<Fate>, f: Fate)
    requires |rs| == |fates| && f != Dropped
    ensures var queued := Select(rs, fates, f);
            Select(rs, DropOldest(fates), f) == if f == Queued && queued != [] then queued[1..] else queued
  {
    if rs != [] && fates[0] != Queued {
      SelectDropped(rs[1..], fates[1..], f);
      assert DropOldest(fates)[1..] == DropOldest(fates[1..]);
    }
  }

  // ── Conservation in every interleaving ─────────────────────────────────

  /** A batch in a hart's hands is what is held there; nothing else is held. */
  ghost predicate HeldBy(s: State, h: nat)
    requires |s.fates| == |s.pushed|
  {
    if h in s.harts && s.harts[h].Holding? then s.harts[h].batch == Select(s.pushed, s.fates, Held(h))
    else Held(h) !in s.fates
  }

  /**
    Every record that entered the ring has one fate: it is in the ring, in the hands of one flush, on
    disk, overwritten or lost. The ring is in order; the disk holds exactly the written records.
    */
  ghost predicate Accounted(s: State)
  {
    && |s.fates| == |s.pushed| && |s.ring| <= CAPACITY && s.ring == Select(s.pushed, s.fates, Queued)
    && (forall h: nat :: HeldBy(s, h))
    && multiset(OnDisk(s)) == multiset(Select(s.pushed, s.fates, Written))
  }

  lemma {:induction false} RetiredOnDisk(done: seq<LogFile>, f: LogFile)
    ensures Logger.OnDisk(done + [f]) == Logger.OnDisk(done) + f.records
  {
    Logger.OnDiskLast(done, f);
  }

  lemma {:induction false} DiskIs(s: State)
    ensures OnDisk(s) == Logger.OnDisk(s.done) + if s.file.Some? then s.file.value.records else []
  {
    if s.file.Some? {
      RetiredOnDisk(s.done, s.file.value);
    } else {
      assert Retired(s) == s.done;
    }
  }

  lemma {:induction false} PutHeld(s: State, h: nat, rec: Record, g: nat)
    requires Accounted(s) && h in s.harts && s.harts[h] == Pushing(rec)
    ensures HeldBy(PutRecord(s, h, rec), g)
  {
    assert HeldBy(s, g);
    var fates := if |s.ring| == CAPACITY then DropOldest(s.fates) else s.fates;
    SelectDropped(s.pushed, s.fates, Held(g));
    SelectSnoc(s.pushed, fates, rec, Queued, Held(g));
    if Held(g) !in s.fates { NotDropped(s.fates, Held(g)); }
  }

  lemma {:induction false} NotDropped(fates: seq<Fate>, f: Fate)
    requires f != Dropped && f !in fates
    ensures f !in DropOldest(fates)
  {
    if fates != [] { NotDropped(fates[1..], f); }
  }

  lemma {:induction false} PutAccounted(s: State, h: nat, rec: Record)
    requires Accounted(s) && h in s.harts && s.harts[h] == Pushing(rec)
    ensures Accounted(PutRecord(s, h, rec))
  {
    var t := PutRecord(s, h, rec);
    var fates := if |s.ring| == CAPACITY then DropOldest(s.fates) else s.fates;
    forall g: nat ensures HeldBy(t, g) { PutHeld(s, h, rec, g); }
    SelectDropped(s.pushed, s.fates, Queued);
    SelectDropped(s.pushed, s.fates, Written);
    SelectSnoc(s.pushed, fates, rec, Queued, Queued);
    SelectSnoc(s.pushed, fates, rec, Queued, Written);
    assert Retired(t) == Retired(s);
  }

  lemma {:induction false} DrainHeld(s: State, h: nat, g: nat)
    requires Accounted(s) && h !in s.harts && s.ring != []
    ensures HeldBy(Apply(s, Drain(h)), g)
  {
    assert HeldBy(s, g) && HeldBy(s, h);
    if g == h {
      SelectMoves(s.pushed, s.fates, Queued, Held(h));
    } else {
      SelectOther(s.pushed, s.fates, Queued, Held(h), Held(g));
    }
  }

  lemma {:induction false} DrainAccounted(s: State, h: nat)
    requires Accounted(s) && h !in s.harts && s.ring != []
    ensures Accounted(Apply(s, Drain(h)))
  {
    var t := Apply(s, Drain(h));
    forall g: nat ensures HeldBy(t, g) { DrainHeld(s, h, g); }
    SelectNone(s.pushed, t.fates, Queued);
    SelectOther(s.pushed, s.fates, Queued, Held(h), Written);
    assert Retired(t) == Retired(s);
  }

  lemma {:induction false} StoreHeld(s: State, h: nat, ok: bool, g: nat)
    requires Accounted(s) && h in s.harts && s.harts[h].Holding?
    ensures HeldBy(StoreBatch(s, h, s.harts[h].batch, ok), g)
  {
    assert HeldBy(s, g);
    if g != h {
      SelectOther(s.pushed, s.fates, Held(h), Lost, Held(g));
      SelectOther(s.pushed, s.fates, Held(h), Written, Held(g));
    }
  }

  lemma {:induction false} JoinedThrice(a: seq<Record>, b: seq<Record>, c: seq<Record>)
    ensures a + (b + c) == a + b + c
  {}

  lemma {:induction false} WrittenOnDisk(s: State, h: nat, batch: seq<Record>)
    requires s.file.Some?
    ensures OnDisk(StoreBatch(s, h, batch, true)) == OnDisk(s) + batch
  {
    var f := s.file.value.(records := s.file.value.records + batch);
    DiskIs(s);
    RetiredOnDisk(s.done, f);
    JoinedThrice(Logger.OnDisk(s.done), s.file.value.records, batch);
    assert Retired(StoreBatch(s, h, batch, true)) == s.done + [f];
  }

  lemma {:induction false} StoreOnDisk(s: State, h: nat, batch: seq<Record>, ok: bool)
    ensures OnDisk(StoreBatch(s, h, batch, ok)) == if s.file.Some? && ok then OnDisk(s) + batch else OnDisk(s)
  {
    if s.file.Some? && ok {
      WrittenOnDisk(s, h, batch);
    } else {
      assert Retired(StoreBatch(s, h, batch, ok)) == Retired(s);
    }
  }

  lemma {:induction false} StoreAccounted(s: State, h: nat, ok: bool)
    requires Accounted(s) && h in s.harts && s.harts[h].Holding?
    ensures Accounted(StoreBatch(s, h, s.harts[h].batch, ok))
  {
    var batch := s.harts[h].batch;
    var t := StoreBatch(s, h, batch, ok);
    forall g: nat ensures HeldBy(t, g) { StoreHeld(s, h, ok, g); }
    assert HeldBy(s, h);
    StoreOnDisk(s, h, batch, ok);
    if s.file.Some? && ok {
      SelectOther(s.pushed, s.fates, Held(h), Written, Queued);
      SelectGains(s.pushed, s.fates, Held(h), Written);
    } else {
      SelectOther(s.pushed, s.fates, Held(h), Lost, Queued);
      SelectOther(s.pushed, s.fates, Held(h), Lost, Written);
    }
  }

  lemma {:induction false} FilesAccounted(s: State, t: State)
    requires Accounted(s) && t == s.(file := t.file, done := Retired(s))
    requires t.file.Some? ==> t.file.value.records == []
    ensures Accounted(t) && OnDisk(t) == OnDisk(s)
  {
    DiskIs(t);
    forall h: nat ensures HeldBy(t, h) { assert HeldBy(s, h); }
  }

  lemma {:induction false} HartsAccounted(s: State, t: State)
    requires Accounted(s) && t == s.(active := t.active, harts := t.harts)
    requires forall h: nat :: (h in t.harts && t.harts[h].Holding?) == (h in s.harts && s.harts[h].Holding?)
    requires forall h: nat :: h in s.harts && s.harts[h].Holding? ==> t.harts[h] == s.harts[h]
    ensures Accounted(t) && OnDisk(t) == OnDisk(s)
  {
    forall h: nat ensures HeldBy(t, h) { assert HeldBy(s, h); }
    assert Retired(t) == Retired(s);
  }

  lemma {:induction false} StepAccounted(s: State, step: Step)
    requires Accounted(s)
    ensures Accounted(Apply(s, step))
  {
    match step
    case Test(h, rec) => HartsAccounted(s, Apply(s, step));
    case Put(h) => if h in s.harts && s.harts[h].Pushing? { PutAccounted(s, h, s.harts[h].rec); }
    case Drain(h) => if h !in s.harts && s.ring != [] { DrainAccounted(s, h); }
    case Store(h, ok) => if h in s.harts && s.harts[h].Holding? { StoreAccounted(s, h, ok); }
    case OpenFile(now) => FilesAccounted(s, Apply(s, step));
    case CloseFile => FilesAccounted(s, Apply(s, step));
    case Switch(on) => HartsAccounted(s, Apply(s, step));
  }

  /** In every interleaving every record is accounted for. */
  lemma {:induction false} EveryRecordAccounted(steps: seq<Step>)
    ensures Accounted(Run(steps))
  {
    if steps != [] {
      EveryRecordAccounted(steps[..|steps| - 1]);
      StepAccounted(Run(steps[..|steps| - 1]), steps[|steps| - 1]);
    }
  }

  function Tally(fates: seq<Fate>, p: Fate -> bool): nat
  {
    if fates == [] then 0 else (if p(fates[0]) then 1 else 0) + Tally(fates[1..], p)
  }

  lemma {:induction false} TallyOfSelect(rs: seq<Record>, fates: seq<Fate>, f: Fate)
    requires |rs| == |fates|
    ensures |Select(rs, fates, f)| == Tally(fates, x => x == f)
  {
    if rs != [] { TallyOfSelect(rs[1..], fates[1..], f); }
  }

  lemma {:induction false} TalliesAddUp(fates: seq<Fate>)
    ensures |fates| == Tally(fates, x => x == Queued) + Tally(fates, x => x == Dropped)
                    + Tally(fates, (x: Fate) => x.Held?) + Tally(fates, x => x == Written)
                    + Tally(fates, x => x == Lost)
  {
    if fates != [] { TalliesAddUp(fates[1..]); }
  }

  /** Conservation in every interleaving: pushed = in the ring + dropped + in flight + on disk + lost. */
  lemma {:induction false} Conservation(steps: seq<Step>)
    ensures var s := Run(steps);
            |s.pushed| == |s.ring| + Tally(s.fates, x => x == Dropped) + Tally(s.fates, (x: Fate) => x.Held?)
                        + |OnDisk(s)| + Tally(s.fates, x => x == Lost)
  {
    EveryRecordAccounted(steps);
    var s := Run(steps);
    TalliesAddUp(s.fates);
    TallyOfSelect(s.pushed, s.fates, Queued);
    TallyOfSelect(s.pushed, s.fates, Written);
    assert |OnDisk(s)| == |multiset(OnDisk(s))| == |multiset(Select(s.pushed, s.fates, Written))|;
  }

  // ── Files ──────────────────────────────────────────────────────────────

  /** No file outgrows the threshold by a full batch, the open one is below it, and batches fit the ring. */
  ghost predicate Bounded(s: State)
  {
    && |s.ring| <= CAPACITY
    && (forall h :: h in s.harts && s.harts[h].Holding? ==> |s.harts[h].batch| <= CAPACITY)
    && (forall i :: 0 <= i < |s.done| ==> Size(s.done[i]) < 1_048_576 + 4096)
    && (s.file.Some? ==> Size(s.file.value) < 1_048_576)
  }

  lemma {:induction false} StepBounded(s: State, step: Step)
    requires Bounded(s)
    ensures Bounded(Apply(s, step))
  {}

  /** In every interleaving no file exceeds the threshold by a full batch. */
  lemma {:induction false} FilesBounded(steps: seq<Step>)
    ensures Bounded(Run(steps))
  {
    if steps != [] {
      FilesBounded(steps[..|steps| - 1]);
      StepBounded(Run(steps[..|steps| - 1]), steps[|steps| - 1]);
    }
  }

  predicate StepFits(step: Step)
  {
    match step
    case Test(_, rec) => Fits(rec)
    case OpenFile(now) => now < Pow256(8)
    case _ => true
  }

  /** Everything on its way and on disk has fields of the sizes the format gives them. */
  ghost predicate AllFitting(s: State)
  {
    && AllFit(s.ring)
    && (forall h :: h in s.harts ==> if s.harts[h].Pushing? then Fits(s.harts[h].rec) else AllFit(s.harts[h].batch))
    && (forall i :: 0 <= i < |s.done| ==> FileFits(s.done[i]))
    && (s.file.Some? ==> FileFits(s.file.value))
  }

  lemma {:induction false} StepFitting(s: State, step: Step)
    requires AllFitting(s) && StepFits(step)
    ensures AllFitting(Apply(s, step))
  {
    if step.Store? && step.hart in s.harts && s.harts[step.hart].Holding? {
      StoreFitting(s, step.hart, s.harts[step.hart].batch, step.writeOk);
    }
  }

  lemma {:induction false} StoreFitting(s: State, h: nat, batch: seq<Record>, ok: bool)
    requires AllFitting(s) && AllFit(batch)
    ensures AllFitting(StoreBatch(s, h, batch, ok))
  {}

  lemma {:induction false} RunFitting(steps: seq<Step>)
    requires forall i :: 0 <= i < |steps| ==> StepFits(steps[i])
    ensures AllFitting(Run(steps))
  {
    if steps != [] {
      RunFitting(steps[..|steps| - 1]);
      StepFitting(Run(steps[..|steps| - 1]), steps[|steps| - 1]);
    }
  }

  /** In every interleaving every file reads back as exactly the records written to it. */
  lemma {:induction false} FilesReadBack(steps: seq<Step>, i: nat)
    requires forall j :: 0 <= j < |steps| ==> StepFits(steps[j])
    requires i < |Retired(Run(steps))|
    ensures var f := Retired(Run(steps))[i]; ParseFile(FileBytes(f)) == Some(f)
  {
    RunFitting(steps);
    var f := Retired(Run(steps))[i];
    FileRoundTrip(f, []);
    assert FileBytes(f) + [] == FileBytes(f);
  }

  // ── Order on disk ──────────────────────────────────────────────────────

  /** None of the records the hart holds was pushed before one already written. */
  ghost predicate Behind(fates: seq<Fate>, h: nat)
  {
    fates == [] || ((fates[0] == Held(h) ==> Written !in fates[1..]) && Behind(fates[1..], h))
  }

  lemma {:induction false} SelectBehind(rs: seq<Record>, fates: seq<Fate>, h: nat)
    requires |rs| == |fates| && Behind(fates, h)
    ensures Select(rs, Retag(fates, Held(h), Written), Written)
         == Select(rs, fates, Written) + Select(rs, fates, Held(h))
  {
    if rs != [] {
      RetagCons(fates, Held(h), Written);
      SelectBehind(rs[1..], fates[1..], h);
      if fates[0] == Held(h) { SelectNone(rs[1..], fates[1..], Written); }
    }
  }

  /** The disk holds the written records in the order they were pushed. */
  ghost predicate InOrder(s: State)
    requires |s.fates| == |s.pushed|
  {
    OnDisk(s) == Select(s.pushed, s.fates, Written)
  }

  /** The step writes a batch to disk. */
  predicate Writes(s: State, step: Step)
  {
    step.Store? && step.hart in s.harts && s.harts[step.hart].Holding? && s.file.Some? && step.writeOk
  }

  /** Whenever a batch is written, nothing newer is on disk yet. */
  ghost predicate InTurn(steps: seq<Step>)
  {
    steps == [] ||
    (var front, step := steps[..|steps| - 1], steps[|steps| - 1];
     InTurn(front) && (Writes(Run(front), step) ==> Behind(Run(front).fates, step.hart)))
  }

  lemma {:induction false} PutWritten(s: State, h: nat, rec: Record)
    requires Accounted(s)
    ensures var t := PutRecord(s, h, rec);
            && OnDisk(t) == OnDisk(s) && |t.fates| == |t.pushed|
            && Select(t.pushed, t.fates, Written) == Select(s.pushed, s.fates, Written)
  {
    var fates := if |s.ring| == CAPACITY then DropOldest(s.fates) else s.fates;
    SelectDropped(s.pushed, s.fates, Written);
    SelectSnoc(s.pushed, fates, rec, Queued, Written);
    assert Retired(PutRecord(s, h, rec)) == Retired(s);
  }

  /** A step that writes nothing leaves the disk and the written records as they are. */
  lemma {:induction false} SilentStep(s: State, step: Step)
    requires Accounted(s) && !Writes(s, step)
    ensures var t := Apply(s, step);
            && OnDisk(t) == OnDisk(s) && |t.fates| == |t.pushed|
            && Select(t.pushed, t.fates, Written) == Select(s.pushed, s.fates, Written)
  {
    var t := Apply(s, step);
    match step
    case Test(h, rec) => assert Retired(t) == Retired(s);
    case Put(h) => if h in s.harts && s.harts[h].Pushing? { PutWritten(s, h, s.harts[h].rec); }
    case Drain(h) =>
      SelectOther(s.pushed, s.fates, Queued, Held(h), Written);
      assert Retired(t) == Retired(s);
    case Store(h, ok) =>
      SelectOther(s.pushed, s.fates, Held(h), Lost, Written);
      assert Retired(t) == Retired(s);
    case OpenFile(now) => FilesAccounted(s, t);
    case CloseFile => FilesAccounted(s, t);
    case Switch(on) => assert Retired(t) == Retired(s);
  }

  lemma {:induction false} WritingStep(s: State, step: Step)
    requires Accounted(s) && Writes(s, step)
    ensures var t := Apply(s, step);
            && t.pushed == s.pushed && t.fates == Retag(s.fates, Held(step.hart), Written)
            && OnDisk(t) == OnDisk(s) + Select(s.pushed, s.fates, Held(step.hart))
  {
    assert HeldBy(s, step.hart);
    StoreOnDisk(s, step.hart, s.harts[step.hart].batch, true);
  }

  /** Written in turn, the records are on disk in order. */
  lemma {:induction false} InTurnInOrder(steps: seq<Step>)
    requires InTurn(steps)
    ensures Accounted(Run(steps)) && InOrder(Run(steps))
  {
    EveryRecordAccounted(steps);
    if steps != [] {
      var front, step := steps[..|steps| - 1], steps[|steps| - 1];
      InTurnInOrder(front);
      InTurnStep(Run(front), step);
    }
  }

  lemma {:induction false} InTurnStep(s: State, step: Step)
    requires Accounted(s) && InOrder(s) && (Writes(s, step) ==> Behind(s.fates, step.hart))
    ensures |Apply(s, step).fates| == |Apply(s, step).pushed| && InOrder(Apply(s, step))
  {
    if Writes(s, step) {
      WritingStep(s, step);
      SelectBehind(s.pushed, s.fates, step.hart);
    } else {
      SilentStep(s, step);
    }
  }

  ghost predicate Distinct(rs: seq<Record>)
  {
    forall p, q :: 0 <= p < q < |rs| ==> rs[p] != rs[q]
  }

  /** A record pushed later lies on disk in front of one pushed earlier. */
  ghost predicate SwappedAt(pushed: seq<Record>, disk: seq<Record>, i: nat, j: nat, a: nat, b: nat)
  {
    i < j < |pushed| && a < b < |disk| && disk[a] == pushed[j] && disk[b] == pushed[i]
  }

  ghost predicate Swapped(pushed: seq<Record>, disk: seq<Record>)
  {
    exists i, j, a, b :: SwappedAt(pushed, disk, i, j, a, b)
  }

  lemma {:induction false} SwappedStays(pushed: seq<Record>, disk: seq<Record>, more: seq<Record>, newer: seq<Record>)
    requires Swapped(pushed, disk)
    ensures Swapped(pushed + more, disk + newer)
  {
    var i, j, a, b :| SwappedAt(pushed, disk, i, j, a, b);
    assert SwappedAt(pushed + more, disk + newer, i, j, a, b);
  }

  lemma {:induction false} Selected(rs: seq<Record>, fates: seq<Fate>, i: nat)
    requires |rs| == |fates| && i < |rs|
    ensures rs[i] in Select(rs, fates, fates[i])
  {
    if i > 0 { Selected(rs[1..], fates[1..], i - 1); }
  }

  /** If the hart's batch is not behind what is written, one of its records is older than one written. */
  lemma {:induction false} NotBehind(fates: seq<Fate>, h: nat) returns (i: nat, j: nat)
    requires !Behind(fates, h)
    ensures i < j < |fates| && fates[i] == Held(h) && fates[j] == Written
  {
    if fates[0] == Held(h) && Written in fates[1..] {
      i := 0;
      j :| 0 < j < |fates| && fates[j] == Written;
    } else {
      i, j := NotBehind(fates[1..], h);
      i, j := i + 1, j + 1;
    }
  }

  /** A batch written out of turn puts a newer record in front of an older one. */
  lemma {:induction false} OutOfTurn(s: State, step: Step)
    requires Accounted(s) && Writes(s, step) && !Behind(s.fates, step.hart)
    ensures Swapped(Apply(s, step).pushed, OnDisk(Apply(s, step)))
  {
    var i, j := NotBehind(s.fates, step.hart);
    var disk, batch := OnDisk(s), Select(s.pushed, s.fates, Held(step.hart));
    Selected(s.pushed, s.fates, i);
    Selected(s.pushed, s.fates, j);
    WritingStep(s, step);
    assert s.pushed[j] in multiset(Select(s.pushed, s.fates, Written));
    assert s.pushed[j] in multiset(disk);
    var a: nat :| a < |disk| && disk[a] == s.pushed[j];
    var b: nat :| b < |batch| && batch[b] == s.pushed[i];
    assert SwappedAt(s.pushed, disk + batch, i, j, a, |disk| + b);
  }

  /** Pushed and written records are only ever appended to. */
  lemma {:induction false} Appends(s: State, step: Step) returns (more: seq<Record>, newer: seq<Record>)
    requires Accounted(s)
    ensures Apply(s, step).pushed == s.pushed + more && OnDisk(Apply(s, step)) == OnDisk(s) + newer
  {
    more := PushedBy(s, step);
    if Writes(s, step) {
      WritingStep(s, step);
      newer := Select(s.pushed, s.fates, Held(step.hart));
    } else {
      SilentStep(s, step);
      newer := [];
    }
  }

  lemma {:induction false} PushedBy(s: State, step: Step) returns (more: seq<Record>)
    ensures Apply(s, step).pushed == s.pushed + more
  {
    more := if step.Put? && step.hart in s.harts && s.harts[step.hart].Pushing? then [s.harts[step.hart].rec] else [];
  }

  lemma {:induction false} InTurnOrSwapped(steps: seq<Step>)
    ensures InTurn(steps) || Swapped(Run(steps).pushed, OnDisk(Run(steps)))
  {
    if steps != [] {
      var front, step := steps[..|steps| - 1], steps[|steps| - 1];
      var s := Run(front);
      InTurnOrSwapped(front);
      EveryRecordAccounted(front);
      if !InTurn(front) {
        var more, newer := Appends(s, step);
        SwappedStays(s.pushed, OnDisk(s), more, newer);
      } else if Writes(s, step) && !Behind(s.fates, step.hart) {
        OutOfTurn(s, step);
      }
    }
  }

  /** Selecting keeps the order: where the selected records come from. */
  lemma {:induction false} SelectedFrom(rs: seq<Record>, fates: seq<Fate>, f: Fate, a: nat, b: nat)
    returns (p: nat, q: nat)
    requires |rs| == |fates| && a < b < |Select(rs, fates, f)|
    ensures p < q < |rs| && rs[p] == Select(rs, fates, f)[a] && rs[q] == Select(rs, fates, f)[b]
  {
    if fates[0] != f {
      p, q := SelectedFrom(rs[1..], fates[1..], f, a, b);
      p, q := p + 1, q + 1;
    } else if a > 0 {
      p, q := SelectedFrom(rs[1..], fates[1..], f, a - 1, b - 1);
      p, q := p + 1, q + 1;
    } else {
      p := 0;
      q := SelectedAt(rs[1..], fates[1..], f, b - 1);
      q := q + 1;
    }
  }

  lemma {:induction false} SelectedAt(rs: seq<Record>, fates: seq<Fate>, f: Fate, a: nat) returns (p: nat)
    requires |rs| == |fates| && a < |Select(rs, fates, f)|
    ensures p < |rs| && rs[p] == Select(rs, fates, f)[a]
  {
    if fates[0] == f && a == 0 {
      p := 0;
    } else {
      p := SelectedAt(rs[1..], fates[1..], f, if fates[0] == f then a - 1 else a);
      p := p + 1;
    }
  }

  lemma {:induction false} SelectNeverSwaps(rs: seq<Record>, fates: seq<Fate>, f: Fate)
    requires |rs| == |fates| && Distinct(rs)
    ensures !Swapped(rs, Select(rs, fates, f))
  {
    forall i: nat, j: nat, a: nat, b: nat ensures !SwappedAt(rs, Select(rs, fates, f), i, j, a, b) {
      if a < b < |Select(rs, fates, f)| {
        var p, q := SelectedFrom(rs, fates, f, a, b);
        SameIndex(rs, p, j);
        SameIndex(rs, q, i);
      }
    }
  }

  lemma {:induction false} SameIndex(rs: seq<Record>, p: nat, q: nat)
    requires Distinct(rs) && p < |rs|
    ensures q < |rs| && rs[p] == rs[q] ==> p == q
  {}

  /**
    The disk is in order exactly when every batch was written in turn, with nothing newer on disk
    yet; for records that can be told apart.
    */
  lemma {:induction false} InOrderIff(steps: seq<Step>)
    requires Distinct(Run(steps).pushed)
    ensures |Run(steps).fates| == |Run(steps).pushed| && (InOrder(Run(steps)) <==> InTurn(steps))
  {
    var s := Run(steps);
    EveryRecordAccounted(steps);
    if InTurn(steps) {
      InTurnInOrder(steps);
    } else {
      InTurnOrSwapped(steps);
      SelectNeverSwaps(s.pushed, s.fates, Written);
    }
  }

  ghost predicate NoneHolding(s: State)
  {
    forall h :: h in s.harts ==> !s.harts[h].Holding?
  }

  /** No flush drains the ring while another still has its batch to write. */
  ghost predicate NoOverlap(steps: seq<Step>)
  {
    steps == [] ||
    (NoOverlap(steps[..|steps| - 1])
     && (steps[|steps| - 1].Drain? ==> NoneHolding(Run(steps[..|steps| - 1]))))
  }

  /** Older records are further on their way: written before held, held before queued. */
  ghost predicate InLine(fates: seq<Fate>)
  {
    && (forall i, j :: 0 <= i < j < |fates| && fates[i] == Queued ==> !fates[j].Held? && fates[j] != Written)
    && (forall i, j :: 0 <= i < j < |fates| && fates[i].Held? ==> fates[j] != Written)
  }

  ghost predicate OneHolder(fates: seq<Fate>)
  {
    forall i, j :: 0 <= i < |fates| && 0 <= j < |fates| && fates[i].Held? && fates[j].Held? ==> fates[i] == fates[j]
  }

  lemma {:induction false} DropInLine(fates: seq<Fate>)
    requires InLine(fates) && OneHolder(fates)
    ensures InLine(DropOldest(fates)) && OneHolder(DropOldest(fates))
  {
    DropOldestAt(fates);
  }

  lemma {:induction false} DropOldestAt(fates: seq<Fate>)
    ensures forall i :: 0 <= i < |fates| ==>
              DropOldest(fates)[i] == fates[i] || (DropOldest(fates)[i] == Dropped && fates[i] == Queued)
  {
    if fates != [] && fates[0] != Queued {
      DropOldestAt(fates[1..]);
      assert DropOldest(fates)[1..] == DropOldest(fates[1..]);
    }
  }

  lemma {:induction false} PutInLine(fates: seq<Fate>)
    requires InLine(fates) && OneHolder(fates)
    ensures InLine(fates + [Queued]) && OneHolder(fates + [Queued])
  {}

  lemma {:induction false} DrainInLine(fates: seq<Fate>, h: nat)
    requires InLine(fates) && forall i :: 0 <= i < |fates| ==> !fates[i].Held?
    ensures InLine(Retag(fates, Queued, Held(h))) && OneHolder(Retag(fates, Queued, Held(h)))
  {}

  lemma {:induction false} StoreInLine(fates: seq<Fate>, h: nat, f: Fate)
    requires InLine(fates) && OneHolder(fates) && (f == Written || f == Lost)
    ensures InLine(Retag(fates, Held(h), f)) && OneHolder(Retag(fates, Held(h), f))
  {}

  lemma {:induction false} InLineBehind(fates: seq<Fate>, h: nat)
    requires InLine(fates)
    ensures Behind(fates, h)
  {
    if fates != [] {
      assert InLine(fates[1..]);
      InLineBehind(fates[1..], h);
    }
  }

  ghost predicate Lined(s: State)
  {
    Accounted(s) && InLine(s.fates) && OneHolder(s.fates)
  }

  lemma {:induction false} PutLined(s: State, h: nat, rec: Record)
    requires Lined(s) && h in s.harts && s.harts[h] == Pushing(rec)
    ensures Lined(PutRecord(s, h, rec))
  {
    PutAccounted(s, h, rec);
    DropInLine(s.fates);
    PutInLine(if |s.ring| == CAPACITY then DropOldest(s.fates) else s.fates);
  }

  lemma {:induction false} NoneHeld(s: State)
    requires Accounted(s) && NoneHolding(s)
    ensures forall i :: 0 <= i < |s.fates| ==> !s.fates[i].Held?
  {
    forall i | 0 <= i < |s.fates| ensures !s.fates[i].Held? {
      assert HeldBy(s, if s.fates[i].Held? then s.fates[i].hart else 0);
    }
  }

  lemma {:induction false} StepLined(s: State, step: Step)
    requires Lined(s) && (step.Drain? ==> NoneHolding(s))
    ensures Lined(Apply(s, step))
  {
    StepAccounted(s, step);
    match step
    case Test(h, rec) =>
    case Put(h) => if h in s.harts && s.harts[h].Pushing? { PutLined(s, h, s.harts[h].rec); }
    case Drain(h) =>
      NoneHeld(s);
      DrainInLine(s.fates, h);
    case Store(h, ok) =>
      StoreInLine(s.fates, h, Written);
      StoreInLine(s.fates, h, Lost);
    case OpenFile(now) =>
    case CloseFile =>
    case Switch(on) =>
  }

  /** Flushes that do not overlap write in turn. */
  lemma {:induction false} NoOverlapInTurn(steps: seq<Step>)
    requires NoOverlap(steps)
    ensures Lined(Run(steps)) && InTurn(steps)
  {
    if steps != [] {
      var front, step := steps[..|steps| - 1], steps[|steps| - 1];
      NoOverlapInTurn(front);
      StepLined(Run(front), step);
      if Writes(Run(front), step) { InLineBehind(Run(front).fates, step.hart); }
    }
  }

  /** While no two flushes overlap, the disk holds the written records in the order they were pushed. */
  lemma {:induction false} DiskInOrder(steps: seq<Step>)
    requires NoOverlap(steps)
    ensures Accounted(Run(steps)) && InOrder(Run(steps))
  {
    NoOverlapInTurn(steps);
    InTurnInOrder(steps);
  }

  // ── One hart alone ─────────────────────────────────────────────────────

  /** `logger_flush` of one hart with nothing in between. */
  function FlushAlone(s: State, h: nat, disk: Logger.Disk): State
  {
    var t := Apply(Apply(s, Drain(h)), Store(h, disk.writeOk));
    if |t.done| > |s.done| && disk.openOk then Apply(t, OpenFile(disk.now)) else t
  }

  /** An operation of the logger as the steps one hart makes of it, with nothing in between. */
  function Alone(s: State, h: nat, e: Logger.Event): State
  {
    match e
    case Starting(d) => if s.active || !d.openOk then s else Apply(Apply(s, OpenFile(d.now)), Switch(true))
    case Logging(rec) => Apply(Apply(s, Test(h, rec)), Put(h))
    case Flushing(d) => FlushAlone(s, h, d)
    case Ticking(d) => if s.active && |s.ring| >= Logger.WATERMARK then FlushAlone(s, h, d) else s
    case Stopping(d) => if s.active then Apply(FlushAlone(Apply(s, Switch(false)), h, d), CloseFile) else s
  }

  ghost predicate SameAs(s: State, l: Logger.State)
  {
    s.ring == l.ring && s.active == l.active && s.file == l.file && s.done == l.closed
  }

  lemma {:induction false} FlushAloneIsFlush(s: State, h: nat, disk: Logger.Disk, l: Logger.State)
    requires SameAs(s, l) && h !in s.harts
    ensures SameAs(FlushAlone(s, h, disk), Logger.Flush(l, disk)) && FlushAlone(s, h, disk).harts == s.harts
  {
    var t := Apply(Apply(s, Drain(h)), Store(h, disk.writeOk));
    assert t.harts == s.harts;
  }

  /** Steps that are not interleaved make the sequential logger. */
  lemma {:induction false} AloneIsSequential(s: State, h: nat, e: Logger.Event, l: Logger.State)
    requires SameAs(s, l) && h !in s.harts && |s.ring| <= CAPACITY && (!s.active ==> s.file.None?)
    ensures SameAs(Alone(s, h, e), Logger.Step(l, e)) && Alone(s, h, e).harts == s.harts
  {
    match e
    case Starting(d) =>
    case Logging(rec) => assert Alone(s, h, e).harts == s.harts;
    case Flushing(d) => FlushAloneIsFlush(s, h, d, l);
    case Ticking(d) => FlushAloneIsFlush(s, h, d, l);
    case Stopping(d) => FlushAloneIsFlush(Apply(s, Switch(false)), h, d, l.(active := false));
  }

  // ── What interleaving breaks ───────────────────────────────────────────

  lemma {:induction false} RunSnoc(steps: seq<Step>, step: Step)
    ensures Run(steps + [step]) == Apply(Run(steps), step)
  {
    assert (steps + [step])[..|steps|] == steps;
  }

  /** After any run, a push that tests the flag before a shutdown leaves its record in the inactive logger's ring. */
  lemma {:induction false} QueuedAfterStop(steps: seq<Step>, h: nat, rec: Record)
    requires Run(steps).active && Run(steps).ring == [] && h !in Run(steps).harts
    ensures var s := Run(steps + [Test(h, rec)] + [Switch(false)] + [Put(h)]); !s.active && s.ring == [rec]
  {
    var a, b := steps + [Test(h, rec)], steps + [Test(h, rec)] + [Switch(false)];
    RunSnoc(steps, Test(h, rec));
    RunSnoc(a, Switch(false));
    assert Run(b).ring == [] && Run(b).harts[h] == Pushing(rec);
    RunSnoc(b, Put(h));
  }

  /** Some hart has passed the active test of a push and has still to put its record. */
  ghost predicate MidPush(s: State)
  {
    exists h :: h in s.harts && s.harts[h].Pushing?
  }

  ghost predicate NeverOn(more: seq<Step>)
  {
    forall i :: 0 <= i < |more| ==> more[i] != Switch(true)
  }

  ghost predicate Idle(s: State)
  {
    !s.active && !MidPush(s)
  }

  lemma {:induction false} IdleStep(s: State, step: Step)
    requires Idle(s) && step != Switch(true)
    ensures Idle(Apply(s, step)) && Apply(s, step).pushed == s.pushed
    ensures s.ring == [] ==> Apply(s, step).ring == []
  {}

  lemma {:induction false} IdleStays(steps: seq<Step>, more: seq<Step>)
    requires Idle(Run(steps)) && NeverOn(more)
    ensures Idle(Run(steps + more)) && Run(steps + more).pushed == Run(steps).pushed
    ensures Run(steps).ring == [] ==> Run(steps + more).ring == []
  {
    if more == [] {
      assert steps + more == steps;
    } else {
      var front, step := more[..|more| - 1], more[|more| - 1];
      IdleStays(steps, front);
      IdleStep(Run(steps + front), step);
      RunSnoc(steps + front, step);
      assert steps + more == steps + front + [step];
    }
  }

  /** Records enter the ring of an inactive logger before it is switched on again. */
  ghost predicate PushedInactive(steps: seq<Step>, more: seq<Step>)
  {
    NeverOn(more) && |Run(steps + more).pushed| > |Run(steps).pushed|
  }

  ghost predicate QueuedInactive(steps: seq<Step>, more: seq<Step>)
  {
    NeverOn(more) && Run(steps + more).ring != []
  }

  lemma {:induction false} PutsInactive(steps: seq<Step>, h: nat)
    requires h in Run(steps).harts && Run(steps).harts[h].Pushing?
    ensures PushedInactive(steps, [Put(h)]) && QueuedInactive(steps, [Put(h)])
  {
    RunSnoc(steps, Put(h));
  }

  /** That can happen, on some schedule, exactly when a hart was mid-push when the logger was switched off. */
  lemma {:induction false} PushedInactiveIff(steps: seq<Step>)
    requires !Run(steps).active
    ensures (exists more :: PushedInactive(steps, more)) <==> MidPush(Run(steps))
  {
    if MidPush(Run(steps)) {
      var h :| h in Run(steps).harts && Run(steps).harts[h].Pushing?;
      PutsInactive(steps, h);
    } else {
      forall more ensures !PushedInactive(steps, more) {
        if NeverOn(more) { IdleStays(steps, more); }
      }
    }
  }

  /** So a ring that shutdown left empty stays empty exactly when no hart was mid-push. */
  lemma {:induction false} QueuedInactiveIff(steps: seq<Step>)
    requires !Run(steps).active && Run(steps).ring == []
    ensures (exists more :: QueuedInactive(steps, more)) <==> MidPush(Run(steps))
  {
    if MidPush(Run(steps)) {
      var h :| h in Run(steps).harts && Run(steps).harts[h].Pushing?;
      PutsInactive(steps, h);
    } else {
      forall more ensures !QueuedInactive(steps, more) {
        if NeverOn(more) { IdleStays(steps, more); }
      }
    }
  }

  /** Hart `h` logs a record and drains the ring. */
  function Drains(h: nat, rec: Record): seq<Step>
  {
    [Test(h, rec)] + [Put(h)] + [Drain(h)]
  }

  lemma {:induction false} RunDrains(steps: seq<Step>, h: nat, rec: Record)
    requires Run(steps).active && Run(steps).ring == [] && h !in Run(steps).harts
    ensures var s, t := Run(steps), Run(steps + Drains(h, rec));
            && t.active && t.ring == [] && t.harts == s.harts[h := Holding([rec])]
            && t.pushed == s.pushed + [rec] && t.file == s.file && t.done == s.done
  {
    var s, a, b := Run(steps), steps + [Test(h, rec)], steps + [Test(h, rec)] + [Put(h)];
    RunSnoc(steps, Test(h, rec));
    RunSnoc(a, Put(h));
    RunSnoc(b, Drain(h));
    assert Run(b).ring == [rec];
    assert Run(b + [Drain(h)]).harts == s.harts[h := Holding([rec])];
    assert steps + Drains(h, rec) == b + [Drain(h)];
  }

  /** Two flushes under way at once, the one that drained first with the older record. */
  function Overlapping(r: Record, q: Record): seq<Step>
  {
    [] + [OpenFile(0)] + [Switch(true)] + Drains(0, r) + Drains(1, q)
  }

  lemma {:induction false} BothHold(r: Record, q: Record)
    ensures var s := Run(Overlapping(r, q));
            && s.harts == map[0 := Holding([r]), 1 := Holding([q])] && s.pushed == [r, q]
            && s.file == Some(LogFile(0, [])) && s.done == []
  {
    var a := [] + [OpenFile(0)] + [Switch(true)];
    RunSnoc([], OpenFile(0));
    RunSnoc([] + [OpenFile(0)], Switch(true));
    RunDrains(a, 0, r);
    RunDrains(a + Drains(0, r), 1, q);
  }

  lemma {:induction false} StoreOne(steps: seq<Step>, h: nat)
    requires var s := Run(steps);
             && h in s.harts && s.harts[h].Holding? && s.file.Some?
             && Size(s.file.value) + RECORD_SIZE * |s.harts[h].batch| < 4096
    ensures var s, t := Run(steps), Run(steps + [Store(h, true)]);
            && t.harts == s.harts - {h} && t.pushed == s.pushed && t.file.Some? && t.done == s.done
            && t.file.value.records == s.file.value.records + s.harts[h].batch
  {
    RunSnoc(steps, Store(h, true));
  }

  /** If the later one writes first, the newer record comes to lie in front of the older one. */
  lemma {:induction false} OverlapReorders(r: Record, q: Record)
    ensures var s := Run(Overlapping(r, q) + [Store(1, true)] + [Store(0, true)]);
            s.pushed == [r, q] && OnDisk(s) == [q, r]
  {
    BothHold(r, q);
    StoreOne(Overlapping(r, q), 1);
    StoreOne(Overlapping(r, q) + [Store(1, true)], 0);
    DiskIs(Run(Overlapping(r, q) + [Store(1, true)] + [Store(0, true)]));
  }
}
