/** Records of one fixed size written back to back. */
module FixedRecords {
  import opened Bytes

  function Joined<R(!new)>(enc: R -> Bytes, rs: seq<R>): Bytes
  {
    if rs == [] then [] else enc(rs[0]) + Joined(enc, rs[1..])
  }

  /** Whole records read from the front; a torn tail is ignored. */
  function Split<R(!new)>(dec: Bytes -> R, size: nat, b: Bytes): seq<R>
    requires size > 0
  {
    if |b| < size then [] else [dec(b[..size])] + Split(dec, size, b[size..])
  }

  ghost predicate Faithful<R(!new)>(enc: R -> Bytes, dec: Bytes -> R, size: nat, rs: seq<R>)
  {
    forall i :: 0 <= i < |rs| ==> |enc(rs[i])| == size && dec(enc(rs[i])) == rs[i]
  }

  lemma {:induction false} JoinedSize<R(!new)>(enc: R -> Bytes, dec: Bytes -> R, size: nat, rs: seq<R>)
    requires Faithful(enc, dec, size, rs)
    ensures |Joined(enc, rs)| == size * |rs|
  {
    if rs != [] {
      JoinedSize(enc, dec, size, rs[1..]);
      assert size * |rs| == size * (|rs| - 1) + size;
    }
  }

  lemma {:induction false} JoinedAppend<R(!new)>(enc: R -> Bytes, a: seq<R>, b: seq<R>)
    ensures Joined(enc, a + b) == Joined(enc, a) + Joined(enc, b)
  {
    if a == [] {
      assert a + b == b;
    } else {
      JoinedAppend(enc, a[1..], b);
      assert (a + b)[1..] == a[1..] + b;
    }
  }

  lemma {:induction false} JoinedSnoc<R(!new)>(enc: R -> Bytes, a: seq<R>, x: R)
    ensures Joined(enc, a + [x]) == Joined(enc, a) + enc(x)
  {
    JoinedAppend(enc, a, [x]);
    assert [x][1..] == [];
    assert Joined(enc, [x]) == enc(x) + Joined(enc, []) == enc(x);
  }

  lemma {:induction false} SplitOfJoined<R(!new)>(enc: R -> Bytes, dec: Bytes -> R, size: nat, rs: seq<R>, tail: Bytes)
    requires size > 0 && Faithful(enc, dec, size, rs) && |tail| < size
    ensures Split(dec, size, Joined(enc, rs) + tail) == rs
  {
    if rs == [] {
      assert Joined(enc, rs) + tail == tail;
    } else {
      SplitOfJoined(enc, dec, size, rs[1..], tail);
      var b := Joined(enc, rs) + tail;
      assert b[..size] == enc(rs[0]) && b[size..] == Joined(enc, rs[1..]) + tail;
    }
  }
}

/** Mission log records on disk: 32 bytes each behind a 16-byte file header. */
module LogFormat {
  import opened Bitwise
  import opened Bytes
  import opened FixedRecords

  const RECORD_SIZE := 32
  const PAYLOAD_BYTES := 20
  const HEADER_BYTES := 16
  const VERSION := 1

  /** "RBL1". */
  const MAGIC: Bytes := [
    Byte(false, true, false, true, false, false, true, false),
    Byte(false, true, false, false, false, false, true, false),
    Byte(false, true, false, false, true, true, false, false),
    Byte(false, false, true, true, false, false, false, true)]

  datatype Record = Record(ts: nat, kind: Byte, flags: Byte, payload: Bytes)

  /** The widths of the fields. */
  predicate Fits(r: Record)
  {
    r.ts < Pow256(8) && |r.payload| == PAYLOAD_BYTES
  }

  function Zeroed(): Record
  {
    Record(0, ZERO, ZERO, seq(PAYLOAD_BYTES, _ => ZERO))
  }

  function Encode(r: Record): Bytes
  {
    ToLe(r.ts, 8) + [r.kind, r.flags, ZERO, ZERO] + r.payload
  }

  function Decode(b: Bytes): Record
  {
    if |b| != RECORD_SIZE then Zeroed() else Record(LeValue(b[..8]), b[8], b[9], b[12..32])
  }

  lemma {:induction false} RecordRoundTrip(r: Record)
    requires Fits(r)
    ensures |Encode(r)| == RECORD_SIZE && Decode(Encode(r)) == r
  {
    var b := Encode(r);
    assert b[..8] == ToLe(r.ts, 8) && b[12..32] == r.payload;
    LeRoundTrip(r.ts, 8);
  }

  predicate AllFit(rs: seq<Record>)
  {
    forall i :: 0 <= i < |rs| ==> Fits(rs[i])
  }

  function EncodeAll(rs: seq<Record>): Bytes
  {
    Joined(Encode, rs)
  }

  function DecodeAll(b: Bytes): seq<Record>
  {
    Split(Decode, RECORD_SIZE, b)
  }

  lemma {:induction false} FitIsFaithful(rs: seq<Record>)
    requires AllFit(rs)
    ensures Faithful(Encode, Decode, RECORD_SIZE, rs)
  {
    forall i | 0 <= i < |rs| ensures |Encode(rs[i])| == RECORD_SIZE && Decode(Encode(rs[i])) == rs[i] {
      RecordRoundTrip(rs[i]);
    }
  }

  lemma {:induction false} EncodedSize(rs: seq<Record>)
    requires AllFit(rs)
    ensures |EncodeAll(rs)| == RECORD_SIZE * |rs|
  {
    FitIsFaithful(rs);
    JoinedSize(Encode, Decode, RECORD_SIZE, rs);
  }

  /** A log file: when it was opened and what it holds. */
  datatype LogFile = LogFile(openTs: nat, records: seq<Record>)

  function Header(ts: nat): (h: Bytes)
    ensures |h| == HEADER_BYTES
  {
    MAGIC + ToLe(VERSION, 2) + ToLe(0, 2) + ToLe(ts, 8)
  }

  function FileBytes(f: LogFile): Bytes
  {
    Header(f.openTs) + EncodeAll(f.records)
  }

  function Size(f: LogFile): nat
  {
    HEADER_BYTES + RECORD_SIZE * |f.records|
  }

  function ParseFile(b: Bytes): Option<LogFile>
  {
    if |b| < HEADER_BYTES || b[..4] != MAGIC || LeValue(b[4..6]) != VERSION then None
    else Some(LogFile(LeValue(b[8..16]), DecodeAll(b[HEADER_BYTES..])))
  }

  lemma {:induction false} HeaderParts(ts: nat, body: Bytes)
    ensures var b := Header(ts) + body;
            && b[..4] == MAGIC && b[4..6] == ToLe(VERSION, 2) && b[8..16] == ToLe(ts, 8)
            && b[HEADER_BYTES..] == body
  {}

  lemma {:induction false} HeaderValues(ts: nat)
    requires ts < Pow256(8)
    ensures LeValue(ToLe(VERSION, 2)) == VERSION && LeValue(ToLe(ts, 8)) == ts
  {
    assert Pow256(2) == 65536;
    LeRoundTrip(VERSION, 2);
    LeRoundTrip(ts, 8);
  }

  lemma {:induction false} ParseOfHeader(ts: nat, body: Bytes)
    requires ts < Pow256(8)
    ensures ParseFile(Header(ts) + body) == Some(LogFile(ts, DecodeAll(body)))
  {
    HeaderParts(ts, body);
    HeaderValues(ts);
  }

  predicate FileFits(f: LogFile)
  {
    f.openTs < Pow256(8) && AllFit(f.records)
  }

  /** A log file reads back as exactly the records written, even with a torn record behind them. */
  lemma {:induction false} FileRoundTrip(f: LogFile, tail: Bytes)
    requires FileFits(f) && |tail| < RECORD_SIZE
    ensures |FileBytes(f)| == Size(f) && ParseFile(FileBytes(f) + tail) == Some(f)
  {
    EncodedSize(f.records);
    var body := EncodeAll(f.records) + tail;
    assert FileBytes(f) + tail == Header(f.openTs) + body;
    ParseOfHeader(f.openTs, body);
    FitIsFaithful(f.records);
    SplitOfJoined(Encode, Decode, RECORD_SIZE, f.records, tail);
  }

  lemma {:induction false} FileAppend(f: LogFile, batch: seq<Record>)
    ensures FileBytes(f.(records := f.records + batch)) == FileBytes(f) + EncodeAll(batch)
  {
    JoinedAppend(Encode, f.records, batch);
  }
}

/** The in-memory ring of the newest 128 records. */
module LogRing {
  import opened LogFormat

  const CAPACITY := 128

  /** Index `i` places after `tail`. */
  function Wrap(tail: nat, i: nat): nat
  {
    if tail + i < CAPACITY then tail + i else tail + i - CAPACITY
  }

  function Next(i: nat): (n: nat)
    requires i < CAPACITY
    ensures n == Wrap(i, 1) && n < CAPACITY
  {
    (i + 1) % CAPACITY
  }

  lemma {:induction false} TakeOne(s: seq<Record>, i: nat)
    requires i < |s|
    ensures s[i..][0] == s[i] && s[i..][1..] == s[i + 1..] && s[..i] + [s[i]] == s[..i + 1]
  {}

  class Ring {
    const records: array<Record>
    var head: nat
    var tail: nat
    var count: nat

    ghost predicate Valid()
      reads this, records
    {
      records.Length == CAPACITY && tail < CAPACITY && count <= CAPACITY && head == Wrap(tail, count)
    }

    /** Oldest first. */
    ghost function Contents(): (s: seq<Record>)
      requires Valid()
      reads this, records
      ensures |s| == count
    {
      if tail + count <= CAPACITY then records[tail..tail + count]
      else records[tail..] + records[..tail + count - CAPACITY]
    }

    constructor ()
      ensures Valid() && Contents() == [] && fresh(records)
    {
      records := new Record[CAPACITY](_ => Zeroed());
      head, tail, count := 0, 0, 0;
    }

    /** Takes the oldest record. */
    method Pop() returns (rec: Record)
      requires Valid() && count > 0
      modifies this
      ensures Valid() && rec == old(Contents())[0] && Contents() == old(Contents())[1..]
    {
      rec := records[tail];
      tail := Next(tail);
      count := count - 1;
    }

    /** Stores a record at the head of a ring that is not full. */
    method Put(rec: Record)
      requires Valid() && count < CAPACITY
      modifies this, records
      ensures Valid() && Contents() == old(Contents()) + [rec]
    {
      records[head] := rec;
      head := Next(head);
      count := count + 1;
    }

    /** A full ring drops its oldest record. */
    method Push(rec: Record) returns (accepted: bool)
      requires Valid()
      modifies this, records
      ensures Valid()
      ensures accepted <==> |old(Contents())| < CAPACITY
      ensures Contents() == (if accepted then old(Contents()) else old(Contents())[1..]) + [rec]
    {
      var overflowed := count == CAPACITY;
      if overflowed {
        var _ := Pop();
      }
      Put(rec);
      accepted := !overflowed;
    }

    /** Moves the oldest record to `out[i]`. */
    method MoveOne(out: array<Record>, i: nat, ghost n: nat)
      requires Valid() && count > 0 && out != records && i < n <= out.Length
      modifies this, out
      ensures Valid() && Contents() == old(Contents())[1..]
      ensures out[..i + 1] == old(out[..i]) + [old(Contents())[0]] && out[n..] == old(out[n..])
    {
      out[i] := Pop();
    }

    /** Moves the oldest records, as many as fit, to `out`. */
    method DrainInto(out: array<Record>) returns (n: nat)
      requires Valid() && out != records
      modifies this, out
      ensures Valid()
      ensures n == (if |old(Contents())| < out.Length then |old(Contents())| else out.Length)
      ensures out[..n] == old(Contents())[..n] && out[n..] == old(out[n..])
      ensures Contents() == old(Contents())[n..]
    {
      n := if count < out.Length then count else out.Length;
      ghost var was := Contents();
      var i := 0;
      while i < n
        invariant i <= n <= out.Length && n <= |was| && Valid() && Contents() == was[i..]
        invariant out[..i] == was[..i] && out[n..] == old(out[n..])
      {
        TakeOne(was, i);
        MoveOne(out, i, n);
        i := i + 1;
      }
    }
  }
}

/** The logger: events into the ring, flushes to the open file, rotation at one mebibyte. */
module Logger {
  import opened Bytes
  import opened FixedRecords
  import opened Integers
  import opened LogFormat
  import opened LogRing

  const ROTATE_BYTES := 1024 * 1024
  const WATERMARK := CAPACITY / 2

  /** `closed` holds the finished files, oldest first. */
  datatype State = State(ring: seq<Record>, active: bool, file: Option<LogFile>, closed: seq<LogFile>,
                         dropped: nat, errors: nat)

  /** What the storage does when asked: whether a write and an open succeed, and the time. */
  datatype Disk = Disk(writeOk: bool, openOk: bool, now: nat)

  const INITIAL := State([], false, None, [], 0, 0)

  function Open(disk: Disk): Option<LogFile>
  {
    if disk.openOk then Some(LogFile(disk.now, [])) else None
  }

  function Start(s: State, disk: Disk): State
  {
    if s.active || !disk.openOk then s else s.(active := true, file := Open(disk))
  }

  function Log(s: State, rec: Record): State
  {
    if !s.active then s
    else if |s.ring| < CAPACITY then s.(ring := s.ring + [rec])
    else s.(ring := s.ring[1..] + [rec], dropped := Increment(s.dropped))
  }

  /** The open file after a batch: rotated once it has reached the threshold. */
  function Appended(s: State, f: LogFile, disk: Disk): State
  {
    if Size(f) >= ROTATE_BYTES then s.(ring := [], closed := s.closed + [f], file := Open(disk))
    else s.(ring := [], file := Some(f))
  }

  function Flush(s: State, disk: Disk): State
  {
    if s.ring == [] then s
    else if s.file.None? || !disk.writeOk then s.(ring := [], errors := Increment(s.errors))
    else Appended(s, s.file.value.(records := s.file.value.records + s.ring), disk)
  }

  function Tick(s: State, disk: Disk): State
  {
    if s.active && |s.ring| >= WATERMARK then Flush(s, disk) else s
  }

  function Shutdown(s: State, disk: Disk): State
  {
    if !s.active then s
    else
      var t := Flush(s.(active := false), disk);
      if t.file.Some? then t.(file := None, closed := t.closed + [t.file.value]) else t
  }

  class MissionLogger {
    const ring: Ring
    var active: bool
    /** The bytes of the open file. */
    var content: Option<Bytes>
    var bytesWritten: nat
    var archive: seq<Bytes>
    var dropped: nat
    var errors: nat
    /** What the files hold. */
    ghost var file: Option<LogFile>
    ghost var closed: seq<LogFile>

    ghost predicate Valid()
      reads this, ring, ring.records
    {
      ring.Valid() && AllFit(ring.Contents()) && FilesValid()
    }

    /** The bytes of every file are those of its records. */
    ghost predicate FilesValid()
      reads this
    {
      && (file.Some? <==> content.Some?)
      && (file.Some? ==> content.value == FileBytes(file.value) && bytesWritten == Size(file.value))
      && |archive| == |closed| && (forall i :: 0 <= i < |archive| ==> archive[i] == FileBytes(closed[i]))
    }

    ghost function Current(): State
      requires Valid()
      reads this, ring, ring.records
    {
      State(ring.Contents(), active, file, closed, dropped, errors)
    }

    constructor ()
      ensures Valid() && Current() == INITIAL && fresh(ring) && fresh(ring.records)
    {
      ring := new Ring();
      active, content, bytesWritten, archive, dropped, errors := false, None, 0, [], 0, 0;
      file, closed := None, [];
    }

    method OpenLogFile(disk: Disk) returns (ok: bool)
      requires FilesValid()
      modifies this`content, this`bytesWritten, this`file
      ensures FilesValid() && ok == disk.openOk
      ensures file == if ok then Open(disk) else old(file)
    {
      if !disk.openOk { return false; }
      content := Some(Header(disk.now));
      bytesWritten := HEADER_BYTES;
      file := Some(LogFile(disk.now, []));
      assert FileBytes(file.value) == Header(disk.now);
      return true;
    }

    method Init(disk: Disk)
      requires Valid()
      modifies this
      ensures Valid() && Current() == Start(old(Current()), disk)
    {
      if active { return; }
      var ok := OpenLogFile(disk);
      if ok { active := true; }
    }

    method PushEvent(rec: Record)
      requires Valid() && Fits(rec)
      modifies this`dropped, ring, ring.records
      ensures Valid() && Current() == Log(old(Current()), rec)
    {
      if !active { return; }
      var accepted := ring.Push(rec);
      if !accepted {
        dropped := Increment(dropped);
      }
    }

    /** Write a batch to the open file, then rotate if the file has reached the threshold. */
    method Append(ghost batch: seq<Record>, out: Bytes, disk: Disk)
      requires FilesValid() && content.Some? && AllFit(batch) && out == EncodeAll(batch)
      modifies this`content, this`bytesWritten, this`file, this`archive, this`closed
      ensures FilesValid()
      ensures var f := old(file).value.(records := old(file).value.records + batch);
              if Size(f) >= ROTATE_BYTES then closed == old(closed) + [f] && file == Open(disk)
              else closed == old(closed) && file == Some(f)
    {
      ghost var f := file.value.(records := file.value.records + batch);
      FileAppend(file.value, batch);
      EncodedSize(batch);
      content := Some(content.value + out);
      bytesWritten := bytesWritten + |out|;
      file := Some(f);
      if bytesWritten >= ROTATE_BYTES {
        CloseFile();
        var _ := OpenLogFile(disk);
      }
    }

    /** Hand a batch to the open file, if there is one and it takes it. */
    method Store(ghost batch: seq<Record>, out: Bytes, disk: Disk) returns (ok: bool)
      requires FilesValid() && AllFit(batch) && out == EncodeAll(batch)
      modifies this`content, this`bytesWritten, this`file, this`archive, this`closed, this`errors
      ensures FilesValid() && (ok <==> old(file).Some? && disk.writeOk)
      ensures !ok ==> file == old(file) && closed == old(closed) && errors == Increment(old(errors))
      ensures ok ==>
                var f := old(file).value.(records := old(file).value.records + batch);
                && errors == old(errors)
                && (if Size(f) >= ROTATE_BYTES then closed == old(closed) + [f] && file == Open(disk)
                    else closed == old(closed) && file == Some(f))
    {
      ok := content.Some? && disk.writeOk;
      if ok {
        Append(batch, out, disk);
      } else {
        errors := Increment(errors);
      }
    }

    /** The number of records written, or `None` for an error. */
    method RunFlush(disk: Disk) returns (n: Option<nat>)
      requires Valid()
      modifies this, ring
      ensures Valid() && Current() == Flush(old(Current()), disk)
      ensures n == if old(ring.Contents()) == [] then Some(0)
                   else if old(file).None? || !disk.writeOk then None else Some(|old(ring.Contents())|)
    {
      var batch := new Record[CAPACITY](_ => Zeroed());
      var k := ring.DrainInto(batch);
      assert batch[..k] == old(ring.Contents());
      if k == 0 { return Some(0); }
      var out := EncodeBatch(batch, k);
      var ok := Store(batch[..k], out, disk);
      n := if ok then Some(k) else None;
    }

    method RunTick(disk: Disk)
      requires Valid()
      modifies this, ring
      ensures Valid() && Current() == Tick(old(Current()), disk)
    {
      if !active { return; }
      if ring.count >= WATERMARK { var _ := RunFlush(disk); }
    }

    method CloseFile()
      requires FilesValid() && content.Some?
      modifies this`content, this`file, this`archive, this`closed
      ensures FilesValid() && file == None && closed == old(closed) + [old(file).value]
    {
      archive, closed := archive + [content.value], closed + [file.value];
      content, file := None, None;
    }

    method Stop(disk: Disk)
      requires Valid()
      modifies this, ring
      ensures Valid() && Current() == Shutdown(old(Current()), disk)
    {
      if !active { return; }
      active := false;
      var _ := RunFlush(disk);
      if content.Some? { CloseFile(); }
    }
  }

  /** Encodes the first `n` records of the batch back to back. */
  method EncodeBatch(batch: array<Record>, n: nat) returns (out: Bytes)
    requires n <= batch.Length && AllFit(batch[..n])
    ensures out == EncodeAll(batch[..n])
  {
    out := [];
    var i := 0;
    while i < n
      invariant i <= n && out == EncodeAll(batch[..i])
    {
      assert batch[..i + 1] == batch[..i] + [batch[i]];
      JoinedSnoc(Encode, batch[..i], batch[i]);
      out := out + Encode(batch[i]);
      i := i + 1;
    }
  }

  // ── Where every record went ────────────────────────────────────────────

  datatype Event =
    | Starting(disk: Disk)
    | Logging(rec: Record)
    | Flushing(disk: Disk)
    | Ticking(disk: Disk)
    | Stopping(disk: Disk)

  function Step(s: State, e: Event): State
  {
    match e
    case Starting(d) => Start(s, d)
    case Logging(r) => Log(s, r)
    case Flushing(d) => Flush(s, d)
    case Ticking(d) => Tick(s, d)
    case Stopping(d) => Shutdown(s, d)
  }

  /** How a record left the ring: overwritten, written to a file, or lost in a failed flush. */
  datatype Fate = Dropped | Written | Lost

  function Same(f: Fate, n: nat): (s: seq<Fate>)
    ensures |s| == n
  {
    if n == 0 then [] else Same(f, n - 1) + [f]
  }

  function FlushFates(s: State, disk: Disk): seq<Fate>
  {
    Same(if s.file.Some? && disk.writeOk then Written else Lost, |s.ring|)
  }

  /** The fates an event decides, oldest record first. */
  function Fates(s: State, e: Event): seq<Fate>
  {
    match e
    case Starting(_) => []
    case Logging(_) => if s.active && |s.ring| == CAPACITY then [Dropped] else []
    case Flushing(d) => FlushFates(s, d)
    case Ticking(d) => if s.active && |s.ring| >= WATERMARK then FlushFates(s, d) else []
    case Stopping(d) => if s.active then FlushFates(s, d) else []
  }

  function Pushed(s: State, e: Event): seq<Record>
  {
    if e.Logging? && s.active then [e.rec] else []
  }

  /** All records that entered the ring and the fates decided so far. */
  datatype History = History(state: State, pushed: seq<Record>, fates: seq<Fate>)

  /** What an event adds to the history. */
  function Extended(h: History, e: Event): History
  {
    History(Step(h.state, e), h.pushed + Pushed(h.state, e), h.fates + Fates(h.state, e))
  }

  function Run(es: seq<Event>): History
  {
    if es == [] then History(INITIAL, [], [])
    else Extended(Run(es[..|es| - 1]), es[|es| - 1])
  }

  /** The records with fate `f`, in order. */
  function Select(rs: seq<Record>, fates: seq<Fate>, f: Fate): seq<Record>
    requires |rs| == |fates|
  {
    if rs == [] then []
    else
      var n := |rs| - 1;
      Select(rs[..n], fates[..n], f) + if fates[n] == f then [rs[n]] else []
  }

  /** The records of all files, in the order written. */
  function OnDisk(files: seq<LogFile>): seq<Record>
  {
    if files == [] then [] else OnDisk(files[..|files| - 1]) + files[|files| - 1].records
  }

  function Files(s: State): seq<LogFile>
  {
    s.closed + if s.file.Some? then [s.file.value] else []
  }

  /** The ring is the newest end of what was pushed; the rest has its fate. */
  ghost predicate Accounted(h: History)
  {
    && |h.fates| <= |h.pushed| && h.state.ring == h.pushed[|h.fates|..] && |h.state.ring| <= CAPACITY
    && OnDisk(Files(h.state)) == Select(h.pushed[..|h.fates|], h.fates, Written)
  }

  /** No closed file outgrows the threshold by a full batch, and the open one is below it. */
  ghost predicate Bounded(s: State)
  {
    && (forall i :: 0 <= i < |s.closed| ==> Size(s.closed[i]) < 1_048_576 + 4096)
    && (s.file.Some? ==> Size(s.file.value) < 1_048_576)
    && (!s.active ==> s.file.None? && s.ring == [])
  }

  lemma {:induction false} SelectAppend(a: seq<Record>, fa: seq<Fate>, b: seq<Record>, fb: seq<Fate>, f: Fate)
    requires |a| == |fa| && |b| == |fb|
    ensures Select(a + b, fa + fb, f) == Select(a, fa, f) + Select(b, fb, f)
  {
    if b == [] {
      assert a + b == a && fa + fb == fa;
    } else {
      var n := |b| - 1;
      SelectAppend(a, fa, b[..n], fb[..n], f);
      assert (a + b)[..|a| + n] == a + b[..n] && (fa + fb)[..|a| + n] == fa + fb[..n];
    }
  }

  lemma {:induction false} SelectSame(rs: seq<Record>, g: Fate, f: Fate)
    ensures Select(rs, Same(g, |rs|), f) == if g == f then rs else []
  {
    if rs != [] {
      var n := |rs| - 1;
      SelectSame(rs[..n], g, f);
      assert Same(g, n + 1)[..n] == Same(g, n);
    }
  }

  lemma {:induction false} OnDiskLast(files: seq<LogFile>, f: LogFile)
    ensures OnDisk(files + [f]) == OnDisk(files) + f.records
  {
    assert (files + [f])[..|files|] == files;
  }

  lemma {:induction false} FilesAre(s: State)
    ensures OnDisk(Files(s)) == OnDisk(s.closed) + if s.file.Some? then s.file.value.records else []
  {
    if s.file.Some? {
      OnDiskLast(s.closed, s.file.value);
    } else {
      assert Files(s) == s.closed;
    }
  }

  lemma {:induction false} AppendedOnDisk(s: State, f: LogFile, disk: Disk)
    ensures OnDisk(Files(Appended(s, f, disk))) == OnDisk(s.closed) + f.records
  {
    FilesAre(Appended(s, f, disk));
    OnDiskLast(s.closed, f);
  }

  /** A flush moves the ring to disk or loses it. */
  lemma {:induction false} FlushOnDisk(s: State, disk: Disk)
    ensures OnDisk(Files(Flush(s, disk))) == OnDisk(Files(s)) + if s.file.Some? && disk.writeOk then s.ring else []
    ensures s.ring != [] ==> Flush(s, disk).ring == []
  {
    if s.ring != [] && s.file.Some? && disk.writeOk {
      var f := s.file.value;
      FilesAre(s);
      AppendedOnDisk(s, f.(records := f.records + s.ring), disk);
      assert OnDisk(s.closed) + (f.records + s.ring) == OnDisk(s.closed) + f.records + s.ring;
    }
  }

  lemma {:induction false} FatesForRing(older: seq<Record>, fates: seq<Fate>, ring: seq<Record>, g: Fate)
    requires |older| == |fates|
    ensures |older + ring| == |fates + Same(g, |ring|)|
    ensures Select(older + ring, fates + Same(g, |ring|), Written)
         == Select(older, fates, Written) + if g == Written then ring else []
  {
    SelectSame(ring, g, Written);
    SelectAppend(older, fates, ring, Same(g, |ring|), Written);
  }

  /** Deciding the fates of all records in the ring keeps the account. */
  lemma {:induction false} FlushAccounted(h: History, disk: Disk, t: State)
    requires Accounted(h) && t.ring == [] && OnDisk(Files(t)) == OnDisk(Files(Flush(h.state, disk)))
    ensures Accounted(History(t, h.pushed, h.fates + FlushFates(h.state, disk)))
  {
    var g := if h.state.file.Some? && disk.writeOk then Written else Lost;
    var older := h.pushed[..|h.fates|];
    FlushOnDisk(h.state, disk);
    FatesForRing(older, h.fates, h.state.ring, g);
    assert older + h.state.ring == h.pushed;
    assert h.pushed[..|h.pushed|] == h.pushed;
  }

  lemma {:induction false} LogAccounted(h: History, rec: Record)
    requires Accounted(h)
    ensures Accounted(History(Log(h.state, rec), h.pushed + Pushed(h.state, Logging(rec)),
                              h.fates + Fates(h.state, Logging(rec))))
  {
    var s, k := h.state, |h.fates|;
    var more := h.pushed + [rec];
    if s.active {
      if |s.ring| < CAPACITY {
        assert more[k..] == s.ring + [rec] && more[..k] == h.pushed[..k] && h.fates + [] == h.fates;
      } else {
        assert more[k + 1..] == s.ring[1..] + [rec];
        assert more[..k + 1] == h.pushed[..k] + [s.ring[0]];
        SelectAppend(h.pushed[..k], h.fates, [s.ring[0]], [Dropped], Written);
        SelectOne(s.ring[0]);
      }
    } else {
      assert h.pushed + [] == h.pushed && h.fates + [] == h.fates;
    }
  }

  lemma {:induction false} SelectOne(r: Record)
    ensures Select([r], [Dropped], Written) == []
  {
    assert [r][..0] == [] && [Dropped][..0] == [];
  }

  lemma {:induction false} StartAccounted(h: History, disk: Disk)
    requires Accounted(h) && Bounded(h.state)
    ensures Accounted(h.(state := Start(h.state, disk)))
  {
    var s := h.state;
    if !s.active && disk.openOk {
      OnDiskLast(s.closed, LogFile(disk.now, []));
      assert Files(s) == s.closed;
    }
  }

  lemma {:induction false} ClosingKeepsDisk(s: State)
    ensures s.file.Some? ==> Files(s.(file := None, closed := s.closed + [s.file.value])) == Files(s)
  {}

  lemma {:induction false} StopAccounted(h: History, disk: Disk)
    requires Accounted(h) && h.state.active
    ensures Accounted(History(Shutdown(h.state, disk), h.pushed, h.fates + FlushFates(h.state, disk)))
  {
    var s := h.state;
    var t := Flush(s.(active := false), disk);
    ClosingKeepsDisk(t);
    assert Flush(s, disk).closed == t.closed && Flush(s, disk).file == t.file;
    FlushAccounted(h, disk, Shutdown(s, disk));
  }

  lemma {:induction false} Unextended(h: History, e: Event)
    ensures Pushed(h.state, e) == [] ==> h.pushed + Pushed(h.state, e) == h.pushed
    ensures Fates(h.state, e) == [] ==> h.fates + Fates(h.state, e) == h.fates
  {}

  lemma {:induction false} StepAccounted(h: History, e: Event)
    requires Accounted(h) && Bounded(h.state)
    ensures Accounted(Extended(h, e))
  {
    Unextended(h, e);
    match e
    case Starting(d) => StartAccounted(h, d);
    case Logging(r) => LogAccounted(h, r);
    case Flushing(d) => FlushAccounted(h, d, Flush(h.state, d));
    case Ticking(d) => FlushAccounted(h, d, Flush(h.state, d));
    case Stopping(d) => if h.state.active { StopAccounted(h, d); }
  }

  lemma {:induction false} StepBounded(s: State, e: Event)
    requires Bounded(s) && |s.ring| <= CAPACITY
    ensures Bounded(Step(s, e))
  {}

  /**
    Over every run: the ring is the newest part of what was pushed, every older record was dropped,
    written or lost, exactly the written ones are on disk, in order, and no file exceeds the
    threshold by a full batch.
    */
  lemma {:induction false} EveryRecordAccounted(es: seq<Event>)
    ensures Accounted(Run(es)) && Bounded(Run(es).state)
  {
    if es != [] {
      var front := es[..|es| - 1];
      EveryRecordAccounted(front);
      StepAccounted(Run(front), es[|es| - 1]);
      StepBounded(Run(front).state, es[|es| - 1]);
    }
  }

  predicate EventFits(e: Event)
  {
    if e.Logging? then Fits(e.rec) else e.disk.now < Pow256(8)
  }

  ghost predicate AllFilesFit(s: State)
  {
    AllFit(s.ring) && forall i :: 0 <= i < |Files(s)| ==> FileFits(Files(s)[i])
  }

  lemma {:induction false} StepFits(s: State, e: Event)
    requires AllFilesFit(s) && EventFits(e) && (s.active || s.file.None?)
    ensures AllFilesFit(Step(s, e))
  {
    if s.file.Some? { assert Files(s)[|s.closed|] == s.file.value; }
    forall i | 0 <= i < |s.closed| ensures FileFits(s.closed[i]) { assert Files(s)[i] == s.closed[i]; }
  }

  /** Over every run, every file on disk reads back as exactly the records that were written to it. */
  lemma {:induction false} FilesReadBack(es: seq<Event>, i: nat)
    requires forall j :: 0 <= j < |es| ==> EventFits(es[j])
    requires i < |Files(Run(es).state)|
    ensures var f := Files(Run(es).state)[i]; ParseFile(FileBytes(f)) == Some(f)
  {
    RunFits(es);
    var f := Files(Run(es).state)[i];
    FileRoundTrip(f, []);
    assert FileBytes(f) + [] == FileBytes(f);
  }

  lemma {:induction false} RunFits(es: seq<Event>)
    requires forall j :: 0 <= j < |es| ==> EventFits(es[j])
    ensures AllFilesFit(Run(es).state)
  {
    if es != [] {
      RunFits(es[..|es| - 1]);
      EveryRecordAccounted(es[..|es| - 1]);
      StepFits(Run(es[..|es| - 1]).state, es[|es| - 1]);
    }
  }

  function Count(fates: seq<Fate>, f: Fate): nat
  {
    if fates == [] then 0 else Count(fates[..|fates| - 1], f) + if fates[|fates| - 1] == f then 1 else 0
  }

  lemma {:induction false} FatesAddUp(fates: seq<Fate>)
    ensures |fates| == Count(fates, Dropped) + Count(fates, Written) + Count(fates, Lost)
  {
    if fates != [] { FatesAddUp(fates[..|fates| - 1]); }
  }

  lemma {:induction false} SelectSize(rs: seq<Record>, fates: seq<Fate>, f: Fate)
    requires |rs| == |fates|
    ensures |Select(rs, fates, f)| == Count(fates, f)
  {
    if rs != [] { SelectSize(rs[..|rs| - 1], fates[..|rs| - 1], f); }
  }

  /** Conservation: pushed = in the ring + dropped + on disk + lost in failed flushes. */
  lemma {:induction false} Conservation(es: seq<Event>)
    ensures var h := Run(es);
            |h.pushed| == |h.state.ring| + Count(h.fates, Dropped) + |OnDisk(Files(h.state))| + Count(h.fates, Lost)
  {
    EveryRecordAccounted(es);
    var h := Run(es);
    FatesAddUp(h.fates);
    SelectSize(h.pushed[..|h.fates|], h.fates, Written);
  }

  lemma {:induction false} CountAppend(a: seq<Fate>, b: seq<Fate>, f: Fate)
    ensures Count(a + b, f) == Count(a, f) + Count(b, f)
  {
    if b == [] {
      assert a + b == a;
    } else {
      CountAppend(a, b[..|b| - 1], f);
      assert (a + b)[..|a + b| - 1] == a + b[..|b| - 1];
    }
  }

  lemma {:induction false} CountSame(g: Fate, n: nat, f: Fate)
    ensures Count(Same(g, n), f) == if f == g then n else 0
  {
    if n > 0 {
      CountSame(g, n - 1, f);
      assert Same(g, n)[..n - 1] == Same(g, n - 1);
    }
  }

  /** The drop counter counts the dropped records, modulo 2^32. */
  lemma {:induction false} DropCounter(es: seq<Event>)
    ensures Run(es).state.dropped == Count(Run(es).fates, Dropped) % U32_SIZE
  {
    if es != [] {
      var h, e := Run(es[..|es| - 1]), es[|es| - 1];
      DropCounter(es[..|es| - 1]);
      EveryRecordAccounted(es[..|es| - 1]);
      ExtendedDrops(h, e);
    }
  }

  lemma {:induction false} ExtendedDrops(h: History, e: Event)
    requires |h.state.ring| <= CAPACITY && h.state.dropped == Count(h.fates, Dropped) % U32_SIZE
    ensures Extended(h, e).state.dropped == Count(Extended(h, e).fates, Dropped) % U32_SIZE
  {
    CountAppend(h.fates, Fates(h.state, e), Dropped);
    DropsOf(h.state, e);
    StepDrops(h.state, e);
    CountUp(Count(h.fates, Dropped));
  }

  lemma {:induction false} StepDrops(s: State, e: Event)
    requires |s.ring| <= CAPACITY
    ensures Step(s, e).dropped ==
            if e.Logging? && s.active && |s.ring| == CAPACITY then Increment(s.dropped) else s.dropped
  {}

  lemma {:induction false} DropsOf(s: State, e: Event)
    ensures Count(Fates(s, e), Dropped) == if e.Logging? && s.active && |s.ring| == CAPACITY then 1 else 0
  {
    CountSame(Written, |s.ring|, Dropped);
    CountSame(Lost, |s.ring|, Dropped);
    assert [Dropped][..0] == [];
  }
}
