/** Habit formation: repeated skill sequences are counted in a 16-slot table and promoted after ten successes. */
module Habits {
  import opened Bytes
  import opened Integers

  const PROMOTE_THRESHOLD := 10
  const MAX_HABITS := 16
  const MAX_SEQ := 8
  const U16_MAX := 0xFFFF
  const U32_MAX := 0xFFFF_FFFF

  type Skill = nat

  /** Sentinels `U16_MAX` and `U32_MAX` switch a condition off. */
  datatype Trigger = Trigger(obstacleLt: nat, minBattery: nat, maxRoll: nat, maxPitch: nat)

  datatype Sensors = Sensors(front: nat, battery: nat, roll: int, pitch: int)

  const NEVER := Trigger(U16_MAX, 0, U32_MAX, U32_MAX)

  predicate Fires(t: Trigger, s: Sensors)
  {
    && (t.obstacleLt == U16_MAX || s.front < t.obstacleLt)
    && s.battery >= t.minBattery
    && (t.maxRoll == U32_MAX || Abs(s.roll) <= t.maxRoll)
    && (t.maxPitch == U32_MAX || Abs(s.pitch) <= t.maxPitch)
  }

  /** The trigger named "never" fires on every reading. */
  lemma {:induction false} NeverAlwaysFires(s: Sensors)
    ensures Fires(NEVER, s)
  {}

  /** A trigger with the obstacle limit only, and so on: every other limit is switched off. */
  function ObstacleOnly(d: nat): Trigger { NEVER.(obstacleLt := d) }
  function BatteryOnly(v: nat): Trigger { NEVER.(minBattery := v) }
  function RollOnly(a: nat): Trigger { NEVER.(maxRoll := a) }
  function PitchOnly(a: nat): Trigger { NEVER.(maxPitch := a) }

  /** Each limit alone fires exactly within it: nearer than, charged at least, tilted at most. */
  lemma {:induction false} LimitAlone(s: Sensors, n: nat)
    ensures n != 0xFFFF ==> (Fires(ObstacleOnly(n), s) <==> s.front < n)
    ensures Fires(BatteryOnly(n), s) <==> s.battery >= n
    ensures n != 0xFFFF_FFFF ==> (Fires(RollOnly(n), s) <==> 0 - n <= s.roll <= n)
    ensures n != 0xFFFF_FFFF ==> (Fires(PitchOnly(n), s) <==> 0 - n <= s.pitch <= n)
  {}

  /** A trigger fires exactly when its four limits do. */
  lemma {:induction false} FiresIffAll(t: Trigger, s: Sensors)
    ensures Fires(t, s) <==>
            && Fires(ObstacleOnly(t.obstacleLt), s) && Fires(BatteryOnly(t.minBattery), s)
            && Fires(RollOnly(t.maxRoll), s) && Fires(PitchOnly(t.maxPitch), s)
  {}

  /** Raising the limits of a trigger, or switching a limit off, only adds readings it fires on. */
  lemma {:induction false} WiderTriggerFires(t: Trigger, u: Trigger, s: Sensors)
    requires Fires(t, s)
    requires u.obstacleLt == U16_MAX || (t.obstacleLt != U16_MAX && t.obstacleLt <= u.obstacleLt)
    requires u.minBattery <= t.minBattery
    requires u.maxRoll == U32_MAX || (t.maxRoll != U32_MAX && t.maxRoll <= u.maxRoll)
    requires u.maxPitch == U32_MAX || (t.maxPitch != U32_MAX && t.maxPitch <= u.maxPitch)
    ensures Fires(u, s)
  {}

  datatype Habit = Habit(trigger: Trigger, sequence: seq<Skill>, successes: nat, promotions: nat,
                         active: bool, promoted: bool)

  const EMPTY := Habit(NEVER, [], 0, 0, false, false)

  /** A sequence as it is stored: at most eight skills. */
  function Cut(skills: seq<Skill>): (q: seq<Skill>)
  {
    if |skills| <= MAX_SEQ then skills else skills[..MAX_SEQ]
  }

  /** Two sequences are stored as one exactly when they agree in their first eight skills. */
  lemma {:induction false} SameCutIff(p: seq<Skill>, q: seq<Skill>)
    ensures Cut(p) == Cut(q) <==>
            && (|p| == |q| || (|p| >= 8 && |q| >= 8))
            && forall i :: 0 <= i < 8 && i < |p| && i < |q| ==> p[i] == q[i]
  {
    if Cut(p) == Cut(q) {
      forall i | 0 <= i < 8 && i < |p| && i < |q| ensures p[i] == q[i] { assert Cut(p)[i] == Cut(q)[i]; }
    }
  }

  function Succeeded(h: Habit): Habit
  {
    var n := h.successes + 1;
    if n >= PROMOTE_THRESHOLD && !h.promoted
    then h.(successes := n, promoted := true, promotions := h.promotions + 1)
    else h.(successes := n)
  }

  function Created(t: Trigger, q: seq<Skill>): Habit
  {
    Habit(t, q, 1, 0, true, false)
  }

  /** The lowest slot from `i` on that holds sequence `q`, or the number of slots. */
  function FindSame(hs: seq<Habit>, q: seq<Skill>, i: nat): (k: nat)
    requires i <= |hs|
    ensures i <= k <= |hs|
    ensures k < |hs| ==> hs[k].active && hs[k].sequence == q
    ensures forall j :: i <= j < k ==> !(hs[j].active && hs[j].sequence == q)
    decreases |hs| - i
  {
    if i == |hs| || (hs[i].active && hs[i].sequence == q) then i else FindSame(hs, q, i + 1)
  }

  function FindFree(hs: seq<Habit>, i: nat): (k: nat)
    requires i <= |hs|
    ensures i <= k <= |hs|
    ensures k < |hs| ==> !hs[k].active
    ensures forall j :: i <= j < k ==> hs[j].active
    decreases |hs| - i
  {
    if i == |hs| || !hs[i].active then i else FindFree(hs, i + 1)
  }

  /** `Abort` is the panic of the success counter's overflow. */
  datatype Recorded = At(slot: nat) | Full | Abort

  function Record(hs: seq<Habit>, t: Trigger, skills: seq<Skill>): (r: (seq<Habit>, Recorded))
    ensures |r.0| == |hs|
  {
    var q := Cut(skills);
    var k := FindSame(hs, q, 0);
    if k < |hs| then
      if hs[k].successes == U32_MAX then (hs, Abort) else (hs[k := Succeeded(hs[k])], At(k))
    else
      var f := FindFree(hs, 0);
      if f < |hs| then (hs[f := Created(t, q)], At(f)) else (hs, Full)
  }

  /** The slot reported holds the sequence; none is reported only if all sixteen hold others. */
  lemma {:induction false} RecordReports(hs: seq<Habit>, t: Trigger, skills: seq<Skill>)
    ensures var (next, r) := Record(hs, t, skills);
            && (r.At? ==> r.slot < |hs| && next[r.slot].active && next[r.slot].sequence == Cut(skills))
            && (r == Full <==> forall i :: 0 <= i < |hs| ==> hs[i].active && hs[i].sequence != Cut(skills))
            && (r == Full || r == Abort ==> next == hs)
  {}

  function Kept(h: Habit, min: nat): Habit
  {
    if h.active && h.successes < min then EMPTY else h
  }

  function Pruned(hs: seq<Habit>, min: nat): (r: seq<Habit>)
    ensures |r| == |hs| && forall i :: 0 <= i < |hs| ==> r[i] == Kept(hs[i], min)
  {
    if hs == [] then [] else Pruned(hs[..|hs| - 1], min) + [Kept(hs[|hs| - 1], min)]
  }

  class HabitTable {
    const habits: array<Habit>

    constructor ()
      ensures habits.Length == MAX_HABITS && fresh(habits)
      ensures forall i :: 0 <= i < MAX_HABITS ==> habits[i] == EMPTY
    {
      habits := new Habit[MAX_HABITS](_ => EMPTY);
    }

    /** Whether slot `i` holds the first `n` of the given skills, compared one by one. */
    method SameSequence(i: nat, skills: seq<Skill>, n: nat) returns (same: bool)
      requires i < habits.Length && n <= |skills|
      ensures same <==> habits[i].sequence == skills[..n]
    {
      var h := habits[i];
      if |h.sequence| != n { return false; }
      same := true;
      var j := 0;
      while j < n
        invariant j <= n && h.sequence[..j] == skills[..j]
      {
        if h.sequence[j] != skills[j] { return false; }
        j := j + 1;
      }
    }

    method HabitRecord(t: Trigger, skills: seq<Skill>) returns (r: Recorded)
      modifies habits
      ensures (habits[..], r) == Record(old(habits[..]), t, skills)
    {
      var n := if |skills| < MAX_SEQ then |skills| else MAX_SEQ;
      assert skills[..n] == Cut(skills);
      var i := 0;
      while i < habits.Length
        invariant i <= habits.Length && habits[..] == old(habits[..])
        invariant FindSame(habits[..], Cut(skills), 0) == FindSame(habits[..], Cut(skills), i)
      {
        if habits[i].active {
          var same := SameSequence(i, skills, n);
          if same {
            if habits[i].successes == U32_MAX { return Abort; }
            habits[i] := Succeeded(habits[i]);
            return At(i);
          }
        }
        i := i + 1;
      }
      i := 0;
      while i < habits.Length
        invariant i <= habits.Length && habits[..] == old(habits[..])
        invariant FindFree(habits[..], 0) == FindFree(habits[..], i)
      {
        if !habits[i].active {
          habits[i] := Created(t, skills[..n]);
          return At(i);
        }
        i := i + 1;
      }
      return Full;
    }

    /** The first promoted habit whose trigger holds. */
    method HabitMatch(s: Sensors) returns (q: Option<seq<Skill>>)
      ensures q.Some? ==> exists i :: 0 <= i < habits.Length && FirstEligible(habits[..], i, s)
                                      && q.value == habits[i].sequence
      ensures q.None? ==> forall i :: 0 <= i < habits.Length ==> !Eligible(habits[i], s)
    {
      var i := 0;
      while i < habits.Length
        invariant i <= habits.Length && forall j :: 0 <= j < i ==> !Eligible(habits[j], s)
      {
        var h := habits[i];
        if h.active && h.promoted && Fires(h.trigger, s) {
          assert FirstEligible(habits[..], i, s);
          return Some(h.sequence);
        }
        i := i + 1;
      }
      return None;
    }

    method HabitPrune(min: nat)
      modifies habits
      ensures habits[..] == Pruned(old(habits[..]), min)
    {
      var i := 0;
      while i < habits.Length
        invariant i <= habits.Length
        invariant forall j :: 0 <= j < i ==> habits[j] == Kept(old(habits[j]), min)
        invariant forall j :: i <= j < habits.Length ==> habits[j] == old(habits[j])
      {
        if habits[i].active && habits[i].successes < min {
          habits[i] := EMPTY;
        }
        i := i + 1;
      }
    }
  }

  predicate Eligible(h: Habit, s: Sensors)
  {
    h.active && h.promoted && Fires(h.trigger, s)
  }

  ghost predicate FirstEligible(hs: seq<Habit>, i: nat, s: Sensors)
  {
    i < |hs| && Eligible(hs[i], s) && forall j :: 0 <= j < i ==> !Eligible(hs[j], s)
  }

  // ── The table as a map ─────────────────────────────────────────────────

  /** What is known of a sequence: the trigger it was first recorded with and its successes. */
  datatype Entry = Entry(trigger: Trigger, successes: nat)

  type Book = map<seq<Skill>, Entry>

  datatype Event = Recording(trigger: Trigger, skills: seq<Skill>) | Pruning(min: nat)

  /** The simple machine: a map of at most sixteen sequences; `None` once a counter has overflowed. */
  function Noted(b: Book, e: Event): Option<Book>
  {
    match e
    case Recording(t, skills) =>
      var q := Cut(skills);
      if q in b then
        if b[q].successes == U32_MAX then None else Some(b[q := b[q].(successes := b[q].successes + 1)])
      else if |b| < 16 then Some(b[q := Entry(t, 1)])
      else Some(b)
    case Pruning(min) => Some(map q | q in b && b[q].successes >= min :: b[q])
  }

  function Step(hs: seq<Habit>, e: Event): Option<seq<Habit>>
  {
    match e
    case Recording(t, skills) =>
      var (next, r) := Record(hs, t, skills);
      if r == Abort then None else Some(next)
    case Pruning(min) => Some(Pruned(hs, min))
  }

  ghost predicate SlotOk(h: Habit)
  {
    && (h.promoted <==> h.successes >= 10)
    && h.promotions == (if h.promoted then 1 else 0)
    && (!h.active ==> h == EMPTY)
    && |h.sequence| <= MAX_SEQ && h.successes <= U32_MAX
  }

  /** Active slots hold pairwise distinct sequences, and promotion follows the count. */
  ghost predicate TableOk(hs: seq<Habit>)
  {
    && (forall i :: 0 <= i < |hs| ==> SlotOk(hs[i]))
    && (forall i, j :: 0 <= i < j < |hs| && hs[i].active && hs[j].active ==> hs[i].sequence != hs[j].sequence)
  }

  function EntryOf(h: Habit): Entry
  {
    Entry(h.trigger, h.successes)
  }

  /** The active slots are exactly the map's entries. */
  ghost predicate Tells(hs: seq<Habit>, b: Book)
  {
    && (forall i :: 0 <= i < |hs| && hs[i].active ==> hs[i].sequence in b && b[hs[i].sequence] == EntryOf(hs[i]))
    && (forall q :: q in b ==> FindSame(hs, q, 0) < |hs|)
  }

  function ActiveCount(hs: seq<Habit>): (n: nat)
    ensures n <= |hs|
    ensures n == |hs| <==> forall i :: 0 <= i < |hs| ==> hs[i].active
  {
    if hs == [] then 0
    else
      var front := hs[..|hs| - 1];
      assert forall i :: 0 <= i < |front| ==> front[i] == hs[i];
      ActiveCount(front) + if hs[|hs| - 1].active then 1 else 0
  }

  lemma {:induction false} HeldBy(hs: seq<Habit>, q: seq<Skill>, i: nat)
    requires i < |hs| && hs[i].active && hs[i].sequence == q
    ensures FindSame(hs, q, 0) < |hs|
  {}

  lemma {:induction false} FrontHolds(hs: seq<Habit>, q: seq<Skill>)
    requires hs != [] && FindSame(hs, q, 0) < |hs|
    requires !hs[|hs| - 1].active || hs[|hs| - 1].sequence != q
    ensures FindSame(hs[..|hs| - 1], q, 0) < |hs| - 1
  {
    var k := FindSame(hs, q, 0);
    assert hs[..|hs| - 1][k] == hs[k];
    HeldBy(hs[..|hs| - 1], q, k);
  }

  lemma {:induction false} FrontTells(hs: seq<Habit>, b: Book)
    requires hs != [] && TableOk(hs) && Tells(hs, b)
    ensures var front, last := hs[..|hs| - 1], hs[|hs| - 1];
            TableOk(front) && Tells(front, if last.active then b - {last.sequence} else b)
  {
    var front, last := hs[..|hs| - 1], hs[|hs| - 1];
    var c := if last.active then b - {last.sequence} else b;
    forall i | 0 <= i < |front| ensures front[i] == hs[i] {}
    forall q | q in c ensures FindSame(front, q, 0) < |front| { FrontHolds(hs, q); }
  }

  lemma {:induction false} OneLess(b: Book, q: seq<Skill>)
    requires q in b
    ensures |b| == |b - {q}| + 1
  {
    assert b.Keys == (b - {q}).Keys + {q};
  }

  /** The map has as many entries as there are active slots. */
  lemma {:induction false} SizeIsActive(hs: seq<Habit>, b: Book)
    requires TableOk(hs) && Tells(hs, b)
    ensures |b| == ActiveCount(hs)
  {
    if hs == [] {
      assert b == map[];
    } else {
      FrontTells(hs, b);
      var front, last := hs[..|hs| - 1], hs[|hs| - 1];
      if last.active {
        OneLess(b, last.sequence);
        SizeIsActive(front, b - {last.sequence});
      } else {
        SizeIsActive(front, b);
      }
    }
  }

  lemma {:induction false} RecordExisting(hs: seq<Habit>, b: Book, k: nat)
    requires TableOk(hs) && Tells(hs, b) && k < |hs| && hs[k].active && hs[k].successes < U32_MAX
    ensures var q := hs[k].sequence;
            TableOk(hs[k := Succeeded(hs[k])]) && q in b
            && Tells(hs[k := Succeeded(hs[k])], b[q := b[q].(successes := b[q].successes + 1)])
  {
    var q, next := hs[k].sequence, hs[k := Succeeded(hs[k])];
    forall p | p in b[q := b[q]] ensures FindSame(next, p, 0) < |next| {
      HeldBy(next, p, FindSame(hs, p, 0));
    }
  }

  lemma {:induction false} RecordNew(hs: seq<Habit>, b: Book, f: nat, t: Trigger, q: seq<Skill>)
    requires TableOk(hs) && Tells(hs, b) && f < |hs| && !hs[f].active && q !in b && |q| <= MAX_SEQ
    ensures TableOk(hs[f := Created(t, q)]) && Tells(hs[f := Created(t, q)], b[q := Entry(t, 1)])
  {
    var next := hs[f := Created(t, q)];
    forall p | p in b[q := Entry(t, 1)] ensures FindSame(next, p, 0) < |next| {
      if p == q { HeldBy(next, q, f); } else { HeldBy(next, p, FindSame(hs, p, 0)); }
    }
  }

  lemma {:induction false} PruneTells(hs: seq<Habit>, b: Book, min: nat)
    requires TableOk(hs) && Tells(hs, b)
    ensures TableOk(Pruned(hs, min)) && Tells(Pruned(hs, min), map q | q in b && b[q].successes >= min :: b[q])
  {
    var next := Pruned(hs, min);
    var c := map q | q in b && b[q].successes >= min :: b[q];
    forall p | p in c ensures FindSame(next, p, 0) < |next| {
      var k := FindSame(hs, p, 0);
      HeldBy(next, p, k);
    }
  }

  lemma {:induction false} RecordTells(hs: seq<Habit>, b: Book, t: Trigger, skills: seq<Skill>)
    requires |hs| == MAX_HABITS && TableOk(hs) && Tells(hs, b)
    ensures var s, n := Step(hs, Recording(t, skills)), Noted(b, Recording(t, skills));
            && (s.Some? <==> n.Some?)
            && (s.Some? ==> TableOk(s.value) && Tells(s.value, n.value))
  {
    var q := Cut(skills);
    var k := FindSame(hs, q, 0);
    if k < |hs| {
      assert q in b;
      if hs[k].successes < U32_MAX { RecordExisting(hs, b, k); }
    } else {
      SizeIsActive(hs, b);
      var f := FindFree(hs, 0);
      if f < |hs| { RecordNew(hs, b, f, t, q); }
    }
  }

  function Run(es: seq<Event>): (r: Option<seq<Habit>>)
    ensures r.Some? ==> |r.value| == MAX_HABITS
  {
    if es == [] then Some(EmptyTable())
    else
      match Run(es[..|es| - 1])
      case None => None
      case Some(hs) => Step(hs, es[|es| - 1])
  }

  function EmptyTable(): (hs: seq<Habit>)
    ensures |hs| == MAX_HABITS && forall i :: 0 <= i < MAX_HABITS ==> hs[i] == EMPTY
  {
    seq(MAX_HABITS, _ => EMPTY)
  }

  function Notes(es: seq<Event>): Option<Book>
  {
    if es == [] then Some(map[])
    else
      match Notes(es[..|es| - 1])
      case None => None
      case Some(b) => Noted(b, es[|es| - 1])
  }

  /**
    Over every run of records and prunes the table holds exactly the map: distinct sequences cut to
    eight, each with the trigger of its first record and the number of records since, promoted
    exactly from ten on. Both overflow together.
    */
  lemma {:induction false} TableRefinesMap(es: seq<Event>)
    ensures Run(es).Some? <==> Notes(es).Some?
    ensures Run(es).Some? ==> TableOk(Run(es).value) && Tells(Run(es).value, Notes(es).value)
  {
    if es != [] {
      var front, e := es[..|es| - 1], es[|es| - 1];
      TableRefinesMap(front);
      if Run(front).Some? {
        var hs, b := Run(front).value, Notes(front).value;
        match e
        case Recording(t, skills) => RecordTells(hs, b, t, skills);
        case Pruning(min) => PruneTells(hs, b, min);
      }
    }
  }

  /** Over every run exactly the sequences with ten successes since their creation are offered, under their trigger. */
  lemma {:induction false} OfferedIff(es: seq<Event>, i: nat, s: Sensors)
    requires Run(es).Some? && i < 16
    ensures var h := Run(es).value[i];
            Eligible(h, s) <==> h.active && h.successes >= 10 && Fires(h.trigger, s)
  {
    TableRefinesMap(es);
  }

  function Hit(e: Event, q: seq<Skill>): nat
  {
    if e.Recording? && Cut(e.skills) == q then 1 else 0
  }

  /** How many of the events record sequence `q`. */
  function Records(es: seq<Event>, q: seq<Skill>): nat
  {
    if es == [] then 0 else Records(es[..|es| - 1], q) + Hit(es[|es| - 1], q)
  }

  lemma {:induction false} NotedCount(b: Book, e: Event, q: seq<Skill>)
    requires q in b && Noted(b, e).Some? && q in Noted(b, e).value
    ensures Noted(b, e).value[q] == b[q].(successes := b[q].successes + Hit(e, q))
  {}

  ghost predicate Known(es: seq<Event>, q: seq<Skill>)
  {
    Notes(es).Some? && q in Notes(es).value
  }

  /**
    The count of a known sequence is the number of its records since the event `c` that created its
    entry; the trigger is the one given then, and the entry has existed ever since.
    */
  lemma {:induction false} CountSinceCreation(es: seq<Event>, q: seq<Skill>) returns (c: nat)
    requires Known(es, q)
    ensures c < |es| && es[c].Recording? && Cut(es[c].skills) == q
    ensures Notes(es).value[q] == Entry(es[c].trigger, Records(es[c..], q))
    ensures !Known(es[..c], q) && forall j :: c < j <= |es| ==> Known(es[..j], q)
  {
    var n := |es| - 1;
    var front, e := es[..n], es[n];
    assert es[..|es|] == es;
    if Known(front, q) {
      c := CountSinceCreation(front, q);
      NotedCount(Notes(front).value, e, q);
      assert es[c..][..n - c] == front[c..] && es[c..][n - c] == e;
      assert front[..c] == es[..c];
      forall j | c < j <= |es| ensures Known(es[..j], q) {
        if j <= n { assert front[..j] == es[..j]; }
      }
    } else {
      c := n;
      assert es[n..][..0] == [];
      assert es[n..] == [e];
    }
  }

  lemma {:induction false} TwoNotes(t: Trigger, p: seq<Skill>, u: Trigger, q: seq<Skill>)
    ensures Notes([Recording(t, p), Recording(u, q)]) == Some(
              if Cut(p) == Cut(q) then map[Cut(p) := Entry(t, 2)]
              else map[Cut(p) := Entry(t, 1), Cut(q) := Entry(u, 1)])
  {
    var e, f := Recording(t, p), Recording(u, q);
    assert [e, f][..1] == [e] && [e][..0] == [];
    var b := map[Cut(p) := Entry(t, 1)];
    assert Notes([e]) == Some(b);
    assert b.Keys == {Cut(p)} && |b| == |b.Keys|;
    assert b[Cut(p) := Entry(t, 2)] == map[Cut(p) := Entry(t, 2)];
    assert Notes([e, f]) == Noted(b, f);
  }

  /**
    Records are matched by sequence, whatever the triggers: two records into an empty table share a
    slot if and only if their sequences are the same up to eight skills, and the slot keeps the
    first trigger.
    */
  lemma {:induction false} MatchedBySequence(t: Trigger, p: seq<Skill>, u: Trigger, q: seq<Skill>)
    ensures var es := [Recording(t, p), Recording(u, q)];
            && Run(es).Some?
            && (ActiveCount(Run(es).value) == 1 <==> Cut(p) == Cut(q))
            && (ActiveCount(Run(es).value) == 2 <==> Cut(p) != Cut(q))
            && (Cut(p) == Cut(q) ==> Notes(es) == Some(map[Cut(p) := Entry(t, 2)]))
  {
    var es := [Recording(t, p), Recording(u, q)];
    TwoNotes(t, p, u, q);
    TableRefinesMap(es);
    SizeIsActive(Run(es).value, Notes(es).value);
    if Cut(p) != Cut(q) {
      assert Notes(es).value.Keys == {Cut(p), Cut(q)};
      assert |Notes(es).value| == |Notes(es).value.Keys|;
    } else {
      assert Notes(es).value.Keys == {Cut(p)};
      assert |Notes(es).value| == |Notes(es).value.Keys|;
    }
  }

  /** One trigger, two sequences: two slots. Two triggers, one sequence: one slot. */
  lemma {:induction false} TriggerDoesNotMatter(t: Trigger, u: Trigger)
    ensures var r := Run([Recording(t, [1]), Recording(t, [2])]); r.Some? && ActiveCount(r.value) == 2
    ensures var r := Run([Recording(t, [1]), Recording(u, [1])]); r.Some? && ActiveCount(r.value) == 1
  {
    MatchedBySequence(t, [1], t, [2]);
    MatchedBySequence(t, [1], u, [1]);
    assert [1][0] != [2][0];
  }
}
