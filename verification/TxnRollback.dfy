/**
  The transactional control tick: a recoverable fault in an armed tick stops the motors and restarts
  the control task at its entry, with a budget of restarts that made no progress.
  */
module TxnRollback {
  import opened Bytes
  import opened Integers

  const MAX_HARTS := 8
  const MAX_RESTARTS := 8
  const LOAD_MISALIGNED := 4
  const STORE_MISALIGNED := 6
  /** The stack pointer's index in the register file. */
  const SP := 2

  datatype Slot = Slot(armed: bool, sp: nat, pc: nat)

  /** `motor` lists the motor commands published from the trap handler. */
  datatype State = State(slots: seq<Slot>, streak: nat, aborts: nat, motor: seq<(int, int)>)

  datatype Event =
    | Arm(hart: nat, sp: nat, pc: nat)
    | Fault(hart: nat, cause: nat)
    | TickComplete

  /** What an event did: a restart at `(sp, pc)`, a fault left to the fatal path, or neither. */
  datatype Outcome = Restart(sp: nat, pc: nat) | Declined | Quiet

  predicate Recoverable(cause: nat)
  {
    cause == LOAD_MISALIGNED || cause == STORE_MISALIGNED
  }

  const DISARMED := Slot(false, 0, 0)

  function Initial(): State
  {
    State(seq(MAX_HARTS, _ => DISARMED), 0, 0, [])
  }

  function Step(enabled: bool, s: State, e: Event): (r: (State, Outcome))
    requires |s.slots| == MAX_HARTS
    ensures |r.0.slots| == MAX_HARTS
  {
    match e
    case Arm(h, sp, pc) =>
      (if enabled && h < MAX_HARTS then s.(slots := s.slots[h := Slot(true, sp, pc)]) else s, Quiet)
    case Fault(h, cause) =>
      if !enabled || !Recoverable(cause) || h >= MAX_HARTS || !s.slots[h].armed || s.streak >= MAX_RESTARTS
      then (s, Declined)
      else
        (State(s.slots[h := s.slots[h].(armed := false)], s.streak + 1, Increment(s.aborts), s.motor + [(0, 0)]),
         Restart(s.slots[h].sp, s.slots[h].pc))
    case TickComplete => (if enabled then s.(streak := 0) else s, Quiet)
  }

  class TrapFrame {
    const regs: array<nat>
    var sepc: nat

    constructor ()
      ensures regs.Length == 32 && fresh(regs)
    {
      regs, sepc := new nat[32], 0;
    }
  }

  class Transactions {
    const enabled: bool
    const slots: array<Slot>
    var streak: nat
    var aborts: nat
    var motor: seq<(int, int)>

    ghost function Current(): State
      reads this, slots
    {
      State(slots[..], streak, aborts, motor)
    }

    constructor (enabled: bool)
      ensures this.enabled == enabled && slots.Length == MAX_HARTS && fresh(slots)
      ensures Current() == Initial()
    {
      this.enabled := enabled;
      slots := new Slot[MAX_HARTS](_ => DISARMED);
      streak, aborts, motor := 0, 0, [];
    }

    /** `txn_arm` on hart `h`. */
    method ArmSlot(h: nat, sp: nat, pc: nat)
      requires slots.Length == MAX_HARTS
      modifies slots
      ensures Current() == Step(enabled, old(Current()), Arm(h, sp, pc)).0
    {
      if !enabled { return; }
      if h < MAX_HARTS {
        slots[h] := Slot(true, sp, pc);
      }
    }

    /** `txn_try_rollback` on hart `h`. */
    method TryRollback(h: nat, frame: TrapFrame, cause: nat) returns (handled: bool)
      requires slots.Length == MAX_HARTS && frame.regs.Length == 32
      modifies this, slots, frame, frame.regs
      ensures slots.Length == MAX_HARTS
      ensures (Current(), if handled then Restart(frame.regs[2], frame.sepc) else Declined)
           == Step(enabled, old(Current()), Fault(h, cause))
      ensures handled ==> frame.regs[..] == old(frame.regs[..])[2 := frame.regs[2]]
      ensures !handled ==> frame.regs[..] == old(frame.regs[..]) && frame.sepc == old(frame.sepc)
    {
      if !enabled || !Recoverable(cause) {
        return false;
      }
      if h >= MAX_HARTS || !slots[h].armed {
        return false;
      }
      if streak >= MAX_RESTARTS {
        return false;
      }
      slots[h] := slots[h].(armed := false);
      streak := streak + 1;
      aborts := Increment(aborts);
      motor := motor + [(0, 0)];
      var slot := slots[h];
      frame.regs[SP] := slot.sp;
      frame.sepc := slot.pc;
      return true;
    }

    /** `txn_note_tick_complete`. */
    method NoteTickComplete()
      requires slots.Length == MAX_HARTS
      modifies this
      ensures Current() == Step(enabled, old(Current()), TickComplete).0
    {
      if !enabled { return; }
      if streak != 0 {
        streak := 0;
      }
    }
  }

  // ── Histories ──────────────────────────────────────────────────────────

  /** What happened and what came of it, oldest first. */
  type History = seq<(Event, Outcome)>

  function After(enabled: bool, es: seq<Event>): (s: State)
    ensures |s.slots| == MAX_HARTS
  {
    if es == [] then Initial()
    else Step(enabled, After(enabled, es[..|es| - 1]), es[|es| - 1]).0
  }

  function Past(enabled: bool, es: seq<Event>): (hist: History)
    ensures |hist| == |es|
  {
    if es == [] then []
    else
      var e := es[|es| - 1];
      Past(enabled, es[..|es| - 1]) + [(e, Step(enabled, After(enabled, es[..|es| - 1]), e).1)]
  }

  function Rollbacks(hist: History): nat
  {
    if hist == [] then 0
    else Rollbacks(hist[..|hist| - 1]) + if hist[|hist| - 1].1.Restart? then 1 else 0
  }

  /** Rollbacks since the last completed tick. */
  function RollbacksSinceTick(hist: History): nat
  {
    if hist == [] || hist[|hist| - 1].0 == TickComplete then 0
    else RollbacksSinceTick(hist[..|hist| - 1]) + if hist[|hist| - 1].1.Restart? then 1 else 0
  }

  /** The checkpoint hart `h` armed last, unless it has rolled back since. */
  function Checkpoint(hist: History, h: nat): Option<(nat, nat)>
  {
    if hist == [] then None
    else
      var (e, out) := hist[|hist| - 1];
      if e.Arm? && e.hart == h then Some((e.sp, e.pc))
      else if e.Fault? && e.hart == h && out.Restart? then None
      else Checkpoint(hist[..|hist| - 1], h)
  }

  // The memory of the machine says exactly what the history says.

  lemma {:induction false} StreakTellsRollbacks(es: seq<Event>)
    ensures After(true, es).streak == RollbacksSinceTick(Past(true, es)) <= 8
  {
    if es != [] {
      var n := |es| - 1;
      StreakTellsRollbacks(es[..n]);
      assert Past(true, es)[..n] == Past(true, es[..n]);
    }
  }

  function Zeros(n: nat): seq<(int, int)>
  {
    if n == 0 then [] else Zeros(n - 1) + [(0, 0)]
  }

  lemma {:induction false} StepStopsTheMotors(s: State, hist: History, e: Event)
    requires |s.slots| == MAX_HARTS && s.motor == Zeros(Rollbacks(hist))
    ensures var (t, out) := Step(true, s, e); t.motor == Zeros(Rollbacks(hist + [(e, out)]))
  {
    var (t, out) := Step(true, s, e);
    assert (hist + [(e, out)])[..|hist|] == hist;
  }

  /** Every rollback, and nothing else, published a motor command, and it was zero. */
  lemma {:induction false} EveryRollbackStopsTheMotors(es: seq<Event>)
    ensures After(true, es).motor == Zeros(Rollbacks(Past(true, es)))
  {
    if es != [] {
      var n := |es| - 1;
      EveryRollbackStopsTheMotors(es[..n]);
      StepStopsTheMotors(After(true, es[..n]), Past(true, es[..n]), es[n]);
    }
  }

  /** The lifetime counter is the number of rollbacks, modulo 2^32. */
  lemma {:induction false} AbortsCountRollbacks(es: seq<Event>)
    ensures After(true, es).aborts == Rollbacks(Past(true, es)) % U32_SIZE
  {
    if es != [] {
      var n := |es| - 1;
      AbortsCountRollbacks(es[..n]);
      StepCountsRollbacks(After(true, es[..n]), Past(true, es[..n]), es[n]);
    }
  }

  lemma {:induction false} StepCountsRollbacks(s: State, hist: History, e: Event)
    requires |s.slots| == MAX_HARTS && s.aborts == Rollbacks(hist) % U32_SIZE
    ensures var (t, out) := Step(true, s, e); t.aborts == Rollbacks(hist + [(e, out)]) % U32_SIZE
  {
    var (t, out) := Step(true, s, e);
    assert (hist + [(e, out)])[..|hist|] == hist;
    CountUp(Rollbacks(hist));
  }

  /** The checkpoint a slot holds, while it is armed. */
  function Kept(slot: Slot): Option<(nat, nat)>
  {
    if slot.armed then Some((slot.sp, slot.pc)) else None
  }

  lemma {:induction false} SlotTellsCheckpoint(es: seq<Event>, h: nat)
    requires h < MAX_HARTS
    ensures var (s, hist) := (After(true, es), Past(true, es));
            Checkpoint(hist, h) == Kept(s.slots[h])
  {
    if es != [] {
      var n := |es| - 1;
      var (s, hist) := (After(true, es[..n]), Past(true, es[..n]));
      SlotTellsCheckpoint(es[..n], h);
      StepTellsCheckpoint(s, hist, es[n], h);
    }
  }

  lemma {:induction false} StepTellsCheckpoint(s: State, hist: History, e: Event, h: nat)
    requires |s.slots| == MAX_HARTS && h < MAX_HARTS && Checkpoint(hist, h) == Kept(s.slots[h])
    ensures var (t, out) := Step(true, s, e);
            |t.slots| == MAX_HARTS && Checkpoint(hist + [(e, out)], h) == Kept(t.slots[h])
  {
    var (t, out) := Step(true, s, e);
    assert (hist + [(e, out)])[..|hist|] == hist;
  }

  /**
    After every history, a fault is rolled back exactly when it is a misaligned load or store, the
    hart is one of the first eight and has an unspent checkpoint, and fewer than eight rollbacks lie
    behind the last completed tick; then the control task resumes at that checkpoint and one more zero
    motor command has been published. Every other fault is declined and changes nothing.
    */
  lemma {:induction false} RolledBackIff(es: seq<Event>, h: nat, cause: nat)
    ensures var (s, hist) := (After(true, es), Past(true, es));
            var (next, out) := Step(true, s, Fault(h, cause));
            && (out.Restart? <==>
                  && (cause == 4 || cause == 6) && h < 8
                  && Checkpoint(hist, h).Some? && RollbacksSinceTick(hist) < 8)
            && (out.Restart? ==>
                  Checkpoint(hist, h) == Some((out.sp, out.pc)) && next.motor == s.motor + [(0, 0)])
            && (!out.Restart? ==> out == Declined && next == s)
  {
    StreakTellsRollbacks(es);
    if h < MAX_HARTS { SlotTellsCheckpoint(es, h); }
  }

  /** With the feature off nothing is ever rolled back and nothing is remembered. */
  lemma {:induction false} DisabledIsInert(es: seq<Event>)
    ensures After(false, es) == Initial() && Rollbacks(Past(false, es)) == 0
  {
    if es != [] {
      var n := |es| - 1;
      DisabledIsInert(es[..n]);
      var (s, hist) := (After(false, es[..n]), Past(false, es[..n]));
      assert (hist + [(es[n], Step(false, s, es[n]).1)])[..n] == hist;
    }
  }

  /** The control task re-arming at its entry and faulting again, `n` times. */
  function Recurring(h: nat, sp: nat, pc: nat, cause: nat, n: nat): seq<Event>
  {
    if n == 0 then [] else Recurring(h, sp, pc, cause, n - 1) + [Arm(h, sp, pc), Fault(h, cause)]
  }

  function Capped(n: nat): nat
  {
    if n < MAX_RESTARTS then n else MAX_RESTARTS
  }

  lemma {:induction false} RecurringStreak(es: seq<Event>, h: nat, sp: nat, pc: nat, cause: nat, n: nat)
    requires h < MAX_HARTS && Recoverable(cause) && After(true, es).streak <= MAX_RESTARTS
    ensures After(true, es + Recurring(h, sp, pc, cause, n)).streak == Capped(After(true, es).streak + n)
  {
    if n == 0 {
      assert es + Recurring(h, sp, pc, cause, 0) == es;
    } else {
      RecurringStreak(es, h, sp, pc, cause, n - 1);
      RecurringSplit(es, h, sp, pc, cause, n);
      TwoMore(es + Recurring(h, sp, pc, cause, n - 1), h, sp, pc, cause);
    }
  }

  lemma {:induction false} RecurringSplit(es: seq<Event>, h: nat, sp: nat, pc: nat, cause: nat, n: nat)
    requires n > 0
    ensures es + Recurring(h, sp, pc, cause, n)
         == es + Recurring(h, sp, pc, cause, n - 1) + [Arm(h, sp, pc), Fault(h, cause)]
  {}

  /** A fault that recurs before any tick completes is rolled back eight times in all, then it is fatal. */
  lemma {:induction false} RecurringFaultIsFatal(es: seq<Event>, h: nat, sp: nat, pc: nat, cause: nat, n: nat)
    requires h < 8 && (cause == 4 || cause == 6) && n > 0
    ensures var before := RollbacksSinceTick(Past(true, es));
            var hist := Past(true, es + Recurring(h, sp, pc, cause, n));
            && hist != []
            && hist[|hist| - 1].1 == if before + n <= 8 then Restart(sp, pc) else Declined
  {
    StreakTellsRollbacks(es);
    RecurringStreak(es, h, sp, pc, cause, n - 1);
    RecurringSplit(es, h, sp, pc, cause, n);
    TwoMore(es + Recurring(h, sp, pc, cause, n - 1), h, sp, pc, cause);
  }

  lemma {:induction false} TwoMore(es: seq<Event>, h: nat, sp: nat, pc: nat, cause: nat)
    requires h < MAX_HARTS && Recoverable(cause)
    ensures var s := After(true, es);
            var all := es + [Arm(h, sp, pc), Fault(h, cause)];
            var (t, hist) := (After(true, all), Past(true, all));
            && |hist| == |es| + 2
            && t.streak == (if s.streak < MAX_RESTARTS then s.streak + 1 else s.streak)
            && hist[|es| + 1].1 == if s.streak < MAX_RESTARTS then Restart(sp, pc) else Declined
  {
    var all := es + [Arm(h, sp, pc), Fault(h, cause)];
    var mid := es + [Arm(h, sp, pc)];
    assert all[..|es| + 1] == mid && mid[..|es|] == es;
    assert After(true, mid) == Step(true, After(true, es), Arm(h, sp, pc)).0;
  }
}

/**
  The restart budget at the level of single atomic operations: `txn_try_rollback` loads the streak
  and increments it later, and `txn_note_tick_complete` loads it and stores zero later, so other
  harts can act in between. Only a hart with an armed slot gets as far as the load.
  */
module TxnRaces {
  const MAX_RESTARTS := 8
  const MAX_HARTS := 8

  /**
    `inWindow`: harts past the load, before the increment. `clearing`: harts between the two
    operations of a completed tick. `rollbacks`: increments since a tick completed.
    */
  datatype State = State(armed: set<nat>, streak: nat, inWindow: set<nat>, clearing: set<nat>, rollbacks: nat)

  /** A tick completes where its load sees zero, or else at its store. */
  datatype Step =
    | Arm(hart: nat)
    | LoadStreak(hart: nat)
    | Increment(hart: nat)
    | TickLoad(hart: nat)
    | TickStore(hart: nat)

  const INITIAL := State({}, 0, {}, {}, 0)

  predicate Idle(s: State, h: nat)
  {
    h < MAX_HARTS && h !in s.inWindow && h !in s.clearing
  }

  /** One step of one hart; a step that is not enabled changes nothing. */
  function Apply(s: State, step: Step): State
  {
    match step
    case Arm(h) => if Idle(s, h) then s.(armed := s.armed + {h}) else s
    case LoadStreak(h) =>
      if Idle(s, h) && h in s.armed && s.streak < MAX_RESTARTS then s.(inWindow := s.inWindow + {h}) else s
    case Increment(h) =>
      if h in s.inWindow
      then s.(armed := s.armed - {h}, streak := s.streak + 1, inWindow := s.inWindow - {h},
              rollbacks := s.rollbacks + 1)
      else s
    case TickLoad(h) =>
      if !Idle(s, h) then s
      else if s.streak == 0 then s.(rollbacks := 0) else s.(clearing := s.clearing + {h})
    case TickStore(h) =>
      if h in s.clearing then s.(streak := 0, clearing := s.clearing - {h}, rollbacks := 0) else s
  }

  function Run(s: State, steps: seq<Step>): State
  {
    if steps == [] then s
    else Apply(Run(s, steps[..|steps| - 1]), steps[|steps| - 1])
  }

  /** The harts that ever arm a slot. */
  function Arming(steps: seq<Step>): set<nat>
  {
    if steps == [] then {}
    else
      var step := steps[|steps| - 1];
      Arming(steps[..|steps| - 1]) + if step.Arm? && step.hart < MAX_HARTS then {step.hart} else {}
  }

  ghost predicate Inv(s: State, arming: set<nat>)
  {
    && s.rollbacks == s.streak
    && s.inWindow <= s.armed <= arming
    && s.streak + |s.inWindow| <= MAX_RESTARTS - 1 + |arming|
  }

  lemma {:induction false} SubsetSize(a: set<nat>, b: set<nat>)
    requires a <= b
    ensures |a| <= |b|
  {
    if a != {} {
      var x :| x in a;
      SubsetSize(a - {x}, b - {x});
    }
  }

  lemma {:induction false} StepKeeps(s: State, step: Step, arming: set<nat>, after: set<nat>)
    requires Inv(s, arming)
    requires after == arming + if step.Arm? && step.hart < MAX_HARTS then {step.hart} else {}
    ensures Inv(Apply(s, step), after)
  {
    var t := Apply(s, step);
    SubsetSize(arming, after);
    SubsetSize(t.inWindow, after);
  }

  lemma {:induction false} RunKeeps(steps: seq<Step>)
    ensures Inv(Run(INITIAL, steps), Arming(steps))
  {
    if steps != [] {
      var front := steps[..|steps| - 1];
      RunKeeps(front);
      StepKeeps(Run(INITIAL, front), steps[|steps| - 1], Arming(front), Arming(steps));
    }
  }

  /** In every interleaving at most `7 + n` rollbacks happen between completed ticks, where `n` harts ever arm. */
  lemma {:induction false} RacyBudget(steps: seq<Step>)
    ensures Run(INITIAL, steps).rollbacks <= 7 + |Arming(steps)|
  {
    RunKeeps(steps);
  }

  /** Only the control task arms, and it is pinned to hart 0: then the documented budget of eight holds. */
  lemma {:induction false} PinnedBudget(steps: seq<Step>)
    requires forall i :: 0 <= i < |steps| && steps[i].Arm? ==> steps[i].hart == 0
    ensures Run(INITIAL, steps).rollbacks <= 8
  {
    OnlyZeroArms(steps);
    SubsetSize(Arming(steps), {0});
    RacyBudget(steps);
  }

  lemma {:induction false} OnlyZeroArms(steps: seq<Step>)
    requires forall i :: 0 <= i < |steps| && steps[i].Arm? ==> steps[i].hart == 0
    ensures Arming(steps) <= {0}
  {
    if steps != [] { OnlyZeroArms(steps[..|steps| - 1]); }
  }

  // ── The bound is met ───────────────────────────────────────────────────

  /** Hart 0 arming and rolling back `k` times. */
  function Serial(k: nat): seq<Step>
  {
    if k == 0 then [] else Serial(k - 1) + [Arm(0), LoadStreak(0), Increment(0)]
  }

  /** Harts below `n` each taking one step of the same kind. */
  function Arms(n: nat): (r: seq<Step>)
    ensures |r| == n
  {
    seq(n, i requires 0 <= i < n => Arm(i))
  }

  function Loads(n: nat): (r: seq<Step>)
    ensures |r| == n
  {
    seq(n, i requires 0 <= i < n => LoadStreak(i))
  }

  function Increments(n: nat): (r: seq<Step>)
    ensures |r| == n
  {
    seq(n, i requires 0 <= i < n => Increment(i))
  }

  function Crowd(n: nat): seq<Step>
  {
    Serial(MAX_RESTARTS - 1) + (Arms(n) + (Loads(n) + Increments(n)))
  }

  /** The harts from `m` to below `n`. */
  function Between(m: nat, n: nat): (s: set<nat>)
    ensures forall h: nat :: h in s <==> m <= h < n
    decreases n - m
  {
    if m >= n then {} else {m} + Between(m + 1, n)
  }

  lemma {:induction false} BetweenSize(m: nat, n: nat)
    requires m <= n
    ensures |Between(m, n)| == n - m
    decreases n - m
  {
    if m < n { BetweenSize(m + 1, n); }
  }

  lemma {:induction false} BetweenGrows(n: nat)
    ensures Between(0, n) + {n} == Between(0, n + 1)
  {}

  lemma {:induction false} BetweenShrinks(m: nat, n: nat)
    requires m < n
    ensures Between(m, n) - {m} == Between(m + 1, n)
  {}

  lemma {:induction false} RunTwo(s: State, a: seq<Step>, b: seq<Step>)
    ensures Run(s, a + b) == Run(Run(s, a), b)
  {
    if b == [] {
      assert a + b == a;
    } else {
      RunTwo(s, a, b[..|b| - 1]);
      assert (a + b)[..|a + b| - 1] == a + b[..|b| - 1];
    }
  }

  lemma {:induction false} RunOne(s: State, a: seq<Step>, x: Step)
    ensures Run(s, a + [x]) == Apply(Run(s, a), x)
  {
    assert (a + [x])[..|a|] == a;
  }

  lemma {:induction false} SerialRun(k: nat)
    requires k <= MAX_RESTARTS
    ensures Run(INITIAL, Serial(k)) == State({}, k, {}, {}, k)
  {
    if k > 0 {
      SerialRun(k - 1);
      var a := Serial(k - 1);
      RunOne(INITIAL, a, Arm(0));
      RunOne(INITIAL, a + [Arm(0)], LoadStreak(0));
      RunOne(INITIAL, a + [Arm(0)] + [LoadStreak(0)], Increment(0));
      assert Serial(k) == a + [Arm(0)] + [LoadStreak(0)] + [Increment(0)];
      assert {0} - {0} == {};
    }
  }

  /** A run through given states, step by step. */
  lemma {:induction false} RunThrough(states: seq<State>, steps: seq<Step>)
    requires |states| == |steps| + 1
    requires forall i :: 0 <= i < |steps| ==> Apply(states[i], steps[i]) == states[i + 1]
    ensures Run(states[0], steps) == states[|steps|]
  {
    if steps != [] {
      var n := |steps| - 1;
      RunThrough(states[..|steps|], steps[..n]);
    }
  }

  lemma {:induction false} ArmsRun(n: nat, k: nat)
    requires n <= MAX_HARTS
    ensures Run(State({}, k, {}, {}, k), Arms(n)) == State(Between(0, n), k, {}, {}, k)
  {
    var states := seq(n + 1, i requires 0 <= i <= n => State(Between(0, i), k, {}, {}, k));
    forall i | 0 <= i < n ensures Apply(states[i], Arms(n)[i]) == states[i + 1] {
      BetweenGrows(i);
    }
    RunThrough(states, Arms(n));
  }

  lemma {:induction false} LoadOne(n: nat, i: nat, k: nat)
    requires i < n <= MAX_HARTS && k < MAX_RESTARTS
    ensures Apply(State(Between(0, n), k, Between(0, i), {}, k), LoadStreak(i))
         == State(Between(0, n), k, Between(0, i + 1), {}, k)
  {
    BetweenGrows(i);
  }

  lemma {:induction false} LoadsRun(n: nat, k: nat)
    requires n <= MAX_HARTS && k < MAX_RESTARTS
    ensures Run(State(Between(0, n), k, {}, {}, k), Loads(n)) == State(Between(0, n), k, Between(0, n), {}, k)
  {
    var states := seq(n + 1, i requires 0 <= i <= n => State(Between(0, n), k, Between(0, i), {}, k));
    forall i | 0 <= i < n ensures Apply(states[i], Loads(n)[i]) == states[i + 1] { LoadOne(n, i, k); }
    RunThrough(states, Loads(n));
  }

  lemma {:induction false} IncrementOne(m: nat, n: nat, k: nat)
    requires m < n
    ensures Apply(State(Between(m, n), k, Between(m, n), {}, k), Increment(m))
         == State(Between(m + 1, n), k + 1, Between(m + 1, n), {}, k + 1)
  {
    BetweenShrinks(m, n);
  }

  lemma {:induction false} IncrementsRun(n: nat, k: nat)
    ensures Run(State(Between(0, n), k, Between(0, n), {}, k), Increments(n)) == State({}, k + n, {}, {}, k + n)
  {
    var states := seq(n + 1, i requires 0 <= i <= n => State(Between(i, n), k + i, Between(i, n), {}, k + i));
    forall i | 0 <= i < n ensures Apply(states[i], Increments(n)[i]) == states[i + 1] { IncrementOne(i, n, k + i); }
    RunThrough(states, Increments(n));
  }

  lemma {:induction false} ArmingTwo(a: seq<Step>, b: seq<Step>)
    ensures Arming(a + b) == Arming(a) + Arming(b)
  {
    if b == [] {
      assert a + b == a;
    } else {
      ArmingTwo(a, b[..|b| - 1]);
      assert (a + b)[..|a + b| - 1] == a + b[..|b| - 1];
    }
  }

  lemma {:induction false} SerialArming(k: nat)
    ensures Arming(Serial(k)) <= {0}
  {
    if k > 0 {
      SerialArming(k - 1);
      ArmingTwo(Serial(k - 1), [Arm(0), LoadStreak(0), Increment(0)]);
      OnlyZeroArms([Arm(0), LoadStreak(0), Increment(0)]);
    }
  }

  lemma {:induction false} ArmsArming(n: nat)
    requires n <= MAX_HARTS
    ensures Arming(Arms(n)) == Between(0, n)
  {
    if n > 0 {
      ArmsArming(n - 1);
      assert Arms(n)[..n - 1] == Arms(n - 1);
      BetweenGrows(n - 1);
    } else {
      assert Arms(0) == [];
    }
  }

  lemma {:induction false} NoneArms(steps: seq<Step>)
    requires forall i :: 0 <= i < |steps| ==> !steps[i].Arm?
    ensures Arming(steps) == {}
  {
    if steps != [] { NoneArms(steps[..|steps| - 1]); }
  }

  lemma {:induction false} CrowdArming(n: nat)
    requires 0 < n <= MAX_HARTS
    ensures Arming(Crowd(n)) == Between(0, n)
  {
    var tail := Loads(n) + Increments(n);
    ArmingTwo(Serial(MAX_RESTARTS - 1), Arms(n) + tail);
    ArmingTwo(Arms(n), tail);
    SerialArming(MAX_RESTARTS - 1);
    ArmsArming(n);
    NoneArms(tail);
    assert 0 in Between(0, n);
  }

  /** The bound is met for every number of arming harts: with the one the kernel has, exactly eight. */
  lemma {:induction false} RacyBudgetAttained(n: nat)
    requires 0 < n <= MAX_HARTS
    ensures |Arming(Crowd(n))| == n
    ensures Run(INITIAL, Crowd(n)).rollbacks == 7 + n
  {
    var k := MAX_RESTARTS - 1;
    CrowdArming(n);
    BetweenSize(0, n);
    SerialRun(k);
    RunTwo(INITIAL, Serial(k), Arms(n) + (Loads(n) + Increments(n)));
    RunTwo(State({}, k, {}, {}, k), Arms(n), Loads(n) + Increments(n));
    RunTwo(State(Between(0, n), k, {}, {}, k), Loads(n), Increments(n));
    ArmsRun(n, k);
    LoadsRun(n, k);
    IncrementsRun(n, k);
  }
}
