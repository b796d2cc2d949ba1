/**
  The heartbeat-gated watchdog feed: the timer interrupt on hart 0 kicks the hardware watchdog only
  while the control task's heartbeat advances, with a grace of 40 ticks.
  */
module Watchdog {
  import opened Bytes
  import opened Integers

  const STALL_LIMIT := 40

  /** `Abort` is the panic of a checked addition that overflows. */
  datatype Outcome = Kick | Starve | Abort

  /** The feeder's own memory: the heartbeat seen last and the ticks since it moved. */
  datatype Feeder = Feeder(last: nat, stall: nat)

  const INITIAL := Feeder(0, 0)

  function Tick(f: Feeder, hb: nat): (Feeder, Outcome)
  {
    if hb != f.last then (Feeder(hb, 0), Kick)
    else if hb == 0 then (f, Kick)
    else if f.stall + 1 == U32_SIZE then (f.(stall := 0), Abort)
    else (f.(stall := f.stall + 1), if f.stall + 1 <= STALL_LIMIT then Kick else Starve)
  }

  class WatchdogFeed {
    /** Incremented by the control task once per completed iteration. */
    var heartbeat: nat
    var last: nat
    var stall: nat

    ghost function Memory(): Feeder
      reads this
    {
      Feeder(last, stall)
    }

    constructor ()
      ensures heartbeat == 0 && Memory() == INITIAL
    {
      heartbeat, last, stall := 0, 0, 0;
    }

    method Beat()
      modifies this`heartbeat
      ensures heartbeat == Increment(old(heartbeat))
    {
      heartbeat := Increment(heartbeat);
    }

    /** The watchdog part of the timer interrupt on hart `hart`; `None` is a tick that leaves the watchdog to hart 0. */
    method OnTimer(hart: nat) returns (did: Option<Outcome>)
      modifies this`last, this`stall
      ensures hart != 0 ==> did == None && Memory() == old(Memory())
      ensures hart == 0 ==> did.Some? && (Memory(), did.value) == Tick(old(Memory()), heartbeat)
    {
      if hart != 0 { return None; }
      var hb := heartbeat;
      if hb != last {
        last := hb;
        stall := 0;
        return Some(Kick);
      }
      if hb == 0 { return Some(Kick); }
      var before := stall;
      stall := Increment(before);
      if before + 1 == U32_SIZE { return Some(Abort); }
      return Some(if before + 1 <= STALL_LIMIT then Kick else Starve);
    }
  }

  // ── Whole runs: the heartbeat values the ticks observe, oldest first ───

  /** The heartbeat before tick `i`. */
  function Previous(obs: seq<nat>, i: nat): nat
    requires i <= |obs|
  {
    if i == 0 then 0 else obs[i - 1]
  }

  predicate Advances(obs: seq<nat>, i: nat)
    requires i < |obs|
  {
    obs[i] != Previous(obs, i)
  }

  /** How many of the latest ticks in a row saw no advance. */
  function Stalled(obs: seq<nat>): (n: nat)
    ensures n <= |obs|
    ensures forall i :: |obs| - n <= i < |obs| ==> !Advances(obs, i)
  {
    if obs == [] then 0
    else
      var front := obs[..|obs| - 1];
      assert forall i :: 0 <= i < |front| ==> (Advances(front, i) <==> Advances(obs, i));
      if Advances(obs, |obs| - 1) then 0 else Stalled(front) + 1
  }

  /** The feeder after a run, or `None` once it has panicked. */
  function After(obs: seq<nat>): Option<Feeder>
  {
    if obs == [] then Some(INITIAL)
    else
      match After(obs[..|obs| - 1])
      case None => None
      case Some(f) => if Tick(f, obs[|obs| - 1]).1 == Abort then None else Some(Tick(f, obs[|obs| - 1]).0)
  }

  /** The outcome of the last tick; a panicked kernel feeds nothing. */
  function LastOutcome(obs: seq<nat>): Outcome
    requires obs != []
  {
    match After(obs[..|obs| - 1])
    case None => Abort
    case Some(f) => Tick(f, obs[|obs| - 1]).1
  }

  /** No heartbeat other than zero has stood still for 2^32 ticks. */
  ghost predicate ShortStalls(obs: seq<nat>)
  {
    forall i :: 0 < i <= |obs| ==> obs[i - 1] == 0 || Stalled(obs[..i]) < U32_SIZE
  }

  lemma {:induction false} MemoryTellsStall(obs: seq<nat>)
    requires ShortStalls(obs)
    ensures After(obs) == Some(Feeder(Previous(obs, |obs|), if Previous(obs, |obs|) == 0 then 0 else Stalled(obs)))
  {
    if obs != [] {
      var front := obs[..|obs| - 1];
      ShortFront(obs);
      MemoryTellsStall(front);
      assert obs[..|obs|] == obs;
    }
  }

  lemma {:induction false} ShortFront(obs: seq<nat>)
    requires ShortStalls(obs) && obs != []
    ensures ShortStalls(obs[..|obs| - 1])
  {
    var front := obs[..|obs| - 1];
    forall i | 0 < i <= |front| ensures front[i - 1] == 0 || Stalled(front[..i]) < U32_SIZE {
      assert front[..i] == obs[..i];
    }
  }

  /** In every run a tick kicks exactly when the heartbeat is zero or has stood still for at most 40 ticks. */
  lemma {:induction false} FedIff(obs: seq<nat>)
    requires obs != [] && ShortStalls(obs)
    ensures LastOutcome(obs) == if obs[|obs| - 1] == 0 || Stalled(obs) <= 40 then Kick else Starve
  {
    ShortFront(obs);
    MemoryTellsStall(obs[..|obs| - 1]);
    assert obs[..|obs|] == obs;
  }

  /** The tick that completes a stall of 2^32 panics instead. */
  lemma {:induction false} LongStallAborts(obs: seq<nat>)
    requires obs != [] && ShortStalls(obs[..|obs| - 1])
    requires obs[|obs| - 1] != 0 && Stalled(obs) == U32_SIZE
    ensures LastOutcome(obs) == Abort && After(obs) == None
  {
    MemoryTellsStall(obs[..|obs| - 1]);
  }

  /** `n` more ticks that see `v`. */
  function Standing(v: nat, n: nat): (s: seq<nat>)
    ensures |s| == n && forall i :: 0 <= i < n ==> s[i] == v
  {
    if n == 0 then [] else Standing(v, n - 1) + [v]
  }

  lemma {:induction false} StalledAfter(obs: seq<nat>, v: nat, n: nat)
    requires v != Previous(obs, |obs|)
    ensures Stalled(obs + [v] + Standing(v, n)) == n
  {
    var all := obs + [v] + Standing(v, n);
    if n == 0 {
      assert all == obs + [v];
      assert all[|obs|] == v && Previous(all, |obs|) == Previous(obs, |obs|);
    } else {
      StalledAfter(obs, v, n - 1);
      assert all[..|all| - 1] == obs + [v] + Standing(v, n - 1);
      assert all[|all| - 1] == v && all[|all| - 2] == v;
    }
  }

  lemma {:induction false} StandingIsShort(obs: seq<nat>, v: nat, n: nat)
    requires ShortStalls(obs) && v != Previous(obs, |obs|) && (v == 0 || n < U32_SIZE)
    ensures ShortStalls(obs + [v] + Standing(v, n))
  {
    var all := obs + [v] + Standing(v, n);
    forall i | 0 < i <= |all| ensures all[i - 1] == 0 || Stalled(all[..i]) < U32_SIZE {
      if i <= |obs| {
        assert all[..i] == obs[..i];
      } else {
        var k := i - |obs| - 1;
        assert all[..i] == obs + [v] + Standing(v, k);
        StalledAfter(obs, v, k);
      }
    }
  }

  /**
    Once the heartbeat has moved to `v` and stops there, the `n`th tick after that kicks exactly
    when `n <= 40`: forty more kicks, then none. A heartbeat that wrapped to zero is fed for ever.
    */
  lemma {:induction false} StoppedHeartbeatStarves(obs: seq<nat>, v: nat, n: nat)
    requires ShortStalls(obs) && v != Previous(obs, |obs|) && (v == 0 || n < U32_SIZE)
    ensures LastOutcome(obs + [v] + Standing(v, n)) == if v == 0 || n <= 40 then Kick else Starve
  {
    StandingIsShort(obs, v, n);
    StalledAfter(obs, v, n);
    FedIff(obs + [v] + Standing(v, n));
  }

  /** Before the first heartbeat every tick kicks. */
  lemma {:induction false} FedBeforeFirstBeat(n: nat)
    ensures ShortStalls(Standing(0, n))
    ensures n > 0 ==> LastOutcome(Standing(0, n)) == Kick
  {
    if n > 0 { FedIff(Standing(0, n)); }
  }

  /** In every 41 consecutive ticks the heartbeat advances. */
  ghost predicate Lively(obs: seq<nat>)
  {
    forall i :: 0 <= i && i + 41 <= |obs| ==> AdvancesWithin(obs, i)
  }

  ghost predicate AdvancesWithin(obs: seq<nat>, i: nat)
    requires i + 41 <= |obs|
  {
    exists j :: i <= j < i + 41 && Advances(obs, j)
  }

  lemma {:induction false} LivelyStalls(obs: seq<nat>, t: nat)
    requires Lively(obs) && 0 < t <= |obs|
    ensures Stalled(obs[..t]) <= STALL_LIMIT
  {
    var n := Stalled(obs[..t]);
    forall j | t - n <= j < t ensures !Advances(obs, j) {
      assert !Advances(obs[..t], j);
    }
    assert t > STALL_LIMIT ==> AdvancesWithin(obs, t - STALL_LIMIT - 1);
  }

  /** A control task that advances in every 41 ticks is never starved. */
  lemma {:induction false} LivelyIsAlwaysFed(obs: seq<nat>, t: nat)
    requires Lively(obs) && 0 < t <= |obs|
    ensures LastOutcome(obs[..t]) == Kick
  {
    forall i | 0 < i <= t ensures obs[..t][i - 1] == 0 || Stalled(obs[..t][..i]) < U32_SIZE {
      assert obs[..t][..i] == obs[..i];
      LivelyStalls(obs, i);
    }
    LivelyStalls(obs, t);
    FedIff(obs[..t]);
  }

  // ── From beats to observed values ──────────────────────────────────────

  /** The heartbeat `v` after `k` more iterations of the control task. */
  function Beaten(v: nat, k: nat): nat
  {
    if k == 0 then v else Increment(Beaten(v, k - 1))
  }

  lemma {:induction false} BeatenIs(v: nat, k: nat)
    requires v < U32_SIZE
    ensures Beaten(v, k) == (v + k) % U32_SIZE
  {
    if k > 0 {
      BeatenIs(v, k - 1);
      CountUp(v + k - 1);
    }
  }

  /** The heartbeat seen by each tick, after `beats[i]` iterations since the one before. */
  function Observed(beats: seq<nat>): (obs: seq<nat>)
    ensures |obs| == |beats|
  {
    if beats == [] then []
    else
      var front := Observed(beats[..|beats| - 1]);
      front + [Beaten(Previous(front, |front|), beats[|beats| - 1])]
  }

  lemma {:induction false} ObservedBelow(beats: seq<nat>)
    ensures forall i :: 0 <= i < |beats| ==> Observed(beats)[i] < U32_SIZE
  {
    if beats != [] {
      var front := Observed(beats[..|beats| - 1]);
      ObservedBelow(beats[..|beats| - 1]);
      BeatenIs(Previous(front, |front|), beats[|beats| - 1]);
    }
  }

  lemma {:induction false} ObservedPrefix(beats: seq<nat>, k: nat)
    requires k <= |beats|
    ensures Observed(beats)[..k] == Observed(beats[..k])
  {
    if k < |beats| {
      ObservedPrefix(beats[..|beats| - 1], k);
      assert beats[..|beats| - 1][..k] == beats[..k];
    } else {
      assert beats[..k] == beats;
    }
  }

  /** A tick sees an advance exactly when the iterations since the last tick are no multiple of 2^32. */
  lemma {:induction false} AdvanceObservedIff(beats: seq<nat>, i: nat)
    requires i < |beats|
    ensures Advances(Observed(beats), i) <==> beats[i] % U32_SIZE != 0
  {
    var obs := Observed(beats);
    ObservedPrefix(beats, i + 1);
    ObservedPrefix(beats, i);
    assert beats[..i + 1][..i] == beats[..i];
    assert obs[..i + 1][i] == obs[i] && (i > 0 ==> obs[..i][i - 1] == obs[i - 1]);
    ObservedBelow(beats);
    BeatenIs(Previous(obs, i), beats[i]);
    MovedIff(Previous(obs, i), beats[i]);
  }

  lemma {:induction false} MovedIff(a: nat, b: nat)
    requires a < U32_SIZE
    ensures (a + b) % U32_SIZE == a <==> b % U32_SIZE == 0
  {}
}
