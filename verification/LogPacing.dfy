/**
  What the periodic tick is for: it keeps the ring from overflowing. With the tick flushing from half
  the ring on, 65 records between two ticks are safe and 66 are not.
  */
module LogPacing {
  import opened Bytes
  import opened LogFormat
  import opened LogRing
  import opened Logger
  import opened LogRotation

  /** The records pushed since the latest tick. */
  function SinceTick(es: seq<Event>): nat
  {
    if es == [] || es[|es| - 1].Ticking? then 0
    else SinceTick(es[..|es| - 1]) + |Pushed(Run(es[..|es| - 1]).state, es[|es| - 1])|
  }

  /** At most `n` records are pushed before the first tick, between two ticks and after the last. */
  ghost predicate Paced(es: seq<Event>, n: nat)
  {
    es == [] || (SinceTick(es) <= n && Paced(es[..|es| - 1], n))
  }

  lemma {:induction false} StepKeepsRoom(s: State, e: Event, since: nat)
    requires Bounded(s) && |s.ring| <= 63 + since && |s.ring| <= 128
    ensures |Step(s, e).ring| <= 63 + if e.Ticking? then 0 else since + |Pushed(s, e)|
    ensures |Step(s, e).ring| <= 128
  {}

  lemma {:induction false} NotSame(g: Fate, n: nat)
    requires g != Dropped
    ensures Dropped !in Same(g, n)
  {
    if n > 0 { NotSame(g, n - 1); }
  }

  lemma {:induction false} StepDropsIff(s: State, e: Event)
    ensures Dropped in Fates(s, e) <==> e.Logging? && s.active && |s.ring| == 128
  {
    NotSame(Written, |s.ring|);
    NotSame(Lost, |s.ring|);
  }

  /** In every run with at most 65 records between ticks nothing is dropped. */
  lemma {:induction false} PacedDropsNothing(es: seq<Event>)
    requires Paced(es, 65)
    ensures Dropped !in Run(es).fates && |Run(es).state.ring| <= 63 + SinceTick(es)
  {
    if es != [] {
      var front, e := es[..|es| - 1], es[|es| - 1];
      PacedDropsNothing(front);
      EveryRecordAccounted(front);
      StepKeepsRoom(Run(front).state, e, SinceTick(front));
      StepDropsIff(Run(front).state, e);
    }
  }

  // ── The bound is exact ─────────────────────────────────────────────────

  /** A property of a run and a count that one more record keeps. */
  ghost predicate Counts(p: (seq<Event>, nat) -> bool, rec: Record)
  {
    forall es: seq<Event>, k: nat {:trigger p(es, k), es + [Logging(rec)]} :: p(es, k) ==> p(es + [Logging(rec)], k + 1)
  }

  lemma {:induction false} LogsCount(p: (seq<Event>, nat) -> bool, es: seq<Event>, rec: Record, k: nat, n: nat)
    requires Counts(p, rec) && p(es, k)
    ensures p(es + Logs(rec, n), k + n)
  {
    if n == 0 {
      assert es + Logs(rec, 0) == es;
    } else {
      LogsCount(p, es, rec, k, n - 1);
      assert es + Logs(rec, n) == es + Logs(rec, n - 1) + [Logging(rec)];
    }
  }

  lemma {:induction false} PacedLogs(es: seq<Event>, rec: Record, n: nat, limit: nat)
    requires Paced(es, limit) && SinceTick(es) + n <= limit
    ensures Paced(es + Logs(rec, n), limit) && SinceTick(es + Logs(rec, n)) <= SinceTick(es) + n
  {
    ghost var p := (es': seq<Event>, k: nat) => k <= limit ==> Paced(es', limit) && SinceTick(es') <= k;
    forall es': seq<Event>, k: nat | p(es', k) ensures p(es' + [Logging(rec)], k + 1) {
      if k < limit { PacedMore(es', Logging(rec), limit); }
    }
    LogsCount(p, es, rec, SinceTick(es), n);
  }

  lemma {:induction false} PacedMore(es: seq<Event>, e: Event, limit: nat)
    requires Paced(es, limit) && (e.Ticking? || SinceTick(es) < limit)
    ensures Paced(es + [e], limit) && SinceTick(es + [e]) <= if e.Ticking? then 0 else SinceTick(es) + 1
  {
    assert (es + [e])[..|es|] == es;
  }

  /** A ring just short of the watermark, and a tick that leaves it so. */
  function JustShort(rec: Record): seq<Event>
  {
    Filling(rec, 0) + Logs(rec, 63) + [Ticking(GOOD)]
  }

  lemma {:induction false} TickLeaves(rec: Record)
    ensures Run(JustShort(rec)).state.active && |Run(JustShort(rec)).state.ring| == 63
  {
    Filled(rec, 0);
    LogsFill(Filling(rec, 0), rec, 63);
    RunSnoc(Filling(rec, 0) + Logs(rec, 63), Ticking(GOOD));
  }

  lemma {:induction false} JustShortPaced(rec: Record)
    ensures Paced(JustShort(rec), 66) && SinceTick(JustShort(rec)) == 0
  {
    assert Paced([], 66);
    PacedMore([], Starting(GOOD), 66);
    assert [] + [Starting(GOOD)] == Filling(rec, 0);
    PacedLogs(Filling(rec, 0), rec, 63, 66);
    PacedMore(Filling(rec, 0) + Logs(rec, 63), Ticking(GOOD), 66);
  }

  lemma {:induction false} FullRingDrops(es: seq<Event>, rec: Record)
    requires Run(es).state.active && |Run(es).state.ring| == 128
    ensures Dropped in Run(es + [Logging(rec)]).fates
  {
    RunSnoc(es, Logging(rec));
    StepDropsIff(Run(es).state, Logging(rec));
  }

  lemma {:induction false} OneMoreLog(es: seq<Event>, rec: Record, n: nat)
    ensures es + Logs(rec, n + 1) == es + Logs(rec, n) + [Logging(rec)]
  {}

  /** For 66 there is a run that drops a record. */
  lemma {:induction false} SixtySixDrop(rec: Record)
    ensures Paced(JustShort(rec) + Logs(rec, 66), 66) && Dropped in Run(JustShort(rec) + Logs(rec, 66)).fates
  {
    JustShortPaced(rec);
    PacedLogs(JustShort(rec), rec, 66, 66);
    TickLeaves(rec);
    LogsFill(JustShort(rec), rec, 65);
    FullRingDrops(JustShort(rec) + Logs(rec, 65), rec);
    OneMoreLog(JustShort(rec), rec, 65);
  }
}
