/**
  Whole runs of the authenticated link: the brain seals packets, the kernel seals its own, an
  adversary chooses every byte string that reaches the kernel, and any number of harts run
  `unwrap_consuming` and `wrap` concurrently, interleaved at their atomic steps.
  */
module LinkRuns {
  import opened Bitwise
  import opened Bytes
  import opened Envelope
  import AuthLink

  /** One `fetch_max` on the high-water mark: the message it was made for and the mark it replaced. */
  datatype Claim = Claim(msg: Message, prev: nat)

  /** Where a hart is inside `unwrap_consuming`: past the MAC check, or past the `fetch_max`. */
  datatype Pc = Verified(msg: Message) | Claimed(k: nat)

  datatype State = State(
    brainLog: seq<Message>,     // sealed by the brain, in order
    kernelLog: seq<Message>,    // sealed by the kernel, in order of its `fetch_add`
    watermark: nat,
    sendNonce: nat,
    harts: map<nat, Pc>,        // harts inside `unwrap_consuming`
    claims: seq<Claim>,         // in order of the `fetch_max`
    accepted: seq<nat>)         // indices of accepted claims, in order of acceptance

  datatype Step =
    | BrainSeal(msg: Message)
    | KernelSeal(inner: Bytes)
    | Verify(hart: nat, frame: Bytes, room: nat)
    | FetchMax(hart: nat)
    | Decide(hart: nat)

  /** The state right after `init` with the clock at `time`. */
  function Initial(time: nat): State
  {
    State([], [], 0, time, map[], [], [])
  }

  /** One atomic step; a step that is not enabled changes nothing. */
  function Apply(mac: Bytes -> Digest, s: State, step: Step): State
  {
    match step
    case BrainSeal(m) =>
      // The brain's nonces come from its clock and increase.
      if m.nonce >= U64_SIZE || (s.brainLog != [] && m.nonce <= s.brainLog[|s.brainLog| - 1].nonce) then s
      else s.(brainLog := s.brainLog + [m])
    case KernelSeal(inner) =>
      var nonce := NextNonce(s.sendNonce);
      s.(sendNonce := nonce, kernelLog := s.kernelLog + [Message(nonce, inner)])
    case Verify(h, frame, room) =>
      if h in s.harts || Open(mac, frame, room).None? then s
      else
        var o := Open(mac, frame, room).value;
        s.(harts := s.harts[h := Verified(o)])
    case FetchMax(h) =>
      if h !in s.harts || !s.harts[h].Verified? then s
      else
        var m := s.harts[h].msg;
        s.(watermark := if m.nonce > s.watermark then m.nonce else s.watermark,
           claims := s.claims + [Claim(m, s.watermark)],
           harts := s.harts[h := Claimed(|s.claims|)])
    case Decide(h) =>
      if h !in s.harts || !s.harts[h].Claimed? || s.harts[h].k >= |s.claims| then s
      else
        var c := s.claims[s.harts[h].k];
        s.(harts := s.harts - {h},
           accepted := if c.msg.nonce <= c.prev then s.accepted else s.accepted + [s.harts[h].k])
  }

  function Run(mac: Bytes -> Digest, s: State, steps: seq<Step>): State
  {
    if steps == [] then s
    else Apply(mac, Run(mac, s, steps[..|steps| - 1]), steps[|steps| - 1])
  }

  /**
    The ideal MAC: whenever a tag verifies at the kernel, a key holder had computed it before over
    exactly those bytes.
    */
  ghost predicate NoForgery(mac: Bytes -> Digest, s: State, steps: seq<Step>)
  {
    steps == [] ||
    (NoForgery(mac, s, steps[..|steps| - 1])
     && Unforged(mac, Run(mac, s, steps[..|steps| - 1]), steps[|steps| - 1]))
  }

  ghost predicate Unforged(mac: Bytes -> Digest, s: State, step: Step)
  {
    step.Verify? && Open(mac, step.frame, step.room).Some? ==>
      var o := Open(mac, step.frame, step.room).value;
      Issued(s.brainLog, s.kernelLog, MacInput(DIR_RX, o.nonce, o.inner))
  }

  /** The MAC inputs computed by key holders: of the brain's packets and of the kernel's. */
  ghost predicate Issued(brainLog: seq<Message>, kernelLog: seq<Message>, x: Bytes)
  {
    || (exists m :: m in brainLog && x == MacInput(DIR_RX, m.nonce, m.inner))
    || (exists m :: m in kernelLog && x == MacInput(DIR_TX, m.nonce, m.inner))
  }

  // ── The invariant ──────────────────────────────────────────────────────

  ghost predicate Increasing(log: seq<Message>)
  {
    log == [] ||
    (var n := |log| - 1;
     log[n].nonce < U64_SIZE && (n > 0 ==> log[n - 1].nonce < log[n].nonce) && Increasing(log[..n]))
  }

  /** The counter after `i` increments from `time`. */
  function CounterAt(time: nat, i: nat): nat
  {
    if i == 0 then time else NextNonce(CounterAt(time, i - 1))
  }

  /** Kernel nonces count up from the seed. */
  ghost predicate CountsUp(time: nat, log: seq<Message>)
  {
    log == [] || (log[|log| - 1].nonce == CounterAt(time, |log|) && CountsUp(time, log[..|log| - 1]))
  }

  function MaxNonce(claims: seq<Claim>): nat
  {
    if claims == [] then 0
    else
      var m, last := MaxNonce(claims[..|claims| - 1]), claims[|claims| - 1].msg.nonce;
      if last > m then last else m
  }

  /** `MaxNonce` is the largest nonce claimed, or zero. */
  lemma {:induction false} MaxNonceIsMax(claims: seq<Claim>, i: nat)
    requires i < |claims|
    ensures claims[i].msg.nonce <= MaxNonce(claims)
    ensures exists k :: 0 <= k < |claims| && claims[k].msg.nonce == MaxNonce(claims)
  {
    var n := |claims| - 1;
    var front := claims[..n];
    if n > 0 {
      MaxNonceIsMax(front, if i < n then i else 0);
      var k :| 0 <= k < |front| && front[k].msg.nonce == MaxNonce(front);
      assert claims[k] == front[k] && (i < n ==> claims[i] == front[i]);
      assert claims[k].msg.nonce == MaxNonce(claims) || claims[n].msg.nonce == MaxNonce(claims);
    } else {
      assert front == [];
      assert claims[0].msg.nonce == MaxNonce(claims);
    }
  }

  /** The mark each claim saw is the largest nonce claimed before it. */
  ghost predicate MarksAreMaxima(claims: seq<Claim>)
  {
    claims == [] ||
    (claims[|claims| - 1].prev == MaxNonce(claims[..|claims| - 1]) && MarksAreMaxima(claims[..|claims| - 1]))
  }

  ghost predicate Authentic(brainLog: seq<Message>, harts: map<nat, Pc>, claims: seq<Claim>)
  {
    && (forall h :: h in harts && harts[h].Verified? ==> harts[h].msg in brainLog)
    && (forall k :: 0 <= k < |claims| ==> claims[k].msg in brainLog)
  }

  ghost predicate Won(claims: seq<Claim>, k: nat)
  {
    k < |claims| && claims[k].msg.nonce > claims[k].prev
  }

  /** Only winning claims are accepted, none twice. */
  ghost predicate AcceptedOnce(claims: seq<Claim>, accepted: seq<nat>)
  {
    && (forall i :: 0 <= i < |accepted| ==> Won(claims, accepted[i]))
    && (forall i, j :: 0 <= i < j < |accepted| ==> accepted[i] != accepted[j])
  }

  /** A claim still to be decided belongs to one hart and has not been accepted. */
  ghost predicate PendingApart(harts: map<nat, Pc>, claims: seq<Claim>, accepted: seq<nat>)
  {
    && (forall h :: h in harts && harts[h].Claimed? ==> harts[h].k < |claims| && harts[h].k !in accepted)
    && (forall g, h :: g in harts && h in harts && g != h && harts[g].Claimed? && harts[h].Claimed? ==>
          harts[g].k != harts[h].k)
    && (forall i :: 0 <= i < |accepted| ==> accepted[i] < |claims|)
  }

  ghost predicate Holds(harts: map<nat, Pc>, h: nat, k: nat)
  {
    h in harts && harts[h] == Claimed(k)
  }

  /** A winning claim is either accepted or still in the hands of the hart that made it. */
  ghost predicate Settled(harts: map<nat, Pc>, claims: seq<Claim>, accepted: seq<nat>)
  {
    forall k :: 0 <= k < |claims| && Won(claims, k) ==> k in accepted || exists h :: Holds(harts, h, k)
  }

  /** Replay defence and send counter: kept whatever the MAC is and whoever computed the tags. */
  ghost predicate Inv(time: nat, s: State)
  {
    && CountsUp(time, s.kernelLog) && s.sendNonce == CounterAt(time, |s.kernelLog|)
    && MarksAreMaxima(s.claims) && s.watermark == MaxNonce(s.claims)
    && AcceptedOnce(s.claims, s.accepted) && PendingApart(s.harts, s.claims, s.accepted)
    && Settled(s.harts, s.claims, s.accepted)
  }

  /** What holds as well while no tag is forged. */
  ghost predicate Genuine(s: State)
  {
    Increasing(s.brainLog) && Authentic(s.brainLog, s.harts, s.claims)
  }

  // ── Every step keeps it ────────────────────────────────────────────────

  lemma {:induction false} KernelSealKeeps(mac: Bytes -> Digest, time: nat, s: State, inner: Bytes)
    requires Inv(time, s)
    ensures Inv(time, Apply(mac, s, KernelSeal(inner)))
  {
    assert (s.kernelLog + [Message(NextNonce(s.sendNonce), inner)])[..|s.kernelLog|] == s.kernelLog;
  }

  lemma {:induction false} CounterIsModular(time: nat, i: nat)
    requires time < U64_SIZE
    ensures CounterAt(time, i) == (time + i) % U64_SIZE
  {
    if i > 0 {
      CounterIsModular(time, i - 1);
      NextIsModular(time + i - 1);
    }
  }

  lemma {:induction false} NextIsModular(n: nat)
    ensures NextNonce(n % U64_SIZE) == (n + 1) % U64_SIZE
  {}

  lemma {:induction false} LabelsApart(n1: nat, i1: Bytes, n2: nat, i2: Bytes)
    ensures MacInput(DIR_RX, n1, i1) != MacInput(DIR_TX, n2, i2)
  {
    DirectionsDiffer();
    assert MacInput(DIR_RX, n1, i1)[0] == DIR_RX[0] && MacInput(DIR_TX, n2, i2)[0] == DIR_TX[0];
  }

  /** A verified tag belongs to a message of the brain: the kernel's own frames carry the other label. */
  lemma {:induction false} IssuedIsFromBrain(brainLog: seq<Message>, kernelLog: seq<Message>, o: Message)
    requires Increasing(brainLog) && o.nonce < U64_SIZE
    requires Issued(brainLog, kernelLog, MacInput(DIR_RX, o.nonce, o.inner))
    ensures o in brainLog
  {
    var x := MacInput(DIR_RX, o.nonce, o.inner);
    forall m | m in kernelLog ensures x != MacInput(DIR_TX, m.nonce, m.inner) {
      LabelsApart(o.nonce, o.inner, m.nonce, m.inner);
    }
    var m :| m in brainLog && x == MacInput(DIR_RX, m.nonce, m.inner);
    var i: nat :| i < |brainLog| && brainLog[i] == m;
    IncreasingAt(brainLog, i, i);
    MacInputInjective(DIR_RX, o.nonce, o.inner, DIR_RX, m.nonce, m.inner);
  }

  lemma {:induction false} VerifyKeeps(mac: Bytes -> Digest, time: nat, s: State, h: nat, frame: Bytes, room: nat)
    requires Inv(time, s)
    ensures Inv(time, Apply(mac, s, Verify(h, frame, room)))
  {
    if h !in s.harts && Open(mac, frame, room).Some? {
      var o := Open(mac, frame, room).value;
      EnterKeepsSettled(s.harts, s.claims, s.accepted, h, o);
      EnterKeepsApart(s.harts, s.claims, s.accepted, h, o);
    }
  }

  lemma {:induction false} VerifyKeepsGenuine(mac: Bytes -> Digest, s: State, h: nat, frame: Bytes, room: nat)
    requires Genuine(s) && Unforged(mac, s, Verify(h, frame, room))
    ensures Genuine(Apply(mac, s, Verify(h, frame, room)))
  {
    if h !in s.harts && Open(mac, frame, room).Some? {
      OpenSound(mac, frame, room);
      IssuedIsFromBrain(s.brainLog, s.kernelLog, Open(mac, frame, room).value);
    }
  }

  lemma {:induction false} EnterKeepsSettled(harts: map<nat, Pc>, claims: seq<Claim>, accepted: seq<nat>,
                                             h: nat, m: Message)
    requires Settled(harts, claims, accepted) && h !in harts
    ensures Settled(harts[h := Verified(m)], claims, accepted)
  {
    var next := harts[h := Verified(m)];
    forall k | 0 <= k < |claims| && Won(claims, k) && k !in accepted
      ensures exists g :: Holds(next, g, k) {
      var g :| Holds(harts, g, k);
      assert Holds(next, g, k);
    }
  }

  lemma {:induction false} ClaimKeepsSettled(harts: map<nat, Pc>, claims: seq<Claim>, accepted: seq<nat>,
                                             h: nat, c: Claim)
    requires Settled(harts, claims, accepted) && h in harts && harts[h].Verified?
    ensures Settled(harts[h := Claimed(|claims|)], claims + [c], accepted)
  {
    var next := harts[h := Claimed(|claims|)];
    forall k | 0 <= k < |claims + [c]| && Won(claims + [c], k) && k !in accepted
      ensures exists g :: Holds(next, g, k) {
      if k == |claims| {
        assert Holds(next, h, k);
      } else {
        assert Won(claims, k);
        var g :| Holds(harts, g, k);
        assert Holds(next, g, k);
      }
    }
  }

  lemma {:induction false} DecideKeepsSettled(harts: map<nat, Pc>, claims: seq<Claim>, accepted: seq<nat>,
                                              h: nat, after: seq<nat>)
    requires Settled(harts, claims, accepted) && h in harts && harts[h].Claimed?
    requires after == if Won(claims, harts[h].k) then accepted + [harts[h].k] else accepted
    ensures Settled(harts - {h}, claims, after)
  {
    forall k | 0 <= k < |claims| && Won(claims, k) && k !in after
      ensures exists g :: Holds(harts - {h}, g, k) {
      var g :| Holds(harts, g, k);
      assert Holds(harts - {h}, g, k);
    }
  }

  lemma {:induction false} EnterKeepsApart(harts: map<nat, Pc>, claims: seq<Claim>, accepted: seq<nat>,
                                           h: nat, m: Message)
    requires PendingApart(harts, claims, accepted) && h !in harts
    ensures PendingApart(harts[h := Verified(m)], claims, accepted)
  {}

  lemma {:induction false} ClaimKeepsMarks(claims: seq<Claim>, m: Message)
    requires MarksAreMaxima(claims)
    ensures var more := claims + [Claim(m, MaxNonce(claims))];
            MarksAreMaxima(more) && MaxNonce(more) == AuthLink.Raise(MaxNonce(claims), m.nonce)
  {
    assert (claims + [Claim(m, MaxNonce(claims))])[..|claims|] == claims;
  }

  lemma {:induction false} ClaimKeepsAccepted(claims: seq<Claim>, accepted: seq<nat>, c: Claim)
    requires AcceptedOnce(claims, accepted)
    ensures AcceptedOnce(claims + [c], accepted)
  {
    forall i | 0 <= i < |accepted| ensures Won(claims + [c], accepted[i]) {
      assert Won(claims, accepted[i]);
    }
  }

  lemma {:induction false} ClaimKeepsApart(harts: map<nat, Pc>, claims: seq<Claim>, accepted: seq<nat>,
                                           h: nat, c: Claim)
    requires PendingApart(harts, claims, accepted) && h in harts && harts[h].Verified?
    ensures PendingApart(harts[h := Claimed(|claims|)], claims + [c], accepted)
  {}

  lemma {:induction false} FetchMaxKeeps(mac: Bytes -> Digest, time: nat, s: State, h: nat)
    requires Inv(time, s)
    ensures Inv(time, Apply(mac, s, FetchMax(h)))
  {
    if h in s.harts && s.harts[h].Verified? {
      var m := s.harts[h].msg;
      ClaimKeepsMarks(s.claims, m);
      ClaimKeepsAccepted(s.claims, s.accepted, Claim(m, s.watermark));
      ClaimKeepsSettled(s.harts, s.claims, s.accepted, h, Claim(m, s.watermark));
      ClaimKeepsApart(s.harts, s.claims, s.accepted, h, Claim(m, s.watermark));
    }
  }

  lemma {:induction false} DecideKeeps(mac: Bytes -> Digest, time: nat, s: State, h: nat)
    requires Inv(time, s)
    ensures Inv(time, Apply(mac, s, Decide(h)))
  {
    if h in s.harts && s.harts[h].Claimed? {
      var k := s.harts[h].k;
      var after := if Won(s.claims, k) then s.accepted + [k] else s.accepted;
      if Won(s.claims, k) { AcceptKeeps(s.claims, s.accepted, k); }
      DecideKeepsSettled(s.harts, s.claims, s.accepted, h, after);
      DecideKeepsApart(s.harts, s.claims, s.accepted, h, after);
    }
  }

  lemma {:induction false} DecideKeepsApart(harts: map<nat, Pc>, claims: seq<Claim>, accepted: seq<nat>,
                                            h: nat, after: seq<nat>)
    requires PendingApart(harts, claims, accepted)
    requires h in harts && harts[h].Claimed? && (after == accepted || after == accepted + [harts[h].k])
    ensures PendingApart(harts - {h}, claims, after)
  {}

  lemma {:induction false} AcceptKeeps(claims: seq<Claim>, accepted: seq<nat>, k: nat)
    requires AcceptedOnce(claims, accepted) && Won(claims, k) && k !in accepted
    ensures AcceptedOnce(claims, accepted + [k])
  {
    var more := accepted + [k];
    forall i | 0 <= i < |more| ensures Won(claims, more[i]) {
      if i < |accepted| { assert Won(claims, accepted[i]); }
    }
  }

  /** Any step, with any tag that verifies, keeps the replay defence and the send counter. */
  lemma {:induction false} StepKeeps(mac: Bytes -> Digest, time: nat, s: State, step: Step)
    requires Inv(time, s)
    ensures Inv(time, Apply(mac, s, step))
  {
    match step
    case BrainSeal(m) =>
    case KernelSeal(inner) => KernelSealKeeps(mac, time, s, inner);
    case Verify(h, frame, room) => VerifyKeeps(mac, time, s, h, frame, room);
    case FetchMax(h) => FetchMaxKeeps(mac, time, s, h);
    case Decide(h) => DecideKeeps(mac, time, s, h);
  }

  /** A step without a forged tag keeps everything claimed a packet of the brain. */
  lemma {:induction false} StepKeepsGenuine(mac: Bytes -> Digest, s: State, step: Step)
    requires Genuine(s) && Unforged(mac, s, step)
    ensures Genuine(Apply(mac, s, step))
  {
    match step
    case BrainSeal(m) => assert (s.brainLog + [m])[..|s.brainLog|] == s.brainLog;
    case KernelSeal(inner) =>
    case Verify(h, frame, room) => VerifyKeepsGenuine(mac, s, h, frame, room);
    case FetchMax(h) =>
    case Decide(h) =>
  }

  lemma {:induction false} RunKeeps(mac: Bytes -> Digest, time: nat, steps: seq<Step>)
    ensures Inv(time, Run(mac, Initial(time), steps))
  {
    if steps != [] {
      var front := steps[..|steps| - 1];
      RunKeeps(mac, time, front);
      StepKeeps(mac, time, Run(mac, Initial(time), front), steps[|steps| - 1]);
    }
  }

  lemma {:induction false} RunKeepsGenuine(mac: Bytes -> Digest, time: nat, steps: seq<Step>)
    requires NoForgery(mac, Initial(time), steps)
    ensures Genuine(Run(mac, Initial(time), steps))
  {
    if steps != [] {
      var front := steps[..|steps| - 1];
      RunKeepsGenuine(mac, time, front);
      StepKeepsGenuine(mac, Run(mac, Initial(time), front), steps[|steps| - 1]);
    }
  }

  // ── What it gives for every run ────────────────────────────────────────

  /**
    Replay defence under every interleaving, whatever tags verify: the mark is the largest nonce
    claimed, accepted nonces are strictly increasing in the order of the `fetch_max`, and no nonce is
    accepted twice.
    */
  lemma {:induction false} NoReplay(mac: Bytes -> Digest, time: nat, steps: seq<Step>)
    ensures var s := Run(mac, Initial(time), steps);
            && s.watermark == MaxNonce(s.claims)
            && (forall i :: 0 <= i < |s.accepted| ==> s.accepted[i] < |s.claims|)
            && (forall i, j :: 0 <= i < |s.accepted| && 0 <= j < |s.accepted| && s.accepted[i] < s.accepted[j] ==>
                  s.claims[s.accepted[i]].msg.nonce < s.claims[s.accepted[j]].msg.nonce)
            && (forall i, j :: 0 <= i < j < |s.accepted| ==>
                  s.claims[s.accepted[i]].msg.nonce != s.claims[s.accepted[j]].msg.nonce)
  {
    RunKeeps(mac, time, steps);
    var s := Run(mac, Initial(time), steps);
    forall i | 0 <= i < |s.accepted| ensures s.accepted[i] < |s.claims| { assert Won(s.claims, s.accepted[i]); }
    forall i, j | 0 <= i < |s.accepted| && 0 <= j < |s.accepted| && s.accepted[i] < s.accepted[j]
      ensures s.claims[s.accepted[i]].msg.nonce < s.claims[s.accepted[j]].msg.nonce {
      assert Won(s.claims, s.accepted[i]) && Won(s.claims, s.accepted[j]);
      WinnersIncrease(s.claims, s.accepted[i], s.accepted[j]);
    }
  }

  /** The defence costs nothing else: a claim no hart still holds was accepted exactly if it set a record. */
  lemma {:induction false} AcceptedIffRecord(mac: Bytes -> Digest, time: nat, steps: seq<Step>, k: nat)
    requires var s := Run(mac, Initial(time), steps); k < |s.claims| && forall h :: !Holds(s.harts, h, k)
    ensures var s := Run(mac, Initial(time), steps);
            k in s.accepted <==> s.claims[k].msg.nonce > MaxNonce(s.claims[..k])
  {
    RunKeeps(mac, time, steps);
    var s := Run(mac, Initial(time), steps);
    MarkAt(s.claims, k);
  }

  lemma {:induction false} MarkAt(claims: seq<Claim>, l: nat)
    requires MarksAreMaxima(claims) && l < |claims|
    ensures claims[l].prev == MaxNonce(claims[..l])
  {
    var n := |claims| - 1;
    if l < n {
      MarkAt(claims[..n], l);
      assert claims[..n][..l] == claims[..l];
    }
  }

  lemma {:induction false} WinnersIncrease(claims: seq<Claim>, k: nat, l: nat)
    requires MarksAreMaxima(claims) && Won(claims, l) && k < l
    ensures claims[k].msg.nonce < claims[l].msg.nonce
  {
    MarkAt(claims, l);
    MaxNonceIsMax(claims[..l], k);
    assert claims[..l][k] == claims[k];
  }

  /**
    Agreement: in every run every accepted packet was sealed by the brain with that nonce, distinct
    acceptances are distinct brain packets, and in claim order they come in the order the brain
    sealed them. No frame of the kernel's own is ever accepted.
    */
  lemma {:induction false} Agreement(mac: Bytes -> Digest, time: nat, steps: seq<Step>, i: nat, j: nat)
    requires NoForgery(mac, Initial(time), steps)
    requires var s := Run(mac, Initial(time), steps);
             i < |s.accepted| && j < |s.accepted| && s.accepted[i] < s.accepted[j]
    ensures var s := Run(mac, Initial(time), steps);
            s.accepted[i] < |s.claims| && s.accepted[j] < |s.claims| &&
            exists p, q :: 0 <= p < q < |s.brainLog|
              && s.brainLog[p] == s.claims[s.accepted[i]].msg
              && s.brainLog[q] == s.claims[s.accepted[j]].msg
  {
    NoReplay(mac, time, steps);
    AcceptedIsFromBrain(mac, time, steps, i);
    AcceptedIsFromBrain(mac, time, steps, j);
    var s := Run(mac, Initial(time), steps);
    LogIsIncreasing(mac, time, steps);
    SealedInOrder(s.brainLog, s.claims[s.accepted[i]].msg, s.claims[s.accepted[j]].msg);
  }

  lemma {:induction false} LogIsIncreasing(mac: Bytes -> Digest, time: nat, steps: seq<Step>)
    requires NoForgery(mac, Initial(time), steps)
    ensures Increasing(Run(mac, Initial(time), steps).brainLog)
  {
    RunKeepsGenuine(mac, time, steps);
  }

  lemma {:induction false} IncreasingAt(log: seq<Message>, i: nat, j: nat)
    requires Increasing(log) && i <= j < |log|
    ensures log[j].nonce < U64_SIZE && (i < j ==> log[i].nonce < log[j].nonce)
  {
    var n := |log| - 1;
    if j < n {
      IncreasingAt(log[..n], i, j);
    } else if i < n {
      IncreasingAt(log[..n], i, n - 1);
    }
  }

  lemma {:induction false} SealedInOrder(log: seq<Message>, a: Message, b: Message)
    requires Increasing(log) && a in log && b in log && a.nonce < b.nonce
    ensures exists p, q :: 0 <= p < q < |log| && log[p] == a && log[q] == b
  {
    var p: nat :| p < |log| && log[p] == a;
    var q: nat :| q < |log| && log[q] == b;
    if q < p { IncreasingAt(log, q, p); }
    assert p < q;
  }

  lemma {:induction false} AcceptedIsFromBrain(mac: Bytes -> Digest, time: nat, steps: seq<Step>, i: nat)
    requires NoForgery(mac, Initial(time), steps)
    requires i < |Run(mac, Initial(time), steps).accepted|
    ensures var s := Run(mac, Initial(time), steps);
            s.accepted[i] < |s.claims| && s.claims[s.accepted[i]].msg in s.brainLog
  {
    RunKeeps(mac, time, steps);
    RunKeepsGenuine(mac, time, steps);
    var s := Run(mac, Initial(time), steps);
    assert Won(s.claims, s.accepted[i]);
  }

  /** What hart `h` alone does between entering and leaving `unwrap_consuming`. */
  function Solo(mac: Bytes -> Digest, s: State, h: nat, frame: Bytes, room: nat): State
  {
    Apply(mac, Apply(mac, Apply(mac, s, Verify(h, frame, room)), FetchMax(h)), Decide(h))
  }

  /** Uninterrupted, the atomic steps amount to the sequential `unwrap_consuming`. */
  lemma {:induction false} SoloIsAccept(mac: Bytes -> Digest, s: State, h: nat, frame: Bytes, room: nat)
    requires h !in s.harts
    ensures var t := Solo(mac, s, h, frame, room);
            var (mark, got) := AuthLink.Accept(mac, s.watermark, frame, room);
            && t.watermark == mark && t.harts == s.harts
            && (got.None? ==> t.accepted == s.accepted)
            && (got.Some? ==>
                  && |t.claims| == |s.claims| + 1 && t.accepted == s.accepted + [|s.claims|]
                  && t.claims[|s.claims|].msg.inner == got.value.inner)
  {
    if Open(mac, frame, room).Some? {
      var o := Open(mac, frame, room).value;
      SoloOfMessage(mac, s, h, frame, room, o);
    }
  }

  lemma {:induction false} SoloOfMessage(mac: Bytes -> Digest, s: State, h: nat, frame: Bytes, room: nat, m: Message)
    requires h !in s.harts && Open(mac, frame, room) == Some(m)
    ensures Solo(mac, s, h, frame, room)
         == s.(watermark := AuthLink.Raise(s.watermark, m.nonce),
               claims := s.claims + [Claim(m, s.watermark)],
               accepted := if m.nonce <= s.watermark then s.accepted else s.accepted + [|s.claims|])
  {
    var a := Apply(mac, s, Verify(h, frame, room));
    assert a == s.(harts := s.harts[h := Verified(m)]);
    var b := Apply(mac, a, FetchMax(h));
    assert b.harts[h] == Claimed(|s.claims|) && b.claims == s.claims + [Claim(m, s.watermark)];
    assert b.harts - {h} == s.harts;
  }

  /** The nonces the kernel sends repeat exactly when 2^64 of them lie between. */
  lemma {:induction false} SentNoncesRepeatIff(mac: Bytes -> Digest, time: nat, steps: seq<Step>, i: nat, j: nat)
    requires time < U64_SIZE
    requires i <= j < |Run(mac, Initial(time), steps).kernelLog|
    ensures var log := Run(mac, Initial(time), steps).kernelLog;
            log[i].nonce == log[j].nonce <==> (j - i) % U64_SIZE == 0
  {
    SentNonce(mac, time, steps, i);
    SentNonce(mac, time, steps, j);
    CountersRepeatIff(time, i + 1, j + 1);
  }

  lemma {:induction false} SentNonce(mac: Bytes -> Digest, time: nat, steps: seq<Step>, i: nat)
    requires i < |Run(mac, Initial(time), steps).kernelLog|
    ensures Run(mac, Initial(time), steps).kernelLog[i].nonce == CounterAt(time, i + 1)
  {
    RunKeeps(mac, time, steps);
    CountsUpAt(time, Run(mac, Initial(time), steps).kernelLog, i);
  }

  lemma {:induction false} CountsUpAt(time: nat, log: seq<Message>, i: nat)
    requires CountsUp(time, log) && i < |log|
    ensures log[i].nonce == CounterAt(time, i + 1)
  {
    if i < |log| - 1 { CountsUpAt(time, log[..|log| - 1], i); }
  }

  lemma {:induction false} CountersRepeatIff(time: nat, i: nat, j: nat)
    requires time < U64_SIZE && i <= j
    ensures CounterAt(time, i) == CounterAt(time, j) <==> (j - i) % U64_SIZE == 0
  {
    CounterIsModular(time, i);
    CounterIsModular(time, j);
    SameResidue(time + i, time + j);
  }

  lemma {:induction false} SameResidue(a: nat, b: nat)
    requires a <= b
    ensures a % U64_SIZE == b % U64_SIZE <==> (b - a) % U64_SIZE == 0
  {}
}
