/**
  Draining a byte stream through a decoder: `turn` reads one item off the front of the remaining
  bytes, given its state and the room left in the output buffer.
  */
module Draining {
  import opened Bytes

  /** A decoded item and the number of bytes it took. */
  datatype Rx = Rx(inner: Bytes, eaten: nat)

  type Decoder<!S> = (S, Bytes, nat) -> (S, Option<Rx>)

  function Skip(s: Bytes, n: nat): Bytes
  {
    if n >= |s| then [] else s[n..]
  }

  /** The whole loop: end state and the bytes collected in `room` bytes of output space. */
  function Run<S>(turn: Decoder<S>, s: S, ctrl: Bytes, room: nat): (S, Bytes)
    decreases |ctrl|
  {
    if ctrl == [] || room == 0 then (s, [])
    else
      var (s', got) := turn(s, ctrl, room);
      if got.None? || got.value.eaten == 0 || |got.value.inner| > room then (s', [])
      else
        var (end, more) := Run(turn, s', Skip(ctrl, got.value.eaten), room - |got.value.inner|);
        (end, got.value.inner + more)
  }

  // ── Stopping and resuming ──────────────────────────────────────────────

  /** Continuing from state `s` at `off` with `got` collected completes the whole drain of `ctrl`. */
  ghost predicate Resumes<S>(turn: Decoder<S>, start: S, ctrl: Bytes, room: nat, s: S, off: nat, got: Bytes)
  {
    && |got| <= room
    && var (end, more) := Run(turn, s, Skip(ctrl, off), room - |got|);
       Run(turn, start, ctrl, room) == (end, got + more)
  }

  ghost predicate Ends<S>(turn: Decoder<S>, start: S, ctrl: Bytes, room: nat, s: S, got: Bytes)
  {
    Run(turn, start, ctrl, room) == (s, got)
  }

  lemma {:induction false} ResumeStart<S>(turn: Decoder<S>, start: S, ctrl: Bytes, room: nat)
    ensures Resumes(turn, start, ctrl, room, start, 0, [])
  {
    var (end, more) := Run(turn, start, ctrl, room);
    assert Skip(ctrl, 0) == ctrl && [] + more == more;
  }

  lemma {:induction false} ResumeStep<S>(turn: Decoder<S>, start: S, ctrl: Bytes, room: nat, s: S, off: nat, got: Bytes)
    requires Resumes(turn, start, ctrl, room, s, off, got)
    requires off < |ctrl| && |got| < room
    ensures var (next, rx) := turn(s, ctrl[off..], room - |got|);
            if rx.None? || rx.value.eaten == 0 || |rx.value.inner| > room - |got|
            then Ends(turn, start, ctrl, room, next, got)
            else Resumes(turn, start, ctrl, room, next, off + rx.value.eaten, got + rx.value.inner)
  {
    var (next, rx) := turn(s, ctrl[off..], room - |got|);
    if rx.None? || rx.value.eaten == 0 || |rx.value.inner| > room - |got| {
      assert got + [] == got;
    } else {
      var (end, more) := Run(turn, next, Skip(ctrl[off..], rx.value.eaten), room - |got| - |rx.value.inner|);
      assert Skip(ctrl[off..], rx.value.eaten) == Skip(ctrl, off + rx.value.eaten);
      assert got + (rx.value.inner + more) == (got + rx.value.inner) + more;
    }
  }

  lemma {:induction false} ResumeDone<S>(turn: Decoder<S>, start: S, ctrl: Bytes, room: nat, s: S, off: nat, got: Bytes)
    requires Resumes(turn, start, ctrl, room, s, off, got)
    requires off >= |ctrl| || |got| == room
    ensures Run(turn, start, ctrl, room) == (s, got)
  {
    assert got + [] == got;
  }

  // ── Coalesced items ────────────────────────────────────────────────────

  /**
    In state `s` the bytes `wire`, whatever follows them, decode to `inner` and lead to state
    `next`; without room for `inner` they decode to nothing.
    */
  ghost predicate Delivers<S>(turn: Decoder<S>, s: S, wire: Bytes, inner: Bytes, next: S)
  {
    && wire != []
    && forall rest: Bytes, room: nat ::
         turn(s, wire + rest, room) == if |inner| <= room then (next, Some(Rx(inner, |wire|))) else (s, None)
  }

  ghost predicate Carries<S>(turn: Decoder<S>, states: seq<S>, wires: seq<Bytes>, inners: seq<Bytes>)
  {
    && |states| == |wires| + 1 && |wires| == |inners|
    && forall i :: 0 <= i < |wires| ==> Delivers(turn, states[i], wires[i], inners[i], states[i + 1])
  }

  /** How many of the items, from the first on, the loop takes: as long as there is room left and they fit it. */
  function FitCount(inners: seq<Bytes>, room: nat): (k: nat)
    ensures k <= |inners|
  {
    if inners == [] || room == 0 || |inners[0]| > room then 0 else 1 + FitCount(inners[1..], room - |inners[0]|)
  }

  ghost predicate Undecodable<S>(turn: Decoder<S>, s: S, tail: Bytes)
  {
    forall room: nat :: turn(s, tail, room).1.None?
  }

  /** What ends the stream: nothing, or something undecodable that leaves the state as it is. */
  ghost predicate EndOfStream<S>(turn: Decoder<S>, s: S, tail: Bytes)
  {
    tail == [] || forall room: nat :: turn(s, tail, room) == (s, None)
  }

  /**
    However many items arrive glued together, and whatever undecodable remainder is glued behind
    them, the loop collects exactly the longest run of items that fits, in order, and ends in the
    state behind it.
    */
  lemma {:induction false} RunOfCoalesced<S>(turn: Decoder<S>, states: seq<S>, wires: seq<Bytes>,
                                             inners: seq<Bytes>, tail: Bytes, room: nat)
    requires Carries(turn, states, wires, inners)
    requires EndOfStream(turn, states[|wires|], tail)
    ensures var k := FitCount(inners, room);
            Run(turn, states[0], Concat(wires) + tail, room) == (states[k], Concat(inners[..k]))
    decreases |wires|
  {
    if room == 0 {
      assert inners[..0] == [];
    } else if wires == [] {
      assert Concat(wires) + tail == tail && inners[..0] == [];
    } else {
      var rest := Concat(wires[1..]) + tail;
      assert Concat(wires) + tail == wires[0] + rest;
      OneDelivered(turn, states[0], wires[0], inners[0], states[1], rest, room);
      if |inners[0]| <= room {
        CarriesTail(turn, states, wires, inners);
        RunOfCoalesced(turn, states[1..], wires[1..], inners[1..], tail, room - |inners[0]|);
        ConsFit(inners, room);
      } else {
        assert inners[..0] == [];
      }
    }
  }

  /** An item at the front is collected before the rest, or ends the loop if it does not fit. */
  lemma {:induction false} OneDelivered<S>(turn: Decoder<S>, s: S, wire: Bytes, inner: Bytes, next: S,
                                           rest: Bytes, room: nat)
    requires Delivers(turn, s, wire, inner, next) && room > 0
    ensures Run(turn, s, wire + rest, room)
         == if |inner| > room then (s, [])
            else var (end, more) := Run(turn, next, rest, room - |inner|); (end, inner + more)
  {
    assert Skip(wire + rest, |wire|) == rest;
  }

  lemma {:induction false} CarriesTail<S>(turn: Decoder<S>, states: seq<S>, wires: seq<Bytes>, inners: seq<Bytes>)
    requires Carries(turn, states, wires, inners) && wires != []
    ensures Carries(turn, states[1..], wires[1..], inners[1..])
    ensures states[1..][|wires[1..]|] == states[|wires|]
  {
    forall i | 0 <= i < |wires[1..]|
      ensures Delivers(turn, states[1..][i], wires[1..][i], inners[1..][i], states[1..][i + 1]) {
      assert Delivers(turn, states[i + 1], wires[i + 1], inners[i + 1], states[i + 2]);
    }
  }

  lemma {:induction false} ConsFit(inners: seq<Bytes>, room: nat)
    requires inners != [] && 0 < room && |inners[0]| <= room
    ensures Concat(inners[..FitCount(inners, room)])
         == inners[0] + Concat(inners[1..][..FitCount(inners[1..], room - |inners[0]|)])
  {
    var k := FitCount(inners, room);
    assert inners[..k][1..] == inners[1..][..k - 1];
  }

  lemma {:induction false} FittingFits(inners: seq<Bytes>, room: nat)
    ensures |Concat(inners[..FitCount(inners, room)])| <= room
  {
    if inners != [] && 0 < room && |inners[0]| <= room {
      ConsFit(inners, room);
      FittingFits(inners[1..], room - |inners[0]|);
    }
  }

  /** Everything is collected exactly when it fits, and every item is taken if there is room to spare. */
  lemma {:induction false} AllFitIff(inners: seq<Bytes>, room: nat)
    ensures |Concat(inners)| < room ==> FitCount(inners, room) == |inners|
    ensures Concat(inners[..FitCount(inners, room)]) == Concat(inners) <==> |Concat(inners)| <= room
  {
    if inners == [] {
    } else if 0 < room && |inners[0]| <= room {
      AllFitIff(inners[1..], room - |inners[0]|);
      ConsFit(inners, room);
      var a, b := Concat(inners[1..][..FitCount(inners[1..], room - |inners[0]|)]), Concat(inners[1..]);
      assert inners[0] + a == inners[0] + b <==> a == b by {
        assert (inners[0] + a)[|inners[0]|..] == a && (inners[0] + b)[|inners[0]|..] == b;
      }
    } else {
      assert inners[..0] == [];
    }
  }

  function Least(a: nat, b: nat): nat
  {
    if a < b then a else b
  }

  lemma {:induction false} FitPrefix(inners: seq<Bytes>, k: nat, room: nat)
    requires k <= |inners|
    ensures FitCount(inners[..k], room) == Least(k, FitCount(inners, room))
    ensures inners[..k][..FitCount(inners[..k], room)] == inners[..Least(k, FitCount(inners, room))]
  {
    if k > 0 && 0 < room && |inners[0]| <= room {
      FitPrefix(inners[1..], k - 1, room - |inners[0]|);
      assert inners[..k][1..] == inners[1..][..k - 1];
    }
  }

  /** Of the items before `k` none is missing exactly when all items fit and nothing is in those from `k` on. */
  lemma {:induction false} MissingIff(inners: seq<Bytes>, k: nat, room: nat)
    requires k <= |inners|
    ensures var j := Least(k, FitCount(inners, room));
            && Concat(inners) == Concat(inners[..j]) + Concat(inners[j..])
            && (Concat(inners[j..]) == [] <==> |Concat(inners)| <= room && Concat(inners[k..]) == [])
  {
    var j := Least(k, FitCount(inners, room));
    FitPrefix(inners, k, room);
    FittingFits(inners[..k], room);
    AllFitIff(inners[..k], room);
    ConcatAppend(inners[..j], inners[j..]);
    ConcatAppend(inners[..k], inners[k..]);
    ConcatAppend(inners[j..k], inners[k..]);
    assert inners[..k] + inners[k..] == inners;
    assert inners[..j] + inners[j..] == inners && inners[j..k] + inners[k..] == inners[j..];
  }

  lemma {:induction false} OneTurnTakesAll<S>(turn: Decoder<S>, s: S, ctrl: Bytes, room: nat, next: S)
    requires 0 < |ctrl| <= room && turn(s, ctrl, room) == (next, Some(Rx(ctrl, |ctrl|)))
    ensures Run(turn, s, ctrl, room) == (next, ctrl)
  {
    assert Run(turn, next, Skip(ctrl, |ctrl|), room - |ctrl|) == (next, []);
    assert ctrl + [] == ctrl;
  }
}
