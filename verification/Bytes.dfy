/** Byte strings and the fixed-width integer encodings used on the wire and on disk. */
module Bytes {
  import opened Bitwise

  type Bytes = seq<Byte>

  /** A 32-byte SHA-256 output. */
  type Digest = d: Bytes | |d| == 32 witness seq(32, _ => ZERO)

  datatype Option<+T> = None | Some(value: T)

  function Pow256(n: nat): (p: nat)
    ensures p >= 1
  {
    if n == 0 then 1 else 256 * Pow256(n - 1)
  }

  lemma {:induction false} SplitDigit(v: nat, b: nat)
    requires b < 256
    ensures (256 * v + b) % 256 == b && (256 * v + b) / 256 == v
  {}

  // ── Little-endian ──────────────────────────────────────────────────────

  function LeValue(s: Bytes): (v: nat)
    ensures v < Pow256(|s|)
  {
    if s == [] then 0 else Value(s[0]) + 256 * LeValue(s[1..])
  }

  /** The low `n` bytes of `v`, least significant first; higher bytes are cut off. */
  function ToLe(v: nat, n: nat): (s: Bytes)
    ensures |s| == n
  {
    if n == 0 then [] else [OfValue(v % 256)] + ToLe(v / 256, n - 1)
  }

  lemma {:induction false} LeRoundTrip(v: nat, n: nat)
    requires v < Pow256(n)
    ensures LeValue(ToLe(v, n)) == v
  {
    if n > 0 {
      LeRoundTrip(v / 256, n - 1);
      ValueOfOfValue(v % 256);
      assert ToLe(v, n)[1..] == ToLe(v / 256, n - 1);
    }
  }

  lemma {:induction false} LeInverse(s: Bytes)
    ensures ToLe(LeValue(s), |s|) == s
  {
    if s != [] {
      LeInverse(s[1..]);
      SplitDigit(LeValue(s[1..]), Value(s[0]));
      OfValueOfValue(s[0]);
    }
  }

  // ── Big-endian ─────────────────────────────────────────────────────────

  function BeValue(s: Bytes): (v: nat)
    ensures v < Pow256(|s|)
  {
    if s == [] then 0 else 256 * BeValue(s[..|s| - 1]) + Value(s[|s| - 1])
  }

  function ToBe(v: nat, n: nat): (s: Bytes)
    ensures |s| == n
  {
    if n == 0 then [] else ToBe(v / 256, n - 1) + [OfValue(v % 256)]
  }

  lemma {:induction false} BeRoundTrip(v: nat, n: nat)
    requires v < Pow256(n)
    ensures BeValue(ToBe(v, n)) == v
  {
    if n > 0 {
      BeRoundTrip(v / 256, n - 1);
      ValueOfOfValue(v % 256);
      assert ToBe(v, n)[..n - 1] == ToBe(v / 256, n - 1);
    }
  }

  lemma {:induction false} BeInverse(s: Bytes)
    ensures ToBe(BeValue(s), |s|) == s
  {
    if s != [] {
      BeInverse(s[..|s| - 1]);
      SplitDigit(BeValue(s[..|s| - 1]), Value(s[|s| - 1]));
      OfValueOfValue(s[|s| - 1]);
    }
  }

  // ── Concatenation ──────────────────────────────────────────────────────

  function Concat(parts: seq<Bytes>): Bytes
  {
    if parts == [] then [] else parts[0] + Concat(parts[1..])
  }

  lemma {:induction false} ConcatAppend(a: seq<Bytes>, b: seq<Bytes>)
    ensures Concat(a + b) == Concat(a) + Concat(b)
  {
    if a == [] {
      assert a + b == b;
    } else {
      ConcatAppend(a[1..], b);
      assert (a + b)[1..] == a[1..] + b;
    }
  }

  lemma {:induction false} ConcatSnoc(a: seq<Bytes>, x: Bytes)
    ensures Concat(a + [x]) == Concat(a) + x
  {
    ConcatAppend(a, [x]);
    assert Concat([x]) == x + Concat([]);
  }
}
