/**
  A linear feedback register over any type with an addition: the common algebra of cyclic
  redundancy checks. Symbols are added into the register, which is then shifted eight times.
  */
module LinearRegister {

  datatype Register<!T> = Register(zero: T, add: (T, T) -> T, shift: T -> T)

  function Shifted<T>(reg: Register<T>, c: T, n: nat): T
  {
    if n == 0 then c else reg.shift(Shifted(reg, c, n - 1))
  }

  /** The register contents after all of `data`, starting from zero. */
  function Run<T>(reg: Register<T>, data: seq<T>): T
  {
    if data == [] then reg.zero
    else Shifted(reg, reg.add(Run(reg, data[..|data| - 1]), data[|data| - 1]), 8)
  }

  /** `add` is an exclusive-or-like group operation and `shift` a bijective linear map. */
  ghost predicate Linear<T(!new)>(reg: Register<T>)
  {
    && (forall a, b, x, y :: reg.add(reg.add(a, b), reg.add(x, y)) == reg.add(reg.add(a, x), reg.add(b, y)))
    && (forall a :: reg.add(a, reg.zero) == a)
    && (forall a :: reg.add(reg.zero, a) == a)
    && (forall a, b :: reg.add(a, b) == reg.zero <==> a == b)
    && (forall a, b :: reg.shift(reg.add(a, b)) == reg.add(reg.shift(a), reg.shift(b)))
    && (forall a, b :: reg.shift(a) == reg.shift(b) ==> a == b)
    && reg.shift(reg.zero) == reg.zero
  }

  /** Symbolwise sum: `f` with the error pattern `e` on it. */
  function Sum<T>(reg: Register<T>, f: seq<T>, e: seq<T>): (g: seq<T>)
    requires |f| == |e|
    ensures |g| == |f|
  {
    seq(|f|, i requires 0 <= i < |f| => reg.add(f[i], e[i]))
  }

  lemma {:induction false} ShiftedLinear<T(!new)>(reg: Register<T>, a: T, b: T, n: nat)
    requires Linear(reg)
    ensures Shifted(reg, reg.add(a, b), n) == reg.add(Shifted(reg, a, n), Shifted(reg, b, n))
  {
    if n > 0 { ShiftedLinear(reg, a, b, n - 1); }
  }

  /** Shifting loses no information; in particular only zero shifts to zero. */
  lemma {:induction false} ShiftedInjective<T(!new)>(reg: Register<T>, a: T, b: T, n: nat)
    requires Linear(reg)
    ensures Shifted(reg, a, n) == Shifted(reg, b, n) <==> a == b
    ensures Shifted(reg, reg.zero, n) == reg.zero
  {
    if n > 0 { ShiftedInjective(reg, a, b, n - 1); }
  }

  /** The check value of a sum is the sum of the check values. */
  lemma {:induction false} RunLinear<T(!new)>(reg: Register<T>, f: seq<T>, e: seq<T>)
    requires Linear(reg) && |f| == |e|
    ensures Run(reg, Sum(reg, f, e)) == reg.add(Run(reg, f), Run(reg, e))
  {
    if f != [] {
      var n := |f| - 1;
      RunLinear(reg, f[..n], e[..n]);
      assert Sum(reg, f, e)[..n] == Sum(reg, f[..n], e[..n]);
      ShiftedLinear(reg, reg.add(Run(reg, f[..n]), f[n]), reg.add(Run(reg, e[..n]), e[n]), 8);
    }
  }

  /** Appending one symbol leaves a zero register exactly when that symbol is the check value. */
  lemma {:induction false} ResidueZeroIffTrailer<T(!new)>(reg: Register<T>, data: seq<T>, trailer: T)
    requires Linear(reg)
    ensures Run(reg, data + [trailer]) == reg.zero <==> trailer == Run(reg, data)
  {
    assert (data + [trailer])[..|data|] == data;
    ShiftedInjective(reg, reg.add(Run(reg, data), trailer), reg.zero, 8);
  }

  lemma {:induction false} RunZeros<T(!new)>(reg: Register<T>, e: seq<T>)
    requires Linear(reg)
    requires forall i :: 0 <= i < |e| ==> e[i] == reg.zero
    ensures Run(reg, e) == reg.zero
  {
    if e != [] {
      RunZeros(reg, e[..|e| - 1]);
      ShiftedInjective(reg, reg.zero, reg.zero, 8);
    }
  }

  /** Trailing zero symbols neither clear an error out of the register nor introduce one. */
  lemma {:induction false} TrailingZerosKeepError<T(!new)>(reg: Register<T>, e: seq<T>, k: nat)
    requires Linear(reg) && k <= |e|
    requires forall i :: k <= i < |e| ==> e[i] == reg.zero
    ensures Run(reg, e) == reg.zero <==> Run(reg, e[..k]) == reg.zero
  {
    if k == |e| {
      assert e[..k] == e;
    } else {
      var n := |e| - 1;
      TrailingZerosKeepError(reg, e[..n], k);
      assert e[..n][..k] == e[..k];
      ShiftedInjective(reg, Run(reg, e[..n]), reg.zero, 8);
    }
  }

  lemma {:induction false} RunSnoc<T>(reg: Register<T>, data: seq<T>, x: T)
    ensures Run(reg, data + [x]) == Shifted(reg, reg.add(Run(reg, data), x), 8)
  {
    assert (data + [x])[..|data|] == data;
  }

  lemma {:induction false} LeadingZeros<T(!new)>(reg: Register<T>, zeros: seq<T>, e: seq<T>)
    requires Linear(reg) && forall i :: 0 <= i < |zeros| ==> zeros[i] == reg.zero
    ensures Run(reg, zeros + e) == Run(reg, e)
  {
    if e == [] {
      assert zeros + e == zeros;
      RunZeros(reg, zeros);
    } else {
      var n := |e| - 1;
      LeadingZeros(reg, zeros, e[..n]);
      assert (zeros + e)[..|zeros| + n] == zeros + e[..n];
    }
  }

  /** Data with a zero check value behind other data neither clears its register nor disturbs a clear one. */
  lemma {:induction false} ZeroBehind<T(!new)>(reg: Register<T>, a: seq<T>, b: seq<T>)
    requires Linear(reg) && Run(reg, b) == reg.zero
    ensures Run(reg, a + b) == reg.zero <==> Run(reg, a) == reg.zero
  {
    var behind, before := seq(|b|, _ => reg.zero), seq(|a|, _ => reg.zero);
    assert Sum(reg, a + behind, before + b) == a + b;
    RunLinear(reg, a + behind, before + b);
    LeadingZeros(reg, before, b);
    TrailingZerosKeepError(reg, a + behind, |a|);
    assert (a + behind)[..|a|] == a;
  }

  lemma {:induction false} AfterZeros<T(!new)>(reg: Register<T>, e: seq<T>, k: nat)
    requires Linear(reg) && k < |e|
    requires forall i :: 0 <= i < k ==> e[i] == reg.zero
    ensures Run(reg, e[..k + 1]) == Shifted(reg, e[k], 8)
  {
    RunZeros(reg, e[..k]);
    assert e[..k + 1][..k] == e[..k];
  }

  /** An error pattern confined to two neighbouring symbols is seen exactly when they do not cancel. */
  lemma {:induction false} TwoSymbolError<T(!new)>(reg: Register<T>, e: seq<T>, k: nat)
    requires Linear(reg) && k + 1 < |e|
    requires forall i :: 0 <= i < |e| && i != k && i != k + 1 ==> e[i] == reg.zero
    ensures Run(reg, e) == reg.zero <==> reg.add(Shifted(reg, e[k], 8), e[k + 1]) == reg.zero
  {
    AfterZeros(reg, e, k);
    TrailingZerosKeepError(reg, e, k + 2);
    LastSymbol(reg, e[..k + 2], e[..k + 1]);
  }

  lemma {:induction false} LastSymbol<T(!new)>(reg: Register<T>, e: seq<T>, front: seq<T>)
    requires Linear(reg) && e != [] && front == e[..|e| - 1]
    ensures Run(reg, e) == reg.zero <==> reg.add(Run(reg, front), e[|e| - 1]) == reg.zero
  {
    ShiftedInjective(reg, reg.add(Run(reg, front), e[|e| - 1]), reg.zero, 8);
  }

  lemma {:induction false} OneSymbolError<T(!new)>(reg: Register<T>, e: seq<T>, k: nat)
    requires Linear(reg) && k < |e|
    requires forall i :: 0 <= i < |e| && i != k ==> e[i] == reg.zero
    ensures Run(reg, e) == reg.zero <==> e[k] == reg.zero
  {
    AfterZeros(reg, e, k);
    ShiftedInjective(reg, e[k], reg.zero, 8);
    TrailingZerosKeepError(reg, e, k + 1);
  }
}

/** CRC-8 (polynomial 0x31, initial value 0, most significant bit first) of the brain protocol. */
module Crc8 {
  import opened Bitwise
  import opened Bytes
  import opened LinearRegister

  /** 0x31: x^5 + x^4 + 1 below the implied x^8. */
  const POLYNOMIAL := Byte(false, false, true, true, false, false, false, true)

  /** Shift left in eight bits and reduce when the top bit falls out. */
  function ShiftOnce(c: Byte): Byte
  {
    if c.b7 then Xor(ShiftLeft(c), POLYNOMIAL) else ShiftLeft(c)
  }

  const CRC8: Register<Byte> := Register(ZERO, Xor, ShiftOnce)

  function Crc(data: Bytes): Byte
  {
    Run(CRC8, data)
  }

  /** The byte loop of `crc8`, with its inner loop of eight shifts. */
  method Compute(data: Bytes) returns (crc: Byte)
    ensures crc == Crc(data)
  {
    crc := ZERO;
    for i := 0 to |data|
      invariant crc == Crc(data[..i])
    {
      ghost var mixed := Xor(crc, data[i]);
      crc := Xor(crc, data[i]);
      for k := 0 to 8
        invariant crc == Shifted(CRC8, mixed, k)
      {
        if crc.b7 {
          crc := Xor(ShiftLeft(crc), POLYNOMIAL);
        } else {
          crc := ShiftLeft(crc);
        }
      }
      assert data[..i + 1][..i] == data[..i];
    }
    assert data[..|data|] == data;
  }

  lemma {:induction false} BitRegroup(a: bool, b: bool, x: bool, y: bool)
    ensures ((a != b) != (x != y)) == ((a != x) != (b != y))
  {}

  lemma {:induction false} XorRegroup(a: Byte, b: Byte, x: Byte, y: Byte)
    ensures Xor(Xor(a, b), Xor(x, y)) == Xor(Xor(a, x), Xor(b, y))
  {
    BitRegroup(a.b7, b.b7, x.b7, y.b7);
    BitRegroup(a.b6, b.b6, x.b6, y.b6);
    BitRegroup(a.b5, b.b5, x.b5, y.b5);
    BitRegroup(a.b4, b.b4, x.b4, y.b4);
    BitRegroup(a.b3, b.b3, x.b3, y.b3);
    BitRegroup(a.b2, b.b2, x.b2, y.b2);
    BitRegroup(a.b1, b.b1, x.b1, y.b1);
    BitRegroup(a.b0, b.b0, x.b0, y.b0);
  }

  lemma {:induction false} XorUnitAndInverse(a: Byte, b: Byte)
    ensures Xor(a, ZERO) == a && Xor(ZERO, a) == a
    ensures Xor(a, b) == ZERO <==> a == b
  {}

  /** The bit falling out is added at positions 5, 4 and 0. */
  lemma {:induction false} ShiftOnceBits(c: Byte)
    ensures ShiftOnce(c) == Byte(c.b6, c.b5, c.b4 != c.b7, c.b3 != c.b7, c.b2, c.b1, c.b0, c.b7)
  {}

  lemma {:induction false} ShiftOnceLinear(a: Byte, b: Byte)
    ensures ShiftOnce(Xor(a, b)) == Xor(ShiftOnce(a), ShiftOnce(b))
  {
    ShiftOnceBits(a);
    ShiftOnceBits(b);
    ShiftOnceBits(Xor(a, b));
    BitRegroup(a.b4, b.b4, a.b7, b.b7);
    BitRegroup(a.b3, b.b3, a.b7, b.b7);
  }

  lemma {:induction false} ShiftOnceInjective(a: Byte, b: Byte)
    requires ShiftOnce(a) == ShiftOnce(b)
    ensures a == b
  {
    ShiftOnceBits(a);
    ShiftOnceBits(b);
  }

  /** The polynomial makes the register a linear bijection, so all of `LinearRegister` applies. */
  lemma {:induction false} CrcIsLinear()
    ensures Linear(CRC8)
  {
    forall a, b, x, y
      ensures CRC8.add(CRC8.add(a, b), CRC8.add(x, y)) == CRC8.add(CRC8.add(a, x), CRC8.add(b, y)) {
      XorRegroup(a, b, x, y);
    }
    forall a ensures CRC8.add(a, ZERO) == a && CRC8.add(ZERO, a) == a {
      XorUnitAndInverse(a, a);
    }
    forall a, b ensures CRC8.add(a, b) == ZERO <==> a == b {
      XorUnitAndInverse(a, b);
    }
    forall a, b ensures CRC8.shift(CRC8.add(a, b)) == CRC8.add(CRC8.shift(a), CRC8.shift(b)) {
      ShiftOnceLinear(a, b);
    }
    forall a, b | CRC8.shift(a) == CRC8.shift(b) ensures a == b {
      ShiftOnceInjective(a, b);
    }
  }

  lemma {:induction false} CrcShiftInjective(a: Byte, b: Byte, n: nat)
    ensures Shifted(CRC8, a, n) == Shifted(CRC8, b, n) <==> a == b
  {
    CrcIsLinear();
    ShiftedInjective(CRC8, a, b, n);
  }

  lemma {:induction false} CrcOfTwoBytes(e: Bytes, k: nat)
    requires k + 1 < |e|
    requires forall i :: 0 <= i < |e| && i != k && i != k + 1 ==> e[i] == ZERO
    ensures Crc(e) == ZERO <==> Shifted(CRC8, e[k], 8) == e[k + 1]
  {
    CrcIsLinear();
    TwoSymbolError(CRC8, e, k);
  }

  lemma {:induction false} CrcOfOneByte(e: Bytes, k: nat)
    requires k < |e|
    requires forall i :: 0 <= i < |e| && i != k ==> e[i] == ZERO
    ensures Crc(e) == ZERO <==> e[k] == ZERO
  {
    CrcIsLinear();
    OneSymbolError(CRC8, e, k);
  }

  // ── Burst errors ───────────────────────────────────────────────────────

  function Left(w: Byte, n: nat): Byte
  {
    if n == 0 then w else ShiftLeft(Left(w, n - 1))
  }

  function Right(w: Byte, n: nat): Byte
  {
    if n == 0 then w else ShiftRight(Right(w, n - 1))
  }

  /**
    `e` is a non-zero error burst confined to the eight consecutive bits `w`: the window starts
    `s` bits (counted from the most significant one) into byte `k` and its last `s` bits run over
    into byte `k + 1`.
    */
  ghost predicate IsBurst(e: Bytes, k: nat, s: nat, w: Byte)
  {
    && w != ZERO && s < 8 && k < |e|
    && e[k] == Right(w, s)
    && (if k + 1 < |e| then e[k + 1] == Left(w, 8 - s) else Left(w, 8 - s) == ZERO)
    && (forall i :: 0 <= i < |e| && i != k && i != k + 1 ==> e[i] == ZERO)
  }

  lemma {:induction false} ShiftedAdd(c: Byte, m: nat, n: nat)
    ensures Shifted(CRC8, c, m + n) == Shifted(CRC8, Shifted(CRC8, c, m), n)
  {
    if n > 0 { ShiftedAdd(c, m, n - 1); }
  }

  /** The first `n` bits of `c` are zero, so `n` shifts of the register only move it. */
  predicate TopClear(c: Byte, n: nat)
  {
    forall i: nat :: i < n ==> !Left(c, i).b7
  }

  lemma {:induction false} ShiftedTopClear(c: Byte, n: nat)
    requires TopClear(c, n)
    ensures Shifted(CRC8, c, n) == Left(c, n)
  {
    if n > 0 {
      ShiftedTopClear(c, n - 1);
      assert !Left(c, n - 1).b7;
    }
  }

  /** The last `s` bits of `w`. */
  function LowBits(w: Byte, s: nat): Byte
  {
    Byte(s >= 8 && w.b7, s >= 7 && w.b6, s >= 6 && w.b5, s >= 5 && w.b4,
         s >= 4 && w.b3, s >= 3 && w.b2, s >= 2 && w.b1, s >= 1 && w.b0)
  }

  /** All but the last `s` bits of `w`. */
  function HighBits(w: Byte, s: nat): Byte
  {
    Byte(s < 8 && w.b7, s < 7 && w.b6, s < 6 && w.b5, s < 5 && w.b4,
         s < 4 && w.b3, s < 3 && w.b2, s < 2 && w.b1, s < 1 && w.b0)
  }

  lemma {:induction false} LeftForms(w: Byte)
    ensures Left(w, 1) == Byte(w.b6, w.b5, w.b4, w.b3, w.b2, w.b1, w.b0, false)
    ensures Left(w, 2) == Byte(w.b5, w.b4, w.b3, w.b2, w.b1, w.b0, false, false)
    ensures Left(w, 3) == Byte(w.b4, w.b3, w.b2, w.b1, w.b0, false, false, false)
    ensures Left(w, 4) == Byte(w.b3, w.b2, w.b1, w.b0, false, false, false, false)
    ensures Left(w, 5) == Byte(w.b2, w.b1, w.b0, false, false, false, false, false)
    ensures Left(w, 6) == Byte(w.b1, w.b0, false, false, false, false, false, false)
    ensures Left(w, 7) == Byte(w.b0, false, false, false, false, false, false, false)
    ensures Left(w, 8) == ZERO
  {}

  lemma {:induction false} RightForms(w: Byte)
    ensures Right(w, 1) == Byte(false, w.b7, w.b6, w.b5, w.b4, w.b3, w.b2, w.b1)
    ensures Right(w, 2) == Byte(false, false, w.b7, w.b6, w.b5, w.b4, w.b3, w.b2)
    ensures Right(w, 3) == Byte(false, false, false, w.b7, w.b6, w.b5, w.b4, w.b3)
    ensures Right(w, 4) == Byte(false, false, false, false, w.b7, w.b6, w.b5, w.b4)
    ensures Right(w, 5) == Byte(false, false, false, false, false, w.b7, w.b6, w.b5)
    ensures Right(w, 6) == Byte(false, false, false, false, false, false, w.b7, w.b6)
    ensures Right(w, 7) == Byte(false, false, false, false, false, false, false, w.b7)
  {
    assert Right(w, 2) == ShiftRight(Right(w, 1));
    assert Right(w, 4) == ShiftRight(Right(w, 3));
    assert Right(w, 6) == ShiftRight(Right(w, 5));
  }

  /** Moved right and back, the window keeps all but its last `s` bits. */
  lemma {:induction false} HighPart(w: Byte, s: nat)
    requires s < 8
    ensures Left(Right(w, s), s) == HighBits(w, s)
  {
    if s < 2 { HighPart01(w, s); } else if s < 4 { HighPart23(w, s); } else { HighPartLong(w, s); }
  }

  lemma {:induction false} HighPart01(w: Byte, s: nat)
    requires 0 <= s < 2
    ensures Left(Right(w, s), s) == HighBits(w, s)
  {
    RightForms(w);
    match s
    case 0 => LeftForms(Byte(w.b7, w.b6, w.b5, w.b4, w.b3, w.b2, w.b1, w.b0));
    case 1 => LeftForms(Byte(false, w.b7, w.b6, w.b5, w.b4, w.b3, w.b2, w.b1));
  }

  lemma {:induction false} HighPart23(w: Byte, s: nat)
    requires 2 <= s < 4
    ensures Left(Right(w, s), s) == HighBits(w, s)
  {
    RightForms(w);
    match s
    case 2 => LeftForms(Byte(false, false, w.b7, w.b6, w.b5, w.b4, w.b3, w.b2));
    case 3 => LeftForms(Byte(false, false, false, w.b7, w.b6, w.b5, w.b4, w.b3));
  }

  lemma {:induction false} HighPartLong(w: Byte, s: nat)
    requires 4 <= s < 8
    ensures Left(Right(w, s), s) == HighBits(w, s)
  {
    RightForms(w);
    match s
    case 4 => LeftForms(Byte(false, false, false, false, w.b7, w.b6, w.b5, w.b4));
    case 5 => LeftForms(Byte(false, false, false, false, false, w.b7, w.b6, w.b5));
    case 6 => LeftForms(Byte(false, false, false, false, false, false, w.b7, w.b6));
    case 7 => LeftForms(Byte(false, false, false, false, false, false, false, w.b7));
  }

  lemma {:induction false} HighClear(w: Byte, s: nat)
    requires s < 8
    ensures TopClear(Right(w, s), s)
  {
    RightForms(w);
    ClearUpTo(Right(w, s), s);
  }

  lemma {:induction false} LowPart(w: Byte, s: nat)
    requires s < 8
    ensures TopClear(LowBits(w, s), 8 - s) && Left(LowBits(w, s), 8 - s) == Left(w, 8 - s)
  {
    LeftForms(w);
    LeftForms(LowBits(w, s));
    ClearUpTo(LowBits(w, s), 8 - s);
  }

  lemma {:induction false} ClearUpTo(c: Byte, n: nat)
    requires n <= 8
    requires (n > 0 ==> !c.b7) && (n > 1 ==> !c.b6) && (n > 2 ==> !c.b5) && (n > 3 ==> !c.b4)
    requires (n > 4 ==> !c.b3) && (n > 5 ==> !c.b2) && (n > 6 ==> !c.b1) && (n > 7 ==> !c.b0)
    ensures TopClear(c, n)
  {
    LeftForms(c);
  }

  /** Eight register shifts of the window's first part never give its second part. */
  lemma {:induction false} WindowDoesNotCancel(w: Byte, s: nat)
    requires w != ZERO && s < 8
    ensures Shifted(CRC8, Right(w, s), 8) != Left(w, 8 - s)
  {
    var hi, lo, n := HighBits(w, s), LowBits(w, s), 8 - s;
    HighPart(w, s);
    HighClear(w, s);
    LowPart(w, s);
    ShiftedAdd(Right(w, s), s, n);
    ShiftedTopClear(Right(w, s), s);
    ShiftedTopClear(lo, n);
    CrcShiftInjective(hi, lo, n);
    PartsDiffer(w, s);
  }

  lemma {:induction false} PartsDiffer(w: Byte, s: nat)
    requires w != ZERO
    ensures HighBits(w, s) != LowBits(w, s)
  {}

  /** No error burst of at most eight bits leaves the register at zero. */
  lemma {:induction false} BurstHasNonZeroCrc(e: Bytes, k: nat, s: nat, w: Byte)
    requires IsBurst(e, k, s, w)
    ensures Crc(e) != ZERO
  {
    WindowDoesNotCancel(w, s);
    if k + 1 < |e| {
      CrcOfTwoBytes(e, k);
    } else {
      ShiftedZero();
      CrcOfOneByte(e, k);
    }
  }

  lemma {:induction false} ShiftedZero()
    ensures Shifted(CRC8, ZERO, 8) == ZERO
  {
    CrcIsLinear();
    ShiftedInjective(CRC8, ZERO, ZERO, 8);
  }

  // ── Errors of odd weight ───────────────────────────────────────────────

  /** Whether an odd number of bits is set. */
  predicate Odd(b: Byte)
  {
    OddNibble(b.b7, b.b6, b.b5, b.b4) != OddNibble(b.b3, b.b2, b.b1, b.b0)
  }

  predicate OddNibble(p: bool, q: bool, r: bool, s: bool)
  {
    (p != q) != (r != s)
  }

  predicate OddWeight(data: Bytes)
  {
    data != [] && (OddWeight(data[..|data| - 1]) != Odd(data[|data| - 1]))
  }

  lemma {:induction false} OddNibbles(p: bool, q: bool, r: bool, s: bool, p': bool, q': bool, r': bool, s': bool)
    ensures OddNibble(p != p', q != q', r != r', s != s') == (OddNibble(p, q, r, s) != OddNibble(p', q', r', s'))
  {}

  lemma {:induction false} OddXor(a: Byte, b: Byte)
    ensures Odd(Xor(a, b)) == (Odd(a) != Odd(b))
  {
    OddNibbles(a.b7, a.b6, a.b5, a.b4, b.b7, b.b6, b.b5, b.b4);
    OddNibbles(a.b3, a.b2, a.b1, a.b0, b.b3, b.b2, b.b1, b.b0);
  }

  /** The polynomial is divisible by x + 1: shifting keeps the parity. */
  lemma {:induction false} ShiftKeepsParity(c: Byte, n: nat)
    ensures Odd(Shifted(CRC8, c, n)) == Odd(c)
  {
    if n > 0 {
      ShiftKeepsParity(c, n - 1);
      ShiftOnceBits(Shifted(CRC8, c, n - 1));
    }
  }

  /** The parity of the check value is that of the data, so no error of odd weight has a zero one. */
  lemma {:induction false} CrcKeepsParity(data: Bytes)
    ensures Odd(Crc(data)) == OddWeight(data)
  {
    if data != [] {
      var n := |data| - 1;
      CrcKeepsParity(data[..n]);
      OddXor(Crc(data[..n]), data[n]);
      ShiftKeepsParity(Xor(Crc(data[..n]), data[n]), 8);
    }
  }

  // ── Running the register backwards ─────────────────────────────────────

  /** The register before a shift. */
  function Unshift(c: Byte): Byte
  {
    Byte(c.b0, c.b7, c.b6, c.b5 != c.b0, c.b4 != c.b0, c.b3, c.b2, c.b1)
  }

  function Unshifted(c: Byte, n: nat): Byte
    decreases n
  {
    if n == 0 then c else Unshifted(Unshift(c), n - 1)
  }

  lemma {:induction false} ShiftedBack(c: Byte, n: nat)
    ensures Shifted(CRC8, Unshifted(c, n), n) == c
    decreases n
  {
    if n > 0 {
      ShiftedBack(Unshift(c), n - 1);
      ShiftOnceBits(Unshift(c));
    }
  }
}
