/**
  RISC-V physical memory protection as the hardware reads it: section 3.7.1 of the RISC-V Privileged
  Architecture, top-of-range entries matched lowest first, supervisor mode.
  */
module PmpHardware {
  import opened Bitwise
  import opened Bytes

  const ENTRIES := 8
  /** Address registers hold bits 55 to 2 of an address. */
  const ADDR_SIZE := 0x40_0000_0000_0000

  datatype Perm = Perm(r: bool, w: bool, x: bool)

  const NONE := Perm(false, false, false)

  datatype Mode = Off | Tor | Na4 | Napot

  /** A 64-bit register as its eight byte lanes, lowest first. */
  type Word = w: Bytes | |w| == ENTRIES witness [ZERO, ZERO, ZERO, ZERO, ZERO, ZERO, ZERO, ZERO]

  /** `cfg` packs one configuration byte per entry. */
  datatype Registers = Registers(cfg: Word, addr: seq<nat>)

  function ModeOf(c: Byte): Mode
  {
    if c.b4 then (if c.b3 then Napot else Na4) else if c.b3 then Tor else Off
  }

  function PermOf(c: Byte): Perm
  {
    Perm(c.b0, c.b1, c.b2)
  }

  /** The bottom of a top-of-range entry is the address register before it. */
  function Bottom(p: Registers, i: nat): nat
    requires i < |p.addr|
  {
    if i == 0 then 0 else p.addr[i - 1]
  }

  /** Whether the entry is top-of-range and holds address `a`; the other modes are not used. */
  predicate Matches(p: Registers, i: nat, a: nat)
    requires i < ENTRIES && |p.addr| == ENTRIES
  {
    ModeOf(p.cfg[i]) == Tor && Bottom(p, i) <= a / 4 < p.addr[i]
  }

  /** The lowest matching entry from `i` on decides; without a match access is denied. */
  function Lookup(p: Registers, i: nat, a: nat): Perm
    requires i <= ENTRIES && |p.addr| == ENTRIES
    decreases ENTRIES - i
  {
    if i == ENTRIES then NONE
    else if Matches(p, i, a) then PermOf(p.cfg[i])
    else Lookup(p, i + 1, a)
  }

  function Or(a: Byte, b: Byte): Byte
  {
    Byte(a.b7 || b.b7, a.b6 || b.b6, a.b5 || b.b5, a.b4 || b.b4, a.b3 || b.b3, a.b2 || b.b2, a.b1 || b.b1, a.b0 || b.b0)
  }

  /** A byte shifted left by `8 * i` in a 64-bit word. */
  function InLane(b: Byte, i: nat): (w: Word)
    requires i < ENTRIES
    ensures forall j :: 0 <= j < ENTRIES ==> w[j] == if j == i then b else ZERO
  {
    ZERO_WORD[i := b]
  }

  const ZERO_WORD: Word := [ZERO, ZERO, ZERO, ZERO, ZERO, ZERO, ZERO, ZERO]

  function OrWords(a: Word, b: Word): (w: Word)
    ensures forall j :: 0 <= j < ENTRIES ==> w[j] == Or(a[j], b[j])
  {
    [Or(a[0], b[0]), Or(a[1], b[1]), Or(a[2], b[2]), Or(a[3], b[3]),
     Or(a[4], b[4]), Or(a[5], b[5]), Or(a[6], b[6]), Or(a[7], b[7])]
  }

  lemma {:induction false} OrZero(b: Byte)
    ensures Or(b, ZERO) == b == Or(ZERO, b)
  {}
}

/** The kernel's memory protection policy and the register values that encode it. */
module Pmp {
  import opened Bitwise
  import opened Bytes
  import opened PmpHardware

  const USIZE := 0x1_0000_0000_0000_0000
  const MMIO_END := 0x2000_0000
  const REGIONS := 6
  /** Physical addresses have 56 bits. */
  const PHYSICAL := 0x100_0000_0000_0000

  const RO := Perm(true, false, false)
  const RW := Perm(true, true, false)
  const RX := Perm(true, false, true)
  const RWX := Perm(true, true, true)

  datatype Region = Region(base: nat, size: nat, perm: Perm)

  /** The upper bound of each listed region in order: firmware, kernel text, kernel data, RT heap, ML heap. */
  datatype Layout = Layout(firmwareEnd: nat, kernelEnd: nat, heapStart: nat, heapSize: nat) {
    function RtEnd(): nat { heapStart + heapSize / 2 }
    function MlEnd(): nat { heapStart + heapSize }
  }

  /** The unsigned subtractions and additions of `pmp_regions` do not overflow. */
  predicate Ordered(l: Layout)
  {
    l.firmwareEnd <= l.kernelEnd <= l.heapStart && l.MlEnd() < USIZE
  }

  /** `pmp_regions`. */
  function Regions(l: Layout): (rs: seq<Region>)
    requires Ordered(l)
    ensures |rs| == REGIONS
  {
    [Region(0, l.firmwareEnd, RO),
     Region(l.firmwareEnd, l.kernelEnd - l.firmwareEnd, RX),
     Region(l.kernelEnd, l.heapStart - l.kernelEnd, RW),
     Region(l.heapStart, l.heapSize / 2, RWX),
     Region(l.RtEnd(), l.MlEnd() - l.RtEnd(), RW),
     Region(0, MMIO_END, RW)]
  }

  function TorAddr(r: Region): nat
  {
    (r.base + r.size) / 4
  }

  /** What an address register keeps of a value written to it. */
  function Kept(v: nat): nat
  {
    v % ADDR_SIZE
  }

  predicate Encodes(c: Byte, perm: Perm)
  {
    ModeOf(c) == Tor && PermOf(c) == perm && !c.b7
  }

  /** `cfg_byte` and `cfg_with_mode` for an unlocked top-of-range entry. */
  method CfgByte(perm: Perm) returns (c: Byte)
    ensures Encodes(c, perm) && !c.b5 && !c.b6
  {
    var one := Byte(false, false, false, false, false, false, false, true);
    c := ZERO;
    if perm.r { c := Or(c, one); }
    if perm.w { c := Or(c, ShiftLeft(one)); }
    if perm.x { c := Or(c, ShiftLeft(ShiftLeft(one))); }
    c := Or(c, ShiftLeft(ShiftLeft(ShiftLeft(one))));
  }

  class PmpCsrs {
    var cfg0: Word
    const addr: array<nat>

    ghost function Current(): Registers
      reads this, addr
    {
      Registers(cfg0, addr[..])
    }

    constructor ()
      ensures addr.Length == ENTRIES && fresh(addr)
    {
      cfg0 := ZERO_WORD;
      addr := new nat[ENTRIES];
    }

    method WriteAddr(i: nat, v: nat)
      requires addr.Length == ENTRIES && i < ENTRIES
      modifies addr
      ensures addr[..] == old(addr[..])[i := Kept(v)]
    {
      addr[i] := v % ADDR_SIZE;
    }

    /** `pmp_configure`; false is the panic of an unordered layout. */
    method Configure(l: Layout) returns (ok: bool)
      requires addr.Length == ENTRIES
      modifies this, addr
      ensures ok == Ordered(l)
      ensures ok ==> Configured(Current(), l)
      ensures !ok ==> Current() == old(Current())
    {
      if !(l.firmwareEnd <= l.kernelEnd <= l.heapStart && l.heapStart + l.heapSize < USIZE) { return false; }
      var regions := Regions(l);
      var i := 0;
      while i < REGIONS
        invariant i <= REGIONS
        invariant forall j :: 0 <= j < i ==> addr[j] == Kept(TorAddr(regions[j]))
      {
        WriteAddr(i, TorAddr(regions[i]));
        i := i + 1;
      }
      WriteAddr(6, (USIZE - 1) / 4);
      var cfg := PackConfig(regions);
      var deny := CfgByte(NONE);
      cfg0 := OrWords(cfg, InLane(deny, 6));
      OrZero(deny);
      forall j | 0 <= j < REGIONS ensures cfg0[j] == cfg[j] { OrZero(cfg[j]); }
      OrZero(ZERO);
      return true;
    }

    /** `pmp_early_init`; false is the panic of a memory end beyond the address space. */
    method EarlyInit(ramBase: nat, ramSize: nat) returns (ok: bool)
      requires addr.Length == ENTRIES
      modifies this, addr
      ensures ok <==> ramBase + ramSize < USIZE
      ensures ok ==> EarlyConfigured(Current(), ramBase + ramSize)
    {
      if ramBase + ramSize >= USIZE { return false; }
      WriteAddr(0, MMIO_END / 4);
      WriteAddr(1, (ramBase + ramSize) / 4);
      WriteAddr(2, (USIZE - 1) / 4);
      var mmio := CfgByte(RW);
      var ram := CfgByte(RWX);
      var deny := CfgByte(NONE);
      cfg0 := OrWords(OrWords(InLane(mmio, 0), InLane(ram, 1)), InLane(deny, 2));
      OrZero(mmio);
      OrZero(ram);
      OrZero(deny);
      return true;
    }
  }

  /** The loop that shifts each region's byte into its lane. */
  method PackConfig(regions: seq<Region>) returns (cfg: Word)
    requires |regions| == REGIONS
    ensures forall j :: 0 <= j < REGIONS ==> Encodes(cfg[j], regions[j].perm)
    ensures cfg[6] == cfg[7] == ZERO
  {
    cfg := ZERO_WORD;
    var i := 0;
    while i < REGIONS
      invariant i <= REGIONS
      invariant forall j :: 0 <= j < i ==> Encodes(cfg[j], regions[j].perm)
      invariant forall j :: i <= j < ENTRIES ==> cfg[j] == ZERO
    {
      var c := CfgByte(regions[i].perm);
      OrZero(c);
      forall j | 0 <= j < ENTRIES ensures Or(cfg[j], ZERO) == cfg[j] { OrZero(cfg[j]); }
      cfg := OrWords(cfg, InLane(c, i));
      i := i + 1;
    }
  }

  /** The registers of the policy, field by field. */
  ghost predicate Configured(p: Registers, l: Layout)
  {
    && Ordered(l) && |p.addr| == ENTRIES
    && (forall i :: 0 <= i < REGIONS ==>
          p.addr[i] == Kept(TorAddr(Regions(l)[i])) && Encodes(p.cfg[i], Regions(l)[i].perm))
    && p.addr[6] == Kept((USIZE - 1) / 4) && Encodes(p.cfg[6], NONE) && p.cfg[7] == ZERO
  }

  ghost predicate EarlyConfigured(p: Registers, ramEnd: nat)
  {
    && |p.addr| == ENTRIES
    && p.addr[0] == Kept(MMIO_END / 4) && p.addr[1] == Kept(ramEnd / 4) && p.addr[2] == Kept((USIZE - 1) / 4)
    && Encodes(p.cfg[0], RW) && Encodes(p.cfg[1], RWX) && Encodes(p.cfg[2], NONE)
    && (forall i :: 3 <= i < ENTRIES ==> p.cfg[i] == ZERO)
  }

  // ── What the registers mean ────────────────────────────────────────────

  predicate Holds(r: Region, a: nat)
  {
    r.base <= a < r.base + r.size
  }

  /** The policy as listed: the first region from `i` on that holds the address, else nothing. */
  function Policy(rs: seq<Region>, i: nat, a: nat): Perm
    requires i <= |rs|
    decreases |rs| - i
  {
    if i == |rs| then NONE else if Holds(rs[i], a) then rs[i].perm else Policy(rs, i + 1, a)
  }

  /** Region bounds on word boundaries, within the physical address space. */
  predicate Aligned(l: Layout)
  {
    && l.firmwareEnd % 4 == 0 && l.kernelEnd % 4 == 0 && l.heapStart % 4 == 0 && l.heapSize % 8 == 0
    && l.MlEnd() < PHYSICAL
  }

  lemma {:induction false} KeptWhole(end: nat)
    requires end < PHYSICAL
    ensures Kept(end / 4) == end / 4
  {}

  lemma {:induction false} WordCompare(a: nat, end: nat)
    requires end % 4 == 0
    ensures a / 4 < end / 4 <==> a < end
  {}

  lemma {:induction false} HalfAligned(start: nat, size: nat)
    requires start % 4 == 0 && size % 8 == 0
    ensures (start + size / 2) % 4 == 0 && (start + size) % 4 == 0 && start + size / 2 <= start + size
  {}

  function End(l: Layout, i: nat): nat
    requires i < REGIONS
  {
    if i == 0 then l.firmwareEnd
    else if i == 1 then l.kernelEnd
    else if i == 2 then l.heapStart
    else if i == 3 then l.RtEnd()
    else if i == 4 then l.MlEnd()
    else MMIO_END
  }

  lemma {:induction false} EndOfRegion(l: Layout, i: nat)
    requires Ordered(l) && i < REGIONS
    ensures Regions(l)[i].base + Regions(l)[i].size == End(l, i)
  {}

  lemma {:induction false} EndAligned(l: Layout, i: nat)
    requires Ordered(l) && Aligned(l) && i < REGIONS
    ensures End(l, i) % 4 == 0 && End(l, i) < PHYSICAL
  {
    HalfAligned(l.heapStart, l.heapSize);
  }

  lemma {:induction false} KeptCompare(end: nat, a: nat)
    requires end % 4 == 0 && end < PHYSICAL
    ensures a / 4 < Kept(end / 4) <==> a < end
  {
    KeptWhole(end);
    WordCompare(a, end);
  }

  /** The end of each region, as the registers compare it. */
  lemma {:induction false} TopCompare(p: Registers, l: Layout, i: nat, a: nat)
    requires Configured(p, l) && Aligned(l) && i < REGIONS
    ensures a / 4 < p.addr[i] <==> a < Regions(l)[i].base + Regions(l)[i].size
  {
    EndOfRegion(l, i);
    EndAligned(l, i);
    KeptCompare(End(l, i), a);
    assert p.addr[i] == Kept(TorAddr(Regions(l)[i]));
  }

  lemma {:induction false} CatchAllDenies(p: Registers, l: Layout, a: nat)
    requires Configured(p, l)
    ensures Lookup(p, REGIONS, a) == NONE
  {
    assert ModeOf(p.cfg[7]) == Off;
    assert Lookup(p, 8, a) == NONE;
    assert Lookup(p, 7, a) == NONE;
  }

  /** Entry `i` matches what region `i` holds, for addresses above the regions before it. */
  lemma {:induction false} LookupFrom(p: Registers, l: Layout, i: nat, a: nat)
    requires Configured(p, l) && Aligned(l) && i <= REGIONS
    requires forall j :: 0 <= j < i && j < 5 ==> a >= Regions(l)[j].base + Regions(l)[j].size
    ensures Lookup(p, i, a) == Policy(Regions(l), i, a)
    decreases REGIONS - i
  {
    if i == REGIONS {
      CatchAllDenies(p, l, a);
    } else {
      TopCompare(p, l, i, a);
      if i > 0 { TopCompare(p, l, i - 1, a); }
      assert Matches(p, i, a) <==> Holds(Regions(l)[i], a);
      if !Holds(Regions(l)[i], a) { LookupFrom(p, l, i + 1, a); }
    }
  }

  /**
    For every ordered, word-aligned layout the packed registers give every address the permission of
    the first listed region that holds it, and none to the rest.
    */
  lemma {:induction false} RegistersMeanPolicy(p: Registers, l: Layout, a: nat)
    requires Configured(p, l) && Aligned(l)
    ensures Lookup(p, 0, a) == Policy(Regions(l), 0, a)
  {
    LookupFrom(p, l, 0, a);
  }

  /** The listed policy, spelled out: the device window is read-write only above all of memory. */
  lemma {:induction false} PolicyTable(l: Layout, a: nat)
    requires Ordered(l)
    ensures Policy(Regions(l), 0, a) ==
            if a < l.firmwareEnd then Perm(true, false, false)
            else if a < l.kernelEnd then Perm(true, false, true)
            else if a < l.heapStart then Perm(true, true, false)
            else if a < l.heapStart + l.heapSize / 2 then Perm(true, true, true)
            else if a < l.heapStart + l.heapSize then Perm(true, true, false)
            else if a < 0x2000_0000 then Perm(true, true, false)
            else Perm(false, false, false)
  {
    var rs := Regions(l);
    assert Policy(rs, 5, a) == if Holds(rs[5], a) then RW else Policy(rs, 6, a);
    assert Policy(rs, 4, a) == if Holds(rs[4], a) then RW else Policy(rs, 5, a);
    assert Policy(rs, 3, a) == if Holds(rs[3], a) then RWX else Policy(rs, 4, a);
    assert Policy(rs, 2, a) == if Holds(rs[2], a) then RW else Policy(rs, 3, a);
    assert Policy(rs, 1, a) == if Holds(rs[1], a) then RX else Policy(rs, 2, a);
  }

  /** No address is both writable and executable outside the RT heap, and firmware is never writable. */
  lemma {:induction false} WriteXorExecute(p: Registers, l: Layout, a: nat)
    requires Configured(p, l) && Aligned(l)
    ensures var q := Lookup(p, 0, a);
            && (q.w && q.x <==> l.heapStart <= a < l.RtEnd())
            && (a < l.firmwareEnd ==> !q.w)
            && (l.RtEnd() <= a ==> !q.x)
  {
    RegistersMeanPolicy(p, l, a);
    PolicyTable(l, a);
  }

  /**
    The device window is not read-write as a whole: an address in it is writable exactly when it lies
    at or above the end of the kernel text, and under firmware that covers the window all of it is
    read-only.
    */
  lemma {:induction false} DeviceWindowWritableIff(p: Registers, l: Layout, a: nat)
    requires Configured(p, l) && Aligned(l) && a < MMIO_END
    ensures Lookup(p, 0, a).w <==> l.kernelEnd <= a
    ensures l.firmwareEnd >= MMIO_END ==> Lookup(p, 0, a) == RO
  {
    RegistersMeanPolicy(p, l, a);
    PolicyTable(l, a);
  }

  /** The documented table of the boot policy, for a memory end on a word boundary. */
  lemma {:induction false} EarlyTable(p: Registers, ramEnd: nat, a: nat)
    requires EarlyConfigured(p, ramEnd) && ramEnd % 4 == 0 && ramEnd < PHYSICAL
    ensures Lookup(p, 0, a) == if a < 0x2000_0000 then Perm(true, true, false)
                               else if a < ramEnd then Perm(true, true, true)
                               else Perm(false, false, false)
  {
    KeptWhole(MMIO_END);
    KeptWhole(ramEnd);
    WordCompare(a, MMIO_END);
    WordCompare(a, ramEnd);
    OffFrom(p, 3, a);
    assert Lookup(p, 2, a) == NONE;
    assert Lookup(p, 1, a) == if Matches(p, 1, a) then RWX else NONE;
  }

  lemma {:induction false} OffFrom(p: Registers, i: nat, a: nat)
    requires i <= ENTRIES && |p.addr| == ENTRIES
    requires forall j :: i <= j < ENTRIES ==> p.cfg[j] == ZERO
    ensures Lookup(p, i, a) == NONE
    decreases ENTRIES - i
  {
    if i < ENTRIES { OffFrom(p, i + 1, a); }
  }
}
