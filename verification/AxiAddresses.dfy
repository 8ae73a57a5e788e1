/** The slave's beat addresses against those of AMBA AXI (IHI 0022, section A3.4.1) for
    incrementing bursts: the protocol aligns every beat after the first, the slave adds
    the size to the start address without aligning it (src/AXIMemory.cc:89, 144). */
module AxiAddresses {
  import opened Words
  import opened Platform
  import opened AxiSlave

  /** The sizes a bus transfers in one beat. */
  predicate Narrow(bus: nat, size: nat) { Size(size) && size <= bus }

  function Aligned(start: u32, size: nat): nat
    requires size > 0
  {
    start - start % size
  }

  /** The address of beat k in the protocol, and how many bytes from there on it carries. */
  function ProtocolAddress(start: u32, size: nat, k: nat): nat
    requires size > 0
  {
    if k == 0 then start else Aligned(start, size) + k * size
  }

  function ProtocolBytes(start: u32, size: nat, k: nat): nat
    requires size > 0
  {
    if k == 0 then size - start % size else size
  }

  function SlaveAddress(start: u32, size: nat, k: nat): nat { start + k * size }

  predicate SameAddress(start: u32, size: nat, k: nat)
    requires size > 0
  {
    SlaveAddress(start, size, k) == ProtocolAddress(start, size, k)
  }

  /** Exactly the bursts whose every beat has the address of the protocol. */
  lemma {:induction false} AddressesAgreeIff(start: u32, size: nat, length: byte)
    requires size > 0
    ensures (forall k :: 0 <= k <= length ==> SameAddress(start, size, k)) <==> start % size == 0 || length == 0
  {
    if start % size != 0 && length > 0 { assert !SameAddress(start, size, 1); }
  }

  // ----- multiples of a size -----

  predicate Size(size: nat) { size in {1, 2, 4, 8, 16, 32} }

  /** `size * n`, size by size. */
  function Times(size: nat, n: nat): nat {
    match size
    case 2 => 2 * n
    case 4 => 4 * n
    case 8 => 8 * n
    case 16 => 16 * n
    case 32 => 32 * n
    case _ => n
  }

  lemma {:induction false} NextMultiple(size: nat, n: nat)
    requires Size(size)
    ensures Times(size, n + 1) == Times(size, n) + size
  {
  }

  lemma {:induction false} DividesRest(v: nat, size: nat)
    requires size > 0
    ensures v == v / size * size + v % size
  {
  }

  lemma {:induction false} TimesIsProduct(size: nat, n: nat)
    requires Size(size)
    ensures Times(size, n) == n * size
  {
    hide Times;
    if n == 0 { TimesZero(size); } else {
      TimesIsProduct(size, n - 1);
      NextMultiple(size, n - 1);
    }
  }

  lemma {:induction false} TimesZero(size: nat)
    ensures Times(size, 0) == 0
  {
  }

  /** The blocks of a burst begin at multiples of the size. */
  lemma {:induction false} BlockNumber(start: u32, size: nat, k: nat) returns (n: nat)
    requires Size(size)
    ensures Aligned(start, size) + k * size == Times(size, n)
  {
    hide Times;
    if k == 0 {
      n := start / size;
      DividesRest(start, size);
      TimesIsProduct(size, n);
    } else {
      var before := BlockNumber(start, size, k - 1);
      n := before + 1;
      NextMultiple(size, before);
      assert k * size == (k - 1) * size + size;
    }
  }

  lemma {:induction false} Ordered(size: nat, n: nat, m: nat)
    requires Size(size)
    ensures if n < m then Times(size, n) + size <= Times(size, m) else Times(size, m) <= Times(size, n)
  {
  }

  /** How many blocks of a size make up eight bytes. */
  function PerEight(size: nat): nat { match size case 1 => 8 case 2 => 4 case 4 => 2 case _ => 1 }

  function PerThirtyTwo(size: nat): nat {
    match size case 1 => 32 case 2 => 16 case 4 => 8 case 8 => 4 case 16 => 2 case _ => 1
  }

  lemma {:induction false} EdgeOfThirtyTwo(size: nat, edge: nat)
    requires Size(size)
    ensures 32 * edge == Times(size, PerThirtyTwo(size) * edge)
  {
  }

  lemma {:induction false} EdgeOfEight(size: nat, edge: nat)
    requires size in {1, 2, 4, 8}
    ensures 8 * edge == Times(size, PerEight(size) * edge)
  {
  }

  /** A multiple of 32 is no closer above a multiple of a size than that size. */
  lemma {:induction false} StepsApart(size: nat, n: nat, edge: nat)
    requires Size(size)
    ensures Times(size, n) < 32 * edge ==> Times(size, n) + size <= 32 * edge
  {
    hide Times, PerThirtyTwo;
    EdgeOfThirtyTwo(size, edge);
    Ordered(size, n, PerThirtyTwo(size) * edge);
  }

  // ----- the bus window -----

  /** A block of `size` bytes lies in one bus window. */
  lemma {:induction false} BlockInWindow(bus: nat, size: nat, n: nat, r: nat)
    requires BusWidth(bus) && Narrow(bus, size) && r < size
    ensures (Times(size, n) + r) / bus == Times(size, n) / bus
  {
    hide Times;
    if bus == 8 { BlockInEight(size, n, r); } else { BlockInThirtyTwo(size, n, r); }
  }

  lemma {:induction false} BlockInEight(size: nat, n: nat, r: nat)
    requires size in {1, 2, 4, 8} && r < size
    ensures (Times(size, n) + r) / 8 == Times(size, n) / 8
  {
    hide Times, PerEight;
    var v, q := Times(size, n), Times(size, n) / 8;
    EdgeOfEight(size, q + 1);
    Ordered(size, n, PerEight(size) * (q + 1));
    assert 8 * q <= v && v + r < 8 * (q + 1);
  }

  lemma {:induction false} BlockInThirtyTwo(size: nat, n: nat, r: nat)
    requires Size(size) && r < size
    ensures (Times(size, n) + r) / 32 == Times(size, n) / 32
  {
    hide Times;
    var v, q := Times(size, n), Times(size, n) / 32;
    StepsApart(size, n, q + 1);
    assert 32 * q <= v && v + r < 32 * (q + 1);
  }

  lemma {:induction false} SameQuotientSameBase(bus: nat, a: u32, b: u32)
    requires BusWidth(bus) && a / bus == b / bus
    ensures WindowBase(bus, a) == WindowBase(bus, b)
  {
    assert a == bus * (a / bus) + a % bus && b == bus * (b / bus) + b % bus;
  }

  lemma {:induction false} LowKeepsQuotient(bus: nat, a: nat, b: nat)
    requires BusWidth(bus) && a / bus == b / bus
    ensures Low32(a) / bus == Low32(b) / bus
  {
    if bus == 8 {
      LowOverEight(a);
      LowOverEight(b);
    } else {
      LowOverThirtyTwo(a);
      LowOverThirtyTwo(b);
    }
  }

  lemma {:induction false} LowOverEight(a: nat)
    ensures a % 0x1_0000_0000 / 8 == a / 8 % 0x2000_0000
  {
  }

  lemma {:induction false} LowOverThirtyTwo(a: nat)
    ensures a % 0x1_0000_0000 / 32 == a / 32 % 0x800_0000
  {
  }

  /** Every beat of every incrementing burst of bus-sized or narrower transfers reads and
      writes the bus window that the protocol names, aligned or not. */
  lemma {:induction false} SameWindow(bus: nat, start: u32, size: nat, k: nat)
    requires BusWidth(bus) && Narrow(bus, size)
    ensures WindowBase(bus, Low32(SlaveAddress(start, size, k)))
         == WindowBase(bus, Low32(ProtocolAddress(start, size, k)))
  {
    hide WindowBase, Low32, Times;
    var slave, protocol := SlaveAddress(start, size, k), ProtocolAddress(start, size, k);
    var n := BlockNumber(start, size, k);
    BlockInWindow(bus, size, n, start % size);
    LowKeepsQuotient(bus, slave, protocol);
    SameQuotientSameBase(bus, Low32(slave), Low32(protocol));
  }

  // ----- the decoder -----

  /** The address right behind a region. */
  predicate EndsRegion(address: nat) {
    || address == RAM_BASE + RAM_SIZE || address == CLINT_BASE + CLINT_SIZE
    || address == UART_BASE + UART_SIZE || address == WRITE_COMBINE_BASE + WRITE_COMBINE_SIZE
  }

  /** The block of a beat is the last one of its region. */
  predicate LastInRegion(start: u32, size: nat, k: nat)
    requires size > 0
  {
    EndsRegion(Aligned(start, size) + k * size + size)
  }

  predicate SameTarget(start: u32, size: nat, k: nat)
    requires size > 0
  {
    ReadTarget(true, SlaveAddress(start, size, k), size)
    == ReadTarget(true, ProtocolAddress(start, size, k), ProtocolBytes(start, size, k))
  }

  /** Regions begin and end at multiples of 32. */
  predicate Region(base: nat, length: nat) { base % 32 == 0 && length % 32 == 0 && base + length <= 0xffff_0000 }

  /** The block of a number begins at its multiple of the size. */
  predicate IsBlock(size: nat, n: nat, block: nat) { Size(size) && block == Times(size, n) }

  /** Whether the end of a block, or a block's length from its inside on, lies in a region. */
  lemma {:induction false} RegionsHoldBlocks(size: nat, n: nat, block: nat, r: nat, base: nat, length: nat)
    requires IsBlock(size, n, block) && r < size && Region(base, length)
    ensures Contains(block + r, size - r, base, length) <==> Contains(block, size, base, length)
    ensures r > 0 ==>
      (Contains(block + r, size, base, length) <==>
        Contains(block, size, base, length) && block + size != base + length)
    ensures Contains(block, size, base, length) <==> base <= block < base + length
  {
    hide Times;
    StepsApart(size, n, base / 32);
    StepsApart(size, n, (base + length) / 32);
    NextMultiple(size, n);
    StepsApart(size, n + 1, (base + length) / 32);
  }

  lemma {:induction false} PartOfBlock(size: nat, n: nat, block: nat, r: nat)
    requires IsBlock(size, n, block) && r < size
    ensures ReadTarget(true, block + r, size - r) == ReadTarget(true, block, size)
  {
    hide Contains, IsBlock;
    RegionsHoldBlocks(size, n, block, r, RAM_BASE, RAM_SIZE);
    RegionsHoldBlocks(size, n, block, r, CLINT_BASE, CLINT_SIZE);
    RegionsHoldBlocks(size, n, block, r, UART_BASE, UART_SIZE);
    RegionsHoldBlocks(size, n, block, r, WRITE_COMBINE_BASE, WRITE_COMBINE_SIZE);
  }

  lemma {:induction false} ShiftedBlock(size: nat, n: nat, block: nat, r: nat)
    requires IsBlock(size, n, block) && 0 < r < size <= 32
    ensures ReadTarget(true, block + r, size) == ReadTarget(true, block, size) <==> !EndsRegion(block + size)
  {
    hide Contains, IsBlock;
    RegionsHoldBlocks(size, n, block, r, RAM_BASE, RAM_SIZE);
    RegionsHoldBlocks(size, n, block, r, CLINT_BASE, CLINT_SIZE);
    RegionsHoldBlocks(size, n, block, r, UART_BASE, UART_SIZE);
    RegionsHoldBlocks(size, n, block, r, WRITE_COMBINE_BASE, WRITE_COMBINE_SIZE);
  }

  /** The addresses of beat k, relative to its block. */
  lemma {:induction false} BeatInBlock(start: u32, size: nat, k: nat)
    requires size > 0
    ensures var block, r := Aligned(start, size) + k * size, start % size;
      var part := if k == 0 then r else 0;
      && SlaveAddress(start, size, k) == block + r
      && ProtocolAddress(start, size, k) == block + part && ProtocolBytes(start, size, k) == size - part
  {
  }

  lemma {:induction false} SameTargetIff(start: u32, size: nat, k: nat)
    requires Size(size)
    ensures SameTarget(start, size, k) <==> start % size == 0 || !LastInRegion(start, size, k)
  {
    hide ReadTarget, EndsRegion, Times, Aligned, SlaveAddress, ProtocolAddress, ProtocolBytes;
    var block, r := Aligned(start, size) + k * size, start % size;
    var part := if k == 0 then r else 0;
    BeatInBlock(start, size, k);
    var n := BlockNumber(start, size, k);
    PartOfBlock(size, n, block, part);
    if r > 0 { ShiftedBlock(size, n, block, r); }
  }

  /** Exactly when the slave decodes every beat as the protocol's bytes lie: the start is
      aligned, or no beat's block is the last one of its region. */
  lemma {:induction false} BurstDecodesAlikeIff(start: u32, size: nat, length: byte)
    requires Size(size)
    ensures (forall k :: 0 <= k <= length ==> SameTarget(start, size, k)) <==>
      start % size == 0 || (forall k :: 0 <= k <= length ==> !LastInRegion(start, size, k))
  {
    hide SameTarget, LastInRegion;
    forall k: nat | k <= length
      ensures SameTarget(start, size, k) <==> start % size == 0 || !LastInRegion(start, size, k)
    {
      SameTargetIff(start, size, k);
    }
    if start % size != 0 && (forall k :: 0 <= k <= length ==> SameTarget(start, size, k)) {
      forall k | 0 <= k <= length ensures !LastInRegion(start, size, k) { assert SameTarget(start, size, k); }
    }
  }

  /** A write is decoded as a read is, outside the write-combine aperture. */
  lemma {:induction false} WritesDecodeLikeReads(address: u32, size: nat, length: byte)
    requires 0 < size <= 128 && !IsWriteCombine(address, size)
    ensures WriteTarget(true, address, size, length) == ReadTarget(true, address, size)
  {
    assert size * (length + 1) >= size;
  }

  /** Eight bytes at the last four bytes of RAM: the protocol touches RAM only, the slave
      answers with DECERR. */
  lemma {:induction false} UnalignedBeatAtEndOfRam()
    ensures ReadTarget(true, ProtocolAddress(0x83ff_fffc, 8, 0), ProtocolBytes(0x83ff_fffc, 8, 0)) == ToMemory
    ensures ReadTarget(true, SlaveAddress(0x83ff_fffc, 8, 0), 8) == Nowhere
  {
  }
}
