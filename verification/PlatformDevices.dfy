/** The timer and UART of src/PlatformDevices.cc, as a value (`Devices`) with its
    operations, the facts about them, and the class whose methods carry them out. */
module Platform {
  import opened Words
  import opened Checkpoint

  const RAM_BASE := 0x8000_0000
  const RAM_SIZE := 0x400_0000
  const CLINT_BASE := 0xa000_0000
  const CLINT_SIZE := 0x1_0000
  const UART_BASE := 0xa100_0000
  const UART_SIZE := 0x1000
  const WRITE_COMBINE_BASE := 0xa200_0000
  const WRITE_COMBINE_SIZE := 0x100_0000
  const TIMER_DIVIDER := 10
  const MTIMECMP := 0xa000_4000
  const MTIME := 0xa000_bff8
  const UART_INPUT_LIMIT := 0x10_0000
  const UART_OUTPUT_LIMIT := 0x400_0000

  // ----- regions -----

  predicate Contains(address: nat, size: nat, base: nat, length: nat) {
    size != 0 && address >= base && address + size <= base + length && address + size <= 0x1_0000_0000
  }

  predicate IsRam(address: nat, size: nat) { Contains(address, size, RAM_BASE, RAM_SIZE) }

  predicate IsWriteCombine(address: nat, size: nat) {
    Contains(address, size, WRITE_COMBINE_BASE, WRITE_COMBINE_SIZE)
  }

  predicate IsDevice(address: nat, size: nat) {
    (Contains(address, size, CLINT_BASE, CLINT_SIZE) || Contains(address, size, UART_BASE, UART_SIZE))
    && !IsWriteCombine(address, size)
  }

  /** No access belongs to two regions, so the order of the tests does not matter. */
  lemma {:induction false} RegionsAreDisjoint(address: nat, size: nat)
    ensures !(IsRam(address, size) && IsDevice(address, size))
    ensures !(IsRam(address, size) && IsWriteCombine(address, size))
  {
  }

  /** The memory map: 64 MB of RAM, 64 KB for the timer, 4 KB for the UART and 16 MB for
      write-combining. No access of size 0 and none across the end of a region is in it. */
  lemma {:induction false} MemoryMap(address: nat, size: nat)
    ensures IsRam(address, size) <==> size > 0 && 0x8000_0000 <= address && address + size <= 0x8400_0000
    ensures IsWriteCombine(address, size) <==> size > 0 && 0xa200_0000 <= address && address + size <= 0xa300_0000
    ensures IsDevice(address, size) <==>
      size > 0
      && ((0xa000_0000 <= address && address + size <= 0xa001_0000)
          || (0xa100_0000 <= address && address + size <= 0xa100_1000))
  {
  }

  // ----- state -----

  type Subcycle = x: int | 0 <= x < TIMER_DIVIDER

  datatype Devices = Devices(
    mtime: u64, mtimecmp: u64, subcycle: Subcycle,
    ier: byte, lcr: byte, mcr: byte, dll: byte, dlm: byte,
    input: seq<byte>, output: seq<byte>)
  {
    /** The divisor latch access bit of LCR. */
    predicate Dlab() { lcr >= 0x80 }

    predicate TimerInterrupt() { mtime >= mtimecmp }
  }

  datatype ByteRead = ByteRead(ok: bool, value: byte, after: Devices)
  datatype Write = Write(ok: bool, after: Devices)
  datatype BytesRead = BytesRead(ok: bool, bytes: seq<byte>, after: Devices)

  predicate IsTimerByte(address: u32) {
    MTIMECMP <= address < MTIMECMP + 8 || MTIME <= address < MTIME + 8
  }

  /** The addresses at which some register byte answers. */
  predicate Decoded(address: u32) {
    IsTimerByte(address) || UART_BASE <= address < UART_BASE + UART_SIZE
  }

  function WithByte64(v: u64, k: nat, b: byte): u64
    requires k < 8
  {
    Pow256Values();
    WithByteBound(v, k, b, 8);
    WithByte(v, k, b)
  }

  function LoadByte(d: Devices, address: u32): ByteRead {
    if MTIMECMP <= address < MTIMECMP + 8 then ByteRead(true, ByteAt(d.mtimecmp, address - MTIMECMP), d)
    else if MTIME <= address < MTIME + 8 then ByteRead(true, ByteAt(d.mtime, address - MTIME), d)
    else if UART_BASE <= address < UART_BASE + UART_SIZE then LoadUart(d, address - UART_BASE)
    else ByteRead(false, 0, d)
  }

  function LoadUart(d: Devices, offset: nat): ByteRead {
    if offset == 0 && d.Dlab() then ByteRead(true, d.dll, d)
    else if offset == 0 && d.input != [] then ByteRead(true, d.input[0], d.(input := d.input[1..]))
    else
      ByteRead(true,
        match offset
        case 1 => if d.Dlab() then d.dlm else d.ier
        case 2 => 1
        case 3 => d.lcr
        case 4 => d.mcr
        case 5 => if d.input == [] then 0x60 else 0x61
        case _ => 0,
        d)
  }

  function StoreByte(d: Devices, address: u32, v: byte): Write {
    if MTIMECMP <= address < MTIMECMP + 8 then
      Write(true, d.(mtimecmp := WithByte64(d.mtimecmp, address - MTIMECMP, v)))
    else if MTIME <= address < MTIME + 8 then
      Write(true, d.(mtime := WithByte64(d.mtime, address - MTIME, v)))
    else if UART_BASE <= address < UART_BASE + UART_SIZE then
      Write(true, StoreUart(d, address - UART_BASE, v))
    else Write(false, d)
  }

  function StoreUart(d: Devices, offset: nat, v: byte): Devices {
    match offset
    case 0 => if d.Dlab() then d.(dll := v) else d.(output := d.output + [v])
    case 1 => if d.Dlab() then d.(dlm := v) else d.(ier := v)
    case 3 => d.(lcr := v)
    case 4 => d.(mcr := v)
    case _ => d
  }

  /** n consecutive byte reads, stopping at the first that is refused. */
  function LoadRun(d: Devices, address: u32, n: nat): (r: BytesRead)
    ensures r.ok ==> |r.bytes| == n
    decreases n
  {
    if n == 0 then BytesRead(true, [], d)
    else
      var h := LoadByte(d, address);
      if !h.ok then BytesRead(false, [], h.after)
      else
        var t := LoadRun(h.after, Add32(address, 1), n - 1);
        BytesRead(t.ok, [h.value] + t.bytes, t.after)
  }

  lemma {:induction false} LoadRunUnfold(d: Devices, address: u32, n: nat)
    requires n > 0 && address + 1 < TWO32
    ensures var h, r := LoadByte(d, address), LoadRun(d, address, n);
      if h.ok then
        var t := LoadRun(h.after, address + 1, n - 1);
        r == BytesRead(t.ok, [h.value] + t.bytes, t.after)
      else r == BytesRead(false, [], h.after)
  {
  }

  /** `rest` is what remains of `whole` once the bytes `done` have been read. */
  ghost predicate Resumes(whole: BytesRead, done: seq<byte>, rest: BytesRead) {
    whole == BytesRead(rest.ok, done + rest.bytes, rest.after)
  }

  lemma {:induction false} LoadRunStep(d: Devices, address: u32, n: nat, done: seq<byte>, whole: BytesRead)
    requires n > 0 && address + 1 < TWO32 && Resumes(whole, done, LoadRun(d, address, n))
    ensures var h := LoadByte(d, address);
      if h.ok then Resumes(whole, done + [h.value], LoadRun(h.after, address + 1, n - 1))
      else whole == BytesRead(false, done, h.after)
  {
    LoadRunUnfold(d, address, n);
    var h := LoadByte(d, address);
    if h.ok {
      var t := LoadRun(h.after, address + 1, n - 1);
      assert done + ([h.value] + t.bytes) == (done + [h.value]) + t.bytes;
    } else {
      assert done + [] == done;
    }
  }

  lemma {:induction false} RunIsDone(whole: BytesRead, done: seq<byte>, d: Devices, address: u32)
    requires Resumes(whole, done, LoadRun(d, address, 0))
    ensures whole == BytesRead(true, done, d)
  {
    assert done + [] == done;
  }

  /** Consecutive byte writes, stopping at the first that is refused. */
  function StoreRun(d: Devices, address: u32, bytes: seq<byte>): Write
    decreases |bytes|
  {
    if bytes == [] then Write(true, d)
    else
      var h := StoreByte(d, address, bytes[0]);
      if !h.ok then h else StoreRun(h.after, Add32(address, 1), bytes[1..])
  }

  /** The byte view, used by the reference model. */
  function Load(d: Devices, address: u32, size: nat): BytesRead {
    if IsDevice(address, size) then LoadRun(d, address, size) else BytesRead(false, [], d)
  }

  function Store(d: Devices, address: u32, bytes: seq<byte>): Write {
    if IsDevice(address, |bytes|) then StoreRun(d, address, bytes) else Write(false, d)
  }

  // ----- the 32-bit lane view, used by the bus -----

  /** `address & (size - 1)` for a size of at most four. */
  function Misalignment(address: u32, size: nat): nat
    requires 1 <= size <= 4
  {
    match size
    case 1 => 0
    case 2 => address % 2
    case 3 => address / 2 % 2 * 2
    case 4 => address % 4
  }

  /** Bytes put on the lanes that start at `first`, all other lanes zero. */
  function OnLanes(first: nat, bytes: seq<byte>): nat {
    if first == 0 then Join(bytes) else 256 * OnLanes(first - 1, bytes)
  }

  lemma {:induction false} ByteOnLanes(first: nat, bytes: seq<byte>, j: nat)
    ensures OnLanes(first, bytes) < Pow256(first + |bytes|)
    ensures ByteAt(OnLanes(first, bytes), j) == if first <= j < first + |bytes| then bytes[j - first] else 0
  {
    if first == 0 {
      ByteOfJoin(bytes, j);
      JoinBound(bytes);
    } else {
      ByteOnLanes(first - 1, bytes, if j == 0 then 0 else j - 1);
    }
  }

  datatype BusRead = BusRead(ok: bool, data: nat, after: Devices)

  function BusLoad(d: Devices, address: u32, size: nat): BusRead {
    if size == 0 || size > 4 || Misalignment(address, size) != 0 || !IsDevice(address, size)
    then BusRead(false, 0, d)
    else
      var r := LoadRun(d, address, size);
      if r.ok then BusRead(true, OnLanes(address % 4, r.bytes), r.after) else BusRead(false, 0, r.after)
  }

  /** Lanes k..4 of a strobed write to an aligned word. */
  function StoreLanes(d: Devices, word: u32, data: u32, strobe: seq<bool>, k: nat): Write
    requires word % 4 == 0 && |strobe| == 4 && k <= 4
    decreases 4 - k
  {
    if k == 4 then Write(true, d)
    else if !strobe[k] then StoreLanes(d, word, data, strobe, k + 1)
    else
      var h := StoreByte(d, word + k, ByteAt(data, k));
      if !h.ok then h else StoreLanes(h.after, word, data, strobe, k + 1)
  }

  /** writeBus reports success only if some lane was written. */
  function BusStore(d: Devices, address: u32, data: u32, strobe: seq<bool>): Write
    requires |strobe| == 4
  {
    var w := StoreLanes(d, address - address % 4, data, strobe, 0);
    Write(w.ok && true in strobe, w.after)
  }

  lemma {:induction false} RefusedByteChangesNothing(d: Devices, address: u32, v: byte)
    ensures LoadByte(d, address).ok == StoreByte(d, address, v).ok == Decoded(address)
    ensures !Decoded(address) ==> LoadByte(d, address).after == StoreByte(d, address, v).after == d
  {
  }

  lemma {:induction false} LanesAllOrNothing(d: Devices, word: u32, data: u32, strobe: seq<bool>, k: nat)
    requires word % 4 == 0 && |strobe| == 4 && k <= 4
    ensures var w := StoreLanes(d, word, data, strobe, k);
      w.ok == (Decoded(word) || true !in strobe[k..]) && (!w.ok ==> w.after == d)
    decreases 4 - k
  {
    if k < 4 {
      assert strobe[k..] == [strobe[k]] + strobe[k + 1..];
      assert Decoded(word + k) == Decoded(word);
      var next := if strobe[k] then StoreByte(d, word + k, ByteAt(data, k)).after else d;
      LanesAllOrNothing(next, word, data, strobe, k + 1);
    }
  }

  /** A strobed word write is accepted exactly when the word is a register word and some
      lane is strobed; a refused one leaves every register and queue as it was, although
      the lanes are written one by one. */
  lemma {:induction false} BusStoreAllOrNothing(d: Devices, address: u32, data: u32, strobe: seq<bool>)
    requires |strobe| == 4
    ensures BusStore(d, address, data, strobe).ok <==> Decoded(address) && true in strobe
    ensures !BusStore(d, address, data, strobe).ok ==> BusStore(d, address, data, strobe).after == d
  {
    var word := address - address % 4;
    assert Decoded(address) == Decoded(word);
    LanesAllOrNothing(d, word, data, strobe, 0);
    assert strobe[0..] == strobe;
    if true !in strobe { NoLanes(d, word, data, strobe, 0); }
  }

  lemma {:induction false} NoLanes(d: Devices, word: u32, data: u32, strobe: seq<bool>, k: nat)
    requires word % 4 == 0 && |strobe| == 4 && k <= 4 && true !in strobe
    ensures StoreLanes(d, word, data, strobe, k) == Write(true, d)
    decreases 4 - k
  {
    if k < 4 {
      assert strobe[k] in strobe;
      NoLanes(d, word, data, strobe, k + 1);
    }
  }

  lemma {:induction false} LoadRunRefusal(d: Devices, address: u32, n: nat)
    requires address + n <= 0x1_0000_0000
    ensures LoadRun(d, address, n).ok <==> forall k :: address <= k < address + n ==> Decoded(k)
    ensures address + n <= UART_BASE || UART_BASE + UART_SIZE <= address ==> LoadRun(d, address, n).after == d
    decreases n
  {
    if n > 0 {
      RefusedByteChangesNothing(d, address, 0);
      if Decoded(address) && address + 1 < TWO32 {
        LoadRunUnfold(d, address, n);
        LoadRunRefusal(LoadByte(d, address).after, address + 1, n - 1);
      }
    }
  }

  /** A read that is refused on either view changes nothing: registers that can be
      refused have no read side effect. */
  lemma {:induction false} RefusedLoadChangesNothing(d: Devices, address: u32, size: nat)
    ensures !Load(d, address, size).ok ==> Load(d, address, size).after == d
    ensures !BusLoad(d, address, size).ok ==> BusLoad(d, address, size).after == d
  {
    if IsDevice(address, size) { LoadRunRefusal(d, address, size); }
  }

  /** On aligned accesses of 1, 2 or 4 bytes the two read views agree: same verdict, same
      devices afterwards, and the bytes on their own lanes with zeros elsewhere. */
  lemma {:induction false} ReadViewsAgree(d: Devices, address: u32, size: nat)
    requires size in {1, 2, 4} && address % size == 0
    ensures var bytes, bus := Load(d, address, size), BusLoad(d, address, size);
      && bytes.ok == bus.ok && bytes.after == bus.after
      && (bus.ok ==> bus.data < TWO32 && forall lane :: 0 <= lane < 4 ==>
            ByteAt(bus.data, lane)
            == if address % 4 <= lane < address % 4 + size then bytes.bytes[lane - address % 4] else 0)
  {
    var bytes := Load(d, address, size);
    if bytes.ok {
      WidthBound(address % 4 + size);
      ByteOnLanes(address % 4, bytes.bytes, 0);
      forall lane | 0 <= lane < 4 { ByteOnLanes(address % 4, bytes.bytes, lane); }
    }
  }

  lemma {:induction false} WidthBound(n: nat)
    ensures n <= 4 ==> Pow256(n) <= TWO32
  {
    Pow256Values();
    if n == 3 { assert Pow256(4) == 256 * Pow256(3); }
  }

  /** The strobes of `size` lanes starting at lane `first`. */
  function LaneStrobe(first: nat, size: nat): (s: seq<bool>)
    ensures |s| == 4
  {
    seq(4, k => first <= k < first + size)
  }

  lemma {:induction false} StoreRunStep(d: Devices, address: u32, value: byte, rest: seq<byte>)
    requires address + 1 < TWO32
    ensures var h := StoreByte(d, address, value);
      StoreRun(d, address, [value] + rest) == if h.ok then StoreRun(h.after, address + 1, rest) else h
  {
    assert ([value] + rest)[1..] == rest;
  }

  lemma {:induction false} SliceStep(data: u32, k: nat, end: nat)
    requires k < end <= 4
    ensures Split(data, 4)[k..end] == [ByteAt(data, k)] + Split(data, 4)[k + 1..end]
  {
    SplitBytes(data, 4);
  }

  lemma {:induction false} LanesAreRun(d: Devices, word: u32, data: u32, first: nat, size: nat, k: nat)
    requires word % 4 == 0 && word + 4 < TWO32 && first + size <= 4 && first <= k <= first + size
    ensures StoreLanes(d, word, data, LaneStrobe(first, size), k)
         == if k == first + size then Write(true, d) else StoreRun(d, word + k, Split(data, 4)[k..first + size])
    decreases 4 - k
  {
    if k == first + size {
      TrailingLanes(d, word, data, first, size, k);
    } else {
      var h := StoreByte(d, word + k, ByteAt(data, k));
      SliceStep(data, k, first + size);
      StoreRunStep(d, word + k, ByteAt(data, k), Split(data, 4)[k + 1..first + size]);
      LanesAreRun(h.after, word, data, first, size, k + 1);
    }
  }

  lemma {:induction false} TrailingLanes(d: Devices, word: u32, data: u32, first: nat, size: nat, k: nat)
    requires word % 4 == 0 && first + size <= k <= 4
    ensures StoreLanes(d, word, data, LaneStrobe(first, size), k) == Write(true, d)
    decreases 4 - k
  {
    if k < 4 { TrailingLanes(d, word, data, first, size, k + 1); }
  }

  lemma {:induction false} LeadingLanes(d: Devices, word: u32, data: u32, first: nat, size: nat, k: nat)
    requires word % 4 == 0 && k <= first <= 4
    ensures StoreLanes(d, word, data, LaneStrobe(first, size), k)
         == StoreLanes(d, word, data, LaneStrobe(first, size), first)
    decreases first - k
  {
    if k < first { LeadingLanes(d, word, data, first, size, k + 1); }
  }

  /** On aligned accesses of 1, 2 or 4 bytes the two write views agree: same verdict and
      same devices afterwards. */
  lemma {:induction false} WriteViewsAgree(d: Devices, address: u32, size: nat, data: u32)
    requires size in {1, 2, 4} && address % size == 0
    ensures var first := address % 4;
      first + size <= 4
      && BusStore(d, address, data, LaneStrobe(first, size)) == Store(d, address, Split(data, 4)[first..first + size])
  {
    AlignedInWord(address, size);
    var first := address % 4;
    WriteViewsAgreeFrom(d, address - first, first, size, data);
  }

  lemma {:induction false} AlignedInWord(address: u32, size: nat)
    requires size in {1, 2, 4} && address % size == 0
    ensures address % 4 + size <= 4
    ensures Decoded(address) ==> IsDevice(address, size)
  {
  }

  lemma {:induction false} WriteViewsAgreeFrom(d: Devices, word: u32, first: nat, size: nat, data: u32)
    requires word % 4 == 0 && first < 4 && 0 < size && first + size <= 4
    requires Decoded(word + first) ==> IsDevice(word + first, size)
    ensures BusStore(d, word + first, data, LaneStrobe(first, size))
         == Store(d, word + first, Split(data, 4)[first..first + size])
  {
    hide StoreByte;
    var strobe := LaneStrobe(first, size);
    assert strobe[first];
    if IsDevice(word + first, size) {
      LeadingLanes(d, word, data, first, size, 0);
      LanesAreRun(d, word, data, first, size, first);
    } else {
      BusStoreAllOrNothing(d, word + first, data, strobe);
    }
  }

  /** Unlike the lane view, the byte view is not all-or-nothing: an unaligned word write that
      runs off the end of a timer register has changed it when it is refused. */
  lemma {:induction false} UnalignedStoreCanBePartial(d: Devices)
    requires d.mtimecmp == 0
    ensures var w := Store(d, MTIMECMP + 6, [1, 1, 1, 1]); !w.ok && w.after.mtimecmp == 0x0101_0000_0000_0000
  {
    var address: u32 := MTIMECMP + 6;
    var d1 := StoreByte(d, address, 1).after;
    var d2 := StoreByte(d1, address + 1, 1).after;
    calc {
      Store(d, address, [1, 1, 1, 1]);
      StoreRun(d, address, [1, 1, 1, 1]);
      { assert [1 as byte, 1, 1, 1][1..] == [1, 1, 1]; }
      StoreRun(d1, address + 1, [1, 1, 1]);
      { assert [1 as byte, 1, 1][1..] == [1, 1]; }
      StoreRun(d2, address + 2, [1, 1]);
      Write(false, d2);
    }
    assert d1.mtimecmp == WithByte(0, 6, 1) == 0x0001_0000_0000_0000 by { ShiftedOne(); }
    assert d2.mtimecmp == WithByte(0x0001_0000_0000_0000, 7, 1) == 0x0101_0000_0000_0000 by { ShiftedOne(); }
  }

  lemma {:induction false} ShiftedOne()
    ensures WithByte(0, 6, 1) == 0x0001_0000_0000_0000
    ensures WithByte(0x0001_0000_0000_0000, 7, 1) == 0x0101_0000_0000_0000
  {
    assert WithByte(0, 2, 1) == 0x1_0000;
    assert WithByte(0, 4, 1) == 0x1_0000_0000;
    assert WithByte(0x1_0000, 3, 1) == 0x0101_0000;
    assert WithByte(0x1_0000_0000, 5, 1) == 0x0101_0000_0000;
  }

  lemma {:induction false} StoreRunRefusal(d: Devices, address: u32, bytes: seq<byte>)
    requires address + |bytes| <= 0x1_0000_0000
    ensures StoreRun(d, address, bytes).ok <==> forall k :: address <= k < address + |bytes| ==> Decoded(k)
    ensures |bytes| > 0 && !Decoded(address) ==> StoreRun(d, address, bytes).after == d
    decreases |bytes|
  {
    if bytes != [] {
      RefusedByteChangesNothing(d, address, bytes[0]);
      if Decoded(address) && address < 0xffff_ffff {
        StoreRunRefusal(StoreByte(d, address, bytes[0]).after, address + 1, bytes[1..]);
      }
    }
  }

  /** The byte a timer register holds at an address. */
  function TimerByte(d: Devices, address: u32): byte
    requires IsTimerByte(address)
  {
    if address < MTIME then ByteAt(d.mtimecmp, address - MTIMECMP) else ByteAt(d.mtime, address - MTIME)
  }

  lemma {:induction false} StoreByteOnTimer(d: Devices, address: u32, v: byte, a: u32)
    requires IsTimerByte(a)
    ensures TimerByte(StoreByte(d, address, v).after, a) == if a == address then v else TimerByte(d, a)
  {
    if MTIMECMP <= address < MTIMECMP + 8 && a < MTIME {
      ByteOfWithByte(d.mtimecmp, address - MTIMECMP, v, a - MTIMECMP);
    } else if MTIME <= address < MTIME + 8 && a >= MTIME {
      ByteOfWithByte(d.mtime, address - MTIME, v, a - MTIME);
    }
  }

  lemma {:induction false} LaterStoresKeepTimer(d: Devices, address: u32, bytes: seq<byte>, a: u32)
    requires IsTimerByte(a) && a < address && address + |bytes| < TWO32
    ensures TimerByte(StoreRun(d, address, bytes).after, a) == TimerByte(d, a)
    decreases |bytes|
  {
    if bytes != [] {
      StoreByteOnTimer(d, address, bytes[0], a);
      LaterStoresKeepTimer(StoreByte(d, address, bytes[0]).after, address + 1, bytes[1..], a);
    }
  }

  predicate AllDecoded(address: u32, size: nat) {
    forall k: u32 :: address <= k < address + size ==> Decoded(k)
  }

  /** Whether every byte-view write of `size` bytes at this address leaves the devices
      alone when it is refused. */
  ghost predicate StoresAtomically(address: u32, size: nat) {
    forall d: Devices, bytes: seq<byte> :: |bytes| == size && !Store(d, address, bytes).ok ==>
      Store(d, address, bytes).after == d
  }

  /** Exactly when the byte view is all-or-nothing: the first byte is refused already, or
      no byte is. */
  lemma {:induction false} StoresAtomicallyIff(address: u32, size: nat)
    requires IsDevice(address, size)
    ensures StoresAtomically(address, size) <==> !Decoded(address) || AllDecoded(address, size)
  {
    if !Decoded(address) || AllDecoded(address, size) {
      forall d: Devices, bytes: seq<byte> | |bytes| == size && !Store(d, address, bytes).ok
        ensures Store(d, address, bytes).after == d
      {
        StoreRunRefusal(d, address, bytes);
      }
    } else {
      FirstByteStays(address, size);
    }
  }

  lemma {:induction false} FirstByteStays(address: u32, size: nat)
    requires IsDevice(address, size) && Decoded(address) && !AllDecoded(address, size)
    ensures !StoresAtomically(address, size)
  {
    hide StoreByte, Decoded;
    var d := Devices(0, 0, 0, 0, 0, 0, 0, 0, [], []);
    var bytes: seq<byte> := seq(size, _ => 1);
    StoreRunRefusal(d, address, bytes);
    UartIsDecoded(address, size);
    StoreByteOnTimer(d, address, 1, address);
    LaterStoresKeepTimer(StoreByte(d, address, 1).after, address + 1, bytes[1..], address);
    assert TimerByte(Store(d, address, bytes).after, address) == 1;
    ZeroBytes(if address < MTIME then address - MTIMECMP else address - MTIME);
    assert TimerByte(d, address) == 0;
  }

  lemma {:induction false} UartIsDecoded(address: u32, size: nat)
    requires IsDevice(address, size) && Decoded(address) && !AllDecoded(address, size)
    ensures IsTimerByte(address) && StoreByte(Devices(0, 0, 0, 0, 0, 0, 0, 0, [], []), address, 1).ok
  {
  }

  /** Naturally aligned byte-view writes of up to eight bytes are all-or-nothing. */
  lemma {:induction false} AlignedStoreAllOrNothing(d: Devices, address: u32, bytes: seq<byte>)
    requires |bytes| in {1, 2, 4, 8} && address % |bytes| == 0
    ensures Store(d, address, bytes).ok <==> Decoded(address)
    ensures !Store(d, address, bytes).ok ==> Store(d, address, bytes).after == d
  {
    var n := |bytes|;
    assert address + n <= 0x1_0000_0000;
    forall k | address <= k < address + n ensures Decoded(k) == Decoded(address) {
      AlignedBlock(address, n, k);
    }
    StoreRunRefusal(d, address, bytes);
    assert Decoded(address) ==> IsDevice(address, n);
  }

  lemma {:induction false} AlignedBlock(address: u32, n: nat, k: u32)
    requires n in {1, 2, 4, 8} && address % n == 0 && address <= k < address + n
    ensures Decoded(k) == Decoded(address)
  {
    if n == 8 { assert address / 8 == k / 8; }
    else if n == 4 { assert address / 4 == k / 4; }
    else if n == 2 { assert address / 2 == k / 2; }
  }

  // ----- the 64-bit timer registers through 32-bit bus accesses -----

  lemma {:induction false} StoreCompareLanes(d: Devices, half: nat, data: u32, k: nat, j: nat)
    requires half in {0, 4} && k <= 4 && j < 8
    ensures var w := StoreLanes(d, MTIMECMP + half, data, LaneStrobe(0, 4), k);
      && w.ok && w.after == d.(mtimecmp := w.after.mtimecmp)
      && ByteAt(w.after.mtimecmp, j)
         == if half + k <= j < half + 4 then ByteAt(data, j - half) else ByteAt(d.mtimecmp, j)
    decreases 4 - k
  {
    if k < 4 {
      var h := StoreByte(d, MTIMECMP + half + k, ByteAt(data, k));
      ByteOfWithByte(d.mtimecmp, half + k, ByteAt(data, k), j);
      StoreCompareLanes(h.after, half, data, k + 1, j);
    }
  }

  /** Two word writes, in this order, set mtimecmp to any 64-bit value and change nothing
      else of the devices. */
  lemma {:induction false} TwoWordWritesSetCompare(d: Devices, low: u32, high: u32)
    ensures var all := LaneStrobe(0, 4);
      var first := BusStore(d, MTIMECMP, low, all);
      var second := BusStore(first.after, MTIMECMP + 4, high, all);
      first.ok && second.ok && second.after == d.(mtimecmp := low + high * TWO32)
  {
    var all := LaneStrobe(0, 4);
    assert all[0];
    var first := BusStore(d, MTIMECMP, low, all).after;
    var second := BusStore(first, MTIMECMP + 4, high, all).after;
    var value: nat := low + high * TWO32;
    forall j | 0 <= j < 8 ensures ByteAt(second.mtimecmp, j) == ByteAt(value, j) {
      StoreCompareLanes(d, 0, low, 0, j);
      StoreCompareLanes(first, 4, high, 0, j);
      HalvesOfDouble(low, high, j);
    }
    StoreCompareLanes(d, 0, low, 0, 0);
    StoreCompareLanes(first, 4, high, 0, 0);
    Pow256Values();
    BytesDetermine(second.mtimecmp, value, 8);
  }

  lemma {:induction false} HalvesOfDouble(low: u32, high: u32, j: nat)
    ensures ByteAt(low + high * TWO32, j) == if j < 4 then ByteAt(low, j) else ByteAt(high, j - 4)
  {
    Pow256Values();
    var l, h := Split(low, 4), Split(high, 4);
    JoinSplit(low, 4);
    JoinSplit(high, 4);
    JoinConcat(l, h);
    ByteOfJoin(l + h, j);
    ByteOfJoin(l, j);
    if j >= 4 { ByteOfJoin(h, j - 4); }
  }

  /** The word written to either half of mtimecmp is the word read back from it. */
  lemma {:induction false} CompareReadsBack(d: Devices, low: u32, high: u32)
    requires d.mtimecmp == low + high * TWO32
    ensures BusLoad(d, MTIMECMP, 4) == BusRead(true, low, d)
    ensures BusLoad(d, MTIMECMP + 4, 4) == BusRead(true, high, d)
  {
    CompareRun(d, 0, 4);
    CompareRun(d, 4, 4);
    var l, h := LoadRun(d, MTIMECMP, 4).bytes, LoadRun(d, MTIMECMP + 4, 4).bytes;
    forall j | 0 <= j < 4
      ensures ByteAt(OnLanes(0, l), j) == ByteAt(low, j) && ByteAt(OnLanes(0, h), j) == ByteAt(high, j)
    {
      HalvesOfDouble(low, high, j);
      HalvesOfDouble(low, high, j + 4);
      ByteOnLanes(0, l, j);
      ByteOnLanes(0, h, j);
    }
    Pow256Values();
    JoinBound(l);
    JoinBound(h);
    BytesDetermine(OnLanes(0, l), low, 4);
    BytesDetermine(OnLanes(0, h), high, 4);
  }

  lemma {:induction false} CompareRun(d: Devices, from: nat, n: nat)
    requires from + n <= 8
    ensures var r := LoadRun(d, MTIMECMP + from, n);
      r.ok && r.after == d && forall j :: 0 <= j < n ==> r.bytes[j] == ByteAt(d.mtimecmp, from + j)
    decreases n
  {
    if n > 0 {
      CompareRun(d, from + 1, n - 1);
      var r, t := LoadRun(d, MTIMECMP + from, n), LoadRun(d, MTIMECMP + from + 1, n - 1);
      assert r.bytes == [ByteAt(d.mtimecmp, from)] + t.bytes;
      forall j | 0 <= j < n ensures r.bytes[j] == ByteAt(d.mtimecmp, from + j) {
        if j > 0 { assert r.bytes[j] == t.bytes[j - 1]; }
      }
    }
  }

  // ----- the timer -----

  function Tick(d: Devices): Devices {
    if d.subcycle + 1 < TIMER_DIVIDER then d.(subcycle := d.subcycle + 1)
    else d.(subcycle := 0, mtime := if d.mtime != TWO64 - 1 then d.mtime + 1 else d.mtime)
  }

  function Ticks(d: Devices, n: nat): Devices {
    if n == 0 then d else Tick(Ticks(d, n - 1))
  }

  function Min(a: int, b: int): int { if a <= b then a else b }

  /** Closed form of n ticks: a divided counter that saturates at 2^64 - 1. */
  lemma {:induction false} TicksClosedForm(d: Devices, n: nat)
    ensures Ticks(d, n) == d.(
      mtime := Min(d.mtime + (d.subcycle + n) / TIMER_DIVIDER, TWO64 - 1),
      subcycle := (d.subcycle + n) % TIMER_DIVIDER)
  {
    if n > 0 { TicksClosedForm(d, n - 1); }
  }

  /** Without register writes the interrupt is up after n ticks exactly from tick
      10 * (mtimecmp - mtime) - subcycle on, and never drops again. */
  lemma {:induction false} InterruptRises(d: Devices, n: nat)
    ensures Ticks(d, n).TimerInterrupt() <==> n >= TIMER_DIVIDER * (d.mtimecmp - d.mtime) - d.subcycle
                                              || d.TimerInterrupt()
  {
    TicksClosedForm(d, n);
  }

  // ----- the UART registers -----

  /** The value a register byte shows after v has been written to it. */
  function ReadBack(d: Devices, offset: nat, v: byte): byte
    requires offset < UART_SIZE
  {
    LoadByte(StoreByte(d, UART_BASE + offset, v).after, UART_BASE + offset).value
  }

  /** Line and modem control read back what was written. The divisor latch is reached only
      with the access bit of line control set, data and interrupt enable only without it,
      and no write to one of them disturbs another. */
  lemma {:induction false} UartRegistersReadBack(d: Devices, v: byte)
    ensures ReadBack(d, 3, v) == ReadBack(d, 4, v) == ReadBack(d, 1, v) == v
    ensures d.Dlab() ==> ReadBack(d, 0, v) == v
    ensures var latch, line := d.(lcr := 0x80), d.(lcr := 0x03);
      && StoreByte(StoreByte(latch, UART_BASE, v).after, UART_BASE + 1, v).after == latch.(dll := v, dlm := v)
      && StoreByte(StoreByte(line, UART_BASE, v).after, UART_BASE + 1, v).after
         == line.(output := d.output + [v], ier := v)
  {
  }

  /** The data-ready bit of line status is up exactly while input is queued, the transmitter is
      empty at all times (bits 5 and 6), no error is ever shown, and reading line status takes
      nothing from the queue. */
  lemma {:induction false} LineStatusTellsInput(d: Devices)
    ensures var r := LoadByte(d, 0xa100_0005);
      r.ok && r.after == d && r.value == 32 + 64 + if d.input != [] then 1 else 0
  {
  }

  /** Interrupt identification says that none is pending, and the registers from modem status
      on read as zero, whatever has been written to them. */
  lemma {:induction false} OtherRegistersAreConstant(d: Devices, offset: nat, v: byte)
    requires offset < 0x1000 && (offset == 2 || offset >= 6)
    ensures LoadByte(d, 0xa100_0000 + offset) == ByteRead(true, if offset == 2 then 1 else 0, d)
    ensures StoreByte(d, 0xa100_0000 + offset, v) == Write(true, d)
  {
  }

  /** The receive register gives the oldest byte of the queue and takes it out, and zero
      without input; the transmit register puts a byte behind the output. */
  lemma {:induction false} DataRegister(d: Devices, v: byte)
    requires d.lcr < 128
    ensures LoadByte(d, 0xa100_0000)
      == if d.input == [] then ByteRead(true, 0, d) else ByteRead(true, d.input[0], d.(input := d.input[1..]))
    ensures StoreByte(d, 0xa100_0000, v) == Write(true, d.(output := d.output + [v]))
  {
  }

  /** The two words at 0xa000bff8 are the time. */
  lemma {:induction false} TimeReadsBack(d: Devices)
    ensures BusLoad(d, 0xa000_bff8, 4) == BusRead(true, d.mtime % TWO32, d)
    ensures BusLoad(d, 0xa000_bffc, 4) == BusRead(true, d.mtime / TWO32, d)
  {
    TimeRun(d, 0, 4);
    TimeRun(d, 4, 4);
    var l, h := LoadRun(d, MTIME, 4).bytes, LoadRun(d, MTIME + 4, 4).bytes;
    var low: u32, high: u32 := d.mtime % TWO32, d.mtime / TWO32;
    assert d.mtime == low + high * TWO32;
    forall j | 0 <= j < 4
      ensures ByteAt(OnLanes(0, l), j) == ByteAt(low, j) && ByteAt(OnLanes(0, h), j) == ByteAt(high, j)
    {
      HalvesOfDouble(low, high, j);
      HalvesOfDouble(low, high, j + 4);
      ByteOnLanes(0, l, j);
      ByteOnLanes(0, h, j);
    }
    Pow256Values();
    JoinBound(l);
    JoinBound(h);
    BytesDetermine(OnLanes(0, l), low, 4);
    BytesDetermine(OnLanes(0, h), high, 4);
  }

  lemma {:induction false} TimeRun(d: Devices, from: nat, n: nat)
    requires from + n <= 8
    ensures var r := LoadRun(d, MTIME + from, n);
      r.ok && r.after == d && forall j :: 0 <= j < n ==> r.bytes[j] == ByteAt(d.mtime, from + j)
    decreases n
  {
    if n > 0 {
      TimeRun(d, from + 1, n - 1);
      var r, t := LoadRun(d, MTIME + from, n), LoadRun(d, MTIME + from + 1, n - 1);
      assert r.bytes == [ByteAt(d.mtime, from)] + t.bytes;
      forall j | 0 <= j < n ensures r.bytes[j] == ByteAt(d.mtime, from + j) {
        if j > 0 { assert r.bytes[j] == t.bytes[j - 1]; }
      }
    }
  }

  // ----- conservation of UART input and output -----

  datatype Operation = ReadAt(address: u32) | WriteAt(at: u32, value: byte) | TickOnce | Arrive(text: seq<byte>)

  function Perform(d: Devices, op: Operation): Devices {
    match op
    case ReadAt(a) => LoadByte(d, a).after
    case WriteAt(a, v) => StoreByte(d, a, v).after
    case TickOnce => Tick(d)
    case Arrive(text) => d.(input := d.input + text)
  }

  function PerformAll(d: Devices, ops: seq<Operation>): Devices
    decreases |ops|
  {
    if ops == [] then d else PerformAll(Perform(d, ops[0]), ops[1..])
  }

  /** The byte a read takes out of a non-empty receive queue. */
  function Taken(d: Devices, op: Operation): seq<byte> {
    if op.ReadAt? && op.address == UART_BASE && !d.Dlab() && d.input != [] then [LoadByte(d, op.address).value] else []
  }

  function ArrivedNow(op: Operation): seq<byte> {
    if op.Arrive? then op.text else []
  }

  /** The bytes the reads of a run returned from a non-empty receive queue. */
  function Received(d: Devices, ops: seq<Operation>): seq<byte>
    decreases |ops|
  {
    if ops == [] then [] else Taken(d, ops[0]) + Received(Perform(d, ops[0]), ops[1..])
  }

  /** The bytes the writes of a run sent to the transmit register. */
  function Sent(d: Devices, ops: seq<Operation>): seq<byte>
    decreases |ops|
  {
    if ops == [] then []
    else
      (if ops[0].WriteAt? && ops[0].at == UART_BASE && !d.Dlab() then [ops[0].value] else [])
      + Sent(Perform(d, ops[0]), ops[1..])
  }

  function Arrived(ops: seq<Operation>): seq<byte> {
    if ops == [] then []
    else ArrivedNow(ops[0]) + Arrived(ops[1..])
  }

  /** No input byte is lost, invented or reordered by any run: what was queued and what
      arrived is what was received followed by what is still queued. */
  lemma {:induction false} UartInputConserved(d: Devices, ops: seq<Operation>)
    ensures d.input + Arrived(ops) == Received(d, ops) + PerformAll(d, ops).input
    decreases |ops|
  {
    if ops != [] {
      var next := Perform(d, ops[0]);
      UartInputConserved(next, ops[1..]);
      UartInputStep(d, ops[0], Arrived(ops[1..]));
      var taken := Taken(d, ops[0]);
      assert taken + Received(next, ops[1..]) + PerformAll(d, ops).input
          == taken + (Received(next, ops[1..]) + PerformAll(d, ops).input);
    }
  }

  lemma {:induction false} UartInputStep(d: Devices, op: Operation, later: seq<byte>)
    ensures d.input + (ArrivedNow(op) + later) == Taken(d, op) + (Perform(d, op).input + later)
  {
    if op.Arrive? {
      assert d.input + (op.text + later) == (d.input + op.text) + later;
    } else if op.ReadAt? && op.address == UART_BASE && !d.Dlab() && d.input != [] {
      assert d.input == [d.input[0]] + d.input[1..];
    }
  }

  lemma {:induction false} UartOutputConserved(d: Devices, ops: seq<Operation>)
    ensures PerformAll(d, ops).output == d.output + Sent(d, ops)
    decreases |ops|
  {
    if ops == [] {
    } else {
      var next := Perform(d, ops[0]);
      UartOutputConserved(next, ops[1..]);
      var head := if ops[0].WriteAt? && ops[0].at == UART_BASE && !d.Dlab() then [ops[0].value] else [];
      assert next.output == d.output + head;
      assert d.output + Sent(d, ops) == (d.output + head) + Sent(next, ops[1..]);
    }
  }

  // ----- checkpointing -----

  function PutDevices(d: Devices, rest: seq<byte>): seq<byte>
    requires |d.input| < TWO64 && |d.output| < TWO64
  {
    PutU64(d.mtime, PutU64(d.mtimecmp, PutU32(d.subcycle,
      PutU8(d.ier, PutU8(d.lcr, PutU8(d.mcr, PutU8(d.dll, PutU8(d.dlm,
        PutU64(|d.input|, PutBytes(d.input, PutString(d.output, rest)))))))))))
  }

  function GetTimer(s: seq<byte>): Parsed<(u64, u64, Subcycle)> {
    var mtime :- GetU64(s);
    var mtimecmp :- GetU64(mtime.1);
    var subcycle :- GetU32(mtimecmp.1);
    if subcycle.0 >= TIMER_DIVIDER then Err(InvalidTimerSubcycle)
    else Ok(((mtime.0, mtimecmp.0, subcycle.0), subcycle.1))
  }

  function GetUartRegisters(s: seq<byte>): Parsed<(byte, byte, byte, byte, byte)> {
    var ier :- GetU8(s);
    var lcr :- GetU8(ier.1);
    var mcr :- GetU8(lcr.1);
    var dll :- GetU8(mcr.1);
    var dlm :- GetU8(dll.1);
    Ok(((ier.0, lcr.0, mcr.0, dll.0, dlm.0), dlm.1))
  }

  function GetUartBuffers(s: seq<byte>): Parsed<(seq<byte>, seq<byte>)> {
    var inputSize :- GetCount(UART_INPUT_LIMIT, s);
    var input :- GetBytes(inputSize.0, inputSize.1);
    var output :- GetString(UART_OUTPUT_LIMIT, input.1);
    Ok(((input.0, output.0), output.1))
  }

  function GetDevices(s: seq<byte>): Parsed<Devices> {
    var timer :- GetTimer(s);
    var registers :- GetUartRegisters(timer.1);
    var buffers :- GetUartBuffers(registers.1);
    var (mtime, mtimecmp, subcycle) := timer.0;
    var (ier, lcr, mcr, dll, dlm) := registers.0;
    Ok((Devices(mtime, mtimecmp, subcycle, ier, lcr, mcr, dll, dlm, buffers.0.0, buffers.0.1), buffers.1))
  }

  predicate DevicesWithinLimits(d: Devices) {
    |d.input| <= UART_INPUT_LIMIT && |d.output| <= UART_OUTPUT_LIMIT
  }

  /** Restoring what was saved gives the same devices exactly when both UART buffers are
      within their limits; otherwise the checkpoint is refused. */
  lemma {:induction false} DevicesRoundTrip(d: Devices, rest: seq<byte>)
    requires |d.input| < TWO64 && |d.output| < TWO64
    ensures GetDevices(PutDevices(d, rest))
         == if DevicesWithinLimits(d) then Ok((d, rest)) else Err(CountExceedsLimit)
  {
  }

  class PlatformDevices {
    var mtime: u64
    var mtimecmp: u64
    var timerSubcycle: Subcycle
    var uartIer: byte
    var uartLcr: byte
    var uartMcr: byte
    var uartDll: byte
    var uartDlm: byte
    var uartInput: seq<byte>
    var uartOutput: seq<byte>

    function State(): Devices
      reads this
    {
      Devices(mtime, mtimecmp, timerSubcycle, uartIer, uartLcr, uartMcr, uartDll, uartDlm, uartInput, uartOutput)
    }

    constructor (input: seq<byte>)
      ensures State() == Devices(0, TWO64 - 1, 0, 0, 0, 0, 1, 0, input, [])
    {
      mtime, mtimecmp, timerSubcycle := 0, 0xffff_ffff_ffff_ffff, 0;
      uartIer, uartLcr, uartMcr, uartDll, uartDlm := 0, 0, 0, 1, 0;
      uartInput, uartOutput := input, [];
    }

    method ReadByte(address: u32) returns (ok: bool, value: byte)
      modifies this
      ensures ByteRead(ok, value, State()) == LoadByte(old(State()), address)
    {
      ok, value := true, 0;
      if CLINT_BASE <= address < CLINT_BASE + CLINT_SIZE {
        var offset := address - CLINT_BASE;
        if 0x4000 <= offset < 0x4008 {
          value := ByteAt(mtimecmp, offset - 0x4000);
        } else if 0xbff8 <= offset < 0xc000 {
          value := ByteAt(mtime, offset - 0xbff8);
        } else {
          ok := false;
        }
        return;
      }
      if address < UART_BASE || address >= UART_BASE + UART_SIZE {
        ok := false;
        return;
      }
      match address - UART_BASE {
        case 0 =>
          if uartLcr >= 0x80 {
            value := uartDll;
          } else if uartInput != [] {
            value := uartInput[0];
            uartInput := uartInput[1..];
          }
        case 1 => value := if uartLcr >= 0x80 then uartDlm else uartIer;
        case 2 => value := 1;
        case 3 => value := uartLcr;
        case 4 => value := uartMcr;
        case 5 => value := if uartInput == [] then 0x60 else 0x61;
        case _ => value := 0;
      }
    }

    method WriteByte(address: u32, value: byte) returns (ok: bool)
      modifies this
      ensures Write(ok, State()) == StoreByte(old(State()), address, value)
    {
      ok := true;
      if CLINT_BASE <= address < CLINT_BASE + CLINT_SIZE {
        var offset := address - CLINT_BASE;
        if 0x4000 <= offset < 0x4008 {
          mtimecmp := WithByte64(mtimecmp, offset - 0x4000, value);
        } else if 0xbff8 <= offset < 0xc000 {
          mtime := WithByte64(mtime, offset - 0xbff8, value);
        } else {
          ok := false;
        }
        return;
      }
      if address < UART_BASE || address >= UART_BASE + UART_SIZE {
        ok := false;
        return;
      }
      match address - UART_BASE {
        case 0 =>
          if uartLcr >= 0x80 {
            uartDll := value;
          } else {
            uartOutput := uartOutput + [value];
          }
        case 1 =>
          if uartLcr >= 0x80 {
            uartDlm := value;
          } else {
            uartIer := value;
          }
        case 3 => uartLcr := value;
        case 4 => uartMcr := value;
        case _ =>
      }
    }

    /** One byte of a run of reads, of which `done` have been answered. */
    method ReadNext(address: u32, ghost n: nat, ghost done: seq<byte>, ghost whole: BytesRead)
      returns (ok: bool, value: byte)
      requires n > 0 && address + 1 < TWO32 && Resumes(whole, done, LoadRun(State(), address, n))
      modifies this
      ensures if ok then Resumes(whole, done + [value], LoadRun(State(), address + 1, n - 1))
              else whole == BytesRead(false, done, State())
    {
      LoadRunStep(State(), address, n, done, whole);
      ok, value := ReadByte(address);
    }

    method Read(address: u32, size: nat) returns (ok: bool, bytes: seq<byte>)
      modifies this
      ensures BytesRead(ok, bytes, State()) == Load(old(State()), address, size)
    {
      bytes := [];
      if !IsDevice(address, size) { return false, []; }
      ghost var whole := LoadRun(State(), address, size);
      for k := 0 to size
        invariant |bytes| == k
        invariant Resumes(whole, bytes, LoadRun(State(), address + k, size - k))
      {
        var accepted, value := ReadNext(address + k, size - k, bytes, whole);
        if !accepted {
          return false, bytes;
        }
        bytes := bytes + [value];
      }
      assert bytes + [] == bytes;
      return true, bytes;
    }

    method WriteBytes(address: u32, bytes: seq<byte>) returns (ok: bool)
      modifies this
      ensures Write(ok, State()) == Store(old(State()), address, bytes)
    {
      hide StoreByte;
      if !IsDevice(address, |bytes|) { return false; }
      for k := 0 to |bytes|
        invariant StoreRun(State(), address + k, bytes[k..]) == StoreRun(old(State()), address, bytes)
      {
        assert bytes[k..][1..] == bytes[k + 1..];
        var accepted := WriteByte(address + k, bytes[k]);
        if !accepted { return false; }
      }
      return true;
    }

    method ReadBus(address: u32, size: nat) returns (ok: bool, data: u32)
      modifies this
      ensures BusRead(ok, data, State()) == BusLoad(old(State()), address, size)
    {
      data := 0;
      if size == 0 || size > 4 { return false, 0; }
      if Misalignment(address, size) != 0 || !IsDevice(address, size) { return false, 0; }
      AlignedLanes(address, size);
      ok, data := ReadLanes(address, size);
    }

    /** One pass of the lane loop of readBus. */
    method ReadLane(address: u32, k: nat, data: u32, ghost size: nat, ghost bytes: seq<byte>, ghost whole: BytesRead)
      returns (ok: bool, next: u32, ghost value: byte)
      requires k == |bytes| < size && address % 4 + size <= 4 && address + size < TWO32
      requires data == OnLanes(address % 4, bytes)
      requires Resumes(whole, bytes, LoadRun(State(), address + k, size - k))
      modifies this
      ensures if ok then
          next == OnLanes(address % 4, bytes + [value])
          && Resumes(whole, bytes + [value], LoadRun(State(), address + k + 1, size - k - 1))
        else whole == BytesRead(false, bytes, State())
    {
      var v;
      ok, v := ReadNext(address + k, size - k, bytes, whole);
      next, value := OrLane(data, LaneInWord(address, k), v, address % 4, bytes), v;
    }

    /** The lane loop of readBus. */
    method ReadLanes(address: u32, size: nat) returns (ok: bool, data: u32)
      requires address % 4 + size <= 4 && address + size < TWO32
      modifies this
      ensures var r := LoadRun(old(State()), address, size);
        ok == r.ok && State() == r.after && data == if ok then OnLanes(address % 4, r.bytes) else 0
    {
      hide LoadRun, OnLanes;
      data := 0;
      ghost var first, whole := address % 4, LoadRun(State(), address, size);
      ghost var bytes: seq<byte> := [];
      NothingOnLanes(first);
      for k := 0 to size
        invariant |bytes| == k
        invariant data == OnLanes(first, bytes)
        invariant Resumes(whole, bytes, LoadRun(State(), address + k, size - k))
      {
        var accepted, next, value := ReadLane(address, k, data, size, bytes, whole);
        if !accepted {
          return false, 0;
        }
        data, bytes := next, bytes + [value];
      }
      RunIsDone(whole, bytes, State(), address + size);
      return true, data;
    }

    method WriteBus(address: u32, data: u32, strobe: seq<bool>) returns (ok: bool)
      requires |strobe| == 4
      modifies this
      ensures Write(ok, State()) == BusStore(old(State()), address, data, strobe)
    {
      hide StoreByte;
      var aligned := address - address % 4;
      var wrote := false;
      for lane := 0 to 4
        invariant wrote == (true in strobe[..lane])
        invariant StoreLanes(State(), aligned, data, strobe, lane) == StoreLanes(old(State()), aligned, data, strobe, 0)
      {
        assert strobe[..lane + 1] == strobe[..lane] + [strobe[lane]];
        if strobe[lane] {
          wrote := true;
          var accepted := WriteByte(aligned + lane, ByteAt(data, lane));
          if !accepted { return false; }
        }
      }
      assert strobe[..4] == strobe;
      return wrote;
    }

    method TickTimer()
      modifies this
      ensures State() == Tick(old(State()))
    {
      if timerSubcycle + 1 == TIMER_DIVIDER {
        timerSubcycle := 0;
        if mtime != 0xffff_ffff_ffff_ffff { mtime := mtime + 1; }
      } else {
        timerSubcycle := timerSubcycle + 1;
      }
    }

    method AppendUartInput(text: seq<byte>)
      modifies this
      ensures State() == Perform(old(State()), Arrive(text))
    {
      for k := 0 to |text|
        invariant State() == old(State()).(input := old(uartInput) + text[..k])
      {
        uartInput := uartInput + [text[k]];
        assert text[..k + 1] == text[..k] + [text[k]];
      }
      assert text[..|text|] == text;
    }

    method Save(writer: CheckpointWriter)
      requires |uartInput| < TWO64 && |uartOutput| < TWO64
      modifies writer
      ensures forall rest: seq<byte> {:trigger writer.stream + rest} ::
        writer.stream + rest == old(writer.stream) + PutDevices(State(), rest)
    {
      writer.WriteU64(mtime);
      writer.WriteU64(mtimecmp);
      writer.WriteU32(timerSubcycle);
      writer.WriteU8(uartIer);
      writer.WriteU8(uartLcr);
      writer.WriteU8(uartMcr);
      writer.WriteU8(uartDll);
      writer.WriteU8(uartDlm);
      writer.WriteU64(|uartInput|);
      writer.WriteBytes(uartInput);
      writer.WriteString(uartOutput);
    }

    method Restore(reader: CheckpointReader) returns (r: Result<()>)
      modifies this, reader
      ensures match GetDevices(old(reader.stream))
        case Ok(f) => r == Ok(()) && State() == f.0 && reader.stream == f.1
        case Err(e) => r == Err(e)
    {
      var _ :- RestoreTimer(reader);
      var _ :- RestoreUartRegisters(reader);
      r := RestoreUartBuffers(reader);
    }

    method RestoreTimer(reader: CheckpointReader) returns (r: Result<()>)
      modifies this`mtime, this`mtimecmp, this`timerSubcycle, reader
      ensures match GetTimer(old(reader.stream))
        case Ok(f) => r == Ok(()) && (mtime, mtimecmp, timerSubcycle) == f.0 && reader.stream == f.1
        case Err(e) => r == Err(e)
    {
      mtime :- reader.ReadU64();
      mtimecmp :- reader.ReadU64();
      var subcycle :- reader.ReadU32();
      if subcycle >= TIMER_DIVIDER { return Err(InvalidTimerSubcycle); }
      timerSubcycle := subcycle;
      return Ok(());
    }

    method RestoreUartRegisters(reader: CheckpointReader) returns (r: Result<()>)
      modifies this`uartIer, this`uartLcr, this`uartMcr, this`uartDll, this`uartDlm, reader
      ensures match GetUartRegisters(old(reader.stream))
        case Ok(f) => r == Ok(()) && (uartIer, uartLcr, uartMcr, uartDll, uartDlm) == f.0 && reader.stream == f.1
        case Err(e) => r == Err(e)
    {
      uartIer :- reader.ReadU8();
      uartLcr :- reader.ReadU8();
      uartMcr :- reader.ReadU8();
      uartDll :- reader.ReadU8();
      uartDlm :- reader.ReadU8();
      return Ok(());
    }

    method RestoreUartBuffers(reader: CheckpointReader) returns (r: Result<()>)
      modifies this`uartInput, this`uartOutput, reader
      ensures match GetUartBuffers(old(reader.stream))
        case Ok(f) => r == Ok(()) && (uartInput, uartOutput) == f.0 && reader.stream == f.1
        case Err(e) => r == Err(e)
    {
      var inputSize :- reader.ReadCount(UART_INPUT_LIMIT);
      uartInput :- reader.ReadBytes(inputSize);
      uartOutput :- reader.ReadString(UART_OUTPUT_LIMIT);
      return Ok(());
    }
  }

  /** The byte lane of an address, `(address + k) & 3`. */
  function LaneInWord(address: u32, k: nat): (lane: nat)
    requires address % 4 + k < 4
    ensures lane == address % 4 + k
  {
    (address + k) % 4
  }

  lemma {:induction false} AlignedLanes(address: u32, size: nat)
    requires 1 <= size <= 4 && Misalignment(address, size) == 0
    ensures address % 4 + size <= 4
  {
  }

  /** A byte or-ed into its still empty lane of a word: it joins the bytes already on the lanes. */
  function OrLane(data: u32, lane: nat, value: byte, ghost first: nat, ghost bytes: seq<byte>): (r: u32)
    requires data == OnLanes(first, bytes) && lane == first + |bytes| < 4
    ensures r == OnLanes(first, bytes + [value])
  {
    AddLane(first, bytes, value);
    WithByte(data, lane, value)
  }

  lemma {:induction false} NothingOnLanes(first: nat)
    ensures OnLanes(first, []) == 0
  {
    if first > 0 { NothingOnLanes(first - 1); }
  }

  /** Or-ing the next byte into its still empty lane appends it to the bytes on the lanes. */
  lemma {:induction false} AddLane(first: nat, bytes: seq<byte>, value: byte)
    requires first + |bytes| < 4
    ensures OnLanes(first, bytes) < TWO32
    ensures WithByte(OnLanes(first, bytes), first + |bytes|, value) == OnLanes(first, bytes + [value]) < TWO32
  {
    var n := first + |bytes|;
    var v, w := OnLanes(first, bytes), OnLanes(first, bytes + [value]);
    Pow256Values();
    WidthBound(n);
    WidthBound(n + 1);
    ByteOnLanes(first, bytes, 0);
    ByteOnLanes(first, bytes + [value], 0);
    WithByteBound(v, n, value, 4);
    forall j | 0 <= j < 4 ensures ByteAt(WithByte(v, n, value), j) == ByteAt(w, j) {
      ByteOfWithByte(v, n, value, j);
      ByteOnLanes(first, bytes, j);
      ByteOnLanes(first, bytes + [value], j);
    }
    BytesDetermine(WithByte(v, n, value), w, 4);
  }
}
