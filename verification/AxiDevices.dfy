/** Device writes over the bus (src/AXIMemory.cc:113-127): the devices are given the
    narrow word at the beat's address, and strobed bytes outside it vanish. */
module AxiDevices {
  import opened Words
  import opened Memory
  import opened Platform
  import opened AxiSlave
  import opened AxiScoreboard

  /** The registers when every strobed byte from lane k of the bus window on is stored. */
  function StoreEach(d: Devices, base: u32, data: seq<u32>, strobe: seq<bool>, k: nat): Devices
    requires |strobe| == 4 * |data| && k <= |strobe| && base + |strobe| <= 0x1_0000_0000
    decreases |strobe| - k
  {
    if k == |strobe| then d
    else
      var next := if strobe[k] then StoreByte(d, base + k, LaneByte(data, k)).after else d;
      StoreEach(next, base, data, strobe, k + 1)
  }

  /** The register bytes a write can change. */
  predicate Writable(address: u32) {
    IsTimerByte(address) || (UART_BASE <= address < UART_BASE + UART_SIZE && address - UART_BASE in {0, 1, 3, 4})
  }

  lemma {:induction false} StoreElsewhere(d: Devices, address: u32, v: byte)
    requires !Writable(address)
    ensures StoreByte(d, address, v).after == d
  {
  }

  /** The lanes of the narrow word. */
  predicate InNarrow(bus: nat, address: u32, j: nat)
    requires BusWidth(bus)
  {
    j / 4 == address % bus / 4
  }

  /** Every strobed byte outside the narrow word lands where nothing can be written. */
  predicate NothingVanishes(bus: nat, address: u32, strobe: seq<bool>)
    requires BusWidth(bus) && |strobe| == bus
  {
    forall j :: 0 <= j < bus && strobe[j] && !InNarrow(bus, address, j) ==> !Writable(WindowBase(bus, address) + j)
  }

  /** What the bus leaves behind and what a full store of the window would leave behind. */
  predicate StoresAll(bus: nat, d: Devices, address: u32, data: seq<u32>, strobe: seq<bool>)
    requires BusWidth(bus) && |strobe| == bus && 4 * |data| == bus
  {
    BusStore(d, address, NarrowData(bus, address, data), NarrowStrobe(bus, address, strobe)).after
    == StoreEach(d, WindowBase(bus, address), data, strobe, 0)
  }

  // ----- nothing vanishes, so all is stored -----

  /** The register word of an address. */
  function WordBase(address: u32): (word: u32)
    ensures word % 4 == 0
  {
    address - address % 4
  }

  /** The first lane of the narrow word. */
  function First(bus: nat, address: u32): (first: nat)
    requires BusWidth(bus)
  {
    address % bus / 4 * 4
  }

  /** How many lanes of the narrow word come before lane k of the window. */
  function Passed(first: nat, k: nat): (lane: nat)
    ensures lane <= 4
  {
    if k <= first then 0 else if k <= first + 4 then k - first else 4
  }

  /** From lane k on, what the narrow word still has to store. */
  function NarrowRest(d: Devices, bus: nat, address: u32, data: seq<u32>, strobe: seq<bool>, k: nat): Devices
    requires BusWidth(bus) && |strobe| == bus && 4 * |data| == bus && k <= bus
  {
    StoreLanes(d, WordBase(address), NarrowData(bus, address, data), NarrowStrobe(bus, address, strobe),
      Passed(First(bus, address), k)).after
  }

  lemma {:induction false} LanesInEight(address: u32)
    ensures address % 8 / 4 * 4 == address % 8 - address % 4 <= 4
  {
  }

  lemma {:induction false} LanesInThirtyTwo(address: u32)
    ensures address % 32 / 4 * 4 == address % 32 - address % 4 <= 28
  {
  }

  lemma {:induction false} NarrowLanes(bus: nat, address: u32)
    requires BusWidth(bus)
    ensures First(bus, address) + 4 <= bus && WindowBase(bus, address) + First(bus, address) == WordBase(address)
  {
    LanesInEight(address);
    LanesInThirtyTwo(address);
    if bus == 8 { assert address % bus == address % 8; } else { assert address % bus == address % 32; }
  }

  lemma {:induction false} LaneKind(bus: nat, address: u32, k: nat)
    requires BusWidth(bus)
    ensures InNarrow(bus, address, k) <==> First(bus, address) <= k < First(bus, address) + 4
  {
  }

  lemma {:induction false} StoreLanesStep(d: Devices, word: u32, data: u32, strobe: seq<bool>, lane: nat)
    requires word % 4 == 0 && |strobe| == 4 && lane < 4 && Decoded(word)
    ensures var next := if strobe[lane] then StoreByte(d, word + lane, ByteAt(data, lane)).after else d;
      StoreLanes(d, word, data, strobe, lane).after == StoreLanes(next, word, data, strobe, lane + 1).after
  {
    if strobe[lane] {
      assert Decoded(word + lane);
      RefusedByteChangesNothing(d, word + lane, ByteAt(data, lane));
    }
  }

  /** A lane of the narrow word. */
  lemma {:induction false} NarrowLane(bus: nat, address: u32, data: seq<u32>, strobe: seq<bool>, k: nat)
    requires BusWidth(bus) && |strobe| == bus && 4 * |data| == bus && k < bus && InNarrow(bus, address, k)
    ensures var first := First(bus, address);
      && first <= k < first + 4 && WindowBase(bus, address) + k == WordBase(address) + (k - first)
      && NarrowStrobe(bus, address, strobe)[k - first] == strobe[k]
      && ByteAt(NarrowData(bus, address, data), k - first) == LaneByte(data, k)
  {
    hide WindowBase, ByteAt, LaneByte;
    NarrowLanes(bus, address);
    LaneKind(bus, address, k);
    LaneOfWord(data, k, address % bus / 4, k - First(bus, address));
  }

  lemma {:induction false} RestStep(d: Devices, bus: nat, address: u32, data: seq<u32>, strobe: seq<bool>, k: nat)
    requires BusWidth(bus) && |strobe| == bus && 4 * |data| == bus && k < bus && Decoded(address)
    requires NothingVanishes(bus, address, strobe)
    ensures var next := if strobe[k] then StoreByte(d, WindowBase(bus, address) + k, LaneByte(data, k)).after else d;
      NarrowRest(d, bus, address, data, strobe, k) == NarrowRest(next, bus, address, data, strobe, k + 1)
  {
    hide StoreByte, StoreLanes, LaneByte, ByteAt, Writable, WindowBase, WordBase, Decoded, InNarrow, First,
      NarrowStrobe, NarrowData;
    LaneKind(bus, address, k);
    if InNarrow(bus, address, k) {
      DecodedWord(address);
      NarrowLane(bus, address, data, strobe, k);
      StoreLanesStep(d, WordBase(address), NarrowData(bus, address, data), NarrowStrobe(bus, address, strobe),
        k - First(bus, address));
    } else if strobe[k] {
      StoreElsewhere(d, WindowBase(bus, address) + k, LaneByte(data, k));
    }
  }

  lemma {:induction false} RestIsStored(d: Devices, bus: nat, address: u32, data: seq<u32>, strobe: seq<bool>, k: nat)
    requires BusWidth(bus) && |strobe| == bus && 4 * |data| == bus && k <= bus && Decoded(address)
    requires NothingVanishes(bus, address, strobe)
    ensures NarrowRest(d, bus, address, data, strobe, k) == StoreEach(d, WindowBase(bus, address), data, strobe, k)
    decreases bus - k
  {
    hide StoreByte, StoreLanes, LaneByte, NothingVanishes, WindowBase, WordBase, Decoded, NarrowData, NarrowStrobe,
      First;
    if k == bus {
      NarrowLanes(bus, address);
      LanesDone(d, WordBase(address), NarrowData(bus, address, data), NarrowStrobe(bus, address, strobe));
    } else {
      RestStep(d, bus, address, data, strobe, k);
      var next := if strobe[k] then StoreByte(d, WindowBase(bus, address) + k, LaneByte(data, k)).after else d;
      RestIsStored(next, bus, address, data, strobe, k + 1);
    }
  }

  lemma {:induction false} LanesDone(d: Devices, word: u32, data: u32, strobe: seq<bool>)
    requires word % 4 == 0 && |strobe| == 4
    ensures StoreLanes(d, word, data, strobe, 4).after == d
  {
  }

  lemma {:induction false} DecodedWord(address: u32)
    requires Decoded(address)
    ensures Decoded(WordBase(address))
  {
  }

  // ----- something vanishes, and a full store would have shown it -----

  /** Registers filled with ones and an empty transmitter. */
  const FILLED := Devices(TWO64 - 1, TWO64 - 1, 0, 1, 1, 1, 1, 1, [], [])

  /** What is seen of a writable byte. */
  function Shown(d: Devices, address: u32): nat {
    if IsTimerByte(address) then TimerByte(d, address)
    else if address == UART_BASE then |d.output|
    else if address == UART_BASE + 1 then d.ier
    else if address == UART_BASE + 3 then d.lcr
    else if address == UART_BASE + 4 then d.mcr
    else 0
  }

  lemma {:induction false} StoreZero(d: Devices, address: u32, a: u32)
    requires !d.Dlab() && Writable(a)
    ensures var after := StoreByte(d, address, 0).after;
      && !after.Dlab()
      && Shown(after, a) == if address != a then Shown(d, a) else if a == UART_BASE then Shown(d, a) + 1 else 0
  {
    if IsTimerByte(a) { StoreByteOnTimer(d, address, 0, a); }
  }

  lemma {:induction false} ZeroLanes(data: seq<u32>, k: nat)
    requires k < 4 * |data| && forall i :: 0 <= i < |data| ==> data[i] == 0
    ensures LaneByte(data, k) == 0
  {
    ZeroBytes(k % 4);
  }

  lemma {:induction false} EachShows(d: Devices, base: u32, data: seq<u32>, strobe: seq<bool>, k: nat, j: nat)
    requires |strobe| == 4 * |data| && k <= |strobe| && base + |strobe| <= 0x1_0000_0000 && j < |strobe|
    requires !d.Dlab() && Writable(base + j) && strobe[j] && forall i :: 0 <= i < |data| ==> data[i] == 0
    ensures Shown(StoreEach(d, base, data, strobe, k), base + j)
      == if j < k then Shown(d, base + j) else if base + j == UART_BASE then Shown(d, base + j) + 1 else 0
    decreases |strobe| - k
  {
    hide StoreByte, Writable, Shown, LaneByte;
    if k < |strobe| {
      ZeroLanes(data, k);
      StoreZero(d, base + k, base + j);
      var next := if strobe[k] then StoreByte(d, base + k, 0).after else d;
      EachShows(next, base, data, strobe, k + 1, j);
    }
  }

  lemma {:induction false} LanesShow(d: Devices, word: u32, strobe: seq<bool>, k: nat, a: u32)
    requires word % 4 == 0 && |strobe| == 4 && k <= 4 && !d.Dlab() && Writable(a) && a / 4 != word / 4
    ensures Shown(StoreLanes(d, word, 0, strobe, k).after, a) == Shown(d, a)
    decreases 4 - k
  {
    hide StoreByte, Writable, Shown, ByteAt;
    if k < 4 {
      ZeroBytes(k);
      StoreZero(d, word + k, a);
      LanesShow(if strobe[k] then StoreByte(d, word + k, 0).after else d, word, strobe, k + 1, a);
    }
  }

  lemma {:induction false} FilledShows(a: u32)
    requires Writable(a)
    ensures if a == UART_BASE then Shown(FILLED, a) == 0 else Shown(FILLED, a) > 0
  {
    AllOnes(8, if IsTimerByte(a) then (if a < MTIME then a - MTIMECMP else a - MTIME) else 0);
    Pow256Values();
  }

  lemma {:induction false} AllOnes(n: nat, k: nat)
    requires k < n
    ensures ByteAt(Pow256(n) - 1, k) == 255
  {
    assert Pow256(n) - 1 == 256 * (Pow256(n - 1) - 1) + 255;
    if k > 0 { AllOnes(n - 1, k - 1); }
  }

  lemma {:induction false} VanishedByteShows(bus: nat, address: u32, strobe: seq<bool>, j: nat, data: seq<u32>)
    requires BusWidth(bus) && |strobe| == bus && j < bus && strobe[j] && !InNarrow(bus, address, j)
    requires Writable(WindowBase(bus, address) + j)
    requires 4 * |data| == bus && forall i :: 0 <= i < |data| ==> data[i] == 0
    ensures !StoresAll(bus, FILLED, address, data, strobe)
  {
    hide StoreEach, StoreLanes, Writable, Shown;
    var base := WindowBase(bus, address);
    var a := base + j;
    assert a / 4 != address / 4 by { OutsideNarrow(bus, address, j); }
    FilledShows(a);
    EachShows(FILLED, base, data, strobe, 0, j);
    LanesShow(FILLED, address - address % 4, NarrowStrobe(bus, address, strobe), 0, a);
  }

  lemma {:induction false} OutsideNarrow(bus: nat, address: u32, j: nat)
    requires BusWidth(bus) && j < bus && !InNarrow(bus, address, j)
    ensures (WindowBase(bus, address) + j) / 4 != address / 4
  {
    NarrowLanes(bus, address);
    LaneKind(bus, address, j);
  }

  /** Exactly when a device beat that is answered OKAY has stored every strobed byte of its
      window, for all registers and data: no strobe outside the narrow word is at a byte
      that a write can change. */
  lemma {:induction false} DeviceBeatStoresAllIff(bus: nat, address: u32, strobe: seq<bool>)
    requires BusWidth(bus) && |strobe| == bus && Decoded(address)
    ensures (forall d: Devices, data: seq<u32> | 4 * |data| == bus :: StoresAll(bus, d, address, data, strobe))
      <==> NothingVanishes(bus, address, strobe)
  {
    hide StoresAll, Writable, InNarrow;
    if NothingVanishes(bus, address, strobe) {
      forall d: Devices, data: seq<u32> | 4 * |data| == bus ensures StoresAll(bus, d, address, data, strobe) {
        AllStored(bus, d, address, data, strobe);
      }
    } else {
      var j :| 0 <= j < bus && strobe[j] && !InNarrow(bus, address, j) && Writable(WindowBase(bus, address) + j);
      VanishedByteShows(bus, address, strobe, j, Silence(bus));
    }
  }

  lemma {:induction false} AllStored(bus: nat, d: Devices, address: u32, data: seq<u32>, strobe: seq<bool>)
    requires BusWidth(bus) && |strobe| == bus && 4 * |data| == bus && Decoded(address)
    requires NothingVanishes(bus, address, strobe)
    ensures StoresAll(bus, d, address, data, strobe)
  {
    hide StoreEach, StoreLanes, NothingVanishes;
    RestIsStored(d, bus, address, data, strobe, 0);
  }

  predicate BeatStoresAll(bus: nat, words: WordMap, d: Devices, address: u32, size: nat, data: seq<u32>,
    strobe: seq<bool>)
    requires BusWidth(bus) && |strobe| == bus && 4 * |data| == bus
  {
    StoreBeat(bus, words, Some(d), address, size, 0, data, strobe).devices
    == Some(StoreEach(d, WindowBase(bus, address), data, strobe, 0))
  }

  /** The same of the W beats that the slave answers with OKAY. */
  lemma {:induction false} AcceptedBeatStoresAllIff(bus: nat, words: WordMap, address: u32, size: nat,
    strobe: seq<bool>)
    requires BusWidth(bus) && |strobe| == bus
    requires WriteTarget(true, address, size, 0) == ToDevice && Verdict(bus, true, address, size, 0, strobe) == OKAY
    ensures (forall d: Devices, data: seq<u32> | 4 * |data| == bus ::
               BeatStoresAll(bus, words, d, address, size, data, strobe))
      <==> NothingVanishes(bus, address, strobe)
  {
    hide WriteTarget, StoreEach, BusStore, Decoded, NothingVanishes, NarrowStrobe, NarrowData;
    DeviceBeatStoresAllIff(bus, address, strobe);
    forall d: Devices, data: seq<u32> | 4 * |data| == bus
      ensures BeatStoresAll(bus, words, d, address, size, data, strobe) <==> StoresAll(bus, d, address, data, strobe)
    {
    }
  }

  /** A beat of eight bytes at mtimecmp with all strobes up is answered OKAY, and the upper four
      bytes of the register are still what they were; the read of the same size is refused. */
  lemma {:induction false} UpperHalfVanishes(d: Devices, data: seq<u32>, strobe: seq<bool>)
    requires |data| == 2 && |strobe| == 8 && forall j :: 0 <= j < 8 ==> strobe[j]
    ensures Verdict(8, true, MTIMECMP, 8, 0, strobe) == OKAY
    ensures var stored := BusStore(d, MTIMECMP, NarrowData(8, MTIMECMP, data), NarrowStrobe(8, MTIMECMP, strobe));
      && stored.ok && stored.after == d.(mtimecmp := stored.after.mtimecmp)
      && forall j :: 0 <= j < 8 ==>
           ByteAt(stored.after.mtimecmp, j) == if j < 4 then ByteAt(data[0], j) else ByteAt(d.mtimecmp, j)
    ensures DeviceBeat(8, d, MTIMECMP, 8, 0).response == SLVERR
  {
    hide ByteAt, StoreLanes;
    var narrow := NarrowStrobe(8, MTIMECMP, strobe);
    assert narrow == LaneStrobe(0, 4);
    assert narrow[0];
    StoreCompareLanes(d, 0, data[0], 0, 0);
    var stored := BusStore(d, MTIMECMP, data[0], narrow);
    forall j | 0 <= j < 8
      ensures ByteAt(stored.after.mtimecmp, j) == if j < 4 then ByteAt(data[0], j) else ByteAt(d.mtimecmp, j)
    {
      StoreCompareLanes(d, 0, data[0], 0, j);
    }
  }
}
