/** The responses of the slave by address, size and length alone (src/AXIMemory.cc:30-50,
    121-132): 0 is OKAY, 2 is SLVERR and 3 is DECERR (IHI 0022, section A3.4.4). */
module AxiResponses {
  import opened Words
  import opened Memory
  import opened Platform
  import opened AxiSlave
  import opened AxiScoreboard

  /** The bytes at which the timer and the UART have registers. */
  predicate HasRegister(a: nat) {
    0xa000_4000 <= a < 0xa000_4008 || 0xa000_bff8 <= a < 0xa000_c000 || 0xa100_0000 <= a < 0xa100_1000
  }

  predicate Inside(address: nat, size: nat, first: nat, end: nat) { first <= address && address + size <= end }

  predicate InDevices(address: nat, size: nat) {
    Inside(address, size, 0xa000_0000, 0xa001_0000) || Inside(address, size, 0xa100_0000, 0xa100_1000)
  }

  predicate AxiSize(size: nat) { size in {1, 2, 4, 8, 16, 32, 64, 128} }

  lemma {:induction false} DecodedIff(a: u32)
    ensures Decoded(a) <==> HasRegister(a)
  {
  }

  lemma {:induction false} AlignedIff(a: u32, size: nat)
    requires size in {1, 2, 4}
    ensures Misalignment(a, size) == 0 <==> a % size == 0
  {
    if size == 1 { assert a % 1 == 0; }
    else if size == 2 { assert a % size == a % 2; }
    else { assert a % size == a % 4; }
  }

  lemma {:induction false} BusLoadIff(d: Devices, a: u32, size: nat)
    requires AxiSize(size) && InDevices(a, size)
    ensures BusLoad(d, a, size).ok <==> size <= 4 && a % size == 0 && HasRegister(a)
  {
    hide LoadByte, Misalignment, Decoded, LoadRun;
    MemoryMap(a, size);
    assert Decoded(a) <==> HasRegister(a) by { DecodedIff(a); }
    if size <= 4 {
      AlignedIff(a, size);
      LoadRunRefusal(d, a, size);
      if a % size == 0 {
        forall k: u32 | a <= k < a + size ensures Decoded(k) == Decoded(a) { AlignedBlock(a, size, k); }
      }
    }
  }

  /** The response to a read beat. */
  lemma {:induction false} ReadResponse(bus: nat, words: WordMap, devices: Option<Devices>, r: ReadTransaction)
    requires BusWidth(bus) && AxiSize(r.size) && r.address + r.size <= TWO32
    ensures ReadBeat(bus, words, devices, r).response
      == if devices.None? || Inside(r.address, r.size, 0x8000_0000, 0x8400_0000)
           || Inside(r.address, r.size, 0xa200_0000, 0xa300_0000) then 0
         else if InDevices(r.address, r.size) then
           if r.length == 0 && r.size <= 4 && r.address % r.size == 0 && HasRegister(r.address) then 0 else 2
         else 3
  {
    hide BusLoad, ReadWindow, IsRam, IsDevice, IsWriteCombine;
    MemoryMap(r.address, r.size);
    if devices.Some? && InDevices(r.address, r.size) { BusLoadIff(devices.value, r.address, r.size); }
  }

  /** The verdict on a write beat, of a burst with `length` more beats. */
  lemma {:induction false} WriteResponse(bus: nat, platform: bool, a: u32, size: nat, length: byte, strobe: seq<bool>)
    requires BusWidth(bus) && |strobe| == bus && size > 0
    ensures Verdict(bus, platform, a, size, length, strobe)
      == if !platform || Inside(a, size * (length + 1), 0xa200_0000, 0xa300_0000)
           || Inside(a, size, 0x8000_0000, 0x8400_0000) then 0
         else if InDevices(a, size) then
           if length == 0 && HasRegister(a) && exists j :: a % bus / 4 * 4 <= j < a % bus / 4 * 4 + 4 && strobe[j]
           then 0 else 2
         else 3
  {
    hide IsRam, IsDevice, IsWriteCombine;
    MemoryMap(a, size);
    var n := size * (length + 1);
    assert n > 0;
    MemoryMap(a, n);
    NarrowHasStrobe(bus, a, strobe);
  }

  lemma {:induction false} NarrowHasStrobe(bus: nat, a: u32, strobe: seq<bool>)
    requires BusWidth(bus) && |strobe| == bus
    ensures a % bus / 4 * 4 + 4 <= bus
    ensures true in NarrowStrobe(bus, a, strobe)
      <==> exists j :: a % bus / 4 * 4 <= j < a % bus / 4 * 4 + 4 && strobe[j]
  {
    var lane, narrow := a % bus / 4 * 4, NarrowStrobe(bus, a, strobe);
    if j :| lane <= j < lane + 4 && strobe[j] { assert narrow[j - lane]; }
    if true in narrow {
      var k :| 0 <= k < 4 && narrow[k];
      assert strobe[lane + k];
    }
  }

  lemma {:induction false} RunKeepsDevices(d: Devices, a: u32, n: nat)
    requires 0xa100_0000 < a && a + n <= 0xa100_1000
    ensures LoadRun(d, a, n).after == d
    decreases n
  {
    if n > 0 { RunKeepsDevices(d, a + 1, n - 1); }
  }

  lemma {:induction false} DataByte(d: Devices)
    ensures var h := LoadByte(d, 0xa100_0000);
      h.ok && h.after == if d.lcr < 128 && d.input != [] then d.(input := d.input[1..]) else d
  {
  }

  lemma {:induction false} DataRun(d: Devices, n: nat)
    requires 0 < n <= 4
    ensures LoadRun(d, 0xa100_0000, n).after == if d.lcr < 128 && d.input != [] then d.(input := d.input[1..]) else d
  {
    hide LoadByte, LoadRun;
    DataByte(d);
    LoadRunUnfold(d, 0xa100_0000, n);
    RunKeepsDevices(LoadByte(d, 0xa100_0000).after, 0xa100_0001, n - 1);
  }

  lemma {:induction false} BusLoadEffect(d: Devices, a: u32, size: nat)
    requires AxiSize(size) && InDevices(a, size)
    ensures BusLoad(d, a, size).after
      == if a == 0xa100_0000 && size <= 4 && d.lcr < 128 && d.input != [] then d.(input := d.input[1..]) else d
  {
    hide LoadRun, IsDevice, Misalignment;
    MemoryMap(a, size);
    if size <= 4 {
      if a == 0xa100_0000 {
        AlignedIff(a, size);
        BusLoadIff(d, a, size);
        DataRun(d, size);
      } else if a > 0xa100_0000 {
        RunKeepsDevices(d, a, size);
      } else {
        LoadRunRefusal(d, a, size);
      }
    }
  }

  /** What a read beat does to the devices: a single beat of 1, 2 or 4 bytes at the UART data
      register takes the oldest input byte, unless the divisor latch is addressed. No other
      read has an effect, nor has any beat of a longer burst. */
  lemma {:induction false} ReadEffect(d: Devices, r: ReadTransaction)
    requires AxiSize(r.size) && r.address + r.size <= TWO32
    ensures DevicesAfter(Some(d), r)
      == if r.length == 0 && r.address == 0xa100_0000 && r.size <= 4 && d.lcr < 128 && d.input != []
         then Some(d.(input := d.input[1..])) else Some(d)
  {
    hide BusLoad, IsRam, IsDevice, IsWriteCombine;
    MemoryMap(r.address, r.size);
    if InDevices(r.address, r.size) { BusLoadEffect(d, r.address, r.size); }
  }
}
