/** When the tohost monitor of a slave shows what memory holds (src/AXIMemory.cc:113-137,
    src/ElfImage.cc:275-292). A W beat stores a whole bus window, while the monitor is
    given only the narrow word at the beat's address and shifts it once more. */
module AxiExit {
  import opened Words
  import opened Memory
  import opened Platform
  import opened ExitMonitor
  import opened AxiSlave
  import opened AxiScoreboard
  import opened AXIMemoryObject

  // ----- one store -----

  predicate InWindow(bus: nat, a: u32, word: nat)
    requires BusWidth(bus)
  {
    WindowBase(bus, a) / 4 <= word < WindowBase(bus, a) / 4 + bus / 4
  }

  /** The strobes of one word of the bus window. */
  function WordStrobe(bus: nat, a: u32, strobe: seq<bool>, word: nat): Strobe4
    requires BusWidth(bus) && |strobe| == bus && InWindow(bus, a, word)
  {
    var w := word - WindowBase(bus, a) / 4;
    strobe[4 * w..4 * w + 4]
  }

  /** Some strobed byte is still inside the word after the monitor's shift. */
  predicate ReachesWord(strobe: Strobe4, offset: nat) {
    exists k :: 0 <= k < 4 && strobe[k] && k + offset < 4
  }

  /** A store to memory is seen if it strobes tohost's word only as the narrow word of an
      unshifted beat; a store that leaves memory alone, if it strobes nothing into it. */
  predicate Seen(bus: nat, a: u32, tohost: u32, strobe: seq<bool>, stored: bool)
    requires BusWidth(bus) && |strobe| == bus
  {
    if !stored then a / 4 == tohost / 4 ==> !ReachesWord(NarrowStrobe(bus, a, strobe), a % 4)
    else if a / 4 == tohost / 4 then a % 4 == 0 || true !in NarrowStrobe(bus, a, strobe)
    else InWindow(bus, a, tohost / 4) ==> true !in WordStrobe(bus, a, strobe, tohost / 4)
  }

  function Stores(bus: nat, words: WordMap, a: u32, data: seq<u32>, strobe: seq<bool>, stored: bool): WordMap
    requires BusWidth(bus) && 4 * |data| == bus && |strobe| == bus
  {
    if stored then StoreWindow(words, WindowBase(bus, a), data, strobe, |data|) else words
  }

  predicate SameWord(bus: nat, words: WordMap, e: Exit, a: u32, data: seq<u32>, strobe: seq<bool>, stored: bool)
    requires BusWidth(bus) && 4 * |data| == bus && |strobe| == bus
  {
    Follow(e, a, NarrowData(bus, a, data), NarrowStrobe(bus, a, strobe)).value
    == WordAt(Stores(bus, words, a, data, strobe, stored), e.tohost / 4)
  }

  lemma {:induction false} NarrowInWindow(bus: nat, a: u32)
    requires BusWidth(bus)
    ensures InWindow(bus, a, a / 4) && a / 4 - WindowBase(bus, a) / 4 == a % bus / 4
    ensures a % bus / 4 * 4 == 4 * (a / 4 - WindowBase(bus, a) / 4)
  {
    WordInEight(a);
    WordInThirtyTwo(a);
    if bus == 8 { assert a % bus == a % 8; } else { assert a % bus == a % 32; }
  }

  lemma {:induction false} WordInEight(a: u32)
    ensures a % 8 / 4 == a / 4 - (a - a % 8) / 4 && 0 <= a % 8 / 4 < 2
  {
    var q, r := a / 8, a % 8;
    assert a - r == 4 * (2 * q) && a == 4 * (2 * q + r / 4) + r % 4;
  }

  lemma {:induction false} WordInThirtyTwo(a: u32)
    ensures a % 32 / 4 == a / 4 - (a - a % 32) / 4 && 0 <= a % 32 / 4 < 8
  {
    var q, r := a / 32, a % 32;
    assert a - r == 4 * (8 * q) && a == 4 * (8 * q + r / 4) + r % 4;
  }

  /** Byte j of a memory word after a store. */
  lemma {:induction false} StoredByteOfWord(bus: nat, words: WordMap, a: u32, data: seq<u32>, strobe: seq<bool>,
    word: nat, j: nat)
    requires BusWidth(bus) && 4 * |data| == bus && |strobe| == bus && word < 0x4000_0000 && j < 4
    ensures ByteAt(WordAt(Stores(bus, words, a, data, strobe, true), word), j)
      == if InWindow(bus, a, word) && WordStrobe(bus, a, strobe, word)[j]
         then ByteAt(data[word - WindowBase(bus, a) / 4], j) else ByteAt(WordAt(words, word), j)
  {
    hide StoreWindow, ByteAt, WindowBase;
    BaseIsWord(bus, a);
    var base, at := WindowBase(bus, a), 4 * word + j;
    var w := word - base / 4;
    assert at / 4 == word && at % 4 == j;
    PeekStoreWindow(words, base, data, strobe, |data|, at);
    assert InWindow(bus, a, word) <==> base <= at < base + bus;
    if InWindow(bus, a, word) {
      LaneOfWord(data, at - base, w, j);
      assert strobe[4 * w..4 * w + 4][j] == strobe[at - base];
    }
  }

  lemma {:induction false} WordsDiffer(v: u32, w: u32, j: nat)
    requires ByteAt(v, j) != ByteAt(w, j)
    ensures v != w
  {
  }

  lemma {:induction false} SameBytes(v: u32, w: u32)
    requires forall j :: 0 <= j < 4 ==> ByteAt(v, j) == ByteAt(w, j)
    ensures v == w
  {
    Pow256Values();
    BytesDetermine(v, w, 4);
  }

  lemma {:induction false} SeenKeepsWord(bus: nat, words: WordMap, e: Exit, a: u32, data: seq<u32>, strobe: seq<bool>,
    stored: bool)
    requires BusWidth(bus) && 4 * |data| == bus && |strobe| == bus
    requires e.value == WordAt(words, e.tohost / 4) && Seen(bus, a, e.tohost, strobe, stored)
    ensures SameWord(bus, words, e, a, data, strobe, stored)
  {
    hide StoreWindow, WindowBase, ByteAt, Stores, InWindow, ShiftedLanes;
    var word := e.tohost / 4;
    var after := Follow(e, a, NarrowData(bus, a, data), NarrowStrobe(bus, a, strobe)).value;
    var memory := WordAt(Stores(bus, words, a, data, strobe, stored), word);
    NarrowInWindow(bus, a);
    forall j | 0 <= j < 4 ensures ByteAt(after, j) == ByteAt(memory, j) {
      FollowedByte(bus, e, a, data, strobe, j);
      if stored {
        StoredByteOfWord(bus, words, a, data, strobe, word, j);
        if InWindow(bus, a, word) {
          assert WordStrobe(bus, a, strobe, word)[j] in WordStrobe(bus, a, strobe, word);
        }
      } else {
        NothingStoredOutside(bus, words, a, data, strobe);
      }
    }
    SameBytes(after, memory);
  }

  lemma {:induction false} NothingStoredOutside(bus: nat, words: WordMap, a: u32, data: seq<u32>, strobe: seq<bool>)
    requires BusWidth(bus) && 4 * |data| == bus && |strobe| == bus
    ensures Stores(bus, words, a, data, strobe, false) == words
  {
  }

  /** Byte j of the monitor's word after a beat. */
  lemma {:induction false} FollowedByte(bus: nat, e: Exit, a: u32, data: seq<u32>, strobe: seq<bool>, j: nat)
    requires BusWidth(bus) && 4 * |data| == bus && |strobe| == bus && j < 4
    ensures var value := Follow(e, a, NarrowData(bus, a, data), NarrowStrobe(bus, a, strobe)).value;
      ByteAt(value, j) ==
        if e.tohost / 4 == a / 4 && a % 4 <= j && NarrowStrobe(bus, a, strobe)[j - a % 4]
        then ByteAt(NarrowData(bus, a, data), j - a % 4) else ByteAt(e.value, j)
  {
    hide ByteAt, ShiftedLanes;
    ByteOfShifted(e.value, NarrowData(bus, a, data), NarrowStrobe(bus, a, strobe), a % 4, 0, j);
  }

  // ----- data that tells the two apart -----

  function OneByte(k: nat, x: byte): u32
    requires k < 4
  {
    Lane(0, k, x)
  }

  lemma {:induction false} BytesOfOne(k: nat, x: byte, j: nat)
    requires k < 4
    ensures ByteAt(OneByte(k, x), j) == if j == k then x else 0
  {
    ByteOfWithByte(0, k, x, j);
    ZeroBytes(j);
  }

  /** Zeros but for byte k of word w. */
  function Probe(n: nat, w: nat, k: nat, x: byte): (data: seq<u32>)
    requires w < n && k < 4
    ensures |data| == n && data[w] == OneByte(k, x)
  {
    seq(n, _ => 0 as u32)[w := OneByte(k, x)]
  }

  function OtherThan(b: byte): (x: byte)
    ensures x != 0 && x != b
  {
    if b == 1 then 2 else 1
  }

  lemma {:induction false} UnseenLosesWord(bus: nat, words: WordMap, e: Exit, a: u32, strobe: seq<bool>, stored: bool)
      returns (data: seq<u32>)
    requires BusWidth(bus) && |strobe| == bus
    requires e.value == WordAt(words, e.tohost / 4) && !Seen(bus, a, e.tohost, strobe, stored)
    ensures 4 * |data| == bus && !SameWord(bus, words, e, a, data, strobe, stored)
  {
    hide StoreWindow, WindowBase, ByteAt, Stores, InWindow, ShiftedLanes, OneByte;
    NarrowInWindow(bus, a);
    var word, narrow := e.tohost / 4, NarrowStrobe(bus, a, strobe);
    if !stored {
      var k :| 0 <= k < 4 && narrow[k] && k + a % 4 < 4;
      var x := OtherThan(ByteAt(e.value, k + a % 4));
      data := Probe(bus / 4, a % bus / 4, k, x);
      FollowedByte(bus, e, a, data, strobe, k + a % 4);
      BytesOfOne(k, x, k);
      NothingStoredOutside(bus, words, a, data, strobe);
      WordsDiffer(Follow(e, a, NarrowData(bus, a, data), narrow).value, WordAt(words, word), k + a % 4);
    } else {
      var lanes := WordStrobe(bus, a, strobe, word);
      var k :| 0 <= k < 4 && lanes[k];
      var x := OtherThan(ByteAt(e.value, k));
      data := Probe(bus / 4, word - WindowBase(bus, a) / 4, k, x) by { WordIndexInside(bus, a, word); }
      FollowedByte(bus, e, a, data, strobe, k);
      StoredByteOfWord(bus, words, a, data, strobe, word, k);
      BytesOfOne(k, x, k);
      if word == a / 4 && a % 4 <= k { BytesOfOne(k, x, k - a % 4); }
      WordsDiffer(Follow(e, a, NarrowData(bus, a, data), narrow).value,
        WordAt(Stores(bus, words, a, data, strobe, true), word), k);
    }
  }

  lemma {:induction false} WordIndexInside(bus: nat, a: u32, word: nat)
    requires BusWidth(bus) && InWindow(bus, a, word)
    ensures 0 <= word - WindowBase(bus, a) / 4 < bus / 4
  {
  }

  // ----- the slave -----

  /** The monitor's value is the memory word at tohost. */
  predicate Mirrors(s: Slave) { s.exit.Some? ==> s.exit.value.value == WordAt(s.words, s.exit.value.tohost / 4) }

  /** A new monitor starts at zero, so it mirrors exactly an image that is zero there. */
  lemma {:induction false} NewSlaveMirrorsIff(bus: nat, words: WordMap, devices: Option<Devices>, tohost: u32)
    requires BusWidth(bus)
    ensures Mirrors(NewSlave(bus, words, devices, Some(Exit(tohost, 0)))) <==> WordAt(words, tohost / 4) == 0
  {
  }

  predicate BeatSeen(s: Slave, m: Master)
    requires Inv(s) && m.Fits(s.bus)
  {
    var a := Low32(s.writeAddress);
    s.exit.Some? ==>
      Seen(s.bus, a, s.exit.value.tohost, m.wStrobe,
        GoesToMemory(WriteTarget(s.devices.Some?, a, s.writeSize, s.writeLength)))
  }

  predicate MirrorsAfter(s: Slave, m: Master, data: seq<u32>)
    requires Inv(s) && s.writeActive && m.Fits(s.bus) && 4 * |data| == s.bus
  {
    Mirrors(AcceptW(s, m.(wData := data)))
  }

  lemma {:induction false} BeatIsSameWord(s: Slave, m: Master, data: seq<u32>)
    requires Inv(s) && s.writeActive && m.Fits(s.bus) && 4 * |data| == s.bus && s.exit.Some?
    ensures var a := Low32(s.writeAddress);
      MirrorsAfter(s, m, data) <==>
        SameWord(s.bus, s.words, s.exit.value, a, data, m.wStrobe,
          GoesToMemory(WriteTarget(s.devices.Some?, a, s.writeSize, s.writeLength)))
  {
    hide StoreWindow, BusStore, IsRam, IsDevice, IsWriteCombine, ShiftedLanes, Low32, WindowBase;
  }

  /** A W beat keeps the monitor equal to memory, whatever its data, if and only if its
      address, strobes and target make it one that the monitor sees. */
  lemma {:induction false} BeatMirrorsIff(s: Slave, m: Master)
    requires Inv(s) && s.writeActive && m.Fits(s.bus) && Mirrors(s)
    ensures (forall data: seq<u32> | 4 * |data| == s.bus :: MirrorsAfter(s, m, data)) <==> BeatSeen(s, m)
  {
    hide Seen, SameWord, WriteTarget, Low32, MirrorsAfter;
    if s.exit.Some? {
      var e, a := s.exit.value, Low32(s.writeAddress);
      var stored := GoesToMemory(WriteTarget(s.devices.Some?, a, s.writeSize, s.writeLength));
      if BeatSeen(s, m) {
        forall data: seq<u32> | 4 * |data| == s.bus ensures MirrorsAfter(s, m, data) {
          BeatIsSameWord(s, m, data);
          SeenKeepsWord(s.bus, s.words, e, a, data, m.wStrobe, stored);
        }
      } else {
        var data := UnseenLosesWord(s.bus, s.words, e, a, m.wStrobe, stored);
        BeatIsSameWord(s, m, data);
      }
    } else {
      forall data: seq<u32> | 4 * |data| == s.bus ensures MirrorsAfter(s, m, data) { NoMonitor(s, m, data); }
    }
  }

  lemma {:induction false} NoMonitor(s: Slave, m: Master, data: seq<u32>)
    requires Inv(s) && s.writeActive && m.Fits(s.bus) && 4 * |data| == s.bus && s.exit.None?
    ensures MirrorsAfter(s, m, data)
  {
    hide StoreBeat, Low32;
  }

  /** The exit code reported on a beat that is seen is the one that memory announces at
      tohost: half of an odd word, and none for an even one. A beat at another word has not
      changed what memory announces. */
  lemma {:induction false} ReportTellsMemory(s: Slave, m: Master)
    requires Inv(s) && s.writeActive && m.Fits(s.bus) && Mirrors(s) && BeatSeen(s, m) && s.exit.Some?
    ensures var word, a := s.exit.value.tohost / 4, Low32(s.writeAddress);
      var announced := WordAt(AcceptW(s, m).words, word);
      && ExitReport(s, m) == (if a / 4 == word && announced % 2 == 1 then Some(announced / 2) else None)
      && (a / 4 != word ==> announced == WordAt(s.words, word))
  {
    hide StoreBeat, Low32, NarrowData, NarrowStrobe, Seen, ShiftedLanes;
    BeatMirrorsIff(s, m);
    assert m.(wData := m.wData) == m;
    assert MirrorsAfter(s, m, m.wData);
  }

  lemma {:induction false} WholeWindowIsStored(s: Slave, m: Master, a: u32)
    requires Inv(s) && s.writeActive && m.Fits(s.bus) && s.devices.None? && Low32(s.writeAddress) == a
    ensures AcceptW(s, m).words == StoreWindow(s.words, WindowBase(s.bus, a), m.wData, m.wStrobe, |m.wData|)
    ensures s.exit.Some? && s.exit.value.tohost / 4 != a / 4 ==>
      AcceptW(s, m).exit == s.exit && ExitReport(s, m) == None
  {
    hide StoreWindow, WindowBase, Inv, BusStore, NarrowData, NarrowStrobe;
  }

  lemma {:induction false} FifthByte(words: WordMap, data: seq<u32>, strobe: seq<bool>)
    requires |data| == 2 && |strobe| == 8 && strobe[4] && ByteAt(data[1], 0) == 1
    ensures Peek(StoreWindow(words, 0x8000_1000, data, strobe, 2), 0x8000_1004) == 1
  {
    hide StoreWindow, Peek, LaneByte, ByteAt;
    PeekStoreWindow(words, 0x8000_1000, data, strobe, 2, 0x8000_1004);
    LaneOfWord(data, 4, 1, 0);
  }

  /** A word-aligned beat of eight bytes just below tohost: memory announces the exit in
      its upper word, and the monitor misses it. */
  lemma {:induction false} AnnouncementIsMissed(s: Slave, m: Master)
    requires Inv(s) && s.bus == 8 && s.devices.None? && s.writeActive && s.writeAddress == 0x8000_1000
    requires s.exit.Some? && s.exit.value.tohost == 0x8000_1004
    requires m.Fits(8) && m.wStrobe[4] && ByteAt(m.wData[1], 0) == 1
    ensures AcceptW(s, m).exit == s.exit && ExitReport(s, m) == None && Peek(AcceptW(s, m).words, 0x8000_1004) == 1
  {
    hide StoreWindow, Peek, ByteAt, Inv, AcceptW, ExitReport;
    var base: u32 := 0x8000_1000;
    assert WindowBase(8, base) == base && Low32(s.writeAddress) == base;
    WholeWindowIsStored(s, m, base);
    FifthByte(s.words, m.wData, m.wStrobe);
  }

  // ----- runs -----

  /** The slave as a cycle's W beat finds it. */
  function AtW(s: Slave, c: Cycle): (t: Slave)
    requires Inv(s) && c.master.Fits(s.bus)
    ensures Inv(t) && t.bus == s.bus && (WTaken(s, c) ==> t.writeActive)
  {
    var ready := s.(devices := Arrival(s.devices, c.text));
    DriveAgrees(ready, c.master, c.coins);
    var (driven, o) := Drive(ready, c.master.arId, c.coins);
    HandshakesAgree(driven, c.master, o);
    AfterAw(AfterR(AfterAr(driven, c.master, o), c.master, o), c.master, o)
  }

  predicate WTaken(s: Slave, c: Cycle)
    requires Inv(s) && c.master.Fits(s.bus)
  {
    WShake(c.master, StepOutputs(s, c))
  }

  lemma {:induction false} AddressesKeepMemory(s: Slave, m: Master, o: Outputs)
    requires Inv(s) && m.Fits(s.bus) && Agree(s, m, o)
    ensures var t := AfterR(AfterAr(s, m, o), m, o);
      (o.awReady ==> !t.writeActive && !t.writeResponseValid)
      && AfterAw(t, m, o).words == s.words && AfterAw(t, m, o).exit == s.exit
  {
    hide BeatBytes, AfterBeat;
    HandshakesAgree(s, m, o);
  }

  lemma {:induction false} LatchKeepsMemory(s: Slave, coins: Coins)
    requires Inv(s)
    ensures Latched(s, coins).words == s.words && Latched(s, coins).exit == s.exit && Latched(s, coins).bus == s.bus
  {
    hide ReadBeat, DevicesAfter;
  }

  /** What a cycle does to memory and monitor is what its W beat does. */
  lemma {:induction false} StepIsBeat(s: Slave, c: Cycle)
    requires Inv(s) && c.master.Fits(s.bus)
    ensures var t, after := AtW(s, c), Step(s, c).0;
      && t.words == s.words && t.exit == s.exit
      && (WTaken(s, c) ==> after.words == AcceptW(t, c.master).words && after.exit == AcceptW(t, c.master).exit)
      && (!WTaken(s, c) ==> after.words == s.words && after.exit == s.exit)
  {
    hide Latched, Present, AcceptAr, TakeR, AcceptAw, AcceptW, ExitReport, Perform, Tick;
    var ready := s.(devices := Arrival(s.devices, c.text));
    LatchKeepsMemory(ready, c.coins);
    DriveAgrees(ready, c.master, c.coins);
    var (driven, o) := Drive(ready, c.master.arId, c.coins);
    AddressesKeepMemory(driven, c.master, o);
  }

  function WithData(c: Cycle, data: seq<u32>): Cycle { c.(master := c.master.(wData := data)) }

  /** The beat is taken or not, and finds the same slave, whatever its data. */
  lemma {:induction false} DataComesLast(s: Slave, c: Cycle, data: seq<u32>)
    requires Inv(s) && c.master.Fits(s.bus) && 4 * |data| == s.bus
    ensures AtW(s, WithData(c, data)) == AtW(s, c) && WTaken(s, WithData(c, data)) == WTaken(s, c)
  {
    hide Latched, Present, BeatBytes, AfterBeat, Perform;
    var ready := s.(devices := Arrival(s.devices, c.text));
    LatchKeepsMemory(ready, c.coins);
    var (driven, o) := Drive(ready, c.master.arId, c.coins);
    DriveAgrees(ready, c.master, c.coins);
    HandshakesAgree(driven, c.master, o);
  }

  predicate CycleSeen(s: Slave, c: Cycle)
    requires Inv(s) && c.master.Fits(s.bus)
  {
    WTaken(s, c) ==> BeatSeen(AtW(s, c), c.master)
  }

  predicate MirrorsStep(s: Slave, c: Cycle, data: seq<u32>)
    requires Inv(s) && c.master.Fits(s.bus) && 4 * |data| == s.bus
  {
    Mirrors(Step(s, WithData(c, data)).0)
  }

  lemma {:induction false} StepMirrors(s: Slave, c: Cycle, data: seq<u32>)
    requires Inv(s) && c.master.Fits(s.bus) && 4 * |data| == s.bus && Mirrors(s)
    ensures MirrorsStep(s, c, data) <==> (WTaken(s, c) ==> MirrorsAfter(AtW(s, c), c.master, data))
  {
    hide Step, AcceptW, AtW, WTaken;
    DataComesLast(s, c, data);
    StepIsBeat(s, WithData(c, data));
  }

  lemma {:induction false} StepMirrorsIff(s: Slave, c: Cycle)
    requires Inv(s) && c.master.Fits(s.bus) && Mirrors(s)
    ensures (forall data: seq<u32> | 4 * |data| == s.bus :: MirrorsStep(s, c, data)) <==> CycleSeen(s, c)
  {
    hide MirrorsStep, MirrorsAfter, AtW, WTaken, BeatSeen, Inv;
    StepIsBeat(s, c);
    if WTaken(s, c) { BeatMirrorsIff(AtW(s, c), c.master); }
    if CycleSeen(s, c) {
      forall data: seq<u32> | 4 * |data| == s.bus ensures MirrorsStep(s, c, data) { StepMirrors(s, c, data); }
    } else {
      var data: seq<u32> :| 4 * |data| == s.bus && !MirrorsAfter(AtW(s, c), c.master, data);
      StepMirrors(s, c, data);
    }
  }

  lemma {:induction false} PrefixFits(s: Slave, cycles: seq<Cycle>, i: nat)
    requires Inv(s) && CyclesFit(s.bus, cycles) && i <= |cycles|
    ensures CyclesFit(s.bus, cycles[..i])
  {
  }

  function After(s: Slave, cycles: seq<Cycle>, i: nat): (t: Slave)
    requires Inv(s) && CyclesFit(s.bus, cycles) && i <= |cycles|
    ensures Inv(t) && t.bus == s.bus
  {
    PrefixFits(s, cycles, i);
    StateAfter(s, cycles[..i])
  }

  lemma {:induction false} OneMoreCycle(s: Slave, cycles: seq<Cycle>, i: nat)
    requires Inv(s) && CyclesFit(s.bus, cycles) && i < |cycles|
    ensures After(s, cycles, i + 1) == Step(After(s, cycles, i), cycles[i]).0
    decreases i
  {
    hide Step, Inv;
    PrefixFits(s, cycles, i + 1);
    if i > 0 {
      var next := Step(s, cycles[0]).0;
      assert cycles[..i + 1][1..] == cycles[1..][..i] && cycles[..i][1..] == cycles[1..][..i - 1];
      OneMoreCycle(next, cycles[1..], i - 1);
    } else {
      assert cycles[..1][1..] == [] && cycles[..0] == [] && cycles[..1] != [];
      assert StateAfter(Step(s, cycles[0]).0, []) == Step(s, cycles[0]).0;
    }
  }

  ghost predicate EveryBeatSeen(s: Slave, cycles: seq<Cycle>)
    requires Inv(s) && CyclesFit(s.bus, cycles)
  {
    forall i :: 0 <= i < |cycles| ==> CycleSeen(After(s, cycles, i), cycles[i])
  }

  predicate MirrorsAt(s: Slave, cycles: seq<Cycle>, i: nat, data: seq<u32>)
    requires Inv(s) && CyclesFit(s.bus, cycles) && i < |cycles| && 4 * |data| == s.bus
  {
    MirrorsStep(After(s, cycles, i), cycles[i], data)
  }

  /** In every cycle of a run, whatever data the cycle might have carried, the monitor
      shows memory. */
  ghost predicate MirrorsThroughout(s: Slave, cycles: seq<Cycle>)
    requires Inv(s) && CyclesFit(s.bus, cycles)
  {
    forall i, data: seq<u32> | 0 <= i < |cycles| && 4 * |data| == s.bus :: MirrorsAt(s, cycles, i, data)
  }

  lemma {:induction false} MirroredSoFar(s: Slave, cycles: seq<Cycle>, i: nat)
    requires Inv(s) && CyclesFit(s.bus, cycles) && Mirrors(s) && i <= |cycles|
    requires EveryBeatSeen(s, cycles) || MirrorsThroughout(s, cycles)
    ensures Mirrors(After(s, cycles, i))
    decreases i
  {
    hide Step, CycleSeen, Mirrors, Inv;
    if i > 0 {
      var c, before := cycles[i - 1], After(s, cycles, i - 1);
      MirroredSoFar(s, cycles, i - 1);
      OneMoreCycle(s, cycles, i - 1);
      assert WithData(c, c.master.wData) == c;
      StepMirrorsIff(before, c);
      assert c.master.Fits(s.bus);
      assert MirrorsThroughout(s, cycles) ==> MirrorsAt(s, cycles, i - 1, c.master.wData);
      assert MirrorsStep(before, c, c.master.wData);
    } else {
      assert cycles[..0] == [];
    }
  }

  /** Exactly the runs in which the monitor cannot lose memory: every W beat is one that
      it sees. Then the monitor shows memory at the end of the run. */
  lemma {:induction false} RunMirrorsIff(s: Slave, cycles: seq<Cycle>)
    requires Inv(s) && CyclesFit(s.bus, cycles) && Mirrors(s)
    ensures MirrorsThroughout(s, cycles) <==> EveryBeatSeen(s, cycles)
    ensures EveryBeatSeen(s, cycles) ==> Mirrors(After(s, cycles, |cycles|))
  {
    hide Step, CycleSeen, Mirrors, MirrorsStep, After, Inv;
    if EveryBeatSeen(s, cycles) { MirroredSoFar(s, cycles, |cycles|); }
    if EveryBeatSeen(s, cycles) || MirrorsThroughout(s, cycles) {
      forall i | 0 <= i < |cycles|
        ensures (forall data: seq<u32> | 4 * |data| == s.bus :: MirrorsStep(After(s, cycles, i), cycles[i], data))
          <==> CycleSeen(After(s, cycles, i), cycles[i])
      {
        MirroredSoFar(s, cycles, i);
        StepMirrorsIff(After(s, cycles, i), cycles[i]);
      }
      if MirrorsThroughout(s, cycles) {
        forall i | 0 <= i < |cycles| ensures CycleSeen(After(s, cycles, i), cycles[i]) {
          forall data: seq<u32> | 4 * |data| == s.bus ensures MirrorsStep(After(s, cycles, i), cycles[i], data) {
            assert MirrorsAt(s, cycles, i, data);
          }
        }
      }
    }
  }
}
