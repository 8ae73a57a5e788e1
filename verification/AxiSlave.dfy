/** The AXI4 memory slave of src/AXIMemory.cc as a transition function. `Drive` latches
    the slave's outputs for a cycle, `Update` consumes the handshakes of that cycle.

    The generator's answers to randomValid and randomReady are an input (`Coins`), so
    whatever is proved holds under every pattern of backpressure. */
module AxiSlave {
  import opened Words
  import opened Memory
  import opened Platform
  import opened ExitMonitor

  const OKAY: byte := 0
  const SLVERR: byte := 2
  const DECERR: byte := 3

  /** Read contexts: id 0 is the demand reader, id 1 the prefetcher. */
  datatype ReadTransaction = ReadTransaction(active: bool, address: nat, size: nat, length: byte, beat: byte)

  datatype Slave = Slave(
    bus: nat,
    contexts: seq<ReadTransaction>,
    readDataValid: bool, readData: seq<u32>, readSelectedId: nat, readResponse: byte,
    writeActive: bool, writeResponseValid: bool, writeAddress: nat, writeSize: nat,
    writeLength: byte, writeBeat: byte, writeId: byte, writeResponse: byte,
    words: WordMap, devices: Option<Devices>, exit: Option<Exit>)

  /** What the master puts on its channels in one cycle. */
  datatype Master = Master(
    arValid: bool, arId: byte, arAddress: u32, arLength: byte, arSize: nat,
    rReady: bool,
    awValid: bool, awId: byte, awAddress: u32, awLength: byte, awSize: nat,
    wValid: bool, wData: seq<u32>, wStrobe: seq<bool>, wLast: bool,
    bReady: bool)
  {
    predicate Fits(bus: nat) {
      arSize < 8 && awSize < 8 && 4 * |wData| == bus && |wStrobe| == bus
    }
  }

  /** What the slave puts on its channels in one cycle. */
  datatype Outputs = Outputs(
    arReady: bool,
    rValid: bool, rId: nat, rData: seq<u32>, rResponse: byte, rLast: bool,
    awReady: bool, wReady: bool,
    bValid: bool, bId: byte, bResponse: byte)

  datatype Coins = Coins(latch: bool, ar: bool, aw: bool, w: bool)

  predicate BusWidth(bus: nat) { bus == 8 || bus == 32 }

  function BeatBytes(code: nat): (size: nat)
    requires code < 8
    ensures 1 <= size <= 128
  {
    match code
    case 0 => 1
    case 1 => 2
    case 2 => 4
    case 3 => 8
    case 4 => 16
    case 5 => 32
    case 6 => 64
    case _ => 128
  }

  /** AxSIZE codes sizes by their logarithm. */
  lemma {:induction false} BeatBytesIsPower(code: nat)
    requires code < 8
    ensures BeatBytes(code) == Pow2(code)
  {
    assert Pow2(3) == 8;
    assert Pow2(6) == 64;
  }

  function Low32(address: nat): u32 { address % 0x1_0000_0000 }

  /** `address & ~(kBusBytes - 1)`. */
  function WindowBase(bus: nat, address: u32): (base: u32)
    requires BusWidth(bus)
    ensures base % bus == 0 && base <= address < base + bus <= 0x1_0000_0000
  {
    address - address % bus
  }

  lemma {:induction false} BaseIsWord(bus: nat, address: u32)
    requires BusWidth(bus)
    ensures WindowBase(bus, address) % 4 == 0
  {
  }

  // ----- where a beat goes -----

  datatype Target = ToMemory | ToDevice | ToWriteCombine | Nowhere

  function ReadTarget(platform: bool, address: nat, size: nat): Target {
    if platform && IsDevice(address, size) then ToDevice
    else if platform && IsWriteCombine(address, size) then ToWriteCombine
    else if platform && !IsRam(address, size) then Nowhere
    else ToMemory
  }

  /** The write-combine test is repeated on every beat with the length of the whole burst. */
  function WriteTarget(platform: bool, address: u32, size: nat, length: byte): Target {
    if platform && IsWriteCombine(address, size * (length + 1)) then ToWriteCombine
    else if platform && IsDevice(address, size) then ToDevice
    else if platform && !IsRam(address, size) then Nowhere
    else ToMemory
  }

  // ----- the bus window of memory -----

  function Silence(bus: nat): (data: seq<u32>)
    ensures |data| == bus / 4
  {
    seq(bus / 4, _ => 0)
  }

  function ReadWindow(words: WordMap, base: u32, n: nat): (data: seq<u32>)
    requires base % 4 == 0 && base + 4 * n <= 0x1_0000_0000
    ensures |data| == n
    ensures forall k :: 0 <= k < n ==> data[k] == WordAt(words, base / 4 + k)
  {
    if n == 0 then [] else ReadWindow(words, base, n - 1) + [WordAt(words, base / 4 + n - 1)]
  }

  /** The first n words of a strobed store to a bus window. */
  function StoreWindow(words: WordMap, base: u32, data: seq<u32>, strobe: seq<bool>, n: nat): WordMap
    requires n <= |data| && |strobe| == 4 * |data| && base + 4 * |data| <= 0x1_0000_0000
  {
    if n == 0 then words
    else
      PokeWord(StoreWindow(words, base, data, strobe, n - 1), base + 4 * (n - 1), data[n - 1], strobe[4 * n - 4..4 * n])
  }

  /** The byte on lane j of a bus word sequence. */
  function LaneByte(data: seq<u32>, j: nat): byte
    requires j < 4 * |data|
  {
    ByteAt(data[j / 4], j % 4)
  }

  lemma {:induction false} PeekStoreWindow(words: WordMap, base: u32, data: seq<u32>, strobe: seq<bool>, n: nat, a: u32)
    requires n <= |data| && |strobe| == 4 * |data| && base + 4 * |data| <= 0x1_0000_0000
    ensures Peek(StoreWindow(words, base, data, strobe, n), a)
         == if base <= a < base + 4 * n && strobe[a - base] then LaneByte(data, a - base) else Peek(words, a)
  {
    hide PokeWord, Peek, LaneByte, StoreWindow;
    if n == 0 {
      assert StoreWindow(words, base, data, strobe, 0) == words by { NothingStored(words, base, data, strobe); }
    } else {
      PeekStoreWindow(words, base, data, strobe, n - 1, a);
      var at, lanes := base + 4 * (n - 1), strobe[4 * n - 4..4 * n];
      LastWordStored(words, base, data, strobe, n, a);
      if at <= a < at + 4 {
        LaneOfWord(data, a - base, n - 1, a - at);
        assert lanes[a - at] == strobe[a - base];
      }
    }
  }

  lemma {:induction false} NothingStored(words: WordMap, base: u32, data: seq<u32>, strobe: seq<bool>)
    requires |strobe| == 4 * |data| && base + 4 * |data| <= 0x1_0000_0000
    ensures StoreWindow(words, base, data, strobe, 0) == words
  {
  }

  lemma {:induction false} LastWordStored(words: WordMap, base: u32, data: seq<u32>, strobe: seq<bool>, n: nat, a: u32)
    requires 0 < n <= |data| && |strobe| == 4 * |data| && base + 4 * |data| <= 0x1_0000_0000
    ensures var at, lanes := base + 4 * (n - 1), strobe[4 * n - 4..4 * n];
      Peek(StoreWindow(words, base, data, strobe, n), a)
      == if at <= a < at + 4 && lanes[a - at] then ByteAt(data[n - 1], a - at)
         else Peek(StoreWindow(words, base, data, strobe, n - 1), a)
  {
    hide PokeWord, Peek, StoredByte, ByteAt;
    var before, at, lanes := StoreWindow(words, base, data, strobe, n - 1), base + 4 * (n - 1),
      strobe[4 * n - 4..4 * n];
    PeekPokeWord(before, at, data[n - 1], lanes, a);
    StoredNear(before, at, data[n - 1], lanes, a);
  }

  lemma {:induction false} StoredNear(before: WordMap, at: u32, value: u32, lanes: Strobe4, a: u32)
    requires at + 4 <= 0x1_0000_0000
    ensures StoredByte(before, at, value, lanes, a)
         == if at <= a < at + 4 && lanes[a - at] then ByteAt(value, a - at) else Peek(before, a)
  {
    NearOrFar(at, a);
  }

  lemma {:induction false} LaneOfWord(data: seq<u32>, j: nat, word: nat, lane: nat)
    requires lane < 4 && j == 4 * word + lane && word < |data|
    ensures LaneByte(data, j) == ByteAt(data[word], lane)
  {
    assert j / 4 == word && j % 4 == lane;
  }

  lemma {:induction false} NearOrFar(at: u32, a: u32)
    requires at + 4 <= 0x1_0000_0000
    ensures Distance(at, a) < 4 <==> at <= a < at + 4
    ensures at <= a < at + 4 ==> Distance(at, a) == a - at
  {
  }

  lemma {:induction false} ByteOfReadWindow(words: WordMap, base: u32, n: nat, j: nat)
    requires base % 4 == 0 && base + 4 * n <= 0x1_0000_0000 && j < 4 * n
    ensures LaneByte(ReadWindow(words, base, n), j) == Peek(words, base + j)
  {
    assert (base + j) / 4 == base / 4 + j / 4 && (base + j) % 4 == j % 4;
  }

  // ----- drive -----

  /** The state predicate every reachable slave satisfies. */
  predicate Inv(s: Slave) {
    && BusWidth(s.bus) && |s.contexts| == 2 && 4 * |s.readData| == s.bus && s.readSelectedId < 2
    && ReadBounded(s.contexts[0]) && ReadBounded(s.contexts[1])
    && (s.readDataValid ==> s.contexts[s.readSelectedId].active)
    && !(s.writeActive && s.writeResponseValid)
    && (s.writeActive ==> s.writeBeat <= s.writeLength)
    && 1 <= s.writeSize <= 128 && s.writeAddress < 0x1_0000_0000 + s.writeBeat * 128
  }

  /** Beat counters stay within the burst and addresses below 2^33, so neither the 8-bit
      counters nor the 64-bit additions ever wrap. */
  predicate ReadBounded(r: ReadTransaction) {
    r.beat <= r.length && 1 <= r.size <= 128 && r.address < 0x1_0000_0000 + r.beat * 128
  }

  function Chosen(s: Slave): nat
    requires Inv(s)
  {
    if s.contexts[0].active then 0 else 1
  }

  predicate Latches(s: Slave, coins: Coins)
    requires Inv(s)
  {
    && (s.contexts[0].active || s.contexts[1].active) && !s.readDataValid
    && (s.contexts[Chosen(s)].beat != 0 || coins.latch)
  }

  /** A beat as it is put on the R channel. */
  datatype Beat = Beat(response: byte, data: seq<u32>)

  function WordOnBus(bus: nat, address: u32, data: u32): seq<u32>
    requires BusWidth(bus)
  {
    Silence(bus)[address % bus / 4 := data]
  }

  function DeviceBeat(bus: nat, d: Devices, address: nat, size: nat, length: byte): Beat
    requires BusWidth(bus)
  {
    var r := BusLoad(d, Low32(address), size);
    if length != 0 || !r.ok then Beat(SLVERR, Silence(bus))
    else
      assert r.data < TWO32 by { BusDataBound(d, Low32(address), size); }
      Beat(OKAY, WordOnBus(bus, Low32(address), r.data))
  }

  lemma {:induction false} BusDataBound(d: Devices, address: u32, size: nat)
    ensures BusLoad(d, address, size).data < TWO32
  {
    if BusLoad(d, address, size).ok {
      AlignedLanes(address, size);
      ByteOnLanes(address % 4, LoadRun(d, address, size).bytes, 0);
      WidthBound(address % 4 + size);
    }
  }

  function DevicesAfterRead(d: Devices, address: nat, size: nat, length: byte): Devices {
    if length != 0 then d else BusLoad(d, Low32(address), size).after
  }

  function ReadBeat(bus: nat, words: WordMap, devices: Option<Devices>, r: ReadTransaction): (b: Beat)
    requires BusWidth(bus)
    ensures 4 * |b.data| == bus
  {
    match ReadTarget(devices.Some?, r.address, r.size)
    case ToDevice => DeviceBeat(bus, devices.value, r.address, r.size, r.length)
    case ToWriteCombine => Beat(OKAY, Silence(bus))
    case Nowhere => Beat(DECERR, Silence(bus))
    case ToMemory => Beat(OKAY, ReadWindow(words, WindowBase(bus, Low32(r.address)), bus / 4))
  }

  function DevicesAfter(devices: Option<Devices>, r: ReadTransaction): Option<Devices> {
    if ReadTarget(devices.Some?, r.address, r.size) == ToDevice
    then Some(DevicesAfterRead(devices.value, r.address, r.size, r.length)) else devices
  }

  function Latch(s: Slave): Slave
    requires Inv(s)
  {
    var r := s.contexts[Chosen(s)];
    var b := ReadBeat(s.bus, s.words, s.devices, r);
    s.(readSelectedId := Chosen(s), readDataValid := true, readData := b.data, readResponse := b.response,
       devices := DevicesAfter(s.devices, r))
  }

  function Latched(s: Slave, coins: Coins): Slave
    requires Inv(s)
  {
    if Latches(s, coins) then Latch(s) else s
  }

  /** The outputs of a slave that has latched, if it was going to. */
  function Present(s: Slave, arId: byte, coins: Coins): Outputs
    requires Inv(s)
  {
    var selected := s.contexts[s.readSelectedId];
    Outputs(
      arId < 2 && !s.contexts[arId].active && coins.ar,
      s.readDataValid, s.readSelectedId, s.readData, s.readResponse,
      s.readDataValid && selected.beat == selected.length,
      !s.writeActive && !s.writeResponseValid && coins.aw,
      s.writeActive && (s.writeBeat != 0 || coins.w),
      s.writeResponseValid, s.writeId, s.writeResponse)
  }

  lemma {:induction false} LatchKeepsInv(s: Slave, coins: Coins)
    requires Inv(s)
    ensures Inv(Latched(s, coins))
  {
  }

  function Drive(s: Slave, arId: byte, coins: Coins): (Slave, Outputs)
    requires Inv(s)
  {
    LatchKeepsInv(s, coins);
    (Latched(s, coins), Present(Latched(s, coins), arId, coins))
  }

  // ----- update -----

  function AcceptAr(s: Slave, m: Master): Slave
    requires Inv(s) && m.Fits(s.bus) && m.arId < 2
  {
    s.(contexts := s.contexts[m.arId := ReadTransaction(true, m.arAddress, BeatBytes(m.arSize), m.arLength, 0)])
  }

  /** The read transaction after one of its beats has been taken. */
  function AfterBeat(r: ReadTransaction): ReadTransaction
    requires ReadBounded(r)
  {
    if r.beat == r.length then r.(active := false) else r.(beat := r.beat + 1, address := r.address + r.size)
  }

  function TakeR(s: Slave): Slave
    requires Inv(s)
  {
    var id := s.readSelectedId;
    s.(readDataValid := false, contexts := s.contexts[id := AfterBeat(s.contexts[id])])
  }

  function AcceptAw(s: Slave, m: Master): Slave
    requires Inv(s) && m.Fits(s.bus)
  {
    s.(writeActive := true, writeAddress := m.awAddress, writeLength := m.awLength, writeSize := BeatBytes(m.awSize),
       writeId := m.awId, writeBeat := 0, writeResponse := OKAY)
  }

  function NarrowData(bus: nat, address: u32, data: seq<u32>): u32
    requires BusWidth(bus) && 4 * |data| == bus
  {
    data[address % bus / 4]
  }

  function NarrowStrobe(bus: nat, address: u32, strobe: seq<bool>): Strobe4
    requires BusWidth(bus) && |strobe| == bus
  {
    var lane := address % bus / 4 * 4;
    strobe[lane..lane + 4]
  }

  datatype Stored = Stored(words: WordMap, devices: Option<Devices>, verdict: byte)

  /** One W beat: what it does to memory and devices, and the response it asks for. */
  function StoreBeat(bus: nat, words: WordMap, devices: Option<Devices>, address: u32, size: nat, length: byte,
    data: seq<u32>, strobe: seq<bool>): Stored
    requires BusWidth(bus) && 4 * |data| == bus && |strobe| == bus
  {
    match WriteTarget(devices.Some?, address, size, length)
    case ToMemory => Stored(StoreWindow(words, WindowBase(bus, address), data, strobe, |data|), devices, OKAY)
    case ToWriteCombine => Stored(StoreWindow(words, WindowBase(bus, address), data, strobe, |data|), devices, OKAY)
    case ToDevice =>
      if length != 0 then Stored(words, devices, SLVERR)
      else
        var w := BusStore(devices.value, address, NarrowData(bus, address, data), NarrowStrobe(bus, address, strobe));
        Stored(words, Some(w.after), if w.ok then OKAY else SLVERR)
    case Nowhere => Stored(words, devices, DECERR)
  }

  function AcceptW(s: Slave, m: Master): Slave
    requires Inv(s) && s.writeActive && m.Fits(s.bus)
  {
    var address := Low32(s.writeAddress);
    var stored := StoreBeat(s.bus, s.words, s.devices, address, s.writeSize, s.writeLength, m.wData, m.wStrobe);
    var done := m.wLast || s.writeBeat == s.writeLength;
    s.(words := stored.words, devices := stored.devices,
       exit := match s.exit
         case None => None
         case Some(e) => Some(Follow(e, address, NarrowData(s.bus, address, m.wData),
           NarrowStrobe(s.bus, address, m.wStrobe))),
       writeResponse := if stored.verdict == OKAY then s.writeResponse else stored.verdict,
       writeActive := !done,
       writeResponseValid := if done then true else s.writeResponseValid,
       writeBeat := if done then s.writeBeat else s.writeBeat + 1,
       writeAddress := if done then s.writeAddress else s.writeAddress + s.writeSize)
  }

  function ExitReport(s: Slave, m: Master): Option<int>
    requires Inv(s) && m.Fits(s.bus)
  {
    var address := Low32(s.writeAddress);
    match s.exit
    case None => None
    case Some(e) => Report(e, address, NarrowData(s.bus, address, m.wData), NarrowStrobe(s.bus, address, m.wStrobe))
  }

  predicate ArShake(m: Master, o: Outputs) { m.arValid && o.arReady }
  predicate RShake(m: Master, o: Outputs) { o.rValid && m.rReady }
  predicate AwShake(m: Master, o: Outputs) { m.awValid && o.awReady }
  predicate WShake(m: Master, o: Outputs) { m.wValid && o.wReady }
  predicate BShake(m: Master, o: Outputs) { o.bValid && m.bReady }

  /** Outputs that agree with the state they are consumed in. */
  predicate Agree(s: Slave, m: Master, o: Outputs)
    requires Inv(s)
  {
    && (o.arReady ==> m.arId < 2 && !s.contexts[m.arId].active)
    && o.rValid == s.readDataValid
    && (o.awReady ==> !s.writeActive && !s.writeResponseValid)
    && (o.wReady ==> s.writeActive)
    && o.bValid == s.writeResponseValid
  }

  lemma {:induction false} DriveAgrees(s: Slave, m: Master, coins: Coins)
    requires Inv(s)
    ensures var (driven, o) := Drive(s, m.arId, coins); Inv(driven) && Agree(driven, m, o)
  {
    LatchKeepsInv(s, coins);
  }

  function AfterAr(s: Slave, m: Master, o: Outputs): (t: Slave)
    requires Inv(s) && m.Fits(s.bus) && Agree(s, m, o)
    ensures Inv(t) && t.bus == s.bus
  {
    if ArShake(m, o) then AcceptAr(s, m) else s
  }

  function AfterR(s: Slave, m: Master, o: Outputs): (t: Slave)
    requires Inv(s) && m.Fits(s.bus) && o.rValid == s.readDataValid
    ensures Inv(t) && t.bus == s.bus
  {
    if RShake(m, o) then TakeR(s) else s
  }

  function AfterAw(s: Slave, m: Master, o: Outputs): (t: Slave)
    requires Inv(s) && m.Fits(s.bus) && (o.awReady ==> !s.writeActive && !s.writeResponseValid)
    ensures Inv(t) && t.bus == s.bus
  {
    if AwShake(m, o) then AcceptAw(s, m) else s
  }

  function AfterW(s: Slave, m: Master, o: Outputs): (t: Slave)
    requires Inv(s) && m.Fits(s.bus) && (o.wReady ==> s.writeActive)
    ensures Inv(t) && t.bus == s.bus
  {
    if WShake(m, o) then AcceptW(s, m) else s
  }

  /** Update stops before the B handshake when the test exits. */
  function Update(s: Slave, m: Master, o: Outputs): (r: (Slave, Option<int>))
    requires Inv(s) && m.Fits(s.bus) && Agree(s, m, o)
    ensures Inv(r.0) && r.0.bus == s.bus
  {
    var t := AfterAw(AfterR(AfterAr(s, m, o), m, o), m, o);
    var report := if WShake(m, o) then ExitReport(t, m) else None;
    var u := AfterW(t, m, o);
    (if report.None? && BShake(m, o) then u.(writeResponseValid := false) else u, report)
  }

  // ----- a cycle of the simulation -----

  /** One pass of the main loop's bus part: UART text arrives, the slave drives, the
      master answers, the slave updates, the timer ticks. */
  datatype Cycle = Cycle(text: seq<byte>, master: Master, coins: Coins)

  function Arrival(devices: Option<Devices>, text: seq<byte>): Option<Devices> {
    match devices case None => None case Some(d) => Some(Perform(d, Arrive(text)))
  }

  function Ticked(devices: Option<Devices>): Option<Devices> {
    match devices case None => None case Some(d) => Some(Tick(d))
  }

  datatype Observed = Observed(text: seq<byte>, master: Master, outputs: Outputs)

  function StepOutputs(s: Slave, c: Cycle): Outputs
    requires Inv(s)
  {
    Drive(s.(devices := Arrival(s.devices, c.text)), c.master.arId, c.coins).1
  }

  function Step(s: Slave, c: Cycle): (r: (Slave, Option<int>))
    requires Inv(s) && c.master.Fits(s.bus)
    ensures Inv(r.0) && r.0.bus == s.bus
  {
    var ready := s.(devices := Arrival(s.devices, c.text));
    DriveAgrees(ready, c.master, c.coins);
    var (driven, o) := Drive(ready, c.master.arId, c.coins);
    var (after, report) := Update(driven, c.master, o);
    (after.(devices := Ticked(after.devices)), report)
  }

  predicate CyclesFit(bus: nat, cycles: seq<Cycle>) {
    forall i :: 0 <= i < |cycles| ==> cycles[i].master.Fits(bus)
  }

  /** The channel activity of a whole run. */
  function Run(s: Slave, cycles: seq<Cycle>): (trace: seq<Observed>)
    requires Inv(s) && CyclesFit(s.bus, cycles)
    ensures |trace| == |cycles|
    decreases |cycles|
  {
    if cycles == [] then []
    else
      [Observed(cycles[0].text, cycles[0].master, StepOutputs(s, cycles[0]))]
      + Run(Step(s, cycles[0]).0, cycles[1..])
  }

  function StateAfter(s: Slave, cycles: seq<Cycle>): (t: Slave)
    requires Inv(s) && CyclesFit(s.bus, cycles)
    ensures Inv(t) && t.bus == s.bus
    decreases |cycles|
  {
    if cycles == [] then s else StateAfter(Step(s, cycles[0]).0, cycles[1..])
  }

  /** The state the constructor sets up. */
  function NewSlave(bus: nat, words: WordMap, devices: Option<Devices>, exit: Option<Exit>): (s: Slave)
    requires BusWidth(bus)
    ensures Inv(s)
  {
    var idle := ReadTransaction(false, 0, 4, 0, 0);
    Slave(bus, [idle, idle], false, Silence(bus), 0, OKAY,
      false, false, 0, 4, 0, 0, 0, OKAY, words, devices, exit)
  }
}
