/** What the slave does in every cycle of every run, beyond what it must not do: where the beats
    of a write burst go (src/AXIMemory.cc:93-145), and exactly when it is ready and when it has
    something to show (src/AXIMemory.cc:23-70). AxiTraces.EveryBurstIsWhole says where the
    beats of a read burst come from. */
module AxiBeats {
  import opened Words
  import opened Memory
  import opened Platform
  import opened AxiSlave
  import opened AxiScoreboard
  import opened AxiTraces

  function WTaken(): Observed -> bool { (e: Observed) => WShake(e.master, e.outputs) }

  lemma {:induction false} RunSplits(s: Slave, xs: seq<Cycle>, ys: seq<Cycle>)
    requires Inv(s) && CyclesFit(s.bus, xs) && CyclesFit(s.bus, ys)
    ensures CyclesFit(s.bus, xs + ys)
    ensures Run(s, xs + ys) == Run(s, xs) + Run(StateAfter(s, xs), ys)
    ensures StateAfter(s, xs + ys) == StateAfter(StateAfter(s, xs), ys)
    decreases |xs|
  {
    hide Inv, Step, StepOutputs;
    if xs == [] {
      assert xs + ys == ys;
    } else {
      assert (xs + ys)[0] == xs[0] && (xs + ys)[1..] == xs[1..] + ys;
      RunSplits(Step(s, xs[0]).0, xs[1..], ys);
    }
  }

  /** The write registers stand at beat k of this burst. */
  predicate AtBeat(s: Slave, start: u32, size: nat, length: byte, k: nat) {
    s.writeAddress == start + k * size && s.writeSize == size && s.writeLength == length && s.writeBeat == k
  }

  /** An AW begins a burst, and a burst that goes on moves by its W handshakes. */
  predicate Moves(s: Slave, m: Master, o: Outputs, t: Slave)
    requires m.Fits(s.bus)
  {
    if AwShake(m, o) then t.writeActive && AtBeat(t, m.awAddress, BeatBytes(m.awSize), m.awLength, 0)
    else
      t.writeActive ==>
        && s.writeActive && t.writeSize == s.writeSize && t.writeLength == s.writeLength
        && t.writeBeat == (if WShake(m, o) then s.writeBeat + 1 else s.writeBeat)
        && t.writeAddress == if WShake(m, o) then s.writeAddress + s.writeSize else s.writeAddress
  }

  lemma {:induction false} UpdateMovesBurst(s: Slave, m: Master, o: Outputs)
    requires Inv(s) && m.Fits(s.bus) && Agree(s, m, o)
    ensures Moves(s, m, o, Update(s, m, o).0)
  {
    hide StoreBeat, NarrowData, NarrowStrobe, BeatBytes, ExitReport, Low32;
  }

  lemma {:induction false} StepMovesBurst(s: Slave, c: Cycle)
    requires Inv(s) && c.master.Fits(s.bus)
    ensures Moves(s, c.master, StepOutputs(s, c), Step(s, c).0)
  {
    hide Update, ReadBeat, DevicesAfter, BeatBytes;
    var ready := s.(devices := Arrival(s.devices, c.text));
    DriveAgrees(ready, c.master, c.coins);
    var (driven, o) := Drive(ready, c.master.arId, c.coins);
    UpdateMovesBurst(driven, c.master, o);
  }

  /** Until the next AW, a running burst moves by its W handshakes alone. */
  lemma {:induction false} BurstMoves(s: Slave, cycles: seq<Cycle>, start: u32, size: nat, length: byte, k: nat)
    requires Inv(s) && CyclesFit(s.bus, cycles) && Count(Run(s, cycles), AwTaken()) == 0
    requires s.writeActive ==> AtBeat(s, start, size, length, k)
    ensures StateAfter(s, cycles).writeActive ==>
      AtBeat(StateAfter(s, cycles), start, size, length, k + Count(Run(s, cycles), WTaken()))
    decreases |cycles|
  {
    hide Inv, Step, StepOutputs;
    if cycles != [] {
      var t, n := Step(s, cycles[0]).0, if WShake(cycles[0].master, StepOutputs(s, cycles[0])) then k + 1 else k;
      StepMovesBurst(s, cycles[0]);
      assert (k + 1) * size == k * size + size;
      BurstMoves(t, cycles[1..], start, size, length, n);
    }
  }

  /** What a W beat at this address does to memory: the strobed bytes of its bus window. */
  predicate Lands(bus: nat, before: WordMap, after: WordMap, address: u32, m: Master, x: u32)
    requires BusWidth(bus) && m.Fits(bus)
  {
    var base := address - address % bus;
    Peek(after, x)
    == if base <= x < base + bus && m.wStrobe[x - base] then LaneByte(m.wData, x - base) else Peek(before, x)
  }

  predicate BeatStored(s: Slave, t: Slave, m: Master, x: u32)
    requires BusWidth(s.bus) && m.Fits(s.bus)
  {
    var a := Low32(s.writeAddress);
    if GoesToMemory(WriteTarget(s.devices.Some?, a, s.writeSize, s.writeLength))
    then Lands(s.bus, s.words, t.words, a, m, x) else t.words == s.words
  }

  lemma {:induction false} UpdateStores(s: Slave, m: Master, o: Outputs, x: u32)
    requires Inv(s) && m.Fits(s.bus) && Agree(s, m, o) && WShake(m, o)
    ensures s.writeActive && BeatStored(s, Update(s, m, o).0, m, x)
  {
    hide StoreWindow, BeatBytes, ExitReport, BusStore, WriteTarget, Low32, LaneByte, Peek, NarrowData, NarrowStrobe,
      AfterBeat;
    PeekStoreWindow(s.words, WindowBase(s.bus, Low32(s.writeAddress)), m.wData, m.wStrobe, |m.wData|, x);
  }

  lemma {:induction false} BeatLands(s: Slave, c: Cycle, x: u32)
    requires Inv(s) && c.master.Fits(s.bus) && WShake(c.master, StepOutputs(s, c))
    ensures s.writeActive && BeatStored(s, Step(s, c).0, c.master, x)
  {
    hide Latched, Present, Update, Lands, Low32, WriteTarget;
    var ready := s.(devices := Arrival(s.devices, c.text));
    DriveAgrees(ready, c.master, c.coins);
    var (driven, o) := Drive(ready, c.master.arId, c.coins);
    LatchKeepsWrites(ready, c.coins);
    UpdateStores(driven, c.master, o, x);
  }

  lemma {:induction false} LatchKeepsWrites(s: Slave, coins: Coins)
    requires Inv(s)
    ensures var t := Latched(s, coins);
      && t.words == s.words && t.devices.Some? == s.devices.Some? && t.writeActive == s.writeActive
      && t.bus == s.bus && t.writeAddress == s.writeAddress && t.writeSize == s.writeSize
      && t.writeLength == s.writeLength
  {
    hide ReadBeat, DevicesAfterRead;
  }

  /** Every W beat of every run. Say an AW is accepted in cycle i, the next one not before
      cycle l, and a W beat is taken in cycle l after k others. Then k is at most AWLEN and the
      beat goes to AWADDR + k * 2^AWSIZE: to the bus window of this address if it is
      decoded as memory, and to no byte of memory otherwise. */
  lemma {:induction false} EveryWriteBeatLands(bus: nat, words: WordMap, devices: Option<Devices>,
    exit: Option<ExitMonitor.Exit>, cycles: seq<Cycle>, i: nat, l: nat, x: u32)
    requires BusWidth(bus) && CyclesFit(bus, cycles) && i < l < |cycles|
    requires var trace := Run(NewSlave(bus, words, devices, exit), cycles);
      AwTaken()(trace[i]) && Count(trace[i + 1..l], AwTaken()) == 0 && WTaken()(trace[l])
    ensures var s, m := NewSlave(bus, words, devices, exit), cycles[i].master;
      var k := Count(Run(s, cycles)[i + 1..l], WTaken());
      var a: u32 := (m.awAddress + k * Pow2(m.awSize)) % TWO32;
      var before, after := StateAfter(s, cycles[..l]), StateAfter(s, cycles[..l + 1]);
      && k <= m.awLength
      && if GoesToMemory(WriteTarget(before.devices.Some?, a, Pow2(m.awSize), m.awLength))
         then Lands(bus, before.words, after.words, a, cycles[l].master, x) else after.words == before.words
  {
    hide Step, StepOutputs, Run, StateAfter, Count, WriteTarget, Lands;
    var s, m := NewSlave(bus, words, devices, exit), cycles[i].master;
    var first, before := StateAfter(s, cycles[..i]), StateAfter(s, cycles[..l]);
    CycleOf(s, cycles, i);
    CycleOf(s, cycles, l);
    CyclesBetween(s, cycles, i + 1, l);
    StepMovesBurst(first, cycles[i]);
    BeatBytesIsPower(m.awSize);
    BurstMoves(StateAfter(s, cycles[..i + 1]), cycles[i + 1..l], m.awAddress, Pow2(m.awSize), m.awLength, 0);
    BeatLands(before, cycles[l], x);
  }

  lemma {:induction false} CycleOf(s: Slave, cycles: seq<Cycle>, n: nat)
    requires Inv(s) && CyclesFit(s.bus, cycles) && n < |cycles|
    ensures var t, c := StateAfter(s, cycles[..n]), cycles[n];
      && Run(s, cycles)[n] == Observed(c.text, c.master, StepOutputs(t, c))
      && StateAfter(s, cycles[..n + 1]) == Step(t, c).0
  {
    hide Inv, Step, StepOutputs;
    assert cycles == cycles[..n] + cycles[n..] && cycles[..n + 1] == cycles[..n] + [cycles[n]];
    RunSplits(s, cycles[..n], cycles[n..]);
    RunSplits(s, cycles[..n], [cycles[n]]);
    assert cycles[n..][0] == cycles[n] && [cycles[n]][1..] == [];
  }

  lemma {:induction false} CyclesBetween(s: Slave, cycles: seq<Cycle>, i: nat, l: nat)
    requires Inv(s) && CyclesFit(s.bus, cycles) && i <= l <= |cycles|
    ensures Run(s, cycles)[i..l] == Run(StateAfter(s, cycles[..i]), cycles[i..l])
    ensures StateAfter(s, cycles[..l]) == StateAfter(StateAfter(s, cycles[..i]), cycles[i..l])
  {
    hide Inv, Step, StepOutputs, Run, StateAfter;
    assert cycles == cycles[..l] + cycles[l..] && cycles[..l] == cycles[..i] + cycles[i..l];
    RunSplits(s, cycles[..l], cycles[l..]);
    RunSplits(s, cycles[..i], cycles[i..l]);
  }

  // ----- ready and valid -----

  /** Exactly when the signals of a cycle are up, for the registers before it: an address is
      taken if its place is free and granted; a beat is shown if one waits, or a burst of the
      demand reader, else of the prefetcher, is open and its first beat is granted; a W beat is
      taken within a burst, the first if granted; a response is shown as long as one is due. */
  predicate SignalsOf(s: Slave, c: Cycle, o: Outputs)
    requires |s.contexts| == 2
  {
    var id := if s.contexts[0].active then 0 else 1;
    && (o.arReady <==> c.master.arId < 2 && !s.contexts[c.master.arId].active && c.coins.ar)
    && (o.rValid <==> s.readDataValid || (s.contexts[id].active && (s.contexts[id].beat != 0 || c.coins.latch)))
    && (o.rValid ==> o.rId == if s.readDataValid then s.readSelectedId else id)
    && (o.awReady <==> !s.writeActive && !s.writeResponseValid && c.coins.aw)
    && (o.wReady <==> s.writeActive && (s.writeBeat != 0 || c.coins.w))
    && (o.bValid <==> s.writeResponseValid)
  }

  lemma {:induction false} CycleSignals(s: Slave, c: Cycle)
    requires Inv(s)
    ensures SignalsOf(s, c, StepOutputs(s, c))
  {
    hide ReadBeat, DevicesAfter, Arrival;
  }

  /** In every run, and id k is open exactly if one more AR than RLAST of it has been taken. */
  lemma {:induction false} EverySignal(bus: nat, words: WordMap, devices: Option<Devices>,
    exit: Option<ExitMonitor.Exit>, cycles: seq<Cycle>, n: nat)
    requires BusWidth(bus) && CyclesFit(bus, cycles) && n < |cycles|
    ensures var trace := Run(NewSlave(bus, words, devices, exit), cycles);
      var s := StateAfter(NewSlave(bus, words, devices, exit), cycles[..n]);
      && SignalsOf(s, cycles[n], trace[n].outputs)
      && (s.contexts[0].active <==> Count(trace[..n], ArOn(0)) == Count(trace[..n], LastOn(0)) + 1)
      && (s.contexts[1].active <==> Count(trace[..n], ArOn(1)) == Count(trace[..n], LastOn(1)) + 1)
      && (s.writeActive || s.writeResponseValid <==> Count(trace[..n], AwTaken()) == Count(trace[..n], BTaken()) + 1)
  {
    hide Step, StepOutputs, Run, StateAfter, Count, NewSlave, SignalsOf;
    var s0 := NewSlave(bus, words, devices, exit);
    assert s0.bus == bus by { BusOfNew(bus, words, devices, exit); }
    CycleOf(s0, cycles, n);
    CycleSignals(StateAfter(s0, cycles[..n]), cycles[n]);
    assert cycles == cycles[..n] + cycles[n..];
    RunSplits(s0, cycles[..n], cycles[n..]);
    assert Run(s0, cycles)[..n] == Run(s0, cycles[..n]);
    EveryRunConservesTransactions(bus, words, devices, exit, cycles[..n]);
  }

  lemma {:induction false} BusOfNew(bus: nat, words: WordMap, devices: Option<Devices>, exit: Option<ExitMonitor.Exit>)
    requires BusWidth(bus)
    ensures NewSlave(bus, words, devices, exit).bus == bus
  {
  }
}
