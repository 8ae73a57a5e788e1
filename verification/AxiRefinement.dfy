/** Every run of the slave, against any master and any backpressure, is accepted by the
    scoreboard: the slave refines a plain byte memory with devices and keeps the AXI4
    channel rules. */
module AxiRefinement {
  import opened Words
  import opened Memory
  import opened Platform
  import opened ExitMonitor
  import opened AxiSlave
  import opened AxiScoreboard

  // ----- the simulation relation -----

  /** A read context and the scoreboard's job for the same id. */
  predicate TracksRead(r: ReadTransaction, job: Option<ReadJob>) {
    && (r.active <==> job.Some?)
    && (job.Some? ==>
          r.address == job.value.Address() && r.size == job.value.size && r.length == job.value.length
          && r.beat == job.value.delivered)
  }

  ghost predicate TracksReads(s: Slave, b: Board)
    requires Inv(s) && Sound(b)
  {
    && TracksRead(s.contexts[0], b.jobs[0]) && TracksRead(s.contexts[1], b.jobs[1])
    && (s.readDataValid <==> b.held.Some?)
    && (s.readDataValid ==>
          var r := s.contexts[s.readSelectedId];
          b.held.value == Payload(s.readSelectedId, s.readData, s.readResponse, r.beat == r.length))
  }

  ghost predicate TracksWrite(s: Slave, b: Board) {
    && (s.writeActive <==> b.writeJob.Some?)
    && (s.writeActive ==>
          var job := b.writeJob.value;
          s.writeId == job.id && s.writeAddress == job.start + |job.verdicts| * job.size && s.writeSize == job.size
          && s.writeLength == job.length && s.writeBeat == |job.verdicts| && s.writeResponse == Summary(job.verdicts))
    && (s.writeResponseValid <==> b.response.Some?)
    && (s.writeResponseValid ==> b.response.value == (s.writeId, s.writeResponse))
  }

  ghost predicate TracksMemory(s: Slave, b: Board)
    requires Sound(b)
  {
    && s.devices == b.devices
    && forall a: u32 :: Peek(s.words, a) == LastByte(b.bus, b.initial, b.log, a)
  }

  ghost predicate Tracks(s: Slave, b: Board) {
    Inv(s) && Sound(b) && s.bus == b.bus && TracksReads(s, b) && TracksWrite(s, b) && TracksMemory(s, b)
  }

  // ----- drive -----

  lemma {:induction false} WindowIsFresh(s: Slave, b: Board, address: u32, j: nat)
    requires Tracks(s, b) && j < b.bus
    ensures var base := WindowBase(s.bus, address);
      base % 4 == 0 && base + 4 * (s.bus / 4) <= 0x1_0000_0000
      && LaneByte(ReadWindow(s.words, base, s.bus / 4), j) == LastByte(b.bus, b.initial, b.log, base + j)
  {
    hide LastByte, Peek, TracksReads, TracksWrite;
    BaseIsWord(s.bus, address);
    ByteOfReadWindow(s.words, WindowBase(s.bus, address), s.bus / 4, j);
  }

  /** A freshly latched beat is what memory and devices hold at that moment. */
  lemma {:induction false} LatchIsFresh(s: Slave, b: Board, o: Outputs)
    requires Tracks(s, b) && !s.readDataValid && s.contexts[Chosen(s)].active
    requires o.rId == Chosen(s)
    requires var beat := ReadBeat(s.bus, s.words, s.devices, s.contexts[Chosen(s)]);
      o.rData == beat.data && o.rResponse == beat.response
    ensures FreshBeat(b, b.jobs[o.rId].value, o)
  {
    hide LastByte, Peek, BusLoad, IsRam, IsDevice, IsWriteCombine, LaneByte, ReadWindow, TracksWrite, WindowBase, Low32;
    var r := s.contexts[o.rId];
    if ReadTarget(s.devices.Some?, r.address, r.size) == ToMemory {
      forall j | 0 <= j < b.bus { WindowIsFresh(s, b, Low32(r.address), j); }
    }
  }

  /** The scoreboard's view of the slave between drive and update: a presented beat that
      was not held before has had its read side effect. */
  ghost predicate TracksDriven(s: Slave, b: Board, m: Master, o: Outputs)
  {
    && Inv(s) && Sound(b) && s.bus == b.bus && Agree(s, m, o)
    && TracksRead(s.contexts[0], b.jobs[0]) && TracksRead(s.contexts[1], b.jobs[1])
    && (o.rValid ==>
          o.rId == s.readSelectedId && o.rData == s.readData && o.rResponse == s.readResponse
          && (o.rLast <==> s.contexts[o.rId].beat == s.contexts[o.rId].length))
    && (b.held.Some? ==> o.rValid)
    && TracksWrite(s, b) && TracksMemory(s, b)
  }

  lemma {:induction false} DriveIsCorrect(s: Slave, b: Board, m: Master, coins: Coins)
    requires Tracks(s, b)
    ensures var (driven, o) := Drive(s, m.arId, coins);
      Inv(driven) && Correct(b, m, o) && TracksDriven(driven, SeeLatch(b, o), m, o)
  {
    hide FreshBeat, LastByte, Peek, ReadBeat, DevicesAfterRead, BusLoad, IsRam, IsDevice, IsWriteCombine, Summary;
    LatchKeepsInv(s, coins);
    var (driven, o) := Drive(s, m.arId, coins);
    if Latches(s, coins) {
      LatchIsFresh(s, b, o);
    }
  }

  // ----- update, handshake by handshake -----

  lemma {:induction false} ArTracks(s: Slave, b: Board, m: Master, o: Outputs)
    requires TracksDriven(s, b, m, o) && m.Fits(s.bus)
    ensures TracksDriven(AfterAr(s, m, o), SeeAr(b, m, o), m, o.(arReady := false))
  {
    hide LastByte, Peek, Summary;
  }

  lemma {:induction false} NextBeatAddress(start: nat, k: nat, size: nat)
    ensures start + (k + 1) * size == start + k * size + size
  {
  }

  lemma {:induction false} TakenBeatTracks(r: ReadTransaction, job: ReadJob)
    requires ReadBounded(r) && TracksRead(r, Some(job))
    ensures var next := if job.delivered >= job.length then None else Some(job.(delivered := job.delivered + 1));
      TracksRead(AfterBeat(r), next)
  {
    NextBeatAddress(job.start, job.delivered, job.size);
  }

  lemma {:induction false} PresentedHasJob(s: Slave, b: Board, m: Master, o: Outputs)
    requires TracksDriven(s, b, m, o) && o.rValid
    ensures b.jobs[o.rId].Some? && o.rId < 2
    ensures o.rLast <==> b.jobs[o.rId].value.delivered == b.jobs[o.rId].value.length
  {
  }

  lemma {:induction false} RTracks(s: Slave, b: Board, m: Master, o: Outputs)
    requires TracksDriven(s, b, m, o) && m.Fits(s.bus)
    ensures var t, c := AfterR(s, m, o), SeeR(b, m, o);
      Sound(c) && c.bus == b.bus && TracksReads(t, c) && TracksWrite(t, c) && TracksMemory(t, c)
  {
    hide LastByte, Peek, Summary, TracksRead, AfterBeat;
    if o.rValid {
      PresentedHasJob(s, b, m, o);
      if m.rReady { TakenBeatTracks(s.contexts[o.rId], b.jobs[o.rId].value); }
    }
  }

  lemma {:induction false} AwTracks(s: Slave, b: Board, m: Master, o: Outputs)
    requires Tracks(s, b) && m.Fits(s.bus) && (o.awReady ==> !s.writeActive && !s.writeResponseValid)
    ensures Tracks(AfterAw(s, m, o), SeeAw(b, m, o))
  {
    hide LastByte, Peek;
  }

  /** A W beat has the verdict that its target and strobes call for, and a refused beat
      leaves memory and devices as they were. */
  lemma {:induction false} BeatVerdict(bus: nat, words: WordMap, devices: Option<Devices>, address: u32, size: nat,
    length: byte, data: seq<u32>, strobe: seq<bool>)
    requires BusWidth(bus) && 4 * |data| == bus && |strobe| == bus
    ensures var stored := StoreBeat(bus, words, devices, address, size, length, data, strobe);
      && stored.verdict == Verdict(bus, devices.Some?, address, size, length, strobe)
      && (stored.verdict != OKAY ==> stored.words == words && stored.devices == devices)
  {
    hide StoreWindow, IsRam, IsDevice, IsWriteCombine, Decoded, BusStore;
    if devices.Some? {
      BusStoreAllOrNothing(devices.value, address, NarrowData(bus, address, data), NarrowStrobe(bus, address, strobe));
    }
  }

  lemma {:induction false} StoreIsLogged(b: Board, words: WordMap, w: StoreEvent, a: u32)
    requires Sound(b) && w.Sound(b.bus)
    requires Peek(words, a) == LastByte(b.bus, b.initial, b.log, a)
    ensures Peek(StoreWindow(words, w.base, w.data, w.strobe, |w.data|), a)
         == LastByte(b.bus, b.initial, b.log + [w], a)
  {
    hide Peek, StoreWindow;
    PeekStoreWindow(words, w.base, w.data, w.strobe, |w.data|, a);
    assert (b.log + [w])[..|b.log|] == b.log;
  }

  lemma {:induction false} StoreTracks(s: Slave, b: Board, m: Master, o: Outputs)
    requires Tracks(s, b) && m.Fits(s.bus) && s.writeActive && WShake(m, o)
    ensures TracksMemory(AcceptW(s, m), SeeW(b, m, o))
  {
    hide Peek, LastByte, StoreWindow, BusStore, IsRam, IsDevice, IsWriteCombine, Verdict, Summary, Follow;
    var job := b.writeJob.value;
    var a := job.Address();
    if GoesToMemory(WriteTarget(b.devices.Some?, a, job.size, job.length)) {
      var w := StoreEvent(WindowBase(b.bus, a), m.wData, m.wStrobe);
      forall c: u32
        ensures Peek(AcceptW(s, m).words, c) == LastByte(b.bus, b.initial, b.log + [w], c)
      {
        StoreIsLogged(b, s.words, w, c);
      }
    }
  }

  lemma {:induction false} SummaryStep(verdicts: seq<byte>, v: byte)
    ensures Summary(verdicts + [v]) == if v == OKAY then Summary(verdicts) else v
  {
    assert (verdicts + [v])[..|verdicts|] == verdicts;
  }

  lemma {:induction false} WTracks(s: Slave, b: Board, m: Master, o: Outputs)
    requires Tracks(s, b) && m.Fits(s.bus) && (o.wReady ==> s.writeActive)
    ensures Tracks(AfterW(s, m, o), SeeW(b, m, o))
  {
    hide Peek, LastByte, StoreBeat, BusStore, WriteTarget, Verdict, Summary, Follow;
    if WShake(m, o) {
      StoreTracks(s, b, m, o);
      var job := b.writeJob.value;
      BeatVerdict(s.bus, s.words, s.devices, Low32(s.writeAddress), s.writeSize, s.writeLength, m.wData, m.wStrobe);
      SummaryStep(job.verdicts, Verdict(b.bus, b.devices.Some?, job.Address(), job.size, job.length, m.wStrobe));
      NextBeatAddress(job.start, |job.verdicts|, job.size);
    }
  }


  // ----- one cycle, and every run -----

  /** The early return of update on a test exit cannot drop a B handshake: no cycle takes
      a W beat and has B valid. */
  lemma {:induction false} ExitNeverDropsB(s: Slave, m: Master, o: Outputs)
    requires Inv(s) && m.Fits(s.bus) && Agree(s, m, o)
    ensures !(WShake(m, o) && BShake(m, o))
    ensures Update(s, m, o).0 == Taken(AfterW(AfterAw(AfterR(AfterAr(s, m, o), m, o), m, o), m, o), m, o)
  {
    hide AcceptAr, TakeR, AcceptAw, AcceptW, ExitReport;
  }

  /** The B handshake, taken unconditionally. */
  function Taken(s: Slave, m: Master, o: Outputs): Slave {
    if BShake(m, o) then s.(writeResponseValid := false) else s
  }

  lemma {:induction false} BTracks(s: Slave, b: Board, m: Master, o: Outputs)
    requires Tracks(s, b) && (BShake(m, o) ==> s.writeResponseValid)
    ensures Tracks(Taken(s, m, o), SeeB(b, m, o))
  {
    hide Peek, LastByte, Summary, TracksRead;
  }

  lemma {:induction false} UpdateTracks(s: Slave, b: Board, m: Master, o: Outputs)
    requires TracksDriven(s, b, m, o) && m.Fits(s.bus)
    ensures Tracks(Update(s, m, o).0, SeeB(SeeW(SeeAw(SeeR(SeeAr(b, m, o), m, o), m, o), m, o), m, o))
  {
    hide Peek, LastByte, Summary, TracksRead, AcceptAr, TakeR, AcceptAw, AcceptW, ExitReport, SeeAr, SeeR, SeeAw, SeeW,
      SeeB, TracksMemory, TracksReads, TracksWrite;
    ExitNeverDropsB(s, m, o);
    ArTracks(s, b, m, o);
    var s1, b1 := AfterAr(s, m, o), SeeAr(b, m, o);
    SameR(s1, b1, m, o);
    RTracks(s1, b1, m, o.(arReady := false));
    var s2, b2 := AfterR(s1, m, o), SeeR(b1, m, o);
    WriteSideKept(s, m, o);
    AwTracks(s2, b2, m, o);
    var s3, b3 := AfterAw(s2, m, o), SeeAw(b2, m, o);
    WTracks(s3, b3, m, o);
    BTracks(AfterW(s3, m, o), SeeW(b3, m, o), m, o);
  }

  lemma {:induction false} SameR(s: Slave, b: Board, m: Master, o: Outputs)
    requires Inv(s) && Sound(b) && m.Fits(s.bus) && o.rValid == s.readDataValid
    ensures AfterR(s, m, o) == AfterR(s, m, o.(arReady := false)) && SeeR(b, m, o) == SeeR(b, m, o.(arReady := false))
  {
  }

  /** The read-side handshakes do not touch the write side, and B stays valid until taken. */
  lemma {:induction false} WriteSideKept(s: Slave, m: Master, o: Outputs)
    requires Inv(s) && m.Fits(s.bus) && Agree(s, m, o)
    ensures var t := AfterR(AfterAr(s, m, o), m, o);
      && t.writeActive == s.writeActive && t.writeResponseValid == s.writeResponseValid
      && (o.wReady ==> AfterAw(t, m, o).writeActive)
      && (BShake(m, o) ==> AfterW(AfterAw(t, m, o), m, o).writeResponseValid)
  {
  }

  lemma {:induction false} TextTracks(s: Slave, b: Board, text: seq<byte>)
    requires Tracks(s, b)
    ensures Tracks(s.(devices := Arrival(s.devices, text)), b.(devices := Arrival(b.devices, text)))
  {
    hide Peek, LastByte, Summary, TracksRead, Perform;
  }

  lemma {:induction false} TickTracks(s: Slave, b: Board)
    requires Tracks(s, b)
    ensures Tracks(s.(devices := Ticked(s.devices)), b.(devices := Ticked(b.devices)))
  {
    hide Peek, LastByte, Summary, TracksRead, Tick;
  }

  lemma {:induction false} StepTracks(s: Slave, b: Board, c: Cycle)
    requires Tracks(s, b) && c.master.Fits(s.bus)
    ensures var e := Observed(c.text, c.master, StepOutputs(s, c));
      Correct(Before(b, e), e.master, e.outputs) && Tracks(Step(s, c).0, See(b, e))
  {
    hide Correct, Drive, Update, SeeLatch, SeeAr, SeeR, SeeAw, SeeW, SeeB, TracksMemory, TracksReads, TracksWrite,
      Arrival, Ticked;
    var e := Observed(c.text, c.master, StepOutputs(s, c));
    TextTracks(s, b, c.text);
    var ready, board := s.(devices := Arrival(s.devices, c.text)), Before(b, e);
    DriveIsCorrect(ready, board, c.master, c.coins);
    var driven := Drive(ready, c.master.arId, c.coins).0;
    UpdateTracks(driven, SeeLatch(board, e.outputs), c.master, e.outputs);
    TickTracks(Update(driven, c.master, e.outputs).0,
      SeeB(SeeW(SeeAw(SeeR(SeeAr(SeeLatch(board, e.outputs), c.master, e.outputs), c.master, e.outputs), c.master,
        e.outputs), c.master, e.outputs), c.master, e.outputs));
  }

  lemma {:induction false} RunIsAccepted(s: Slave, b: Board, cycles: seq<Cycle>)
    requires Tracks(s, b) && CyclesFit(s.bus, cycles)
    ensures TraceFits(b.bus, Run(s, cycles)) && Accepts(b, Run(s, cycles))
    ensures Tracks(StateAfter(s, cycles), SeeAll(b, Run(s, cycles)))
    decreases |cycles|
  {
    hide Correct, Step, See, StepOutputs, Tracks;
    TracksParts(s, b);
    RunFits(s, cycles);
    if cycles != [] {
      StepTracks(s, b, cycles[0]);
      var e := Observed(cycles[0].text, cycles[0].master, StepOutputs(s, cycles[0]));
      RunIsAccepted(Step(s, cycles[0]).0, See(b, e), cycles[1..]);
      assert Run(s, cycles)[1..] == Run(Step(s, cycles[0]).0, cycles[1..]);
    }
  }

  lemma {:induction false} TracksParts(s: Slave, b: Board)
    requires Tracks(s, b)
    ensures Inv(s) && Sound(b) && s.bus == b.bus
  {
  }

  lemma {:induction false} RunFits(s: Slave, cycles: seq<Cycle>)
    requires Inv(s) && CyclesFit(s.bus, cycles)
    ensures TraceFits(s.bus, Run(s, cycles))
    decreases |cycles|
  {
    if cycles != [] { RunFits(Step(s, cycles[0]).0, cycles[1..]); }
  }

  lemma {:induction false} NewTracks(bus: nat, words: WordMap, devices: Option<Devices>, exit: Option<Exit>)
    requires BusWidth(bus)
    ensures Tracks(NewSlave(bus, words, devices, exit), NewBoard(bus, words, devices))
  {
  }

  /** Main refinement theorem. From its initial state, for any image, with or without the
      platform, against any master and under any backpressure, the slave shows on its
      channels exactly what a byte memory and the devices behind correct AXI4 channels
      would show. */
  lemma {:induction false} EveryRunIsAccepted(bus: nat, words: WordMap, devices: Option<Devices>,
    exit: Option<Exit>, cycles: seq<Cycle>)
    requires BusWidth(bus) && CyclesFit(bus, cycles)
    ensures var trace := Run(NewSlave(bus, words, devices, exit), cycles);
      TraceFits(bus, trace) && Accepts(NewBoard(bus, words, devices), trace)
  {
    NewTracks(bus, words, devices, exit);
    RunIsAccepted(NewSlave(bus, words, devices, exit), NewBoard(bus, words, devices), cycles);
  }
}
