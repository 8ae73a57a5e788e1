/** The AXIMemory object of src/AXIMemory.cc: its methods carry out the transition
    function of AxiSlave on the objects they share with the simulator, and draw their
    coins from the generator in the order of the code. */
module AXIMemoryObject {
  import opened Words
  import opened Memory
  import opened Platform
  import opened ExitMonitor
  import opened Rng
  import opened Checkpoint
  import opened AxiSlave
  import opened AxiCheckpoint

  // ----- the draws of one drive -----

  datatype Draws = Draws(coins: Coins, state: bv64)

  function Draw(wanted: bool, state: bv64): (bool, bv64) {
    if wanted then (Granted(Stir(state)), Stir(state)) else (false, state)
  }

  /** A grant is refused to one draw in sixteen: when the low four bits of the upper half of the
      output are zero. */
  lemma {:induction false} GrantedIff(state: bv64)
    ensures Granted(state) <==> Output(state as u64) / 0x1_0000_0000 % 16 != 0
  {
    hide Output;
  }

  /** randomValid is called only while a first beat waits to be presented. */
  predicate WantsCoin(s: Slave)
    requires Inv(s)
  {
    (s.contexts[0].active || s.contexts[1].active) && !s.readDataValid && s.contexts[Chosen(s)].beat == 0
  }

  /** A first beat waits: nothing is on R, and the demand burst, or the prefetch burst if there is
      no demand burst, has not begun. */
  lemma {:induction false} WantsCoinIff(s: Slave)
    requires Inv(s)
    ensures WantsCoin(s) <==>
      !s.readDataValid
      && if s.contexts[0].active then s.contexts[0].beat == 0 else s.contexts[1].active && s.contexts[1].beat == 0
  {
  }

  /** randomReady is called only where the short-circuit operators of drive get to it. */
  function ReadyDraws(s: Slave, arId: byte, latch: bool, state: bv64): (d: Draws)
    requires Inv(s)
    ensures d.coins.latch == latch
  {
    var (ar, s2) := Draw(arId < 2 && !s.contexts[arId].active, state);
    var (aw, s3) := Draw(!s.writeActive && !s.writeResponseValid, s2);
    var (w, s4) := Draw(s.writeActive && s.writeBeat == 0, s3);
    Draws(Coins(latch, ar, aw, w), s4)
  }

  function DrawCoins(s: Slave, arId: byte, state: bv64): Draws
    requires Inv(s)
  {
    var (latch, next) := Draw(WantsCoin(s), state);
    ReadyDraws(s, arId, latch, next)
  }

  function OneFor(wanted: bool): nat { if wanted then 1 else 0 }

  /** The generator is stepped once for each signal whose conditions call for a grant, in the
      order R beat, AR, AW, W; each of them is granted by its own state and no other. */
  lemma {:induction false} DrawsAreInOrder(s: Slave, arId: byte, state: bv64)
    requires Inv(s)
    ensures var d := DrawCoins(s, arId, state);
      var r, ar := OneFor(WantsCoin(s)), OneFor(arId < 2 && !s.contexts[arId].active);
      var aw, w := OneFor(!s.writeActive && !s.writeResponseValid), OneFor(s.writeActive && s.writeBeat == 0);
      && d.state == States(state, r + ar + aw + w)
      && d.coins.latch == (r == 1 && Granted(States(state, 1)))
      && d.coins.ar == (ar == 1 && Granted(States(state, r + 1)))
      && d.coins.aw == (aw == 1 && Granted(States(state, r + ar + 1)))
      && d.coins.w == (w == 1 && Granted(States(state, r + ar + aw + 1)))
  {
    hide Stir, Granted, WantsCoin, Inv;
    StatesUnfold(state);
  }

  lemma {:induction false} StatesUnfold(state: bv64)
    ensures States(state, 0) == state && States(state, 1) == Stir(state)
    ensures States(state, 2) == Stir(Stir(state)) && States(state, 3) == Stir(Stir(Stir(state)))
    ensures States(state, 4) == Stir(Stir(Stir(Stir(state))))
  {
    hide Stir;
  }

  lemma {:induction false} DrawsStayNonzero(s: Slave, arId: byte, state: bv64)
    requires Inv(s) && state != 0
    ensures DrawCoins(s, arId, state).state != 0
  {
    hide Stir, Granted;
    NextIsNonzero(state);
    NextIsNonzero(Stir(state));
    NextIsNonzero(Stir(Stir(state)));
    NextIsNonzero(Stir(Stir(Stir(state))));
  }

  // ----- facts the methods use with the invariant kept closed -----

  lemma {:induction false} Shape(s: Slave)
    requires Inv(s)
    ensures BusWidth(s.bus) && |s.contexts| == 2 && s.readSelectedId < 2 && 4 * |s.readData| == s.bus
    ensures s.writeActive ==> s.writeBeat <= s.writeLength && !s.writeResponseValid
  {
  }

  /** Latching changes the R payload and devices only. */
  predicate SameRest(s: Slave, t: Slave) {
    && s.contexts == t.contexts && s.writeActive == t.writeActive && s.writeResponseValid == t.writeResponseValid
    && s.writeBeat == t.writeBeat
  }

  lemma {:induction false} LatchKeepsRest(s: Slave, coins: Coins)
    requires Inv(s)
    ensures SameRest(s, Latched(s, coins))
  {
  }

  lemma {:induction false} LatchIgnoresReady(s: Slave, latch: bool, coins: Coins)
    requires Inv(s) && coins.latch == latch
    ensures Latched(s, Coins(latch, false, false, false)) == Latched(s, coins)
  {
  }

  lemma {:induction false} SameReadyDraws(s: Slave, t: Slave, arId: byte, latch: bool, state: bv64)
    requires Inv(s) && Inv(t) && SameRest(s, t)
    ensures ReadyDraws(s, arId, latch, state) == ReadyDraws(t, arId, latch, state)
  {
    hide Draw;
  }

  lemma {:induction false} AcceptAwKeepsInv(s: Slave, m: Master)
    requires Inv(s) && m.Fits(s.bus) && !s.writeResponseValid
    ensures Inv(AcceptAw(s, m))
  {
  }

  lemma {:induction false} AcceptWKeepsInv(s: Slave, m: Master)
    requires Inv(s) && s.writeActive && m.Fits(s.bus)
    ensures Inv(AcceptW(s, m))
  {
    hide StoreBeat, Follow;
  }

  lemma {:induction false} HandshakesAgree(s: Slave, m: Master, o: Outputs)
    requires Inv(s) && m.Fits(s.bus) && Agree(s, m, o)
    ensures var s1 := AfterAr(s, m, o);
      && o.rValid == s1.readDataValid
      && var s2 := AfterR(s1, m, o);
         (o.awReady ==> !s2.writeActive && !s2.writeResponseValid)
         && (o.wReady ==> AfterAw(s2, m, o).writeActive)
  {
  }

  class AXIMemory {
    const bus: nat
    const memory: SparseMemory
    const exit: TestExitMonitor?
    const rng: DeterministicRng
    const platform: PlatformDevices?

    var contexts: seq<ReadTransaction>
    var readDataValid: bool
    var readData: seq<u32>
    var readSelectedId: nat
    var readResponse: byte
    var writeActive: bool
    var writeResponseValid: bool
    var writeAddress: nat
    var writeSize: nat
    var writeLength: byte
    var writeBeat: byte
    var writeId: byte
    var writeResponse: byte

    function DeviceState(): Option<Devices>
      reads this, platform
    {
      if platform == null then None else Some(platform.State())
    }

    function ExitState(): Option<Exit>
      reads this, exit
    {
      if exit == null then None else Some(exit.State())
    }

    function ExitField(): ExitSaved
      reads this, exit, rng
    {
      ExitSaved(exit != null, if exit != null then exit.value else 0, rng.state)
    }

    function ReadFields(): ReadSide
      reads this
    {
      ReadSide(readDataValid, readData, readSelectedId, readResponse, contexts)
    }

    function State(): Slave
      reads this, memory, platform, exit
    {
      Slave(bus, contexts, readDataValid, readData, readSelectedId, readResponse,
        writeActive, writeResponseValid, writeAddress, writeSize, writeLength, writeBeat, writeId, writeResponse,
        memory.words, DeviceState(), ExitState())
    }

    ghost predicate Valid()
      reads this, memory, platform, exit, rng
    {
      Inv(State()) && rng.Valid()
    }

    constructor (bus: nat, memory: SparseMemory, tohost: Option<u32>, seed: bv64, platform: PlatformDevices?)
      requires BusWidth(bus) && seed != 0
      ensures Valid() && rng.state == seed && this.memory == memory && this.platform == platform
      ensures fresh(rng) && (exit != null ==> fresh(exit))
      ensures State() == NewSlave(bus, memory.words, if platform == null then None else Some(platform.State()),
        match tohost case None => None case Some(a) => Some(Exit(a, 0)))
    {
      this.bus, this.memory, this.platform := bus, memory, platform;
      rng := new DeterministicRng(seed);
      if tohost.Some? {
        exit := new TestExitMonitor(tohost.value);
      } else {
        exit := null;
      }
      var idle := ReadTransaction(false, 0, 4, 0, 0);
      contexts := [idle, idle];
      readDataValid, readData, readSelectedId, readResponse := false, Silence(bus), 0, OKAY;
      writeActive, writeResponseValid, writeAddress, writeSize := false, false, 0, 4;
      writeLength, writeBeat, writeId, writeResponse := 0, 0, 0, OKAY;
    }

    method RandomBit() returns (granted: bool)
      requires rng.Valid()
      modifies rng
      ensures rng.Valid() && (granted, rng.state) == Draw(true, old(rng.state))
    {
      var v := rng.Next32();
      granted := v % 16 != 0;
    }

    /** A draw that is made only if it is wanted. */
    method RandomBitIf(wanted: bool) returns (granted: bool)
      requires rng.Valid()
      modifies rng
      ensures rng.Valid() && (granted, rng.state) == Draw(wanted, old(rng.state))
    {
      granted := false;
      if wanted { granted := RandomBit(); }
    }

    method Drive(arId: byte) returns (o: Outputs)
      requires Valid()
      modifies this, memory, platform, exit, rng
      ensures Valid() && memory.words == old(memory.words)
      ensures var draws := DrawCoins(old(State()), arId, old(rng.state));
        (State(), o) == AxiSlave.Drive(old(State()), arId, draws.coins) && rng.state == draws.state
    {
      hide Inv, Latched, Present, ReadyDraws, Draw;
      ghost var s, draws := State(), DrawCoins(State(), arId, rng.state);
      ghost var latch := LatchIfGranted();
      LatchIgnoresReady(s, latch, draws.coins);
      LatchKeepsRest(s, draws.coins);
      SameReadyDraws(s, State(), arId, latch, rng.state);
      o := PresentOutputs(arId, latch);
    }

    /** The first half of drive: present the next read beat if its turn has come. */
    method LatchIfGranted() returns (ghost latch: bool)
      requires Valid()
      modifies this`readSelectedId, this`readDataValid, this`readData, this`readResponse, platform, rng
      ensures Valid() && (latch, rng.state) == Draw(WantsCoin(old(State())), old(rng.state))
      ensures State() == Latched(old(State()), Coins(latch, false, false, false))
    {
      hide Inv, Latch, Draw;
      ghost var s := State();
      Shape(s);
      var chosen := if contexts[0].active then 0 else 1;
      var pending := (contexts[0].active || contexts[1].active) && !readDataValid;
      var go := RandomBitIf(pending && contexts[chosen].beat == 0);
      latch := go;
      if pending && (contexts[chosen].beat != 0 || go) {
        LatchBeat(chosen);
      }
    }

    /** The second half of drive: the output ports. */
    method PresentOutputs(arId: byte, ghost latch: bool) returns (o: Outputs)
      requires Valid()
      modifies rng
      ensures Valid()
      ensures var draws := ReadyDraws(State(), arId, latch, old(rng.state));
        rng.state == draws.state && o == Present(State(), arId, draws.coins)
    {
      hide Stir, Granted;
      var arReady := RandomBitIf(arId < 2 && !contexts[arId].active);
      var awReady := RandomBitIf(!writeActive && !writeResponseValid);
      var wReady := RandomBitIf(writeActive && writeBeat == 0);
      o := Outputs(
        arReady,
        readDataValid, readSelectedId, readData, readResponse,
        readDataValid && contexts[readSelectedId].beat == contexts[readSelectedId].length,
        awReady, writeActive && (writeBeat != 0 || wReady),
        writeResponseValid, writeId, writeResponse);
    }

    /** The body of drive's first if statement. */
    method LatchBeat(chosen: nat)
      requires Valid() && chosen == Chosen(State()) && contexts[chosen].active && !readDataValid
      modifies this`readSelectedId, this`readDataValid, this`readData, this`readResponse, platform
      ensures Valid() && State() == Latch(old(State()))
    {
      hide ReadBeat, DevicesAfter, Inv;
      ghost var s := State();
      Shape(s);
      LatchKeepsInv(s, Coins(true, false, false, false));
      readSelectedId := chosen;
      readDataValid := true;
      readData, readResponse := FetchBeat(contexts[chosen]);
    }

    /** The data and response of a beat, with the side effect of a device read. */
    method FetchBeat(read: ReadTransaction) returns (data: seq<u32>, response: byte)
      requires BusWidth(bus)
      modifies platform
      ensures Beat(response, data) == ReadBeat(bus, memory.words, old(DeviceState()), read)
      ensures DeviceState() == DevicesAfter(old(DeviceState()), read)
    {
      hide IsRam, IsDevice, IsWriteCombine, BusLoad, ReadWindow;
      data, response := Silence(bus), OKAY;
      var address := Low32(read.address);
      if platform != null && IsDevice(read.address, read.size) {
        if read.length != 0 {
          response := SLVERR;
        } else {
          var ok, value := platform.ReadBus(address, read.size);
          if ok {
            data := data[address % bus / 4 := value];
          } else {
            response := SLVERR;
          }
        }
      } else if platform != null && IsWriteCombine(read.address, read.size) {
      } else if platform != null && !IsRam(read.address, read.size) {
        response := DECERR;
      } else {
        BaseIsWord(bus, address);
        data := ReadRam(WindowBase(bus, address));
      }
    }

    /** The bus window read word by word. */
    method ReadRam(base: u32) returns (data: seq<u32>)
      requires BusWidth(bus) && base % 4 == 0 && base + bus <= 0x1_0000_0000
      ensures data == ReadWindow(memory.words, base, bus / 4)
    {
      hide Window, WordAt;
      data := [];
      for word := 0 to bus / 4
        invariant data == ReadWindow(memory.words, base, word)
      {
        var value := memory.Read32(base + 4 * word);
        WordIsWindow(memory.words, base + 4 * word);
        assert (base + 4 * word) / 4 == base / 4 + word;
        data := data + [value];
      }
    }

    method Update(m: Master, o: Outputs) returns (result: Option<int>)
      requires Valid() && m.Fits(bus) && Agree(State(), m, o)
      modifies this, memory, platform, exit
      ensures Valid() && rng.state == old(rng.state)
      ensures (State(), result) == AxiSlave.Update(old(State()), m, o)
    {
      hide Inv, AfterAr, AfterR, AfterAw, AcceptW, ExitReport;
      ghost var s := State();
      TakeAddressesAndReads(m, o);
      HandshakesAgree(s, m, o);
      if m.wValid && o.wReady {
        result := TakeWriteBeat(m);
        if result.Some? { return; }
      }
      if o.bValid && m.bReady {
        DropResponse();
      }
      return None;
    }

    /** The AR, R and AW handshakes of update. */
    method TakeAddressesAndReads(m: Master, o: Outputs)
      requires Valid() && m.Fits(bus) && Agree(State(), m, o)
      modifies this
      ensures Valid() && State() == AfterAw(AfterR(AfterAr(old(State()), m, o), m, o), m, o)
    {
      hide Inv, AcceptAr, TakeR, AcceptAw;
      ghost var s := State();
      HandshakesAgree(s, m, o);
      if m.arValid && o.arReady {
        AcceptReadAddress(m);
      }
      assert State() == AfterAr(s, m, o);
      if o.rValid && m.rReady {
        TakeReadBeat();
      }
      assert State() == AfterR(AfterAr(s, m, o), m, o);
      if m.awValid && o.awReady {
        AcceptWriteAddress(m);
      }
    }

    method DropResponse()
      requires Valid()
      modifies this`writeResponseValid
      ensures Valid() && State() == old(State()).(writeResponseValid := false)
    {
      writeResponseValid := false;
    }

    method AcceptReadAddress(m: Master)
      requires Valid() && m.Fits(bus) && m.arId < 2 && !contexts[m.arId].active
      modifies this`contexts
      ensures Valid() && State() == AcceptAr(old(State()), m)
    {
      contexts := contexts[m.arId := ReadTransaction(true, m.arAddress, BeatBytes(m.arSize), m.arLength, 0)];
    }

    method TakeReadBeat()
      requires Valid()
      modifies this`readDataValid, this`contexts
      ensures State() == TakeR(old(State())) && Valid()
    {
      readDataValid := false;
      var read := contexts[readSelectedId];
      if read.beat == read.length {
        contexts := contexts[readSelectedId := read.(active := false)];
      } else {
        contexts := contexts[readSelectedId := read.(beat := read.beat + 1, address := read.address + read.size)];
      }
    }

    method AcceptWriteAddress(m: Master)
      requires Valid() && m.Fits(bus) && !writeActive && !writeResponseValid
      modifies this`writeActive, this`writeAddress, this`writeLength, this`writeSize, this`writeId, this`writeBeat
      modifies this`writeResponse
      ensures Valid() && State() == AcceptAw(old(State()), m)
    {
      hide BeatBytes, Inv;
      AcceptAwKeepsInv(State(), m);
      writeActive := true;
      writeAddress, writeLength, writeSize := m.awAddress, m.awLength, BeatBytes(m.awSize);
      writeId, writeBeat, writeResponse := m.awId, 0, OKAY;
    }

    /** The W channel part of update. */
    method TakeWriteBeat(m: Master) returns (result: Option<int>)
      requires Valid() && writeActive && m.Fits(bus)
      modifies this`writeActive, this`writeResponseValid, this`writeBeat, this`writeAddress, this`writeResponse
      modifies memory, platform, exit
      ensures Valid() && State() == AcceptW(old(State()), m) && result == ExitReport(old(State()), m)
    {
      hide StoreBeat, Follow, Report, Inv, NarrowStrobe, NarrowData;
      ghost var s := State();
      Shape(s);
      AcceptWKeepsInv(s, m);
      var address := Low32(writeAddress);
      var verdict := StoreWriteBeat(address, m);
      if verdict != OKAY { writeResponse := verdict; }
      result := None;
      if exit != null {
        result := exit.ObserveWrite(address, NarrowData(bus, address, m.wData), NarrowStrobe(bus, address, m.wStrobe));
      }
      AdvanceWrite(m.wLast);
    }

    /** The burst ends with WLAST or its last beat, whichever comes first. */
    method AdvanceWrite(last: bool)
      requires writeActive && writeBeat <= writeLength
      modifies this`writeActive, this`writeResponseValid, this`writeBeat, this`writeAddress
      ensures var done := last || old(writeBeat) == writeLength;
        && writeActive == !done && writeResponseValid == (done || old(writeResponseValid))
        && writeBeat == (if done then old(writeBeat) else old(writeBeat) + 1)
        && writeAddress == (if done then old(writeAddress) else old(writeAddress) + writeSize)
    {
      if last || writeBeat == writeLength {
        writeActive, writeResponseValid := false, true;
      } else {
        writeBeat := writeBeat + 1;
        writeAddress := writeAddress + writeSize;
      }
    }

    /** Where a W beat goes, and the response it asks for. */
    method StoreWriteBeat(address: u32, m: Master) returns (verdict: byte)
      requires BusWidth(bus) && m.Fits(bus)
      modifies memory, platform
      ensures Stored(memory.words, DeviceState(), verdict)
        == StoreBeat(bus, old(memory.words), old(DeviceState()), address, writeSize, writeLength, m.wData, m.wStrobe)
    {
      hide IsRam, IsDevice, IsWriteCombine, BusStore, StoreWindow;
      verdict := OKAY;
      if platform != null && IsWriteCombine(address, writeSize * (writeLength + 1)) {
        WriteRam(WindowBase(bus, address), m.wData, m.wStrobe);
      } else if platform != null && IsDevice(address, writeSize) {
        if writeLength != 0 {
          verdict := SLVERR;
        } else {
          var ok := platform.WriteBus(address, NarrowData(bus, address, m.wData),
            NarrowStrobe(bus, address, m.wStrobe));
          if !ok { verdict := SLVERR; }
        }
      } else if platform != null && !IsRam(address, writeSize) {
        verdict := DECERR;
      } else {
        WriteRam(WindowBase(bus, address), m.wData, m.wStrobe);
      }
    }

    /** The bus window written word by word. */
    method WriteRam(base: u32, data: seq<u32>, strobe: seq<bool>)
      requires base + bus <= 0x1_0000_0000
      requires 4 * |data| == bus && |strobe| == bus
      modifies memory
      ensures memory.words == StoreWindow(old(memory.words), base, data, strobe, |data|)
    {
      hide PokeWord, StoredLanes;
      for word := 0 to |data|
        invariant memory.words == StoreWindow(old(memory.words), base, data, strobe, word)
      {
        memory.Write32(base + 4 * word, data[word], strobe[4 * word..4 * word + 4]);
      }
    }

    method TickTimer()
      requires Valid()
      modifies platform
      ensures Valid() && State() == old(State()).(devices := Ticked(old(DeviceState())))
    {
      if platform != null { platform.TickTimer(); }
    }

    method AppendUartInput(text: seq<byte>)
      requires Valid()
      modifies platform
      ensures Valid() && State() == old(State()).(devices := Arrival(old(DeviceState()), text))
    {
      if platform != null { platform.AppendUartInput(text); }
    }

    function TimerInterrupt(): bool
      reads this, platform
    {
      platform != null && platform.State().TimerInterrupt()
    }

    /** A cycle of the main loop's bus part, with the coins drawn from the generator. */
    method Cycle(text: seq<byte>, m: Master) returns (o: Outputs, result: Option<int>)
      requires Valid() && m.Fits(bus)
      modifies this, memory, platform, exit, rng
      ensures Valid()
      ensures var before := old(State()).(devices := Arrival(old(DeviceState()), text));
        var draws := DrawCoins(before, m.arId, old(rng.state));
        var c := AxiSlave.Cycle(text, m, draws.coins);
        && rng.state == draws.state && o == StepOutputs(old(State()), c) && (State(), result) == Step(old(State()), c)
    {
      hide Inv, Latched, Present, AfterAr, AfterR, AfterAw, AfterW, ExitReport, Perform, Tick, Stir, Granted;
      AppendUartInput(text);
      ghost var ready := State();
      ghost var draws := DrawCoins(ready, m.arId, rng.state);
      DriveAgrees(ready, m, draws.coins);
      o := Drive(m.arId);
      result := Update(m, o);
      TickTimer();
    }

    // ----- checkpointing -----

    method Save(writer: CheckpointWriter)
      requires Valid()
      modifies writer
      ensures forall rest: seq<byte> {:trigger writer.stream + rest} ::
        writer.stream + rest == old(writer.stream) + PutAxi(State(), rng.state, rest)
    {
      hide Inv, PutExit, PutReadSide, PutWriteSide;
      FieldsFit(State());
      assert ExitField() == ExitSavedOf(State(), rng.state) && ReadFields() == ReadSideOf(State());
      SaveExit(writer);
      SaveReadSide(writer);
      SaveWriteSide(writer);
    }

    method SaveExit(writer: CheckpointWriter)
      modifies writer
      ensures forall rest: seq<byte> {:trigger writer.stream + rest} ::
        writer.stream + rest == old(writer.stream) + PutExit(ExitField(), rest)
    {
      hide PutBool, PutU32, PutU64, FieldOf;
      writer.WriteBool(exit != null);
      writer.WriteU32(if exit != null then exit.value else 0);
      writer.WriteU64(FieldOf(rng.state));
    }

    method SaveReadSide(writer: CheckpointWriter)
      requires ReadSideFits(ReadFields())
      modifies writer
      ensures forall rest: seq<byte> {:trigger writer.stream + rest} ::
        writer.stream + rest == old(writer.stream) + PutReadSide(ReadFields(), rest)
    {
      hide PutBool, PutU8, PutU32s, PutRead;
      writer.WriteBool(readDataValid);
      writer.WriteU32s(readData);
      writer.WriteU8(readSelectedId);
      writer.WriteU8(readResponse);
      SaveRead(writer, contexts[0]);
      SaveRead(writer, contexts[1]);
    }

    static method SaveRead(writer: CheckpointWriter, r: ReadTransaction)
      requires r.address < TWO64 && r.size < TWO64
      modifies writer
      ensures forall rest: seq<byte> {:trigger writer.stream + rest} ::
        writer.stream + rest == old(writer.stream) + PutRead(r, rest)
    {
      hide PutBool, PutU8, PutU64;
      writer.WriteBool(r.active);
      writer.WriteU64(r.address);
      writer.WriteU64(r.size);
      writer.WriteU8(r.length);
      writer.WriteU8(r.beat);
    }

    method SaveWriteSide(writer: CheckpointWriter)
      requires writeAddress < TWO64 && writeSize < TWO64
      modifies writer
      ensures forall rest: seq<byte> {:trigger writer.stream + rest} ::
        writer.stream + rest == old(writer.stream) + PutWriteSide(WriteSideOf(State()), rest)
    {
      hide PutBool, PutU8, PutU64;
      writer.WriteBool(writeActive);
      writer.WriteBool(writeResponseValid);
      writer.WriteU64(writeAddress);
      writer.WriteU64(writeSize);
      writer.WriteU8(writeLength);
      writer.WriteU8(writeBeat);
      writer.WriteU8(writeId);
      writer.WriteU8(writeResponse);
    }

    method Restore(reader: CheckpointReader) returns (r: Result<()>)
      requires Valid()
      modifies this, exit, rng, reader
      ensures match GetAxi(old(State()), old(reader.stream))
        case Ok(f) => r == Ok(()) && State() == f.0.0 && rng.state == f.0.1 && reader.stream == f.1
        case Err(e) => r == Err(e)
    {
      hide Inv, GetExit, GetReadSide, GetWriteSide;
      ghost var s := State();
      SplitState(s);
      var _ :- RestoreExit(reader);
      var _ :- RestoreReadSide(reader);
      var _ :- RestoreWriteSide(reader);
      Reassembled(s, State());
      return Ok(());
    }

    method RestoreExit(reader: CheckpointReader) returns (r: Result<()>)
      modifies exit, rng, reader
      ensures match GetExit(exit != null, old(reader.stream))
        case Ok(f) =>
          && r == Ok(()) && ExitState() == RestoredExit(old(ExitState()), f.0) && rng.state == f.0.rng
          && reader.stream == f.1
        case Err(e) => r == Err(e)
    {
      hide GetBool, GetU32, GetU64, StateOf;
      var present :- reader.ReadBool();
      var value :- reader.ReadU32();
      if present != (exit != null) { return Err(TohostMismatch); }
      if exit != null { exit.SetValue(value); }
      var field :- reader.ReadU64();
      r := rng.SetState(StateOf(field));
    }

    method RestoreReadSide(reader: CheckpointReader) returns (r: Result<()>)
      modifies this`readDataValid, this`readData, this`readSelectedId, this`readResponse, this`contexts, reader
      ensures match GetReadSide(bus / 4, old(reader.stream))
        case Ok(f) => r == Ok(()) && ReadFields() == f.0 && reader.stream == f.1
        case Err(e) => r == Err(e)
    {
      hide GetBool, GetU8, GetU32s, GetRead;
      readDataValid :- reader.ReadBool();
      readData :- reader.ReadU32s(bus / 4);
      readSelectedId :- reader.ReadU8();
      readResponse :- reader.ReadU8();
      var demand :- RestoreRead(reader);
      var prefetch :- RestoreRead(reader);
      contexts := [demand, prefetch];
      return Ok(());
    }

    static method RestoreRead(reader: CheckpointReader) returns (r: Result<ReadTransaction>)
      modifies reader
      ensures match GetRead(old(reader.stream))
        case Ok(f) => r == Ok(f.0) && reader.stream == f.1
        case Err(e) => r == Err(e)
    {
      hide GetBool, GetU8, GetU64;
      var active :- reader.ReadBool();
      var address :- reader.ReadU64();
      var size :- reader.ReadU64();
      var length :- reader.ReadU8();
      var beat :- reader.ReadU8();
      return Ok(ReadTransaction(active, address, size, length, beat));
    }

    method RestoreWriteSide(reader: CheckpointReader) returns (r: Result<()>)
      modifies this`writeActive, this`writeResponseValid, this`writeAddress, this`writeSize, this`writeLength,
        this`writeBeat, this`writeId, this`writeResponse, reader
      ensures match GetWriteSide(old(reader.stream))
        case Ok(f) => r == Ok(()) && WriteSideOf(State()) == f.0 && reader.stream == f.1
        case Err(e) => r == Err(e)
    {
      hide GetWritePlace, GetWriteBurst;
      var _ :- RestoreWritePlace(reader);
      r := RestoreWriteBurst(reader);
    }

    method RestoreWritePlace(reader: CheckpointReader) returns (r: Result<()>)
      modifies this`writeActive, this`writeResponseValid, this`writeAddress, this`writeSize, reader
      ensures match GetWritePlace(old(reader.stream))
        case Ok(f) =>
          r == Ok(()) && (writeActive, writeResponseValid, writeAddress, writeSize) == f.0 && reader.stream == f.1
        case Err(e) => r == Err(e)
    {
      hide GetBool, GetU64;
      writeActive :- reader.ReadBool();
      writeResponseValid :- reader.ReadBool();
      writeAddress :- reader.ReadU64();
      writeSize :- reader.ReadU64();
      return Ok(());
    }

    method RestoreWriteBurst(reader: CheckpointReader) returns (r: Result<()>)
      modifies this`writeLength, this`writeBeat, this`writeId, this`writeResponse, reader
      ensures match GetWriteBurst(old(reader.stream))
        case Ok(f) => r == Ok(()) && (writeLength, writeBeat, writeId, writeResponse) == f.0 && reader.stream == f.1
        case Err(e) => r == Err(e)
    {
      hide GetU8;
      writeLength :- reader.ReadU8();
      writeBeat :- reader.ReadU8();
      writeId :- reader.ReadU8();
      writeResponse :- reader.ReadU8();
      return Ok(());
    }
  }
}
