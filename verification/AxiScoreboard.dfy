/** A scoreboard that watches the five AXI channels only: it never looks inside the slave.
    It keeps what a plain byte-addressed memory, a set of devices and the AXI4 channel
    rules (AMBA AXI, IHI 0022, sections A3.2.1 and A3.3) allow the slave to show next, and
    `Correct` says whether what it shows is allowed.

    Three rules are the slave's own: the address of a beat (compared with section A3.4.1 in
    AxiAddresses), the decoder, and the narrow word that a device is given (compared with
    the whole bus window in AxiDevices). */
module AxiScoreboard {
  import opened Words
  import opened Memory
  import opened Platform
  import opened AxiSlave

  /** An accepted AR whose last beat has not been taken yet. */
  datatype ReadJob = ReadJob(start: u32, size: nat, length: byte, delivered: nat) {
    function Address(): nat { start + delivered * size }
  }

  /** An accepted AW with the verdicts on the W beats so far. */
  datatype WriteJob = WriteJob(id: byte, start: u32, size: nat, length: byte, verdicts: seq<byte>) {
    function Address(): u32 { Low32(start + |verdicts| * size) }
  }

  datatype Payload = Payload(id: nat, data: seq<u32>, response: byte, last: bool)

  /** A W beat that went to memory: the bus window, its bytes and their strobes. */
  datatype StoreEvent = StoreEvent(base: u32, data: seq<u32>, strobe: seq<bool>) {
    predicate Sound(bus: nat) {
      base + bus <= 0x1_0000_0000 && 4 * |data| == bus && |strobe| == bus
    }

    predicate Covers(bus: nat, a: u32)
      requires Sound(bus)
    {
      base <= a < base + bus && strobe[a - base]
    }
  }

  datatype Board = Board(
    bus: nat, initial: WordMap, devices: Option<Devices>,
    jobs: seq<Option<ReadJob>>, held: Option<Payload>,
    writeJob: Option<WriteJob>, response: Option<(byte, byte)>,
    log: seq<StoreEvent>)

  ghost predicate Sound(b: Board) {
    && BusWidth(b.bus) && |b.jobs| == 2
    && (forall id :: 0 <= id < 2 && b.jobs[id].Some? ==> b.jobs[id].value.delivered <= b.jobs[id].value.length)
    && (forall i :: 0 <= i < |b.log| ==> b.log[i].Sound(b.bus))
  }

  /** The last strobed byte that W has brought to an address, else the initial image byte. */
  ghost function LastByte(bus: nat, initial: WordMap, log: seq<StoreEvent>, a: u32): byte
    requires forall i :: 0 <= i < |log| ==> log[i].Sound(bus)
  {
    if log == [] then Peek(initial, a)
    else
      var w := log[|log| - 1];
      if w.Covers(bus, a) then LaneByte(w.data, a - w.base) else LastByte(bus, initial, log[..|log| - 1], a)
  }

  /** The B response of a burst: the verdict on its last refused beat, if there is one. */
  function Summary(verdicts: seq<byte>): byte {
    if verdicts == [] then OKAY
    else if verdicts[|verdicts| - 1] != OKAY then verdicts[|verdicts| - 1]
    else Summary(verdicts[..|verdicts| - 1])
  }

  lemma {:induction false} OkayIffEveryBeatAccepted(verdicts: seq<byte>)
    ensures Summary(verdicts) == OKAY <==> forall i :: 0 <= i < |verdicts| ==> verdicts[i] == OKAY
  {
    if verdicts != [] {
      var n := |verdicts| - 1;
      OkayIffEveryBeatAccepted(verdicts[..n]);
      if Summary(verdicts) == OKAY {
        forall i | 0 <= i < |verdicts| ensures verdicts[i] == OKAY {
          if i < n { assert verdicts[..n][i] == verdicts[i]; }
        }
      } else if verdicts[n] == OKAY {
        var i :| 0 <= i < n && verdicts[..n][i] != OKAY;
        assert verdicts[i] != OKAY;
      }
    }
  }

  // ----- what the slave may show -----

  /** A freshly presented R beat answers its job from memory or devices as they are now. */
  ghost predicate FreshBeat(b: Board, job: ReadJob, o: Outputs)
    requires Sound(b)
  {
    && 4 * |o.rData| == b.bus
    && match ReadTarget(b.devices.Some?, job.Address(), job.size)
       case ToDevice =>
         var r := BusLoad(b.devices.value, Low32(job.Address()), job.size);
         if job.length == 0 && r.ok then
           o.rResponse == OKAY
           && (forall k :: 0 <= k < |o.rData| ==>
                 o.rData[k] == if k == Low32(job.Address()) % b.bus / 4 then r.data else 0)
         else o.rResponse == SLVERR && o.rData == Silence(b.bus)
       case ToWriteCombine => o.rResponse == OKAY && o.rData == Silence(b.bus)
       case Nowhere => o.rResponse == DECERR && o.rData == Silence(b.bus)
       case ToMemory =>
         o.rResponse == OKAY
         && forall j :: 0 <= j < b.bus ==>
              LaneByte(o.rData, j) == LastByte(b.bus, b.initial, b.log, WindowBase(b.bus, Low32(job.Address())) + j)
  }

  ghost predicate CorrectRead(b: Board, m: Master, o: Outputs)
    requires Sound(b)
  {
    && (o.arReady ==> m.arId < 2 && b.jobs[m.arId].None?)
    && (b.held.Some? ==> o.rValid)
    && (o.rValid ==>
          && o.rId < 2 && b.jobs[o.rId].Some?
          && (o.rLast <==> b.jobs[o.rId].value.delivered == b.jobs[o.rId].value.length)
          && (if b.held.Some? then b.held.value == Payload(o.rId, o.rData, o.rResponse, o.rLast)
              else FreshBeat(b, b.jobs[o.rId].value, o)))
  }

  ghost predicate CorrectWrite(b: Board, m: Master, o: Outputs) {
    && (o.awReady ==> b.writeJob.None? && b.response.None?)
    && (o.wReady ==> b.writeJob.Some? && b.response.None?)
    && (o.bValid <==> b.response.Some?)
    && (o.bValid ==> b.response == Some((o.bId, o.bResponse)))
  }

  ghost predicate Correct(b: Board, m: Master, o: Outputs)
    requires Sound(b)
  {
    CorrectRead(b, m, o) && CorrectWrite(b, m, o)
  }

  // ----- what the scoreboard learns from a cycle -----

  /** A device read has its side effect when its beat is first presented. */
  ghost function SeeLatch(b: Board, o: Outputs): (r: Board)
    requires Sound(b)
    ensures Sound(r) && r.bus == b.bus
  {
    if !o.rValid || b.held.Some? || o.rId >= 2 || b.jobs[o.rId].None? then b
    else
      var job := b.jobs[o.rId].value;
      if ReadTarget(b.devices.Some?, job.Address(), job.size) != ToDevice then b
      else b.(devices := Some(DevicesAfterRead(b.devices.value, job.Address(), job.size, job.length)))
  }

  ghost function SeeAr(b: Board, m: Master, o: Outputs): (r: Board)
    requires Sound(b) && m.Fits(b.bus)
    ensures Sound(r) && r.bus == b.bus
  {
    if !ArShake(m, o) || m.arId >= 2 then b
    else b.(jobs := b.jobs[m.arId := Some(ReadJob(m.arAddress, BeatBytes(m.arSize), m.arLength, 0))])
  }

  ghost function SeeR(b: Board, m: Master, o: Outputs): (r: Board)
    requires Sound(b)
    ensures Sound(r) && r.bus == b.bus
  {
    if !o.rValid || o.rId >= 2 || b.jobs[o.rId].None? then b
    else if !m.rReady then b.(held := Some(Payload(o.rId, o.rData, o.rResponse, o.rLast)))
    else
      var job := b.jobs[o.rId].value;
      var next := if job.delivered >= job.length then None else Some(job.(delivered := job.delivered + 1));
      b.(held := None, jobs := b.jobs[o.rId := next])
  }

  ghost function SeeAw(b: Board, m: Master, o: Outputs): (r: Board)
    requires Sound(b) && m.Fits(b.bus)
    ensures Sound(r) && r.bus == b.bus
  {
    if !AwShake(m, o) then b
    else b.(writeJob := Some(WriteJob(m.awId, m.awAddress, BeatBytes(m.awSize), m.awLength, [])))
  }

  predicate GoesToMemory(t: Target) { t == ToMemory || t == ToWriteCombine }

  /** The verdict on a W beat: memory takes everything, a device takes single-beat writes
      to its registers, nothing else is accepted. */
  function Verdict(bus: nat, platform: bool, address: u32, size: nat, length: byte, strobe: seq<bool>): byte
    requires BusWidth(bus) && |strobe| == bus
  {
    match WriteTarget(platform, address, size, length)
    case Nowhere => DECERR
    case ToDevice =>
      if length == 0 && Decoded(address) && true in NarrowStrobe(bus, address, strobe) then OKAY else SLVERR
    case _ => OKAY
  }

  ghost function SeeW(b: Board, m: Master, o: Outputs): (r: Board)
    requires Sound(b) && m.Fits(b.bus)
    ensures Sound(r) && r.bus == b.bus
  {
    if !WShake(m, o) || b.writeJob.None? then b
    else
      var job := b.writeJob.value;
      var a := job.Address();
      var target := WriteTarget(b.devices.Some?, a, job.size, job.length);
      var verdicts := job.verdicts + [Verdict(b.bus, b.devices.Some?, a, job.size, job.length, m.wStrobe)];
      var done := m.wLast || |job.verdicts| == job.length;
      b.(log := if GoesToMemory(target) then b.log + [StoreEvent(WindowBase(b.bus, a), m.wData, m.wStrobe)] else b.log,
         devices := if target == ToDevice && job.length == 0
           then Some(BusStore(b.devices.value, a, NarrowData(b.bus, a, m.wData),
             NarrowStrobe(b.bus, a, m.wStrobe)).after)
           else b.devices,
         writeJob := if done then None else Some(job.(verdicts := verdicts)),
         response := if done then Some((job.id, Summary(verdicts))) else b.response)
  }

  ghost function SeeB(b: Board, m: Master, o: Outputs): (r: Board)
    requires Sound(b)
    ensures Sound(r) && r.bus == b.bus
  {
    if BShake(m, o) then b.(response := None) else b
  }

  /** The scoreboard after a cycle; text arrives before it and the timer ticks after it. */
  ghost function See(b: Board, e: Observed): (r: Board)
    requires Sound(b) && e.master.Fits(b.bus)
    ensures Sound(r) && r.bus == b.bus
  {
    var b1 := Before(b, e);
    var b2 := SeeR(SeeAr(SeeLatch(b1, e.outputs), e.master, e.outputs), e.master, e.outputs);
    var b3 := SeeB(SeeW(SeeAw(b2, e.master, e.outputs), e.master, e.outputs), e.master, e.outputs);
    b3.(devices := Ticked(b3.devices))
  }

  ghost function Before(b: Board, e: Observed): Board { b.(devices := Arrival(b.devices, e.text)) }

  predicate TraceFits(bus: nat, trace: seq<Observed>) {
    forall i :: 0 <= i < |trace| ==> trace[i].master.Fits(bus)
  }

  /** Every cycle of the trace shows only what the scoreboard allows. */
  ghost predicate Accepts(b: Board, trace: seq<Observed>)
    requires Sound(b) && TraceFits(b.bus, trace)
    decreases |trace|
  {
    trace == []
    || (Correct(Before(b, trace[0]), trace[0].master, trace[0].outputs)
        && Accepts(See(b, trace[0]), trace[1..]))
  }

  ghost function SeeAll(b: Board, trace: seq<Observed>): (r: Board)
    requires Sound(b) && TraceFits(b.bus, trace)
    ensures Sound(r) && r.bus == b.bus
    decreases |trace|
  {
    if trace == [] then b else SeeAll(See(b, trace[0]), trace[1..])
  }

  ghost function NewBoard(bus: nat, initial: WordMap, devices: Option<Devices>): Board {
    Board(bus, initial, devices, [None, None], None, None, None, [])
  }
}
