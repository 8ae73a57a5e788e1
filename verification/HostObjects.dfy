/** saveCheckpoint and restoreCheckpoint of src/main.cc on the objects of a simulation.
    Each method moves the stream by exactly what the functions of HostCheckpoint and
    HostStream say. */
module HostObjects {
  import opened Words
  import opened Checkpoint
  import opened Memory
  import opened Platform
  import opened AxiSlave
  import opened AxiCheckpoint
  import opened AXIMemoryObject
  import opened HostCheckpoint
  import opened HostStream

  // ----- header -----

  method WriteHeader(writer: CheckpointWriter, c: Configuration)
    requires |c.identity| < TWO64
    modifies writer
    ensures forall rest: seq<byte> {:trigger writer.stream + rest} ::
      writer.stream + rest == old(writer.stream) + PutHeader(c, rest)
  {
    hide PutU64, PutU32, PutString, PutU8, PutBool;
    writer.WriteU64(MAGIC);
    writer.WriteU32(VERSION);
    writer.WriteString(c.identity);
    writer.WriteU64(c.image);
    writer.WriteU64(c.rtl);
    writer.WriteU8(c.platform);
    writer.WriteBool(c.difftest);
    writer.WriteU64(c.seed);
  }

  method ReadHeader(reader: CheckpointReader, c: Configuration) returns (r: Result<()>)
    modifies reader
    ensures match GetHeader(c, old(reader.stream))
      case Ok(rest) => r == Ok(()) && reader.stream == rest
      case Err(e) => r == Err(e)
  {
    hide GetU64, GetU32, GetString, GetRunOptions;
    var magic :- reader.ReadU64();
    if magic != MAGIC { return Err(BadMagic); }
    var version :- reader.ReadU32();
    if version != VERSION { return Err(UnsupportedVersion); }
    var identity :- reader.ReadString(IDENTITY_LIMIT);
    if identity != c.identity { return Err(BuildMismatch); }
    r := ReadRunOptions(reader, c);
  }

  method ReadRunOptions(reader: CheckpointReader, c: Configuration) returns (r: Result<()>)
    modifies reader
    ensures match GetRunOptions(c, old(reader.stream))
      case Ok(rest) => r == Ok(()) && reader.stream == rest
      case Err(e) => r == Err(e)
  {
    hide GetU64, GetU8, GetBool;
    var image :- reader.ReadU64();
    if image != c.image { return Err(ImageMismatch); }
    var rtl :- reader.ReadU64();
    if rtl != c.rtl { return Err(RtlMismatch); }
    var platform :- reader.ReadU8();
    if platform != c.platform { return Err(PlatformModeMismatch); }
    var difftest :- reader.ReadBool();
    if difftest != c.difftest { return Err(DifftestMismatch); }
    var seed :- reader.ReadU64();
    if seed != c.seed { return Err(SeedMismatch); }
    return Ok(());
  }

  // ----- the reference -----

  class SpikeReference {
    const memory: SparseMemory
    const platform: PlatformDevices?
    const build: Build
    var processor: Processor

    constructor (memory: SparseMemory, platform: PlatformDevices?, processor: Processor)
      ensures this.memory == memory && this.platform == platform && this.processor == processor
      ensures build == Build(processor.vector.Some?, Addresses(processor.csrs))
    {
      this.memory, this.platform, this.processor := memory, platform, processor;
      build := Build(processor.vector.Some?, Addresses(processor.csrs));
    }

    function State(): Reference
      reads this, memory, platform
    {
      Reference(processor, memory.words, StateOfDevices(platform))
    }

    method Save(writer: CheckpointWriter) returns (ghost order: Pairs)
      requires ReferenceFits(State())
      modifies writer
      ensures Enumerates(order, memory.words) && |order| < TWO64
      ensures forall rest: seq<byte> {:trigger writer.stream + rest} ::
        writer.stream + rest == old(writer.stream) + PutReference(State(), order, rest)
    {
      hide PutProcessor, PutWords, PutOptionalDevices, Enumerates;
      EntriesCountable(memory.words);
      WriteProcessor(writer, processor);
      order := memory.Save(writer);
      WriteDevices(writer, platform);
    }

    method Restore(reader: CheckpointReader) returns (r: Result<()>)
      modifies this, memory, platform, reader
      ensures match GetReference(platform != null, build, old(reader.stream))
        case Ok(f) => r == Ok(()) && State() == f.0 && reader.stream == f.1
        case Err(e) => r == Err(e)
    {
      hide GetProcessor, GetWords, GetOptionalDevices, CsrFault;
      processor :- ReadProcessor(reader, build.vector);
      var _ :- memory.Restore(reader);
      var _ :- ReadDevices(reader, platform);
      var fault := CheckCsrs(build.csrs, processor.csrs);
      return if fault.Some? then Err(fault.value) else Ok(());
    }
  }

  method Find(csrs: CsrList, address: u64) returns (found: bool)
    ensures found <==> Holds(csrs, address)
  {
    for k := 0 to |csrs|
      invariant forall j :: 0 <= j < k ==> csrs[j].0 != address
    {
      if csrs[k].0 == address { return true; }
    }
    return false;
  }

  /** The checks that are made while CSRs are written back. */
  method CheckCsrs(known: set<u64>, csrs: CsrList) returns (fault: Option<Error>)
    ensures fault == CsrFault(known, csrs)
  {
    hide Holds;
    var mstatus := Find(csrs, MSTATUS);
    if !mstatus { return Some(MissingMstatus); }
    for k := 0 to |csrs|
      invariant forall j :: 0 <= j < k ==> csrs[j].0 in known
    {
      if csrs[k].0 !in known { return Some(AbsentCsr); }
    }
    var low := Find(csrs, MCYCLE);
    var high := Find(csrs, MCYCLEH);
    if !low || !high { return Some(MissingCounterHalf); }
    low := Find(csrs, MINSTRET);
    high := Find(csrs, MINSTRETH);
    if !low || !high { return Some(MissingCounterHalf); }
    return None;
  }

  method WriteProcessor(writer: CheckpointWriter, p: Processor)
    requires p.Shaped()
    modifies writer
    ensures forall rest: seq<byte> {:trigger writer.stream + rest} ::
      writer.stream + rest == old(writer.stream) + PutProcessor(p, rest)
  {
    hide PutU64, PutU64s, PutCsrs, PutBool, PutU32, PutOptionalVector;
    writer.WriteU64(p.pc);
    writer.WriteU64(p.privilege);
    writer.WriteU64s(p.integers);
    writer.WriteU64s(p.floats);
    WriteVector(writer, p.vector);
    writer.WriteU64(|p.csrs|);
    WriteCsrs(writer, p.csrs);
    writer.WriteBool(p.reserved);
    writer.WriteU32(p.reservation);
  }

  method WriteVector(writer: CheckpointWriter, vector: Option<VectorUnit>)
    requires vector.Some? ==> vector.value.Shaped()
    modifies writer
    ensures forall rest: seq<byte> {:trigger writer.stream + rest} ::
      writer.stream + rest == old(writer.stream) + PutOptionalVector(vector, rest)
  {
    hide PutU32, PutU8, PutBytes;
    if vector.Some? {
      var v := vector.value;
      writer.WriteU32(v.vl);
      writer.WriteU32(v.vtype);
      writer.WriteU32(v.vstart);
      writer.WriteU8(v.vxrm);
      writer.WriteU8(v.vxsat);
      writer.WriteU8(v.fflags);
      writer.WriteU8(v.padding);
      writer.WriteBytes(v.registers);
      writer.WriteU32(v.setvlCount);
    }
  }

  method ReadVector(reader: CheckpointReader, performance: bool) returns (r: Result<Option<VectorUnit>>)
    modifies reader
    ensures match GetOptionalVector(performance, old(reader.stream))
      case Ok(f) => r == Ok(f.0) && reader.stream == f.1
      case Err(e) => r == Err(e)
  {
    hide GetU32, GetU8, GetBytes;
    if !performance { return Ok(None); }
    var vl :- reader.ReadU32();
    var vtype :- reader.ReadU32();
    var vstart :- reader.ReadU32();
    var vxrm :- reader.ReadU8();
    var vxsat :- reader.ReadU8();
    var fflags :- reader.ReadU8();
    var padding :- reader.ReadU8();
    var registers :- reader.ReadBytes(VECTOR_BYTES);
    var count :- reader.ReadU32();
    return Ok(Some(VectorUnit(vl, vtype, vstart, vxrm, vxsat, fflags, padding, registers, count)));
  }

  method WriteCsrs(writer: CheckpointWriter, v: CsrList)
    modifies writer
    decreases |v|
    ensures forall rest: seq<byte> {:trigger writer.stream + rest} ::
      writer.stream + rest == old(writer.stream) + PutCsrs(v, rest)
  {
    hide PutU64;
    if v != [] {
      writer.WriteU64(v[0].0);
      writer.WriteU64(v[0].1);
      WriteCsrs(writer, v[1..]);
    } else {
      forall rest: seq<byte> ensures writer.stream + rest == old(writer.stream) + PutCsrs(v, rest) {}
    }
  }

  method ReadProcessor(reader: CheckpointReader, performance: bool) returns (r: Result<Processor>)
    modifies reader
    ensures match GetProcessor(performance, old(reader.stream))
      case Ok(f) => r == Ok(f.0) && reader.stream == f.1
      case Err(e) => r == Err(e)
  {
    hide GetU64, GetU64s, GetCount, GetCsrs, GetBool, GetU32, GetOptionalVector;
    var pc :- reader.ReadU64();
    var privilege :- reader.ReadU64();
    var integers :- reader.ReadU64s(32);
    var floats :- reader.ReadU64s(64);
    var vector :- ReadVector(reader, performance);
    var count :- reader.ReadCount(CSR_LIMIT);
    var csrs :- ReadCsrs(reader, count);
    var reserved :- reader.ReadBool();
    var reservation :- reader.ReadU32();
    return Ok(Processor(pc, privilege, integers, floats, vector, csrs, reserved, reservation));
  }

  method ReadCsrs(reader: CheckpointReader, n: nat) returns (r: Result<CsrList>)
    modifies reader
    ensures match GetCsrs(n, old(reader.stream))
      case Ok(f) => r == Ok(f.0) && reader.stream == f.1
      case Err(e) => r == Err(e)
  {
    hide GetU64;
    if n == 0 { return Ok([]); }
    var address :- reader.ReadU64();
    var value :- reader.ReadU64();
    var t :- ReadCsrs(reader, n - 1);
    return Ok([(address, value)] + t);
  }

  function StateOfDevices(platform: PlatformDevices?): Option<Devices>
    reads platform
  {
    if platform == null then None else Some(platform.State())
  }

  method WriteDevices(writer: CheckpointWriter, platform: PlatformDevices?)
    requires Representable(StateOfDevices(platform))
    modifies writer
    ensures forall rest: seq<byte> {:trigger writer.stream + rest} ::
      writer.stream + rest == old(writer.stream) + PutOptionalDevices(StateOfDevices(platform), rest)
  {
    hide PutBool, PutDevices;
    writer.WriteBool(platform != null);
    if platform != null { platform.Save(writer); }
  }

  method ReadDevices(reader: CheckpointReader, platform: PlatformDevices?) returns (r: Result<()>)
    modifies reader, platform
    ensures match GetOptionalDevices(platform != null, old(reader.stream))
      case Ok(f) => r == Ok(()) && StateOfDevices(platform) == f.0 && reader.stream == f.1
      case Err(e) => r == Err(e)
  {
    hide GetBool, GetDevices;
    var present :- reader.ReadBool();
    if present != (platform != null) { return Err(PlatformMismatch); }
    if platform != null { var _ :- platform.Restore(reader); }
    return Ok(());
  }

  // ----- the simulation state -----

  method WriteOptionalU64s(writer: CheckpointWriter, v: Option<seq<u64>>, n: nat)
    requires v.Some? ==> |v.value| == n
    modifies writer
    ensures forall rest: seq<byte> {:trigger writer.stream + rest} ::
      writer.stream + rest == old(writer.stream) + PutOptionalU64s(v, n, rest)
  {
    hide PutBool, PutU64s;
    writer.WriteBool(v.Some?);
    if v.Some? { writer.WriteU64s(v.value); }
  }

  method ReadOptionalU64s(reader: CheckpointReader, n: nat) returns (r: Result<Option<seq<u64>>>)
    modifies reader
    ensures match GetOptionalU64s(n, old(reader.stream))
      case Ok(f) => r == Ok(f.0) && reader.stream == f.1
      case Err(e) => r == Err(e)
  {
    hide GetBool, GetU64s;
    var present :- reader.ReadBool();
    if !present { return Ok(None); }
    var v :- reader.ReadU64s(n);
    return Ok(Some(v));
  }

  method WriteOptionalU32(writer: CheckpointWriter, v: Option<u32>)
    modifies writer
    ensures forall rest: seq<byte> {:trigger writer.stream + rest} ::
      writer.stream + rest == old(writer.stream) + PutOptionalU32(v, rest)
  {
    hide PutBool, PutU32;
    writer.WriteBool(v.Some?);
    if v.Some? { writer.WriteU32(v.value); }
  }

  method ReadOptionalU32(reader: CheckpointReader) returns (r: Result<Option<u32>>)
    modifies reader
    ensures match GetOptionalU32(old(reader.stream))
      case Ok(f) => r == Ok(f.0) && reader.stream == f.1
      case Err(e) => r == Err(e)
  {
    hide GetBool, GetU32;
    var present :- reader.ReadBool();
    if !present { return Ok(None); }
    var v :- reader.ReadU32();
    return Ok(Some(v));
  }

  method WriteProgress(writer: CheckpointWriter, p: Progress)
    requires p.Shaped()
    modifies writer
    ensures forall rest: seq<byte> {:trigger writer.stream + rest} ::
      writer.stream + rest == old(writer.stream) + PutProgress(p, rest)
  {
    hide PutU64s, PutU32s, PutOptionalU64s, PutBool, PutU32, PutU64;
    writer.WriteU64s(p.counters);
    writer.WriteU32s(p.registers);
    WriteOptionalU64s(writer, p.measured, SNAPSHOT_WORDS);
    writer.WriteBool(p.capture);
    writer.WriteBool(p.referenceComplete);
    writer.WriteU32(p.lastRetirePc);
    writer.WriteU64(p.simulationTime);
  }

  method ReadProgress(reader: CheckpointReader) returns (r: Result<Progress>)
    modifies reader
    ensures match GetProgress(old(reader.stream))
      case Ok(f) => r == Ok(f.0) && reader.stream == f.1
      case Err(e) => r == Err(e)
  {
    hide GetU64s, GetU32s, GetOptionalU64s, GetBool, GetU32, GetU64;
    var counters :- reader.ReadU64s(5);
    var registers :- reader.ReadU32s(64);
    var measured :- ReadOptionalU64s(reader, SNAPSHOT_WORDS);
    var capture :- reader.ReadBool();
    var complete :- reader.ReadBool();
    var pc :- reader.ReadU32();
    var time :- reader.ReadU64();
    return Ok(Progress(counters, registers, measured, capture, complete, pc, time));
  }

  // ----- the branch profile -----

  method WriteEntry(writer: CheckpointWriter, e: ProfileEntry)
    modifies writer
    ensures forall rest: seq<byte> {:trigger writer.stream + rest} ::
      writer.stream + rest == old(writer.stream) + PutEntry(e, rest)
  {
    hide PutU32, PutU64;
    writer.WriteU32(e.instruction);
    writer.WriteU32(e.padding);
    writer.WriteU64(e.executions);
    writer.WriteU64(e.mispredictions);
    writer.WriteU64(e.taken);
  }

  method ReadEntry(reader: CheckpointReader) returns (r: Result<ProfileEntry>)
    modifies reader
    ensures match GetEntry(old(reader.stream))
      case Ok(f) => r == Ok(f.0) && reader.stream == f.1
      case Err(e) => r == Err(e)
  {
    hide GetU32, GetU64;
    var instruction :- reader.ReadU32();
    var padding :- reader.ReadU32();
    var executions :- reader.ReadU64();
    var mispredictions :- reader.ReadU64();
    var taken :- reader.ReadU64();
    return Ok(ProfileEntry(instruction, padding, executions, mispredictions, taken));
  }

  lemma {:induction false} EntriesSnoc(v: ProfileOrder, pc: u32, entry: ProfileEntry, rest: seq<byte>)
    ensures PutEntries(v + [(pc, entry)], rest) == PutEntries(v, PutU32(pc, PutEntry(entry, rest)))
  {
    hide PutU32, PutEntry;
    if v == [] {
      assert ([] + [(pc, entry)])[1..] == [];
    } else {
      assert (v + [(pc, entry)])[1..] == v[1..] + [(pc, entry)];
      EntriesSnoc(v[1..], pc, entry, rest);
    }
  }

  method WriteProfile(writer: CheckpointWriter, profile: ProfileMap) returns (ghost order: ProfileOrder)
    modifies writer
    ensures Enumerates(order, profile) && |order| < TWO64
    ensures forall rest: seq<byte> {:trigger writer.stream + rest} ::
      writer.stream + rest == old(writer.stream) + PutProfile(order, rest)
  {
    hide PutU32, PutU64, PutEntry;
    EntriesCountable(profile);
    writer.WriteU64(|profile|);
    order := [];
    var left := profile.Keys;
    while left != {}
      invariant left <= profile.Keys && |order| + |left| == |profile|
      invariant forall i :: 0 <= i < |order| ==>
        order[i].0 in profile && profile[order[i].0] == order[i].1 && order[i].0 !in left
      invariant forall i, j :: 0 <= i < j < |order| ==> order[i].0 != order[j].0
      invariant forall rest: seq<byte> {:trigger writer.stream + rest} ::
        writer.stream + rest == old(writer.stream) + PutU64(|profile|, PutEntries(order, rest))
      decreases left
    {
      var pc :| pc in left;
      ghost var before, done := writer.stream, order;
      writer.WriteU32(pc);
      WriteEntry(writer, profile[pc]);
      order := order + [(pc, profile[pc])];
      left := left - {pc};
      forall rest: seq<byte>
        ensures writer.stream + rest == old(writer.stream) + PutU64(|profile|, PutEntries(order, rest))
      {
        EntriesSnoc(done, pc, profile[pc], rest);
        var tail := PutU32(pc, PutEntry(profile[pc], rest));
        assert writer.stream + rest == before + tail;
      }
    }
  }

  /** The entries are put back with emplace, so the first of several with one pc stays. */
  method ReadProfile(reader: CheckpointReader) returns (r: Result<ProfileMap>)
    modifies reader
    ensures match GetProfile(old(reader.stream))
      case Ok(f) => r == Ok(f.0) && reader.stream == f.1
      case Err(e) => r == Err(e)
  {
    hide GetU32, GetEntry;
    var count :- reader.ReadCount(PROFILE_LIMIT);
    var profile: ProfileMap := map[];
    ghost var start := reader.stream;
    ghost var done: ProfileOrder := [];
    ghost var all := GetEntries(count, start);
    assert all.Ok? ==> done + all.value.0 == all.value.0;
    for index := 0 to count
      invariant profile == CollectFirst(done)
      invariant match GetEntries(count - index, reader.stream)
        case Ok(f) => GetEntries(count, start) == Ok((done + f.0, f.1))
        case Err(e) => GetEntries(count, start) == Err(e)
    {
      var pc :- reader.ReadU32();
      var entry :- ReadEntry(reader);
      ghost var tail := GetEntries(count - index - 1, reader.stream);
      assert tail.Ok? ==> done + ([(pc, entry)] + tail.value.0) == (done + [(pc, entry)]) + tail.value.0;
      assert (done + [(pc, entry)])[..|done|] == done;
      if pc !in profile { profile := profile[pc := entry]; }
      done := done + [(pc, entry)];
    }
    assert done + [] == done;
    return Ok(profile);
  }

  // ----- the rest of the simulation state, and the statistics -----

  method WriteRecent(writer: CheckpointWriter, c: RecentCommit)
    modifies writer
    ensures forall rest: seq<byte> {:trigger writer.stream + rest} ::
      writer.stream + rest == old(writer.stream) + PutRecent(c, rest)
  {
    hide PutU32, PutU64;
    writer.WriteU64(c.cycle);
    writer.WriteU32(c.dutPc);
    writer.WriteU32(c.dutInstruction);
    writer.WriteU32(c.spikePc);
    writer.WriteU32(c.spikeInstruction);
    writer.WriteU32(c.spikeNextPc);
    writer.WriteU32(c.laneAndPadding);
  }

  method ReadRecent(reader: CheckpointReader) returns (r: Result<RecentCommit>)
    modifies reader
    ensures match GetRecent(old(reader.stream))
      case Ok(f) => r == Ok(f.0) && reader.stream == f.1
      case Err(e) => r == Err(e)
  {
    hide GetU32, GetU64;
    var cycle :- reader.ReadU64();
    var dutPc :- reader.ReadU32();
    var dutInstruction :- reader.ReadU32();
    var spikePc :- reader.ReadU32();
    var spikeInstruction :- reader.ReadU32();
    var spikeNextPc :- reader.ReadU32();
    var tail :- reader.ReadU32();
    return Ok(RecentCommit(cycle, dutPc, dutInstruction, spikePc, spikeInstruction, spikeNextPc, tail));
  }

  method WriteRecents(writer: CheckpointWriter, v: seq<RecentCommit>)
    modifies writer
    decreases |v|
    ensures forall rest: seq<byte> {:trigger writer.stream + rest} ::
      writer.stream + rest == old(writer.stream) + PutRecents(v, rest)
  {
    hide PutRecent;
    if v != [] {
      WriteRecent(writer, v[0]);
      WriteRecents(writer, v[1..]);
    } else {
      forall rest: seq<byte> ensures writer.stream + rest == old(writer.stream) + PutRecents(v, rest) {}
    }
  }

  method ReadRecents(reader: CheckpointReader, n: nat) returns (r: Result<seq<RecentCommit>>)
    modifies reader
    ensures match GetRecents(n, old(reader.stream))
      case Ok(f) => r == Ok(f.0) && reader.stream == f.1
      case Err(e) => r == Err(e)
  {
    hide GetRecent;
    if n == 0 { return Ok([]); }
    var h :- ReadRecent(reader);
    var t :- ReadRecents(reader, n - 1);
    return Ok([h] + t);
  }

  method WriteHistory(writer: CheckpointWriter, h: History)
    requires h.Shaped()
    modifies writer
    ensures forall rest: seq<byte> {:trigger writer.stream + rest} ::
      writer.stream + rest == old(writer.stream) + PutHistory(h, rest)
  {
    hide PutOptionalU32, PutRecents, PutU64, PutBool, PutU64s;
    WriteOptionalU32(writer, h.pending);
    WriteRecents(writer, h.recent);
    writer.WriteU64(h.recentCount);
    writer.WriteBool(h.markerSeen);
    writer.WriteBool(h.waitingAfterWfi);
    writer.WriteU64s(h.instructions);
    writer.WriteU64s(h.performance);
  }

  method ReadHistory(reader: CheckpointReader) returns (r: Result<History>)
    modifies reader
    ensures match GetHistory(old(reader.stream))
      case Ok(f) => r == Ok(f.0) && reader.stream == f.1
      case Err(e) => r == Err(e)
  {
    hide GetOptionalU32, GetRecents, GetU64, GetBool, GetU64s;
    var pending :- ReadOptionalU32(reader);
    var recent :- ReadRecents(reader, 16);
    var count :- reader.ReadU64();
    var marker :- reader.ReadBool();
    var waiting :- reader.ReadBool();
    var instructions :- reader.ReadU64s(STATISTIC_WORDS);
    var performance :- reader.ReadU64s(SNAPSHOT_WORDS);
    return Ok(History(pending, recent, count, marker, waiting, instructions, performance));
  }

  // ----- the whole simulation -----

  lemma {:induction false} ContentsPassThrough(current: Slave, words: WordMap, s: seq<byte>)
    ensures GetAxi(current.(words := words), s)
         == match GetAxi(current, s) case Ok(f) => Ok(((f.0.0.(words := words), f.0.1), f.1)) case Err(e) => Err(e)
  {
    hide GetExit, GetReadSide, GetWriteSide, RestoredExit;
  }

  class Simulation {
    const axi: AXIMemory
    const reference: SpikeReference?
    var progress: Progress
    var profile: ProfileMap
    var history: History

    constructor (axi: AXIMemory, reference: SpikeReference?, progress: Progress, history: History)
      ensures this.axi == axi && this.reference == reference && this.progress == progress && this.history == history
      ensures profile == map[]
    {
      this.axi, this.reference, this.progress, this.history := axi, reference, progress, history;
      profile := map[];
    }

    ghost function Objects(): set<object?> {
      {this, axi, axi.memory, axi.exit, axi.rng, axi.platform}
      + (if reference == null then {} else {reference, reference.memory, reference.platform})
    }

    /** The core and the reference have memory and devices of their own, and both or neither have devices. */
    ghost predicate Separate() {
      reference != null ==>
        && reference.memory != axi.memory && (reference.platform == null <==> axi.platform == null)
        && (reference.platform != null ==> reference.platform != axi.platform)
    }

    /** What this process checks its core against. */
    function Checks(): Kind { if reference == null then Unchecked else Checked(reference.build) }

    function ReferenceState(): Option<Reference>
      reads reference, if reference == null then {} else {reference.memory, reference.platform}
    {
      if reference == null then None else Some(reference.State())
    }

    function State(): Host
      reads this, axi, axi.memory, axi.exit, axi.rng, axi.platform
      reads reference, if reference == null then {} else {reference.memory, reference.platform}
    {
      Host(Books(progress, profile, history, ReferenceState()), axi.State(), axi.rng.state)
    }

    /** saveCheckpoint, without the files. */
    method Save(writer: CheckpointWriter, c: Configuration) returns (ghost o: Orders)
      requires HostInv(State()) && |c.identity| < TWO64 && Representable(axi.DeviceState())
      modifies writer
      ensures Iterates(o, State())
      ensures forall rest: seq<byte> {:trigger writer.stream + rest} ::
        writer.stream + rest == old(writer.stream) + PutHost(c, State(), o, rest)
    {
      hide PutHeader, PutProgress, PutProfile, PutHistory, PutMachine, Enumerates, Inv;
      WriteHeader(writer, c);
      WriteProgress(writer, progress);
      ghost var entries := WriteProfile(writer, profile);
      WriteHistory(writer, history);
      ghost var words, others := SaveMachine(writer, entries);
      o := Orders(entries, words, others);
    }

    /** The sections of the memory, the bus, the devices and the reference. */
    method SaveMachine(writer: CheckpointWriter, ghost entries: ProfileOrder)
      returns (ghost words: Pairs, ghost others: Pairs)
      requires HostInv(State()) && Representable(axi.DeviceState()) && Enumerates(entries, profile)
      modifies writer
      ensures Iterates(Orders(entries, words, others), State())
      ensures forall rest: seq<byte> {:trigger writer.stream + rest} ::
        writer.stream + rest == old(writer.stream) + PutMachine(State(), Orders(entries, words, others), rest)
    {
      hide PutWords, PutAxi, PutOptionalDevices, PutOptionalReference, Enumerates, Inv;
      words := SaveBus(writer);
      WriteDevices(writer, axi.platform);
      others := SaveReference(writer);
    }

    method SaveBus(writer: CheckpointWriter) returns (ghost order: Pairs)
      requires axi.Valid()
      modifies writer
      ensures Enumerates(order, axi.memory.words) && |order| < TWO64
      ensures forall rest: seq<byte> {:trigger writer.stream + rest} ::
        writer.stream + rest == old(writer.stream) + PutWords(order, PutAxi(axi.State(), axi.rng.state, rest))
    {
      hide PutWords, PutAxi, Enumerates, Inv;
      EntriesCountable(axi.memory.words);
      order := axi.memory.Save(writer);
      axi.Save(writer);
    }

    method SaveReference(writer: CheckpointWriter) returns (ghost order: Pairs)
      requires reference != null ==> ReferenceFits(reference.State())
      modifies writer
      ensures reference != null ==> Enumerates(order, reference.memory.words) && |order| < TWO64
      ensures forall rest: seq<byte> {:trigger writer.stream + rest} ::
        writer.stream + rest == old(writer.stream) + PutOptionalReference(ReferenceState(), order, rest)
    {
      hide PutBool, PutReference;
      order := [];
      writer.WriteBool(reference != null);
      if reference != null { order := reference.Save(writer); }
    }

    /** restoreCheckpoint, without the files. */
    method Restore(reader: CheckpointReader, c: Configuration) returns (r: Result<()>)
      requires axi.Valid() && Separate()
      modifies Objects(), reader
      ensures match GetHost(c, old(axi.State()), Checks(), old(reader.stream))
        case Ok(h) => r == Ok(()) && State() == h
        case Err(e) => r == Err(e)
    {
      hide GetHeader, GetProgress, GetProfile, GetHistory, GetMachine, Inv;
      var _ :- ReadHeader(reader, c);
      progress :- ReadProgress(reader);
      profile :- ReadProfile(reader);
      history :- ReadHistory(reader);
      var _ :- RestoreMachine(reader);
      r := reader.RequireEnd();
    }

    method RestoreMachine(reader: CheckpointReader) returns (r: Result<()>)
      requires axi.Valid() && Separate()
      modifies Objects() - {this}, reader
      ensures match GetMachine(old(axi.State()), Checks(), old(reader.stream))
        case Ok(f) =>
          r == Ok(()) && Machinery(axi.State(), axi.rng.state, ReferenceState()) == f.0 && reader.stream == f.1
        case Err(e) => r == Err(e)
    {
      hide GetBoard, GetOptionalReference, Inv;
      var _ :- RestoreBoard(reader);
      r := RestoreReference(reader);
    }

    method RestoreBoard(reader: CheckpointReader) returns (r: Result<()>)
      requires axi.Valid()
      modifies axi, axi.memory, axi.exit, axi.rng, axi.platform, reader
      ensures match GetBoard(old(axi.State()), old(reader.stream))
        case Ok(f) => r == Ok(()) && (axi.State(), axi.rng.state) == f.0 && reader.stream == f.1
        case Err(e) => r == Err(e)
    {
      hide GetWords, GetAxi, GetOptionalDevices, Inv;
      var _ :- RestoreBus(reader);
      ghost var bus := axi.State();
      r := ReadDevices(reader, axi.platform);
      assert axi.State() == bus.(devices := StateOfDevices(axi.platform));
    }

    method RestoreBus(reader: CheckpointReader) returns (r: Result<()>)
      requires axi.Valid()
      modifies axi, axi.memory, axi.exit, axi.rng, reader
      ensures match GetWords(old(reader.stream))
        case Err(e) => r == Err(e)
        case Ok(w) =>
          match GetAxi(old(axi.State()), w.1)
          case Ok(f) =>
            && r == Ok(()) && axi.State() == f.0.0.(words := w.0) && axi.rng.state == f.0.1
            && reader.stream == f.1
          case Err(e) => r == Err(e)
    {
      hide GetWords, GetAxi;
      ghost var current := axi.State();
      var _ :- axi.memory.Restore(reader);
      ContentsPassThrough(current, axi.memory.words, reader.stream);
      r := axi.Restore(reader);
    }

    method RestoreReference(reader: CheckpointReader) returns (r: Result<()>)
      requires Separate()
      modifies if reference == null then {} else {reference, reference.memory, reference.platform}, reader
      ensures match GetOptionalReference(Checks(), axi.platform != null, old(reader.stream))
        case Ok(f) => r == Ok(()) && ReferenceState() == f.0 && reader.stream == f.1
        case Err(e) => r == Err(e)
    {
      hide GetBool, GetReference;
      var present :- reader.ReadBool();
      if present != (reference != null) { return Err(ReferenceMismatch); }
      if reference != null { var _ :- reference.Restore(reader); }
      return Ok(());
    }
  }
}
