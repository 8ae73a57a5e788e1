/** The parts of a checkpoint that belong to the main loop and the reference
    (src/main.cc:953-1095, src/SpikeReference.cc:452-523), each with its own round trip. */
module HostCheckpoint {
  import opened Words
  import opened Checkpoint
  import opened Memory
  import opened Platform

  const MAGIC: u64 := 0x5a49_5243_4f4e_4350
  const VERSION: u32 := 5
  const IDENTITY_LIMIT := 4096
  const PROFILE_LIMIT := 0x100_0000
  const CSR_LIMIT := 4096

  // ----- header -----

  /** What a checkpoint must have in common with the run that loads it. */
  datatype Configuration = Configuration(identity: seq<byte>, image: u64, rtl: u64, platform: byte, difftest: bool,
    seed: u64)

  function PutHeader(c: Configuration, rest: seq<byte>): seq<byte>
    requires |c.identity| < TWO64
  {
    PutU64(MAGIC, PutU32(VERSION, PutString(c.identity, PutU64(c.image, PutU64(c.rtl,
      PutU8(c.platform, PutBool(c.difftest, PutU64(c.seed, rest))))))))
  }

  function GetHeader(c: Configuration, s: seq<byte>): Result<seq<byte>> {
    var magic :- GetU64(s);
    if magic.0 != MAGIC then Err(BadMagic)
    else
      var version :- GetU32(magic.1);
      if version.0 != VERSION then Err(UnsupportedVersion)
      else
        var identity :- GetString(IDENTITY_LIMIT, version.1);
        if identity.0 != c.identity then Err(BuildMismatch) else GetRunOptions(c, identity.1)
  }

  function GetRunOptions(c: Configuration, s: seq<byte>): Result<seq<byte>> {
    var image :- GetU64(s);
    if image.0 != c.image then Err(ImageMismatch)
    else
      var rtl :- GetU64(image.1);
      if rtl.0 != c.rtl then Err(RtlMismatch)
      else
        var platform :- GetU8(rtl.1);
        if platform.0 != c.platform then Err(PlatformModeMismatch)
        else
          var difftest :- GetBool(platform.1);
          if difftest.0 != c.difftest then Err(DifftestMismatch)
          else
            var seed :- GetU64(difftest.1);
            if seed.0 != c.seed then Err(SeedMismatch) else Ok(seed.1)
  }

  lemma {:induction false} HeaderRoundTrip(c: Configuration, rest: seq<byte>)
    requires |c.identity| < TWO64
    ensures GetHeader(c, PutHeader(c, rest))
         == if |c.identity| <= IDENTITY_LIMIT then Ok(rest) else Err(CountExceedsLimit)
  {
  }

  /** Every checkpoint begins with its magic number and the version 5, little-endian in eight and
      four bytes. */
  lemma {:induction false} HeaderBegins(c: Configuration, rest: seq<byte>)
    requires |c.identity| < TWO64
    ensures |PutHeader(c, rest)| >= 12
    ensures Join(PutHeader(c, rest)[..8]) == 0x5a49_5243_4f4e_4350 && Join(PutHeader(c, rest)[8..12]) == 5
  {
    hide PutString, PutU8, PutBool, Split;
    Pow256Values();
    var later := PutString(c.identity, PutU64(c.image, PutU64(c.rtl, PutU8(c.platform, PutBool(c.difftest,
      PutU64(c.seed, rest))))));
    var s := PutHeader(c, rest);
    assert s == Split(MAGIC, 8) + (Split(VERSION, 4) + later);
    assert s[..8] == Split(MAGIC, 8) && s[8..12] == Split(VERSION, 4);
    JoinSplit(MAGIC, 8);
    JoinSplit(VERSION, 4);
  }

  /** A checkpoint is loaded only by a run with exactly its configuration. */
  lemma {:induction false} HeaderIsExact(saved: Configuration, loading: Configuration, rest: seq<byte>)
    requires |saved.identity| <= IDENTITY_LIMIT
    ensures GetHeader(loading, PutHeader(saved, rest)).Ok? <==> saved == loading
  {
  }

  // ----- simulation bookkeeping -----

  /** An entry of the branch profile; four bytes of its representation are padding. */
  datatype ProfileEntry = ProfileEntry(instruction: u32, padding: u32, executions: u64, mispredictions: u64, taken: u64)

  function PutEntry(e: ProfileEntry, rest: seq<byte>): (s: seq<byte>)
    ensures GetEntry(s) == Ok((e, rest))
  {
    PutU32(e.instruction, PutU32(e.padding, PutU64(e.executions, PutU64(e.mispredictions, PutU64(e.taken, rest)))))
  }

  function GetEntry(s: seq<byte>): Parsed<ProfileEntry> {
    var instruction :- GetU32(s);
    var padding :- GetU32(instruction.1);
    var executions :- GetU64(padding.1);
    var mispredictions :- GetU64(executions.1);
    var taken :- GetU64(mispredictions.1);
    Ok((ProfileEntry(instruction.0, padding.0, executions.0, mispredictions.0, taken.0), taken.1))
  }

  type ProfileMap = map<u32, ProfileEntry>
  type ProfileOrder = seq<(u32, ProfileEntry)>

  function PutEntries(v: ProfileOrder, rest: seq<byte>): (s: seq<byte>)
    ensures GetEntries(|v|, s) == Ok((v, rest))
  {
    if v == [] then rest
    else
      assert v == [(v[0].0, v[0].1)] + v[1..];
      PutU32(v[0].0, PutEntry(v[0].1, PutEntries(v[1..], rest)))
  }

  function GetEntries(n: nat, s: seq<byte>): (r: Parsed<ProfileOrder>)
    ensures r.Ok? ==> |r.value.0| == n
  {
    if n == 0 then Ok(([], s))
    else
      var pc :- GetU32(s);
      var entry :- GetEntry(pc.1);
      var t :- GetEntries(n - 1, entry.1);
      Ok(([(pc.0, entry.0)] + t.0, t.1))
  }

  function PutProfile(order: ProfileOrder, rest: seq<byte>): seq<byte>
    requires |order| < TWO64
  {
    PutU64(|order|, PutEntries(order, rest))
  }

  function GetProfile(s: seq<byte>): Parsed<ProfileMap> {
    var n :- GetCount(PROFILE_LIMIT, s);
    var entries :- GetEntries(n.0, n.1);
    Ok((CollectFirst(entries.0), entries.1))
  }

  lemma {:induction false} ProfileRoundTrip(profile: ProfileMap, order: ProfileOrder, rest: seq<byte>)
    requires Enumerates(order, profile) && |order| < TWO64
    ensures GetProfile(PutProfile(order, rest))
         == if |profile| <= PROFILE_LIMIT then Ok((profile, rest)) else Err(CountExceedsLimit)
  {
    CollectEnumerated(order, profile);
    FirstIsLast(order);
  }

  /** A recent commit; its last word is the lane and three bytes of padding. */
  datatype RecentCommit = RecentCommit(cycle: u64, dutPc: u32, dutInstruction: u32, spikePc: u32, spikeInstruction: u32,
    spikeNextPc: u32, laneAndPadding: u32)

  function PutRecent(c: RecentCommit, rest: seq<byte>): (s: seq<byte>)
    ensures GetRecent(s) == Ok((c, rest))
  {
    PutU64(c.cycle, PutU32(c.dutPc, PutU32(c.dutInstruction, PutU32(c.spikePc, PutU32(c.spikeInstruction,
      PutU32(c.spikeNextPc, PutU32(c.laneAndPadding, rest)))))))
  }

  function GetRecent(s: seq<byte>): Parsed<RecentCommit> {
    var cycle :- GetU64(s);
    var dutPc :- GetU32(cycle.1);
    var dutInstruction :- GetU32(dutPc.1);
    var spikePc :- GetU32(dutInstruction.1);
    var spikeInstruction :- GetU32(spikePc.1);
    var spikeNextPc :- GetU32(spikeInstruction.1);
    var tail :- GetU32(spikeNextPc.1);
    Ok((RecentCommit(cycle.0, dutPc.0, dutInstruction.0, spikePc.0, spikeInstruction.0, spikeNextPc.0, tail.0), tail.1))
  }

  function PutRecents(v: seq<RecentCommit>, rest: seq<byte>): (s: seq<byte>)
    ensures GetRecents(|v|, s) == Ok((v, rest))
  {
    if v == [] then rest
    else
      assert v == [v[0]] + v[1..];
      PutRecent(v[0], PutRecents(v[1..], rest))
  }

  function GetRecents(n: nat, s: seq<byte>): (r: Parsed<seq<RecentCommit>>)
    ensures r.Ok? ==> |r.value.0| == n
  {
    if n == 0 then Ok(([], s))
    else
      var h :- GetRecent(s);
      var t :- GetRecents(n - 1, h.1);
      Ok(([h.0] + t.0, t.1))
  }

  function PutOptionalU64s(v: Option<seq<u64>>, n: nat, rest: seq<byte>): (s: seq<byte>)
    requires v.Some? ==> |v.value| == n
    ensures GetOptionalU64s(n, s) == Ok((v, rest))
  {
    match v case None => PutBool(false, rest) case Some(x) => PutBool(true, PutU64s(x, rest))
  }

  function GetOptionalU64s(n: nat, s: seq<byte>): Parsed<Option<seq<u64>>> {
    var present :- GetBool(s);
    if !present.0 then Ok((None, present.1))
    else
      var x :- GetU64s(n, present.1);
      Ok((Some(x.0), x.1))
  }

  function PutOptionalU32(v: Option<u32>, rest: seq<byte>): (s: seq<byte>)
    ensures GetOptionalU32(s) == Ok((v, rest))
  {
    match v case None => PutBool(false, rest) case Some(x) => PutBool(true, PutU32(x, rest))
  }

  function GetOptionalU32(s: seq<byte>): Parsed<Option<u32>> {
    var present :- GetBool(s);
    if !present.0 then Ok((None, present.1))
    else
      var x :- GetU32(present.1);
      Ok((Some(x.0), x.1))
  }

  /** Words of a PerformanceSnapshot and of an InstructionStatistic. */
  const SNAPSHOT_WORDS := 93
  const STATISTIC_WORDS := 14

  /** The five counters that come first, the sixty-four tracked registers, the measurement. */
  datatype Progress = Progress(counters: seq<u64>, registers: seq<u32>, measured: Option<seq<u64>>,
    capture: bool, referenceComplete: bool, lastRetirePc: u32, simulationTime: u64)
  {
    predicate Shaped() {
      |counters| == 5 && |registers| == 64 && (measured.Some? ==> |measured.value| == SNAPSHOT_WORDS)
    }
  }

  function PutProgress(p: Progress, rest: seq<byte>): (s: seq<byte>)
    requires p.Shaped()
    ensures GetProgress(s) == Ok((p, rest))
  {
    PutU64s(p.counters, PutU32s(p.registers, PutOptionalU64s(p.measured, SNAPSHOT_WORDS,
      PutBool(p.capture, PutBool(p.referenceComplete, PutU32(p.lastRetirePc, PutU64(p.simulationTime, rest)))))))
  }

  function GetProgress(s: seq<byte>): Parsed<Progress> {
    var counters :- GetU64s(5, s);
    var registers :- GetU32s(64, counters.1);
    var measured :- GetOptionalU64s(SNAPSHOT_WORDS, registers.1);
    var capture :- GetBool(measured.1);
    var complete :- GetBool(capture.1);
    var pc :- GetU32(complete.1);
    var time :- GetU64(pc.1);
    Ok((Progress(counters.0, registers.0, measured.0, capture.0, complete.0, pc.0, time.0), time.1))
  }

  datatype History = History(pending: Option<u32>, recent: seq<RecentCommit>, recentCount: u64, markerSeen: bool,
    waitingAfterWfi: bool, instructions: seq<u64>, performance: seq<u64>)
  {
    predicate Shaped() { |recent| == 16 && |instructions| == STATISTIC_WORDS && |performance| == SNAPSHOT_WORDS }
  }

  /** The rest of the simulation state and the statistics section behind it. */
  function PutHistory(h: History, rest: seq<byte>): (s: seq<byte>)
    requires h.Shaped()
    ensures GetHistory(s) == Ok((h, rest))
  {
    PutOptionalU32(h.pending, PutRecents(h.recent, PutU64(h.recentCount,
      PutBool(h.markerSeen, PutBool(h.waitingAfterWfi, PutU64s(h.instructions, PutU64s(h.performance, rest)))))))
  }

  function GetHistory(s: seq<byte>): Parsed<History> {
    var pending :- GetOptionalU32(s);
    var recent :- GetRecents(16, pending.1);
    var count :- GetU64(recent.1);
    var marker :- GetBool(count.1);
    var waiting :- GetBool(marker.1);
    var instructions :- GetU64s(STATISTIC_WORDS, waiting.1);
    var performance :- GetU64s(SNAPSHOT_WORDS, instructions.1);
    Ok((History(pending.0, recent.0, count.0, marker.0, waiting.0, instructions.0, performance.0), performance.1))
  }

  // ----- the reference's section -----

  type CsrList = seq<(u64, u64)>

  function PutCsrs(v: CsrList, rest: seq<byte>): (s: seq<byte>)
    ensures GetCsrs(|v|, s) == Ok((v, rest))
  {
    if v == [] then rest
    else
      assert v == [(v[0].0, v[0].1)] + v[1..];
      PutU64(v[0].0, PutU64(v[0].1, PutCsrs(v[1..], rest)))
  }

  function GetCsrs(n: nat, s: seq<byte>): (r: Parsed<CsrList>)
    ensures r.Ok? ==> |r.value.0| == n
  {
    if n == 0 then Ok(([], s))
    else
      var address :- GetU64(s);
      var value :- GetU64(address.1);
      var t :- GetCsrs(n - 1, value.1);
      Ok(([(address.0, value.0)] + t.0, t.1))
  }

  /** Vector configuration, registers and count of the performance core; the last byte of
      the configuration is padding. */
  datatype VectorUnit = VectorUnit(vl: u32, vtype: u32, vstart: u32, vxrm: byte, vxsat: byte, fflags: byte,
    padding: byte, registers: seq<byte>, setvlCount: u32)
  {
    predicate Shaped() { |registers| == VECTOR_BYTES }
  }

  const VECTOR_BYTES := 1024

  function PutVectorUnit(v: VectorUnit, rest: seq<byte>): (s: seq<byte>)
    requires v.Shaped()
    ensures GetVectorUnit(s) == Ok((v, rest))
  {
    PutU32(v.vl, PutU32(v.vtype, PutU32(v.vstart, PutU8(v.vxrm, PutU8(v.vxsat, PutU8(v.fflags, PutU8(v.padding,
      PutBytes(v.registers, PutU32(v.setvlCount, rest)))))))))
  }

  function GetVectorUnit(s: seq<byte>): Parsed<VectorUnit> {
    var vl :- GetU32(s);
    var vtype :- GetU32(vl.1);
    var vstart :- GetU32(vtype.1);
    var vxrm :- GetU8(vstart.1);
    var vxsat :- GetU8(vxrm.1);
    var fflags :- GetU8(vxsat.1);
    var padding :- GetU8(fflags.1);
    var registers :- GetBytes(VECTOR_BYTES, padding.1);
    var count :- GetU32(registers.1);
    Ok((VectorUnit(vl.0, vtype.0, vstart.0, vxrm.0, vxsat.0, fflags.0, padding.0, registers.0, count.0), count.1))
  }

  /** The section is there in a performance build only, and nothing marks it. */
  function PutOptionalVector(v: Option<VectorUnit>, rest: seq<byte>): (s: seq<byte>)
    requires v.Some? ==> v.value.Shaped()
    ensures GetOptionalVector(v.Some?, s) == Ok((v, rest))
  {
    match v case None => rest case Some(x) => PutVectorUnit(x, rest)
  }

  function GetOptionalVector(performance: bool, s: seq<byte>): Parsed<Option<VectorUnit>> {
    if !performance then Ok((None, s))
    else
      var v :- GetVectorUnit(s);
      Ok((Some(v.0), v.1))
  }

  /** What the reference model writes about its processor: pc, privilege, registers, vector
      unit, CSRs and the load reservation. */
  datatype Processor = Processor(pc: u64, privilege: u64, integers: seq<u64>, floats: seq<u64>,
    vector: Option<VectorUnit>, csrs: CsrList, reserved: bool, reservation: u32)
  {
    predicate Shaped() {
      |integers| == 32 && |floats| == 64 && |csrs| < TWO64 && (vector.Some? ==> vector.value.Shaped())
    }
  }

  function PutProcessor(p: Processor, rest: seq<byte>): seq<byte>
    requires p.Shaped()
  {
    PutU64(p.pc, PutU64(p.privilege, PutU64s(p.integers, PutU64s(p.floats, PutOptionalVector(p.vector, PutU64(|p.csrs|,
      PutCsrs(p.csrs, PutBool(p.reserved, PutU32(p.reservation, rest)))))))))
  }

  function GetProcessor(performance: bool, s: seq<byte>): Parsed<Processor> {
    var pc :- GetU64(s);
    var privilege :- GetU64(pc.1);
    var integers :- GetU64s(32, privilege.1);
    var floats :- GetU64s(64, integers.1);
    var vector :- GetOptionalVector(performance, floats.1);
    var count :- GetCount(CSR_LIMIT, vector.1);
    var csrs :- GetCsrs(count.0, count.1);
    var reserved :- GetBool(csrs.1);
    var reservation :- GetU32(reserved.1);
    Ok((Processor(pc.0, privilege.0, integers.0, floats.0, vector.0, csrs.0, reserved.0, reservation.0), reservation.1))
  }

  lemma {:induction false} ProcessorRoundTrip(p: Processor, rest: seq<byte>)
    requires p.Shaped()
    ensures GetProcessor(p.vector.Some?, PutProcessor(p, rest))
         == if |p.csrs| <= CSR_LIMIT then Ok((p, rest)) else Err(CountExceedsLimit)
  {
    hide PutU64, PutU64s, PutBool, PutU32, PutCsrs, PutOptionalVector, GetU64s, GetBool, GetU32, GetCsrs,
      GetOptionalVector;
  }

  function PutOptionalDevices(d: Option<Devices>, rest: seq<byte>): seq<byte>
    requires d.Some? ==> |d.value.input| < TWO64 && |d.value.output| < TWO64
  {
    match d case None => PutBool(false, rest) case Some(x) => PutBool(true, PutDevices(x, rest))
  }

  /** The platform section must be present exactly when the run has a platform. */
  function GetOptionalDevices(expected: bool, s: seq<byte>): Parsed<Option<Devices>> {
    var present :- GetBool(s);
    if present.0 != expected then Err(PlatformMismatch)
    else if !present.0 then Ok((None, present.1))
    else
      var d :- GetDevices(present.1);
      Ok((Some(d.0), d.1))
  }

  predicate OptionalDevicesWithinLimits(d: Option<Devices>) { d.Some? ==> DevicesWithinLimits(d.value) }

  lemma {:induction false} OptionalDevicesRoundTrip(d: Option<Devices>, rest: seq<byte>)
    requires d.Some? ==> |d.value.input| < TWO64 && |d.value.output| < TWO64
    ensures GetOptionalDevices(d.Some?, PutOptionalDevices(d, rest))
         == if OptionalDevicesWithinLimits(d) then Ok((d, rest)) else Err(CountExceedsLimit)
  {
    hide PutDevices, GetDevices;
    if d.Some? { DevicesRoundTrip(d.value, rest); }
  }

  // ----- CSRs that this build has, and CSRs that it needs -----

  const MSTATUS: u64 := 0x300
  const MCYCLE: u64 := 0xb00
  const MCYCLEH: u64 := 0xb80
  const MINSTRET: u64 := 0xb02
  const MINSTRETH: u64 := 0xb82

  /** What a build of the reference has: a vector unit or not, and its CSRs. */
  datatype Build = Build(vector: bool, csrs: set<u64>)

  predicate Holds(csrs: CsrList, address: u64) { exists k :: 0 <= k < |csrs| && csrs[k].0 == address }

  predicate AllPresent(known: set<u64>, csrs: CsrList) { forall k :: 0 <= k < |csrs| ==> csrs[k].0 in known }

  /** The errors of applying restored CSRs, first one first: mstatus, then each CSR of the
      list, then the halves of both counters. */
  function CsrFault(known: set<u64>, csrs: CsrList): Option<Error> {
    if !Holds(csrs, MSTATUS) then Some(MissingMstatus)
    else if !AllPresent(known, csrs) then Some(AbsentCsr)
    else if !(Holds(csrs, MCYCLE) && Holds(csrs, MCYCLEH) && Holds(csrs, MINSTRET) && Holds(csrs, MINSTRETH))
    then Some(MissingCounterHalf)
    else None
  }

  function Addresses(csrs: CsrList): set<u64> { set k | 0 <= k < |csrs| :: csrs[k].0 }

  const NEEDED: set<u64> := {MSTATUS, MCYCLE, MCYCLEH, MINSTRET, MINSTRETH}

  /** Exactly which lists of CSRs can be applied: with mstatus, mcycle, mcycleh, minstret and
      minstreth, and with no CSR that this build has not. */
  lemma {:induction false} CsrsApplyIff(known: set<u64>, csrs: CsrList)
    ensures CsrFault(known, csrs) == None <==> {0x300, 0xb00, 0xb80, 0xb02, 0xb82} <= Addresses(csrs) <= known
  {
    forall a: u64 ensures Holds(csrs, a) <==> a in Addresses(csrs) {
    }
    assert AllPresent(known, csrs) <==> Addresses(csrs) <= known by {
      forall k | 0 <= k < |csrs| ensures csrs[k].0 in Addresses(csrs) {
      }
    }
  }

  datatype Reference = Reference(processor: Processor, words: WordMap, devices: Option<Devices>)

  predicate ReferenceFits(r: Reference) {
    && r.processor.Shaped() && NEEDED <= Addresses(r.processor.csrs)
    && (r.devices.Some? ==> |r.devices.value.input| < TWO64 && |r.devices.value.output| < TWO64)
  }

  function PutReference(r: Reference, order: Pairs, rest: seq<byte>): seq<byte>
    requires ReferenceFits(r) && |order| < TWO64
  {
    PutProcessor(r.processor, PutWords(order, PutOptionalDevices(r.devices, rest)))
  }

  /** The build that has written this state: it writes all its CSRs. */
  function BuildOf(r: Reference): Build { Build(r.processor.vector.Some?, Addresses(r.processor.csrs)) }

  function GetReference(platform: bool, build: Build, s: seq<byte>): Parsed<Reference> {
    var processor :- GetProcessor(build.vector, s);
    var words :- GetWords(processor.1);
    var devices :- GetOptionalDevices(platform, words.1);
    match CsrFault(build.csrs, processor.0.csrs)
    case Some(e) => Err(e)
    case None => Ok((Reference(processor.0, words.0, devices.0), devices.1))
  }

  predicate ReferenceWithinLimits(r: Reference) {
    |r.processor.csrs| <= CSR_LIMIT && |r.words| <= WORD_LIMIT && OptionalDevicesWithinLimits(r.devices)
  }

  lemma {:induction false} ReferenceRoundTrip(r: Reference, order: Pairs, rest: seq<byte>)
    requires ReferenceFits(r) && Enumerates(order, r.words) && |order| < TWO64
    ensures GetReference(r.devices.Some?, BuildOf(r), PutReference(r, order, rest))
         == if ReferenceWithinLimits(r) then Ok((r, rest)) else Err(CountExceedsLimit)
  {
    hide PutProcessor, GetProcessor, PutWords, GetWords, PutOptionalDevices, GetOptionalDevices, CsrFault, Addresses,
      Processor.Shaped;
    ProcessorRoundTrip(r.processor, PutWords(order, PutOptionalDevices(r.devices, rest)));
    WordsRoundTrip(r.words, order, PutOptionalDevices(r.devices, rest));
    OptionalDevicesRoundTrip(r.devices, rest);
    CsrsApplyIff(BuildOf(r).csrs, r.processor.csrs);
  }
}
