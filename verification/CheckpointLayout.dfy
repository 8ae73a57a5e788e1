/** The bytes of a checkpoint, field by field in the order in which the source writes them
    (src/main.cc:953-1000, src/AXIMemory.cc:178-207, src/PlatformDevices.cc:215-229,
    src/SpikeReference.cc:452-486): every number is little-endian in its own width. */
module CheckpointLayout {
  import opened Words
  import opened Checkpoint
  import opened Platform
  import opened AxiSlave
  import opened AxiCheckpoint
  import opened HostCheckpoint

  function Bytes1(v: nat): seq<byte> { Split(v, 1) }
  function Bytes4(v: nat): seq<byte> { Split(v, 4) }
  function Bytes8(v: nat): seq<byte> { Split(v, 8) }
  function Flag(b: bool): seq<byte> { Bytes1(if b then 1 else 0) }

  /** A number in n bytes and the rest behind it. */
  lemma {:induction false} FieldLayout(rest: seq<byte>)
    ensures forall v: byte :: PutU8(v, rest) == Bytes1(v) + rest
    ensures forall v: bool :: PutBool(v, rest) == Flag(v) + rest
    ensures forall v: u32 :: PutU32(v, rest) == Bytes4(v) + rest
    ensures forall v: u64 :: PutU64(v, rest) == Bytes8(v) + rest
  {
  }

  function Bytes4s(v: seq<u32>): seq<byte> { if v == [] then [] else Bytes4(v[0]) + Bytes4s(v[1..]) }
  function Bytes8s(v: seq<u64>): seq<byte> { if v == [] then [] else Bytes8(v[0]) + Bytes8s(v[1..]) }

  lemma {:induction false} ArrayLayout4(v: seq<u32>, rest: seq<byte>)
    ensures PutU32s(v, rest) == Bytes4s(v) + rest && |Bytes4s(v)| == 4 * |v|
  {
    hide Split;
    if v != [] { ArrayLayout4(v[1..], rest); }
  }

  lemma {:induction false} ArrayLayout8(v: seq<u64>, rest: seq<byte>)
    ensures PutU64s(v, rest) == Bytes8s(v) + rest && |Bytes8s(v)| == 8 * |v|
  {
    hide Split;
    if v != [] { ArrayLayout8(v[1..], rest); }
  }

  /** A read context takes 19 bytes. */
  lemma {:induction false} ReadLayout(r: ReadTransaction, rest: seq<byte>)
    requires r.address < TWO64 && r.size < TWO64
    ensures PutRead(r, rest)
      == Flag(r.active) + (Bytes8(r.address) + (Bytes8(r.size) + (Bytes1(r.length) + (Bytes1(r.beat) + rest))))
  {
    hide Split;
  }

  /** The AXI section: exit monitor and its value (0 without one), generator, R registers, both
      read contexts, write registers. */
  lemma {:induction false} AxiLayout(s: Slave, rng: bv64, rest: seq<byte>)
    requires Inv(s) && rng != 0
    ensures PutAxi(s, rng, rest)
      == Flag(s.exit.Some?) + (Bytes4(if s.exit.Some? then s.exit.value.value else 0) + (Bytes8(rng as u64)
         + (Flag(s.readDataValid) + (Bytes4s(s.readData) + (Bytes1(s.readSelectedId) + (Bytes1(s.readResponse)
         + PutRead(s.contexts[0], PutRead(s.contexts[1], WriteRegisters(s, rest)))))))))
  {
    hide Split, Bytes4s, PutRead;
    ArrayLayout4(s.readData, PutU8(s.readSelectedId, PutU8(s.readResponse, PutRead(s.contexts[0],
      PutRead(s.contexts[1], WriteRegisters(s, rest))))));
  }

  function WriteRegisters(s: Slave, rest: seq<byte>): seq<byte>
    requires Inv(s)
  {
    Flag(s.writeActive) + (Flag(s.writeResponseValid) + (Bytes8(s.writeAddress) + (Bytes8(s.writeSize)
      + (Bytes1(s.writeLength) + (Bytes1(s.writeBeat) + (Bytes1(s.writeId) + (Bytes1(s.writeResponse) + rest)))))))
  }

  /** The header. */
  lemma {:induction false} HeaderLayout(c: Configuration, rest: seq<byte>)
    requires |c.identity| < TWO64
    ensures PutHeader(c, rest)
      == Bytes8(0x5a49_5243_4f4e_4350) + (Bytes4(5) + (Bytes8(|c.identity|) + (c.identity + (Bytes8(c.image)
         + (Bytes8(c.rtl) + (Bytes1(c.platform) + (Flag(c.difftest) + (Bytes8(c.seed) + rest))))))))
  {
    hide Split;
  }

  /** Counters, tracked registers and measurement, 93 counters long if there is one. */
  lemma {:induction false} ProgressLayout(p: Progress, rest: seq<byte>)
    requires p.Shaped()
    ensures p.measured.Some? ==> |p.measured.value| == 93
    ensures var tail := Flag(p.capture) + (Flag(p.referenceComplete) + (Bytes4(p.lastRetirePc)
        + (Bytes8(p.simulationTime) + rest)));
      PutProgress(p, rest) == Bytes8s(p.counters) + (Bytes4s(p.registers)
        + if p.measured.None? then Flag(false) + tail else Flag(true) + (Bytes8s(p.measured.value) + tail))
  {
    hide Split, Bytes4s, Bytes8s, PutU32s, PutU64s;
    var tail := PutBool(p.capture, PutBool(p.referenceComplete, PutU32(p.lastRetirePc,
      PutU64(p.simulationTime, rest))));
    var later := PutOptionalU64s(p.measured, SNAPSHOT_WORDS, tail);
    if p.measured.Some? { ArrayLayout8(p.measured.value, tail); }
    ArrayLayout4(p.registers, later);
    ArrayLayout8(p.counters, PutU32s(p.registers, later));
  }

  /** Pending branch, sixteen recent commits, markers, and 14 and 93 statistics. */
  lemma {:induction false} HistoryLayout(h: History, rest: seq<byte>)
    requires h.Shaped()
    ensures |h.recent| == 16 && |h.instructions| == 14 && |h.performance| == 93
    ensures var tail := PutRecents(h.recent, Bytes8(h.recentCount) + (Flag(h.markerSeen) + (Flag(h.waitingAfterWfi)
        + (Bytes8s(h.instructions) + (Bytes8s(h.performance) + rest)))));
      PutHistory(h, rest)
      == if h.pending.None? then Flag(false) + tail else Flag(true) + (Bytes4(h.pending.value) + tail)
  {
    hide Split, Bytes8s, PutU64s, PutRecents;
    ArrayLayout8(h.performance, rest);
    ArrayLayout8(h.instructions, PutU64s(h.performance, rest));
  }

  /** The devices: time, compare, subcycle, five UART registers, input and output. */
  lemma {:induction false} DevicesLayout(d: Devices, rest: seq<byte>)
    requires |d.input| < TWO64 && |d.output| < TWO64
    ensures PutDevices(d, rest)
      == Bytes8(d.mtime) + (Bytes8(d.mtimecmp) + (Bytes4(d.subcycle) + (Bytes1(d.ier) + (Bytes1(d.lcr)
         + (Bytes1(d.mcr) + (Bytes1(d.dll) + (Bytes1(d.dlm) + (Bytes8(|d.input|) + (d.input
         + (Bytes8(|d.output|) + (d.output + rest)))))))))))
  {
    hide Split;
  }

  /** The processor of the reference: pc, privilege, registers, vector unit, CSRs, reservation;
      the vector unit takes 20 + 1024 + 4 bytes. */
  lemma {:induction false} ProcessorLayout(p: Processor, rest: seq<byte>)
    requires p.Shaped()
    ensures var tail := Bytes8(|p.csrs|) + PutCsrs(p.csrs, Flag(p.reserved) + (Bytes4(p.reservation) + rest));
      PutProcessor(p, rest)
      == Bytes8(p.pc) + (Bytes8(p.privilege) + (Bytes8s(p.integers) + (Bytes8s(p.floats)
         + if p.vector.None? then tail else PutVectorUnit(p.vector.value, tail))))
  {
    hide Split, Bytes8s, PutU64s, PutCsrs, PutVectorUnit;
    var tail := PutU64(|p.csrs|, PutCsrs(p.csrs, PutBool(p.reserved, PutU32(p.reservation, rest))));
    var later := PutOptionalVector(p.vector, tail);
    ArrayLayout8(p.floats, later);
    ArrayLayout8(p.integers, PutU64s(p.floats, later));
  }

  lemma {:induction false} VectorLayout(v: VectorUnit, rest: seq<byte>)
    requires v.Shaped()
    ensures |v.registers| == 1024
    ensures PutVectorUnit(v, rest)
      == Bytes4(v.vl) + (Bytes4(v.vtype) + (Bytes4(v.vstart) + (Bytes1(v.vxrm) + (Bytes1(v.vxsat)
         + (Bytes1(v.fflags) + (Bytes1(v.padding) + (v.registers + (Bytes4(v.setvlCount) + rest))))))))
  {
    hide Split;
  }

  /** A list entry of each kind. */
  lemma {:induction false} EntryLayout(e: ProfileEntry, c: RecentCommit, csr: (u64, u64), rest: seq<byte>)
    ensures PutEntry(e, rest) == Bytes4(e.instruction) + (Bytes4(e.padding) + (Bytes8(e.executions)
      + (Bytes8(e.mispredictions) + (Bytes8(e.taken) + rest))))
    ensures PutRecent(c, rest) == Bytes8(c.cycle) + (Bytes4(c.dutPc) + (Bytes4(c.dutInstruction) + (Bytes4(c.spikePc)
      + (Bytes4(c.spikeInstruction) + (Bytes4(c.spikeNextPc) + (Bytes4(c.laneAndPadding) + rest))))))
    ensures PutCsrs([csr], rest) == Bytes8(csr.0) + (Bytes8(csr.1) + rest)
  {
    hide Split;
    assert [csr][1..] == [];
  }
}
