/** Truncated checkpoints: every decoder reads its stream from the front and stops where
    its fields end, so what it makes of a beginning it also makes of the whole, and no
    checkpoint is accepted before its last byte (include/Checkpoint.h:38-44,
    src/Checkpoint.cc:42-74). */
module Truncation {
  import opened Words
  import opened Checkpoint
  import opened Memory
  import opened Platform
  import opened Rng
  import opened AxiSlave
  import opened AxiCheckpoint
  import opened HostCheckpoint
  import opened HostStream

  /** q, the result on a longer stream, is p with the t more bytes behind it, unless p ran
      out of bytes. */
  predicate Steady<T(==)>(p: Parsed<T>, q: Parsed<T>, t: seq<byte>) {
    match p
    case Ok(f) => q == Ok((f.0, f.1 + t))
    case Err(e) => e == Truncated || q == Err(e)
  }

  predicate SteadyRest(p: Result<seq<byte>>, q: Result<seq<byte>>, t: seq<byte>) {
    match p
    case Ok(rest) => q == Ok(rest + t)
    case Err(e) => e == Truncated || q == Err(e)
  }

  // ----- fields -----

  lemma {:induction false} SlicesSteady(n: nat, s: seq<byte>, t: seq<byte>)
    requires n <= |s|
    ensures (s + t)[..n] == s[..n] && (s + t)[n..] == s[n..] + t
  {
  }

  lemma {:induction false} FieldSteady(width: nat, s: seq<byte>, t: seq<byte>)
    ensures Steady(Get(width, s), Get(width, s + t), t)
  {
    hide Join, Pow256;
    if width <= |s| { SlicesSteady(width, s, t); }
  }

  lemma {:induction false} U8Steady()
    ensures forall s: seq<byte>, t: seq<byte> {:trigger GetU8(s + t)} :: Steady(GetU8(s), GetU8(s + t), t)
  {
    hide Get;
    forall s: seq<byte>, t: seq<byte> ensures Steady(GetU8(s), GetU8(s + t), t) { FieldSteady(1, s, t); }
  }

  lemma {:induction false} U32Steady()
    ensures forall s: seq<byte>, t: seq<byte> {:trigger GetU32(s + t)} :: Steady(GetU32(s), GetU32(s + t), t)
  {
    hide Get;
    forall s: seq<byte>, t: seq<byte> ensures Steady(GetU32(s), GetU32(s + t), t) { FieldSteady(4, s, t); }
  }

  lemma {:induction false} U64Steady()
    ensures forall s: seq<byte>, t: seq<byte> {:trigger GetU64(s + t)} :: Steady(GetU64(s), GetU64(s + t), t)
  {
    hide Get;
    forall s: seq<byte>, t: seq<byte> ensures Steady(GetU64(s), GetU64(s + t), t) { FieldSteady(8, s, t); }
  }

  lemma {:induction false} BytesSteady()
    ensures forall n: nat, s: seq<byte>, t: seq<byte> {:trigger GetBytes(n, s + t)} ::
      Steady(GetBytes(n, s), GetBytes(n, s + t), t)
  {
    forall n: nat, s: seq<byte>, t: seq<byte> ensures Steady(GetBytes(n, s), GetBytes(n, s + t), t) {
      if n <= |s| { SlicesSteady(n, s, t); }
    }
  }

  lemma {:induction false} BoolSteady()
    ensures forall s: seq<byte>, t: seq<byte> {:trigger GetBool(s + t)} ::
      Steady(GetBool(s), GetBool(s + t), t)
  {
    hide GetU8;
    U8Steady();
    forall s: seq<byte>, t: seq<byte>
      ensures Steady(GetBool(s), GetBool(s + t), t)
    {
    }
  }

  lemma {:induction false} CountSteady()
    ensures forall maximum: nat, s: seq<byte>, t: seq<byte> {:trigger GetCount(maximum, s + t)} ::
      Steady(GetCount(maximum, s), GetCount(maximum, s + t), t)
  {
    hide GetU64;
    U64Steady();
    forall maximum: nat, s: seq<byte>, t: seq<byte>
      ensures Steady(GetCount(maximum, s), GetCount(maximum, s + t), t)
    {
    }
  }

  lemma {:induction false} StringSteady()
    ensures forall maximum: nat, s: seq<byte>, t: seq<byte> {:trigger GetString(maximum, s + t)} ::
      Steady(GetString(maximum, s), GetString(maximum, s + t), t)
  {
    hide GetCount, GetBytes;
    CountSteady();
    BytesSteady();
    forall maximum: nat, s: seq<byte>, t: seq<byte>
      ensures Steady(GetString(maximum, s), GetString(maximum, s + t), t)
    {
    }
  }

  // ----- arrays and maps -----

  lemma {:induction false} U32sSteadyOf(n: nat, s: seq<byte>, t: seq<byte>)
    ensures Steady(GetU32s(n, s), GetU32s(n, s + t), t)
    decreases n
  {
    hide GetU32;
    U32Steady();
    if n > 0 {
      var h := GetU32(s);
      if h.Ok? { U32sSteadyOf(n - 1, h.value.1, t); }
    }
  }

  lemma {:induction false} U32sSteady()
    ensures forall n: nat, s: seq<byte>, t: seq<byte> {:trigger GetU32s(n, s + t)} ::
      Steady(GetU32s(n, s), GetU32s(n, s + t), t)
  {
    forall n: nat, s: seq<byte>, t: seq<byte> ensures Steady(GetU32s(n, s), GetU32s(n, s + t), t) {
      U32sSteadyOf(n, s, t);
    }
  }

  lemma {:induction false} U64sSteadyOf(n: nat, s: seq<byte>, t: seq<byte>)
    ensures Steady(GetU64s(n, s), GetU64s(n, s + t), t)
    decreases n
  {
    hide GetU64;
    U64Steady();
    if n > 0 {
      var h := GetU64(s);
      if h.Ok? { U64sSteadyOf(n - 1, h.value.1, t); }
    }
  }

  lemma {:induction false} U64sSteady()
    ensures forall n: nat, s: seq<byte>, t: seq<byte> {:trigger GetU64s(n, s + t)} ::
      Steady(GetU64s(n, s), GetU64s(n, s + t), t)
  {
    forall n: nat, s: seq<byte>, t: seq<byte> ensures Steady(GetU64s(n, s), GetU64s(n, s + t), t) {
      U64sSteadyOf(n, s, t);
    }
  }

  lemma {:induction false} PairsSteadyOf(n: nat, s: seq<byte>, t: seq<byte>)
    ensures Steady(GetPairs(n, s), GetPairs(n, s + t), t)
    decreases n
  {
    hide GetU32;
    U32Steady();
    if n > 0 {
      var k := GetU32(s);
      if k.Ok? {
        var v := GetU32(k.value.1);
        if v.Ok? { PairsSteadyOf(n - 1, v.value.1, t); }
      }
    }
  }

  lemma {:induction false} PairsSteady()
    ensures forall n: nat, s: seq<byte>, t: seq<byte> {:trigger GetPairs(n, s + t)} ::
      Steady(GetPairs(n, s), GetPairs(n, s + t), t)
  {
    forall n: nat, s: seq<byte>, t: seq<byte> ensures Steady(GetPairs(n, s), GetPairs(n, s + t), t) {
      PairsSteadyOf(n, s, t);
    }
  }

  lemma {:induction false} CsrsSteadyOf(n: nat, s: seq<byte>, t: seq<byte>)
    ensures Steady(GetCsrs(n, s), GetCsrs(n, s + t), t)
    decreases n
  {
    hide GetU64;
    U64Steady();
    if n > 0 {
      var k := GetU64(s);
      if k.Ok? {
        var v := GetU64(k.value.1);
        if v.Ok? { CsrsSteadyOf(n - 1, v.value.1, t); }
      }
    }
  }

  lemma {:induction false} CsrsSteady()
    ensures forall n: nat, s: seq<byte>, t: seq<byte> {:trigger GetCsrs(n, s + t)} ::
      Steady(GetCsrs(n, s), GetCsrs(n, s + t), t)
  {
    forall n: nat, s: seq<byte>, t: seq<byte> ensures Steady(GetCsrs(n, s), GetCsrs(n, s + t), t) {
      CsrsSteadyOf(n, s, t);
    }
  }

  lemma {:induction false} EntrySteady()
    ensures forall s: seq<byte>, t: seq<byte> {:trigger GetEntry(s + t)} ::
      Steady(GetEntry(s), GetEntry(s + t), t)
  {
    hide GetU32, GetU64;
    U32Steady();
    U64Steady();
    forall s: seq<byte>, t: seq<byte>
      ensures Steady(GetEntry(s), GetEntry(s + t), t)
    {
    }
  }

  lemma {:induction false} EntriesSteadyOf(n: nat, s: seq<byte>, t: seq<byte>)
    ensures Steady(GetEntries(n, s), GetEntries(n, s + t), t)
    decreases n
  {
    hide GetU32, GetEntry;
    U32Steady();
    EntrySteady();
    if n > 0 {
      var pc := GetU32(s);
      if pc.Ok? {
        var e := GetEntry(pc.value.1);
        if e.Ok? { EntriesSteadyOf(n - 1, e.value.1, t); }
      }
    }
  }

  lemma {:induction false} EntriesSteady()
    ensures forall n: nat, s: seq<byte>, t: seq<byte> {:trigger GetEntries(n, s + t)} ::
      Steady(GetEntries(n, s), GetEntries(n, s + t), t)
  {
    forall n: nat, s: seq<byte>, t: seq<byte> ensures Steady(GetEntries(n, s), GetEntries(n, s + t), t) {
      EntriesSteadyOf(n, s, t);
    }
  }

  lemma {:induction false} RecentSteady()
    ensures forall s: seq<byte>, t: seq<byte> {:trigger GetRecent(s + t)} ::
      Steady(GetRecent(s), GetRecent(s + t), t)
  {
    hide GetU32, GetU64;
    U32Steady();
    U64Steady();
    forall s: seq<byte>, t: seq<byte>
      ensures Steady(GetRecent(s), GetRecent(s + t), t)
    {
    }
  }

  lemma {:induction false} RecentsSteadyOf(n: nat, s: seq<byte>, t: seq<byte>)
    ensures Steady(GetRecents(n, s), GetRecents(n, s + t), t)
    decreases n
  {
    hide GetRecent;
    RecentSteady();
    if n > 0 {
      var h := GetRecent(s);
      if h.Ok? { RecentsSteadyOf(n - 1, h.value.1, t); }
    }
  }

  lemma {:induction false} RecentsSteady()
    ensures forall n: nat, s: seq<byte>, t: seq<byte> {:trigger GetRecents(n, s + t)} ::
      Steady(GetRecents(n, s), GetRecents(n, s + t), t)
  {
    forall n: nat, s: seq<byte>, t: seq<byte> ensures Steady(GetRecents(n, s), GetRecents(n, s + t), t) {
      RecentsSteadyOf(n, s, t);
    }
  }

  lemma {:induction false} WordsSteady()
    ensures forall s: seq<byte>, t: seq<byte> {:trigger GetWords(s + t)} ::
      Steady(GetWords(s), GetWords(s + t), t)
  {
    hide GetCount, GetPairs, Collect;
    CountSteady();
    PairsSteady();
    forall s: seq<byte>, t: seq<byte>
      ensures Steady(GetWords(s), GetWords(s + t), t)
    {
    }
  }

  lemma {:induction false} ProfileSteady()
    ensures forall s: seq<byte>, t: seq<byte> {:trigger GetProfile(s + t)} ::
      Steady(GetProfile(s), GetProfile(s + t), t)
  {
    hide GetCount, GetEntries, CollectFirst;
    CountSteady();
    EntriesSteady();
    forall s: seq<byte>, t: seq<byte>
      ensures Steady(GetProfile(s), GetProfile(s + t), t)
    {
    }
  }

  // ----- devices and bus -----

  lemma {:induction false} TimerSteady()
    ensures forall s: seq<byte>, t: seq<byte> {:trigger GetTimer(s + t)} ::
      Steady(GetTimer(s), GetTimer(s + t), t)
  {
    hide GetU32, GetU64;
    U32Steady();
    U64Steady();
    forall s: seq<byte>, t: seq<byte>
      ensures Steady(GetTimer(s), GetTimer(s + t), t)
    {
    }
  }

  lemma {:induction false} UartRegistersSteady()
    ensures forall s: seq<byte>, t: seq<byte> {:trigger GetUartRegisters(s + t)} ::
      Steady(GetUartRegisters(s), GetUartRegisters(s + t), t)
  {
    hide GetU8;
    U8Steady();
    forall s: seq<byte>, t: seq<byte>
      ensures Steady(GetUartRegisters(s), GetUartRegisters(s + t), t)
    {
    }
  }

  lemma {:induction false} UartBuffersSteady()
    ensures forall s: seq<byte>, t: seq<byte> {:trigger GetUartBuffers(s + t)} ::
      Steady(GetUartBuffers(s), GetUartBuffers(s + t), t)
  {
    hide GetCount, GetBytes, GetString;
    CountSteady();
    BytesSteady();
    StringSteady();
    forall s: seq<byte>, t: seq<byte>
      ensures Steady(GetUartBuffers(s), GetUartBuffers(s + t), t)
    {
    }
  }

  lemma {:induction false} DevicesSteady()
    ensures forall s: seq<byte>, t: seq<byte> {:trigger GetDevices(s + t)} ::
      Steady(GetDevices(s), GetDevices(s + t), t)
  {
    hide GetTimer, GetUartRegisters, GetUartBuffers;
    TimerSteady();
    UartRegistersSteady();
    UartBuffersSteady();
    forall s: seq<byte>, t: seq<byte>
      ensures Steady(GetDevices(s), GetDevices(s + t), t)
    {
    }
  }

  lemma {:induction false} OptionalDevicesSteady(expected: bool)
    ensures forall s: seq<byte>, t: seq<byte> {:trigger GetOptionalDevices(expected, s + t)} ::
      Steady(GetOptionalDevices(expected, s), GetOptionalDevices(expected, s + t), t)
  {
    hide GetBool, GetDevices;
    BoolSteady();
    DevicesSteady();
    forall s: seq<byte>, t: seq<byte>
      ensures Steady(GetOptionalDevices(expected, s), GetOptionalDevices(expected, s + t), t)
    {
    }
  }

  lemma {:induction false} ReadSteady()
    ensures forall s: seq<byte>, t: seq<byte> {:trigger GetRead(s + t)} ::
      Steady(GetRead(s), GetRead(s + t), t)
  {
    hide GetBool, GetU64, GetU8;
    BoolSteady();
    U64Steady();
    U8Steady();
    forall s: seq<byte>, t: seq<byte>
      ensures Steady(GetRead(s), GetRead(s + t), t)
    {
    }
  }

  lemma {:induction false} ReadSideSteady(words: nat)
    ensures forall s: seq<byte>, t: seq<byte> {:trigger GetReadSide(words, s + t)} ::
      Steady(GetReadSide(words, s), GetReadSide(words, s + t), t)
  {
    hide GetBool, GetU32s, GetU8, GetRead;
    BoolSteady();
    U32sSteady();
    U8Steady();
    ReadSteady();
    forall s: seq<byte>, t: seq<byte>
      ensures Steady(GetReadSide(words, s), GetReadSide(words, s + t), t)
    {
    }
  }

  lemma {:induction false} WritePlaceSteady()
    ensures forall s: seq<byte>, t: seq<byte> {:trigger GetWritePlace(s + t)} ::
      Steady(GetWritePlace(s), GetWritePlace(s + t), t)
  {
    hide GetBool, GetU64;
    BoolSteady();
    U64Steady();
    forall s: seq<byte>, t: seq<byte>
      ensures Steady(GetWritePlace(s), GetWritePlace(s + t), t)
    {
    }
  }

  lemma {:induction false} WriteBurstSteady()
    ensures forall s: seq<byte>, t: seq<byte> {:trigger GetWriteBurst(s + t)} ::
      Steady(GetWriteBurst(s), GetWriteBurst(s + t), t)
  {
    hide GetU8;
    U8Steady();
    forall s: seq<byte>, t: seq<byte>
      ensures Steady(GetWriteBurst(s), GetWriteBurst(s + t), t)
    {
    }
  }

  lemma {:induction false} WriteSideSteady()
    ensures forall s: seq<byte>, t: seq<byte> {:trigger GetWriteSide(s + t)} ::
      Steady(GetWriteSide(s), GetWriteSide(s + t), t)
  {
    hide GetWritePlace, GetWriteBurst;
    WritePlaceSteady();
    WriteBurstSteady();
    forall s: seq<byte>, t: seq<byte>
      ensures Steady(GetWriteSide(s), GetWriteSide(s + t), t)
    {
    }
  }

  lemma {:induction false} ExitSteady(expected: bool)
    ensures forall s: seq<byte>, t: seq<byte> {:trigger GetExit(expected, s + t)} ::
      Steady(GetExit(expected, s), GetExit(expected, s + t), t)
  {
    hide GetBool, GetU32, GetU64, StateOf;
    BoolSteady();
    U32Steady();
    U64Steady();
    forall s: seq<byte>, t: seq<byte>
      ensures Steady(GetExit(expected, s), GetExit(expected, s + t), t)
    {
    }
  }

  lemma {:induction false} AxiSteady(current: Slave)
    ensures forall s: seq<byte>, t: seq<byte> {:trigger GetAxi(current, s + t)} ::
      Steady(GetAxi(current, s), GetAxi(current, s + t), t)
  {
    hide GetExit, GetReadSide, GetWriteSide, WithSides, RestoredExit;
    ExitSteady(current.exit.Some?);
    ReadSideSteady(current.bus / 4);
    WriteSideSteady();
    forall s: seq<byte>, t: seq<byte>
      ensures Steady(GetAxi(current, s), GetAxi(current, s + t), t)
    {
    }
  }

  // ----- the host -----

  lemma {:induction false} RunOptionsSteady(c: Configuration)
    ensures forall s: seq<byte>, t: seq<byte> {:trigger GetRunOptions(c, s + t)} ::
      SteadyRest(GetRunOptions(c, s), GetRunOptions(c, s + t), t)
  {
    hide GetU64, GetU8, GetBool;
    U64Steady();
    U8Steady();
    BoolSteady();
    forall s: seq<byte>, t: seq<byte>
      ensures SteadyRest(GetRunOptions(c, s), GetRunOptions(c, s + t), t)
    {
    }
  }

  lemma {:induction false} HeaderSteady(c: Configuration)
    ensures forall s: seq<byte>, t: seq<byte> {:trigger GetHeader(c, s + t)} ::
      SteadyRest(GetHeader(c, s), GetHeader(c, s + t), t)
  {
    hide GetU64, GetU32, GetString, GetRunOptions;
    U64Steady();
    U32Steady();
    StringSteady();
    RunOptionsSteady(c);
    forall s: seq<byte>, t: seq<byte>
      ensures SteadyRest(GetHeader(c, s), GetHeader(c, s + t), t)
    {
    }
  }

  lemma {:induction false} OptionalU64sSteady()
    ensures forall n: nat, s: seq<byte>, t: seq<byte> {:trigger GetOptionalU64s(n, s + t)} ::
      Steady(GetOptionalU64s(n, s), GetOptionalU64s(n, s + t), t)
  {
    hide GetBool, GetU64s;
    BoolSteady();
    U64sSteady();
    forall n: nat, s: seq<byte>, t: seq<byte>
      ensures Steady(GetOptionalU64s(n, s), GetOptionalU64s(n, s + t), t)
    {
    }
  }

  lemma {:induction false} OptionalU32Steady()
    ensures forall s: seq<byte>, t: seq<byte> {:trigger GetOptionalU32(s + t)} ::
      Steady(GetOptionalU32(s), GetOptionalU32(s + t), t)
  {
    hide GetBool, GetU32;
    BoolSteady();
    U32Steady();
    forall s: seq<byte>, t: seq<byte>
      ensures Steady(GetOptionalU32(s), GetOptionalU32(s + t), t)
    {
    }
  }

  lemma {:induction false} ProgressSteady()
    ensures forall s: seq<byte>, t: seq<byte> {:trigger GetProgress(s + t)} ::
      Steady(GetProgress(s), GetProgress(s + t), t)
  {
    hide GetU64s, GetU32s, GetOptionalU64s, GetBool, GetU32, GetU64;
    U64sSteady();
    U32sSteady();
    OptionalU64sSteady();
    BoolSteady();
    U32Steady();
    U64Steady();
    forall s: seq<byte>, t: seq<byte>
      ensures Steady(GetProgress(s), GetProgress(s + t), t)
    {
    }
  }

  lemma {:induction false} HistorySteady()
    ensures forall s: seq<byte>, t: seq<byte> {:trigger GetHistory(s + t)} ::
      Steady(GetHistory(s), GetHistory(s + t), t)
  {
    hide GetOptionalU32, GetRecents, GetU64, GetBool, GetU64s;
    OptionalU32Steady();
    RecentsSteady();
    U64Steady();
    BoolSteady();
    U64sSteady();
    forall s: seq<byte>, t: seq<byte>
      ensures Steady(GetHistory(s), GetHistory(s + t), t)
    {
    }
  }

  lemma {:induction false} VectorUnitSteady()
    ensures forall s: seq<byte>, t: seq<byte> {:trigger GetVectorUnit(s + t)} ::
      Steady(GetVectorUnit(s), GetVectorUnit(s + t), t)
  {
    hide GetU32, GetU8, GetBytes;
    U32Steady();
    U8Steady();
    BytesSteady();
    forall s: seq<byte>, t: seq<byte>
      ensures Steady(GetVectorUnit(s), GetVectorUnit(s + t), t)
    {
    }
  }

  lemma {:induction false} OptionalVectorSteady(performance: bool)
    ensures forall s: seq<byte>, t: seq<byte> {:trigger GetOptionalVector(performance, s + t)} ::
      Steady(GetOptionalVector(performance, s), GetOptionalVector(performance, s + t), t)
  {
    hide GetVectorUnit;
    VectorUnitSteady();
    forall s: seq<byte>, t: seq<byte>
      ensures Steady(GetOptionalVector(performance, s), GetOptionalVector(performance, s + t), t)
    {
    }
  }

  lemma {:induction false} ProcessorSteady(performance: bool)
    ensures forall s: seq<byte>, t: seq<byte> {:trigger GetProcessor(performance, s + t)} ::
      Steady(GetProcessor(performance, s), GetProcessor(performance, s + t), t)
  {
    hide GetU64, GetU64s, GetOptionalVector, GetCount, GetCsrs, GetBool, GetU32;
    U64Steady();
    U64sSteady();
    OptionalVectorSteady(performance);
    CountSteady();
    CsrsSteady();
    BoolSteady();
    U32Steady();
    forall s: seq<byte>, t: seq<byte>
      ensures Steady(GetProcessor(performance, s), GetProcessor(performance, s + t), t)
    {
    }
  }

  lemma {:induction false} ReferenceSteady(platform: bool, build: Build)
    ensures forall s: seq<byte>, t: seq<byte> {:trigger GetReference(platform, build, s + t)} ::
      Steady(GetReference(platform, build, s), GetReference(platform, build, s + t), t)
  {
    hide GetProcessor, GetWords, GetOptionalDevices, CsrFault;
    ProcessorSteady(build.vector);
    WordsSteady();
    OptionalDevicesSteady(platform);
    forall s: seq<byte>, t: seq<byte>
      ensures Steady(GetReference(platform, build, s), GetReference(platform, build, s + t), t)
    {
    }
  }

  lemma {:induction false} OptionalReferenceSteady(kind: Kind, platform: bool)
    ensures forall s: seq<byte>, t: seq<byte> {:trigger GetOptionalReference(kind, platform, s + t)} ::
      Steady(GetOptionalReference(kind, platform, s), GetOptionalReference(kind, platform, s + t), t)
  {
    hide GetBool, GetReference;
    BoolSteady();
    if kind.Checked? { ReferenceSteady(platform, kind.build); }
    forall s: seq<byte>, t: seq<byte>
      ensures Steady(GetOptionalReference(kind, platform, s), GetOptionalReference(kind, platform, s + t), t)
    {
    }
  }

  lemma {:induction false} BoardSteady(current: Slave)
    ensures forall s: seq<byte>, t: seq<byte> {:trigger GetBoard(current, s + t)} ::
      Steady(GetBoard(current, s), GetBoard(current, s + t), t)
  {
    hide GetWords, GetAxi, GetOptionalDevices;
    WordsSteady();
    AxiSteady(current);
    OptionalDevicesSteady(current.devices.Some?);
    forall s: seq<byte>, t: seq<byte>
      ensures Steady(GetBoard(current, s), GetBoard(current, s + t), t)
    {
    }
  }

  lemma {:induction false} MachineSteady(current: Slave, kind: Kind)
    ensures forall s: seq<byte>, t: seq<byte> {:trigger GetMachine(current, kind, s + t)} ::
      Steady(GetMachine(current, kind, s), GetMachine(current, kind, s + t), t)
  {
    hide GetBoard, GetOptionalReference;
    BoardSteady(current);
    OptionalReferenceSteady(kind, current.devices.Some?);
    forall s: seq<byte>, t: seq<byte>
      ensures Steady(GetMachine(current, kind, s), GetMachine(current, kind, s + t), t)
    {
    }
  }

  /** What restore makes of the beginning of a stream. */
  lemma {:induction false} HostOfPrefix(c: Configuration, current: Slave, kind: Kind, s: seq<byte>, t: seq<byte>)
    requires t != []
    ensures match GetHost(c, current, kind, s)
      case Ok(_) => GetHost(c, current, kind, s + t) == Err(TrailingData)
      case Err(e) => e == Truncated || GetHost(c, current, kind, s + t) == Err(e)
  {
    hide GetHeader, GetProgress, GetProfile, GetHistory, GetMachine;
    HeaderSteady(c);
    ProgressSteady();
    ProfileSteady();
    HistorySteady();
    MachineSteady(current, kind);
  }

  /** No checkpoint is accepted before its last byte: cut anywhere, it is refused as
      truncated. Together with the refusal of anything behind it, of a saved stream exactly
      the whole is accepted. */
  lemma {:induction false} EveryCutIsRefused(c: Configuration, h: Host, o: Orders, current: Slave, n: nat)
    requires |c.identity| < TWO64 && HostInv(h) && Representable(h.slave.devices) && Iterates(o, h)
    requires SetUpAlike(current, h.slave) && WithinLimits(c, h) && n < |PutHost(c, h, o, [])|
    ensures GetHost(c, current, KindOf(h.books.reference), PutHost(c, h, o, [])[..n]) == Err(Truncated)
  {
    hide GetHost, PutHost, HostInv, Iterates, WithinLimits;
    var stream := PutHost(c, h, o, []);
    assert stream[..n] + stream[n..] == stream;
    HostRoundTrip(c, h, o, current, []);
    HostOfPrefix(c, current, KindOf(h.books.reference), stream[..n], stream[n..]);
  }
}
