/** The host file of a checkpoint as a whole (src/main.cc:953-1095): when it is accepted,
    and that it is then rebuilt in full. */
module HostStream {
  import opened Words
  import opened Checkpoint
  import opened Memory
  import opened Platform
  import opened ExitMonitor
  import opened AxiSlave
  import opened AxiCheckpoint
  import opened AXIMemoryObject
  import opened HostCheckpoint

  /** Everything the main loop keeps beside the bus. */
  datatype Books = Books(progress: Progress, profile: ProfileMap, history: History, reference: Option<Reference>)

  datatype Host = Host(books: Books, slave: Slave, rng: bv64)

  /** The orders in which the three hash maps of a host are iterated. */
  datatype Orders = Orders(profile: ProfileOrder, words: Pairs, reference: Pairs)

  predicate BooksFit(b: Books, platform: bool) {
    && b.progress.Shaped() && b.history.Shaped()
    && (b.reference.Some? ==> ReferenceFits(b.reference.value) && b.reference.value.devices.Some? == platform)
  }

  /** What holds of the host in every cycle. */
  predicate HostInv(h: Host) { Inv(h.slave) && h.rng != 0 && BooksFit(h.books, h.slave.devices.Some?) }

  /** Buffers a 64-bit machine can hold. */
  predicate Representable(d: Option<Devices>) { d.Some? ==> |d.value.input| < TWO64 && |d.value.output| < TWO64 }

  /** What a run checks its core against: nothing, or a build of the reference. */
  datatype Kind = Unchecked | Checked(build: Build)

  function KindOf(r: Option<Reference>): Kind {
    match r case None => Unchecked case Some(x) => Checked(BuildOf(x))
  }

  ghost predicate Iterates(o: Orders, h: Host) {
    && Enumerates(o.profile, h.books.profile) && Enumerates(o.words, h.slave.words)
    && (h.books.reference.Some? ==> Enumerates(o.reference, h.books.reference.value.words))
  }

  /** Every host can be saved in some order of its maps. */
  lemma {:induction false} OrdersExist(h: Host) returns (o: Orders)
    ensures Iterates(o, h)
  {
    hide Enumerates;
    var profile := EnumerationExists(h.books.profile);
    var words := EnumerationExists(h.slave.words);
    var reference: Pairs := [];
    if h.books.reference.Some? { reference := EnumerationExists(h.books.reference.value.words); }
    o := Orders(profile, words, reference);
  }

  /** A map keyed by 32-bit words never has more entries than a 64-bit count can hold. */
  lemma {:induction false} EntriesCountable<V>(m: map<u32, V>)
    ensures |m| <= TWO32
  {
    assert |m| == |m.Keys|;
    BelowBound(m.Keys, TWO32);
  }

  lemma {:induction false} BelowBound(s: set<u32>, n: nat)
    requires forall x :: x in s ==> x < n
    ensures |s| <= n
    decreases n
  {
    if s != {} && n > 0 {
      var last := n - 1;
      if x :| x in s && x == last {
        BelowBound(s - {x}, last);
      } else {
        BelowBound(s, last);
      }
    }
  }

  lemma {:induction false} OrdersCountable(o: Orders, h: Host)
    requires Iterates(o, h)
    ensures |o.profile| < TWO64 && |o.words| < TWO64 && (h.books.reference.Some? ==> |o.reference| < TWO64)
  {
    EntriesCountable(h.books.profile);
    EntriesCountable(h.slave.words);
    if h.books.reference.Some? { EntriesCountable(h.books.reference.value.words); }
  }

  // ----- the stream -----

  function PutOptionalReference(r: Option<Reference>, order: Pairs, rest: seq<byte>): seq<byte>
    requires r.Some? ==> ReferenceFits(r.value) && |order| < TWO64
  {
    match r case None => PutBool(false, rest) case Some(x) => PutBool(true, PutReference(x, order, rest))
  }

  /** The reference's section must be present exactly when the run checks against one. */
  function GetOptionalReference(kind: Kind, platform: bool, s: seq<byte>): Parsed<Option<Reference>> {
    var present :- GetBool(s);
    if present.0 != kind.Checked? then Err(ReferenceMismatch)
    else if !present.0 then Ok((None, present.1))
    else
      var r :- GetReference(platform, kind.build, present.1);
      Ok((Some(r.0), r.1))
  }

  predicate OptionalReferenceWithinLimits(r: Option<Reference>) { r.Some? ==> ReferenceWithinLimits(r.value) }

  lemma {:induction false} OptionalReferenceRoundTrip(r: Option<Reference>, platform: bool, order: Pairs,
    rest: seq<byte>)
    requires r.Some? ==> ReferenceFits(r.value) && Enumerates(order, r.value.words) && |order| < TWO64
    requires r.Some? ==> r.value.devices.Some? == platform
    ensures GetOptionalReference(KindOf(r), platform, PutOptionalReference(r, order, rest))
         == if OptionalReferenceWithinLimits(r) then Ok((r, rest)) else Err(CountExceedsLimit)
  {
    hide PutReference, GetReference;
    if r.Some? { ReferenceRoundTrip(r.value, order, rest); }
  }

  /** The sections behind the bookkeeping. */
  ghost function PutMachine(h: Host, o: Orders, rest: seq<byte>): seq<byte>
    requires HostInv(h) && Representable(h.slave.devices) && Iterates(o, h)
  {
    OrdersCountable(o, h);
    PutWords(o.words, PutAxi(h.slave, h.rng, PutOptionalDevices(h.slave.devices,
      PutOptionalReference(h.books.reference, o.reference, rest))))
  }

  datatype Machinery = Machinery(slave: Slave, rng: bv64, reference: Option<Reference>)

  /** Restore the memory, the bus and the devices of a run that has just been set up. */
  function GetBoard(current: Slave, s: seq<byte>): Parsed<(Slave, bv64)> {
    var words :- GetWords(s);
    var axi :- GetAxi(current, words.1);
    var devices :- GetOptionalDevices(current.devices.Some?, axi.1);
    Ok(((axi.0.0.(words := words.0, devices := devices.0), axi.0.1), devices.1))
  }

  function GetMachine(current: Slave, kind: Kind, s: seq<byte>): Parsed<Machinery> {
    var board :- GetBoard(current, s);
    var reference :- GetOptionalReference(kind, current.devices.Some?, board.1);
    Ok((Machinery(board.0.0, board.0.1, reference.0), reference.1))
  }

  predicate MachineWithinLimits(h: Host) {
    && |h.slave.words| <= WORD_LIMIT && OptionalDevicesWithinLimits(h.slave.devices)
    && OptionalReferenceWithinLimits(h.books.reference)
  }

  /** What a resumed run sets up the same way before it restores. */
  predicate SetUpAlike(current: Slave, s: Slave) { SameWiring(current, s) && current.devices.Some? == s.devices.Some? }

  lemma {:induction false} MachineRoundTrip(h: Host, o: Orders, current: Slave, rest: seq<byte>)
    requires HostInv(h) && Representable(h.slave.devices) && Iterates(o, h) && SetUpAlike(current, h.slave)
    ensures GetMachine(current, KindOf(h.books.reference), PutMachine(h, o, rest))
         == if MachineWithinLimits(h) then Ok((Machinery(h.slave, h.rng, h.books.reference), rest))
            else Err(CountExceedsLimit)
  {
    hide PutWords, GetWords, PutAxi, GetAxi, PutOptionalDevices, GetOptionalDevices, PutOptionalReference,
      GetOptionalReference, Inv, Enumerates, OptionalDevicesWithinLimits, OptionalReferenceWithinLimits;
    OrdersCountable(o, h);
    var s3 := PutOptionalReference(h.books.reference, o.reference, rest);
    var s2 := PutOptionalDevices(h.slave.devices, s3);
    var s1 := PutAxi(h.slave, h.rng, s2);
    WordsRoundTrip(h.slave.words, o.words, s1);
    AxiRoundTrip(current, h.slave, h.rng, s2);
    OptionalDevicesRoundTrip(h.slave.devices, s3);
    OptionalReferenceRoundTrip(h.books.reference, h.slave.devices.Some?, o.reference, rest);
  }

  ghost function PutHost(c: Configuration, h: Host, o: Orders, rest: seq<byte>): seq<byte>
    requires |c.identity| < TWO64 && HostInv(h) && Representable(h.slave.devices) && Iterates(o, h)
  {
    OrdersCountable(o, h);
    PutHeader(c, PutProgress(h.books.progress, PutProfile(o.profile,
      PutHistory(h.books.history, PutMachine(h, o, rest)))))
  }

  /** restoreCheckpoint: every section, and then nothing more. */
  function GetHost(c: Configuration, current: Slave, kind: Kind, s: seq<byte>): Result<Host> {
    var body :- GetHeader(c, s);
    var progress :- GetProgress(body);
    var profile :- GetProfile(progress.1);
    var history :- GetHistory(profile.1);
    var machine :- GetMachine(current, kind, history.1);
    if machine.1 != [] then Err(TrailingData)
    else Ok(Host(Books(progress.0, profile.0, history.0, machine.0.reference), machine.0.slave, machine.0.rng))
  }

  /** The caps of restoreCheckpoint and of the sections it restores. */
  predicate WithinLimits(c: Configuration, h: Host) {
    |c.identity| <= IDENTITY_LIMIT && |h.books.profile| <= PROFILE_LIMIT && MachineWithinLimits(h)
  }

  /** The caps in numbers: 4 KB of build identity, 2^24 branches, 2^24 words for each memory, 1 MB of
      UART input and 64 MB of UART output for each UART, and 4096 CSRs. */
  lemma {:induction false} CapsInNumbers(c: Configuration, h: Host)
    ensures WithinLimits(c, h) <==>
      && |c.identity| <= 4096 && |h.books.profile| <= 16777216 && |h.slave.words| <= 16777216
      && (h.slave.devices.Some? ==>
            |h.slave.devices.value.input| <= 1048576 && |h.slave.devices.value.output| <= 67108864)
      && (h.books.reference.Some? ==>
            var r := h.books.reference.value;
            && |r.processor.csrs| <= 4096 && |r.words| <= 16777216
            && (r.devices.Some? ==> |r.devices.value.input| <= 1048576 && |r.devices.value.output| <= 67108864))
  {
  }

  /** A saved host is accepted exactly when it is within the caps and nothing follows it,
      and then it is rebuilt in full. */
  lemma {:induction false} HostRoundTrip(c: Configuration, h: Host, o: Orders, current: Slave, rest: seq<byte>)
    requires |c.identity| < TWO64 && HostInv(h) && Representable(h.slave.devices) && Iterates(o, h)
    requires SetUpAlike(current, h.slave)
    ensures GetHost(c, current, KindOf(h.books.reference), PutHost(c, h, o, rest))
         == if !WithinLimits(c, h) then Err(CountExceedsLimit) else if rest != [] then Err(TrailingData) else Ok(h)
  {
    hide PutHeader, GetHeader, PutProgress, GetProgress, PutProfile, GetProfile, PutHistory, GetHistory, PutMachine,
      GetMachine, Inv, Enumerates, MachineWithinLimits;
    OrdersCountable(o, h);
    var s3 := PutMachine(h, o, rest);
    var s2 := PutHistory(h.books.history, s3);
    var s1 := PutProfile(o.profile, s2);
    HeaderRoundTrip(c, PutProgress(h.books.progress, s1));
    ProfileRoundTrip(h.books.profile, o.profile, s2);
    MachineRoundTrip(h, o, current, rest);
  }
}
