/** Why a run resumed from a checkpoint cannot be told from a run that was never stopped
    (src/main.cc:928-1104, src/main.cc:1247-1627).

    The core is any deterministic machine with the ports of the bus; what the main loop
    records about it, and which commits it rejects, is any function of what it sees. */
module HostResume {
  import opened Words
  import opened Checkpoint
  import opened Platform
  import opened ExitMonitor
  import opened AxiSlave
  import opened AXIMemoryObject
  import opened HostCheckpoint
  import opened HostStream
  import opened Fingerprint

  // ----- a closed run: the core answers the slave, the main loop keeps its books -----

  /** One pass of the main loop as seen from outside. */
  datatype Seen = Seen(text: seq<byte>, interrupt: bool, outputs: Outputs, master: Master, report: Option<int>,
    time: u64)

  /** A core with state D: the read id it shows before the cycle, its ports in answer to the
      interrupt line and the slave, its next state, and its state as a file; what the loop
      writes down and which commits it rejects; and the options that end a run. */
  datatype Machine<!D> = Machine(
    arId: D -> byte,
    ports: (D, bool, Outputs) -> Master,
    clock: (D, bool, Outputs) -> D,
    saveCore: D -> seq<byte>,
    loadCore: seq<byte> -> Option<D>,
    watch: (Books, D, Seen) -> Books,
    rejects: (Books, D, Seen) -> bool,
    marker: seq<byte>,
    stallCycles: u64)

  datatype System<D> = System(core: D, host: Host)

  /** The ports have the width of the bus and the read id does not change within a cycle. */
  ghost predicate PortsFit<D(!new)>(k: Machine<D>, bus: nat) {
    forall d, interrupt, o :: k.ports(d, interrupt, o).Fits(bus) && k.ports(d, interrupt, o).arId == k.arId(d)
  }

  /** The core's file gives the core's state back. */
  ghost predicate CoreKept<D(!new)>(k: Machine<D>) {
    forall d :: k.loadCore(k.saveCore(d)) == Some(d)
  }

  /** Keeping the books never changes what the run checks against. */
  ghost predicate BooksKept<D(!new)>(k: Machine<D>, platform: bool) {
    forall b, d, seen :: (BooksFit(b, platform) ==>
      BooksFit(k.watch(b, d, seen), platform) && KindOf(k.watch(b, d, seen).reference) == KindOf(b.reference))
  }

  ghost predicate Proper<D(!new)>(k: Machine<D>, s: Slave) { PortsFit(k, s.bus) && BooksKept(k, s.devices.Some?) }

  predicate InterruptLine(d: Option<Devices>) { d.Some? && d.value.TimerInterrupt() }

  /** The time shown to the reference: after the handshakes and before the tick. */
  function TimeShown(s: Slave, c: Cycle): u64
    requires Inv(s) && c.master.Fits(s.bus)
  {
    var ready := s.(devices := Arrival(s.devices, c.text));
    DriveAgrees(ready, c.master, c.coins);
    var (driven, o) := Drive(ready, c.master.arId, c.coins);
    match Update(driven, c.master, o).0.devices case None => 0 case Some(d) => d.mtime
  }

  /** The bus part of a pass and the draws it takes. */
  function BusCycle<D>(k: Machine<D>, d: D, h: Host, text: seq<byte>): (r: (Cycle, bv64))
    requires Inv(h.slave)
  {
    var ready := h.slave.(devices := Arrival(h.slave.devices, text));
    var draws := DrawCoins(ready, k.arId(d), h.rng);
    var o := Drive(ready, k.arId(d), draws.coins).1;
    (Cycle(text, k.ports(d, InterruptLine(ready.devices), o), draws.coins), draws.state)
  }

  ghost function Advance<D(!new)>(k: Machine<D>, p: System<D>, text: seq<byte>): (r: (System<D>, Seen))
    requires HostInv(p.host) && Proper(k, p.host.slave)
    ensures HostInv(r.0.host) && SetUpAlike(p.host.slave, r.0.host.slave) && Proper(k, r.0.host.slave)
    ensures KindOf(r.0.host.books.reference) == KindOf(p.host.books.reference)
  {
    var (c, rng) := BusCycle(k, p.core, p.host, text);
    AdvanceKeeps(k, p, text);
    var interrupt, o := InterruptLine(Arrival(p.host.slave.devices, text)), StepOutputs(p.host.slave, c);
    var (slave, report) := Step(p.host.slave, c);
    var seen := Seen(text, interrupt, o, c.master, report, TimeShown(p.host.slave, c));
    (System(k.clock(p.core, interrupt, o), Host(k.watch(p.host.books, p.core, seen), slave, rng)), seen)
  }

  lemma {:induction false} AdvanceKeeps<D(!new)>(k: Machine<D>, p: System<D>, text: seq<byte>)
    requires HostInv(p.host) && PortsFit(k, p.host.slave.bus)
    ensures var (c, rng) := BusCycle(k, p.core, p.host, text);
      c.master.Fits(p.host.slave.bus) && rng != 0 && SetUpAlike(p.host.slave, Step(p.host.slave, c).0)
  {
    hide DrawCoins, Drive, Step;
    var ready := p.host.slave.(devices := Arrival(p.host.slave.devices, text));
    DrawsStayNonzero(ready, k.arId(p.core), p.host.rng);
    var (c, rng) := BusCycle(k, p.core, p.host, text);
    StepKeepsWiring(p.host.slave, c);
  }

  lemma {:induction false} LatchKeepsWiring(s: Slave, coins: Coins)
    requires Inv(s)
    ensures SetUpAlike(s, Latched(s, coins))
  {
    hide ReadBeat, DevicesAfterRead, IsDevice, IsWriteCombine, IsRam;
  }

  lemma {:induction false} WriteKeepsWiring(s: Slave, m: Master)
    requires Inv(s) && s.writeActive && m.Fits(s.bus)
    ensures SetUpAlike(s, AcceptW(s, m))
  {
    hide StoreWindow, BusStore, IsDevice, IsWriteCombine, IsRam, NarrowData, NarrowStrobe, ShiftedLanes;
  }

  lemma {:induction false} UpdateKeepsWiring(s: Slave, m: Master, o: Outputs)
    requires Inv(s) && m.Fits(s.bus) && Agree(s, m, o)
    ensures SetUpAlike(s, Update(s, m, o).0)
  {
    hide AcceptAr, TakeR, AcceptAw, AcceptW, ExitReport;
    HandshakesAgree(s, m, o);
    var s1 := AfterAr(s, m, o);
    var s2 := AfterR(s1, m, o);
    var s3 := AfterAw(s2, m, o);
    assert SetUpAlike(s, s3) by { AddressesKeepWiring(s, m, o); }
    if WShake(m, o) { WriteKeepsWiring(s3, m); }
  }

  lemma {:induction false} AddressesKeepWiring(s: Slave, m: Master, o: Outputs)
    requires Inv(s) && m.Fits(s.bus) && Agree(s, m, o)
    ensures AfterR(AfterAr(s, m, o), m, o).writeActive == s.writeActive
    ensures SetUpAlike(s, AfterAw(AfterR(AfterAr(s, m, o), m, o), m, o))
  {
    hide BeatBytes, AfterBeat;
    HandshakesAgree(s, m, o);
  }

  /** No cycle changes the bus, the tohost address or the presence of the devices. */
  lemma {:induction false} StepKeepsWiring(s: Slave, c: Cycle)
    requires Inv(s) && c.master.Fits(s.bus)
    ensures SetUpAlike(s, Step(s, c).0)
  {
    hide Latched, Present, Update, Tick, Perform;
    var ready := s.(devices := Arrival(s.devices, c.text));
    DriveAgrees(ready, c.master, c.coins);
    var (driven, o) := Drive(ready, c.master.arId, c.coins);
    LatchKeepsWiring(ready, c.coins);
    UpdateKeepsWiring(driven, c.master, o);
  }

  // ----- when a run ends -----

  predicate OccursAt(text: seq<byte>, marker: seq<byte>, i: nat) {
    i + |marker| <= |text| && text[i..i + |marker|] == marker
  }

  /** outputContains: an empty marker is never seen. */
  ghost predicate ShowsMarker(d: Option<Devices>, marker: seq<byte>) {
    d.Some? && marker != [] && exists i: nat :: OccursAt(d.value.output, marker, i)
  }

  /** A pass that ends the run before a checkpoint could be taken: an exit report, the pass
      marker on the UART, or a rejected commit. */
  ghost predicate Exits<D(!new)>(k: Machine<D>, p: System<D>, text: seq<byte>)
    requires HostInv(p.host) && Proper(k, p.host.slave)
  {
    var (q, seen) := Advance(k, p, text);
    seen.report.Some? || ShowsMarker(q.host.slave.devices, k.marker) || k.rejects(p.host.books, p.core, seen)
  }

  /** Too many cycles without a retirement; the loop tests this after taking a checkpoint. */
  predicate Stalled(stallCycles: u64, b: Books)
    requires b.progress.Shaped()
  {
    stallCycles != 0 && b.progress.counters[1] >= stallCycles
  }

  ghost predicate Continues<D(!new)>(k: Machine<D>, p: System<D>, text: seq<byte>)
    requires HostInv(p.host) && Proper(k, p.host.slave)
  {
    !Exits(k, p, text) && !Stalled(k.stallCycles, Advance(k, p, text).0.host.books)
  }

  // ----- runs -----

  /** What is seen of a run that is offered these texts: it may end before they do. */
  ghost function Trace<D(!new)>(k: Machine<D>, p: System<D>, texts: seq<seq<byte>>): (seen: seq<Seen>)
    requires HostInv(p.host) && Proper(k, p.host.slave)
    ensures |seen| <= |texts| && (texts != [] ==> seen != [])
    decreases |texts|
  {
    if texts == [] then []
    else
      var (q, seen) := Advance(k, p, texts[0]);
      [seen] + if Continues(k, p, texts[0]) then Trace(k, q, texts[1..]) else []
  }

  ghost function Later<D(!new)>(k: Machine<D>, p: System<D>, texts: seq<seq<byte>>): (q: System<D>)
    requires HostInv(p.host) && Proper(k, p.host.slave)
    ensures HostInv(q.host) && SetUpAlike(p.host.slave, q.host.slave) && Proper(k, q.host.slave)
    ensures KindOf(q.host.books.reference) == KindOf(p.host.books.reference)
    decreases |texts|
  {
    if texts == [] then p
    else
      var q := Advance(k, p, texts[0]).0;
      if Continues(k, p, texts[0]) then Later(k, q, texts[1..]) else q
  }

  /** The run takes all these passes and a checkpoint can be taken after the last one. */
  ghost predicate Reaches<D(!new)>(k: Machine<D>, p: System<D>, texts: seq<seq<byte>>)
    requires HostInv(p.host) && Proper(k, p.host.slave)
    decreases |texts|
  {
    texts == []
    || (if texts[1..] == [] then !Exits(k, p, texts[0])
        else Continues(k, p, texts[0]) && Reaches(k, Advance(k, p, texts[0]).0, texts[1..]))
  }

  /** The pass after which the checkpoint was taken is found to have stalled. */
  ghost predicate StallsAt<D(!new)>(k: Machine<D>, p: System<D>, texts: seq<seq<byte>>)
    requires HostInv(p.host) && Proper(k, p.host.slave)
  {
    texts != [] && Stalled(k.stallCycles, Later(k, p, texts).host.books)
  }

  lemma {:induction false} FirstPass<D(!new)>(k: Machine<D>, p: System<D>, texts: seq<seq<byte>>)
    requires HostInv(p.host) && Proper(k, p.host.slave) && texts != []
    ensures var (q, seen) := Advance(k, p, texts[0]);
      && Trace(k, p, texts) == [seen] + (if Continues(k, p, texts[0]) then Trace(k, q, texts[1..]) else [])
      && Later(k, p, texts) == (if Continues(k, p, texts[0]) then Later(k, q, texts[1..]) else q)
      && (Reaches(k, p, texts) <==>
            if texts[1..] == [] then !Exits(k, p, texts[0]) else Continues(k, p, texts[0]) && Reaches(k, q, texts[1..]))
  {
    hide Advance, HostInv, PortsFit, BooksKept, SetUpAlike, Continues, Exits, Stalled;
  }

  /** Exactly when a run is seen to go on after its first pass: no exit was reported, the UART
      has not shown a non-empty pass marker, no commit was rejected, and fewer cycles than the
      stall window, if there is one, have passed without a retirement. */
  lemma {:induction false} GoesOnIff<D(!new)>(k: Machine<D>, p: System<D>, texts: seq<seq<byte>>)
    requires HostInv(p.host) && Proper(k, p.host.slave) && |texts| > 1
    ensures |Trace(k, p, texts)| > 1 <==>
      var (q, seen) := Advance(k, p, texts[0]);
      && seen.report == None && !k.rejects(p.host.books, p.core, seen)
      && !(q.host.slave.devices.Some? && k.marker != []
           && exists i: nat :: OccursAt(q.host.slave.devices.value.output, k.marker, i))
      && (k.stallCycles == 0 || q.host.books.progress.counters[1] < k.stallCycles)
  {
    hide Advance, PortsFit, BooksKept, SetUpAlike, OccursAt;
    FirstPass(k, p, texts);
  }

  lemma {:induction false} NoPass<D(!new)>(k: Machine<D>, p: System<D>)
    requires HostInv(p.host) && Proper(k, p.host.slave)
    ensures Trace(k, p, []) == [] && Later(k, p, []) == p
  {
  }

  lemma {:induction false} TraceSplits<D(!new)>(k: Machine<D>, p: System<D>, before: seq<seq<byte>>,
    after: seq<seq<byte>>)
    requires HostInv(p.host) && Proper(k, p.host.slave) && Reaches(k, p, before)
    ensures |Trace(k, p, before)| == |before|
    ensures var rest := if StallsAt(k, p, before) then [] else Trace(k, Later(k, p, before), after);
      Trace(k, p, before + after) == Trace(k, p, before) + rest
    ensures var end := if StallsAt(k, p, before) then Later(k, p, before) else Later(k, Later(k, p, before), after);
      Later(k, p, before + after) == end
    decreases |before|
  {
    hide Advance, HostInv, PortsFit, BooksKept, SetUpAlike, Exits, Stalled, Trace, Later, Reaches;
    NoPass(k, p);
    if before == [] {
      assert before + after == after;
    } else {
      assert (before + after)[0] == before[0] && (before + after)[1..] == before[1..] + after;
      var q := Advance(k, p, before[0]).0;
      FirstPass(k, p, before);
      FirstPass(k, p, before + after);
      NoPass(k, q);
      if before[1..] == [] {
        assert before[1..] + after == after;
      } else {
        TraceSplits(k, q, before[1..], after);
      }
    }
  }

  // ----- the two files of a checkpoint -----

  datatype Files = Files(rtl: seq<byte>, host: seq<byte>)

  /** saveCheckpoint: the core's file, and the host's with the core's fingerprint in it. */
  ghost function SaveFiles<D(!new)>(k: Machine<D>, c: Configuration, p: System<D>, o: Orders): Files
    requires |c.identity| < TWO64 && HostInv(p.host) && Representable(p.host.slave.devices) && Iterates(o, p.host)
  {
    var rtl := k.saveCore(p.core);
    Files(rtl, PutHost(c.(rtl := Fnv(rtl)), p.host, o, []))
  }

  /** restoreCheckpoint, into the objects of a process that has been set up. */
  function LoadFiles<D>(k: Machine<D>, c: Configuration, rebuilt: Slave, kind: Kind, files: Files): Result<System<D>> {
    var host :- GetHost(c.(rtl := Fnv(files.rtl)), rebuilt, kind, files.host);
    match k.loadCore(files.rtl) case None => Err(RtlUnreadable) case Some(d) => Ok(System(d, host))
  }

  lemma {:induction false} FilesRoundTrip<D(!new)>(k: Machine<D>, c: Configuration, p: System<D>, o: Orders,
    rebuilt: Slave)
    requires CoreKept(k) && |c.identity| < TWO64
    requires HostInv(p.host) && Representable(p.host.slave.devices) && Iterates(o, p.host)
    requires SetUpAlike(rebuilt, p.host.slave)
    ensures LoadFiles(k, c, rebuilt, KindOf(p.host.books.reference), SaveFiles(k, c, p, o))
         == if WithinLimits(c, p.host) then Ok(p) else Err(CountExceedsLimit)
  {
    hide HostInv, Iterates, PutHost, GetHost, SetUpAlike, MachineWithinLimits, Fnv;
    HostRoundTrip(c.(rtl := Fnv(k.saveCore(p.core))), p.host, o, rebuilt, []);
  }

  /** A host file beside a core's file with one changed byte is refused. */
  lemma {:induction false} ChangedRtlIsRefused<D(!new)>(k: Machine<D>, c: Configuration, p: System<D>, o: Orders,
    rebuilt: Slave, kind: Kind, changed: seq<byte>, i: nat)
    requires |c.identity| <= IDENTITY_LIMIT
    requires HostInv(p.host) && Representable(p.host.slave.devices) && Iterates(o, p.host)
    requires DifferAt(k.saveCore(p.core), changed, i)
    ensures LoadFiles(k, c, rebuilt, kind, SaveFiles(k, c, p, o).(rtl := changed)) == Err(RtlMismatch)
  {
    hide HostInv, Iterates, Fnv, PutHost, PutHeader, GetHeader;
    var rtl := k.saveCore(p.core);
    OneByteChangeIsSeen(rtl, changed, i);
    var tail := HeaderComesFirst(c.(rtl := Fnv(rtl)), p.host, o);
    OtherRtlIsRefused(c.(rtl := Fnv(rtl)), Fnv(changed), tail);
  }

  lemma {:induction false} HeaderComesFirst(c: Configuration, h: Host, o: Orders) returns (tail: seq<byte>)
    requires |c.identity| < TWO64 && HostInv(h) && Representable(h.slave.devices) && Iterates(o, h)
    ensures PutHost(c, h, o, []) == PutHeader(c, tail)
  {
    hide Inv, Enumerates, PutHeader, PutProgress, PutProfile, PutHistory, PutMachine;
    OrdersCountable(o, h);
    tail := PutProgress(h.books.progress, PutProfile(o.profile, PutHistory(h.books.history, PutMachine(h, o, []))));
  }

  lemma {:induction false} OtherRtlIsRefused(c: Configuration, other: u64, rest: seq<byte>)
    requires |c.identity| <= IDENTITY_LIMIT && other != c.rtl
    ensures GetHeader(c.(rtl := other), PutHeader(c, rest)) == Err(RtlMismatch)
  {
  }

  // ----- the theorem -----

  /** Stop a run where a checkpoint can be taken, restore its two files into a process that
      was set up alike, and go on. The restore succeeds exactly within the caps, and then the
      resumed system is the stopped one. What is seen from there on is what the run that was
      never stopped shows, exactly if that run did not end by a stall in the very pass of
      the checkpoint, or nothing more was to come; a run that stalled there is resumed as
      if it had not. */
  lemma {:induction false} ResumedRunIsUninterrupted<D(!new)>(k: Machine<D>, c: Configuration, start: System<D>,
    rebuilt: Slave, before: seq<seq<byte>>, after: seq<seq<byte>>, o: Orders)
    requires HostInv(start.host) && Proper(k, start.host.slave) && SetUpAlike(rebuilt, start.host.slave)
    requires CoreKept(k) && |c.identity| < TWO64 && Reaches(k, start, before)
    requires var h := Later(k, start, before).host; Representable(h.slave.devices) && Iterates(o, h)
    ensures var stopped := Later(k, start, before);
      var restored := LoadFiles(k, c, rebuilt, KindOf(start.host.books.reference), SaveFiles(k, c, stopped, o));
      && |before| <= |Trace(k, start, before + after)|
      && (restored.Ok? <==> WithinLimits(c, stopped.host))
      && (restored.Ok? ==>
           var resumed := restored.value;
           && resumed == stopped
           && (Trace(k, resumed, after) == Trace(k, start, before + after)[|before|..]
               <==> !StallsAt(k, start, before) || after == [])
           && (!StallsAt(k, start, before) ==> Later(k, resumed, after) == Later(k, start, before + after)))
  {
    hide Advance, HostInv, PortsFit, BooksKept, Trace, Later, Reaches, StallsAt, Iterates, LoadFiles, SaveFiles,
      WithinLimits, CoreKept, SetUpAlike;
    var stopped := Later(k, start, before);
    TraceSplits(k, start, before, after);
    WiredAlike(rebuilt, start.host.slave, stopped.host.slave);
    FilesRoundTrip(k, c, stopped, o, rebuilt);
    assert after == [] ==> Trace(k, stopped, after) == [];
  }

  lemma {:induction false} WiredAlike(r: Slave, s: Slave, t: Slave)
    requires SetUpAlike(r, s) && SetUpAlike(s, t)
    ensures SetUpAlike(r, t)
  {
  }

  // ----- a stall is forgotten -----

  const IDLE := Master(false, 0, 0, 0, 0, false, false, 0, 0, 0, 0,
    false, [0, 0], [false, false, false, false, false, false, false, false], false, false)

  function OneWithout(b: Books): Books {
    if |b.progress.counters| == 5 then b.(progress := b.progress.(counters := b.progress.counters[1 := 1])) else b
  }

  /** A core that does nothing, watched with a stall window of one cycle. */
  const IDLER: Machine<bool> := Machine(
    (d: bool) => 0, (d: bool, interrupt: bool, o: Outputs) => IDLE, (d: bool, interrupt: bool, o: Outputs) => d,
    (d: bool) => [if d then 1 else 0], (file: seq<byte>) => if |file| == 1 then Some(file[0] == 1) else None,
    (b: Books, d: bool, seen: Seen) => OneWithout(b), (b: Books, d: bool, seen: Seen) => false, [], 1)

  lemma {:induction false} IdlerIsProper(s: Slave)
    requires s.bus == 8
    ensures Proper(IDLER, s) && CoreKept(IDLER)
  {
    hide PutPairs;
  }

  lemma {:induction false} IdleReportsNothing(s: Slave, c: Cycle)
    requires Inv(s) && s.bus == 8 && c.master == IDLE
    ensures Step(s, c).1 == None
  {
    hide Latched, Present, Perform, Tick;
    var ready := s.(devices := Arrival(s.devices, c.text));
    DriveAgrees(ready, c.master, c.coins);
    LatchKeepsWiring(ready, c.coins);
  }

  lemma {:induction false} IdlerStalls(p: System<bool>, text: seq<byte>)
    requires HostInv(p.host) && p.host.slave.bus == 8
    ensures Proper(IDLER, p.host.slave)
    ensures !Exits(IDLER, p, text) && Stalled(1, Advance(IDLER, p, text).0.host.books)
  {
    hide Step, DrawCoins, Drive, BooksFit, PortsFit, BooksKept;
    IdlerIsProper(p.host.slave);
    AdvanceKeeps(IDLER, p, text);
    var (c, rng) := BusCycle(IDLER, p.core, p.host, text);
    IdleReportsNothing(p.host.slave, c);
    ShapedBooks(p.host.books, p.host.slave.devices.Some?);
  }

  lemma {:induction false} ShapedBooks(b: Books, platform: bool)
    requires BooksFit(b, platform)
    ensures |b.progress.counters| == 5
  {
  }

  /** The run ends with the stall after one pass; resumed from the checkpoint of that pass
      it makes another. */
  lemma {:induction false} StallIsForgotten(p: System<bool>)
    requires HostInv(p.host) && p.host.slave.bus == 8
    ensures Proper(IDLER, p.host.slave) && Reaches(IDLER, p, [[]])
    ensures |Trace(IDLER, p, [[], []])| == 1 && |Trace(IDLER, Later(IDLER, p, [[]]), [[]])| == 1
  {
    hide Advance, Exits, Stalled, Proper;
    IdlerStalls(p, []);
    var q := Advance(IDLER, p, []).0;
    IdlerStalls(q, []);
    var none: seq<byte> := [];
    assert [none, none][0] == none && [none][1..] == [];
  }

  // ----- a reachable state whose checkpoint is refused -----

  /** One more byte typed than the input cap allows, in one cycle with an idle core. */
  lemma {:induction false} BacklogIsRefused(devices: Devices, text: seq<byte>, coins: Coins, rest: seq<byte>)
    requires devices.input == [] && |text| == UART_INPUT_LIMIT + 1 && |devices.output| < TWO64
    ensures var s := Step(NewSlave(8, map[], Some(devices), None), Cycle(text, IDLE, coins)).0;
      && s.devices.Some? && s.devices.value.input == text && |s.devices.value.output| < TWO64
      && GetOptionalDevices(true, PutOptionalDevices(s.devices, rest)) == Err(CountExceedsLimit)
  {
    hide PutOptionalDevices, GetOptionalDevices;
    assert [] + text == text;
    var s := NewSlave(8, map[], Some(devices), None);
    var ready := s.(devices := Arrival(s.devices, text));
    assert Latched(ready, coins) == ready;
    OptionalDevicesRoundTrip(Step(s, Cycle(text, IDLE, coins)).0.devices, rest);
  }
}
