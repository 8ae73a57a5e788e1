/** What the main loop shows of the timer (src/main.cc:1257, 1267-1269; src/PlatformDevices.cc):
    the interrupt line of the core and the time of the reference, in every pass of every run. */
module HostTimer {
  import opened Words
  import opened Platform
  import opened AxiSlave
  import opened AXIMemoryObject
  import opened HostStream
  import opened HostResume

  // ----- the passes of a run -----

  /** Pass n of a run is one from the system that the passes before it have led to. */
  lemma {:induction false} PassAt<D(!new)>(k: Machine<D>, p: System<D>, texts: seq<seq<byte>>, n: nat)
    requires HostInv(p.host) && Proper(k, p.host.slave) && n < |Trace(k, p, texts)|
    ensures n < |texts|
    ensures var q := Later(k, p, texts[..n]);
      Trace(k, p, texts)[n] == Advance(k, q, texts[n]).1 && Later(k, p, texts[..n + 1]) == Advance(k, q, texts[n]).0
    decreases n
  {
    hide Advance, HostInv, PortsFit, BooksKept, SetUpAlike, Exits, Stalled, Trace, Later, Reaches;
    NoPass(k, p);
    if texts != [] {
      var q := Advance(k, p, texts[0]).0;
      FirstPass(k, p, texts);
      FirstPass(k, p, texts[..n + 1]);
      assert texts[..n + 1][0] == texts[0] && texts[..n + 1][1..] == texts[1..][..n];
      NoPass(k, q);
      if n == 0 {
        assert texts[..0] == [] && texts[1..][..0] == [];
      } else {
        FirstPass(k, p, texts[..n]);
        assert texts[..n][0] == texts[0] && texts[..n][1..] == texts[1..][..n - 1];
        PassAt(k, q, texts[1..], n - 1);
      }
    }
  }

  /** The devices at the start of pass n. */
  ghost function DevicesAt<D(!new)>(k: Machine<D>, p: System<D>, texts: seq<seq<byte>>, n: nat): Option<Devices>
    requires HostInv(p.host) && Proper(k, p.host.slave) && n <= |texts|
  {
    Later(k, p, texts[..n]).host.slave.devices
  }

  // ----- one pass -----

  predicate SameTimer(d: Devices, e: Devices) {
    d.mtime == e.mtime && d.mtimecmp == e.mtimecmp && d.subcycle == e.subcycle
  }

  /** Reads have no effect on the timer. */
  lemma {:induction false} LoadRunKeepsTimer(d: Devices, address: u32, n: nat)
    ensures SameTimer(LoadRun(d, address, n).after, d)
    decreases n
  {
    if n > 0 { LoadRunKeepsTimer(LoadByte(d, address).after, Add32(address, 1), n - 1); }
  }

  predicate SameTimers(d: Option<Devices>, e: Option<Devices>) {
    d.Some? == e.Some? && (d.Some? ==> SameTimer(d.value, e.value))
  }

  lemma {:induction false} LatchKeepsTimer(s: Slave, coins: Coins)
    requires Inv(s)
    ensures SameTimers(Latched(s, coins).devices, s.devices)
  {
    hide ReadBeat, LoadRun, IsDevice, IsWriteCombine, IsRam;
    if s.devices.Some? && Latches(s, coins) {
      var r := s.contexts[Chosen(s)];
      LoadRunKeepsTimer(s.devices.value, Low32(r.address), r.size);
    }
  }

  /** A W beat of this cycle goes to a device. */
  predicate WritesDevice(s: Slave, m: Master, o: Outputs) {
    WShake(m, o) && WriteTarget(s.devices.Some?, Low32(s.writeAddress), s.writeSize, s.writeLength) == ToDevice
  }

  lemma {:induction false} UpdateKeepsDevices(s: Slave, m: Master, o: Outputs)
    requires Inv(s) && m.Fits(s.bus) && Agree(s, m, o)
    ensures !WritesDevice(s, m, o) ==> Update(s, m, o).0.devices == s.devices
  {
    hide StoreWindow, BeatBytes, ExitReport, BusStore, WriteTarget, Low32, NarrowData, NarrowStrobe, AfterBeat;
  }

  lemma {:induction false} TickKeepsSame(d: Option<Devices>, e: Option<Devices>)
    requires SameTimers(d, e)
    ensures SameTimers(Ticked(d), Ticked(e))
  {
  }

  lemma {:induction false} ArrivalKeepsTimer(d: Option<Devices>, text: seq<byte>)
    ensures SameTimers(Arrival(d, text), d)
  {
  }

  /** One cycle: without a W beat to a device the timer moves by one tick, and the time shown is
      that at the start of the cycle. */
  lemma {:induction false} CycleTicks(s: Slave, c: Cycle)
    requires Inv(s) && c.master.Fits(s.bus)
    ensures !WritesDevice(s, c.master, StepOutputs(s, c)) ==>
      && SameTimers(Step(s, c).0.devices, Ticked(s.devices))
      && TimeShown(s, c) == match s.devices case None => 0 case Some(d) => d.mtime
  {
    hide Latched, Present, Update, Arrival, Ticked, WriteTarget, Low32;
    var ready := s.(devices := Arrival(s.devices, c.text));
    DriveAgrees(ready, c.master, c.coins);
    var (driven, o) := Drive(ready, c.master.arId, c.coins);
    ArrivalKeepsTimer(s.devices, c.text);
    LatchKeepsTimer(ready, c.coins);
    LatchKeepsBurst(ready, c.coins);
    UpdateKeepsDevices(driven, c.master, o);
    if !WritesDevice(s, c.master, o) { TickKeepsSame(Update(driven, c.master, o).0.devices, s.devices); }
  }

  lemma {:induction false} LatchKeepsBurst(s: Slave, coins: Coins)
    requires Inv(s)
    ensures var t := Latched(s, coins);
      && t.devices.Some? == s.devices.Some? && t.bus == s.bus
      && t.writeAddress == s.writeAddress && t.writeSize == s.writeSize && t.writeLength == s.writeLength
  {
    hide ReadBeat, DevicesAfterRead;
  }

  /** Whatever is written: the time shown is that of the devices which the tick of the cycle
      then moves on. */
  lemma {:induction false} ShownBeforeTick(s: Slave, c: Cycle) returns (d: Option<Devices>)
    requires Inv(s) && c.master.Fits(s.bus)
    ensures d.Some? == s.devices.Some? && Step(s, c).0.devices == Ticked(d)
    ensures TimeShown(s, c) == match d case None => 0 case Some(x) => x.mtime
  {
    hide Latched, Present, Update, Arrival, Ticked;
    var ready := s.(devices := Arrival(s.devices, c.text));
    DriveAgrees(ready, c.master, c.coins);
    var (driven, o) := Drive(ready, c.master.arId, c.coins);
    LatchKeepsBurst(ready, c.coins);
    d := Update(driven, c.master, o).0.devices;
    StepKeepsWiring(s, c);
    TickedIsThere(d);
  }

  lemma {:induction false} TickedIsThere(d: Option<Devices>)
    ensures Ticked(d).Some? == d.Some?
  {
  }

  // ----- every run -----

  /** The interrupt line of the core in pass n is up if and only if there are devices and their
      time has reached the compare register when the pass begins. */
  lemma {:induction false} InterruptTellsTimer<D(!new)>(k: Machine<D>, p: System<D>, texts: seq<seq<byte>>, n: nat)
    requires HostInv(p.host) && Proper(k, p.host.slave) && n < |Trace(k, p, texts)|
    ensures var d := DevicesAt(k, p, texts, n);
      Trace(k, p, texts)[n].interrupt <==> d.Some? && d.value.mtime >= d.value.mtimecmp
  {
    hide HostInv, PortsFit, BooksKept, Trace, Later, Step, DrawCoins, Drive;
    PassAt(k, p, texts, n);
  }

  /** The time shown to the reference in pass n is that of the devices which the tick at the
      end of the pass leads on to those of pass n + 1; it is 0 without devices. */
  lemma {:induction false} TimeIsBeforeTick<D(!new)>(k: Machine<D>, p: System<D>, texts: seq<seq<byte>>, n: nat)
    returns (d: Option<Devices>)
    requires HostInv(p.host) && Proper(k, p.host.slave) && n < |Trace(k, p, texts)|
    ensures d.Some? == DevicesAt(k, p, texts, n).Some? && DevicesAt(k, p, texts, n + 1) == Ticked(d)
    ensures Trace(k, p, texts)[n].time == match d case None => 0 case Some(x) => x.mtime
  {
    hide PortsFit, BooksKept, BooksFit, Trace, Later, Step, TimeShown, DrawCoins, Drive, Ticked;
    PassAt(k, p, texts, n);
    var q := Later(k, p, texts[..n]);
    AdvanceKeeps(k, q, texts[n]);
    d := ShownBeforeTick(q.host.slave, BusCycle(k, q.core, q.host, texts[n]).0);
  }

  /** No W beat of pass n goes to a device. */
  ghost predicate LeavesDevices<D(!new)>(k: Machine<D>, p: System<D>, texts: seq<seq<byte>>, n: nat)
    requires HostInv(p.host) && Proper(k, p.host.slave) && n < |Trace(k, p, texts)|
  {
    var seen := Trace(k, p, texts)[n];
    !WritesDevice(Later(k, p, texts[..n]).host.slave, seen.master, seen.outputs)
  }

  lemma {:induction false} QuietPass<D(!new)>(k: Machine<D>, p: System<D>, texts: seq<seq<byte>>, n: nat)
    requires HostInv(p.host) && Proper(k, p.host.slave) && n < |Trace(k, p, texts)| && LeavesDevices(k, p, texts, n)
    ensures SameTimers(DevicesAt(k, p, texts, n + 1), Ticked(DevicesAt(k, p, texts, n)))
    ensures Trace(k, p, texts)[n].time
         == match DevicesAt(k, p, texts, n) case None => 0 case Some(d) => d.mtime
  {
    hide PortsFit, BooksKept, BooksFit, Trace, Later, Step, StepOutputs, TimeShown, DrawCoins, Drive, Ticked,
      WritesDevice, SameTimers;
    PassAt(k, p, texts, n);
    var q := Later(k, p, texts[..n]);
    AdvanceKeeps(k, q, texts[n]);
    CycleTicks(q.host.slave, BusCycle(k, q.core, q.host, texts[n]).0);
  }

  lemma {:induction false} TimerAt<D(!new)>(k: Machine<D>, p: System<D>, texts: seq<seq<byte>>, n: nat)
    requires HostInv(p.host) && Proper(k, p.host.slave) && n <= |Trace(k, p, texts)|
    requires p.host.slave.devices.Some?
    requires forall i :: 0 <= i < n ==> LeavesDevices(k, p, texts, i)
    ensures SameTimers(DevicesAt(k, p, texts, n), Some(Ticks(p.host.slave.devices.value, n)))
  {
    hide HostInv, PortsFit, BooksKept, Trace, Later, LeavesDevices, Tick;
    NoPass(k, p);
    if n == 0 {
      assert texts[..0] == [];
    } else {
      TimerAt(k, p, texts, n - 1);
      QuietPass(k, p, texts, n - 1);
      TickKeepsSame(DevicesAt(k, p, texts, n - 1), Some(Ticks(p.host.slave.devices.value, n - 1)));
    }
  }

  /** In a run that does not write to the devices, the core sees the timer interrupt in pass n
      if and only if the time had been reached at the start or n is at least
      10 * (mtimecmp - mtime) - subcycle, and the reference is shown the saturating time. */
  lemma {:induction false} InterruptOfQuietRun<D(!new)>(k: Machine<D>, p: System<D>, texts: seq<seq<byte>>, n: nat)
    requires HostInv(p.host) && Proper(k, p.host.slave) && n < |Trace(k, p, texts)|
    requires p.host.slave.devices.Some?
    requires forall i :: 0 <= i <= n ==> LeavesDevices(k, p, texts, i)
    ensures var d, seen := p.host.slave.devices.value, Trace(k, p, texts)[n];
      && (seen.interrupt <==> d.mtime >= d.mtimecmp || n >= 10 * (d.mtimecmp - d.mtime) - d.subcycle)
      && seen.time == if d.mtime + (d.subcycle + n) / 10 < TWO64 then d.mtime + (d.subcycle + n) / 10 else TWO64 - 1
  {
    hide HostInv, PortsFit, BooksKept, Trace, Later, LeavesDevices;
    TimerAt(k, p, texts, n);
    QuietPass(k, p, texts, n);
    InterruptTellsTimer(k, p, texts, n);
    InterruptRises(p.host.slave.devices.value, n);
    TicksClosedForm(p.host.slave.devices.value, n);
  }
}
