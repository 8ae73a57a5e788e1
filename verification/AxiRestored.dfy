/** What a slave does that was restored from a stream which no save has written. Restore takes
    every byte of the stream (src/AXIMemory.cc:209-232), so the invariant of AxiSlave need not
    hold. The handshakes and beat counters of src/AXIMemory.cc:23-156 are written here for all
    values of the registers; data and addresses do not influence them. */
module AxiRestored {
  import opened Words
  import opened AxiSlave
  import opened AxiCheckpoint

  datatype Burst = Burst(active: bool, length: byte, beat: byte)

  /** The registers that decide the handshakes. */
  datatype Control = Control(contexts: seq<Burst>, valid: bool, selected: nat, write: Burst, responseValid: bool) {
    predicate Shaped() { |contexts| == 2 }
    /** The read beat that waits for its handshake, if any, is one of the two contexts'. */
    predicate InRange() { Shaped() && (valid ==> selected < 2) }
    /** That context has a burst, and no response is due while the write burst is running. */
    predicate Proper() { InRange() && (valid ==> contexts[selected].active) && !(write.active && responseValid) }
  }

  /** The inputs of one cycle; exits says whether a W beat announces the end of the test. */
  datatype Input = Input(arValid: bool, arId: byte, arLength: byte, rReady: bool, awValid: bool, awLength: byte,
    wValid: bool, wLast: bool, bReady: bool, coins: Coins, exits: bool)

  /** A burst after one of its beats; the counter has eight bits. */
  function Taken(b: Burst): Burst {
    if b.beat == b.length then b.(active := false) else b.(beat := (b.beat + 1) % 0x100)
  }

  function Driven(k: Control, i: Input): (d: Control)
    requires k.Shaped()
    ensures d.Shaped() && (k.InRange() ==> d.InRange()) && (k.Proper() ==> d.Proper())
  {
    var chosen := if k.contexts[0].active then 0 else 1;
    if (k.contexts[0].active || k.contexts[1].active) && !k.valid && (k.contexts[chosen].beat != 0 || i.coins.latch)
    then k.(selected := chosen, valid := true) else k
  }

  predicate ArTaken(d: Control, i: Input)
    requires d.Shaped()
  {
    i.arValid && i.arId < 2 && !d.contexts[i.arId].active && i.coins.ar
  }

  function ReadsAfter(d: Control, i: Input): (contexts: seq<Burst>)
    requires d.InRange()
    ensures |contexts| == 2
  {
    var accepted := if ArTaken(d, i) then d.contexts[i.arId := Burst(true, i.arLength, 0)] else d.contexts;
    if d.valid && i.rReady then accepted[d.selected := Taken(accepted[d.selected])] else accepted
  }

  predicate WTaken(write: Burst, i: Input) { i.wValid && write.active && (write.beat != 0 || i.coins.w) }
  predicate EndsWrite(write: Burst, i: Input) { WTaken(write, i) && (i.wLast || write.beat == write.length) }

  function WriteAfter(write: Burst, responseValid: bool, i: Input): Burst {
    if i.awValid && !write.active && !responseValid && i.coins.aw then Burst(true, i.awLength, 0)
    else if EndsWrite(write, i) then write.(active := false)
    else if WTaken(write, i) then Taken(write)
    else write
  }

  predicate ResponseAfter(write: Burst, responseValid: bool, i: Input) {
    (EndsWrite(write, i) || responseValid) && !(responseValid && i.bReady && !(WTaken(write, i) && i.exits))
  }

  /** One cycle, of a slave that indexes its contexts within their range. */
  function Next(k: Control, i: Input): (n: Control)
    requires k.Shaped() && Driven(k, i).InRange()
    ensures n.InRange() && (k.Proper() ==> n.Proper())
  {
    var d := Driven(k, i);
    Control(ReadsAfter(d, i), d.valid && !i.rReady, d.selected,
      WriteAfter(d.write, d.responseValid, i), ResponseAfter(d.write, d.responseValid, i))
  }

  // ----- the slave of AxiSlave is one of these -----

  function BurstOf(r: ReadTransaction): Burst { Burst(r.active, r.length, r.beat) }

  function ControlOf(s: Slave): Control
    requires |s.contexts| == 2
  {
    Control([BurstOf(s.contexts[0]), BurstOf(s.contexts[1])], s.readDataValid, s.readSelectedId,
      Burst(s.writeActive, s.writeLength, s.writeBeat), s.writeResponseValid)
  }

  function InputOf(c: Cycle, exits: bool): Input {
    var m := c.master;
    Input(m.arValid, m.arId, m.arLength, m.rReady, m.awValid, m.awLength, m.wValid, m.wLast, m.bReady, c.coins, exits)
  }

  lemma {:induction false} DrivenOf(s: Slave, c: Cycle, exits: bool)
    requires Inv(s)
    ensures ControlOf(Latched(s, c.coins)) == Driven(ControlOf(s), InputOf(c, exits))
  {
    hide ReadBeat, DevicesAfter;
  }

  lemma {:induction false} ReadHandshakes(d: Slave, m: Master, o: Outputs, i: Input)
    requires Inv(d) && m.Fits(d.bus) && Agree(d, m, o)
    requires ArShake(m, o) == ArTaken(ControlOf(d), i) && i.arId == m.arId && i.arLength == m.arLength
    requires m.rReady == i.rReady
    ensures ControlOf(AfterR(AfterAr(d, m, o), m, o))
         == ControlOf(d).(contexts := ReadsAfter(ControlOf(d), i), valid := d.readDataValid && !i.rReady)
  {
  }

  lemma {:induction false} WriteHandshakes(t: Slave, m: Master, o: Outputs, i: Input)
    requires Inv(t) && m.Fits(t.bus)
    requires o.awReady == (!t.writeActive && !t.writeResponseValid && i.coins.aw)
    requires o.wReady == (t.writeActive && (t.writeBeat != 0 || i.coins.w))
    requires m.awValid == i.awValid && m.awLength == i.awLength && m.wValid == i.wValid && m.wLast == i.wLast
    ensures var u, write := AfterW(AfterAw(t, m, o), m, o), ControlOf(t).write;
      ControlOf(u) == ControlOf(t).(write := WriteAfter(write, t.writeResponseValid, i),
        responseValid := EndsWrite(write, i) || t.writeResponseValid)
    ensures WShake(m, o) == WTaken(ControlOf(t).write, i)
  {
    hide StoreBeat, NarrowData, NarrowStrobe, Low32, BeatBytes;
  }

  lemma {:induction false} InvIsProper(s: Slave)
    requires Inv(s)
    ensures ControlOf(s).Proper()
  {
  }

  lemma {:induction false} UpdateIsNext(d: Slave, m: Master, o: Outputs, i: Input)
    requires Inv(d) && m.Fits(d.bus) && Agree(d, m, o)
    requires ArShake(m, o) == ArTaken(ControlOf(d), i) && i.arId == m.arId && i.arLength == m.arLength
    requires o.awReady == (!d.writeActive && !d.writeResponseValid && i.coins.aw)
    requires o.wReady == (d.writeActive && (d.writeBeat != 0 || i.coins.w))
    requires m.awValid == i.awValid && m.awLength == i.awLength && m.wValid == i.wValid && m.wLast == i.wLast
    requires m.rReady == i.rReady && m.bReady == i.bReady && i.exits == Update(d, m, o).1.Some?
    ensures var k := ControlOf(d);
      ControlOf(Update(d, m, o).0) == Control(ReadsAfter(k, i), k.valid && !i.rReady, k.selected,
        WriteAfter(k.write, k.responseValid, i), ResponseAfter(k.write, k.responseValid, i))
  {
    hide ExitReport, AfterR, AfterW, ReadsAfter, WriteAfter, EndsWrite, WTaken, StoreBeat, NarrowData, NarrowStrobe,
      ArTaken;
    ReadHandshakes(d, m, o, i);
    WriteHandshakes(AfterR(AfterAr(d, m, o), m, o), m, o, i);
  }

  /** From every state that satisfies the invariant, the slave's cycles are these cycles. */
  lemma {:induction false} StepIsNext(s: Slave, c: Cycle)
    requires Inv(s) && c.master.Fits(s.bus)
    ensures ControlOf(s).Proper()
    ensures ControlOf(Step(s, c).0) == Next(ControlOf(s), InputOf(c, Step(s, c).1.Some?))
  {
    hide Latched, Arrival, Update, ReadsAfter, Driven, WriteAfter, ResponseAfter;
    InvIsProper(s);
    var ready := s.(devices := Arrival(s.devices, c.text));
    DriveAgrees(ready, c.master, c.coins);
    var (d, o) := Drive(ready, c.master.arId, c.coins);
    var i := InputOf(c, Step(s, c).1.Some?);
    DrivenOf(ready, c, i.exits);
    UpdateIsNext(d, c.master, o, i);
  }

  // ----- every run -----

  /** No cycle of a run indexes the contexts out of range. */
  predicate StaysInRange(k: Control, inputs: seq<Input>)
    requires k.Shaped()
    decreases |inputs|
  {
    inputs == [] || (Driven(k, inputs[0]).InRange() && StaysInRange(Next(k, inputs[0]), inputs[1..]))
  }

  const QUIET := Input(false, 0, 0, false, false, 0, false, false, false, Coins(false, false, false, false), false)

  lemma {:induction false} InRangeStays(k: Control, inputs: seq<Input>)
    requires k.InRange()
    ensures StaysInRange(k, inputs)
    decreases |inputs|
  {
    if inputs != [] { InRangeStays(Next(k, inputs[0]), inputs[1..]); }
  }

  lemma {:induction false} OutOfRangeShows(k: Control)
    requires k.Shaped() && k.valid && k.selected >= 2
    ensures !StaysInRange(k, [QUIET])
  {
    var run := [QUIET];
    assert run[0] == QUIET;
  }

  /** Every run indexes within range if and only if no beat is waiting or its id is 0 or 1. An id
      out of range does no harm while no beat is waiting. */
  lemma {:induction false} StaysInRangeIff(k: Control)
    requires k.Shaped()
    ensures (forall inputs :: StaysInRange(k, inputs)) <==> (k.valid ==> k.selected < 2)
  {
    hide StaysInRange;
    if k.valid ==> k.selected < 2 {
      forall inputs ensures StaysInRange(k, inputs) { InRangeStays(k, inputs); }
    }
    if k.valid && k.selected >= 2 { OutOfRangeShows(k); }
  }

  /** In every cycle of a run the beat on R belongs to a burst that was asked for, and B is not
      valid before the end of the write burst. */
  predicate StaysProper(k: Control, inputs: seq<Input>)
    requires k.Shaped()
    decreases |inputs|
  {
    inputs == [] || (Driven(k, inputs[0]).Proper() && StaysProper(Next(k, inputs[0]), inputs[1..]))
  }

  lemma {:induction false} ProperStays(k: Control, inputs: seq<Input>)
    requires k.Proper()
    ensures StaysProper(k, inputs)
    decreases |inputs|
  {
    if inputs != [] { ProperStays(Next(k, inputs[0]), inputs[1..]); }
  }

  lemma {:induction false} ImproperShows(k: Control)
    requires k.Shaped() && !k.Proper()
    ensures !StaysProper(k, [QUIET])
  {
    var run := [QUIET];
    assert run[0] == QUIET;
  }

  /** Every run is like that if and only if a waiting beat belongs to an active context and a
      response and a write burst do not meet. */
  lemma {:induction false} StaysProperIff(k: Control)
    requires k.Shaped()
    ensures (forall inputs :: StaysProper(k, inputs)) <==>
      (k.valid ==> k.selected < 2 && k.contexts[k.selected].active) && !(k.write.active && k.responseValid)
  {
    hide StaysProper;
    if k.Proper() {
      forall inputs ensures StaysProper(k, inputs) { ProperStays(k, inputs); }
    }
    if !k.Proper() { ImproperShows(k); }
  }

  // ----- the length of a burst that was under way -----

  predicate BeatTaken(d: Control, i: Input, id: nat) { d.valid && d.selected == id && i.rReady }

  /** How many beats of a read burst are taken in a run until its last one is, if it is. */
  function BeatsLeft(k: Control, id: nat, inputs: seq<Input>): Option<nat>
    requires k.InRange() && id < 2
    decreases |inputs|
  {
    if inputs == [] then None
    else
      var d, rest := Driven(k, inputs[0]), BeatsLeft(Next(k, inputs[0]), id, inputs[1..]);
      if !BeatTaken(d, inputs[0], id) then rest
      else if d.contexts[id].beat == d.contexts[id].length then Some(1)
      else match rest case None => None case Some(n) => Some(n + 1)
  }

  /** From the beat counter to the length, modulo its eight bits. */
  function Rest(b: Burst): (n: nat)
    ensures n > 0
  {
    if b.beat <= b.length then b.length - b.beat + 1 else 0x100 + b.length - b.beat + 1
  }

  lemma {:induction false} RestAfterBeat(b: Burst)
    ensures b.beat == b.length <==> Rest(b) == 1
    ensures b.beat != b.length ==> Rest(Taken(b)) == Rest(b) - 1 && Taken(b).active == b.active
  {
  }

  /** However a run goes, the last beat comes when the counter meets the length. */
  lemma {:induction false} BeatsLeftInEveryRun(k: Control, id: nat, inputs: seq<Input>)
    requires k.InRange() && id < 2 && k.contexts[id].active
    ensures BeatsLeft(k, id, inputs) in {None, Some(Rest(k.contexts[id]))}
    decreases |inputs|
  {
    if inputs != [] {
      var i, d := inputs[0], Driven(k, inputs[0]);
      RestAfterBeat(d.contexts[id]);
      if !(BeatTaken(d, i, id) && d.contexts[id].beat == d.contexts[id].length) {
        assert Next(k, i).contexts[id] == if BeatTaken(d, i, id) then Taken(k.contexts[id]) else k.contexts[id];
        BeatsLeftInEveryRun(Next(k, i), id, inputs[1..]);
      }
    }
  }

  /** A master that takes everything and asks for nothing more, at a slave that never waits. */
  const EAGER := QUIET.(rReady := true, wValid := true, bReady := true, coins := Coins(true, true, true, true))

  /** How much a slave has to deliver to such a master. */
  function Owed(k: Control): nat
    requires k.InRange()
  {
    (if k.contexts[0].active then Rest(k.contexts[0]) else 0)
    + (if k.contexts[1].active then Rest(k.contexts[1]) else 0)
    + if k.valid && !k.contexts[k.selected].active then 1 else 0
  }

  lemma {:induction false} OneLessOwed(k: Control)
    requires k.InRange() && (k.contexts[0].active || k.contexts[1].active)
    ensures Owed(Next(k, EAGER)) == Owed(k) - 1
  {
    var d := Driven(k, EAGER);
    RestAfterBeat(d.contexts[d.selected]);
  }

  /** Some run takes the last beat. */
  lemma {:induction false} SomeRunEnds(k: Control, id: nat) returns (inputs: seq<Input>)
    requires k.InRange() && id < 2 && k.contexts[id].active
    ensures BeatsLeft(k, id, inputs).Some?
    decreases Owed(k)
  {
    var d := Driven(k, EAGER);
    if BeatTaken(d, EAGER, id) && d.contexts[id].beat == d.contexts[id].length {
      inputs := [EAGER];
    } else {
      OneLessOwed(k);
      var rest := SomeRunEnds(Next(k, EAGER), id);
      inputs := [EAGER] + rest;
      assert inputs[1..] == rest;
    }
  }

  /** A read burst that was under way ends, in every run that ends it, with beat ARLEN + 1 of the
      burst if and only if its counter was within its length. */
  lemma {:induction false} ReadBurstIsWholeIff(k: Control, id: nat)
    requires k.InRange() && id < 2 && k.contexts[id].active
    ensures (forall inputs :: BeatsLeft(k, id, inputs).Some? ==>
               k.contexts[id].beat + BeatsLeft(k, id, inputs).value == k.contexts[id].length + 1)
      <==> k.contexts[id].beat <= k.contexts[id].length
  {
    forall inputs ensures BeatsLeft(k, id, inputs) in {None, Some(Rest(k.contexts[id]))} {
      BeatsLeftInEveryRun(k, id, inputs);
    }
    var ending := SomeRunEnds(k, id);
    assert BeatsLeft(k, id, ending) == Some(Rest(k.contexts[id]));
  }

  /** How many beats of the write burst are taken until the slave ends it, by a master that
      does not raise WLAST. */
  function WriteBeatsLeft(k: Control, inputs: seq<Input>): Option<nat>
    requires k.InRange()
    decreases |inputs|
  {
    if inputs == [] then None
    else
      var i, d := inputs[0].(wLast := false), Driven(k, inputs[0]);
      var rest := WriteBeatsLeft(Next(k, i), inputs[1..]);
      if !WTaken(d.write, i) then rest
      else if d.write.beat == d.write.length then Some(1)
      else match rest case None => None case Some(n) => Some(n + 1)
  }

  lemma {:induction false} WriteBeatsLeftInEveryRun(k: Control, inputs: seq<Input>)
    requires k.InRange() && k.write.active
    ensures WriteBeatsLeft(k, inputs) in {None, Some(Rest(k.write))}
    decreases |inputs|
  {
    if inputs != [] {
      var i, d := inputs[0].(wLast := false), Driven(k, inputs[0]);
      RestAfterBeat(d.write);
      if !(WTaken(d.write, i) && d.write.beat == d.write.length) { WriteBeatsLeftInEveryRun(Next(k, i), inputs[1..]); }
    }
  }

  lemma {:induction false} SomeRunEndsWrite(k: Control) returns (inputs: seq<Input>)
    requires k.InRange() && k.write.active
    ensures WriteBeatsLeft(k, inputs).Some?
    decreases Rest(k.write)
  {
    RestAfterBeat(k.write);
    if k.write.beat == k.write.length {
      inputs := [EAGER];
    } else {
      var rest := SomeRunEndsWrite(Next(k, EAGER));
      inputs := [EAGER] + rest;
      assert inputs[1..] == rest;
    }
  }

  /** The same of a write burst, which the slave ends by itself on beat AWLEN + 1. */
  lemma {:induction false} WriteBurstIsWholeIff(k: Control)
    requires k.InRange() && k.write.active
    ensures (forall inputs :: WriteBeatsLeft(k, inputs).Some? ==>
               k.write.beat + WriteBeatsLeft(k, inputs).value == k.write.length + 1)
      <==> k.write.beat <= k.write.length
  {
    forall inputs ensures WriteBeatsLeft(k, inputs) in {None, Some(Rest(k.write))} {
      WriteBeatsLeftInEveryRun(k, inputs);
    }
    var ending := SomeRunEndsWrite(k);
    assert WriteBeatsLeft(k, ending) == Some(Rest(k.write));
  }

  // ----- what restore accepts -----

  /** Exactly which accepted streams give a slave that goes on within the range of its contexts,
      and one that shows only beats and responses that are due, whatever the master does. */
  lemma {:induction false} RestoredRunsIff(current: Slave, s: seq<byte>)
    requires GetAxi(current, s).Ok?
    ensures var r := GetAxi(current, s).value.0.0;
      && |r.contexts| == 2
      && ((forall inputs :: StaysInRange(ControlOf(r), inputs)) <==> !(r.readDataValid && r.readSelectedId >= 2))
      && ((forall inputs :: StaysProper(ControlOf(r), inputs)) <==>
            (r.readDataValid ==> r.readSelectedId < 2 && r.contexts[r.readSelectedId].active)
            && !(r.writeActive && r.writeResponseValid))
  {
    hide GetExit, GetReadSide, GetWriteSide, RestoredExit, StaysInRange, StaysProper;
    RestoredShape(current, s);
    var k := ControlOf(GetAxi(current, s).value.0.0);
    StaysInRangeIff(k);
    StaysProperIff(k);
  }

  /** A saved state with the id of its waiting beat overwritten by 2 is accepted all the same, and
      the first cycle indexes out of range, whatever its inputs. Without a waiting beat the
      restored slave is as good as the saved one. */
  lemma {:induction false} SelectedTwoIsAccepted(current: Slave, s: Slave, rng: bv64, rest: seq<byte>)
    requires Inv(s) && rng != 0 && SameWiring(current, s)
    ensures ReadSideFits(ReadSideOf(s).(selected := 2)) && WriteSideOf(s).address < TWO64 && WriteSideOf(s).size < TWO64
    ensures var stream := PutExit(ExitSavedOf(s, rng),
        PutReadSide(ReadSideOf(s).(selected := 2), PutWriteSide(WriteSideOf(s), rest)));
      var restored := GetAxi(current, stream);
      && restored.Ok? && restored.value.0.0.readSelectedId == 2 && |restored.value.0.0.contexts| == 2
      && (s.readDataValid ==> forall i :: !Driven(ControlOf(restored.value.0.0), i).InRange())
      && (!s.readDataValid ==> forall inputs :: StaysProper(ControlOf(restored.value.0.0), inputs))
  {
    hide PutExit, PutReadSide, PutWriteSide, GetExit, GetReadSide, GetWriteSide, StaysProper;
    FieldsFit(s);
    var r, w := ReadSideOf(s).(selected := 2), WriteSideOf(s);
    ExitRoundTrip(ExitSavedOf(s, rng), PutReadSide(r, PutWriteSide(w, rest)));
    StaysProperIff(ControlOf(s).(selected := 2));
  }
}
