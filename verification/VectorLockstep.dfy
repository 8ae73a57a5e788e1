/** Vector lockstep over traces of retired vector instructions (src/main.cc:105-284 in the loop
    of src/main.cc:1349-1437, src/SpikeReference.cc:328-365): which accepted commits leave the
    core's vector state, as far as it has been reported, equal to the reference's. Stores are
    compared byte by byte (VectorStores). */
module VectorLockstep {
  import opened Words
  import opened Memory
  import opened VectorStores
  import opened VectorCommit
  import opened VectorEncoding
  import opened VectorElements

  /** What vector instructions share with others: vstart, vxsat and the exception flags. */
  datatype Status = Status(vstart: u32, saturated: bool, flags: bv8)

  /** The vector registers, the configuration and the status. */
  datatype File = File(registers: seq<Register>, vl: nat, vtype: u32, status: Status) {
    predicate Shaped() { |registers| == 32 }
  }

  /** One retired vector instruction: what the debug ports show, the memory of the reference
      after its step, the report of the core and the commit; and the status that other
      instructions have set on both sides since the last one, if any has. */
  datatype Event = Event(dut: seq<Register>, ports: Ports, store: StoreTrace, words: WordMap, t: Trace, c: Commit,
    others: Option<Status>) {
    predicate Valid() { |dut| == 64 && ports.Shaped() && store.eew <= 5 && Supported(c, t) }
  }

  /** The registers of the reference after its step. */
  function Stepped(registers: seq<Register>, written: seq<VectorWrite>): (r: seq<Register>)
    requires |registers| == 32
    ensures |r| == 32
  {
    if written == [] then registers
    else
      var last := written[|written| - 1];
      Stepped(registers, written[..|written| - 1])[last.index := last.value]
  }

  datatype Pair = Pair(core: File, reference: File) {
    predicate Shaped() { core.Shaped() && reference.Shaped() }
  }

  predicate InStep(s: Pair) { s.core.Shaped() && s.core == s.reference }

  function Before(f: File, e: Event): File {
    match e.others case None => f case Some(status) => f.(status := status)
  }

  function StatusOf(v: VectorState): Status { Status(v.vstart, v.saturated, v.flags) }

  /** The commit is one of this reference, and the checker accepts it. */
  ghost predicate AcceptedAt(s: Pair, e: Event)
    requires s.Shaped() && e.Valid()
  {
    && e.c.before.vl == s.reference.vl && e.c.before.vtype == s.reference.vtype
    && StatusOf(e.c.before) == Before(s.reference, e).status
    && Accepts(e.dut, e.ports, e.store, e.t, e.c, Stepped(s.reference.registers, e.c.written), e.words)
  }

  /** What the core has reported to hold: the group it names, the configuration if it says
      that it set one, and its flags, which accumulate; vstart is 0 after every vector
      instruction. */
  function CoreAfter(f: File, e: Event): File
    requires f.Shaped() && e.Valid() && GroupFits(e.t)
  {
    var was := Before(f, e).status;
    File(TakenOver(f.registers, e.dut, e.t, e.t.count), if e.t.configuration then e.t.vl else f.vl,
      if e.t.configuration then e.t.vtype else f.vtype,
      Status(0, was.saturated || e.t.saturated, was.flags | e.t.flags))
  }

  /** The reference after its own step. */
  function ReferenceStep(f: File, c: Commit): File
    requires f.Shaped()
  {
    File(Stepped(f.registers, c.written), c.after.vl, c.after.vtype, StatusOf(c.after))
  }

  /** The reference after the checker has given it the core's group. */
  function ReferenceAfter(f: File, e: Event): File
    requires f.Shaped() && e.Valid() && GroupFits(e.t)
  {
    var stepped := ReferenceStep(f, e.c);
    stepped.(registers := TakenOver(stepped.registers, e.dut, e.t, e.t.count))
  }

  function Retire(s: Pair, e: Event): Pair
    requires s.Shaped() && e.Valid() && GroupFits(e.t)
  {
    Pair(CoreAfter(s.core, e), ReferenceAfter(s.reference, e))
  }

  predicate InGroup(t: Trace, r: int) { t.base <= r < t.base + t.count }

  /** The core has reported everything that the reference's step changed: no register outside
      the group, and no configuration but by a configuration instruction. */
  predicate ReportsAll(f: File, e: Event)
    requires f.Shaped()
  {
    && (forall r :: 0 <= r < 32 && !InGroup(e.t, r) ==> Stepped(f.registers, e.c.written)[r] == f.registers[r])
    && (IsConfiguration(e.c.instruction) || (e.c.after.vl == f.vl && e.c.after.vtype == f.vtype))
  }

  /** The core's step is the reference's from the same state: every register is what the
      reference computed, but for ones in the elements of the group in which the checker wants
      them. */
  ghost predicate FollowsReference(s: Pair, e: Event)
    requires s.Shaped() && e.Valid() && GroupFits(e.t)
  {
    var core, computed := CoreAfter(s.core, e), ReferenceStep(s.reference, e.c);
    && core.vl == computed.vl && core.vtype == computed.vtype && core.status == computed.status
    && forall r :: 0 <= r < 32 ==>
         if InGroup(e.t, r) then BitsMatch(e.c, e.t, core.registers[r], computed.registers[r], r - e.t.base)
         else core.registers[r] == computed.registers[r]
  }

  /** After an accepted commit the states agree, and the core's step was the reference's, if and
      only if the core has reported everything that changed. */
  lemma {:induction false} RetireKeepsLockstepIff(s: Pair, e: Event)
    requires InStep(s) && e.Valid() && AcceptedAt(s, e)
    ensures InStep(Retire(s, e)) <==> ReportsAll(s.reference, e)
    ensures FollowsReference(s, e) <==> ReportsAll(s.reference, e)
  {
    hide Supported, Stepped, BitsMatch, Physical, Effects, StoresMatch, Opcode;
    var stepped := Stepped(s.reference.registers, e.c.written);
    var core, reference := CoreAfter(s.core, e), ReferenceAfter(s.reference, e);
    if ReportsAll(s.reference, e) {
      assert core.registers == reference.registers;
    }
    forall r | 0 <= r < 32 && InGroup(e.t, r)
      ensures BitsMatch(e.c, e.t, core.registers[r], stepped[r], r - e.t.base)
    {
      assert BitsMatch(e.c, e.t, Physical(e.dut, e.t, r - e.t.base), stepped[e.t.base + (r - e.t.base)], r - e.t.base);
    }
  }

  /** For an instruction of the tables, where the checker does not depart from the standard, an
      accepted step with everything reported is one that the standard allows after the
      reference's computation. */
  lemma {:induction false} StepIsAllowed(s: Pair, e: Event, i: Instruction, v: VectorType, rs1: u32)
    requires InStep(s) && e.Valid() && AcceptedAt(s, e) && ReportsAll(s.reference, e)
    requires Reported(i, v, e.c, e.t)
    requires DepartsNowhere(i.Result(v).value, v, SituationOf(i, e.c, rs1), e.t)
    ensures var core, computed := CoreAfter(s.core, e), ReferenceStep(s.reference, e.c);
      && core.vl == computed.vl && core.vtype == computed.vtype && core.status == computed.status
      && forall r :: 0 <= r < 32 ==>
           if InGroup(e.t, r) then
             RegisterAllowed(i.Result(v).value, v, SituationOf(i, e.c, rs1), core.registers[r], computed.registers[r],
               r - e.t.base)
           else core.registers[r] == computed.registers[r]
  {
    hide ReportsAll, DepartsNowhere, RegistersMatch, RegisterAllowed, SituationOf, Instruction.Result, Physical,
      BitsMatch, Stepped, ElementBits, Instruction.Encode, VectorType.Encode, Effects, StoresMatch, StateAgrees;
    var d, situation := i.Result(v).value, SituationOf(i, e.c, rs1);
    RetireKeepsLockstepIff(s, e);
    ReportedIsComparable(i, v, e.c, e.t);
    ComparisonIsStandardIff(i, v, e.c, e.t, rs1);
    var stepped := Stepped(s.reference.registers, e.c.written);
    assert StandardMatch(d, v, situation, e.t, e.dut, stepped);
    forall r | 0 <= r < 32 && InGroup(e.t, r)
      ensures RegisterAllowed(d, v, situation, CoreAfter(s.core, e).registers[r], stepped[r], r - e.t.base)
    {
      var g := r - e.t.base;
      assert RegisterAllowed(d, v, situation, Physical(e.dut, e.t, g), stepped[e.t.base + g], g);
    }
  }

  // ----- whole traces -----

  predicate Wellformed(trace: seq<Event>) {
    forall n :: 0 <= n < |trace| ==> trace[n].Valid() && GroupFits(trace[n].t)
  }

  function RetireAll(s: Pair, trace: seq<Event>): (r: Pair)
    requires s.Shaped() && Wellformed(trace)
    ensures r.Shaped()
  {
    if trace == [] then s else Retire(RetireAll(s, trace[..|trace| - 1]), trace[|trace| - 1])
  }

  ghost predicate AcceptedNth(s: Pair, trace: seq<Event>, n: nat)
    requires s.Shaped() && Wellformed(trace) && n < |trace|
  {
    AcceptedAt(RetireAll(s, trace[..n]), trace[n])
  }

  ghost predicate AllAccepted(s: Pair, trace: seq<Event>)
    requires s.Shaped() && Wellformed(trace)
  {
    forall n :: 0 <= n < |trace| ==> AcceptedNth(s, trace, n)
  }

  predicate ReportsNth(s: Pair, trace: seq<Event>, n: nat)
    requires s.Shaped() && Wellformed(trace) && n < |trace|
  {
    ReportsAll(RetireAll(s, trace[..n]).reference, trace[n])
  }

  ghost predicate FollowsNth(s: Pair, trace: seq<Event>, n: nat)
    requires s.Shaped() && Wellformed(trace) && n < |trace|
  {
    FollowsReference(RetireAll(s, trace[..n]), trace[n])
  }

  predicate InStepAfter(s: Pair, trace: seq<Event>, n: nat)
    requires s.Shaped() && Wellformed(trace) && n <= |trace|
  {
    InStep(RetireAll(s, trace[..n]))
  }

  lemma {:induction false} OneMore(s: Pair, trace: seq<Event>, n: nat)
    requires InStep(s) && Wellformed(trace) && AllAccepted(s, trace) && n < |trace| && InStepAfter(s, trace, n)
    ensures InStepAfter(s, trace, n + 1) <==> ReportsNth(s, trace, n)
    ensures FollowsNth(s, trace, n) <==> ReportsNth(s, trace, n)
  {
    hide Retire, ReportsAll, AcceptedAt, FollowsReference, Event.Valid;
    assert trace[..n + 1][..n] == trace[..n];
    assert AcceptedNth(s, trace, n);
    RetireKeepsLockstepIff(RetireAll(s, trace[..n]), trace[n]);
  }

  /** A trace of accepted commits is in lockstep from beginning to end if and only if every
      commit reports everything that changed; then every step of the core was the reference's. */
  lemma {:induction false} LockstepThroughoutIff(s: Pair, trace: seq<Event>)
    requires InStep(s) && Wellformed(trace) && AllAccepted(s, trace)
    ensures (forall n :: 0 <= n <= |trace| ==> InStepAfter(s, trace, n))
      <==> forall n :: 0 <= n < |trace| ==> ReportsNth(s, trace, n)
    ensures (forall n :: 0 <= n <= |trace| ==> InStepAfter(s, trace, n))
      ==> forall n :: 0 <= n < |trace| ==> FollowsNth(s, trace, n)
  {
    hide Wellformed, AllAccepted, ReportsNth, InStepAfter, FollowsNth;
    assert InStepAfter(s, trace, 0) by { Beginning(s, trace); }
    if forall n :: 0 <= n <= |trace| ==> InStepAfter(s, trace, n) {
      forall n | 0 <= n < |trace| ensures ReportsNth(s, trace, n) && FollowsNth(s, trace, n) {
        OneMore(s, trace, n);
        assert InStepAfter(s, trace, n + 1);
      }
    }
    if forall n :: 0 <= n < |trace| ==> ReportsNth(s, trace, n) {
      for n := 0 to |trace|
        invariant forall k :: 0 <= k <= n ==> InStepAfter(s, trace, k)
      {
        OneMore(s, trace, n);
      }
    }
  }

  lemma {:induction false} Beginning(s: Pair, trace: seq<Event>)
    requires InStep(s) && Wellformed(trace)
    ensures InStepAfter(s, trace, 0)
  {
  }

  // ----- a result that is not reported -----

  /** A core that names no destination for an arithmetic instruction is accepted whatever its
      registers hold, and lockstep is lost exactly when the instruction has changed something. */
  lemma {:induction false} UnreportedResultIsAccepted(s: Pair, e: Event)
    requires InStep(s) && e.Valid() && Opcode(e.c.instruction) == ARITHMETIC && !IsConfiguration(e.c.instruction)
    requires e.c.before.vl == s.reference.vl && e.c.before.vtype == s.reference.vtype
    requires StatusOf(e.c.before) == Before(s.reference, e).status
    requires e.c.after.vl == e.c.before.vl && e.c.after.vtype == e.c.before.vtype
    requires StateAgrees(e.c, e.t) && e.t.count == 0 && e.t.base <= 32
    ensures AcceptedAt(s, e)
    ensures InStep(Retire(s, e)) <==> Stepped(s.reference.registers, e.c.written) == s.reference.registers
  {
    hide Supported, Stepped, BitsMatch, Physical, Effects, StoresMatch, Opcode, StateAgrees, IsConfiguration;
    assert ARITHMETIC != STORE;
    RetireKeepsLockstepIff(s, e);
    assert forall r :: 0 <= r < 32 ==> !InGroup(e.t, r);
  }

  ghost predicate LosesLockstep(s: Pair, e: Event) {
    InStep(s) && e.Valid() && AcceptedAt(s, e) && !InStep(Retire(s, e))
  }

  lemma {:induction false} QuietStateAgrees(c: Commit, t: Trace)
    requires c.before == c.after && c.before.vstart == 0 && !IsConfiguration(c.instruction)
    requires !t.configuration && t.flags == 0 && !t.saturated
    ensures StateAgrees(c, t)
  {
    hide IsConfiguration;
  }

  /** vadd.vv v1, v2, v3 with a result that is not zero, reported without a destination. */
  lemma {:induction false} LockstepLossExample(ports: Ports, store: StoreTrace)
    requires ports.Shaped() && store.eew <= 5
    ensures exists s: Pair, e: Event :: LosesLockstep(s, e)
  {
    hide StateAgrees, Opcode, Form, ElementBits, Arithmetic.Encode, AcceptedAt, Retire, Ports.Shaped;
    var add := Arithmetic(0, 1, 2, 3, 0, 1);
    ArithmeticFields(add);
    var zeros: Register, sum: Register := [0, 0, 0, 0, 0, 0, 0, 0], [1, 0, 0, 0, 0, 0, 0, 0];
    var file := File(seq(32, _ => zeros), 1, 0x10, Status(0, false, 0));
    var state := VectorState(1, 0x10, 0, false, 0);
    var c := Commit(add.Encode(), state, state, zeros, zeros, [], [VectorWrite(1, sum)]);
    var t := Trace(0, 0, 0, false, 0, 0, 0, false);
    var s, e := Pair(file, file), Event(seq(64, _ => zeros), ports, store, map[], t, c, None);
    QuietStateAgrees(c, t);
    OneWrite(file.registers, c.written[0]);
    assert Stepped(file.registers, c.written)[1] == sum;
    UnreportedResultIsAccepted(s, e);
    assert LosesLockstep(s, e);
  }

  lemma {:induction false} OneWrite(registers: seq<Register>, w: VectorWrite)
    requires |registers| == 32
    ensures Stepped(registers, [w]) == registers[w.index := w.value]
  {
    assert [w][..0] == [];
  }
}
