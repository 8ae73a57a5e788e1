/** Scalar lockstep checking of retired instructions against the reference model
    (src/main.cc:1349-1437, src/SpikeReference.cc:328-391 and 717-741). The reference is a
    source of commits with a register file; its own execution is not part of this model. */
module Lockstep {
  import opened Words

  type Index = x: int | 0 <= x < 32

  /** The thirty-two integer and thirty-two floating registers. */
  datatype Registers = Registers(integer: seq<u32>, floating: seq<u32>) {
    predicate Shaped() { |integer| == 32 && |floating| == 32 }
  }

  /** A retired instruction as the DUT reports it. */
  datatype Retired = Retired(pc: u32, instruction: u32, writes: bool, isFp: bool, rd: Index, value: u32)

  /** A commit of the reference. Writes to x0 are not reported as writes. */
  datatype Commit = Commit(pc: u32, instruction: u32, writes: bool, isFp: bool, rd: Index, value: u32) {
    predicate Sound() { writes && rd == 0 ==> isFp }
  }

  const SYNCHRONIZED_CSRS: set<int> :=
    {0xf11, 0xf12, 0xf13, 0xf14, 0xf15, 0xb00, 0xb02, 0xb80, 0xb82, 0xc00, 0xc01, 0xc02, 0xc80, 0xc81, 0xc82}

  /** Accesses to identity and counter CSRs, whose values the models need not share. */
  predicate RequiresSynchronization(instruction: u32) {
    instruction % 0x80 == 0x73 && instruction / 0x1000 % 8 != 0 && instruction / 0x10_0000 in SYNCHRONIZED_CSRS
  }

  /** Of all CSR instructions, exactly those on the machine identity (0xf11 to 0xf15) and on
      the cycle, time and retirement counters are synchronised, whatever their operation. */
  lemma {:induction false} SynchronizedInstructions(csr: nat, rs1: nat, funct3: nat, rd: nat)
    requires csr < 0x1000 && rs1 < 32 && funct3 < 8 && rd < 32
    ensures RequiresSynchronization(csr * 0x10_0000 + rs1 * 0x8000 + funct3 * 0x1000 + rd * 0x80 + 0x73) <==>
      funct3 != 0 && (0xf11 <= csr <= 0xf15 || csr in {0xb00, 0xb02} || csr in {0xb80, 0xb82}
                      || 0xc00 <= csr <= 0xc02 || 0xc80 <= csr <= 0xc82)
  {
    var i := csr * 0x10_0000 + rs1 * 0x8000 + funct3 * 0x1000 + rd * 0x80 + 0x73;
    assert i / 0x10_0000 == csr && i / 0x1000 == csr * 0x100 + rs1 * 8 + funct3;
  }

  function Write(r: Registers, isFp: bool, rd: Index, value: u32): Registers
    requires r.Shaped()
  {
    if isFp then r.(floating := r.floating[rd := value]) else r.(integer := r.integer[rd := value])
  }

  /** The reference's registers after it has produced a commit. */
  function Committed(r: Registers, c: Commit): Registers
    requires r.Shaped()
  {
    if c.writes then Write(r, c.isFp, c.rd, c.value) else r
  }

  predicate DestinationDiffers(d: Retired, c: Commit) {
    c.writes != d.writes || (c.writes && (c.isFp != d.isFp || c.rd != d.rd || c.value != d.value))
  }

  /** The comparison the loop makes on every commit. */
  predicate Accepts(d: Retired, c: Commit) {
    d.pc == c.pc && d.instruction == c.instruction
    && (RequiresSynchronization(d.instruction) || !DestinationDiffers(d, c))
  }

  /** Exactly which commits are rejected: another pc, another instruction, or another
      destination or value, unless the instruction accesses an identity or counter CSR. */
  lemma {:induction false} RejectedIff(d: Retired, c: Commit)
    ensures var csr := d.instruction / 0x10_0000;
      var own := d.instruction % 0x80 == 0x73 && d.instruction / 0x1000 % 8 != 0
        && (0xf11 <= csr <= 0xf15 || csr in {0xb00, 0xb02, 0xb80, 0xb82} || 0xc00 <= csr <= 0xc02
            || 0xc80 <= csr <= 0xc82);
      var same := if c.writes then d.writes && d.isFp == c.isFp && d.rd == c.rd && d.value == c.value else !d.writes;
      !Accepts(d, c) <==> d.pc != c.pc || d.instruction != c.instruction || (!own && !same)
  {
  }

  /** The tracked registers before synchronisation: register number 0 is skipped in both
      files. */
  function BeforeSync(arch: Registers, d: Retired): Registers
    requires arch.Shaped()
  {
    if d.writes && d.rd != 0 then Write(arch, d.isFp, d.rd, d.value) else arch
  }

  /** The tracked registers after the commit: only x0 is skipped. */
  function AfterSync(arch: Registers, d: Retired): Registers
    requires arch.Shaped()
  {
    if d.writes && (d.isFp || d.rd != 0) then Write(arch, d.isFp, d.rd, d.value) else arch
  }

  /** synchronize writes every register of the reference except x0. */
  function Synchronized(reference: Registers, arch: Registers): Registers
    requires reference.Shaped() && arch.Shaped()
  {
    Registers([reference.integer[0]] + arch.integer[1..], arch.floating)
  }

  datatype Pair = Pair(arch: Registers, reference: Registers)

  function Retire(s: Pair, d: Retired, c: Commit): Pair
    requires s.arch.Shaped() && s.reference.Shaped()
  {
    var committed := Committed(s.reference, c);
    var arch := BeforeSync(s.arch, d);
    var reference := if RequiresSynchronization(d.instruction) then Synchronized(committed, arch) else committed;
    Pair(AfterSync(arch, d), reference)
  }

  predicate InStep(s: Pair) { s.arch.Shaped() && s.arch == s.reference }

  /** A synchronised commit that writes f0: the reference is synchronised before the
      tracked f0 is updated. */
  predicate MissesF0(s: Pair, d: Retired)
    requires s.arch.Shaped()
  {
    RequiresSynchronization(d.instruction) && d.writes && d.isFp && d.rd == 0 && d.value != s.arch.floating[0]
  }

  /** Lockstep after every accepted commit, including commits whose destinations differ
      and are repaired by synchronisation; it is lost exactly when a synchronised commit
      writes a new value to f0. */
  lemma {:induction false} RetireKeepsLockstepIff(s: Pair, d: Retired, c: Commit)
    requires InStep(s) && c.Sound() && Accepts(d, c)
    ensures InStep(Retire(s, d, c)) <==> !MissesF0(s, d)
  {
    var after := Retire(s, d, c);
    var arch := BeforeSync(s.arch, d);
    if RequiresSynchronization(d.instruction) {
      assert [s.reference.integer[0]] + arch.integer[1..] == arch.integer;
      if d.writes && d.isFp && d.rd == 0 {
        assert after.arch.floating[0] == d.value;
        assert after.reference.floating[0] == s.arch.floating[0];
        if d.value == s.arch.floating[0] { assert after.arch.floating == s.arch.floating; }
      } else if d.writes && d.rd != 0 {
        assert after.arch == arch;
      }
    } else if d.writes {
      assert after.arch == Write(s.arch, d.isFp, d.rd, d.value);
    }
  }

  /** What an accepted commit does to the tracked registers: the named register of the named
      file holds the value, x0 stays, and so does every other register. */
  lemma {:induction false} TrackedRegisters(s: Pair, d: Retired, c: Commit, r: Index)
    requires InStep(s) && Accepts(d, c)
    ensures var after := Retire(s, d, c).arch;
      && after.Shaped()
      && after.integer[r] == (if d.writes && !d.isFp && d.rd == r && r != 0 then d.value else s.arch.integer[r])
      && after.floating[r] == (if d.writes && d.isFp && d.rd == r then d.value else s.arch.floating[r])
  {
  }

  predicate LosesLockstep(s: Pair, d: Retired, c: Commit) {
    InStep(s) && c.Sound() && Accepts(d, c) && !InStep(Retire(s, d, c))
  }

  /** A concrete loss: the cycle counter read with f0 as its reported destination. */
  lemma {:induction false} LockstepLossExample()
    ensures exists s: Pair, d: Retired, c: Commit :: LosesLockstep(s, d, c)
  {
    var zeros := seq(32, _ => 0 as u32);
    var s := Pair(Registers(zeros, zeros), Registers(zeros, zeros));
    var d := Retired(0x8000_0000, 0xc000_2073, true, true, 0, 1);
    var c := Commit(0x8000_0000, 0xc000_2073, false, false, 0, 0);
    assert RequiresSynchronization(0xc000_2073);
    RetireKeepsLockstepIff(s, d, c);
    assert LosesLockstep(s, d, c);
  }

  // ----- whole traces -----

  type Event = (Retired, Commit)

  predicate Accepted(trace: seq<Event>) {
    forall i :: 0 <= i < |trace| ==> trace[i].1.Sound() && Accepts(trace[i].0, trace[i].1)
  }

  function Retirements(trace: seq<Event>): seq<(u32, u32)> {
    seq(|trace|, n requires 0 <= n < |trace| => (trace[n].0.pc, trace[n].0.instruction))
  }

  function Commits(trace: seq<Event>): seq<(u32, u32)> {
    seq(|trace|, n requires 0 <= n < |trace| => (trace[n].1.pc, trace[n].1.instruction))
  }

  /** Over every trace that is not rejected the core retires the instructions that the
      reference commits, at the same addresses and in the same order; and where no identity or
      counter CSR is accessed it writes the same values to the same destinations. */
  lemma {:induction false} SameControlFlow(trace: seq<Event>)
    requires Accepted(trace)
    ensures Retirements(trace) == Commits(trace)
    ensures forall n :: 0 <= n < |trace| && !RequiresSynchronization(trace[n].0.instruction) ==>
      var d, c := trace[n].0, trace[n].1;
      d.writes == c.writes && (d.writes ==> (d.isFp, d.rd, d.value) == (c.isFp, c.rd, c.value))
  {
    hide RequiresSynchronization;
    forall n | 0 <= n < |trace| ensures Accepts(trace[n].0, trace[n].1) {
    }
  }

  predicate NamesIntegerForCsr(d: Retired) {
    RequiresSynchronization(d.instruction) && d.writes ==> !d.isFp || d.rd != 0
  }

  /** A DUT that names integer destinations for its CSR instructions. */
  predicate CsrsWriteIntegers(trace: seq<Event>) {
    forall i :: 0 <= i < |trace| ==> NamesIntegerForCsr(trace[i].0)
  }

  function RetireAll(s: Pair, trace: seq<Event>): (r: Pair)
    requires s.arch.Shaped() && s.reference.Shaped()
    ensures r.arch.Shaped() && r.reference.Shaped()
  {
    if trace == [] then s
    else Retire(RetireAll(s, trace[..|trace| - 1]), trace[|trace| - 1].0, trace[|trace| - 1].1)
  }

  /** Over every trace that is not rejected, the tracked registers are the reference's
      after each of its commits. */
  lemma {:induction false} TraceKeepsLockstep(s: Pair, trace: seq<Event>)
    requires InStep(s) && Accepted(trace) && CsrsWriteIntegers(trace)
    ensures InStep(RetireAll(s, trace))
  {
    if trace != [] {
      var n := |trace| - 1;
      TraceKeepsLockstep(s, trace[..n]);
      RetireKeepsLockstepIff(RetireAll(s, trace[..n]), trace[n].0, trace[n].1);
    }
  }

  ghost predicate InStepThroughout(s: Pair, trace: seq<Event>)
    requires s.arch.Shaped() && s.reference.Shaped()
  {
    forall n :: 0 <= n <= |trace| ==> InStep(RetireAll(s, trace[..n]))
  }

  predicate LosesF0At(s: Pair, trace: seq<Event>, n: nat)
    requires s.arch.Shaped() && s.reference.Shaped() && n < |trace|
  {
    MissesF0(RetireAll(s, trace[..n]), trace[n].0)
  }

  /** Exactly when a trace that is not rejected stays in lockstep from beginning to end. */
  lemma {:induction false} LockstepThroughoutIff(s: Pair, trace: seq<Event>)
    requires InStep(s) && Accepted(trace)
    ensures InStepThroughout(s, trace) <==> forall n :: 0 <= n < |trace| ==> !LosesF0At(s, trace, n)
  {
    hide Retire, MissesF0;
    if InStepThroughout(s, trace) {
      forall n | 0 <= n < |trace| ensures !LosesF0At(s, trace, n) {
        OneMore(s, trace, n);
        assert InStep(RetireAll(s, trace[..n])) && InStep(RetireAll(s, trace[..n + 1]));
      }
    }
    if forall n :: 0 <= n < |trace| ==> !LosesF0At(s, trace, n) {
      for n := 0 to |trace|
        invariant forall k :: 0 <= k <= n ==> InStep(RetireAll(s, trace[..k]))
      {
        OneMore(s, trace, n);
        assert !LosesF0At(s, trace, n);
      }
    }
  }

  lemma {:induction false} OneMore(s: Pair, trace: seq<Event>, n: nat)
    requires InStep(s) && Accepted(trace) && n < |trace|
    ensures InStep(RetireAll(s, trace[..n])) ==>
      (InStep(RetireAll(s, trace[..n + 1])) <==> !LosesF0At(s, trace, n))
  {
    hide Accepts;
    assert trace[..n + 1][..n] == trace[..n];
    if InStep(RetireAll(s, trace[..n])) {
      RetireKeepsLockstepIff(RetireAll(s, trace[..n]), trace[n].0, trace[n].1);
    }
  }

  /** The x0 of neither side is ever written. */
  lemma {:induction false} X0IsNeverWritten(s: Pair, trace: seq<Event>)
    requires s.arch.Shaped() && s.reference.Shaped() && Accepted(trace)
    ensures RetireAll(s, trace).arch.integer[0] == s.arch.integer[0]
    ensures RetireAll(s, trace).reference.integer[0] == s.reference.integer[0]
  {
    if trace != [] { X0IsNeverWritten(s, trace[..|trace| - 1]); }
  }

  // ----- the loop -----

  class ScalarReference {
    var integer: seq<u32>
    var floating: seq<u32>

    function State(): Registers
      reads this
    {
      Registers(integer, floating)
    }

    constructor ()
      ensures State() == Registers(seq(32, _ => 0), seq(32, _ => 0))
    {
      integer, floating := seq(32, _ => 0), seq(32, _ => 0);
    }

    /** The reference produces its next commit. */
    method Next(c: Commit)
      requires State().Shaped()
      modifies this
      ensures State() == Committed(old(State()), c)
    {
      if c.writes {
        if c.isFp {
          floating := floating[c.rd := c.value];
        } else {
          integer := integer[c.rd := c.value];
        }
      }
    }

    method Synchronize(arch: Registers)
      requires State().Shaped() && arch.Shaped()
      modifies this
      ensures State() == Synchronized(old(State()), arch)
    {
      for k := 1 to 32
        invariant |integer| == 32 && floating == old(floating)
        invariant integer[0] == old(integer)[0]
        invariant forall j :: 1 <= j < k ==> integer[j] == arch.integer[j]
      {
        integer := integer[k := arch.integer[k]];
      }
      for k := 0 to 32
        invariant |floating| == 32 && integer == Synchronized(old(State()), arch).integer
        invariant forall j :: 0 <= j < k ==> floating[j] == arch.floating[j]
      {
        floating := floating[k := arch.floating[k]];
      }
    }
  }

  class RetirementLoop {
    var integer: seq<u32>
    var floating: seq<u32>
    const reference: ScalarReference

    function Architecture(): Registers
      reads this
    {
      Registers(integer, floating)
    }

    function State(): Pair
      reads this, reference
    {
      Pair(Architecture(), reference.State())
    }

    constructor ()
      ensures fresh(reference) && InStep(State())
    {
      integer, floating := seq(32, _ => 0), seq(32, _ => 0);
      reference := new ScalarReference();
    }

    /** One lane of the loop body. */
    method RetireOne(d: Retired, c: Commit) returns (accepted: bool)
      requires Architecture().Shaped() && reference.State().Shaped()
      modifies this, reference
      ensures Architecture().Shaped() && reference.State().Shaped()
      ensures accepted <==> Accepts(d, c)
      ensures accepted ==> State() == Retire(old(State()), d, c)
    {
      reference.Next(c);
      var synchronize := RequiresSynchronization(d.instruction);
      var destinationMismatch :=
        c.writes != d.writes || (c.writes && (c.isFp != d.isFp || c.rd != d.rd || c.value != d.value));
      if c.pc != d.pc || c.instruction != d.instruction || (!synchronize && destinationMismatch) {
        return false;
      }
      if d.writes && d.rd != 0 {
        Track(d);
      }
      if synchronize {
        reference.Synchronize(Architecture());
      }
      if d.writes && !d.isFp && d.rd != 0 {
        Track(d);
      } else if d.writes && d.isFp {
        Track(d);
      }
      return true;
    }

    method Track(d: Retired)
      requires Architecture().Shaped()
      modifies this
      ensures Architecture() == Write(old(Architecture()), d.isFp, d.rd, d.value)
    {
      if d.isFp {
        floating := floating[d.rd := d.value];
      } else {
        integer := integer[d.rd := d.value];
      }
    }

    /** A run of the loop stops at the first rejected commit. */
    method RetireTrace(trace: seq<Event>) returns (accepted: bool)
      requires Architecture().Shaped() && reference.State().Shaped()
      requires forall i :: 0 <= i < |trace| ==> trace[i].1.Sound()
      modifies this, reference
      ensures accepted <==> Accepted(trace)
      ensures accepted ==> State() == RetireAll(old(State()), trace)
      ensures accepted ==> Retirements(trace) == Commits(trace)
      ensures accepted && old(InStep(State())) && CsrsWriteIntegers(trace) ==> InStep(State())
    {
      hide Retire, RequiresSynchronization;
      for n := 0 to |trace|
        invariant Architecture().Shaped() && reference.State().Shaped()
        invariant Accepted(trace[..n]) && State() == RetireAll(old(State()), trace[..n])
      {
        assert trace[..n + 1][..n] == trace[..n];
        var ok := RetireOne(trace[n].0, trace[n].1);
        if !ok { return false; }
      }
      assert trace[..|trace|] == trace;
      SameControlFlow(trace);
      if old(InStep(State())) && CsrsWriteIntegers(trace) { TraceKeepsLockstep(old(State()), trace); }
      return true;
    }
  }
}
