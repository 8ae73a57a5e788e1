/** Bookkeeping over retirement traces: instruction classes (src/Statistic.cc:45-111), the
    branch profile and the ring of recent commits (src/main.cc:1326-1365, 412-423). */
module Accounting {
  import opened Words

  // ----- instruction classes -----

  datatype Class = Alu | Branch | DirectJump | Call | Return | IndirectJump | Load | Store | Multiply | Divide
                 | Floating | System | Other

  /** The class of an instruction by its fields. */
  function ClassOfFields(opcode: nat, rd: nat, rs1: nat, funct3: nat, funct7: nat): Class {
    match opcode
    case 0x03 | 0x07 => Load
    case 0x23 | 0x27 => Store
    case 0x63 => Branch
    case 0x6f => if rd == 1 || rd == 5 then Call else DirectJump
    case 0x67 =>
      if rd == 0 && (rs1 == 1 || rs1 == 5) then Return else if rd == 1 || rd == 5 then Call else IndirectJump
    case 0x33 => if funct7 != 1 then Alu else if funct3 < 4 then Multiply else Divide
    case 0x53 | 0x43 | 0x47 | 0x4b | 0x4f => Floating
    case 0x0f | 0x73 => System
    case 0x13 | 0x17 | 0x37 => Alu
    case _ => Other
  }

  function ClassOf(i: u32): Class {
    ClassOfFields(i % 0x80, i / 0x80 % 0x20, i / 0x8000 % 0x20, i / 0x1000 % 8, i / 0x200_0000)
  }

  /** What the classes are, by the opcodes and fields of RV32IMF (RISC-V unprivileged ISA,
      chapters 2, 7, 11 and 19): loads and stores of both register files, branches, JAL and
      JALR with the link registers x1 and x5, M instructions under OP with funct7 1, floating
      arithmetic, fences and SYSTEM, and OP, OP-IMM, LUI and AUIPC. */
  lemma {:induction false} ClassTable(i: u32)
    ensures var opcode, rd, funct3, rs1, funct7 := i % 128, i / 128 % 32, i / 4096 % 8, i / 32768 % 32, i / 33554432;
      && (ClassOf(i) == Load <==> opcode in {3, 7})
      && (ClassOf(i) == Store <==> opcode in {35, 39})
      && (ClassOf(i) == Branch <==> opcode == 99)
      && (ClassOf(i) == DirectJump <==> opcode == 111 && rd !in {1, 5})
      && (ClassOf(i) == Return <==> opcode == 103 && rd == 0 && rs1 in {1, 5})
      && (ClassOf(i) == Call <==> opcode in {103, 111} && rd in {1, 5})
      && (ClassOf(i) == IndirectJump <==> opcode == 103 && rd !in {1, 5} && !(rd == 0 && rs1 in {1, 5}))
      && (ClassOf(i) == Multiply <==> opcode == 51 && funct7 == 1 && funct3 < 4)
      && (ClassOf(i) == Divide <==> opcode == 51 && funct7 == 1 && funct3 >= 4)
      && (ClassOf(i) == Floating <==> opcode in {67, 71, 75, 79, 83})
      && (ClassOf(i) == System <==> opcode in {15, 115})
      && (ClassOf(i) == Alu <==> opcode in {19, 23, 55} || (opcode == 51 && funct7 != 1))
  {
  }

  /** How many instructions of a trace have a class. */
  function Count(trace: seq<u32>, class': Class): nat {
    if trace == [] then 0
    else Count(trace[..|trace| - 1], class') + if ClassOf(trace[|trace| - 1]) == class' then 1 else 0
  }

  /** The fourteen 64-bit counters. */
  datatype Counters = Counters(
    alu: u64, branch: u64, jump: u64, load: u64, store: u64, multiply: u64, divide: u64, floating: u64, system: u64,
    other: u64, conditionalBranch: u64, call: u64, ret: u64, indirectJump: u64)

  function Wrap(n: int): u64 { n % TWO64 }

  /** The counters a trace must leave behind: exact counts, modulo the counter width. */
  function Tally(trace: seq<u32>): Counters {
    Counters(
      Wrap(Count(trace, Alu)), Wrap(Count(trace, Branch)), Wrap(Jumps(trace)), Wrap(Count(trace, Load)),
      Wrap(Count(trace, Store)), Wrap(Count(trace, Multiply)), Wrap(Count(trace, Divide)), Wrap(Count(trace, Floating)),
      Wrap(Count(trace, System)), Wrap(Count(trace, Other)), Wrap(Count(trace, Branch)), Wrap(Count(trace, Call)),
      Wrap(Count(trace, Return)), Wrap(Count(trace, IndirectJump)))
  }

  function Jumps(trace: seq<u32>): nat {
    Count(trace, DirectJump) + Count(trace, Call) + Count(trace, Return) + Count(trace, IndirectJump)
  }

  function Total(trace: seq<u32>): nat {
    Count(trace, Alu) + Count(trace, Branch) + Jumps(trace) + Count(trace, Load) + Count(trace, Store)
    + Count(trace, Multiply) + Count(trace, Divide) + Count(trace, Floating) + Count(trace, System)
    + Count(trace, Other)
  }

  lemma {:induction false} ClassesPartitionTrace(trace: seq<u32>)
    ensures Total(trace) == |trace|
  {
    hide ClassOf;
    if trace != [] { ClassesPartitionTrace(trace[..|trace| - 1]); }
  }

  lemma {:induction false} WrapDrops(n: int, k: int)
    ensures Wrap(n + k * TWO64) == Wrap(n)
  {
  }

  lemma {:induction false} WrapNext(n: nat)
    ensures Wrap(Wrap(n) + 1) == Wrap(n + 1)
  {
    WrapDrops(Wrap(n) + 1, n / TWO64);
  }

  lemma {:induction false} WrapAgain(n: nat)
    ensures Wrap(Wrap(n)) == Wrap(n) && Wrap(0) == 0
  {
  }

  lemma {:induction false} WrapSplit(n: nat)
    ensures n == Wrap(n) + n / TWO64 * TWO64
  {
  }

  lemma {:induction false} WrapSmall(n: nat)
    requires n < TWO64
    ensures Wrap(n) == n
  {
  }

  /** The ten class counters add up to the number of observed instructions. */
  lemma {:induction false} TenClassesSum(trace: seq<u32>)
    ensures var c := Tally(trace);
      Wrap(c.alu + c.branch + c.jump + c.load + c.store + c.multiply + c.divide + c.floating + c.system + c.other)
      == Wrap(|trace|)
  {
    hide Count, Wrap;
    ClassesPartitionTrace(trace);
    var c := Tally(trace);
    var n := [Count(trace, Alu), Count(trace, Branch), Jumps(trace), Count(trace, Load), Count(trace, Store),
      Count(trace, Multiply), Count(trace, Divide), Count(trace, Floating), Count(trace, System), Count(trace, Other)];
    WrapSplit(n[0]);
    WrapSplit(n[1]);
    WrapSplit(n[2]);
    WrapSplit(n[3]);
    WrapSplit(n[4]);
    WrapSplit(n[5]);
    WrapSplit(n[6]);
    WrapSplit(n[7]);
    WrapSplit(n[8]);
    WrapSplit(n[9]);
    WrapDrops(c.alu + c.branch + c.jump + c.load + c.store + c.multiply + c.divide + c.floating + c.system + c.other,
      n[0] / TWO64 + n[1] / TWO64 + n[2] / TWO64 + n[3] / TWO64 + n[4] / TWO64 + n[5] / TWO64 + n[6] / TWO64
      + n[7] / TWO64 + n[8] / TWO64 + n[9] / TWO64);
  }

  /** The report's direct-jump subtraction, modulo 2^64, gives the number of direct jumps
      that are not calls; branches are exactly the conditional branches. */
  lemma {:induction false} DirectJumpSubtraction(trace: seq<u32>)
    ensures var c := Tally(trace);
      && Wrap(c.jump - c.call - c.ret - c.indirectJump) == Wrap(Count(trace, DirectJump))
      && c.branch == c.conditionalBranch
  {
    hide Count, Wrap;
    var c := Tally(trace);
    var call, ret, indirect, jumps := Count(trace, Call), Count(trace, Return), Count(trace, IndirectJump),
      Jumps(trace);
    WrapSplit(call);
    WrapSplit(ret);
    WrapSplit(indirect);
    WrapSplit(jumps);
    WrapDrops(c.jump - c.call - c.ret - c.indirectJump, jumps / TWO64 - call / TWO64 - ret / TWO64 - indirect / TWO64);
  }

  /** While no counter can have wrapped, the subtraction does not underflow either. */
  lemma {:induction false} SubtractionDoesNotUnderflow(trace: seq<u32>)
    requires |trace| < TWO64
    ensures var c := Tally(trace);
      c.call + c.ret + c.indirectJump <= c.jump && c.jump - c.call - c.ret - c.indirectJump == Count(trace, DirectJump)
  {
    hide Count, Wrap;
    ClassesPartitionTrace(trace);
    WrapSmall(Count(trace, Call));
    WrapSmall(Count(trace, Return));
    WrapSmall(Count(trace, IndirectJump));
    WrapSmall(Jumps(trace));
  }

  /** One more instruction of a class. */
  function Bump(c: Counters, k: Class): Counters {
    match k
    case Alu => c.(alu := Wrap(c.alu + 1))
    case Branch => c.(branch := Wrap(c.branch + 1), conditionalBranch := Wrap(c.conditionalBranch + 1))
    case DirectJump => c.(jump := Wrap(c.jump + 1))
    case Call => c.(jump := Wrap(c.jump + 1), call := Wrap(c.call + 1))
    case Return => c.(jump := Wrap(c.jump + 1), ret := Wrap(c.ret + 1))
    case IndirectJump => c.(jump := Wrap(c.jump + 1), indirectJump := Wrap(c.indirectJump + 1))
    case Load => c.(load := Wrap(c.load + 1))
    case Store => c.(store := Wrap(c.store + 1))
    case Multiply => c.(multiply := Wrap(c.multiply + 1))
    case Divide => c.(divide := Wrap(c.divide + 1))
    case Floating => c.(floating := Wrap(c.floating + 1))
    case System => c.(system := Wrap(c.system + 1))
    case Other => c.(other := Wrap(c.other + 1))
  }

  lemma {:induction false} TallyStep(seen: seq<u32>, instruction: u32)
    ensures Tally(seen + [instruction]) == Bump(Tally(seen), ClassOf(instruction))
  {
    hide ClassOf, Wrap, Count;
    Observed(seen, instruction);
    var k := ClassOf(instruction);
    if k.DirectJump? || k.Call? || k.Return? || k.IndirectJump? {
      WrapNext(Jumps(seen));
      WrapNext(Count(seen, k));
    } else {
      WrapNext(Count(seen, k));
    }
  }

  class Statistic {
    var counters: Counters

    constructor ()
      ensures counters == Tally([])
    {
      counters := Counters(0, 0, 0, 0, 0, 0, 0, 0, 0, 0, 0, 0, 0, 0);
    }

    method ObserveInstruction(instruction: u32, ghost seen: seq<u32>)
      requires counters == Tally(seen)
      modifies this
      ensures counters == Tally(seen + [instruction])
    {
      hide Tally, Bump, ClassOfFields;
      TallyStep(seen, instruction);
      CountFields(instruction % 0x80, instruction / 0x80 % 0x20, instruction / 0x8000 % 0x20, instruction / 0x1000 % 8,
        instruction / 0x200_0000);
    }

    /** The switch over the opcode. */
    method CountFields(opcode: nat, rd: nat, rs1: nat, funct3: nat, funct7: nat)
      modifies this
      ensures counters == Bump(old(counters), ClassOfFields(opcode, rd, rs1, funct3, funct7))
    {
      hide Wrap;
      match opcode {
        case 0x03 | 0x07 => counters := counters.(load := Wrap(counters.load + 1));
        case 0x23 | 0x27 => counters := counters.(store := Wrap(counters.store + 1));
        case 0x63 =>
          counters := counters.(branch := Wrap(counters.branch + 1),
            conditionalBranch := Wrap(counters.conditionalBranch + 1));
        case 0x6f =>
          counters := counters.(jump := Wrap(counters.jump + 1));
          if rd == 1 || rd == 5 {
            counters := counters.(call := Wrap(counters.call + 1));
          }
        case 0x67 =>
          counters := counters.(jump := Wrap(counters.jump + 1));
          if rd == 0 && (rs1 == 1 || rs1 == 5) {
            counters := counters.(ret := Wrap(counters.ret + 1));
          } else if rd == 1 || rd == 5 {
            counters := counters.(call := Wrap(counters.call + 1));
          } else {
            counters := counters.(indirectJump := Wrap(counters.indirectJump + 1));
          }
        case 0x33 =>
          if funct7 == 1 {
            if funct3 < 4 {
              counters := counters.(multiply := Wrap(counters.multiply + 1));
            } else {
              counters := counters.(divide := Wrap(counters.divide + 1));
            }
          } else {
            counters := counters.(alu := Wrap(counters.alu + 1));
          }
        case 0x53 | 0x43 | 0x47 | 0x4b | 0x4f => counters := counters.(floating := Wrap(counters.floating + 1));
        case 0x0f | 0x73 => counters := counters.(system := Wrap(counters.system + 1));
        case 0x13 | 0x17 | 0x37 => counters := counters.(alu := Wrap(counters.alu + 1));
        case _ => counters := counters.(other := Wrap(counters.other + 1));
      }
    }
  }

  lemma {:induction false} Observed(seen: seq<u32>, instruction: u32)
    ensures forall k: Class ::
      Count(seen + [instruction], k) == Count(seen, k) + if ClassOf(instruction) == k then 1 else 0
  {
    assert (seen + [instruction])[..|seen|] == seen;
  }

  // ----- the branch profile -----

  datatype Branched = Branched(pc: u32, instruction: u32, mispredicted: bool) {
    predicate IsBranch() { instruction % 0x80 == 0x63 }
  }

  /** Three 64-bit counters and the instruction last seen at the pc. */
  datatype Entry = Entry(instruction: u32, executions: u64, mispredictions: u64, taken: u64)

  type Profile = map<u32, Entry>

  function EntryAt(profile: Profile, pc: u32): Entry {
    if pc in profile then profile[pc] else Entry(0, 0, 0, 0)
  }

  function Executions(trace: seq<Branched>, pc: u32): nat {
    if trace == [] then 0
    else
      var last := trace[|trace| - 1];
      Executions(trace[..|trace| - 1], pc) + if last.IsBranch() && last.pc == pc then 1 else 0
  }

  function Mispredictions(trace: seq<Branched>, pc: u32): nat {
    if trace == [] then 0
    else
      var last := trace[|trace| - 1];
      Mispredictions(trace[..|trace| - 1], pc) + if last.IsBranch() && last.pc == pc && last.mispredicted then 1 else 0
  }

  /** Branches at a pc whose successor in the trace is not the next instruction. */
  function Taken(trace: seq<Branched>, pc: u32): nat {
    if |trace| < 2 then 0
    else
      var branch, next := trace[|trace| - 2], trace[|trace| - 1];
      Taken(trace[..|trace| - 1], pc) + if branch.IsBranch() && branch.pc == pc && next.pc != Add32(pc, 4) then 1 else 0
  }

  function Pending(trace: seq<Branched>): Option<u32> {
    if trace != [] && trace[|trace| - 1].IsBranch() then Some(trace[|trace| - 1].pc) else None
  }

  predicate BranchAt(trace: seq<Branched>, pc: u32, n: nat)
    requires n < |trace|
  {
    trace[n].instruction % 128 == 99 && trace[n].pc == pc
  }

  predicate LeavesAt(trace: seq<Branched>, pc: u32, n: nat)
    requires n + 1 < |trace|
  {
    BranchAt(trace, pc, n) && trace[n + 1].pc != (pc + 4) % 0x1_0000_0000
  }

  /** The counts of a pc are the numbers of places in the trace at which a branch (opcode 99) is
      executed there, mispredicted there, or followed by another pc than its own plus 4. */
  lemma {:induction false} ExecutedPlaces(trace: seq<Branched>, pc: u32)
    ensures Executions(trace, pc) == |set n: nat | n < |trace| && BranchAt(trace, pc, n)|
  {
    if trace != [] {
      var m := |trace| - 1;
      var t := trace[..m];
      ExecutedPlaces(t, pc);
      var before := set n: nat | n < |t| && BranchAt(t, pc, n);
      var all := set n: nat | n < |trace| && BranchAt(trace, pc, n);
      assert forall n: nat :: n < m ==> (BranchAt(t, pc, n) <==> BranchAt(trace, pc, n));
      assert all == if BranchAt(trace, pc, m) then before + {m} else before;
    }
  }

  lemma {:induction false} MispredictedPlaces(trace: seq<Branched>, pc: u32)
    ensures Mispredictions(trace, pc)
      == |set n: nat | n < |trace| && BranchAt(trace, pc, n) && trace[n].mispredicted|
  {
    if trace != [] {
      var m := |trace| - 1;
      var t := trace[..m];
      MispredictedPlaces(t, pc);
      var before := set n: nat | n < |t| && BranchAt(t, pc, n) && t[n].mispredicted;
      var all := set n: nat | n < |trace| && BranchAt(trace, pc, n) && trace[n].mispredicted;
      assert forall n: nat :: n < m ==> (BranchAt(t, pc, n) <==> BranchAt(trace, pc, n));
      assert all == if BranchAt(trace, pc, m) && trace[m].mispredicted then before + {m} else before;
    }
  }

  lemma {:induction false} TakenStep(trace: seq<Branched>, pc: u32)
    requires |trace| >= 2
    ensures var m := |trace| - 1;
      Taken(trace, pc) == Taken(trace[..m], pc) + if LeavesAt(trace, pc, m - 1) then 1 else 0
  {
  }

  lemma {:induction false} TakenPlaces(trace: seq<Branched>, pc: u32)
    ensures Taken(trace, pc) == |set n: nat | n + 1 < |trace| && LeavesAt(trace, pc, n)|
  {
    if |trace| >= 2 {
      var m := |trace| - 1;
      var t := trace[..m];
      TakenPlaces(t, pc);
      var before := set n: nat | n + 1 < |t| && LeavesAt(t, pc, n);
      var all := set n: nat | n + 1 < |trace| && LeavesAt(trace, pc, n);
      forall n: nat | n + 1 < m ensures LeavesAt(t, pc, n) <==> LeavesAt(trace, pc, n) {
      }
      hide LeavesAt;
      assert Taken(trace, pc) == Taken(t, pc) + if LeavesAt(trace, pc, m - 1) then 1 else 0 by { TakenStep(trace, pc); }
      assert all == if LeavesAt(trace, pc, m - 1) then before + {m - 1} else before;
    }
  }

  /** Per pc, taken branches and a branch still waiting for its successor are distinct
      executions, and no branch is mispredicted more often than executed. */
  lemma {:induction false} ProfileBounds(trace: seq<Branched>, pc: u32)
    ensures Taken(trace, pc) + (if Pending(trace) == Some(pc) then 1 else 0) <= Executions(trace, pc)
    ensures Mispredictions(trace, pc) <= Executions(trace, pc)
  {
    if trace != [] { ProfileBounds(trace[..|trace| - 1], pc); }
  }

  /** The branch instruction last executed at a pc. */
  function LastBranch(trace: seq<Branched>, pc: u32): Option<u32> {
    if trace == [] then None
    else
      var last := trace[|trace| - 1];
      if last.IsBranch() && last.pc == pc then Some(last.instruction) else LastBranch(trace[..|trace| - 1], pc)
  }

  ghost predicate Profiles(profile: Profile, pending: Option<u32>, trace: seq<Branched>) {
    && pending == Pending(trace)
    && forall pc: u32 :: ProfilesPc(profile, trace, pc)
  }

  /** A pc has an entry exactly if a branch has been executed there, and the entry holds its
      instruction and the exact counts, modulo the width of the counters. */
  predicate ProfilesPc(profile: Profile, trace: seq<Branched>, pc: u32) {
    match LastBranch(trace, pc)
    case None => pc !in profile && Executions(trace, pc) == Mispredictions(trace, pc) == Taken(trace, pc) == 0
    case Some(instruction) =>
      pc in profile
      && profile[pc].instruction == instruction && profile[pc].executions == Wrap(Executions(trace, pc))
      && profile[pc].mispredictions == Wrap(Mispredictions(trace, pc)) && profile[pc].taken == Wrap(Taken(trace, pc))
  }

  lemma {:induction false} CountedWithin(trace: seq<Branched>, pc: u32)
    ensures Executions(trace, pc) <= |trace|
  {
    if trace != [] { CountedWithin(trace[..|trace| - 1], pc); }
  }

  /** Below 2^64 retired instructions the bounds hold of the entries themselves. */
  lemma {:induction false} EntryBounds(profile: Profile, pending: Option<u32>, trace: seq<Branched>, pc: u32)
    requires Profiles(profile, pending, trace) && |trace| < TWO64 && pc in profile
    ensures profile[pc].taken + (if pending == Some(pc) then 1 else 0) <= profile[pc].executions
    ensures profile[pc].mispredictions <= profile[pc].executions
  {
    hide Wrap;
    assert ProfilesPc(profile, trace, pc);
    ProfileBounds(trace, pc);
    CountedWithin(trace, pc);
    WrapSmall(Executions(trace, pc));
    WrapSmall(Mispredictions(trace, pc));
    WrapSmall(Taken(trace, pc));
  }

  lemma {:induction false} PendingIsExecuted(trace: seq<Branched>, pc: u32)
    requires Pending(trace) == Some(pc)
    ensures LastBranch(trace, pc).Some?
  {
  }

  /** The counts at a pc after one more instruction. */
  lemma {:induction false} CountsStep(seen: seq<Branched>, d: Branched, pc: u32)
    ensures var here := d.IsBranch() && d.pc == pc;
      && LastBranch(seen + [d], pc) == (if here then Some(d.instruction) else LastBranch(seen, pc))
      && Executions(seen + [d], pc) == Executions(seen, pc) + (if here then 1 else 0)
      && Mispredictions(seen + [d], pc) == Mispredictions(seen, pc) + (if here && d.mispredicted then 1 else 0)
      && Taken(seen + [d], pc) == Taken(seen, pc) + (if Pending(seen) == Some(pc) && d.pc != Add32(pc, 4) then 1 else 0)
  {
    assert (seen + [d])[..|seen|] == seen;
  }

  class BranchProfile {
    var profile: Profile
    var pending: Option<u32>

    constructor ()
      ensures Profiles(profile, pending, [])
    {
      profile, pending := map[], None;
    }

    /** The profile holds the exact counts of the trace seen so far. */
    method Retire(d: Branched, ghost seen: seq<Branched>)
      requires Profiles(profile, pending, seen)
      modifies this
      ensures Profiles(profile, pending, seen + [d])
    {
      hide Executions, Mispredictions, Taken, LastBranch, Wrap, Add32, Branched.IsBranch;
      ghost var before := profile;
      if pending.Some? {
        PendingIsExecuted(seen, pending.value);
        CountTaken(pending.value, if d.pc != Add32(pending.value, 4) then 1 else 0);
        pending := None;
      }
      if d.IsBranch() {
        CountExecution(d);
        pending := Some(d.pc);
      }
      assert Pending(seen + [d]) == pending;
      forall pc: u32 ensures ProfilesPc(profile, seen + [d], pc) {
        assert ProfilesPc(before, seen, pc);
        CountsStep(seen, d, pc);
        WrapNext(Executions(seen, pc));
        WrapNext(Mispredictions(seen, pc));
        WrapNext(Taken(seen, pc));
        WrapAgain(Mispredictions(seen, pc));
        WrapAgain(Taken(seen, pc));
      }
    }

    method CountTaken(pc: u32, taken: nat)
      requires taken <= 1
      modifies this`profile
      ensures var e := EntryAt(old(profile), pc);
        profile == old(profile)[pc := e.(taken := Wrap(e.taken + taken))]
    {
      var e := EntryAt(profile, pc);
      profile := profile[pc := e.(taken := Wrap(e.taken + taken))];
    }

    method CountExecution(d: Branched)
      modifies this`profile
      ensures var e := EntryAt(old(profile), d.pc);
        var missed := if d.mispredicted then 1 else 0;
        var counted := Entry(d.instruction, Wrap(e.executions + 1), Wrap(e.mispredictions + missed), e.taken);
        profile == old(profile)[d.pc := counted]
    {
      var e := EntryAt(profile, d.pc);
      var missed := if d.mispredicted then 1 else 0;
      var counted := Entry(d.instruction, Wrap(e.executions + 1), Wrap(e.mispredictions + missed), e.taken);
      profile := profile[d.pc := counted];
    }
  }

  // ----- the ring of recent commits -----

  const RING := 16

  /** The last n elements of a log, or all of it. */
  function LastOf<T>(log: seq<T>, n: nat): seq<T> {
    if |log| <= n then log else log[|log| - n..]
  }

  /** What printRecentCommits is meant to show: the last sixteen commits. */
  function Recent<T>(log: seq<T>): seq<T> { LastOf(log, RING) }

  class CommitRing<T(0)> {
    const entries: array<T>
    var count: u64
    ghost var log: seq<T>

    /** Slot h % 16 holds commit h for each of the last sixteen commits; the count wraps. */
    ghost predicate Valid()
      reads this, entries
    {
      && entries.Length == RING && count == Wrap(|log|)
      && forall h :: 0 <= h < |log| && |log| - RING <= h ==> entries[h % RING] == log[h]
    }

    constructor ()
      ensures Valid() && log == [] && fresh(entries)
    {
      entries := new T[RING];
      count, log := 0, [];
    }

    method Record(commit: T)
      requires Valid()
      modifies this, entries
      ensures Valid() && log == old(log) + [commit]
    {
      hide Wrap;
      WrapKeepsSlot(|log|);
      WrapNext(|log|);
      entries[count % RING] := commit;
      log := log + [commit];
      count := Wrap(count + 1);
      forall h | 0 <= h < |log| && |log| - RING <= h ensures entries[h % RING] == log[h] {
        if h < |log| - 1 { DifferentSlots(h, |log| - 1); }
      }
    }

    /** printRecentCommits: as many commits as the wrapped count allows, oldest first. */
    method History() returns (history: seq<T>)
      requires Valid()
      ensures history == LastOf(log, if Wrap(|log|) < RING then Wrap(|log|) else RING)
    {
      hide Wrap;
      var size := if count < RING then count else RING;
      var start := count - size;
      ghost var turns := |log| - count;
      WrapSplit(|log|);
      history := [];
      for h := start to count
        invariant history == log[turns + start..turns + h]
      {
        WrapKeepsSlotOf(h, |log| / TWO64);
        assert entries[(turns + h) % RING] == log[turns + h];
        history := history + [entries[h % RING]];
      }
      assert history == log[turns + start..];
    }
  }

  lemma {:induction false} DifferentSlots(h: nat, n: nat)
    requires h < n < h + RING
    ensures h % RING != n % RING
  {
  }

  lemma {:induction false} WrapKeepsSlot(n: nat)
    ensures Wrap(n) % RING == n % RING
  {
    WrapSplit(n);
    WrapKeepsSlotOf(Wrap(n), n / TWO64);
  }

  /** The ring's length divides the range of the counter, so slots survive a wrap. */
  lemma {:induction false} WrapKeepsSlotOf(h: nat, turns: nat)
    ensures (turns * TWO64 + h) % RING == h % RING
  {
    var x := turns * 0x1000_0000_0000_0000;
    assert turns * TWO64 == 16 * x;
    SixteenTimes(x, h);
  }

  lemma {:induction false} SixteenTimes(x: nat, h: nat)
    ensures (16 * x + h) % 16 == h % 16
  {
  }

  /** Exactly when the history shows the last sixteen commits: unless the count has just
      wrapped. */
  lemma {:induction false} HistoryIsRecentIff<T>(log: seq<T>)
    ensures LastOf(log, if Wrap(|log|) < RING then Wrap(|log|) else RING) == Recent(log)
      <==> |log| < TWO64 || Wrap(|log|) >= RING
  {
    hide Wrap;
    if |log| < TWO64 { WrapSmall(|log|); }
    var n := if Wrap(|log|) < RING then Wrap(|log|) else RING;
    assert |log| >= TWO64 ==> |LastOf(log, n)| == n && |Recent(log)| == RING;
  }

  /** After exactly 2^64 commits the history is empty. */
  lemma {:induction false} WrappedHistoryIsEmpty<T>(log: seq<T>)
    requires |log| == TWO64
    ensures LastOf(log, if Wrap(|log|) < RING then Wrap(|log|) else RING) == [] && |Recent(log)| == RING
  {
  }
}
