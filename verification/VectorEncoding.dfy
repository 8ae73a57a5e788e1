/** Vector instructions built from their fields (RISC-V V 1.0, sections 7.2 and 10.1) and
    decoded again by the checker (src/main.cc:213-247). */
module VectorEncoding {
  import opened Words
  import opened VectorCommit

  /** A field of n bits below the rest of a word. */
  lemma {:induction false} FieldBelow(low: nat, high: nat, n: nat)
    requires low < Pow2(n)
    ensures Low(low + Pow2(n) * high, n) == low && Shr(low + Pow2(n) * high, n) == high
  {
    if n > 0 {
      var p := Pow2(n - 1);
      assert Pow2(n) * high == 2 * (p * high) by { assert (2 * p) * high == 2 * (p * high); }
      FieldBelow(low / 2, high, n - 1);
      assert (low + Pow2(n) * high) / 2 == low / 2 + p * high;
    }
  }

  lemma {:induction false} ShrTwice(v: nat, a: nat, b: nat)
    ensures Shr(v, a + b) == Shr(Shr(v, a), b)
  {
    if a > 0 { ShrTwice(v / 2, a - 1, b); }
  }

  lemma {:induction false} Widths()
    ensures Pow2(1) == 2 && Pow2(2) == 4 && Pow2(3) == 8 && Pow2(5) == 32 && Pow2(7) == 128
  {
    assert Pow2(3) == 8;
    assert Pow2(5) == 32;
  }

  /** The next field and what lies above it. */
  lemma {:induction false} Peel(i: nat, at: nat, low: nat, high: nat, n: nat)
    requires Shr(i, at) == low + Pow2(n) * high && low < Pow2(n)
    ensures Low(Shr(i, at), n) == low && Shr(i, at + n) == high
  {
    FieldBelow(low, high, n);
    ShrTwice(i, at, n);
  }

  lemma {:induction false} BitIsField(v: nat, k: nat)
    ensures Bit(v, k) <==> Low(Shr(v, k), 1) == 1
  {
    BitOfShr(v, k, 0);
    assert Low(Shr(v, k), 1) == Shr(v, k) % 2;
  }

  datatype Arithmetic = Arithmetic(funct6: nat, vm: nat, vs2: nat, vs1: nat, funct3: nat, vd: nat) {
    predicate Valid() { funct6 < 64 && vm < 2 && vs2 < 32 && vs1 < 32 && funct3 < 8 && vd < 32 }

    function Encode(): u32
      requires Valid()
    {
      0x57 + 128 * (vd + 32 * (funct3 + 8 * (vs1 + 32 * (vs2 + 32 * (vm + 2 * funct6)))))
    }
  }

  /** The checker's shifts and masks find the fields of an arithmetic instruction. */
  lemma {:induction false} ArithmeticFields(a: Arithmetic)
    requires a.Valid()
    ensures var i := a.Encode();
      Opcode(i) == ARITHMETIC && Form(i) == a.funct3 && Unary(i) == a.vs1 && Function(i) == a.funct6
      && (Unmasked(i) <==> a.vm == 1)
  {
    hide Low, Shr, Bit;
    Widths();
    var i := a.Encode();
    var five := a.vm + 2 * a.funct6;
    var four := a.vs2 + 32 * five;
    var three := a.vs1 + 32 * four;
    var two := a.funct3 + 8 * three;
    var one := a.vd + 32 * two;
    assert Shr(i, 0) == i by { NoShift(i); }
    Peel(i, 0, 0x57, one, 7);
    Peel(i, 7, a.vd, two, 5);
    Peel(i, 12, a.funct3, three, 3);
    Peel(i, 15, a.vs1, four, 5);
    Peel(i, 20, a.vs2, five, 5);
    Peel(i, 25, a.vm, a.funct6, 1);
    BitIsField(i, 25);
  }

  /** The vset instructions are those with funct3 7. */
  lemma {:induction false} ConfigurationRead(a: Arithmetic)
    requires a.Valid()
    ensures IsConfiguration(a.Encode()) <==> a.funct3 == 7
  {
    hide Opcode, Form, Unary, Function;
    ArithmeticFields(a);
  }

  lemma {:induction false} NoShift(v: nat)
    ensures Shr(v, 0) == v
  {
  }

  /** The arithmetic instructions that write a mask: integer compares (0x18 to 0x1f) and
      the carry results vmadc and vmsbc, floating compares, mask logic, and vmsbf, vmsof
      and vmsif, but not vid and viota. */
  lemma {:induction false} MaskResults(a: Arithmetic)
    requires a.Valid()
    ensures MaskDestination(a.Encode()) <==>
      || (a.funct3 in {0, 3, 4} && (0x18 <= a.funct6 < 0x20 || a.funct6 in {0x11, 0x13}))
      || (a.funct3 in {1, 5} && a.funct6 in {0x18, 0x19, 0x1b, 0x1c, 0x1d, 0x1f})
      || (a.funct3 == 2 && (0x18 <= a.funct6 < 0x20 || (a.funct6 == 0x14 && a.vs1 < 16)))
  {
    hide Opcode, Form, Unary, Function;
    ArithmeticFields(a);
  }

  /** No destination is in two classes, except that a widening reduction is in both. */
  lemma {:induction false} DestinationClassesApart(i: u32)
    ensures MaskDestination(i) ==>
      !Widening(i) && !Reduction(i) && !WholeMove(i) && !Compress(i) && !ScalarInsert(i) && !IsMemory(i)
    ensures Widening(i) && Reduction(i) <==> Opcode(i) == ARITHMETIC && Form(i) == 0 && Function(i) in {0x30, 0x31}
    ensures Compress(i) ==> !WholeMove(i) && !Reduction(i) && !Widening(i) && !ScalarInsert(i)
    ensures WholeMove(i) ==> !Reduction(i) && !Widening(i) && !ScalarInsert(i)
    ensures ScalarInsert(i) ==> !Reduction(i) && !Widening(i) && !MaskIsData(i)
  {
    hide Opcode, Form, Unary, Function;
  }

  /** Exactly which destinations have an element width the bit slices can have: the
      configured width, doubled when widening, must not exceed 32. */
  lemma {:induction false} WidthSupportedIff(c: Commit)
    ensures ElementBits(c) in {1, 8, 16, 32} <==>
      || MaskDestination(c.instruction)
      || (Opcode(c.instruction) == LOAD && !IndexedMemory(c.instruction))
      || Field(c.before.vtype, 3, 3) + (if Widening(c.instruction) then 1 else 0) <= 2
  {
    hide MaskDestination, Opcode, Form, IndexedMemory, Widening, Field;
    var n := Field(c.before.vtype, 3, 3) + if Widening(c.instruction) then 1 else 0;
    Widths();
    if n >= 3 { PowerGrows(3, n); }
  }

  lemma {:induction false} PowerGrows(m: nat, n: nat)
    requires m <= n
    ensures Pow2(m) <= Pow2(n)
  {
    if m < n { PowerGrows(m, n - 1); }
  }

  datatype Transfer = Transfer(store: bool, nf: nat, mew: nat, mop: nat, vm: nat, umop: nat, rs1: nat, width: nat,
    vd: nat) {
    predicate Valid() { nf < 8 && mew < 2 && mop < 4 && vm < 2 && umop < 32 && rs1 < 32 && width < 8 && vd < 32 }

    function Encode(): u32
      requires Valid()
    {
      (if store then 0x27 else 0x07)
      + 128 * (vd + 32 * (width + 8 * (rs1 + 32 * (umop + 32 * (vm + 2 * (mop + 4 * (mew + 2 * nf)))))))
    }
  }

  lemma {:induction false} TransferParts(t: Transfer)
    requires t.Valid()
    ensures var i := t.Encode();
      && Field(i, 0, 7) == (if t.store then STORE else LOAD) && Field(i, 12, 3) == t.width && Field(i, 20, 5) == t.umop
      && Field(i, 25, 1) == t.vm && Field(i, 26, 2) == t.mop && Field(i, 29, 3) == t.nf
  {
    hide Low, Shr;
    Widths();
    var i := t.Encode();
    var seven := t.mew + 2 * t.nf;
    var six := t.mop + 4 * seven;
    var five := t.vm + 2 * six;
    var four := t.umop + 32 * five;
    var three := t.rs1 + 32 * four;
    var two := t.width + 8 * three;
    var one := t.vd + 32 * two;
    assert Shr(i, 0) == i by { NoShift(i); }
    Peel(i, 0, if t.store then 0x27 else 0x07, one, 7);
    Peel(i, 7, t.vd, two, 5);
    Peel(i, 12, t.width, three, 3);
    Peel(i, 15, t.rs1, four, 5);
    Peel(i, 20, t.umop, five, 5);
    Peel(i, 25, t.vm, six, 1);
    Peel(i, 26, t.mop, seven, 2);
    Peel(i, 28, t.mew, t.nf, 1);
    FieldBelow(t.nf, 0, 3);
  }

  /** Vector loads and stores: the checker's whole-register, mask and indexed accesses are
      those of the addressing-mode table, and the number of fields is nf + 1. */
  lemma {:induction false} TransferFields(t: Transfer)
    requires t.Valid()
    ensures var i := t.Encode();
      && Opcode(i) == (if t.store then STORE else LOAD) && Form(i) == t.width && Field(i, 29, 3) == t.nf
      && (WholeMemory(i) <==> t.mop == 0 && t.umop == 8) && (MaskMemory(i) <==> t.mop == 0 && t.umop == 11)
      && (IndexedMemory(i) <==> t.mop in {1, 3}) && (Unmasked(i) <==> t.vm == 1)
  {
    var i := t.Encode();
    hide Transfer.Encode, Field, Bit;
    TransferParts(t);
    MaskBit(i);
    IndexBit(i);
  }

  lemma {:induction false} MaskBit(i: u32)
    ensures Bit(i, 25) <==> Field(i, 25, 1) == 1
  {
    hide Bit, Low, Shr;
    BitIsField(i, 25);
  }

  lemma {:induction false} IndexBit(i: u32)
    ensures Bit(i, 26) <==> Field(i, 26, 2) % 2 == 1
  {
    hide Bit, Low, Shr;
    BitIsField(i, 26);
    LowestOf(Shr(i, 26));
  }

  lemma {:induction false} LowestOf(v: nat)
    ensures Low(v, 1) == Low(v, 2) % 2
  {
  }

  // ----- the physical registers of a group -----

  /** The numbers of eight physical registers as one word, six bits each, the first lowest. */
  function PackedNumbers(numbers: seq<nat>): nat {
    if numbers == [] then 0 else numbers[0] + 64 * PackedNumbers(numbers[1..])
  }

  /** The register that is looked up for position `group` is the one with the number packed there. */
  lemma {:induction false} PhysicalIsPacked(dut: seq<Register>, t: Trace, numbers: seq<nat>, group: nat)
    requires |dut| == 64 && |numbers| <= 8 && group < |numbers|
    requires t.physical == PackedNumbers(numbers) && forall k :: 0 <= k < |numbers| ==> numbers[k] < 64
    ensures Physical(dut, t, group) == dut[numbers[group]]
  {
    hide Low, Shr;
    NumberAt(numbers, group);
  }

  lemma {:induction false} NumberAt(numbers: seq<nat>, group: nat)
    requires group < |numbers| && forall k :: 0 <= k < |numbers| ==> numbers[k] < 64
    ensures Low(Shr(PackedNumbers(numbers), group * 6), 6) == numbers[group]
  {
    var n, rest := numbers[0], PackedNumbers(numbers[1..]);
    assert Pow2(6) == 64 by { Widths(); }
    FieldBelow(n, rest, 6);
    if group == 0 {
      NoShift(n + 64 * rest);
    } else {
      NumberAt(numbers[1..], group - 1);
      ShrTwice(n + 64 * rest, 6, (group - 1) * 6);
    }
  }
}
