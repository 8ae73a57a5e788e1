/** The vector commit checker (src/main.cc:46-284): decoding, the register comparison
    element by element, and the checker as a whole. */
module VectorCommit {
  import opened Words
  import opened Memory
  import opened VectorStores

  /** A 256-bit vector register as eight 32-bit words. */
  type Register = s: seq<u32> | |s| == 8 witness [0, 0, 0, 0, 0, 0, 0, 0]

  datatype VectorState = VectorState(vl: nat, vtype: u32, vstart: u32, saturated: bool, flags: bv8)

  type VectorIndex = x: int | 0 <= x < 32

  /** A vector register that the reference has written, and what it holds. */
  datatype VectorWrite = VectorWrite(index: VectorIndex, value: Register)

  /** What the reference reports about a retired vector instruction. The checker does not look
      at the written registers. */
  datatype Commit = Commit(instruction: u32, before: VectorState, after: VectorState,
    mask: Register, selection: Register, stores: seq<Effect>, written: seq<VectorWrite>)

  /** What the DUT reports about it. */
  datatype Trace = Trace(base: byte, count: byte, physical: u64, configuration: bool, vl: nat, vtype: u32,
    flags: bv8, saturated: bool)

  datatype Fault =
    | StateDiffers
    | InvalidGroup
    | InvalidStoreCount
    | InvalidSegmentLayout
    | StoresDiffer(verdict: StoreVerdict)
    | ElementDiffers(register: nat, element: nat)

  // ----- decoding -----

  /** `(instruction >> low) & ((1 << width) - 1)`. */
  function Field(instruction: u32, low: nat, width: nat): nat { Low(Shr(instruction, low), width) }

  function Opcode(i: u32): nat { Field(i, 0, 7) }
  function Form(i: u32): nat { Field(i, 12, 3) }
  function Unary(i: u32): nat { Field(i, 15, 5) }
  function Function(i: u32): nat { Shr(i, 26) }

  const LOAD := 0x07
  const STORE := 0x27
  const ARITHMETIC := 0x57

  predicate IsConfiguration(i: u32) { Opcode(i) == ARITHMETIC && Form(i) == 7 }
  predicate IsMemory(i: u32) { Opcode(i) == LOAD || Opcode(i) == STORE }
  predicate WholeMemory(i: u32) { IsMemory(i) && Field(i, 26, 2) == 0 && Field(i, 20, 5) == 8 }
  predicate MaskMemory(i: u32) { IsMemory(i) && Field(i, 26, 2) == 0 && Field(i, 20, 5) == 11 }
  predicate IndexedMemory(i: u32) { IsMemory(i) && Bit(i, 26) }
  predicate IntegerForm(i: u32) { Form(i) == 0 || Form(i) == 3 || Form(i) == 4 }
  predicate FloatingForm(i: u32) { Form(i) == 1 || Form(i) == 5 }

  predicate MaskDestination(i: u32) {
    var f := Function(i);
    Opcode(i) == ARITHMETIC
    && ((IntegerForm(i) && (0x18 <= f <= 0x1f || f == 0x11 || f == 0x13))
        || (FloatingForm(i) && f in {0x18, 0x19, 0x1b, 0x1c, 0x1d, 0x1f})
        || (Form(i) == 2 && (0x18 <= f <= 0x1f || (f == 0x14 && Unary(i) < 16))))
  }

  predicate MaskIsData(i: u32) {
    var f := Function(i);
    Opcode(i) == ARITHMETIC
    && ((IntegerForm(i) && 0x10 <= f <= 0x13) || ((IntegerForm(i) || Form(i) == 5) && f == 0x17))
  }

  predicate ScalarInsert(i: u32) { Opcode(i) == ARITHMETIC && Function(i) == 0x10 && (Form(i) == 5 || Form(i) == 6) }

  predicate Reduction(i: u32) {
    var f := Function(i);
    Opcode(i) == ARITHMETIC
    && ((Form(i) == 2 && f <= 7) || (Form(i) == 1 && f in {1, 3, 5, 7}) || (Form(i) == 0 && f in {0x30, 0x31}))
  }

  predicate Widening(i: u32) {
    var f := Function(i);
    Opcode(i) == ARITHMETIC
    && (((Form(i) == 2 || Form(i) == 6) && f >= 0x30) || (Form(i) == 0 && f in {0x30, 0x31})
        || (Form(i) == 1 && f == 0x12 && Unary(i) in {10, 11}))
  }

  predicate WholeMove(i: u32) { Opcode(i) == ARITHMETIC && Form(i) == 3 && Function(i) == 0x27 }
  predicate Compress(i: u32) { Opcode(i) == ARITHMETIC && Form(i) == 2 && Function(i) == 0x17 }
  predicate Unmasked(i: u32) { Bit(i, 25) }

  /** The width of one destination element in bits. */
  function ElementBits(c: Commit): nat {
    var i := c.instruction;
    if MaskDestination(i) then 1
    else if Opcode(i) == LOAD && !IndexedMemory(i) then (if Form(i) == 0 then 8 else if Form(i) == 5 then 16 else 32)
    else 8 * Pow2(Field(c.before.vtype, 3, 3) + if Widening(i) then 1 else 0)
  }

  /** The bit at position k of a mask or vector register. */
  predicate RegisterBit(r: Register, k: nat)
    requires k < 256
  {
    Bit(r[k / 32], k % 32)
  }

  function CountSelected(selection: Register, n: nat): (count: nat)
    requires n <= 256
    ensures count <= n
  {
    if n == 0 then 0 else CountSelected(selection, n - 1) + if RegisterBit(selection, n - 1) then 1 else 0
  }

  // ----- which elements the checker wants to be ones -----

  /** What the code relies on: the reference's vl is within VLEN, destination elements have
      a width the bit slices can have, and a mask-producing instruction writes one register. */
  predicate Supported(c: Commit, t: Trace) {
    && c.before.vl <= 256
    && (t.count > 0 ==> ElementBits(c) in {1, 8, 16, 32})
    && (t.count > 1 ==> ElementBits(c) != 1)
  }

  predicate GroupFits(t: Trace) { t.count <= 8 && t.base + t.count <= 32 }

  predicate Comparable(c: Commit, t: Trace) { Supported(c, t) && 0 < t.count <= 8 }

  function PerRegister(c: Commit): nat
    requires ElementBits(c) in {1, 8, 16, 32}
  {
    256 / ElementBits(c)
  }

  /** The index of an element within its field. */
  function ElementIndex(c: Commit, t: Trace, group: nat, element: nat): nat
    requires Comparable(c, t)
  {
    var segmented := Opcode(c.instruction) == LOAD && !WholeMemory(c.instruction);
    var fields := if segmented then Field(c.instruction, 29, 3) + 1 else 1;
    var perField := if t.count / fields > 1 then t.count / fields else 1;
    group % perField * PerRegister(c) + element
  }

  function EffectiveVl(c: Commit, t: Trace): nat
    requires Comparable(c, t)
  {
    if WholeMemory(c.instruction) || WholeMove(c.instruction) then t.count * PerRegister(c)
    else if MaskMemory(c.instruction) then (c.before.vl + 7) / 8
    else c.before.vl
  }

  lemma {:induction false} IndexBelow256(c: Commit, t: Trace, group: nat, element: nat)
    requires Comparable(c, t) && group < t.count && element < PerRegister(c)
    ensures ElementIndex(c, t, group, element) < 256
  {
    hide ElementBits, WholeMemory, Opcode, Field;
    FieldCount(c.instruction);
    var segmented := Opcode(c.instruction) == LOAD && !WholeMemory(c.instruction);
    var fields := if segmented then Field(c.instruction, 29, 3) + 1 else 1;
    var perField := if t.count / fields > 1 then t.count / fields else 1;
    assert t.count / fields <= t.count by { QuotientBound(t.count, fields); }
    assert group % perField < perField <= t.count;
  }

  lemma {:induction false} FieldCount(i: u32)
    ensures Field(i, 29, 3) < 8
  {
    LowBound(Shr(i, 29), 3);
    assert Pow2(3) == 8;
  }

  lemma {:induction false} QuotientBound(n: nat, d: nat)
    requires 0 < d <= 8
    ensures n / d <= n
  {
    assert d == 1 || d == 2 || d == 3 || d == 4 || d == 5 || d == 6 || d == 7 || d == 8;
  }

  /** The elements in which the checker wants ones instead of the reference's value: what it
      takes for tail elements under tail-agnostic or in a mask result, and masked-off elements
      under mask-agnostic. VectorElements compares them with those of the standard. */
  predicate Agnostic(c: Commit, t: Trace, group: nat, element: nat)
    requires Comparable(c, t) && group < t.count && element < PerRegister(c)
  {
    IndexBelow256(c, t, group, element);
    var i := c.instruction;
    var index := ElementIndex(c, t, group, element);
    var vl := EffectiveVl(c, t);
    var enabled := Unmasked(i) || RegisterBit(c.mask, index);
    var tail := index >= (if Compress(i) then CountSelected(c.selection, c.before.vl) else vl)
                || ((ScalarInsert(i) || Reduction(i)) && index > 0);
    && !WholeMemory(i) && !WholeMove(i) && c.before.vstart < vl && index >= c.before.vstart
    && (if tail then MaskDestination(i) || MaskMemory(i) || Bit(c.before.vtype, 6)
        else !MaskIsData(i) && !enabled && Bit(c.before.vtype, 7))
  }

  // ----- elements as bit slices -----

  /** `(register[bit / 32] >> (bit % 32)) & elementMask` for the element's first bit. */
  function Slice(r: Register, bits: nat, element: nat): nat
    requires bits in {1, 8, 16, 32} && element < 256 / bits
  {
    Low(Shr(r[element * bits / 32], element * bits % 32), bits)
  }

  /** Bit b of an element is bit `element * bits + b` of the register. */
  lemma {:induction false} SliceBit(r: Register, bits: nat, element: nat, b: nat)
    requires bits in {1, 8, 16, 32} && element < 256 / bits && b < bits
    ensures element * bits + b < 256
    ensures Bit(Slice(r, bits, element), b) == RegisterBit(r, element * bits + b)
  {
    hide Bit, Low, Shr;
    var k := element * bits;
    SameWord(bits, element, b);
    BitOfLow(Shr(r[k / 32], k % 32), bits, b);
    BitOfShr(r[k / 32], k % 32, b);
  }

  lemma {:induction false} SameWord(bits: nat, element: nat, b: nat)
    requires bits in {1, 8, 16, 32} && element < 256 / bits && b < bits
    ensures var k := element * bits;
      k + b < 256 && (k + b) / 32 == k / 32 && (k + b) % 32 == k % 32 + b
  {
  }

  /** Elements of width 1, 8, 16 or 32 tile the register: bit k lies in element k / bits. */
  lemma {:induction false} BitLiesInElement(bits: nat, k: nat)
    requires bits in {1, 8, 16, 32} && k < 256
    ensures k / bits < 256 / bits && k == k / bits * bits + k % bits && k % bits < bits
  {
  }

  predicate ElementMatches(c: Commit, t: Trace, actual: Register, expected: Register, group: nat, element: nat)
    requires Comparable(c, t) && group < t.count && element < PerRegister(c)
  {
    var bits := ElementBits(c);
    Slice(actual, bits, element)
    == if Agnostic(c, t, group, element) then Ones(bits) else Slice(expected, bits, element)
  }

  /** The bits an element comparison promises about one register of the group. */
  ghost predicate BitsMatch(c: Commit, t: Trace, actual: Register, expected: Register, group: nat)
    requires Comparable(c, t) && group < t.count
  {
    forall k :: 0 <= k < 256 ==> BitMatches(c, t, actual, expected, group, k)
  }

  predicate BitMatches(c: Commit, t: Trace, actual: Register, expected: Register, group: nat, k: nat)
    requires Comparable(c, t) && group < t.count && k < 256
  {
    BitLiesInElement(ElementBits(c), k);
    RegisterBit(actual, k) == (Agnostic(c, t, group, k / ElementBits(c)) || RegisterBit(expected, k))
  }

  /** Bit b of an element is as the comparison allows it. */
  predicate ElementBitMatches(c: Commit, t: Trace, actual: Register, expected: Register, group: nat, element: nat,
    b: nat)
    requires Comparable(c, t) && group < t.count && element < PerRegister(c) && b < ElementBits(c)
  {
    var k := element * ElementBits(c) + b;
    SameWord(ElementBits(c), element, b);
    RegisterBit(actual, k) == (Agnostic(c, t, group, element) || RegisterBit(expected, k))
  }

  lemma {:induction false} ElementMatchesIff(c: Commit, t: Trace, actual: Register, expected: Register, group: nat,
    element: nat)
    requires Comparable(c, t) && group < t.count && element < PerRegister(c)
    ensures ElementMatches(c, t, actual, expected, group, element)
      <==> forall b :: 0 <= b < ElementBits(c) ==> ElementBitMatches(c, t, actual, expected, group, element, b)
  {
    hide ElementBits, Agnostic, RegisterBit, Bit, Low, Shr, Ones, Slice;
    var bits := ElementBits(c);
    var got := Slice(actual, bits, element);
    var wanted := if Agnostic(c, t, group, element) then Ones(bits) else Slice(expected, bits, element);
    forall b | 0 <= b < bits
      ensures ElementBitMatches(c, t, actual, expected, group, element, b) <==> Bit(got, b) == Bit(wanted, b)
    {
      SliceBit(actual, bits, element, b);
      SliceBit(expected, bits, element, b);
      BitOfOnes(bits, b);
    }
    SliceBound(actual, bits, element);
    SliceBound(expected, bits, element);
    OnesBound(bits);
    if forall b :: 0 <= b < bits ==> ElementBitMatches(c, t, actual, expected, group, element, b) {
      forall b | 0 <= b < bits ensures Bit(got, b) == Bit(wanted, b) {
        assert ElementBitMatches(c, t, actual, expected, group, element, b);
      }
      BitsDetermine(got, wanted, bits);
    }
  }

  lemma {:induction false} SliceBound(r: Register, bits: nat, element: nat)
    requires bits in {1, 8, 16, 32} && element < 256 / bits
    ensures Slice(r, bits, element) < Pow2(bits)
  {
    LowBound(Shr(r[element * bits / 32], element * bits % 32), bits);
  }

  lemma {:induction false} OnesBound(bits: nat)
    ensures Ones(bits) < Pow2(bits)
  {
    LowBound(0, bits);
  }

  ghost predicate ElementsMatch(c: Commit, t: Trace, actual: Register, expected: Register, group: nat)
    requires Comparable(c, t) && group < t.count
  {
    forall e :: 0 <= e < PerRegister(c) ==> ElementMatches(c, t, actual, expected, group, e)
  }

  lemma {:induction false} ElementsDecideBits(c: Commit, t: Trace, actual: Register, expected: Register, group: nat,
    k: nat)
    requires Comparable(c, t) && group < t.count && k < 256
    requires ElementsMatch(c, t, actual, expected, group)
    ensures BitMatches(c, t, actual, expected, group, k)
  {
    hide ElementBits, Agnostic, RegisterBit, ElementMatches;
    var bits := ElementBits(c);
    BitLiesInElement(bits, k);
    ElementMatchesIff(c, t, actual, expected, group, k / bits);
    assert ElementBitMatches(c, t, actual, expected, group, k / bits, k % bits);
  }

  lemma {:induction false} BitsDecideElements(c: Commit, t: Trace, actual: Register, expected: Register, group: nat,
    e: nat)
    requires Comparable(c, t) && group < t.count && e < PerRegister(c)
    requires BitsMatch(c, t, actual, expected, group)
    ensures ElementMatches(c, t, actual, expected, group, e)
  {
    hide ElementBits, Agnostic, RegisterBit, ElementMatches;
    var bits := ElementBits(c);
    forall b | 0 <= b < bits ensures ElementBitMatches(c, t, actual, expected, group, e, b) {
      SameWord(bits, e, b);
      InElement(bits, e, b);
      assert BitMatches(c, t, actual, expected, group, e * bits + b);
    }
    ElementMatchesIff(c, t, actual, expected, group, e);
  }

  /** The element comparison of one register passes exactly when every one of its 256 bits
      equals the reference's, except in agnostic elements, where every bit is one. */
  lemma {:induction false} ElementsMatchIffBitsMatch(c: Commit, t: Trace, actual: Register, expected: Register,
    group: nat)
    requires Comparable(c, t) && group < t.count
    ensures ElementsMatch(c, t, actual, expected, group) <==> BitsMatch(c, t, actual, expected, group)
  {
    hide BitMatches, ElementMatches, ElementBits;
    if ElementsMatch(c, t, actual, expected, group) {
      forall k | 0 <= k < 256 ensures BitMatches(c, t, actual, expected, group, k) {
        ElementsDecideBits(c, t, actual, expected, group, k);
      }
    }
    if BitsMatch(c, t, actual, expected, group) {
      forall e | 0 <= e < PerRegister(c) ensures ElementMatches(c, t, actual, expected, group, e) {
        BitsDecideElements(c, t, actual, expected, group, e);
      }
    }
  }

  lemma {:induction false} InElement(bits: nat, element: nat, b: nat)
    requires b < bits
    ensures (element * bits + b) / bits == element
  {
    Quotient(element, bits, b);
  }

  // ----- the checker -----

  /** The DUT's copy of register `group` of the destination: six bits of `physical` each. */
  function Physical(dut: seq<Register>, t: Trace, group: nat): Register
    requires |dut| == 64
  {
    LowBound(Shr(t.physical, group * 6), 6);
    assert Pow2(6) == 64 by { assert Pow2(3) == 8; }
    dut[Low(Shr(t.physical, group * 6), 6)]
  }

  /** The reference's registers once the first n of the group have been taken over. */
  function TakenOver(registers: seq<Register>, dut: seq<Register>, t: Trace, n: nat): (r: seq<Register>)
    requires |registers| == 32 && |dut| == 64 && t.base + n <= 32
    ensures |r| == 32
    ensures forall v :: 0 <= v < 32 ==>
      r[v] == if t.base <= v < t.base + n then Physical(dut, t, v - t.base) else registers[v]
  {
    if n == 0 then registers else TakenOver(registers, dut, t, n - 1)[t.base + n - 1 := Physical(dut, t, n - 1)]
  }

  /** Every destination bit is the reference's, or one in an agnostic element. */
  ghost predicate RegistersMatch(c: Commit, t: Trace, dut: seq<Register>, registers: seq<Register>, n: nat)
    requires Supported(c, t) && GroupFits(t) && |dut| == 64 && |registers| == 32 && n <= t.count
  {
    forall g :: 0 <= g < n ==> BitsMatch(c, t, Physical(dut, t, g), registers[t.base + g], g)
  }

  /** Configuration, flags and saturation of a retired vector instruction. */
  predicate StateAgrees(c: Commit, t: Trace) {
    var configuration := IsConfiguration(c.instruction);
    && configuration == t.configuration && c.after.vstart == 0
    && (configuration ==> t.vl == c.after.vl && t.vtype == c.after.vtype)
    && (c.before.flags | t.flags) == c.after.flags
    && (c.before.saturated || t.saturated) == c.after.saturated
  }

  /** Bit k of the exception flags: 0 inexact, 1 underflow, 2 overflow, 3 division by zero,
      4 invalid. */
  predicate Raised(flags: bv8, k: nat)
    requires k < 8
  {
    match k
    case 0 => flags & 1 != 0
    case 1 => flags & 2 != 0
    case 2 => flags & 4 != 0
    case 3 => flags & 8 != 0
    case 4 => flags & 16 != 0
    case 5 => flags & 32 != 0
    case 6 => flags & 64 != 0
    case _ => flags & 128 != 0
  }

  /** What the comparison of the state comes to, bit by bit: the flags after the instruction are
      those before it and those that the core reports, vstart is 0, and for vset instructions,
      and for no others, the core reports the configuration of the reference. */
  lemma {:induction false} StateAgreesIff(c: Commit, t: Trace)
    ensures StateAgrees(c, t) <==>
      && c.after.vstart == 0
      && (forall k :: 0 <= k < 8 ==>
            (Raised(c.after.flags, k) <==> Raised(c.before.flags, k) || Raised(t.flags, k)))
      && (c.after.saturated <==> c.before.saturated || t.saturated)
      && (if Field(c.instruction, 0, 7) == 0x57 && Field(c.instruction, 12, 3) == 7
          then t.configuration && t.vl == c.after.vl && t.vtype == c.after.vtype else !t.configuration)
  {
    hide Field, Raised;
    FlagsUnite(c.before.flags, t.flags, c.after.flags);
    assert IsConfiguration(c.instruction) <==> Field(c.instruction, 0, 7) == 0x57 && Field(c.instruction, 12, 3) == 7;
    hide IsConfiguration;
  }

  lemma {:induction false} FlagsUnite(a: bv8, b: bv8, c: bv8)
    ensures a | b == c <==> forall k :: 0 <= k < 8 ==> (Raised(c, k) <==> Raised(a, k) || Raised(b, k))
  {
    if forall k :: 0 <= k < 8 ==> (Raised(c, k) <==> Raised(a, k) || Raised(b, k)) {
      assert Raised(c, 0) <==> Raised(a, 0) || Raised(b, 0);
      assert Raised(c, 1) <==> Raised(a, 1) || Raised(b, 1);
      assert Raised(c, 2) <==> Raised(a, 2) || Raised(b, 2);
      assert Raised(c, 3) <==> Raised(a, 3) || Raised(b, 3);
      assert Raised(c, 4) <==> Raised(a, 4) || Raised(b, 4);
      assert Raised(c, 5) <==> Raised(a, 5) || Raised(b, 5);
      assert Raised(c, 6) <==> Raised(a, 6) || Raised(b, 6);
      assert Raised(c, 7) <==> Raised(a, 7) || Raised(b, 7);
    }
  }

  class VectorReference {
    const memory: SparseMemory
    var registers: seq<Register>

    constructor (memory: SparseMemory, registers: seq<Register>)
      ensures this.memory == memory && this.registers == registers
    {
      this.memory, this.registers := memory, registers;
    }
  }

  method CountCompressed(c: Commit) returns (count: nat)
    requires c.before.vl <= 256
    ensures count == if Compress(c.instruction) then CountSelected(c.selection, c.before.vl) else 0
  {
    hide RegisterBit;
    count := 0;
    if Compress(c.instruction) {
      for index := 0 to c.before.vl
        invariant count == CountSelected(c.selection, index)
      {
        if RegisterBit(c.selection, index) { count := count + 1; }
      }
    }
  }

  /** The element loop for one register of the group. */
  method CompareRegister(c: Commit, t: Trace, compressed: nat, actual: Register, expected: Register, group: nat)
    returns (bad: Option<nat>)
    requires Comparable(c, t) && group < t.count
    requires Compress(c.instruction) ==> compressed == CountSelected(c.selection, c.before.vl)
    ensures bad.None? <==> BitsMatch(c, t, actual, expected, group)
  {
    hide ElementBits, ElementMatches, BitsMatch, Slice;
    ElementsMatchIffBitsMatch(c, t, actual, expected, group);
    for element := 0 to PerRegister(c)
      invariant forall e :: 0 <= e < element ==> ElementMatches(c, t, actual, expected, group, e)
    {
      var matches := CompareElement(c, t, compressed, actual, expected, group, element);
      if !matches { return Some(element); }
    }
    return None;
  }

  /** The body of the element loop. */
  method CompareElement(c: Commit, t: Trace, compressed: nat, actual: Register, expected: Register, group: nat,
    element: nat)
    returns (matches: bool)
    requires Comparable(c, t) && group < t.count && element < PerRegister(c)
    requires Compress(c.instruction) ==> compressed == CountSelected(c.selection, c.before.vl)
    ensures matches <==> ElementMatches(c, t, actual, expected, group, element)
  {
    hide ElementBits, Slice, RegisterBit, MaskDestination, MaskIsData, Reduction, ScalarInsert, WholeMemory,
      WholeMove, MaskMemory, Compress, CountSelected, Unmasked, Bit, Ones, ElementIndex, EffectiveVl;
    var i, bits := c.instruction, ElementBits(c);
    IndexBelow256(c, t, group, element);
    var index := ElementIndex(c, t, group, element);
    var got, wanted := Slice(actual, bits, element), Slice(expected, bits, element);
    var enabled := Unmasked(i) || RegisterBit(c.mask, index);
    var effectiveVl := EffectiveVl(c, t);
    var end := if Compress(i) then compressed else effectiveVl;
    var tail := index >= end || ((ScalarInsert(i) || Reduction(i)) && index > 0);
    var agnostic := !WholeMemory(i) && !WholeMove(i) && c.before.vstart < effectiveVl && index >= c.before.vstart
      && (if tail then MaskDestination(i) || MaskMemory(i) || Bit(c.before.vtype, 6)
          else !MaskIsData(i) && !enabled && Bit(c.before.vtype, 7));
    matches := got == if agnostic then Ones(bits) else wanted;
  }

  /** The register loop: an accepted group replaces the reference's group. */
  method CompareGroup(dut: seq<Register>, t: Trace, c: Commit, reference: VectorReference)
    returns (fault: Option<Fault>)
    requires |dut| == 64 && |reference.registers| == 32 && Supported(c, t) && GroupFits(t)
    modifies reference
    ensures fault.None? <==> RegistersMatch(c, t, dut, old(reference.registers), t.count)
    ensures fault.None? ==> reference.registers == TakenOver(old(reference.registers), dut, t, t.count)
  {
    hide ElementBits, BitsMatch, Physical, CountSelected, Compress;
    var compressed := CountCompressed(c);
    for group := 0 to t.count
      invariant RegistersMatch(c, t, dut, old(reference.registers), group)
      invariant reference.registers == TakenOver(old(reference.registers), dut, t, group)
    {
      var actual := Physical(dut, t, group);
      var expected := reference.registers[t.base + group];
      var bad := CompareRegister(c, t, compressed, actual, expected, group);
      if bad.Some? { return Some(ElementDiffers(t.base + group, bad.value)); }
      reference.registers := reference.registers[t.base + group := actual];
    }
    return None;
  }

  /** The store half of the checker. */
  method CheckStores(ports: Ports, st: StoreTrace, c: Commit, memory: SparseMemory) returns (fault: Option<Fault>)
    requires ports.Shaped() && st.eew <= 5
    ensures fault.None? <==> st.Valid() && StoresMatch(Effects(ports, st), c.stores, memory.words)
  {
    hide Effects, StoresMatch;
    if st.count == 0 || st.count > 8 || st.firstGroup + st.count > 8 { return Some(InvalidStoreCount); }
    if st.scattered && st.Fields() * st.FieldRegisters() != st.count { return Some(InvalidSegmentLayout); }
    var stores := CollectStores(ports, st);
    var verdict := CompareStores(stores, c.stores, memory);
    return if verdict == Matches then None else Some(StoresDiffer(verdict));
  }

  /** The commits whose configuration and flags agree, whose destination group is well formed,
      whose stores are the reference's in every byte, and whose destination bits are the
      reference's, or ones where the checker wants them. */
  ghost predicate Accepts(dut: seq<Register>, ports: Ports, st: StoreTrace, t: Trace, c: Commit,
    registers: seq<Register>, words: WordMap)
    requires |dut| == 64 && |registers| == 32 && ports.Shaped() && st.eew <= 5 && Supported(c, t)
  {
    && StateAgrees(c, t) && GroupFits(t)
    && (Opcode(c.instruction) == STORE ==> st.Valid() && StoresMatch(Effects(ports, st), c.stores, words))
    && RegistersMatch(c, t, dut, registers, t.count)
  }

  /** Groups of more than eight registers or beyond v31, and stores without rows, of more than
      eight, beyond the last row, or whose fields and registers do not make up the rows of a
      scattered store, are never accepted. */
  lemma {:induction false} RefusedOutright(dut: seq<Register>, ports: Ports, st: StoreTrace, t: Trace, c: Commit,
    registers: seq<Register>, words: WordMap)
    requires |dut| == 64 && |registers| == 32 && ports.Shaped() && st.eew <= 5 && Supported(c, t)
    ensures t.count > 8 || t.base + t.count > 32 ==> !Accepts(dut, ports, st, t, c, registers, words)
    ensures Field(c.instruction, 0, 7) == 0x27
      && (st.count == 0 || st.count > 8 || st.firstGroup + st.count > 8
          || (st.scattered && (st.lastField + 1) * Pow2(st.fieldRegisterShift) != st.count))
      ==> !Accepts(dut, ports, st, t, c, registers, words)
  {
    hide Field, Pow2, StateAgrees, RegistersMatch, StoresMatch, Effects;
  }

  /** The checker accepts exactly these. On acceptance the reference's group is the DUT's, and
      no other register has changed. */
  method CompareVectorCommit(dut: seq<Register>, ports: Ports, st: StoreTrace, t: Trace, c: Commit,
    reference: VectorReference)
    returns (fault: Option<Fault>)
    requires |dut| == 64 && |reference.registers| == 32 && ports.Shaped() && st.eew <= 5 && Supported(c, t)
    modifies reference
    ensures fault.None? <==> Accepts(dut, ports, st, t, c, old(reference.registers), reference.memory.words)
    ensures fault.None? ==> reference.registers == TakenOver(old(reference.registers), dut, t, t.count)
    ensures reference.memory.words == old(reference.memory.words)
  {
    hide Supported, StateAgrees, Effects, StoresMatch, RegistersMatch, Opcode, TakenOver;
    if !StateAgrees(c, t) { return Some(StateDiffers); }
    if t.count > 8 || t.base + t.count > 32 { return Some(InvalidGroup); }
    if Opcode(c.instruction) == STORE {
      fault := CheckStores(ports, st, c, reference.memory);
      if fault.Some? { return; }
    }
    fault := CompareGroup(dut, t, c, reference);
  }
}
