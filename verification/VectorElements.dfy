/** Which destination elements the RISC-V vector extension leaves to the implementation, from
    the tables of the standard (RISC-V V 1.0, sections 3.4, 5.4, 7, 10 to 16 and 19) for Zve32f,
    against the elements in which the checker wants ones (src/main.cc:213-277). */
module VectorElements {
  import opened Words
  import opened VectorCommit
  import opened VectorEncoding

  // ----- the tables of the standard -----

  /** vtype, section 3.4: sew is the code of an element width of 8, 16 or 32 bits, lmul 0 to 3
      the code of 1 to 8 registers and 5 to 7 of 1/8 to 1/2. */
  datatype VectorType = VectorType(lmul: nat, sew: nat, tailAgnostic: bool, maskAgnostic: bool) {
    predicate Valid() { lmul < 8 && lmul != 4 && sew <= 2 }

    function Encode(): u32
      requires Valid()
    {
      lmul + 8 * (sew + 8 * ((if tailAgnostic then 1 else 0) + 2 * if maskAgnostic then 1 else 0))
    }

    function Width(): nat
      requires Valid()
    {
      if sew == 0 then 8 else if sew == 1 then 16 else 32
    }

    /** LMUL in eighths of a register. */
    function Eighths(): nat
      requires Valid()
    {
      match lmul
      case 0 => 8
      case 1 => 16
      case 2 => 32
      case 3 => 64
      case 5 => 1
      case 6 => 2
      case _ => 4
    }
  }

  /** What an instruction does to the elements of its destination.
      Masked: v0 enables the elements of the body, unless vm is set.
      Unconditional: v0 is an operand or not looked at, the whole body is written.
      Bytes: the same for the bytes that hold a mask of vl bits (vlm, section 7.4).
      Slide: as Masked, but elements below the offset stay (vslideup, section 16.3.1).
      First: element 0 is the result whatever the mask, the rest is tail (sections 14 and 16.1).
      Packed: the selected elements move to the front, the rest is tail (section 16.5).
      Whole: whole registers, vl does not matter (sections 7.9 and 16.6).
      Scalar: no vector register is written. */
  datatype Kind = Masked | Unconditional | Bytes | Slide | First | Packed | Whole | Scalar

  /** The destination: element width in bits, registers of one field, number of fields. A mask
      result, and the register a mask is loaded to, are tail-agnostic whatever vta says
      (sections 5.3 and 7.4). */
  datatype Shape = Shape(kind: Kind, bits: nat, mask: bool, perField: nat, fields: nat) {
    predicate Valid() {
      bits in {1, 8, 16, 32} && perField > 0 && 0 < fields <= 8 && (bits == 1 ==> perField == fields == 1)
    }
    function Registers(): nat { if kind == Scalar then 0 else perField * fields }
  }

  type Destination = d: Shape | d.Valid() witness NONE

  function AtLeastOne(eighths: nat): (registers: nat)
    ensures registers > 0
  {
    if eighths < 8 then 1 else eighths / 8
  }

  function Plain(kind: Kind, v: VectorType): Destination
    requires v.Valid()
  {
    Shape(kind, v.Width(), false, AtLeastOne(v.Eighths()), 1)
  }

  /** No element has more than 32 bits. */
  function Wide(v: VectorType): Option<Destination>
    requires v.Valid()
  {
    if v.sew == 2 then None else Some(Shape(Masked, 2 * v.Width(), false, AtLeastOne(2 * v.Eighths()), 1))
  }

  function Single(bits: nat): Destination
    requires bits in {8, 16, 32}
  {
    Shape(First, bits, false, 1, 1)
  }

  function MaskResult(kind: Kind): Destination { Shape(kind, 1, true, 1, 1) }

  const NONE := Shape(Scalar, 32, false, 1, 1)

  /** The arithmetic instructions of Zve32f, by funct3 and funct6 (section 19), and what they
      write. Floating elements have 32 bits there, so only conversions between 16-bit integers
      and floats widen or narrow. */
  function ArithmeticDestination(a: Arithmetic, v: VectorType): Option<Destination>
    requires a.Valid() && v.Valid()
  {
    match a.funct3
    case 0 => VectorVector(a, v)
    case 1 => FloatVectorVector(a, v)
    case 2 => MultiplyVectorVector(a, v)
    case 3 => VectorImmediate(a, v)
    case 4 => VectorScalar(a, v)
    case 5 => FloatVectorScalar(a, v)
    case 6 => MultiplyVectorScalar(a, v)
    case _ => None
  }

  /** OPIVV. */
  function VectorVector(a: Arithmetic, v: VectorType): Option<Destination>
    requires v.Valid()
  {
    // vadd vsub vminu vmin vmaxu vmax vand vor vxor vrgather vrgatherei16
    if a.funct6 in {0x00, 0x02, 0x04, 0x05, 0x06, 0x07, 0x09, 0x0a, 0x0b, 0x0c, 0x0e} then Some(Plain(Masked, v))
    // vsaddu vsadd vssubu vssub vsll vsmul vsrl vsra vssrl vssra vnsrl vnsra vnclipu vnclip
    else if a.funct6 in {0x20, 0x21, 0x22, 0x23, 0x25, 0x27, 0x28, 0x29, 0x2a, 0x2b, 0x2c, 0x2d, 0x2e, 0x2f}
    then Some(Plain(Masked, v))
    // vadc vsbc, vmerge and vmv.v.v
    else if a.funct6 in {0x10, 0x12, 0x17} then Some(Plain(Unconditional, v))
    // vmadc vmsbc
    else if a.funct6 in {0x11, 0x13} then Some(MaskResult(Unconditional))
    // vmseq vmsne vmsltu vmslt vmsleu vmsle
    else if a.funct6 in {0x18, 0x19, 0x1a, 0x1b, 0x1c, 0x1d} then Some(MaskResult(Masked))
    // vwredsumu vwredsum
    else if a.funct6 in {0x30, 0x31} && v.sew < 2 then Some(Single(2 * v.Width()))
    else None
  }

  /** OPIVX. */
  function VectorScalar(a: Arithmetic, v: VectorType): Option<Destination>
    requires v.Valid()
  {
    // vadd vsub vrsub vminu vmin vmaxu vmax vand vor vxor vrgather vslidedown
    if a.funct6 in {0x00, 0x02, 0x03, 0x04, 0x05, 0x06, 0x07, 0x09, 0x0a, 0x0b, 0x0c, 0x0f}
    then Some(Plain(Masked, v))
    // vsaddu vsadd vssubu vssub vsll vsmul vsrl vsra vssrl vssra vnsrl vnsra vnclipu vnclip
    else if a.funct6 in {0x20, 0x21, 0x22, 0x23, 0x25, 0x27, 0x28, 0x29, 0x2a, 0x2b, 0x2c, 0x2d, 0x2e, 0x2f}
    then Some(Plain(Masked, v))
    // vslideup
    else if a.funct6 == 0x0e then Some(Plain(Slide, v))
    // vadc vsbc, vmerge and vmv.v.x
    else if a.funct6 in {0x10, 0x12, 0x17} then Some(Plain(Unconditional, v))
    // vmadc vmsbc
    else if a.funct6 in {0x11, 0x13} then Some(MaskResult(Unconditional))
    // vmseq vmsne vmsltu vmslt vmsleu vmsle vmsgtu vmsgt
    else if a.funct6 in {0x18, 0x19, 0x1a, 0x1b, 0x1c, 0x1d, 0x1e, 0x1f} then Some(MaskResult(Masked))
    else None
  }

  /** OPIVI. */
  function VectorImmediate(a: Arithmetic, v: VectorType): Option<Destination>
    requires v.Valid()
  {
    // vadd vrsub vand vor vxor vrgather vslidedown
    if a.funct6 in {0x00, 0x03, 0x09, 0x0a, 0x0b, 0x0c, 0x0f} then Some(Plain(Masked, v))
    // vsaddu vsadd vsll vsrl vsra vssrl vssra vnsrl vnsra vnclipu vnclip
    else if a.funct6 in {0x20, 0x21, 0x25, 0x28, 0x29, 0x2a, 0x2b, 0x2c, 0x2d, 0x2e, 0x2f}
    then Some(Plain(Masked, v))
    // vslideup
    else if a.funct6 == 0x0e then Some(Plain(Slide, v))
    // vadc, vmerge and vmv.v.i
    else if a.funct6 in {0x10, 0x17} then Some(Plain(Unconditional, v))
    // vmadc
    else if a.funct6 == 0x11 then Some(MaskResult(Unconditional))
    // vmseq vmsne vmsleu vmsle vmsgtu vmsgt
    else if a.funct6 in {0x18, 0x19, 0x1c, 0x1d, 0x1e, 0x1f} then Some(MaskResult(Masked))
    // vmv1r vmv2r vmv4r vmv8r
    else if a.funct6 == 0x27 && a.vm == 1 && a.vs1 in {0, 1, 3, 7}
    then Some(Shape(Whole, v.Width(), false, a.vs1 + 1, 1))
    else None
  }

  /** OPMVV. */
  function MultiplyVectorVector(a: Arithmetic, v: VectorType): Option<Destination>
    requires v.Valid()
  {
    // vredsum vredand vredor vredxor vredminu vredmin vredmaxu vredmax
    if a.funct6 in {0x00, 0x01, 0x02, 0x03, 0x04, 0x05, 0x06, 0x07} then Some(Single(v.Width()))
    // vaaddu vaadd vasubu vasub
    else if a.funct6 in {0x08, 0x09, 0x0a, 0x0b} then Some(Plain(Masked, v))
    // vmv.x.s vcpop vfirst
    else if a.funct6 == 0x10 && a.vs1 in {0, 16, 17} then Some(NONE)
    // vzext and vsext of an eighth, a quarter and a half
    else if a.funct6 == 0x12 && a.vs1 in {2, 3, 4, 5, 6, 7} then Some(Plain(Masked, v))
    // vmsbf vmsof vmsif
    else if a.funct6 == 0x14 && a.vs1 in {1, 2, 3} then Some(MaskResult(Masked))
    // viota vid
    else if a.funct6 == 0x14 && a.vs1 in {16, 17} then Some(Plain(Masked, v))
    // vcompress
    else if a.funct6 == 0x17 && a.vm == 1 then Some(Plain(Packed, v))
    // vmandn vmand vmor vmxor vmorn vmnand vmnor vmxnor
    else if a.funct6 in {0x18, 0x19, 0x1a, 0x1b, 0x1c, 0x1d, 0x1e, 0x1f} && a.vm == 1
    then Some(MaskResult(Unconditional))
    // vdivu vdiv vremu vrem vmulhu vmul vmulhsu vmulh vmadd vnmsub vmacc vnmsac
    else if a.funct6 in {0x20, 0x21, 0x22, 0x23, 0x24, 0x25, 0x26, 0x27, 0x29, 0x2b, 0x2d, 0x2f}
    then Some(Plain(Masked, v))
    // vwaddu vwadd vwsubu vwsub, the same with a wide operand, vwmulu vwmulsu vwmul vwmaccu vwmacc vwmaccsu
    else if a.funct6 in {0x30, 0x31, 0x32, 0x33, 0x34, 0x35, 0x36, 0x37, 0x38, 0x3a, 0x3b, 0x3c, 0x3d, 0x3f}
    then Wide(v)
    else None
  }

  /** OPMVX. */
  function MultiplyVectorScalar(a: Arithmetic, v: VectorType): Option<Destination>
    requires v.Valid()
  {
    // vaaddu vaadd vasubu vasub vslide1up vslide1down
    if a.funct6 in {0x08, 0x09, 0x0a, 0x0b, 0x0e, 0x0f} then Some(Plain(Masked, v))
    // vmv.s.x
    else if a.funct6 == 0x10 && a.vs2 == 0 && a.vm == 1 then Some(Single(v.Width()))
    // vdivu vdiv vremu vrem vmulhu vmul vmulhsu vmulh vmadd vnmsub vmacc vnmsac
    else if a.funct6 in {0x20, 0x21, 0x22, 0x23, 0x24, 0x25, 0x26, 0x27, 0x29, 0x2b, 0x2d, 0x2f}
    then Some(Plain(Masked, v))
    // as OPMVV, and vwmaccus
    else if a.funct6 in {0x30, 0x31, 0x32, 0x33, 0x34, 0x35, 0x36, 0x37, 0x38, 0x3a, 0x3b, 0x3c, 0x3d, 0x3e, 0x3f}
    then Wide(v)
    else None
  }

  /** OPFVV. */
  function FloatVectorVector(a: Arithmetic, v: VectorType): Option<Destination>
    requires v.Valid()
  {
    // vfadd vfsub vfmin vfmax vfsgnj vfsgnjn vfsgnjx vfdiv vfmul
    if a.funct6 in {0x00, 0x02, 0x04, 0x06, 0x08, 0x09, 0x0a, 0x20, 0x24} then Some(Plain(Masked, v))
    // vfmadd vfnmadd vfmsub vfnmsub vfmacc vfnmacc vfmsac vfnmsac
    else if a.funct6 in {0x28, 0x29, 0x2a, 0x2b, 0x2c, 0x2d, 0x2e, 0x2f} then Some(Plain(Masked, v))
    // vfredusum vfredosum vfredmin vfredmax
    else if a.funct6 in {0x01, 0x03, 0x05, 0x07} then Some(Single(v.Width()))
    // vfmv.f.s
    else if a.funct6 == 0x10 && a.vs1 == 0 then Some(NONE)
    // vfcvt, and vfncvt to integers
    else if a.funct6 == 0x12 && a.vs1 in {0, 1, 2, 3, 6, 7, 16, 17, 22, 23} then Some(Plain(Masked, v))
    // vfwcvt from integers
    else if a.funct6 == 0x12 && a.vs1 in {10, 11} then Wide(v)
    // vfsqrt vfrsqrt7 vfrec7 vfclass
    else if a.funct6 == 0x13 && a.vs1 in {0, 4, 5, 16} then Some(Plain(Masked, v))
    // vmfeq vmfle vmflt vmfne
    else if a.funct6 in {0x18, 0x19, 0x1b, 0x1c} then Some(MaskResult(Masked))
    else None
  }

  /** OPFVF. */
  function FloatVectorScalar(a: Arithmetic, v: VectorType): Option<Destination>
    requires v.Valid()
  {
    // vfadd vfsub vfmin vfmax vfsgnj vfsgnjn vfsgnjx vfslide1up vfslide1down vfdiv vfrdiv vfmul vfrsub
    if a.funct6 in {0x00, 0x02, 0x04, 0x06, 0x08, 0x09, 0x0a, 0x0e, 0x0f, 0x20, 0x21, 0x24, 0x27}
    then Some(Plain(Masked, v))
    // vfmadd vfnmadd vfmsub vfnmsub vfmacc vfnmacc vfmsac vfnmsac
    else if a.funct6 in {0x28, 0x29, 0x2a, 0x2b, 0x2c, 0x2d, 0x2e, 0x2f} then Some(Plain(Masked, v))
    // vfmv.s.f
    else if a.funct6 == 0x10 && a.vs2 == 0 && a.vm == 1 then Some(Single(v.Width()))
    // vfmerge and vfmv.v.f
    else if a.funct6 == 0x17 then Some(Plain(Unconditional, v))
    // vmfeq vmfle vmflt vmfne vmfgt vmfge
    else if a.funct6 in {0x18, 0x19, 0x1b, 0x1c, 0x1d, 0x1f} then Some(MaskResult(Masked))
    else None
  }

  /** The element width that the width field of a load encodes (section 7.3). */
  function LoadWidth(width: nat): Option<nat> {
    match width
    case 0 => Some(8)
    case 5 => Some(16)
    case 6 => Some(32)
    case _ => None
  }

  /** The loads (sections 7.4 to 7.9): unit-stride and fault-only-first, strided, indexed, whole
      registers and masks; EMUL is EEW / SEW * LMUL. The body of a fault-only-first load is that
      of the vl before it. */
  function LoadDestination(l: Transfer, v: VectorType): Option<Destination>
    requires l.Valid() && v.Valid()
  {
    if l.store || l.mew == 1 then None
    else
      var eew :- LoadWidth(l.width);
      var fields := l.nf + 1;
      if l.mop in {1, 3} then
        Some(Shape(Masked, v.Width(), false, AtLeastOne(v.Eighths()), fields))
      else if l.mop == 2 || l.umop in {0, 16} then
        Some(Shape(Masked, eew, false, AtLeastOne(eew * v.Eighths() / v.Width()), fields))
      else if l.umop == 8 && l.vm == 1 && l.nf in {0, 1, 3, 7} then Some(Shape(Whole, eew, false, fields, 1))
      else if l.umop == 11 && l.vm == 1 && l.nf == 0 && eew == 8 then
        Some(Shape(Bytes, 8, true, 1, 1))
      else None
  }

  datatype Instruction = Compute(a: Arithmetic) | Load(l: Transfer) {
    predicate Valid() { match this case Compute(a) => a.Valid() case Load(l) => l.Valid() }

    function Encode(): u32
      requires Valid()
    {
      match this case Compute(a) => a.Encode() case Load(l) => l.Encode()
    }

    function Result(v: VectorType): Option<Destination>
      requires Valid() && v.Valid()
    {
      match this case Compute(a) => ArithmeticDestination(a, v) case Load(l) => LoadDestination(l, v)
    }

    function Vm(): nat { match this case Compute(a) => a.vm case Load(l) => l.vm }
  }

  // ----- element classes, section 5.4 -----

  datatype Class = Prestart | Active | Inactive | Tail | Unchanged

  /** What decides the class of an element besides the instruction: packed is the number of
      elements that vcompress selects, offset that of a slide. */
  datatype Situation = Situation(vl: nat, vstart: nat, unmasked: bool, v0: Register, packed: nat, offset: nat)

  function Selected(selection: Register, vl: nat): nat
    requires vl <= 256
  {
    |set k: nat | k < vl && RegisterBit(selection, k)|
  }

  /** Of a vslideup.vi the offset is in the instruction, of a vslideup.vx in the register rs1. */
  function SituationOf(i: Instruction, c: Commit, rs1: u32): Situation
    requires c.before.vl <= 256
  {
    var offset := if i.Compute? && i.a.funct3 == 3 then i.a.vs1 else rs1;
    Situation(c.before.vl, c.before.vstart, i.Vm() == 1, c.mask, Selected(c.selection, c.before.vl), offset)
  }

  /** Where the body of the destination ends. */
  function End(d: Destination, vl: nat): nat {
    match d.kind
    case Whole => d.perField * (256 / d.bits)
    case Bytes => (vl + 7) / 8
    case _ => vl
  }

  predicate Enabled(s: Situation, x: nat) { s.unmasked || (x < 256 && RegisterBit(s.v0, x)) }

  /** The class of element x of a field. With vstart behind the body nothing is written. */
  function ClassOf(d: Destination, s: Situation, x: nat): Class {
    if s.vstart >= End(d, s.vl) then Unchanged
    else if x < s.vstart then Prestart
    else
      match d.kind
      case Scalar => Unchanged
      case First => if x == 0 then Active else Tail
      case Packed => if x < s.packed then Active else Tail
      case Whole => Active
      case _ =>
        if x >= End(d, s.vl) then Tail
        else if d.kind == Slide && x < s.offset then Unchanged
        else if d.kind in {Unconditional, Bytes} || Enabled(s, x) then Active
        else Inactive
  }

  /** Element `element` of register `group` of the destination is this element of its field. */
  function Position(d: Destination, group: nat, element: nat): nat {
    group % d.perField * (256 / d.bits) + element
  }

  /** The elements that may become ones: the tail if it is agnostic, inactive elements if they
      are (section 3.4.3). */
  predicate OnesAllowed(d: Destination, v: VectorType, s: Situation, group: nat, element: nat) {
    match ClassOf(d, s, Position(d, group, element))
    case Tail => d.mask || v.tailAgnostic
    case Inactive => v.maskAgnostic
    case _ => false
  }

  /** A commit of this instruction under this vtype, reported with registers of its
      destination: all of them if there are several fields. */
  predicate Reported(i: Instruction, v: VectorType, c: Commit, t: Trace) {
    && i.Valid() && v.Valid() && i.Result(v).Some? && c.before.vl <= 256 && 0 < t.count <= 8
    && c.instruction == i.Encode() && c.before.vtype == v.Encode()
    && var d := i.Result(v).value;
      t.count <= d.Registers() && (d.fields > 1 ==> t.count == d.Registers())
  }

  /** Where the checker departs from the standard: it treats two kinds of masked-off elements
      that are not inactive as inactive. They are element 0 of a reduction, which is always
      written, and the elements below the offset of a vslideup, which are never. */
  predicate Departs(d: Destination, v: VectorType, s: Situation, group: nat, element: nat) {
    var x := Position(d, group, element);
    && !Enabled(s, x) && v.maskAgnostic && s.vstart <= x < s.vl
    && ((d.kind == First && x == 0) || (d.kind == Slide && x < s.offset))
  }

  // ----- the checker's decoding against the tables -----

  /** The checker finds the fields of vtype. */
  lemma {:induction false} TypeFields(v: VectorType)
    requires v.Valid()
    ensures Field(v.Encode(), 3, 3) == v.sew
    ensures Bit(v.Encode(), 6) == v.tailAgnostic && Bit(v.Encode(), 7) == v.maskAgnostic
  {
    hide Low, Shr, Bit;
    Widths();
    var i := v.Encode();
    var two := (if v.tailAgnostic then 1 else 0) + 2 * if v.maskAgnostic then 1 else 0;
    var one := v.sew + 8 * two;
    assert Shr(i, 0) == i by { NoShift(i); }
    Peel(i, 0, v.lmul, one, 3);
    Peel(i, 3, v.sew, two, 3);
    Peel(i, 6, if v.tailAgnostic then 1 else 0, if v.maskAgnostic then 1 else 0, 1);
    FieldBelow(if v.maskAgnostic then 1 else 0, 0, 1);
    BitIsField(i, 6);
    BitIsField(i, 7);
  }

  /** What the checker makes of an instruction with this destination. */
  predicate ReadAs(i: u32, d: Destination) {
    && (MaskDestination(i) || MaskMemory(i) <==> d.mask) && (MaskMemory(i) <==> d.kind == Bytes)
    && (WholeMove(i) || WholeMemory(i) <==> d.kind == Whole) && (Compress(i) <==> d.kind == Packed)
    && (ScalarInsert(i) || Reduction(i) <==> d.kind == First)
    && (MaskIsData(i) ==> d.kind == Unconditional)
    && (d.kind in {Unconditional, Packed, Bytes} ==> MaskIsData(i) || Unmasked(i))
  }

  predicate Agrees(a: Arithmetic, v: VectorType, result: Option<Destination>)
    requires a.Valid() && v.Valid()
  {
    result.None? || result.value.kind == Scalar
    || (var d, i := result.value, a.Encode();
        ReadAs(i, d) && Opcode(i) == ARITHMETIC && d.fields == 1 && (d.mask ==> d.bits == 1)
        && (!d.mask ==> d.bits == if Widening(i) then 2 * v.Width() else v.Width()))
  }

  lemma {:induction false} VectorVectorAgrees(a: Arithmetic, v: VectorType)
    requires a.Valid() && v.Valid() && a.funct3 == 0
    ensures Agrees(a, v, VectorVector(a, v))
  {
    hide Opcode, Form, Unary, Function, Unmasked, Field, Arithmetic.Encode, VectorType.Eighths;
    ArithmeticFields(a);
  }

  lemma {:induction false} FloatVectorVectorAgrees(a: Arithmetic, v: VectorType)
    requires a.Valid() && v.Valid() && a.funct3 == 1
    ensures Agrees(a, v, FloatVectorVector(a, v))
  {
    hide Opcode, Form, Unary, Function, Unmasked, Field, Arithmetic.Encode, VectorType.Eighths;
    ArithmeticFields(a);
  }

  lemma {:induction false} MultiplyVectorVectorAgrees(a: Arithmetic, v: VectorType)
    requires a.Valid() && v.Valid() && a.funct3 == 2
    ensures Agrees(a, v, MultiplyVectorVector(a, v))
  {
    hide Opcode, Form, Unary, Function, Unmasked, Field, Arithmetic.Encode, VectorType.Eighths;
    ArithmeticFields(a);
  }

  lemma {:induction false} VectorImmediateAgrees(a: Arithmetic, v: VectorType)
    requires a.Valid() && v.Valid() && a.funct3 == 3
    ensures Agrees(a, v, VectorImmediate(a, v))
  {
    hide Opcode, Form, Unary, Function, Unmasked, Field, Arithmetic.Encode, VectorType.Eighths;
    ArithmeticFields(a);
  }

  lemma {:induction false} VectorScalarAgrees(a: Arithmetic, v: VectorType)
    requires a.Valid() && v.Valid() && a.funct3 == 4
    ensures Agrees(a, v, VectorScalar(a, v))
  {
    hide Opcode, Form, Unary, Function, Unmasked, Field, Arithmetic.Encode, VectorType.Eighths;
    ArithmeticFields(a);
  }

  lemma {:induction false} FloatVectorScalarAgrees(a: Arithmetic, v: VectorType)
    requires a.Valid() && v.Valid() && a.funct3 == 5
    ensures Agrees(a, v, FloatVectorScalar(a, v))
  {
    hide Opcode, Form, Unary, Function, Unmasked, Field, Arithmetic.Encode, VectorType.Eighths;
    ArithmeticFields(a);
  }

  lemma {:induction false} MultiplyVectorScalarAgrees(a: Arithmetic, v: VectorType)
    requires a.Valid() && v.Valid() && a.funct3 == 6
    ensures Agrees(a, v, MultiplyVectorScalar(a, v))
  {
    hide Opcode, Form, Unary, Function, Unmasked, Field, Arithmetic.Encode, VectorType.Eighths;
    ArithmeticFields(a);
  }

  /** The checker reads every arithmetic instruction with a vector destination as the tables do. */
  lemma {:induction false} ArithmeticRead(a: Arithmetic, v: VectorType)
    requires a.Valid() && v.Valid()
    ensures Agrees(a, v, ArithmeticDestination(a, v))
  {
    hide ReadAs, Opcode, Widening, VectorVector, FloatVectorVector, MultiplyVectorVector, VectorImmediate, VectorScalar,
      FloatVectorScalar, MultiplyVectorScalar, VectorType.Width;
    match a.funct3
    case 0 => VectorVectorAgrees(a, v);
    case 1 => FloatVectorVectorAgrees(a, v);
    case 2 => MultiplyVectorVectorAgrees(a, v);
    case 3 => VectorImmediateAgrees(a, v);
    case 4 => VectorScalarAgrees(a, v);
    case 5 => FloatVectorScalarAgrees(a, v);
    case 6 => MultiplyVectorScalarAgrees(a, v);
    case _ =>
  }

  lemma {:induction false} LoadRead(l: Transfer, v: VectorType)
    requires l.Valid() && v.Valid() && LoadDestination(l, v).Some?
    ensures var d, i := LoadDestination(l, v).value, l.Encode();
      && ReadAs(i, d) && Opcode(i) == LOAD && Field(i, 29, 3) == l.nf
      && d.bits == (if IndexedMemory(i) then v.Width() else if Form(i) == 0 then 8 else if Form(i) == 5 then 16 else 32)
      && d.fields == (if d.kind == Whole then 1 else l.nf + 1)
  {
    hide Opcode, Form, Unary, Function, Unmasked, Field, Transfer.Encode, VectorType.Eighths, AtLeastOne, MaskMemory,
      WholeMemory, IndexedMemory;
    TransferFields(l);
    assert LOAD != ARITHMETIC && LOAD != STORE;
  }

  /** The facts the comparison rests on. */
  predicate ReadsRight(i: Instruction, v: VectorType, c: Commit, d: Destination) {
    && ReadAs(c.instruction, d) && ElementBits(c) == d.bits
    && (d.fields > 1 ==> Opcode(c.instruction) == LOAD && !WholeMemory(c.instruction)
                         && Field(c.instruction, 29, 3) + 1 == d.fields)
    && (d.fields == 1 && Opcode(c.instruction) == LOAD && !WholeMemory(c.instruction)
        ==> Field(c.instruction, 29, 3) == 0)
    && (Unmasked(c.instruction) <==> i.Vm() == 1)
  }

  lemma {:induction false} WidthOfType(v: VectorType, n: nat)
    requires v.Valid() && n == v.sew
    ensures 8 * Pow2(n) == v.Width() && 8 * Pow2(n + 1) == 2 * v.Width()
  {
    assert Pow2(0) == 1 && Pow2(1) == 2 && Pow2(2) == 4 && Pow2(3) == 8;
  }

  lemma {:induction false} CheckerReadsRight(i: Instruction, v: VectorType, c: Commit, t: Trace)
    requires Reported(i, v, c, t)
    ensures ReadsRight(i, v, c, i.Result(v).value)
  {
    hide Opcode, Form, Unmasked, Field, Unary, Function, ArithmeticDestination, LoadDestination, VectorType.Width,
      Pow2, VectorType.Encode, Arithmetic.Encode, Transfer.Encode;
    TypeFields(v);
    WidthOfType(v, v.sew);
    var d := i.Result(v).value;
    match i
    case Compute(a) =>
      ArithmeticRead(a, v);
      ArithmeticFields(a);
    case Load(l) =>
      LoadRead(l, v);
      TransferFields(l);
  }

  lemma {:induction false} ReportedIsComparable(i: Instruction, v: VectorType, c: Commit, t: Trace)
    requires Reported(i, v, c, t)
    ensures Comparable(c, t) && ElementBits(c) == i.Result(v).value.bits
  {
    hide ElementBits, Instruction.Result, Instruction.Encode, VectorType.Encode, ReadAs;
    CheckerReadsRight(i, v, c, t);
  }

  lemma {:induction false} WholeFields(registers: nat, fields: nat)
    requires 0 < fields <= 8
    ensures registers * fields / fields == registers
  {
    assert fields == 1 || fields == 2 || fields == 3 || fields == 4 || fields == 5 || fields == 6 || fields == 7
      || fields == 8;
  }

  lemma {:induction false} Remainder(g: nat, n: nat)
    requires g < n
    ensures g % n == g
  {
  }

  /** The checker numbers the elements of a field as the standard does. */
  lemma {:induction false} PositionRead(i: Instruction, v: VectorType, c: Commit, t: Trace, group: nat, element: nat)
    requires Reported(i, v, c, t) && Comparable(c, t)
    requires group < t.count && element < PerRegister(c)
    ensures ReadsRight(i, v, c, i.Result(v).value)
    ensures ElementIndex(c, t, group, element) == Position(i.Result(v).value, group, element)
  {
    hide ElementBits, Instruction.Result, Instruction.Encode, VectorType.Encode, ReadAs, Opcode, WholeMemory, Field;
    CheckerReadsRight(i, v, c, t);
    var d := i.Result(v).value;
    if d.fields == 1 {
      assert t.count <= d.perField;
      assert t.count / 1 == t.count;
      Remainder(group, t.count);
      Remainder(group, d.perField);
    } else {
      WholeFields(d.perField, d.fields);
    }
  }

  /** Counting the selected elements one by one is taking the size of their set. */
  lemma {:induction false} SelectedIsCounted(selection: Register, vl: nat)
    requires vl <= 256
    ensures Selected(selection, vl) == CountSelected(selection, vl)
  {
    hide RegisterBit;
    var upTo := set k: nat | k < vl && RegisterBit(selection, k);
    if vl > 0 {
      SelectedIsCounted(selection, vl - 1);
      var before := set k: nat | k < vl - 1 && RegisterBit(selection, k);
      assert upTo == if RegisterBit(selection, vl - 1) then before + {vl - 1} else before;
    }
  }

  /** For every instruction, vtype, mask and element: the checker wants ones exactly where the
      standard allows them, unless it departs there. */
  lemma {:induction false} AgnosticIff(i: Instruction, v: VectorType, c: Commit, t: Trace, rs1: u32, group: nat,
    element: nat)
    requires Reported(i, v, c, t) && Comparable(c, t)
    requires group < t.count && element < PerRegister(c)
    ensures var d, s := i.Result(v).value, SituationOf(i, c, rs1);
      (Agnostic(c, t, group, element) <==> OnesAllowed(d, v, s, group, element)) <==> !Departs(d, v, s, group, element)
  {
    hide ElementBits, Instruction.Result, Instruction.Encode, VectorType.Encode, Opcode, WholeMemory, WholeMove, Field,
      MaskDestination, MaskMemory, MaskIsData, Compress, ScalarInsert, Reduction, Unmasked, ElementIndex, Position,
      CountSelected, Selected, RegisterBit;
    PositionRead(i, v, c, t, group, element);
    IndexBelow256(c, t, group, element);
    TypeFields(v);
    SelectedIsCounted(c.selection, c.before.vl);
  }

  // ----- the comparison as a whole -----

  /** What the standard lets a bit of the destination be, given the reference's: that bit, or
      one where ones are allowed. (The host wants the ones of its core there, where section
      3.4.3 would allow either.) */
  predicate BitAllowed(d: Destination, v: VectorType, s: Situation, actual: Register, expected: Register, group: nat,
    k: nat)
    requires k < 256
  {
    RegisterBit(actual, k) == (OnesAllowed(d, v, s, group, k / d.bits) || RegisterBit(expected, k))
  }

  ghost predicate RegisterAllowed(d: Destination, v: VectorType, s: Situation, actual: Register, expected: Register,
    group: nat)
  {
    forall k :: 0 <= k < 256 ==> BitAllowed(d, v, s, actual, expected, group, k)
  }

  ghost predicate StandardMatch(d: Destination, v: VectorType, s: Situation, t: Trace, dut: seq<Register>,
    registers: seq<Register>)
    requires GroupFits(t) && |dut| == 64 && |registers| == 32
  {
    forall g :: 0 <= g < t.count ==> RegisterAllowed(d, v, s, Physical(dut, t, g), registers[t.base + g], g)
  }

  /** A word of ones but for bit k. */
  function AllBut(n: nat, k: nat): nat {
    if n == 0 then 0 else if k == 0 then 2 * Ones(n - 1) else 1 + 2 * AllBut(n - 1, k - 1)
  }

  lemma {:induction false} BitOfAllBut(n: nat, k: nat, j: nat)
    ensures Bit(AllBut(n, k), j) == (j < n && j != k) && AllBut(n, k) < Pow2(n)
  {
    if n == 0 {
      if j > 0 { BitOfAllBut(0, k, j - 1); }
    } else if k == 0 {
      LowBound(0, n - 1);
      assert AllBut(n, 0) / 2 == Ones(n - 1) && AllBut(n, 0) % 2 == 0;
      if j > 0 { BitOfOnes(n - 1, j - 1); }
    } else {
      assert AllBut(n, k) / 2 == AllBut(n - 1, k - 1) && AllBut(n, k) % 2 == 1;
      if j > 0 { BitOfAllBut(n - 1, k - 1, j - 1); } else { BitOfAllBut(n - 1, k - 1, 0); }
    }
  }

  lemma {:induction false} PowerOfWord()
    ensures Pow2(32) == 0x1_0000_0000
  {
    assert Pow2(8) == 0x100;
    assert Pow2(16) == 0x1_0000;
    assert Pow2(24) == 0x100_0000;
  }

  /** A register of ones but for bit k; of ones only if there is no bit k. */
  function RegisterAllBut(k: nat): Register {
    seq(8, w requires 0 <= w < 8 => WordAllBut(w, k))
  }

  /** Word w of it. */
  function WordAllBut(w: nat, k: nat): u32 {
    PowerOfWord();
    BitOfAllBut(32, if w == k / 32 then k % 32 else 32, 0);
    AllBut(32, if w == k / 32 then k % 32 else 32)
  }

  lemma {:induction false} BitOfRegisterAllBut(k: nat, j: nat)
    requires j < 256
    ensures RegisterBit(RegisterAllBut(k), j) == (j != k)
  {
    hide Bit, AllBut;
    BitOfAllBut(32, if j / 32 == k / 32 then k % 32 else 32, j % 32);
    assert RegisterAllBut(k)[j / 32] == WordAllBut(j / 32, k);
  }

  /** The checker's elements are the standard's, and where it does not depart it wants ones
      where the standard allows them. */
  ghost predicate Related(d: Destination, v: VectorType, s: Situation, c: Commit, t: Trace)
    requires Comparable(c, t)
  {
    && ElementBits(c) == d.bits
    && forall g, e :: 0 <= g < t.count && 0 <= e < 256 / d.bits ==>
         ((Agnostic(c, t, g, e) <==> OnesAllowed(d, v, s, g, e)) <==> !Departs(d, v, s, g, e))
  }

  lemma {:induction false} ReportedIsRelated(i: Instruction, v: VectorType, c: Commit, t: Trace, rs1: u32)
    requires Reported(i, v, c, t) && Comparable(c, t)
    ensures Related(i.Result(v).value, v, SituationOf(i, c, rs1), c, t)
  {
    hide ElementBits, Agnostic, OnesAllowed, Departs, SituationOf, Instruction.Result, Instruction.Encode,
      VectorType.Encode;
    ReportedIsComparable(i, v, c, t);
    forall g, e | 0 <= g < t.count && 0 <= e < 256 / i.Result(v).value.bits
      ensures (Agnostic(c, t, g, e) <==> OnesAllowed(i.Result(v).value, v, SituationOf(i, c, rs1), g, e))
        <==> !Departs(i.Result(v).value, v, SituationOf(i, c, rs1), g, e)
    {
      AgnosticIff(i, v, c, t, rs1, g, e);
    }
  }

  ghost predicate DepartsNowhere(d: Destination, v: VectorType, s: Situation, t: Trace) {
    forall g, e :: 0 <= g < t.count && 0 <= e < 256 / d.bits ==> !Departs(d, v, s, g, e)
  }

  /** The register comparison is that of the standard for all contents of the registers if and
      only if it departs at no element of the destination. */
  lemma {:induction false} ComparisonIsStandardIff(i: Instruction, v: VectorType, c: Commit, t: Trace, rs1: u32)
    requires Reported(i, v, c, t) && Comparable(c, t) && GroupFits(t)
    ensures var d, s := i.Result(v).value, SituationOf(i, c, rs1);
      (forall dut: seq<Register>, registers: seq<Register> | |dut| == 64 && |registers| == 32 ::
         StandardMatch(d, v, s, t, dut, registers) <==> RegistersMatch(c, t, dut, registers, t.count))
      <==> DepartsNowhere(d, v, s, t)
  {
    hide ElementBits, StandardMatch, RegistersMatch, Departs, SituationOf, Instruction.Result, Instruction.Encode,
      VectorType.Encode, Related;
    var d, s := i.Result(v).value, SituationOf(i, c, rs1);
    ReportedIsRelated(i, v, c, t, rs1);
    if DepartsNowhere(d, v, s, t) {
      forall dut: seq<Register>, registers: seq<Register> | |dut| == 64 && |registers| == 32
        ensures StandardMatch(d, v, s, t, dut, registers) <==> RegistersMatch(c, t, dut, registers, t.count)
      {
        Alike(d, v, s, c, t, dut, registers);
      }
    } else {
      var g, e :| 0 <= g < t.count && 0 <= e < 256 / d.bits && Departs(d, v, s, g, e);
      Unlike(d, v, s, c, t, g, e);
    }
  }

  lemma {:induction false} Alike(d: Destination, v: VectorType, s: Situation, c: Commit, t: Trace, dut: seq<Register>,
    registers: seq<Register>)
    requires Comparable(c, t) && Related(d, v, s, c, t) && GroupFits(t) && |dut| == 64 && |registers| == 32
    requires DepartsNowhere(d, v, s, t)
    ensures StandardMatch(d, v, s, t, dut, registers) <==> RegistersMatch(c, t, dut, registers, t.count)
  {
    hide ElementBits, Agnostic, OnesAllowed, Departs, RegisterBit, Physical;
    forall g | 0 <= g < t.count
      ensures RegisterAllowed(d, v, s, Physical(dut, t, g), registers[t.base + g], g)
        <==> BitsMatch(c, t, Physical(dut, t, g), registers[t.base + g], g)
    {
      var actual, expected := Physical(dut, t, g), registers[t.base + g];
      forall k | 0 <= k < 256
        ensures BitAllowed(d, v, s, actual, expected, g, k) <==> BitMatches(c, t, actual, expected, g, k)
      {
        BitLiesInElement(d.bits, k);
      }
    }
  }

  /** A core whose registers are all ones, beside a reference whose registers are, but for the
      first bit of a departing element: the checker accepts, the standard does not. */
  lemma {:induction false} Unlike(d: Destination, v: VectorType, s: Situation, c: Commit, t: Trace, group: nat,
    element: nat)
    requires Comparable(c, t) && Related(d, v, s, c, t) && GroupFits(t)
    requires group < t.count && element < 256 / d.bits && Departs(d, v, s, group, element)
    ensures exists dut: seq<Register>, registers: seq<Register> | |dut| == 64 && |registers| == 32 ::
      RegistersMatch(c, t, dut, registers, t.count) && !StandardMatch(d, v, s, t, dut, registers)
  {
    hide ElementBits, Agnostic, OnesAllowed, Departs, RegisterBit, RegisterAllBut, Physical;
    var k := element * d.bits;
    SameWord(d.bits, element, 0);
    InElement(d.bits, element, 0);
    DepartingIsWritten(d, v, s, group, element);
    var ones: Register, hole: Register := RegisterAllBut(256), RegisterAllBut(k);
    var dut: seq<Register> := seq(64, _ => ones);
    var registers: seq<Register> := seq(32, n => if n == t.base + group then hole else ones);
    forall g | 0 <= g < t.count ensures BitsMatch(c, t, Physical(dut, t, g), registers[t.base + g], g) {
      SameEverywhere(dut, t, g, ones);
      var expected := registers[t.base + g];
      forall j | 0 <= j < 256 ensures BitMatches(c, t, ones, expected, g, j) {
        BitLiesInElement(d.bits, j);
        BitOfRegisterAllBut(256, j);
        BitOfRegisterAllBut(k, j);
      }
    }
    BitOfRegisterAllBut(256, k);
    BitOfRegisterAllBut(k, k);
    SameEverywhere(dut, t, group, ones);
    assert !BitAllowed(d, v, s, ones, registers[t.base + group], group, k);
    assert !RegisterAllowed(d, v, s, Physical(dut, t, group), registers[t.base + group], group);
  }

  lemma {:induction false} SameEverywhere(dut: seq<Register>, t: Trace, g: nat, r: Register)
    requires |dut| == 64 && forall n :: 0 <= n < 64 ==> dut[n] == r
    ensures Physical(dut, t, g) == r
  {
    LowBound(Shr(t.physical, g * 6), 6);
    assert Pow2(6) == 64 by { assert Pow2(3) == 8; }
  }

  lemma {:induction false} DepartingIsWritten(d: Destination, v: VectorType, s: Situation, group: nat, element: nat)
    requires Departs(d, v, s, group, element)
    ensures !OnesAllowed(d, v, s, group, element)
  {
    hide Position, Enabled;
  }

  /** In an element where the checker departs it accepts nothing but ones. */
  lemma {:induction false} OnlyOnesPass(d: Destination, v: VectorType, s: Situation, c: Commit, t: Trace,
    actual: Register, expected: Register, group: nat, element: nat)
    requires Comparable(c, t) && Related(d, v, s, c, t) && group < t.count && element < 256 / d.bits
    requires Departs(d, v, s, group, element) && BitsMatch(c, t, actual, expected, group)
    ensures Slice(actual, d.bits, element) == Ones(d.bits)
  {
    hide ElementBits, Agnostic, OnesAllowed, Departs, Slice, Ones;
    DepartingIsWritten(d, v, s, group, element);
    BitsDecideElements(c, t, actual, expected, group, element);
  }

  /** The masked sum over the elements that v0 enables: vredsum.vs with vm clear. */
  function MaskedSum(vs2: nat, vs1: nat, vd: nat): Instruction { Compute(Arithmetic(0, 0, vs2, vs1, 2, vd)) }

  /** vslideup.vi with vm clear. */
  function MaskedSlide(offset: nat, vs2: nat, vd: nat): Instruction { Compute(Arithmetic(0x0e, 0, vs2, offset, 3, vd)) }

  lemma {:induction false} FirstPosition(d: Destination)
    ensures Position(d, 0, 0) == 0
  {
    Remainder(0, d.perField);
  }

  lemma {:induction false} SumResult(vs2: nat, vs1: nat, vd: nat, v: VectorType)
    requires vs2 < 32 && vs1 < 32 && vd < 32 && v.Valid()
    ensures var i := MaskedSum(vs2, vs1, vd); i.Valid() && i.Vm() == 0 && i.Result(v) == Some(Single(v.Width()))
  {
  }

  /** Element 0 of a reduction and of a slide, masked off and under mask-agnostic. */
  lemma {:induction false} ElementZeroDeparts(d: Destination, v: VectorType, s: Situation)
    requires v.maskAgnostic && !Enabled(s, 0) && s.vstart == 0 < s.vl
    requires d.kind == First || (d.kind == Slide && s.offset > 0)
    ensures Departs(d, v, s, 0, 0) && ClassOf(d, s, 0) == if d.kind == First then Active else Unchanged
  {
    hide Enabled, Position;
    FirstPosition(d);
  }

  lemma {:induction false} SituationAtZero(i: Instruction, c: Commit)
    requires 0 < c.before.vl <= 256 && c.before.vstart == 0 && i.Vm() == 0 && !RegisterBit(c.mask, 0)
    ensures var s := SituationOf(i, c, 0); !Enabled(s, 0) && s.vstart == 0 < s.vl
    ensures i.Compute? && i.a.funct3 == 3 ==> SituationOf(i, c, 0).offset == i.a.vs1
  {
    hide RegisterBit, Selected;
  }

  /** A masked sum with element 0 masked off, under mask-agnostic: the standard wants the sum in
      element 0 of vd, the checker nothing but ones. The correct sum is refused unless it is
      ones, and if the tail is agnostic too, ones are accepted whatever the sum is. */
  lemma {:induction false} MaskedSumIsRefused(vs2: nat, vs1: nat, vd: nat, v: VectorType, c: Commit, t: Trace,
    actual: Register, expected: Register)
    requires vs2 < 32 && vs1 < 32 && vd < 32 && Reported(MaskedSum(vs2, vs1, vd), v, c, t) && Comparable(c, t)
    requires c.before.vl > 0 && c.before.vstart == 0 && v.maskAgnostic && !RegisterBit(c.mask, 0)
    ensures ClassOf(Single(v.Width()), SituationOf(MaskedSum(vs2, vs1, vd), c, 0), 0) == Active
    ensures BitsMatch(c, t, actual, expected, 0) ==> Slice(actual, v.Width(), 0) == Ones(v.Width())
    ensures v.tailAgnostic ==> BitsMatch(c, t, RegisterAllBut(256), expected, 0)
  {
    hide ElementBits, Agnostic, RegisterBit, Instruction.Encode, Instruction.Result, VectorType.Encode, RegisterAllBut,
      BitsMatch, SituationOf, ClassOf, Departs, Related, Slice, Ones, Enabled;
    var i := MaskedSum(vs2, vs1, vd);
    var d, s := Single(v.Width()), SituationOf(i, c, 0);
    SumResult(vs2, vs1, vd, v);
    SituationAtZero(i, c);
    ElementZeroDeparts(d, v, s);
    ReportedIsRelated(i, v, c, t, 0);
    if BitsMatch(c, t, actual, expected, 0) { OnlyOnesPass(d, v, s, c, t, actual, expected, 0, 0); }
    if v.tailAgnostic { OnesPass(d, v, s, c, t, expected); }
  }

  /** All elements of a reduction that departs in element 0 may be ones for the checker. */
  lemma {:induction false} OnesPass(d: Destination, v: VectorType, s: Situation, c: Commit, t: Trace,
    expected: Register)
    requires Comparable(c, t) && Related(d, v, s, c, t) && Departs(d, v, s, 0, 0)
    requires d.kind == First && d.perField == 1 && v.tailAgnostic && s.vstart == 0
    ensures BitsMatch(c, t, RegisterAllBut(256), expected, 0)
  {
    hide ElementBits, Agnostic, RegisterBit, RegisterAllBut, Enabled;
    var ones := RegisterAllBut(256);
    assert forall e: nat :: Position(d, 0, e) == e;
    forall k | 0 <= k < 256 ensures BitMatches(c, t, ones, expected, 0, k) {
      BitLiesInElement(d.bits, k);
      BitOfRegisterAllBut(256, k);
      assert OnesAllowed(d, v, s, 0, k / d.bits) <==> k / d.bits != 0;
    }
  }

  lemma {:induction false} SlideResult(offset: nat, vs2: nat, vd: nat, v: VectorType)
    requires 0 < offset < 32 && vs2 < 32 && vd < 32 && v.Valid()
    ensures var i := MaskedSlide(offset, vs2, vd); i.Valid() && i.Vm() == 0 && i.Result(v) == Some(Plain(Slide, v))
  {
  }

  /** Below its offset a slide leaves its destination alone; masked off and under
      mask-agnostic, the checker accepts nothing but ones there. */
  lemma {:induction false} UnchangedElementIsRefused(offset: nat, vs2: nat, vd: nat, v: VectorType, c: Commit, t: Trace,
    actual: Register, expected: Register)
    requires 0 < offset < 32 && vs2 < 32 && vd < 32 && Reported(MaskedSlide(offset, vs2, vd), v, c, t)
    requires Comparable(c, t)
    requires c.before.vl > 0 && c.before.vstart == 0 && v.maskAgnostic && !RegisterBit(c.mask, 0)
    ensures ClassOf(Plain(Slide, v), SituationOf(MaskedSlide(offset, vs2, vd), c, 0), 0) == Unchanged
    ensures BitsMatch(c, t, actual, expected, 0) ==> Slice(actual, v.Width(), 0) == Ones(v.Width())
  {
    hide ElementBits, Agnostic, RegisterBit, Instruction.Encode, Instruction.Result, VectorType.Encode, BitsMatch,
      SituationOf, ClassOf, Departs, Related, Slice, Ones, Enabled;
    var i := MaskedSlide(offset, vs2, vd);
    SlideResult(offset, vs2, vd, v);
    SituationAtZero(i, c);
    ElementZeroDeparts(Plain(Slide, v), v, SituationOf(i, c, 0));
    ReportedIsRelated(i, v, c, t, 0);
    if BitsMatch(c, t, actual, expected, 0) {
      OnlyOnesPass(Plain(Slide, v), v, SituationOf(i, c, 0), c, t, actual, expected, 0, 0);
    }
  }
}
