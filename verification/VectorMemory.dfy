/** What the bytes that the checker collects from the store ports (src/main.cc:143-176) do to
    memory: each row is a little-endian value of 256 bits with a byte mask, at an address of its
    own or with an address for each element, and later bytes overwrite earlier ones. */
module VectorMemory {
  import opened Words
  import opened Memory
  import opened VectorStores

  // ----- the value of a row -----

  /** The words of a row as one number, the first word lowest. */
  function WordsValue(s: seq<u32>): nat {
    if s == [] then 0 else s[0] + 0x1_0000_0000 * WordsValue(s[1..])
  }

  function RowValue(p: Ports, row: nat): nat
    requires p.Shaped() && row < 8
  {
    WordsValue(p.data[8 * row..8 * row + 8])
  }

  lemma {:induction false} ByteOfSum(x: nat, y: nat, n: nat, k: nat)
    requires x < Pow256(n)
    ensures ByteAt(x + Pow256(n) * y, k) == if k < n then ByteAt(x, k) else ByteAt(y, k - n)
  {
    if n > 0 {
      var p := Pow256(n - 1);
      assert Pow256(n) * y == 256 * (p * y) by { assert (256 * p) * y == 256 * (p * y); }
      assert (x + Pow256(n) * y) / 256 == x / 256 + p * y && (x + Pow256(n) * y) % 256 == x % 256;
      if k > 0 { ByteOfSum(x / 256, y, n - 1, k - 1); }
    }
  }

  lemma {:induction false} ByteOfWords(s: seq<u32>, w: nat, b: nat)
    requires w < |s| && b < 4
    ensures ByteAt(WordsValue(s), 4 * w + b) == ByteAt(s[w], b)
  {
    Pow256Values();
    ByteOfSum(s[0], WordsValue(s[1..]), 4, 4 * w + b);
    if w > 0 { ByteOfWords(s[1..], w - 1, b); }
  }

  lemma {:induction false} ByteOfRow(p: Ports, row: nat, k: nat)
    requires p.Shaped() && row < 8 && k < 32
    ensures ByteAt(RowValue(p, row), k) == ByteAt(p.data[row * 8 + k / 4], k % 4)
  {
    ByteOfWords(p.data[8 * row..8 * row + 8], k / 4, k % 4);
  }

  // ----- the order of the slots -----

  function RegisterOf(t: StoreTrace, x: Slot): nat { x.0 % t.FieldRegisters() }
  function FieldOf(t: StoreTrace, x: Slot): nat {
    QuotientIsNat(x.0, t.FieldRegisters());
    x.0 / t.FieldRegisters()
  }
  function ElementOf(t: StoreTrace, x: Slot): nat {
    QuotientIsNat(x.1, t.ElementBytes());
    x.1 / t.ElementBytes()
  }

  /** The order in which slots are drained: by row and byte, or for scattered stores by
      register of the field, element, field and byte of the element. */
  predicate Earlier(t: StoreTrace, x: Slot, y: Slot) {
    if !t.scattered then x.0 < y.0 || (x.0 == y.0 && x.1 < y.1)
    else
      RegisterOf(t, x) < RegisterOf(t, y)
      || (RegisterOf(t, x) == RegisterOf(t, y)
          && (ElementOf(t, x) < ElementOf(t, y)
              || (ElementOf(t, x) == ElementOf(t, y)
                  && (FieldOf(t, x) < FieldOf(t, y) || (FieldOf(t, x) == FieldOf(t, y) && x.1 < y.1)))))
  }

  predicate AllEarlier(t: StoreTrace, a: seq<Slot>, b: seq<Slot>) {
    forall i, j :: 0 <= i < |a| && 0 <= j < |b| ==> Earlier(t, a[i], b[j])
  }

  predicate InOrder(t: StoreTrace, s: seq<Slot>) {
    forall i, j :: 0 <= i < j < |s| ==> Earlier(t, s[i], s[j])
  }

  lemma {:induction false} OrderConcat(t: StoreTrace, a: seq<Slot>, b: seq<Slot>)
    requires InOrder(t, a) && InOrder(t, b) && AllEarlier(t, a, b)
    ensures InOrder(t, a + b)
  {
    hide Earlier;
    var s := a + b;
    forall i, j | 0 <= i < j < |s| ensures Earlier(t, s[i], s[j]) {
      if j < |a| {
        assert s[i] == a[i] && s[j] == a[j];
      } else if i < |a| {
        assert s[i] == a[i] && s[j] == b[j - |a|];
      } else {
        assert s[i] == b[i - |a|] && s[j] == b[j - |a|];
      }
    }
  }

  lemma {:induction false} IsVisited(s: seq<Slot>, i: nat)
    requires i < |s|
    ensures Times(s, s[i]) > 0
  {
    assert s[i] in multiset(s);
  }

  lemma {:induction false} RunAt(g: nat, begin: nat, end: nat, i: nat)
    requires i < |ByteRun(g, begin, end)|
    ensures ByteRun(g, begin, end)[i] == (g, begin + i) && begin + i < end
    decreases i
  {
    if i > 0 { RunAt(g, begin + 1, end, i - 1); }
  }

  /** The bytes of an element belong to it, and later bytes to later elements. */
  lemma {:induction false} ElementOfByte(t: StoreTrace, lane: nat, b: nat)
    requires t.eew <= 5 && AtElement(t, lane) && lane <= b
    ensures t.ElementBytes() > 0
    ensures b < lane + t.ElementBytes() ==> b / t.ElementBytes() == lane / t.ElementBytes()
    ensures b >= lane + t.ElementBytes() ==> b / t.ElementBytes() > lane / t.ElementBytes()
  {
    hide StoreTrace.ElementBytes;
    ElementSizes(t);
    ByteInElement(t.ElementBytes(), lane, b);
  }

  lemma {:induction false} ByteInElement(e: nat, lane: nat, b: nat)
    requires e in {1, 2, 4, 8, 16, 32} && lane <= 32 && (32 - lane) % e == 0 && lane <= b
    ensures b < lane + e ==> b / e == lane / e
    ensures b >= lane + e ==> b / e > lane / e
  {
    if e == 1 { assert b / 1 == b && lane / 1 == lane; }
    else if e == 2 { assert lane % 2 == 0; }
    else if e == 4 { assert lane % 4 == 0; }
    else if e == 8 { assert lane % 8 == 0; }
    else if e == 16 { assert lane % 16 == 0; }
    else { assert lane % 32 == 0; }
  }

  lemma {:induction false} LinearRunInOrder(t: StoreTrace, g: nat, begin: nat, end: nat)
    requires !t.scattered
    ensures InOrder(t, ByteRun(g, begin, end))
  {
    var s := ByteRun(g, begin, end);
    forall i, j | 0 <= i < j < |s| ensures Earlier(t, s[i], s[j]) {
      RunAt(g, begin, end, i);
      RunAt(g, begin, end, j);
    }
  }

  lemma {:induction false} LinearInOrder(t: StoreTrace, group: nat)
    requires !t.scattered && group <= t.count
    ensures InOrder(t, LinearLoop(t, group))
    decreases t.count - group
  {
    hide ByteRun;
    if group < t.count {
      var run, rest := ByteRun(group, 0, 32), LinearLoop(t, group + 1);
      LinearRunInOrder(t, group, 0, 32);
      LinearInOrder(t, group + 1);
      forall i, j | 0 <= i < |run| && 0 <= j < |rest| ensures Earlier(t, run[i], rest[j]) {
        RunAt(group, 0, 32, i);
        IsVisited(rest, j);
        LinearLoopVisits(t, group + 1, rest[j]);
      }
      OrderConcat(t, run, rest);
    }
  }

  lemma {:induction false} FieldsInOrder(t: StoreTrace, reg: nat, lane: nat, field: nat)
    requires t.scattered && t.eew <= 5 && reg < t.FieldRegisters() && lane < 32 && AtElement(t, lane)
    ensures InOrder(t, FieldLoop(t, reg, lane, field))
    decreases t.Fields() - field
  {
    hide ByteRun, StoreTrace.ElementBytes, StoreTrace.FieldRegisters, AtElement, OneIf;
    if field < t.Fields() {
      var e, g := t.ElementBytes(), field * t.FieldRegisters() + reg;
      var run, rest := ByteRun(g, lane, lane + e), FieldLoop(t, reg, lane, field + 1);
      SameGroup(t.FieldRegisters(), g, field, reg);
      forall i, j | 0 <= i < j < |run| ensures Earlier(t, run[i], run[j]) {
        RunAt(g, lane, lane + e, i);
        RunAt(g, lane, lane + e, j);
        ElementOfByte(t, lane, lane + i);
        ElementOfByte(t, lane, lane + j);
      }
      FieldsInOrder(t, reg, lane, field + 1);
      forall i, j | 0 <= i < |run| && 0 <= j < |rest| ensures Earlier(t, run[i], rest[j]) {
        RunAt(g, lane, lane + e, i);
        InLaterField(t, reg, lane, field + 1, j);
        ElementOfByte(t, lane, lane + i);
        ElementOfByte(t, lane, rest[j].1);
      }
      OrderConcat(t, run, rest);
    }
  }

  lemma {:induction false} InLaterField(t: StoreTrace, reg: nat, lane: nat, field: nat, j: nat)
    requires reg < t.FieldRegisters() && j < |FieldLoop(t, reg, lane, field)|
    ensures var x := FieldLoop(t, reg, lane, field)[j];
      RegisterOf(t, x) == reg && FieldOf(t, x) >= field && lane <= x.1 < lane + t.ElementBytes()
  {
    hide FieldLoop, StoreTrace.ElementBytes, StoreTrace.FieldRegisters;
    var s := FieldLoop(t, reg, lane, field);
    IsVisited(s, j);
    FieldLoopVisits(t, reg, lane, field, s[j]);
  }

  lemma {:induction false} InLaterElement(t: StoreTrace, reg: nat, lane: nat, j: nat)
    requires t.eew <= 5 && reg < t.FieldRegisters() && AtElement(t, lane) && j < |ByteLoop(t, reg, lane)|
    ensures var x := ByteLoop(t, reg, lane)[j]; RegisterOf(t, x) == reg && lane <= x.1 < 32
  {
    hide ByteLoop, StoreTrace.ElementBytes, StoreTrace.FieldRegisters;
    var s := ByteLoop(t, reg, lane);
    IsVisited(s, j);
    ByteLoopVisits(t, reg, lane, s[j]);
  }

  lemma {:induction false} BytesInOrder(t: StoreTrace, reg: nat, lane: nat)
    requires t.scattered && t.eew <= 5 && reg < t.FieldRegisters() && AtElement(t, lane)
    ensures InOrder(t, ByteLoop(t, reg, lane))
    decreases 32 - lane
  {
    hide FieldLoop, StoreTrace.ElementBytes, StoreTrace.FieldRegisters, AtElement;
    if lane < 32 {
      var e := t.ElementBytes();
      ElementFits(t, lane);
      var first, rest := FieldLoop(t, reg, lane, 0), ByteLoop(t, reg, lane + e);
      FieldsInOrder(t, reg, lane, 0);
      BytesInOrder(t, reg, lane + e);
      forall i, j | 0 <= i < |first| && 0 <= j < |rest| ensures Earlier(t, first[i], rest[j]) {
        InLaterField(t, reg, lane, 0, i);
        InLaterElement(t, reg, lane + e, j);
        ElementOfByte(t, lane, first[i].1);
        ElementOfByte(t, lane, rest[j].1);
      }
      OrderConcat(t, first, rest);
    }
  }

  lemma {:induction false} RegistersInOrder(t: StoreTrace, reg: nat)
    requires t.scattered && t.eew <= 5
    ensures InOrder(t, RegisterLoop(t, reg))
    decreases t.FieldRegisters() - reg
  {
    hide ByteLoop, StoreTrace.ElementBytes, StoreTrace.FieldRegisters, AtElement;
    if reg < t.FieldRegisters() {
      FirstElement(t);
      var first, rest := ByteLoop(t, reg, 0), RegisterLoop(t, reg + 1);
      BytesInOrder(t, reg, 0);
      RegistersInOrder(t, reg + 1);
      forall i, j | 0 <= i < |first| && 0 <= j < |rest| ensures Earlier(t, first[i], rest[j]) {
        InLaterElement(t, reg, 0, i);
        IsVisited(rest, j);
        RegisterLoopVisits(t, reg + 1, rest[j]);
      }
      OrderConcat(t, first, rest);
    }
  }

  /** The slots are visited in this order. */
  lemma {:induction false} VisitsInOrder(t: StoreTrace)
    requires t.Valid() && t.eew <= 5
    ensures InOrder(t, Visits(t))
  {
    hide LinearLoop, RegisterLoop, InOrder;
    if t.scattered { RegistersInOrder(t, 0); } else { LinearInOrder(t, 0); }
  }

  // ----- the last slot wins -----

  predicate Covers(p: Ports, t: StoreTrace, x: Slot, a: u32)
    requires p.Shaped() && t.firstGroup + x.0 < 8 && x.1 < 32 && t.eew <= 5
  {
    Bit(p.masks[t.firstGroup + x.0], x.1) && SlotAddress(p, t, x) == a
  }

  predicate NoneCovers(p: Ports, t: StoreTrace, s: seq<Slot>, from: nat, a: u32)
    requires p.Shaped() && t.eew <= 5 && SlotsInside(t, s)
  {
    forall i :: from <= i < |s| ==> !Covers(p, t, s[i], a)
  }

  lemma {:induction false} FinalConcat(x: seq<Effect>, y: seq<Effect>, a: u32)
    ensures FinalByte(x + y, a) == if FinalByte(y, a).Some? then FinalByte(y, a) else FinalByte(x, a)
  {
    if y == [] {
      assert x + y == x;
    } else {
      var n := |y| - 1;
      assert (x + y)[..|x + y| - 1] == x + y[..n];
      FinalConcat(x, y[..n], a);
    }
  }

  lemma {:induction false} FinalOfSlot(p: Ports, t: StoreTrace, x: Slot, a: u32)
    requires p.Shaped() && t.firstGroup + x.0 < 8 && x.1 < 32 && t.eew <= 5
    ensures FinalByte(SlotEffect(p, t, x), a)
      == if Covers(p, t, x, a) then Some(ByteAt(RowValue(p, t.firstGroup + x.0), x.1)) else None
  {
    hide SlotAddress, RowValue;
    ByteOfRow(p, t.firstGroup + x.0, x.1);
    if Bit(p.masks[t.firstGroup + x.0], x.1) {
      var b := ByteAt(p.data[(t.firstGroup + x.0) * 8 + x.1 / 4], x.1 % 4);
      assert SlotEffect(p, t, x) == [(SlotAddress(p, t, x), b)];
      assert SlotEffect(p, t, x)[..0] == [];
    }
  }

  lemma {:induction false} FinalOfSlots(p: Ports, t: StoreTrace, s: seq<Slot>, a: u32, i: nat)
    requires p.Shaped() && t.eew <= 5 && SlotsInside(t, s) && i <= |s|
    requires NoneCovers(p, t, s, if i < |s| then i + 1 else 0, a) && (i < |s| ==> Covers(p, t, s[i], a))
    ensures FinalByte(Gather(p, t, s), a)
      == if i < |s| then Some(ByteAt(RowValue(p, t.firstGroup + s[i].0), s[i].1)) else None
    decreases |s|
  {
    hide SlotEffect, Covers, RowValue;
    if s != [] {
      FinalConcat(SlotEffect(p, t, s[0]), Gather(p, t, s[1..]), a);
      FinalOfSlot(p, t, s[0], a);
      FinalOfSlots(p, t, s[1..], a, if i == 0 then |s| - 1 else i - 1);
    }
  }

  lemma {:induction false} FindSlot(s: seq<Slot>, x: Slot) returns (i: nat)
    requires Times(s, x) > 0
    ensures i < |s| && s[i] == x
  {
    assert x in s;
    i :| 0 <= i < |s| && s[i] == x;
  }

  /** Draining leaves at an address the byte of the last slot that stores to it. */
  lemma {:induction false} LastSlotWins(p: Ports, t: StoreTrace, words: WordMap, x: Slot, a: u32)
    requires p.Shaped() && t.Valid() && t.eew <= 5 && x.0 < t.count && x.1 < 32 && Covers(p, t, x, a)
    requires forall y: Slot :: y.0 < t.count && y.1 < 32 && Earlier(t, x, y) ==> !Covers(p, t, y, a)
    ensures Peek(Drain(words, Effects(p, t)), a) == ByteAt(RowValue(p, t.firstGroup + x.0), x.1)
  {
    hide Visits, Covers, Earlier, RowValue, Times, Gather, SlotsInside, Drain, Peek;
    var s := Visits(t);
    EverySlotVisitedOnce(t, x);
    var i := FindSlot(s, x);
    VisitsInside(t);
    VisitsInOrder(t);
    Inside(t, s);
    forall j | i + 1 <= j < |s| ensures !Covers(p, t, s[j], a) {
      IsVisited(s, j);
      EverySlotVisitedOnce(t, s[j]);
    }
    FinalOfSlots(p, t, s, a, i);
    PeekDrain(words, Effects(p, t), a);
  }

  lemma {:induction false} Inside(t: StoreTrace, s: seq<Slot>)
    requires SlotsInside(t, s)
    ensures forall i :: 0 <= i < |s| ==> t.firstGroup + s[i].0 < 8 && s[i].1 < 32
  {
  }

  /** An address that no slot stores to keeps its byte. */
  lemma {:induction false} NoSlotKeeps(p: Ports, t: StoreTrace, words: WordMap, a: u32)
    requires p.Shaped() && t.Valid() && t.eew <= 5
    requires forall y: Slot :: y.0 < t.count && y.1 < 32 ==> !Covers(p, t, y, a)
    ensures Peek(Drain(words, Effects(p, t)), a) == Peek(words, a)
  {
    hide Visits, Covers, RowValue, Times, Gather, SlotsInside, Drain, Peek;
    var s := Visits(t);
    VisitsInside(t);
    Inside(t, s);
    forall j | 0 <= j < |s| ensures !Covers(p, t, s[j], a) {
      IsVisited(s, j);
      EverySlotVisitedOnce(t, s[j]);
    }
    FinalOfSlots(p, t, s, a, |s|);
    PeekDrain(words, Effects(p, t), a);
  }

  // ----- linear stores -----

  /** Byte a lies in the 32 bytes from the row's address on, and its lane is masked in. */
  predicate RowCovers(p: Ports, row: nat, a: u32)
    requires p.Shaped() && row < 8
  {
    var d := (a - p.addresses[row]) % 0x1_0000_0000;
    d < 32 && Bit(p.masks[row], d)
  }

  predicate GroupCovers(p: Ports, t: StoreTrace, g: nat, a: u32)
    requires p.Shaped() && t.firstGroup + g < 8
  {
    RowCovers(p, t.firstGroup + g, a)
  }

  lemma {:induction false} LinearCovers(p: Ports, t: StoreTrace, x: Slot, a: u32)
    requires p.Shaped() && t.firstGroup + x.0 < 8 && x.1 < 32 && t.eew <= 5 && !t.scattered
    ensures Covers(p, t, x, a) <==> RowCovers(p, t.firstGroup + x.0, a)
                                    && x.1 == (a - p.addresses[t.firstGroup + x.0]) % 0x1_0000_0000
  {
    hide Bit;
    AtDistance(p.addresses[t.firstGroup + x.0], a, x.1);
  }

  /** After a linear store every address holds the byte of the last row that covers it: byte d of
      the row's little-endian value for the address d above the row's. An address that no row
      covers is unchanged. */
  lemma {:induction false} LinearStoreLands(p: Ports, t: StoreTrace, words: WordMap, group: nat, a: u32)
    requires p.Shaped() && t.Valid() && t.eew <= 5 && !t.scattered && group <= t.count
    requires group < t.count ==> GroupCovers(p, t, group, a)
    requires forall g :: (if group < t.count then group + 1 else 0) <= g < t.count ==>
      !GroupCovers(p, t, g, a)
    ensures Peek(Drain(words, Effects(p, t)), a)
      == if group == t.count then Peek(words, a)
         else ByteAt(RowValue(p, t.firstGroup + group), (a - p.addresses[t.firstGroup + group]) % 0x1_0000_0000)
  {
    hide Covers, RowCovers, RowValue, Peek, Drain, Effects, StoreTrace.Valid;
    GroupsInside(t);
    forall y: Slot | y.0 < t.count && y.1 < 32
      ensures Covers(p, t, y, a) ==> group < t.count && y.0 <= group
      ensures Covers(p, t, y, a) && y.0 == group ==> y.1 == (a - p.addresses[t.firstGroup + group]) % 0x1_0000_0000
    {
      LinearCovers(p, t, y, a);
      assert GroupCovers(p, t, y.0, a) <==> RowCovers(p, t.firstGroup + y.0, a);
    }
    if group == t.count {
      NoSlotKeeps(p, t, words, a);
    } else {
      RowCoversNear(p, t.firstGroup + group, a);
      var x: Slot := (group, (a - p.addresses[t.firstGroup + group]) % 0x1_0000_0000);
      LinearCovers(p, t, x, a);
      LastSlotWins(p, t, words, x, a);
    }
  }

  lemma {:induction false} GroupsInside(t: StoreTrace)
    requires t.Valid()
    ensures t.firstGroup + t.count <= 8
  {
  }

  lemma {:induction false} RowCoversNear(p: Ports, row: nat, a: u32)
    requires p.Shaped() && row < 8 && RowCovers(p, row, a)
    ensures (a - p.addresses[row]) % 0x1_0000_0000 < 32
  {
  }

  // ----- scattered stores -----

  /** The bytes of element e of a row. */
  function ElementData(p: Ports, row: nat, size: nat, e: nat): (data: seq<byte>)
    requires p.Shaped() && row < 8 && (e + 1) * size <= 32
    ensures |data| == size
  {
    assert e * size + size == (e + 1) * size;
    Split(RowValue(p, row), 32)[e * size..e * size + size]
  }

  /** Byte j of element e of this group is masked in and goes to a: j above the address that the
      element has of its own. */
  predicate ElementCovers(p: Ports, t: StoreTrace, g: nat, e: nat, j: nat, a: u32)
    requires p.Shaped() && t.firstGroup + g < 8 && t.eew <= 5
  {
    var size := t.ElementBytes();
    && j < size && e * size + j < 32 && Bit(p.masks[t.firstGroup + g], e * size + j)
    && a == (p.elements[t.firstGroup + g][e * size] + j) % 0x1_0000_0000
  }

  lemma {:induction false} ScatteredCovers(p: Ports, t: StoreTrace, g: nat, e: nat, j: nat, a: u32)
    requires p.Shaped() && t.firstGroup + g < 8 && t.eew <= 5 && t.scattered
    requires j < t.ElementBytes() && e * t.ElementBytes() + j < 32
    ensures Covers(p, t, (g, e * t.ElementBytes() + j), a) <==> ElementCovers(p, t, g, e, j, a)
    ensures ElementOf(t, (g, e * t.ElementBytes() + j)) == e
  {
    hide Bit, StoreTrace.ElementBytes;
    ElementSizes(t);
    Quotient(e, t.ElementBytes(), j);
  }

  /** Element e2 of group g2 is drained behind element e of group g: elements go by register of
      their field, position and field. */
  predicate DrainedLater(t: StoreTrace, g: nat, e: nat, g2: nat, e2: nat) {
    var r := t.FieldRegisters();
    g % r < g2 % r || (g % r == g2 % r && (e < e2 || (e == e2 && g / r < g2 / r)))
  }

  /** After a scattered store an address holds byte j of the data of the last element whose byte
      j is masked in and goes there. */
  lemma {:induction false} ScatteredStoreLands(p: Ports, t: StoreTrace, words: WordMap, g: nat, e: nat, j: nat, a: u32)
    requires p.Shaped() && t.Valid() && t.eew <= 5 && t.scattered && g < t.count && ElementCovers(p, t, g, e, j, a)
    requires forall g2, e2, j2 :: 0 <= g2 < t.count && 0 <= e2 && 0 <= j2 && DrainedLater(t, g, e, g2, e2) ==>
      !ElementCovers(p, t, g2, e2, j2, a)
    ensures (e + 1) * t.ElementBytes() <= 32
    ensures Peek(Drain(words, Effects(p, t)), a) == ElementData(p, t.firstGroup + g, t.ElementBytes(), e)[j]
  {
    hide Covers, RowValue, Peek, Drain, Effects, StoreTrace.ElementBytes, StoreTrace.FieldRegisters, Bit;
    var size := t.ElementBytes();
    ElementEnds(t, e, j);
    var x: Slot := (g, e * size + j);
    ScatteredCovers(p, t, g, e, j, a);
    forall y: Slot | y.0 < t.count && y.1 < 32 && Earlier(t, x, y) ensures !Covers(p, t, y, a) {
      var e2, j2 := ElementOf(t, y), y.1 % size;
      SplitByte(t, y.1);
      ScatteredCovers(p, t, y.0, e2, j2, a);
      if !DrainedLater(t, g, e, y.0, e2) {
        SameGroupAgain(t, g, y.0);
        OtherByteElsewhere(p, t, g, e, j, j2, a);
      }
    }
    LastSlotWins(p, t, words, x, a);
    SplitBytes(RowValue(p, t.firstGroup + g), 32);
  }

  lemma {:induction false} ElementEnds(t: StoreTrace, e: nat, j: nat)
    requires t.eew <= 5 && j < t.ElementBytes() && e * t.ElementBytes() + j < 32
    ensures (e + 1) * t.ElementBytes() <= 32
  {
    hide StoreTrace.ElementBytes;
    ElementSizes(t);
    var n := t.ElementBytes();
    assert n == 1 || n == 2 || n == 4 || n == 8 || n == 16 || n == 32;
  }

  lemma {:induction false} SplitByte(t: StoreTrace, b: nat)
    requires t.eew <= 5
    ensures t.ElementBytes() > 0 && 0 <= b / t.ElementBytes() && 0 <= b % t.ElementBytes() < t.ElementBytes()
    ensures b / t.ElementBytes() * t.ElementBytes() + b % t.ElementBytes() == b
  {
    hide StoreTrace.ElementBytes;
    ElementSizes(t);
    QuotientIsNat(b, t.ElementBytes());
  }

  lemma {:induction false} SameGroupAgain(t: StoreTrace, g: nat, g2: nat)
    ensures g % t.FieldRegisters() == g2 % t.FieldRegisters() && g / t.FieldRegisters() == g2 / t.FieldRegisters()
      ==> g == g2
  {
    Recompose(g, t.FieldRegisters());
    Recompose(g2, t.FieldRegisters());
  }

  lemma {:induction false} Recompose(g: nat, r: nat)
    requires r > 0
    ensures g == r * (g / r) + g % r
  {
  }

  lemma {:induction false} OtherByteElsewhere(p: Ports, t: StoreTrace, g: nat, e: nat, j: nat, j2: nat, a: u32)
    requires p.Shaped() && t.firstGroup + g < 8 && t.eew <= 5 && j2 != j
    requires ElementCovers(p, t, g, e, j, a)
    ensures !ElementCovers(p, t, g, e, j2, a)
  {
    hide Bit, StoreTrace.ElementBytes;
    ElementSizes(t);
  }

  /** An address that no element goes to is unchanged. */
  lemma {:induction false} ScatteredStoreKeeps(p: Ports, t: StoreTrace, words: WordMap, a: u32)
    requires p.Shaped() && t.Valid() && t.eew <= 5 && t.scattered
    requires forall g, e, j :: 0 <= g < t.count && 0 <= e && 0 <= j ==> !ElementCovers(p, t, g, e, j, a)
    ensures Peek(Drain(words, Effects(p, t)), a) == Peek(words, a)
  {
    hide Covers, RowValue, Peek, Drain, Effects, StoreTrace.ElementBytes, Bit, ElementCovers;
    forall y: Slot | y.0 < t.count && y.1 < 32 ensures !Covers(p, t, y, a) {
      SplitByte(t, y.1);
      ScatteredCovers(p, t, y.0, ElementOf(t, y), y.1 % t.ElementBytes(), a);
    }
    NoSlotKeeps(p, t, words, a);
  }
}
