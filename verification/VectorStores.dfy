/** The store half of the vector commit checker (src/main.cc:122-212): the bytes a retired
    vector store drains, in which order they are collected, and why comparing them with
    the reference's bytes is enough to know that both memories agree. */
module VectorStores {
  import opened Words
  import opened Memory

  type Slot = (nat, nat)
  type Effect = (u32, byte)

  /** The store ports of the DUT. */
  datatype Ports = Ports(addresses: seq<u32>, masks: seq<u32>, data: seq<u32>, elements: seq<seq<u32>>) {
    predicate Shaped() {
      && |addresses| == 8 && |masks| == 8 && |data| == 64 && |elements| == 8
      && forall g :: 0 <= g < 8 ==> |elements[g]| == 32
    }
  }

  datatype StoreTrace = StoreTrace(firstGroup: nat, count: nat, eew: nat, fieldRegisterShift: nat, lastField: nat,
    scattered: bool) {
    function ElementBytes(): nat { Pow2(eew) }
    function FieldRegisters(): nat { Pow2(fieldRegisterShift) }
    function Fields(): nat { lastField + 1 }

    /** The two checks made before anything is collected. */
    predicate Valid() {
      && 0 < count <= 8 && firstGroup + count <= 8
      && (scattered ==> Fields() * FieldRegisters() == count)
    }
  }

  // ----- the order in which (group, byte) slots are visited -----

  function ByteRun(g: nat, begin: nat, end: nat): seq<Slot>
    decreases end - begin
  {
    if begin >= end then [] else [(g, begin)] + ByteRun(g, begin + 1, end)
  }

  /** The innermost loop: one element of every field from `field` on. */
  function FieldLoop(t: StoreTrace, reg: nat, lane: nat, field: nat): seq<Slot>
    decreases t.Fields() - field
  {
    if field >= t.Fields() then []
    else ByteRun(field * t.FieldRegisters() + reg, lane, lane + t.ElementBytes()) + FieldLoop(t, reg, lane, field + 1)
  }

  function ByteLoop(t: StoreTrace, reg: nat, lane: nat): seq<Slot>
    decreases 32 - lane
  {
    if lane >= 32 then [] else FieldLoop(t, reg, lane, 0) + ByteLoop(t, reg, lane + t.ElementBytes())
  }

  function RegisterLoop(t: StoreTrace, reg: nat): seq<Slot>
    decreases t.FieldRegisters() - reg
  {
    if reg >= t.FieldRegisters() then [] else ByteLoop(t, reg, 0) + RegisterLoop(t, reg + 1)
  }

  function LinearLoop(t: StoreTrace, group: nat): seq<Slot>
    decreases t.count - group
  {
    if group >= t.count then [] else ByteRun(group, 0, 32) + LinearLoop(t, group + 1)
  }

  function Visits(t: StoreTrace): seq<Slot> {
    if t.scattered then RegisterLoop(t, 0) else LinearLoop(t, 0)
  }

  function OneIf(b: bool): nat { if b then 1 else 0 }

  /** How often a traversal visits a slot. */
  ghost function Times(slots: seq<Slot>, x: Slot): nat { multiset(slots)[x] }

  lemma {:induction false} TimesConcat(a: seq<Slot>, b: seq<Slot>, x: Slot)
    ensures Times(a + b, x) == Times(a, x) + Times(b, x)
  {
    assert multiset(a + b) == multiset(a) + multiset(b);
  }

  lemma {:induction false} TimesNone(x: Slot)
    ensures Times([], x) == 0
  {
  }

  lemma {:induction false} ByteRunVisits(g: nat, begin: nat, end: nat, x: Slot)
    ensures Times(ByteRun(g, begin, end), x) == OneIf(x.0 == g && begin <= x.1 < end)
    decreases end - begin
  {
    if begin < end {
      ByteRunVisits(g, begin + 1, end, x);
      TimesConcat([(g, begin)], ByteRun(g, begin + 1, end), x);
    }
  }

  lemma {:induction false} Quotient(field: nat, r: nat, reg: nat)
    requires reg < r
    ensures (field * r + reg) / r == field && (field * r + reg) % r == reg
  {
    var n := field * r + reg;
    var d: int := field - n / r;
    assert r * d == n % r - reg;
    Multiple(r, d);
  }

  lemma {:induction false} Multiple(r: nat, d: int)
    ensures d >= 1 ==> r * d >= r
    ensures d <= -1 ==> r * d <= 0 - r
  {
  }

  lemma {:induction false} SameGroup(r: nat, g: nat, field: nat, reg: nat)
    requires 0 < r && reg < r
    ensures g == field * r + reg <==> g / r == field && g % r == reg
  {
    Quotient(field, r, reg);
    assert g == r * (g / r) + g % r;
    if g / r == field { assert r * (g / r) == field * r; }
  }

  /** Group g belongs to this field loop: its register is `reg`, its field at least `field`. */
  predicate InFields(t: StoreTrace, reg: nat, field: nat, g: nat) {
    g % t.FieldRegisters() == reg && field <= g / t.FieldRegisters() < t.Fields()
  }

  lemma {:induction false} FieldLoopVisits(t: StoreTrace, reg: nat, lane: nat, field: nat, x: Slot)
    requires reg < t.FieldRegisters()
    ensures Times(FieldLoop(t, reg, lane, field), x)
         == OneIf(InFields(t, reg, field, x.0) && lane <= x.1 < lane + t.ElementBytes())
    decreases t.Fields() - field
  {
    hide Times, ByteRun, Pow2;
    if field < t.Fields() {
      var g := field * t.FieldRegisters() + reg;
      TimesConcat(ByteRun(g, lane, lane + t.ElementBytes()), FieldLoop(t, reg, lane, field + 1), x);
      ByteRunVisits(g, lane, lane + t.ElementBytes(), x);
      FieldLoopVisits(t, reg, lane, field + 1, x);
      SameGroup(t.FieldRegisters(), x.0, field, reg);
    } else {
      TimesNone(x);
    }
  }

  lemma {:induction false} ElementSizes(t: StoreTrace)
    requires t.eew <= 5
    ensures t.ElementBytes() in {1, 2, 4, 8, 16, 32} && 32 % t.ElementBytes() == 0
  {
    assert Pow2(1) == 2 && Pow2(2) == 4 && Pow2(3) == 8;
    assert Pow2(4) == 16 && Pow2(5) == 32;
  }

  /** The byte loop stands at the beginning of an element, or at the end of the register. */
  predicate AtElement(t: StoreTrace, lane: nat) { lane <= 32 && (32 - lane) % t.ElementBytes() == 0 }

  lemma {:induction false} ElementFits(t: StoreTrace, lane: nat)
    requires t.eew <= 5 && lane < 32 && AtElement(t, lane)
    ensures 0 < t.ElementBytes() && lane + t.ElementBytes() <= 32 && AtElement(t, lane + t.ElementBytes())
  {
    hide Pow2;
    ElementSizes(t);
  }

  lemma {:induction false} FirstElement(t: StoreTrace)
    requires t.eew <= 5
    ensures AtElement(t, 0)
  {
    hide Pow2;
    ElementSizes(t);
  }

  lemma {:induction false} ByteLoopVisits(t: StoreTrace, reg: nat, lane: nat, x: Slot)
    requires reg < t.FieldRegisters() && t.eew <= 5
    requires AtElement(t, lane)
    ensures Times(ByteLoop(t, reg, lane), x) == OneIf(InFields(t, reg, 0, x.0) && lane <= x.1 < 32)
    decreases 32 - lane
  {
    hide Times, InFields, FieldLoop, StoreTrace.ElementBytes;
    if lane < 32 {
      var e := t.ElementBytes();
      ElementFits(t, lane);
      TimesConcat(FieldLoop(t, reg, lane, 0), ByteLoop(t, reg, lane + e), x);
      FieldLoopVisits(t, reg, lane, 0, x);
      ByteLoopVisits(t, reg, lane + e, x);
    } else {
      TimesNone(x);
    }
  }

  lemma {:induction false} RegisterLoopVisits(t: StoreTrace, reg: nat, x: Slot)
    requires t.eew <= 5
    ensures Times(RegisterLoop(t, reg), x)
         == OneIf(reg <= x.0 % t.FieldRegisters() && x.0 / t.FieldRegisters() < t.Fields() && x.1 < 32)
    decreases t.FieldRegisters() - reg
  {
    hide Times, ByteLoop, Pow2;
    if reg < t.FieldRegisters() {
      ElementSizes(t);
      TimesConcat(ByteLoop(t, reg, 0), RegisterLoop(t, reg + 1), x);
      ByteLoopVisits(t, reg, 0, x);
      RegisterLoopVisits(t, reg + 1, x);
      QuotientIsNat(x.0, t.FieldRegisters());
    } else {
      TimesNone(x);
      QuotientIsNat(x.0, t.FieldRegisters());
    }
  }

  lemma {:induction false} QuotientIsNat(g: nat, r: nat)
    requires r > 0
    ensures 0 <= g / r && 0 <= g % r < r
  {
  }

  lemma {:induction false} LinearLoopVisits(t: StoreTrace, group: nat, x: Slot)
    requires group <= t.count
    ensures Times(LinearLoop(t, group), x) == OneIf(group <= x.0 < t.count && x.1 < 32)
    decreases t.count - group
  {
    hide Times, ByteRun;
    if group < t.count {
      TimesConcat(ByteRun(group, 0, 32), LinearLoop(t, group + 1), x);
      ByteRunVisits(group, 0, 32, x);
      LinearLoopVisits(t, group + 1, x);
    } else {
      TimesNone(x);
    }
  }

  lemma {:induction false} BelowProduct(g: nat, r: nat, n: nat)
    requires r > 0
    ensures g / r < n <==> g < n * r
  {
    assert g == r * (g / r) + g % r;
    if g / r < n {
      assert (g / r + 1) * r <= n * r;
    } else {
      assert (g / r) * r >= n * r;
    }
  }

  /** Both traversals are permutations: every (group, byte) slot of the store's rows is
      visited exactly once, and no other slot is. */
  lemma {:induction false} EverySlotVisitedOnce(t: StoreTrace, x: Slot)
    requires t.Valid() && t.eew <= 5
    ensures Times(Visits(t), x) == OneIf(x.0 < t.count && x.1 < 32)
  {
    hide Times, RegisterLoop, LinearLoop, Pow2;
    if t.scattered {
      RegisterLoopVisits(t, 0, x);
      BelowProduct(x.0, t.FieldRegisters(), t.Fields());
      QuotientIsNat(x.0, t.FieldRegisters());
    } else {
      LinearLoopVisits(t, 0, x);
    }
  }

  /** So the scattered collection visits the same slots as the linear one. */
  lemma {:induction false} ScatteredVisitsLinearSlots(t: StoreTrace)
    requires t.Valid() && t.scattered && t.eew <= 5
    ensures multiset(Visits(t)) == multiset(Visits(t.(scattered := false)))
  {
    hide Visits;
    var linear := t.(scattered := false);
    forall x: Slot ensures multiset(Visits(t))[x] == multiset(Visits(linear))[x] {
      EverySlotVisitedOnce(t, x);
      EverySlotVisitedOnce(linear, x);
    }
  }

  // ----- what a slot stores -----

  /** The address of a slot's byte: scattered stores have one address per element. */
  function SlotAddress(p: Ports, t: StoreTrace, x: Slot): u32
    requires p.Shaped() && t.firstGroup + x.0 < 8 && x.1 < 32 && t.eew <= 5
  {
    var row := t.firstGroup + x.0;
    if t.scattered then
      ElementSizes(t);
      Add32(p.elements[row][x.1 - x.1 % t.ElementBytes()], x.1 % t.ElementBytes())
    else Add32(p.addresses[row], x.1)
  }

  /** A masked slot has one effect, an unmasked one none. */
  function SlotEffect(p: Ports, t: StoreTrace, x: Slot): seq<Effect>
    requires p.Shaped() && t.firstGroup + x.0 < 8 && x.1 < 32 && t.eew <= 5
  {
    var row := t.firstGroup + x.0;
    if Bit(p.masks[row], x.1) then [(SlotAddress(p, t, x), ByteAt(p.data[row * 8 + x.1 / 4], x.1 % 4))] else []
  }

  predicate SlotsInside(t: StoreTrace, slots: seq<Slot>) {
    forall i :: 0 <= i < |slots| ==> t.firstGroup + slots[i].0 < 8 && slots[i].1 < 32
  }

  function Gather(p: Ports, t: StoreTrace, slots: seq<Slot>): seq<Effect>
    requires p.Shaped() && t.eew <= 5 && SlotsInside(t, slots)
  {
    if slots == [] then [] else SlotEffect(p, t, slots[0]) + Gather(p, t, slots[1..])
  }

  lemma {:induction false} GatherConcat(p: Ports, t: StoreTrace, a: seq<Slot>, b: seq<Slot>)
    requires p.Shaped() && t.eew <= 5 && SlotsInside(t, a) && SlotsInside(t, b)
    ensures SlotsInside(t, a + b) && Gather(p, t, a + b) == Gather(p, t, a) + Gather(p, t, b)
  {
    hide SlotEffect;
    if a == [] {
      assert a + b == b;
    } else {
      assert (a + b)[0] == a[0] && (a + b)[1..] == a[1..] + b;
      GatherConcat(p, t, a[1..], b);
    }
  }

  /** Every row index stays below 8, so every data word index stays below 64. */
  lemma {:induction false} VisitsInside(t: StoreTrace)
    requires t.Valid() && t.eew <= 5
    ensures SlotsInside(t, Visits(t))
  {
    hide Visits;
    var v := Visits(t);
    forall i | 0 <= i < |v| ensures t.firstGroup + v[i].0 < 8 && v[i].1 < 32 {
      assert v[i] in multiset(v);
      assert Times(v, v[i]) > 0;
      EverySlotVisitedOnce(t, v[i]);
    }
  }

  /** The bytes a store drains, in order. */
  function Effects(p: Ports, t: StoreTrace): seq<Effect>
    requires p.Shaped() && t.Valid() && t.eew <= 5
  {
    VisitsInside(t);
    Gather(p, t, Visits(t))
  }

  /** The lambda `collect`: the masked bytes of one row from begin to end. */
  method CollectRow(p: Ports, t: StoreTrace, group: nat, begin: nat, end: nat) returns (stores: seq<Effect>)
    requires p.Shaped() && t.eew <= 5 && t.firstGroup + group < 8 && begin <= end <= 32
    ensures SlotsInside(t, ByteRun(group, begin, end)) && stores == Gather(p, t, ByteRun(group, begin, end))
  {
    hide SlotEffect;
    stores := [];
    RunInside(t, group, begin, end);
    for lane := begin to end
      invariant SlotsInside(t, ByteRun(group, lane, end))
      invariant stores + Gather(p, t, ByteRun(group, lane, end)) == Gather(p, t, ByteRun(group, begin, end))
    {
      RunInside(t, group, lane + 1, end);
      var effect := SlotEffect(p, t, (group, lane));
      assert ByteRun(group, lane, end)[1..] == ByteRun(group, lane + 1, end);
      assert stores + (effect + Gather(p, t, ByteRun(group, lane + 1, end)))
          == (stores + effect) + Gather(p, t, ByteRun(group, lane + 1, end));
      stores := stores + effect;
    }
  }

  lemma {:induction false} RunInside(t: StoreTrace, group: nat, begin: nat, end: nat)
    requires t.firstGroup + group < 8 && end <= 32
    ensures SlotsInside(t, ByteRun(group, begin, end))
    decreases end - begin
  {
    if begin < end { RunInside(t, group, begin + 1, end); }
  }

  /** The effects still to be collected after `stores`. */
  ghost predicate Progress(p: Ports, t: StoreTrace, stores: seq<Effect>, rest: seq<Slot>)
    requires p.Shaped() && t.Valid() && t.eew <= 5
  {
    SlotsInside(t, rest) && stores + Gather(p, t, rest) == Effects(p, t)
  }

  lemma {:induction false} Advance(p: Ports, t: StoreTrace, stores: seq<Effect>, run: seq<Slot>, rest: seq<Slot>)
    requires p.Shaped() && t.Valid() && t.eew <= 5 && Progress(p, t, stores, run + rest)
    ensures SlotsInside(t, run) && Progress(p, t, stores + Gather(p, t, run), rest)
  {
    hide Gather, Effects;
    forall i | 0 <= i < |run| ensures t.firstGroup + run[i].0 < 8 && run[i].1 < 32 { assert (run + rest)[i] == run[i]; }
    forall i | 0 <= i < |rest| ensures t.firstGroup + rest[i].0 < 8 && rest[i].1 < 32 {
      assert (run + rest)[|run| + i] == rest[i];
    }
    GatherConcat(p, t, run, rest);
    assert stores + (Gather(p, t, run) + Gather(p, t, rest)) == (stores + Gather(p, t, run)) + Gather(p, t, rest);
  }

  lemma {:induction false} Finished(p: Ports, t: StoreTrace, stores: seq<Effect>)
    requires p.Shaped() && t.Valid() && t.eew <= 5 && Progress(p, t, stores, [])
    ensures stores == Effects(p, t)
  {
    assert stores + [] == stores;
  }

  lemma {:induction false} Started(p: Ports, t: StoreTrace)
    requires p.Shaped() && t.Valid() && t.eew <= 5
    ensures Progress(p, t, [], Visits(t))
  {
    hide Visits, Gather;
    VisitsInside(t);
    assert [] + Gather(p, t, Visits(t)) == Gather(p, t, Visits(t));
  }

  /** The collection loops. */
  method CollectStores(p: Ports, t: StoreTrace) returns (stores: seq<Effect>)
    requires p.Shaped() && t.Valid() && t.eew <= 5
    ensures stores == Effects(p, t)
  {
    hide Gather, Effects, Progress, SlotsInside;
    stores := [];
    Started(p, t);
    ElementSizes(t);
    if t.scattered {
      for reg := 0 to t.FieldRegisters()
        invariant Progress(p, t, stores, RegisterLoop(t, reg))
      {
        stores := CollectRegister(p, t, reg, stores);
      }
    } else {
      for group := 0 to t.count
        invariant Progress(p, t, stores, LinearLoop(t, group))
      {
        Advance(p, t, stores, ByteRun(group, 0, 32), LinearLoop(t, group + 1));
        var run := CollectRow(p, t, group, 0, 32);
        stores := stores + run;
      }
    }
    Finished(p, t, stores);
  }

  lemma {:induction false} RegisterSplits(t: StoreTrace, reg: nat)
    requires reg < t.FieldRegisters()
    ensures RegisterLoop(t, reg) == ByteLoop(t, reg, 0) + RegisterLoop(t, reg + 1)
  {
  }

  lemma {:induction false} BytesSplit(t: StoreTrace, reg: nat, lane: nat, later: seq<Slot>)
    requires lane < 32
    ensures ByteLoop(t, reg, lane) + later
         == FieldLoop(t, reg, lane, 0) + (ByteLoop(t, reg, lane + t.ElementBytes()) + later)
  {
    hide FieldLoop;
  }

  lemma {:induction false} BytesDone(t: StoreTrace, reg: nat, later: seq<Slot>)
    ensures ByteLoop(t, reg, 32) + later == later
  {
  }

  /** The two inner loops of the scattered collection. */
  method CollectRegister(p: Ports, t: StoreTrace, reg: nat, before: seq<Effect>) returns (stores: seq<Effect>)
    requires p.Shaped() && t.Valid() && t.eew <= 5 && t.scattered && reg < t.FieldRegisters()
    requires Progress(p, t, before, RegisterLoop(t, reg))
    ensures Progress(p, t, stores, RegisterLoop(t, reg + 1))
  {
    hide Gather, Effects, Progress, SlotsInside, RegisterLoop, ByteLoop, FieldLoop, AtElement, StoreTrace.ElementBytes,
      StoreTrace.FieldRegisters;
    ghost var later := RegisterLoop(t, reg + 1);
    RegisterSplits(t, reg);
    var lane: nat := 0;
    FirstElement(t);
    stores := before;
    while lane < 32
      invariant lane <= 32 && AtElement(t, lane)
      invariant Progress(p, t, stores, ByteLoop(t, reg, lane) + later)
      decreases 32 - lane
    {
      ElementFits(t, lane);
      ghost var rest := ByteLoop(t, reg, lane + t.ElementBytes()) + later;
      BytesSplit(t, reg, lane, later);
      stores := CollectFields(p, t, reg, lane, stores, rest);
      lane := lane + t.ElementBytes();
    }
    BytesDone(t, reg, later);
  }

  /** The innermost loop: the same element of every field. */
  method CollectFields(p: Ports, t: StoreTrace, reg: nat, lane: nat, before: seq<Effect>, ghost rest: seq<Slot>)
    returns (stores: seq<Effect>)
    requires p.Shaped() && t.Valid() && t.eew <= 5 && t.scattered && reg < t.FieldRegisters()
    requires lane + t.ElementBytes() <= 32
    requires Progress(p, t, before, FieldLoop(t, reg, lane, 0) + rest)
    ensures Progress(p, t, stores, rest)
  {
    hide Gather, Effects, Progress, Pow2, ByteRun;
    stores := before;
    for field := 0 to t.Fields()
      invariant Progress(p, t, stores, FieldLoop(t, reg, lane, field) + rest)
    {
      var group := field * t.FieldRegisters() + reg;
      ghost var run := ByteRun(group, lane, lane + t.ElementBytes());
      assert FieldLoop(t, reg, lane, field) + rest == run + (FieldLoop(t, reg, lane, field + 1) + rest);
      Advance(p, t, stores, run, FieldLoop(t, reg, lane, field + 1) + rest);
      RowOf(t, group, lane);
      var bytes := CollectRow(p, t, group, lane, lane + t.ElementBytes());
      stores := stores + bytes;
    }
    assert FieldLoop(t, reg, lane, t.Fields()) + rest == rest;
  }

  lemma {:induction false} RowOf(t: StoreTrace, group: nat, lane: nat)
    requires SlotsInside(t, ByteRun(group, lane, lane + t.ElementBytes()))
    ensures t.firstGroup + group < 8
  {
    assert ByteRun(group, lane, lane + t.ElementBytes())[0] == (group, lane);
  }

  // ----- last write wins -----

  /** Draining effects in order into memory. */
  function Drain(words: WordMap, stores: seq<Effect>): WordMap {
    if stores == [] then words
    else Poke(Drain(words, stores[..|stores| - 1]), stores[|stores| - 1].0, stores[|stores| - 1].1)
  }

  /** The value of the last effect on an address. */
  function FinalByte(stores: seq<Effect>, a: u32): Option<byte> {
    if stores == [] then None
    else if stores[|stores| - 1].0 == a then Some(stores[|stores| - 1].1)
    else FinalByte(stores[..|stores| - 1], a)
  }

  lemma {:induction false} PeekDrain(words: WordMap, stores: seq<Effect>, a: u32)
    ensures Peek(Drain(words, stores), a)
         == match FinalByte(stores, a) case Some(b) => b case None => Peek(words, a)
  {
    hide Peek, Poke;
    if stores != [] {
      var n := |stores| - 1;
      PeekDrain(words, stores[..n], a);
      PeekPoke(Drain(words, stores[..n]), stores[n].0, stores[n].1, a);
    }
  }

  lemma {:induction false} FinalByteOfTouched(stores: seq<Effect>, a: u32)
    ensures FinalByte(stores, a).Some? <==> exists i :: 0 <= i < |stores| && stores[i].0 == a
  {
    if stores != [] {
      var n := |stores| - 1;
      FinalByteOfTouched(stores[..n], a);
      if exists i :: 0 <= i < |stores| && stores[i].0 == a {
        var i :| 0 <= i < |stores| && stores[i].0 == a;
        if i < n { assert stores[..n][i].0 == a; }
      }
      if FinalByte(stores[..n], a).Some? {
        var i :| 0 <= i < n && stores[..n][i].0 == a;
        assert stores[i].0 == a;
      }
    }
  }

  // ----- comparing as sorted sequences -----

  predicate Below(x: Effect, y: Effect) { x.0 < y.0 || (x.0 == y.0 && x.1 <= y.1) }

  predicate Leads(x: Effect, s: seq<Effect>) {
    forall y :: y in s ==> Below(x, y)
  }

  predicate Ordered(s: seq<Effect>) {
    s == [] || (Leads(s[0], s[1..]) && Ordered(s[1..]))
  }

  lemma {:induction false} HeadAndTail(s: seq<Effect>)
    requires s != []
    ensures multiset(s) == multiset{s[0]} + multiset(s[1..])
    ensures forall y :: y in s <==> y == s[0] || y in s[1..]
  {
    assert s == [s[0]] + s[1..];
  }

  function Insert(x: Effect, s: seq<Effect>): seq<Effect> {
    if s == [] || Below(x, s[0]) then [x] + s else [s[0]] + Insert(x, s[1..])
  }

  lemma {:induction false} InsertKeeps(x: Effect, s: seq<Effect>)
    ensures multiset(Insert(x, s)) == multiset(s) + multiset{x}
    ensures forall y :: y in Insert(x, s) <==> y == x || y in s
  {
    hide Below;
    HeadAndTail(Insert(x, s));
    if s != [] && !Below(x, s[0]) {
      InsertKeeps(x, s[1..]);
      HeadAndTail(s);
      assert Insert(x, s)[1..] == Insert(x, s[1..]);
    } else {
      assert Insert(x, s)[1..] == s;
    }
  }

  lemma {:induction false} InsertOrders(x: Effect, s: seq<Effect>)
    requires Ordered(s)
    ensures Ordered(Insert(x, s))
  {
    if s != [] {
      HeadAndTail(s);
      if Below(x, s[0]) {
        assert Insert(x, s)[1..] == s;
        forall y | y in s ensures Below(x, y) { assert y == s[0] || Below(s[0], y); }
      } else {
        InsertOrders(x, s[1..]);
        InsertKeeps(x, s[1..]);
        assert Insert(x, s)[1..] == Insert(x, s[1..]);
      }
    }
  }

  function Sort(s: seq<Effect>): seq<Effect> {
    if s == [] then [] else Insert(s[0], Sort(s[1..]))
  }

  /** A sorted permutation, as std::sort gives. */
  lemma {:induction false} SortSorts(s: seq<Effect>)
    ensures Ordered(Sort(s)) && multiset(Sort(s)) == multiset(s)
  {
    hide Ordered;
    if s == [] {
      assert Ordered([]) by { EmptyIsOrdered(); }
    } else {
      SortSorts(s[1..]);
      InsertOrders(s[0], Sort(s[1..]));
      InsertKeeps(s[0], Sort(s[1..]));
      HeadAndTail(s);
    }
  }

  lemma {:induction false} EmptyIsOrdered()
    ensures Ordered([])
  {
  }

  lemma {:induction false} OrderedIsUnique(s: seq<Effect>, t: seq<Effect>)
    requires Ordered(s) && Ordered(t) && multiset(s) == multiset(t)
    ensures s == t
  {
    if s == [] || t == [] {
      assert |multiset(s)| == |s| && |multiset(t)| == |t|;
    } else {
      HeadAndTail(s);
      HeadAndTail(t);
      SameHead(s, t);
      assert multiset(s[1..]) == multiset(s) - multiset{s[0]};
      assert multiset(t[1..]) == multiset(t) - multiset{t[0]};
      OrderedIsUnique(s[1..], t[1..]);
      assert s == [s[0]] + s[1..] && t == [t[0]] + t[1..];
    }
  }

  lemma {:induction false} SameHead(s: seq<Effect>, t: seq<Effect>)
    requires s != [] && t != [] && Ordered(s) && Ordered(t) && multiset(s) == multiset(t)
    ensures s[0] == t[0]
  {
    assert s[0] in multiset(t) && t[0] in multiset(s);
    HeadAndTail(s);
    HeadAndTail(t);
    assert s[0] in t && t[0] in s;
  }

  lemma {:induction false} SortedEqualIff(s: seq<Effect>, t: seq<Effect>)
    ensures Sort(s) == Sort(t) <==> multiset(s) == multiset(t)
  {
    SortSorts(s);
    SortSorts(t);
    if multiset(s) == multiset(t) { OrderedIsUnique(Sort(s), Sort(t)); }
  }

  // ----- the checker -----

  datatype StoreVerdict = Matches | FinalByteDiffers(address: u32) | BytesDiffer

  /** What the two comparisons of the checker establish. */
  ghost predicate StoresMatch(stores: seq<Effect>, expected: seq<Effect>, reference: WordMap) {
    && multiset(stores) == multiset(expected)
    && forall a: u32 :: FinalByte(stores, a).Some? ==> FinalByte(stores, a).value == Peek(reference, a)
  }

  method CompareStores(stores: seq<Effect>, expected: seq<Effect>, reference: SparseMemory) returns (v: StoreVerdict)
    ensures v == Matches <==> StoresMatch(stores, expected, reference.words)
  {
    hide Peek;
    var finalBytes: map<u32, byte> := map[];
    for i := 0 to |stores|
      invariant forall a: u32 :: FinalByte(stores[..i], a) == if a in finalBytes then Some(finalBytes[a]) else None
    {
      assert stores[..i + 1][..i] == stores[..i];
      finalBytes := finalBytes[stores[i].0 := stores[i].1];
    }
    assert stores[..|stores|] == stores;
    var left := finalBytes.Keys;
    while left != {}
      invariant left <= finalBytes.Keys
      invariant forall a :: a in finalBytes && a !in left ==> finalBytes[a] == Peek(reference.words, a)
      decreases left
    {
      var a :| a in left;
      if finalBytes[a] != reference.Read8(a) {
        assert FinalByte(stores, a) == Some(finalBytes[a]);
        return FinalByteDiffers(a);
      }
      left := left - {a};
    }
    SortedEqualIff(stores, expected);
    return if Sort(stores) == Sort(expected) then Matches else BytesDiffer;
  }

  /** Soundness and completeness of the store check. The reference started from the same
      memory and drained its own bytes; then the check passes exactly when the DUT's bytes
      are the reference's bytes and draining them in the DUT's order gives the reference's
      memory at every address. */
  lemma {:induction false} StoreCheckIsExact(before: WordMap, reference: WordMap, stores: seq<Effect>,
    expected: seq<Effect>)
    requires forall a: u32 :: Peek(reference, a) == Peek(Drain(before, expected), a)
    ensures StoresMatch(stores, expected, reference) <==>
      multiset(stores) == multiset(expected)
      && forall a: u32 :: Peek(Drain(before, stores), a) == Peek(reference, a)
  {
    hide Peek;
    if multiset(stores) == multiset(expected) {
      forall a: u32
        ensures FinalByte(stores, a).Some? || Peek(Drain(before, stores), a) == Peek(reference, a)
        ensures FinalByte(stores, a).Some? ==> FinalByte(stores, a).value == Peek(Drain(before, stores), a)
      {
        PeekDrain(before, stores, a);
        PeekDrain(before, expected, a);
        SameTouched(stores, expected, a);
      }
    }
  }

  lemma {:induction false} SameTouched(stores: seq<Effect>, expected: seq<Effect>, a: u32)
    requires multiset(stores) == multiset(expected)
    ensures FinalByte(stores, a).None? ==> FinalByte(expected, a).None?
  {
    FinalByteOfTouched(stores, a);
    FinalByteOfTouched(expected, a);
    if FinalByte(expected, a).Some? {
      var i :| 0 <= i < |expected| && expected[i].0 == a;
      assert expected[i] in multiset(stores);
      assert expected[i] in stores;
    }
  }
}
