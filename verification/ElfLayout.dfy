/** Packed structures of an ELF file (src/ElfImage.cc:24-74). The loader's field
    offsets are right because a structure packed field by field is decoded to itself,
    wherever in the file it stands. */
module ElfLayout {
  import opened Words
  import opened Elf

  /** Field widths in the order of the declarations. */
  const HEADER_LAYOUT: seq<nat> := [16, 2, 2, 4, 4, 4, 4, 4, 2, 2, 2, 2, 2, 2]
  const PROGRAM_LAYOUT: seq<nat> := [4, 4, 4, 4, 4, 4, 4, 4]
  const SECTION_LAYOUT: seq<nat> := [4, 4, 4, 4, 4, 4, 4, 4, 4, 4]
  const SYMBOL_LAYOUT: seq<nat> := [4, 4, 4, 1, 1, 2]

  /** Where field k of a packed structure begins. */
  function Offset(layout: seq<nat>, k: nat): nat
    requires k <= |layout|
  {
    if k == 0 then 0 else Offset(layout, k - 1) + layout[k - 1]
  }

  function Packed(layout: seq<nat>, values: seq<nat>): seq<byte>
    requires |layout| == |values|
    decreases |layout|
  {
    if layout == [] then []
    else
      var n := |layout| - 1;
      Packed(layout[..n], values[..n]) + Split(values[n], layout[n])
  }

  predicate Fitting(layout: seq<nat>, values: seq<nat>) {
    |layout| == |values| && forall k :: 0 <= k < |layout| ==> values[k] < Pow256(layout[k])
  }

  lemma {:induction false} OffsetOfPrefix(layout: seq<nat>, n: nat, k: nat)
    requires k <= n <= |layout|
    ensures Offset(layout[..n], k) == Offset(layout, k)
  {
    if k > 0 { OffsetOfPrefix(layout, n, k - 1); }
  }

  lemma {:induction false} PackedSize(layout: seq<nat>, values: seq<nat>)
    requires |layout| == |values|
    ensures |Packed(layout, values)| == Offset(layout, |layout|)
    decreases |layout|
  {
    if layout != [] {
      var n := |layout| - 1;
      PackedSize(layout[..n], values[..n]);
      OffsetOfPrefix(layout, n, n);
    }
  }

  /** Field k of a structure that stands somewhere in a file. */
  lemma {:induction false} FieldOfPacked(layout: seq<nat>, values: seq<nat>, before: seq<byte>, after: seq<byte>,
    k: nat)
    requires Fitting(layout, values) && k < |layout|
    ensures var file, at := before + Packed(layout, values) + after, |before| + Offset(layout, k);
      at + layout[k] <= |file| && file[at..at + layout[k]] == Split(values[k], layout[k])
      && Join(file[at..at + layout[k]]) == values[k]
    decreases |layout|
  {
    hide Split, Join;
    var n := |layout| - 1;
    var shorter, field := Packed(layout[..n], values[..n]), Split(values[n], layout[n]);
    JoinSplit(values[k], layout[k]);
    PackedSize(layout[..n], values[..n]);
    OffsetOfPrefix(layout, n, k);
    OffsetOfPrefix(layout, n, n);
    assert before + (shorter + field) + after == before + shorter + (field + after);
    if k == n {
      var file, at := before + shorter + (field + after), |before| + |shorter|;
      assert file[at..at + layout[n]] == field;
    } else {
      FieldOfPacked(layout[..n], values[..n], before, field + after, k);
    }
  }

  lemma {:induction false} Offsets()
    ensures Offset(HEADER_LAYOUT, 2) == 18 && Offset(HEADER_LAYOUT, 4) == 24 && Offset(HEADER_LAYOUT, 5) == 28
    ensures Offset(HEADER_LAYOUT, 6) == 32 && Offset(HEADER_LAYOUT, 9) == 42 && Offset(HEADER_LAYOUT, 10) == 44
    ensures Offset(HEADER_LAYOUT, 11) == 46 && Offset(HEADER_LAYOUT, 12) == 48
    ensures Offset(HEADER_LAYOUT, 14) == HEADER_SIZE
  {
    assert Offset(HEADER_LAYOUT, 1) == 16;
    assert Offset(HEADER_LAYOUT, 3) == 20;
    assert Offset(HEADER_LAYOUT, 4) == 24;
    assert Offset(HEADER_LAYOUT, 6) == 32;
    assert Offset(HEADER_LAYOUT, 8) == 40;
    assert Offset(HEADER_LAYOUT, 10) == 44;
    assert Offset(HEADER_LAYOUT, 12) == 48;
  }

  /** Fields of four bytes each begin at multiples of four. */
  lemma {:induction false} WordOffsets(layout: seq<nat>, k: nat)
    requires k <= |layout| && forall i :: 0 <= i < k ==> layout[i] == 4
    ensures Offset(layout, k) == 4 * k
  {
    if k > 0 { WordOffsets(layout, k - 1); }
  }

  /** The values of the ident bytes and counts that the loader insists on. */
  predicate Rv32(values: seq<nat>) {
    && Fitting(HEADER_LAYOUT, values)
    && ByteAt(values[0], 4) == 1 && ByteAt(values[0], 5) == 1 && values[2] == MACHINE_RISCV
  }

  lemma {:induction false} HeaderField(values: seq<nat>, after: seq<byte>, k: nat)
    requires Fitting(HEADER_LAYOUT, values) && k < |HEADER_LAYOUT|
    ensures var file, at := Packed(HEADER_LAYOUT, values) + after, Offset(HEADER_LAYOUT, k);
      at + HEADER_LAYOUT[k] <= |file| && Join(file[at..at + HEADER_LAYOUT[k]]) == values[k]
  {
    hide Packed, Offset, Split, Join;
    FieldOfPacked(HEADER_LAYOUT, values, [], after, k);
    assert [] + Packed(HEADER_LAYOUT, values) + after == Packed(HEADER_LAYOUT, values) + after;
  }

  /** The first two bytes of interest lie in the first field. */
  lemma {:induction false} IdentBytes(values: seq<nat>, after: seq<byte>, k: nat)
    requires Fitting(HEADER_LAYOUT, values) && k < 16
    ensures var file := Packed(HEADER_LAYOUT, values) + after; k < |file| && file[k] == ByteAt(values[0], k)
  {
    FieldOfPacked(HEADER_LAYOUT, values, [], after, 0);
    var file := Packed(HEADER_LAYOUT, values) + after;
    assert [] + Packed(HEADER_LAYOUT, values) + after == file;
    SplitBytes(values[0], 16);
    assert file[0..16][k] == Split(values[0], 16)[k];
  }

  /** A packed header is decoded field by field, with the loader's checks on it. */
  lemma {:induction false} HeaderDecodes(values: seq<nat>, after: seq<byte>)
    requires Fitting(HEADER_LAYOUT, values)
    ensures HeaderOf(Packed(HEADER_LAYOUT, values) + after) ==
      if !Rv32(values) then Rejected(NotLittleEndianRv32)
      else if values[9] != PROGRAM_HEADER_SIZE || values[11] != SECTION_HEADER_SIZE then Rejected(UnexpectedEntrySize)
      else Accepted(Header(values[4], values[5], values[6], values[10], values[12]))
  {
    hide Packed, Offset, ByteAt, Join;
    Offsets();
    PackedSize(HEADER_LAYOUT, values);
    IdentBytes(values, after, 4);
    IdentBytes(values, after, 5);
    HeaderField(values, after, 2);
    HeaderField(values, after, 4);
    HeaderField(values, after, 5);
    HeaderField(values, after, 6);
    HeaderField(values, after, 9);
    HeaderField(values, after, 10);
    HeaderField(values, after, 11);
    HeaderField(values, after, 12);
  }

  lemma {:induction false} WordField(layout: seq<nat>, values: seq<nat>, before: seq<byte>, after: seq<byte>, k: nat)
    requires Fitting(layout, values) && k < |layout| && forall i :: 0 <= i <= k ==> layout[i] == 4
    ensures var file := before + Packed(layout, values) + after;
      |before| + 4 * k + 4 <= |file| && U32At(file, |before| + 4 * k) == values[k]
  {
    FieldOfPacked(layout, values, before, after, k);
    WordOffsets(layout, k);
  }

  /** A packed program header is decoded field by field. */
  lemma {:induction false} ProgramDecodes(values: seq<nat>, before: seq<byte>, after: seq<byte>)
    requires Fitting(PROGRAM_LAYOUT, values)
    ensures ProgramAt(before + Packed(PROGRAM_LAYOUT, values) + after, |before|)
         == Accepted(Program(values[0], values[1], values[2], values[3], values[4], values[5]))
  {
    hide Packed, U32At;
    PackedSize(PROGRAM_LAYOUT, values);
    WordOffsets(PROGRAM_LAYOUT, 8);
    WordField(PROGRAM_LAYOUT, values, before, after, 0);
    WordField(PROGRAM_LAYOUT, values, before, after, 1);
    WordField(PROGRAM_LAYOUT, values, before, after, 2);
    WordField(PROGRAM_LAYOUT, values, before, after, 3);
    WordField(PROGRAM_LAYOUT, values, before, after, 4);
    WordField(PROGRAM_LAYOUT, values, before, after, 5);
  }

  /** A packed section header is decoded field by field. */
  lemma {:induction false} SectionDecodes(values: seq<nat>, before: seq<byte>, after: seq<byte>)
    requires Fitting(SECTION_LAYOUT, values)
    ensures SectionAt(before + Packed(SECTION_LAYOUT, values) + after, |before|)
         == Accepted(Section(values[1], values[4], values[5], values[6], values[9]))
  {
    hide Packed, U32At;
    PackedSize(SECTION_LAYOUT, values);
    WordOffsets(SECTION_LAYOUT, 10);
    WordField(SECTION_LAYOUT, values, before, after, 1);
    WordField(SECTION_LAYOUT, values, before, after, 4);
    WordField(SECTION_LAYOUT, values, before, after, 5);
    WordField(SECTION_LAYOUT, values, before, after, 6);
    WordField(SECTION_LAYOUT, values, before, after, 9);
  }

  /** Name and value of a packed symbol are its first two words. */
  lemma {:induction false} SymbolDecodes(values: seq<nat>, before: seq<byte>, after: seq<byte>)
    requires Fitting(SYMBOL_LAYOUT, values)
    ensures var file := before + Packed(SYMBOL_LAYOUT, values) + after;
      && Fits(file, |before|, SYMBOL_SIZE) && |Packed(SYMBOL_LAYOUT, values)| == SYMBOL_SIZE
      && U32At(file, |before|) == values[0] && U32At(file, |before| + 4) == values[1]
  {
    hide Packed, U32At;
    PackedSize(SYMBOL_LAYOUT, values);
    assert Offset(SYMBOL_LAYOUT, 2) == 8;
    assert Offset(SYMBOL_LAYOUT, 4) == 13;
    assert Offset(SYMBOL_LAYOUT, 6) == 16;
    WordField(SYMBOL_LAYOUT, values, before, after, 0);
    WordField(SYMBOL_LAYOUT, values, before, after, 1);
  }
}
