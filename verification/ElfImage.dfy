/** Loading a raw or RV32 ELF image (src/ElfImage.cc:76-268): which files are accepted,
    what every byte of memory is afterwards, and which symbols are known. */
module Elf {
  import opened Words
  import opened Memory

  type Text = seq<byte>

  const HEADER_SIZE := 52
  const PROGRAM_HEADER_SIZE := 32
  const SECTION_HEADER_SIZE := 40
  const SYMBOL_SIZE := 16
  const MACHINE_RISCV := 243
  const PROGRAM_LOAD := 1
  const SECTION_SYMBOL_TABLE := 2

  datatype Fault =
    | EmptyImage
    | TruncatedStructure
    | RangeExceedsFile
    | NotLittleEndianRv32
    | UnexpectedEntrySize
    | InvalidStringTableLink
    | StringOffsetOutsideTable
    | UnterminatedString

  datatype Outcome<+T> = Accepted(value: T) | Rejected(fault: Fault) {
    predicate IsFailure() { Rejected? }
    function PropagateFailure<U>(): Outcome<U> requires Rejected? { Rejected(fault) }
    function Extract(): T requires Accepted? { value }
  }

  datatype Header = Header(
    entry: u32, programOffset: u32, sectionOffset: u32, programCount: u16, sectionCount: u16)

  datatype Program = Program(kind: u32, offset: u32, virtualAddress: u32, physicalAddress: u32, fileSize: u32,
    memorySize: u32)

  datatype Section = Section(kind: u32, offset: u32, size: u32, link: u32, entrySize: u32)

  // ----- structures in the file -----

  /** objectAt's range check. */
  predicate Fits(file: seq<byte>, offset: nat, size: nat) {
    offset <= |file| && size <= |file| - offset
  }

  function U16At(file: seq<byte>, offset: nat): u16
    requires offset + 2 <= |file|
  {
    JoinBound(file[offset..offset + 2]);
    Pow256Values();
    Join(file[offset..offset + 2])
  }

  function U32At(file: seq<byte>, offset: nat): u32
    requires offset + 4 <= |file|
  {
    JoinBound(file[offset..offset + 4]);
    Pow256Values();
    Join(file[offset..offset + 4])
  }

  predicate HasMagic(file: seq<byte>) {
    |file| >= 4 && file[0] == 0x7f && file[1] == 0x45 && file[2] == 0x4c && file[3] == 0x46
  }

  function HeaderOf(file: seq<byte>): Outcome<Header> {
    if !Fits(file, 0, HEADER_SIZE) then Rejected(TruncatedStructure)
    else if file[4] != 1 || file[5] != 1 || U16At(file, 18) != MACHINE_RISCV then Rejected(NotLittleEndianRv32)
    else if U16At(file, 42) != PROGRAM_HEADER_SIZE || U16At(file, 46) != SECTION_HEADER_SIZE
    then Rejected(UnexpectedEntrySize)
    else Accepted(Header(U32At(file, 24), U32At(file, 28), U32At(file, 32), U16At(file, 44), U16At(file, 48)))
  }

  function ProgramAt(file: seq<byte>, offset: nat): Outcome<Program> {
    if !Fits(file, offset, PROGRAM_HEADER_SIZE) then Rejected(TruncatedStructure)
    else
      Accepted(Program(U32At(file, offset), U32At(file, offset + 4), U32At(file, offset + 8),
                       U32At(file, offset + 12), U32At(file, offset + 16), U32At(file, offset + 20)))
  }

  function SectionAt(file: seq<byte>, offset: nat): Outcome<Section> {
    if !Fits(file, offset, SECTION_HEADER_SIZE) then Rejected(TruncatedStructure)
    else
      Accepted(Section(U32At(file, offset + 4), U32At(file, offset + 16), U32At(file, offset + 20),
                       U32At(file, offset + 24), U32At(file, offset + 36)))
  }

  // ----- segments -----

  predicate Loadable(file: seq<byte>, p: Program) {
    p.kind == PROGRAM_LOAD && Fits(file, p.offset, p.fileSize)
  }

  /** The PT_LOAD segments among the first n program headers, in file order. */
  function SegmentsUpTo(file: seq<byte>, h: Header, n: nat): (r: Outcome<seq<Program>>)
    ensures r.Accepted? ==> forall i :: 0 <= i < |r.value| ==> Loadable(file, r.value[i])
  {
    if n == 0 then Accepted([])
    else
      var before :- SegmentsUpTo(file, h, n - 1);
      var p :- ProgramAt(file, h.programOffset + (n - 1) * PROGRAM_HEADER_SIZE);
      if p.kind != PROGRAM_LOAD then Accepted(before)
      else if !Fits(file, p.offset, p.fileSize) then Rejected(RangeExceedsFile)
      else Accepted(before + [p])
  }

  /** The physical address is preferred unless it is zero. */
  function LoadAddress(p: Program): u32 {
    if p.physicalAddress != 0 then p.physicalAddress else p.virtualAddress
  }

  /** File bytes, then zeros up to the memory size. */
  function SegmentBytes(file: seq<byte>, p: Program): seq<byte>
    requires Loadable(file, p)
  {
    file[p.offset..p.offset + p.fileSize]
    + seq(if p.memorySize > p.fileSize then p.memorySize - p.fileSize else 0, _ => 0)
  }

  function LoadSegments(file: seq<byte>, segments: seq<Program>): WordMap
    requires forall i :: 0 <= i < |segments| ==> Loadable(file, segments[i])
  {
    if segments == [] then map[]
    else
      var p := segments[|segments| - 1];
      PokeAll(LoadSegments(file, segments[..|segments| - 1]), LoadAddress(p), SegmentBytes(file, p))
  }

  /** What a segment says about an address, if it covers it. */
  function SegmentByte(file: seq<byte>, p: Program, a: u32): Option<byte>
    requires Loadable(file, p)
  {
    var d := Distance(LoadAddress(p), a);
    if d < p.fileSize then Some(file[p.offset + d])
    else if d < p.memorySize then Some(0)
    else None
  }

  /** The last segment covering an address decides its byte; uncovered bytes are zero. */
  function ImageByte(file: seq<byte>, segments: seq<Program>, a: u32): byte
    requires forall i :: 0 <= i < |segments| ==> Loadable(file, segments[i])
  {
    if segments == [] then 0
    else
      match SegmentByte(file, segments[|segments| - 1], a)
      case Some(b) => b
      case None => ImageByte(file, segments[..|segments| - 1], a)
  }

  lemma {:induction false} SegmentLoaded(file: seq<byte>, p: Program, words: WordMap, a: u32)
    requires Loadable(file, p)
    ensures Peek(PokeAll(words, LoadAddress(p), SegmentBytes(file, p)), a)
         == match SegmentByte(file, p, a) case Some(b) => b case None => Peek(words, a)
  {
    hide PokeAll, Peek;
    var data, d := SegmentBytes(file, p), Distance(LoadAddress(p), a);
    PeekPokeAll(words, LoadAddress(p), data, a);
    if d < |data| { assert (|data| - 1 - d) / 0x1_0000_0000 == 0; }
  }

  /** The memory of an accepted ELF file, byte by byte. */
  lemma {:induction false} LoadedMemory(file: seq<byte>, segments: seq<Program>, a: u32)
    requires forall i :: 0 <= i < |segments| ==> Loadable(file, segments[i])
    ensures Peek(LoadSegments(file, segments), a) == ImageByte(file, segments, a)
  {
    hide PokeAll, SegmentBytes, SegmentByte;
    if segments == [] {
      ByteOfJoin([], a % 4);
    } else {
      var n := |segments| - 1;
      LoadedMemory(file, segments[..n], a);
      SegmentLoaded(file, segments[n], LoadSegments(file, segments[..n]), a);
    }
  }

  // ----- symbols -----

  function SectionsUpTo(file: seq<byte>, h: Header, n: nat): (r: Outcome<seq<Section>>)
    ensures r.Accepted? ==> |r.value| == n
  {
    if n == 0 then Accepted([])
    else
      var before :- SectionsUpTo(file, h, n - 1);
      var s :- SectionAt(file, h.sectionOffset + (n - 1) * SECTION_HEADER_SIZE);
      Accepted(before + [s])
  }

  /** The position of the first zero byte in file[from..limit], or limit. */
  function FindZero(file: seq<byte>, from: nat, limit: nat): (end: nat)
    requires from <= limit <= |file|
    ensures from <= end <= limit
    ensures 0 !in file[from..end]
    ensures end < limit ==> file[end] == 0
    decreases limit - from
  {
    if from == limit || file[from] == 0 then from
    else
      var end := FindZero(file, from + 1, limit);
      assert file[from..end] == [file[from]] + file[from + 1..end];
      end
  }

  function StringAt(file: seq<byte>, base: nat, size: nat, offset: nat): Outcome<Text> {
    if offset >= size then Rejected(StringOffsetOutsideTable)
    else if !Fits(file, base, size) then Rejected(RangeExceedsFile)
    else
      var end := FindZero(file, base + offset, base + size);
      if end == base + size then Rejected(UnterminatedString) else Accepted(file[base + offset..end])
  }

  type SymbolMap = map<Text, u32>

  /** The symbols of the first n entries of one table, added to those already known. */
  function TableSymbols(file: seq<byte>, table: Section, strings: Section, n: nat, known: SymbolMap): Outcome<SymbolMap>
  {
    if n == 0 then Accepted(known)
    else
      var before :- TableSymbols(file, table, strings, n - 1, known);
      var offset := table.offset + (n - 1) * SYMBOL_SIZE;
      if !Fits(file, offset, SYMBOL_SIZE) then Rejected(TruncatedStructure)
      else if U32At(file, offset) == 0 then Accepted(before)
      else
        var name :- StringAt(file, strings.offset, strings.size, U32At(file, offset));
        Accepted(before[name := U32At(file, offset + 4)])
  }

  predicate IsSymbolTable(s: Section) {
    s.kind == SECTION_SYMBOL_TABLE && s.entrySize == SYMBOL_SIZE
  }

  function SymbolsUpTo(file: seq<byte>, sections: seq<Section>, n: nat): Outcome<SymbolMap>
    requires n <= |sections|
  {
    if n == 0 then Accepted(map[])
    else
      var before :- SymbolsUpTo(file, sections, n - 1);
      var table := sections[n - 1];
      if !IsSymbolTable(table) then Accepted(before)
      else if table.link >= |sections| then Rejected(InvalidStringTableLink)
      else if !Fits(file, table.offset, table.size) then Rejected(RangeExceedsFile)
      else TableSymbols(file, table, sections[table.link], table.size / SYMBOL_SIZE, before)
  }

  /** A name taken from inside a section of the file: its bytes and the zero that ends
      them all lie in that section. */
  ghost predicate NameInside(file: seq<byte>, strings: Section, name: Text) {
    && Fits(file, strings.offset, strings.size)
    && exists k: nat :: StringLies(file, strings, k, name)
  }

  predicate StringLies(file: seq<byte>, strings: Section, k: nat, name: Text)
    requires Fits(file, strings.offset, strings.size)
  {
    && strings.offset <= k && k + |name| < strings.offset + strings.size
    && file[k..k + |name|] == name && 0 !in name && file[k + |name|] == 0
  }

  ghost predicate NamesInside(file: seq<byte>, sections: seq<Section>, symbols: SymbolMap) {
    forall name :: name in symbols ==> exists i :: 0 <= i < |sections| && NameInside(file, sections[i], name)
  }

  lemma {:induction false} StringIsInside(file: seq<byte>, strings: Section, offset: nat)
    requires StringAt(file, strings.offset, strings.size, offset).Accepted?
    ensures NameInside(file, strings, StringAt(file, strings.offset, strings.size, offset).value)
  {
    var name := StringAt(file, strings.offset, strings.size, offset).value;
    var k := strings.offset + offset;
    assert StringLies(file, strings, k, name);
  }

  lemma {:induction false} TableNamesInside(file: seq<byte>, sections: seq<Section>, table: Section, link: nat, n: nat,
    known: SymbolMap)
    requires link < |sections| && NamesInside(file, sections, known)
    requires TableSymbols(file, table, sections[link], n, known).Accepted?
    ensures NamesInside(file, sections, TableSymbols(file, table, sections[link], n, known).value)
  {
    hide U32At, StringAt, NameInside;
    if n > 0 {
      TableNamesInside(file, sections, table, link, n - 1, known);
      var offset := table.offset + (n - 1) * SYMBOL_SIZE;
      if U32At(file, offset) != 0 {
        StringIsInside(file, sections[link], U32At(file, offset));
      }
    }
  }

  /** Every symbol of an accepted file is named by a zero-terminated string that lies
      wholly inside one of its sections, and so inside the file. */
  lemma {:induction false} SymbolNamesInside(file: seq<byte>, sections: seq<Section>, n: nat)
    requires n <= |sections| && SymbolsUpTo(file, sections, n).Accepted?
    ensures NamesInside(file, sections, SymbolsUpTo(file, sections, n).value)
  {
    if n > 0 {
      SymbolNamesInside(file, sections, n - 1);
      var before := SymbolsUpTo(file, sections, n - 1).value;
      var table := sections[n - 1];
      if IsSymbolTable(table) {
        TableNamesInside(file, sections, table, table.link, table.size / SYMBOL_SIZE, before);
      }
    }
  }

  /** A symbol-table entry covered by a range check is never truncated. */
  lemma {:induction false} EntriesFit(file: seq<byte>, table: Section, k: nat)
    requires Fits(file, table.offset, table.size) && k < table.size / SYMBOL_SIZE
    ensures Fits(file, table.offset + k * SYMBOL_SIZE, SYMBOL_SIZE)
  {
  }

  // ----- the loader -----

  /** What loading a file amounts to: the checks in the order the loader makes them. */
  datatype Image = Image(entry: u32, isElf: bool, words: WordMap, symbols: SymbolMap)

  function ImageOf(file: seq<byte>, rawBase: u32): Outcome<Image> {
    if file == [] then Rejected(EmptyImage)
    else if !HasMagic(file) then Accepted(Image(rawBase, false, PokeAll(map[], rawBase, file), map[]))
    else
      var h :- HeaderOf(file);
      var segments :- SegmentsUpTo(file, h, h.programCount);
      var sections :- SectionsUpTo(file, h, h.sectionCount);
      var symbols :- SymbolsUpTo(file, sections, |sections|);
      Accepted(Image(h.entry, true, LoadSegments(file, segments), symbols))
  }

  /** Every byte of memory after a successful load of either kind of image. */
  lemma {:induction false} ImageMemory(file: seq<byte>, rawBase: u32, a: u32)
    requires ImageOf(file, rawBase).Accepted?
    ensures var image := ImageOf(file, rawBase).value;
      Peek(image.words, a) ==
        if HasMagic(file) then
          var h := HeaderOf(file).value;
          ImageByte(file, SegmentsUpTo(file, h, h.programCount).value, a)
        else
          var d := Distance(rawBase, a);
          if d < |file| then file[d + (|file| - 1 - d) / 0x1_0000_0000 * 0x1_0000_0000] else 0
  {
    if HasMagic(file) {
      var h := HeaderOf(file).value;
      LoadedMemory(file, SegmentsUpTo(file, h, h.programCount).value, a);
    } else {
      PeekPokeAll(map[], rawBase, file, a);
      ByteOfJoin([], a % 4);
    }
  }

  class ElfImage {
    var entry: u32
    var isElf: bool
    var memory: SparseMemory
    var symbols: SymbolMap

    function State(): Image
      reads this, memory
    {
      Image(entry, isElf, memory.words, symbols)
    }

    constructor ()
      ensures fresh(memory) && State() == Image(0x8000_0000, false, map[], map[])
    {
      entry, isElf, symbols := 0x8000_0000, false, map[];
      memory := new SparseMemory();
    }

    static method Load(file: seq<byte>, rawBase: u32) returns (r: Outcome<ElfImage>)
      ensures match ImageOf(file, rawBase)
        case Accepted(image) => r.Accepted? && fresh(r.value) && fresh(r.value.memory) && r.value.State() == image
        case Rejected(fault) => r == Rejected(fault)
    {
      if |file| == 0 { return Rejected(EmptyImage); }
      var image := new ElfImage();
      if !HasMagic(file) {
        image.memory.Load(rawBase, file);
        image.entry := rawBase;
        return Accepted(image);
      }
      var h :- HeaderOf(file);
      image.isElf, image.entry := true, h.entry;
      var _ :- LoadPrograms(file, h, image.memory);
      var sections :- ReadSections(file, h);
      var table :- ReadSymbols(file, sections);
      image.symbols := table;
      return Accepted(image);
    }

    static method LoadPrograms(file: seq<byte>, h: Header, memory: SparseMemory) returns (r: Outcome<()>)
      requires memory.words == map[]
      modifies memory
      ensures match SegmentsUpTo(file, h, h.programCount)
        case Accepted(segments) => r == Accepted(()) && memory.words == LoadSegments(file, segments)
        case Rejected(fault) => r == Rejected(fault)
    {
      hide U32At, PokeAll, SegmentBytes;
      for index := 0 to h.programCount
        invariant SegmentsUpTo(file, h, index).Accepted?
        invariant memory.words == LoadSegments(file, SegmentsUpTo(file, h, index).value)
      {
        ghost var before := SegmentsUpTo(file, h, index).value;
        var header := ProgramAt(file, h.programOffset + index * PROGRAM_HEADER_SIZE);
        if header.Rejected?
           || (header.value.kind == PROGRAM_LOAD && !Fits(file, header.value.offset, header.value.fileSize)) {
          StaysRejected(file, h, index + 1, h.programCount);
          return Rejected(if header.Rejected? then header.fault else RangeExceedsFile);
        }
        if header.value.kind == PROGRAM_LOAD {
          assert SegmentsUpTo(file, h, index + 1) == Accepted(before + [header.value]);
          assert (before + [header.value])[..|before|] == before;
          LoadSegment(file, header.value, memory);
        }
      }
      return Accepted(());
    }

    static lemma {:induction false} StaysRejected(file: seq<byte>, h: Header, m: nat, n: nat)
      requires m <= n && SegmentsUpTo(file, h, m).Rejected?
      ensures SegmentsUpTo(file, h, n) == Rejected(SegmentsUpTo(file, h, m).fault)
    {
      if m < n { StaysRejected(file, h, m, n - 1); }
    }

    static method LoadSegment(file: seq<byte>, p: Program, memory: SparseMemory)
      requires Loadable(file, p)
      modifies memory
      ensures memory.words == PokeAll(old(memory.words), LoadAddress(p), SegmentBytes(file, p))
    {
      hide LoadAddress, Poke;
      var address := LoadAddress(p);
      ghost var all := SegmentBytes(file, p);
      assert all[..p.fileSize] == file[p.offset..p.offset + p.fileSize];
      memory.Load(address, file[p.offset..p.offset + p.fileSize]);
      if p.fileSize < p.memorySize {
        for k := p.fileSize to p.memorySize
          invariant memory.words == PokeAll(old(memory.words), address, all[..k])
        {
          memory.Write8(Add32(address, k), 0);
          assert all[..k + 1][..k] == all[..k] && all[k] == 0;
        }
      }
      assert all[..|all|] == all;
    }

    static method ReadSections(file: seq<byte>, h: Header) returns (r: Outcome<seq<Section>>)
      ensures r == SectionsUpTo(file, h, h.sectionCount)
    {
      var sections: seq<Section> := [];
      for index := 0 to h.sectionCount
        invariant SectionsUpTo(file, h, index) == Accepted(sections)
      {
        var s := SectionAt(file, h.sectionOffset + index * SECTION_HEADER_SIZE);
        if s.Rejected? {
          SectionsStayRejected(file, h, index + 1, h.sectionCount);
          return Rejected(s.fault);
        }
        sections := sections + [s.value];
      }
      return Accepted(sections);
    }

    static lemma {:induction false} SectionsStayRejected(file: seq<byte>, h: Header, m: nat, n: nat)
      requires m <= n && SectionsUpTo(file, h, m).Rejected?
      ensures SectionsUpTo(file, h, n) == Rejected(SectionsUpTo(file, h, m).fault)
    {
      if m < n { SectionsStayRejected(file, h, m, n - 1); }
    }

    static method ReadSymbols(file: seq<byte>, sections: seq<Section>) returns (r: Outcome<SymbolMap>)
      ensures r == SymbolsUpTo(file, sections, |sections|)
    {
      var known: SymbolMap := map[];
      for index := 0 to |sections|
        invariant SymbolsUpTo(file, sections, index) == Accepted(known)
      {
        var table := sections[index];
        if IsSymbolTable(table) {
          var next: Outcome<SymbolMap>;
          if table.link >= |sections| {
            next := Rejected(InvalidStringTableLink);
          } else if !Fits(file, table.offset, table.size) {
            next := Rejected(RangeExceedsFile);
          } else {
            next := ReadTable(file, table, sections[table.link], known);
          }
          if next.Rejected? {
            SymbolsStayRejected(file, sections, index + 1, |sections|);
            return next;
          }
          known := next.value;
        }
      }
      return Accepted(known);
    }

    static lemma {:induction false} SymbolsStayRejected(file: seq<byte>, sections: seq<Section>, m: nat, n: nat)
      requires m <= n <= |sections| && SymbolsUpTo(file, sections, m).Rejected?
      ensures SymbolsUpTo(file, sections, n) == Rejected(SymbolsUpTo(file, sections, m).fault)
    {
      if m < n { SymbolsStayRejected(file, sections, m, n - 1); }
    }

    static method ReadTable(file: seq<byte>, table: Section, strings: Section, known: SymbolMap)
      returns (r: Outcome<SymbolMap>)
      requires Fits(file, table.offset, table.size)
      ensures r == TableSymbols(file, table, strings, table.size / SYMBOL_SIZE, known)
    {
      hide U32At, StringAt;
      var count := table.size / SYMBOL_SIZE;
      var symbols := known;
      for index := 0 to count
        invariant TableSymbols(file, table, strings, index, known) == Accepted(symbols)
      {
        EntriesFit(file, table, index);
        var offset := table.offset + index * SYMBOL_SIZE;
        if U32At(file, offset) != 0 {
          var name := StringAt(file, strings.offset, strings.size, U32At(file, offset));
          if name.Rejected? {
            TableStaysRejected(file, table, strings, index + 1, count, known);
            return Rejected(name.fault);
          }
          symbols := symbols[name.value := U32At(file, offset + 4)];
        }
      }
      return Accepted(symbols);
    }

    static lemma {:induction false} TableStaysRejected(file: seq<byte>, table: Section, strings: Section, m: nat,
      n: nat, known: SymbolMap)
      requires m <= n && TableSymbols(file, table, strings, m, known).Rejected?
      ensures TableSymbols(file, table, strings, n, known)
           == Rejected(TableSymbols(file, table, strings, m, known).fault)
    {
      if m < n { TableStaysRejected(file, table, strings, m, n - 1, known); }
    }

    method Symbol(name: Text) returns (value: Option<u32>)
      ensures value == if name in symbols then Some(symbols[name]) else None
    {
      return if name in symbols then Some(symbols[name]) else None;
    }
  }
}
