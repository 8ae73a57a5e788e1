/** What memory holds after an ELF file has been loaded (src/ElfImage.cc:186-243), said of the
    bytes of the file alone (System V ABI, chapters 4 and 5): the program header table lies at
    e_phoff, has e_phnum entries of 32 bytes, and the entries of type PT_LOAD are loaded in
    the order of the table. */
module ElfMemory {
  import opened Words
  import opened Memory
  import opened Elf

  /** The file begins with 0x7f and the letters ELF. */
  predicate BeginsAsElf(file: seq<byte>) { |file| >= 4 && file[..4] == [0x7f, 'E' as int, 'L' as int, 'F' as int] }

  lemma {:induction false} MagicIff(file: seq<byte>)
    ensures HasMagic(file) <==> BeginsAsElf(file)
  {
    if |file| >= 4 { assert file[..4] == [file[0], file[1], file[2], file[3]]; }
  }

  /** The little-endian number in two or four bytes of the file, 0 if they are not there. */
  function Number(file: seq<byte>, at: nat, n: nat): (v: nat)
    ensures n == 2 ==> v < 0x1_0000
    ensures n == 4 ==> v < 0x1_0000_0000
  {
    Pow256Values();
    if at + n > |file| then 0
    else
      JoinBound(file[at..at + n]);
      Join(file[at..at + n])
  }

  /** Where program header k begins. */
  function HeaderAt(file: seq<byte>, k: nat): nat { Number(file, 28, 4) + 32 * k }

  predicate HeaderInside(file: seq<byte>, k: nat) { HeaderAt(file, k) + 32 <= |file| }

  /** Program header k says PT_LOAD and puts a byte at address a. */
  predicate Puts(file: seq<byte>, k: nat, a: u32) {
    var at := HeaderAt(file, k);
    var physical, virtual := Number(file, at + 12, 4), Number(file, at + 8, 4);
    var d := (a - if physical != 0 then physical else virtual) % 0x1_0000_0000;
    Number(file, at, 4) == 1 && (d < Number(file, at + 16, 4) || d < Number(file, at + 20, 4))
  }

  /** The byte it puts there: of the file up to the file size, and zero up to the memory size. */
  function PutByte(file: seq<byte>, k: nat, a: u32): byte
    requires HeaderLoads(file, k) && Puts(file, k, a)
  {
    var at := HeaderAt(file, k);
    var physical, virtual := Number(file, at + 12, 4), Number(file, at + 8, 4);
    var d := (a - if physical != 0 then physical else virtual) % 0x1_0000_0000;
    if d < Number(file, at + 16, 4) then file[Number(file, at + 4, 4) + d] else 0
  }

  /** The tables and the program headers of the loader are these numbers of the file. */
  lemma {:induction false} HeaderNumbers(file: seq<byte>)
    requires HeaderOf(file).Accepted?
    ensures |file| >= 52
    ensures var h := HeaderOf(file).value;
      && h.entry == Number(file, 24, 4)
      && h.programOffset == Number(file, 28, 4) && h.sectionOffset == Number(file, 32, 4)
      && h.programCount == Number(file, 44, 2) && h.sectionCount == Number(file, 48, 2)
  {
  }

  /** Exactly which header the loader accepts: 52 bytes, of a 32-bit little-endian RISC-V file
      with program headers of 32 and section headers of 40 bytes. */
  lemma {:induction false} HeaderAcceptedIff(file: seq<byte>)
    requires BeginsAsElf(file)
    ensures HeaderOf(file).Accepted? <==>
      |file| >= 52 && file[4] == 1 && file[5] == 1 && Number(file, 18, 2) == 243
      && Number(file, 42, 2) == 32 && Number(file, 46, 2) == 40
  {
  }

  /** A program header that can be loaded: it lies in the file, and so do its bytes if it is to
      be loaded. */
  predicate HeaderLoads(file: seq<byte>, k: nat) {
    && HeaderInside(file, k)
    && var at := HeaderAt(file, k);
      Number(file, at, 4) == 1 ==> Number(file, at + 4, 4) + Number(file, at + 16, 4) <= |file|
  }

  predicate AllLoad(file: seq<byte>, n: nat) { forall k :: 0 <= k < n ==> HeaderLoads(file, k) }

  /** None of the program headers from k up to n puts a byte at a. */
  predicate NonePuts(file: seq<byte>, k: nat, n: nat, a: u32) { forall j :: k <= j < n ==> !Puts(file, j, a) }

  /** The byte that the last of the first n program headers to put one at a puts there. */
  function LastPut(file: seq<byte>, n: nat, a: u32): byte
    requires AllLoad(file, n)
  {
    if n == 0 then 0
    else if Puts(file, n - 1, a) then PutByte(file, n - 1, a) else LastPut(file, n - 1, a)
  }

  lemma {:induction false} ProgramNumbers(file: seq<byte>, h: Header, k: nat)
    requires |file| >= 52 && h.programOffset == Number(file, 28, 4)
    ensures var p := ProgramAt(file, h.programOffset + k * PROGRAM_HEADER_SIZE);
      && (p.Accepted? <==> HeaderInside(file, k))
      && (p.Accepted? ==>
            var at := HeaderAt(file, k);
            p.value == Program(Number(file, at, 4), Number(file, at + 4, 4), Number(file, at + 8, 4),
              Number(file, at + 12, 4), Number(file, at + 16, 4), Number(file, at + 20, 4)))
  {
    hide Join;
  }

  lemma {:induction false} SegmentsAcceptedIff(file: seq<byte>, h: Header, n: nat)
    requires |file| >= 52 && h.programOffset == Number(file, 28, 4)
    ensures SegmentsUpTo(file, h, n).Accepted? <==> AllLoad(file, n)
  {
    hide ProgramAt, Number;
    if n > 0 {
      SegmentsAcceptedIff(file, h, n - 1);
      ProgramNumbers(file, h, n - 1);
      assert AllLoad(file, n) <==> AllLoad(file, n - 1) && HeaderLoads(file, n - 1);
    }
  }

  lemma {:induction false} SegmentPuts(file: seq<byte>, h: Header, k: nat, a: u32)
    requires |file| >= 52 && h.programOffset == Number(file, 28, 4) && HeaderLoads(file, k)
    ensures var p := ProgramAt(file, h.programOffset + k * PROGRAM_HEADER_SIZE);
      && p.Accepted? && (p.value.kind == PROGRAM_LOAD ==> Fits(file, p.value.offset, p.value.fileSize))
      && (Puts(file, k, a) ==>
            p.value.kind == PROGRAM_LOAD && SegmentByte(file, p.value, a) == Some(PutByte(file, k, a)))
      && (!Puts(file, k, a) && p.value.kind == PROGRAM_LOAD ==> SegmentByte(file, p.value, a) == None)
  {
    hide ProgramAt, Number;
    ProgramNumbers(file, h, k);
  }

  lemma {:induction false} LastSegment(file: seq<byte>, before: seq<Program>, p: Program, a: u32)
    requires (forall i :: 0 <= i < |before| ==> Loadable(file, before[i])) && Loadable(file, p)
    ensures forall i :: 0 <= i < |before + [p]| ==> Loadable(file, (before + [p])[i])
    ensures ImageByte(file, before + [p], a)
      == match SegmentByte(file, p, a) case Some(b) => b case None => ImageByte(file, before, a)
  {
    hide SegmentByte, Loadable;
    var all := before + [p];
    assert all[|all| - 1] == p && all[..|all| - 1] == before;
  }

  lemma {:induction false} SegmentsStep(file: seq<byte>, h: Header, n: nat)
    requires n > 0 && SegmentsUpTo(file, h, n).Accepted?
    ensures SegmentsUpTo(file, h, n - 1).Accepted?
    ensures var p := ProgramAt(file, h.programOffset + (n - 1) * PROGRAM_HEADER_SIZE);
      && p.Accepted? && (p.value.kind == PROGRAM_LOAD ==> Loadable(file, p.value))
      && SegmentsUpTo(file, h, n).value
         == SegmentsUpTo(file, h, n - 1).value + if p.value.kind == PROGRAM_LOAD then [p.value] else []
  {
    hide ProgramAt;
    assert SegmentsUpTo(file, h, n - 1).value + [] == SegmentsUpTo(file, h, n - 1).value;
  }

  lemma {:induction false} SegmentsPut(file: seq<byte>, h: Header, n: nat, a: u32)
    requires |file| >= 52 && h.programOffset == Number(file, 28, 4)
    requires SegmentsUpTo(file, h, n).Accepted? && AllLoad(file, n)
    ensures ImageByte(file, SegmentsUpTo(file, h, n).value, a) == LastPut(file, n, a)
  {
    hide ProgramAt, Number, Puts, PutByte, HeaderLoads, SegmentByte, Fits, SegmentsUpTo, ImageByte;
    if n > 0 {
      SegmentsStep(file, h, n);
      SegmentsPut(file, h, n - 1, a);
      SegmentPuts(file, h, n - 1, a);
      var p := ProgramAt(file, h.programOffset + (n - 1) * PROGRAM_HEADER_SIZE).value;
      if p.kind == PROGRAM_LOAD {
        LastSegment(file, SegmentsUpTo(file, h, n - 1).value, p, a);
      } else {
        assert SegmentsUpTo(file, h, n).value == SegmentsUpTo(file, h, n - 1).value;
      }
    } else {
      NothingPut(file, h, a);
    }
  }

  lemma {:induction false} NothingPut(file: seq<byte>, h: Header, a: u32)
    ensures SegmentsUpTo(file, h, 0) == Accepted([]) && ImageByte(file, [], a) == 0
  {
  }

  lemma {:induction false} LastPutIsLast(file: seq<byte>, n: nat, k: nat, a: u32)
    requires AllLoad(file, n)
    ensures k < n && Puts(file, k, a) && NonePuts(file, k + 1, n, a) ==> LastPut(file, n, a) == PutByte(file, k, a)
    ensures NonePuts(file, 0, n, a) ==> LastPut(file, n, a) == 0
  {
    hide Puts, PutByte, HeaderLoads;
    if n > 0 { LastPutIsLast(file, n - 1, k, a); }
  }

  /** Memory after loading: at each address the byte of the last PT_LOAD entry that puts one
      there, and zero where none does. */
  lemma {:induction false} ElfImageLands(file: seq<byte>, rawBase: u32, k: nat, a: u32)
    requires BeginsAsElf(file) && ImageOf(file, rawBase).Accepted?
    ensures var image, n := ImageOf(file, rawBase).value, Number(file, 44, 2);
      && image.isElf && image.entry == Number(file, 24, 4) && AllLoad(file, n)
      && (k < n && Puts(file, k, a) && NonePuts(file, k + 1, n, a) ==> Peek(image.words, a) == PutByte(file, k, a))
      && (NonePuts(file, 0, n, a) ==> Peek(image.words, a) == 0)
  {
    hide Number, Puts, PutByte, Peek, HeaderLoads, SegmentsUpTo, SectionsUpTo, SymbolsUpTo, HeaderOf, LoadSegments,
      ImageByte, LastPut, NonePuts;
    MagicIff(file);
    HeaderNumbers(file);
    var h, n := HeaderOf(file).value, Number(file, 44, 2);
    SegmentsAcceptedIff(file, h, n);
    SegmentsPut(file, h, n, a);
    LoadedMemory(file, SegmentsUpTo(file, h, n).value, a);
    LastPutIsLast(file, n, k, a);
  }

  // ----- which files are accepted -----

  predicate SectionInside(file: seq<byte>, k: nat) { Number(file, 32, 4) + 40 * k + 40 <= |file| }

  /** A number in section header k. */
  function SectionNumber(file: seq<byte>, k: nat, field: nat): u32 {
    Number(file, Number(file, 32, 4) + 40 * k + field, 4)
  }

  /** The name of symbol i of the table in section k: none, or a string that ends inside the
      string section that the table links to. */
  predicate NameEnds(file: seq<byte>, k: nat, i: nat) {
    var name, link := Number(file, SectionNumber(file, k, 16) + 16 * i, 4), SectionNumber(file, k, 24);
    var base, size := SectionNumber(file, link, 16), SectionNumber(file, link, 20);
    name == 0 || (name < size && base + size <= |file| && 0 in file[base + name..base + size])
  }

  /** A section that is no symbol table, or one whose entries and names lie in the file. */
  ghost predicate TableLoads(file: seq<byte>, k: nat, count: nat) {
    SectionNumber(file, k, 4) == 2 && SectionNumber(file, k, 36) == 16 ==>
      && SectionNumber(file, k, 24) < count
      && SectionNumber(file, k, 16) + SectionNumber(file, k, 20) <= |file|
      && forall i: nat :: 16 * i + 16 <= SectionNumber(file, k, 20) ==> NameEnds(file, k, i)
  }

  lemma {:induction false} SectionNumbers(file: seq<byte>, h: Header, k: nat)
    requires |file| >= 52 && h.sectionOffset == Number(file, 32, 4)
    ensures var s := SectionAt(file, h.sectionOffset + k * SECTION_HEADER_SIZE);
      && (s.Accepted? <==> SectionInside(file, k))
      && (s.Accepted? ==>
            s.value == Section(SectionNumber(file, k, 4), SectionNumber(file, k, 16), SectionNumber(file, k, 20),
              SectionNumber(file, k, 24), SectionNumber(file, k, 36)))
  {
    hide Join;
  }

  predicate SameSections(file: seq<byte>, sections: seq<Section>) {
    forall k :: 0 <= k < |sections| ==>
      SectionInside(file, k)
      && sections[k] == Section(SectionNumber(file, k, 4), SectionNumber(file, k, 16), SectionNumber(file, k, 20),
           SectionNumber(file, k, 24), SectionNumber(file, k, 36))
  }

  lemma {:induction false} SectionsAcceptedIff(file: seq<byte>, h: Header, n: nat)
    requires |file| >= 52 && h.sectionOffset == Number(file, 32, 4)
    ensures SectionsUpTo(file, h, n).Accepted? <==> forall k :: 0 <= k < n ==> SectionInside(file, k)
    ensures SectionsUpTo(file, h, n).Accepted? ==> SameSections(file, SectionsUpTo(file, h, n).value)
  {
    hide SectionAt, Number, SectionInside, SectionNumber;
    if n > 0 {
      SectionsAcceptedIff(file, h, n - 1);
      SectionNumbers(file, h, n - 1);
    }
  }

  lemma {:induction false} ZeroIsFound(file: seq<byte>, from: nat, limit: nat)
    requires from <= limit <= |file|
    ensures FindZero(file, from, limit) < limit <==> 0 in file[from..limit]
  {
    var end := FindZero(file, from, limit);
    if end < limit {
      assert file[from..limit][end - from] == 0;
    } else {
      assert end == limit;
    }
  }

  lemma {:induction false} NameAccepted(file: seq<byte>, base: nat, size: nat, name: nat)
    ensures StringAt(file, base, size, name).Accepted?
      <==> name < size && base + size <= |file| && 0 in file[base + name..base + size]
  {
    hide FindZero;
    if name < size && base + size <= |file| { ZeroIsFound(file, base + name, base + size); }
  }

  lemma {:induction false} EntryAccepted(file: seq<byte>, sections: seq<Section>, k: nat, i: nat, known: SymbolMap)
    requires |file| >= 52 && SameSections(file, sections) && k < |sections|
    requires sections[k].link < |sections| && sections[k].offset + 16 * i + 16 <= |file|
    requires TableSymbols(file, sections[k], sections[sections[k].link], i, known).Accepted?
    ensures TableSymbols(file, sections[k], sections[sections[k].link], i + 1, known).Accepted?
      <==> NameEnds(file, k, i)
  {
    hide Number, SectionInside, SectionNumber, StringAt, U32At;
    var t := sections[k];
    var strings := sections[t.link];
    AsNumber(file, t.offset + 16 * i);
    NameAccepted(file, strings.offset, strings.size, U32At(file, t.offset + 16 * i));
  }

  lemma {:induction false} AsNumber(file: seq<byte>, at: nat)
    requires at + 4 <= |file|
    ensures U32At(file, at) == Number(file, at, 4)
  {
  }

  lemma {:induction false} EntriesAcceptedIff(file: seq<byte>, sections: seq<Section>, k: nat, n: nat, known: SymbolMap)
    requires |file| >= 52 && SameSections(file, sections) && k < |sections|
    requires sections[k].link < |sections| && sections[k].offset + 16 * n <= |file|
    ensures TableSymbols(file, sections[k], sections[sections[k].link], n, known).Accepted?
      <==> forall i :: 0 <= i < n ==> NameEnds(file, k, i)
  {
    hide Number, SectionInside, SectionNumber, StringAt, NameEnds;
    assert SectionInside(file, k) && SectionInside(file, sections[k].link);
    if n > 0 {
      EntriesAcceptedIff(file, sections, k, n - 1, known);
      if TableSymbols(file, sections[k], sections[sections[k].link], n - 1, known).Accepted? {
        EntryAccepted(file, sections, k, n - 1, known);
      }
    }
  }

  lemma {:induction false} TablesAcceptedIff(file: seq<byte>, sections: seq<Section>, n: nat)
    requires |file| >= 52 && SameSections(file, sections) && n <= |sections|
    ensures SymbolsUpTo(file, sections, n).Accepted? <==> forall k :: 0 <= k < n ==> TableLoads(file, k, |sections|)
  {
    hide Number, SectionInside, SectionNumber, TableSymbols, NameEnds;
    if n > 0 {
      TablesAcceptedIff(file, sections, n - 1);
      var t := sections[n - 1];
      if SymbolsUpTo(file, sections, n - 1).Accepted? && IsSymbolTable(t) && t.link < |sections|
        && Fits(file, t.offset, t.size) {
        EntriesAcceptedIff(file, sections, n - 1, t.size / SYMBOL_SIZE, SymbolsUpTo(file, sections, n - 1).value);
      }
      assert (forall k :: 0 <= k < n ==> TableLoads(file, k, |sections|))
        <==> (forall k :: 0 <= k < n - 1 ==> TableLoads(file, k, |sections|)) && TableLoads(file, n - 1, |sections|);
    }
  }

  /** Exactly which files that begin as ELF are accepted, from the bytes of the file. */
  lemma {:induction false} ElfAcceptedIff(file: seq<byte>, rawBase: u32)
    requires BeginsAsElf(file)
    ensures ImageOf(file, rawBase).Accepted? <==>
      && |file| >= 52 && file[4] == 1 && file[5] == 1 && Number(file, 18, 2) == 243
      && Number(file, 42, 2) == 32 && Number(file, 46, 2) == 40
      && (forall k :: 0 <= k < Number(file, 44, 2) ==> HeaderLoads(file, k))
      && (forall k :: 0 <= k < Number(file, 48, 2) ==> SectionInside(file, k))
      && forall k :: 0 <= k < Number(file, 48, 2) ==> TableLoads(file, k, Number(file, 48, 2))
  {
    hide Number, HeaderLoads, SegmentsUpTo, SectionsUpTo, SymbolsUpTo, SectionInside, TableLoads, SameSections,
      LoadSegments, HeaderOf;
    MagicIff(file);
    HeaderAcceptedIff(file);
    if HeaderOf(file).Accepted? {
      HeaderNumbers(file);
      var h := HeaderOf(file).value;
      SegmentsAcceptedIff(file, h, h.programCount);
      SectionsAcceptedIff(file, h, h.sectionCount);
      if SectionsUpTo(file, h, h.sectionCount).Accepted? {
        TablesAcceptedIff(file, SectionsUpTo(file, h, h.sectionCount).value, h.sectionCount);
      }
    }
  }

  /** A file that does not begin as ELF is loaded as it is, at the given base, unless it is
      empty. */
  lemma {:induction false} RawImageLands(file: seq<byte>, rawBase: u32, a: u32)
    requires !BeginsAsElf(file)
    ensures ImageOf(file, rawBase).Accepted? <==> file != []
    ensures file != [] && |file| <= TWO32 ==>
      && var image := ImageOf(file, rawBase).value;
      && !image.isElf && image.entry == rawBase && image.symbols == map[]
      && Peek(image.words, a) == (if (a - rawBase) % TWO32 < |file| then file[(a - rawBase) % TWO32] else 0)
  {
    hide Peek, PokeAll;
    MagicIff(file);
    if file != [] { ImageMemory(file, rawBase, a); }
  }
}
