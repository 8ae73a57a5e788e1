/** Which names an accepted ELF file makes known, and with which value
    (src/ElfImage.cc:247-265): the address of tohost is looked up among them. */
module ElfSymbols {
  import opened Words
  import opened Elf

  function EntryOffset(table: Section, k: nat): nat { table.offset + k * SYMBOL_SIZE }

  /** Entry k of section t is a named symbol-table entry with this name. */
  predicate Bears(file: seq<byte>, sections: seq<Section>, t: nat, k: nat, name: Text) {
    && t < |sections| && IsSymbolTable(sections[t]) && sections[t].link < |sections|
    && k < sections[t].size / SYMBOL_SIZE && Fits(file, EntryOffset(sections[t], k), SYMBOL_SIZE)
    && var strings, at := sections[sections[t].link], EntryOffset(sections[t], k);
       U32At(file, at) != 0 && StringAt(file, strings.offset, strings.size, U32At(file, at)) == Accepted(name)
  }

  function ValueAt(file: seq<byte>, sections: seq<Section>, t: nat, k: nat): u32
    requires t < |sections| && Fits(file, EntryOffset(sections[t], k), SYMBOL_SIZE)
  {
    U32At(file, EntryOffset(sections[t], k) + 4)
  }

  /** Entries in file order, table by table. */
  predicate Later(t: nat, k: nat, u: nat, l: nat) { t < u || (t == u && k < l) }

  /** No entry of the first n sections, counting the first m of section n, bears the name
      later than entry k of section t. */
  ghost predicate NoneLater(file: seq<byte>, sections: seq<Section>, t: nat, k: nat, n: nat, m: nat, name: Text) {
    forall u: nat, l: nat :: Bears(file, sections, u, l, name) && Later(t, k, u, l) ==> !Later(u, l, n, m)
  }

  /** The name's value is that of the last of the entries so far that bear it. */
  ghost predicate LastBearer(file: seq<byte>, sections: seq<Section>, t: nat, k: nat, n: nat, m: nat, name: Text,
    value: u32) {
    && Bears(file, sections, t, k, name) && Later(t, k, n, m) && NoneLater(file, sections, t, k, n, m, name)
    && value == ValueAt(file, sections, t, k)
  }

  ghost predicate NoBearer(file: seq<byte>, sections: seq<Section>, n: nat, m: nat, name: Text) {
    forall u: nat, l: nat :: Bears(file, sections, u, l, name) ==> !Later(u, l, n, m)
  }

  /** What a symbol map says of a name once the entries before (n, m) have been read. */
  ghost predicate Explains(file: seq<byte>, sections: seq<Section>, n: nat, m: nat, symbols: SymbolMap, name: Text) {
    if name in symbols then exists t: nat, k: nat :: LastBearer(file, sections, t, k, n, m, name, symbols[name])
    else NoBearer(file, sections, n, m, name)
  }

  /** An entry that does not bear the name changes nothing about it. */
  lemma {:induction false} SkipsEntry(file: seq<byte>, sections: seq<Section>, n: nat, m: nat, symbols: SymbolMap,
    name: Text)
    requires Explains(file, sections, n, m, symbols, name) && !Bears(file, sections, n, m, name)
    ensures Explains(file, sections, n, m + 1, symbols, name)
  {
    hide Bears, ValueAt;
    assert forall u: nat, l: nat :: Later(u, l, n, m + 1) ==> Later(u, l, n, m) || (u == n && l == m);
    if name in symbols {
      var t: nat, k: nat :| LastBearer(file, sections, t, k, n, m, name, symbols[name]);
      assert LastBearer(file, sections, t, k, n, m + 1, name, symbols[name]);
    }
  }

  /** An entry that bears the name takes it over. */
  lemma {:induction false} TakesEntry(file: seq<byte>, sections: seq<Section>, n: nat, m: nat, symbols: SymbolMap,
    name: Text)
    requires Bears(file, sections, n, m, name)
    requires name in symbols && symbols[name] == ValueAt(file, sections, n, m)
    ensures Explains(file, sections, n, m + 1, symbols, name)
  {
    hide Bears, ValueAt;
    assert LastBearer(file, sections, n, m, n, m + 1, name, symbols[name]);
  }

  lemma {:induction false} SameName(file: seq<byte>, sections: seq<Section>, n: nat, m: nat, before: SymbolMap,
    after: SymbolMap, name: Text)
    requires Explains(file, sections, n, m, before, name)
    requires (name in before <==> name in after) && (name in before ==> before[name] == after[name])
    ensures Explains(file, sections, n, m, after, name)
  {
    hide Bears, ValueAt, NoneLater, Later;
  }

  lemma {:induction false} TableExplains(file: seq<byte>, sections: seq<Section>, n: nat, m: nat, known: SymbolMap,
    name: Text)
    requires n < |sections| && IsSymbolTable(sections[n]) && sections[n].link < |sections|
    requires m <= sections[n].size / SYMBOL_SIZE
    requires Explains(file, sections, n, 0, known, name)
    requires TableSymbols(file, sections[n], sections[sections[n].link], m, known).Accepted?
    ensures var read := TableSymbols(file, sections[n], sections[sections[n].link], m, known).value;
      Explains(file, sections, n, m, read, name)
  {
    hide Explains, U32At, StringAt;
    if m > 0 {
      var table, strings := sections[n], sections[sections[n].link];
      TableExplains(file, sections, n, m - 1, known, name);
      var before := TableSymbols(file, table, strings, m - 1, known).value;
      var after := TableSymbols(file, table, strings, m, known).value;
      if Bears(file, sections, n, m - 1, name) {
        assert after[name] == U32At(file, EntryOffset(table, m - 1) + 4);
        TakesEntry(file, sections, n, m - 1, after, name);
      } else {
        SkipsEntry(file, sections, n, m - 1, before, name);
        SameName(file, sections, n, m, before, after, name);
      }
    }
  }

  lemma {:induction false} NextSection(file: seq<byte>, sections: seq<Section>, n: nat, m: nat, symbols: SymbolMap,
    name: Text)
    requires Explains(file, sections, n, m, symbols, name)
    requires forall l: nat :: Bears(file, sections, n, l, name) ==> l < m
    ensures Explains(file, sections, n + 1, 0, symbols, name)
  {
    hide Bears, ValueAt;
    if name in symbols {
      var t: nat, k: nat :| LastBearer(file, sections, t, k, n, m, name, symbols[name]);
      assert LastBearer(file, sections, t, k, n + 1, 0, name, symbols[name]);
    }
  }

  lemma {:induction false} SectionsExplain(file: seq<byte>, sections: seq<Section>, n: nat, name: Text)
    requires n <= |sections| && SymbolsUpTo(file, sections, n).Accepted?
    ensures Explains(file, sections, n, 0, SymbolsUpTo(file, sections, n).value, name)
  {
    hide Explains, TableSymbols, Fits, U32At, StringAt;
    if n == 0 {
      NothingExplained(file, sections, name);
    } else {
      SectionsExplain(file, sections, n - 1, name);
      var before, table := SymbolsUpTo(file, sections, n - 1).value, sections[n - 1];
      var m := if IsSymbolTable(table) then table.size / SYMBOL_SIZE else 0;
      if IsSymbolTable(table) { TableExplains(file, sections, n - 1, m, before, name); }
      NextSection(file, sections, n - 1, m, SymbolsUpTo(file, sections, n).value, name);
    }
  }

  lemma {:induction false} NothingExplained(file: seq<byte>, sections: seq<Section>, name: Text)
    ensures Explains(file, sections, 0, 0, map[], name)
  {
    hide Bears;
  }

  /** Entry k of section t bears the name, and no entry later in the file does. */
  ghost predicate IsLast(file: seq<byte>, sections: seq<Section>, t: nat, k: nat, name: Text) {
    && Bears(file, sections, t, k, name)
    && forall u: nat, l: nat :: Bears(file, sections, u, l, name) ==> !Later(t, k, u, l)
  }

  ghost predicate HasValueOf(file: seq<byte>, sections: seq<Section>, t: nat, k: nat, name: Text, value: u32) {
    IsLast(file, sections, t, k, name) && value == ValueAt(file, sections, t, k)
  }

  /** In an accepted file a name is known exactly if some symbol-table entry bears it, and
      then it has the value of the last entry that does. */
  lemma {:induction false} KnownSymbol(file: seq<byte>, sections: seq<Section>, name: Text)
    requires SymbolsUpTo(file, sections, |sections|).Accepted?
    ensures var symbols := SymbolsUpTo(file, sections, |sections|).value;
      && (name in symbols <==> exists t: nat, k: nat :: Bears(file, sections, t, k, name))
      && (name in symbols ==> exists t: nat, k: nat :: HasValueOf(file, sections, t, k, name, symbols[name]))
  {
    hide ValueAt, SymbolsUpTo;
    SectionsExplain(file, sections, |sections|, name);
    var symbols := SymbolsUpTo(file, sections, |sections|).value;
    forall t: nat, k: nat | Bears(file, sections, t, k, name) ensures Later(t, k, |sections|, 0) {}
    if name in symbols {
      var t: nat, k: nat :| LastBearer(file, sections, t, k, |sections|, 0, name, symbols[name]);
      forall u: nat, l: nat | Bears(file, sections, u, l, name) ensures !Later(t, k, u, l) {
        assert Later(u, l, |sections|, 0);
      }
      assert HasValueOf(file, sections, t, k, name, symbols[name]);
    }
  }

  /** Two last entries are one, so the value is unique. */
  lemma {:induction false} LastIsUnique(file: seq<byte>, sections: seq<Section>, t: nat, k: nat, u: nat, l: nat,
    name: Text)
    requires IsLast(file, sections, t, k, name) && IsLast(file, sections, u, l, name)
    ensures t == u && k == l
  {
    hide Bears;
  }

  function SectionsOf(file: seq<byte>): seq<Section>
    requires HeaderOf(file).Accepted?
    requires SectionsUpTo(file, HeaderOf(file).value, HeaderOf(file).value.sectionCount).Accepted?
  {
    SectionsUpTo(file, HeaderOf(file).value, HeaderOf(file).value.sectionCount).value
  }

  lemma {:induction false} ImageSections(file: seq<byte>, rawBase: u32)
    requires HasMagic(file) && ImageOf(file, rawBase).Accepted?
    ensures HeaderOf(file).Accepted?
    ensures SectionsUpTo(file, HeaderOf(file).value, HeaderOf(file).value.sectionCount).Accepted?
    ensures SymbolsUpTo(file, SectionsOf(file), |SectionsOf(file)|) == Accepted(ImageOf(file, rawBase).value.symbols)
  {
    hide HeaderOf, SectionsUpTo, SymbolsUpTo, SegmentsUpTo, LoadSegments;
  }

  /** The lookup in a loaded image: the tohost address is found exactly if an entry is
      named tohost, and it is the value of the last one. */
  lemma {:induction false} ImageSymbol(file: seq<byte>, rawBase: u32, name: Text)
    requires HasMagic(file) && ImageOf(file, rawBase).Accepted?
    ensures HeaderOf(file).Accepted?
    ensures SectionsUpTo(file, HeaderOf(file).value, HeaderOf(file).value.sectionCount).Accepted?
    ensures var symbols, sections := ImageOf(file, rawBase).value.symbols, SectionsOf(file);
      && (name in symbols <==> exists t: nat, k: nat :: Bears(file, sections, t, k, name))
      && (name in symbols ==> exists t: nat, k: nat :: HasValueOf(file, sections, t, k, name, symbols[name]))
  {
    hide HeaderOf, SectionsUpTo, SectionsOf, SymbolsUpTo, ImageOf, Bears, HasValueOf, HasMagic;
    ImageSections(file, rawBase);
    KnownSymbol(file, SectionsOf(file), name);
  }
}
