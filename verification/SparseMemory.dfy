/** The word-packed memory of src/ElfImage.cc. Absent words read as zero; addresses
    wrap modulo 2^32. The specification is the byte view `Peek`. */
module Memory {
  import opened Words
  import opened Checkpoint

  type WordMap = map<u32, u32>

  /** The four byte enables of a word access. */
  type Strobe4 = s: seq<bool> | |s| == 4 witness [false, false, false, false]

  function WordAt(words: WordMap, index: u32): u32 {
    if index in words then words[index] else 0
  }

  /** The byte at an address: the abstraction every other operation is judged by. */
  function Peek(words: WordMap, address: u32): byte {
    ByteAt(WordAt(words, address / 4), address % 4)
  }

  function Window(words: WordMap, address: u32, n: nat): (s: seq<byte>)
    ensures |s| == n
  {
    seq(n, (k: int) requires k >= 0 => Peek(words, Add32(address, k)))
  }

  /** One byte lane replaced inside a 32-bit word. */
  function Lane(word: u32, k: nat, b: byte): u32
    requires k < 4
  {
    Pow256Values();
    WithByteBound(word, k, b, 4);
    WithByte(word, k, b)
  }

  function Poke(words: WordMap, address: u32, value: byte): WordMap {
    words[address / 4 := Lane(WordAt(words, address / 4), address % 4, value)]
  }

  /** Lanes k..n of a byte-wise strobed store. */
  function PokeLanes(words: WordMap, address: u32, value: nat, strobe: seq<bool>, k: nat): WordMap
    requires k <= |strobe|
    decreases |strobe| - k
  {
    if k == |strobe| then words
    else
      var next := if strobe[k] then Poke(words, Add32(address, k), ByteAt(value, k)) else words;
      PokeLanes(next, address, value, strobe, k + 1)
  }

  /** Lanes k..4 of a strobed merge inside one word. */
  function MergeLanes(word: u32, value: u32, strobe: Strobe4, k: nat): u32
    requires k <= 4
    decreases 4 - k
  {
    if k == 4 then word
    else MergeLanes(if strobe[k] then Lane(word, k, ByteAt(value, k)) else word, value, strobe, k + 1)
  }

  /** The fast path of write32 touches its word even when no lane is strobed. */
  function PokeWord(words: WordMap, address: u32, value: u32, strobe: Strobe4): WordMap {
    if address % 4 == 0 then words[address / 4 := MergeLanes(WordAt(words, address / 4), value, strobe, 0)]
    else PokeLanes(words, address, value, strobe, 0)
  }

  function PokeAll(words: WordMap, address: u32, data: seq<byte>): WordMap {
    if data == [] then words
    else Poke(PokeAll(words, address, data[..|data| - 1]), Add32(address, |data| - 1), data[|data| - 1])
  }

  /** Every byte of memory after a strobed store: a strobed lane holds its byte of the
      value, every other byte is what it was. */
  ghost predicate StoredLanes(before: WordMap, after: WordMap, address: u32, value: nat, strobe: seq<bool>) {
    forall a: u32 :: Peek(after, a) == StoredByte(before, address, value, strobe, a)
  }

  function StoredByte(before: WordMap, address: u32, value: nat, strobe: seq<bool>, a: u32): byte {
    var d := Distance(address, a);
    if d < |strobe| && strobe[d] then ByteAt(value, d) else Peek(before, a)
  }

  /** How far b lies above a, going round the address space. */
  function Distance(a: u32, b: u32): u32 { (b - a) % 0x1_0000_0000 }

  lemma {:induction false} PeekPoke(words: WordMap, address: u32, value: byte, a: u32)
    ensures Peek(Poke(words, address, value), a) == if a == address then value else Peek(words, a)
  {
    ByteOfWithByte(WordAt(words, address / 4), address % 4, value, a % 4);
  }

  lemma {:induction false} AtDistance(address: u32, a: u32, k: nat)
    requires k < 0x1_0000_0000
    ensures a == Add32(address, k) <==> Distance(address, a) == k
  {
  }

  /** A strobed byte-wise store changes exactly the strobed lanes. */
  lemma {:induction false} PeekPokeLanes(words: WordMap, address: u32, value: nat, strobe: seq<bool>, k: nat, a: u32)
    requires k <= |strobe| <= 8
    ensures var d := Distance(address, a);
      Peek(PokeLanes(words, address, value, strobe, k), a)
      == if k <= d < |strobe| && strobe[d] then ByteAt(value, d) else Peek(words, a)
    decreases |strobe| - k
  {
    if k < |strobe| {
      var next := if strobe[k] then Poke(words, Add32(address, k), ByteAt(value, k)) else words;
      PeekPokeLanes(next, address, value, strobe, k + 1, a);
      PeekPoke(words, Add32(address, k), ByteAt(value, k), a);
      AtDistance(address, a, k);
    }
  }

  lemma {:induction false} ByteOfMerge(word: u32, value: u32, strobe: Strobe4, k: nat, j: nat)
    requires k <= 4 && j < 4
    ensures ByteAt(MergeLanes(word, value, strobe, k), j)
         == if k <= j && strobe[j] then ByteAt(value, j) else ByteAt(word, j)
    decreases 4 - k
  {
    if k < 4 {
      ByteOfWithByte(word, k, ByteAt(value, k), j);
      ByteOfMerge(if strobe[k] then Lane(word, k, ByteAt(value, k)) else word, value, strobe, k + 1, j);
    }
  }

  /** Both paths of write32 have the same byte view, for every strobe and address:
      strobed lanes take the value, all other bytes of memory are kept. */
  lemma {:induction false} PeekPokeWord(words: WordMap, address: u32, value: u32, strobe: Strobe4, a: u32)
    ensures Peek(PokeWord(words, address, value, strobe), a) == StoredByte(words, address, value, strobe, a)
    ensures Peek(PokeWord(words, address, value, strobe), a) == Peek(PokeLanes(words, address, value, strobe, 0), a)
  {
    PeekPokeLanes(words, address, value, strobe, 0, a);
    if address % 4 == 0 {
      var d := Distance(address, a);
      assert d < 4 <==> a / 4 == address / 4;
      if d < 4 {
        assert a % 4 == d;
        ByteOfMerge(WordAt(words, address / 4), value, strobe, 0, d);
      }
    }
  }

  /** A store without strobes is invisible to every read, whether or not it leaves a
      zero word behind in the map. */
  lemma {:induction false} StrobelessStoreIsInvisible(words: WordMap, address: u32, value: u32, a: u32)
    ensures Peek(PokeWord(words, address, value, [false, false, false, false]), a) == Peek(words, a)
    ensures PokeWord(words, address, value, [false, false, false, false]).Keys
         == words.Keys + if address % 4 == 0 then {address / 4} else {}
  {
    PeekPokeWord(words, address, value, [false, false, false, false], a);
    if address % 4 != 0 {
      assert PokeLanes(words, address, value, [false, false, false, false], 3) == words;
      assert PokeLanes(words, address, value, [false, false, false, false], 2) == words;
      assert PokeLanes(words, address, value, [false, false, false, false], 1) == words;
    }
  }

  /** Loading a block: each byte of memory takes the last block byte that lands on it,
      going round the address space as often as the block is long. */
  lemma {:induction false} PeekPokeAll(words: WordMap, address: u32, data: seq<byte>, a: u32)
    ensures var d := Distance(address, a);
      Peek(PokeAll(words, address, data), a)
      == if d < |data| then data[d + (|data| - 1 - d) / 0x1_0000_0000 * 0x1_0000_0000] else Peek(words, a)
  {
    if data != [] {
      var n := |data| - 1;
      var d := Distance(address, a);
      PeekPokeAll(words, address, data[..n], a);
      PeekPoke(PokeAll(words, address, data[..n]), Add32(address, n), data[n], a);
      LastLanding(address, a, n);
    }
  }

  lemma {:induction false} LastLanding(address: u32, a: u32, n: nat)
    ensures var d := Distance(address, a);
      (a == Add32(address, n) <==> d <= n && d + (n - d) / 0x1_0000_0000 * 0x1_0000_0000 == n)
      && (a != Add32(address, n) && d < n ==>
          (n - d) / 0x1_0000_0000 == (n - 1 - d) / 0x1_0000_0000)
      && (a != Add32(address, n) ==> d != n)
  {
  }

  /** A word is the little-endian join of its four bytes. */
  lemma {:induction false} WordIsWindow(words: WordMap, address: u32)
    requires address % 4 == 0
    ensures WordAt(words, address / 4) == Join(Window(words, address, 4))
  {
    var w := WordAt(words, address / 4);
    assert Window(words, address, 4) == Split(w, 4) by {
      SplitBytes(w, 4);
      forall k | 0 <= k < 4 ensures Window(words, address, 4)[k] == Split(w, 4)[k] {
        assert Add32(address, k) / 4 == address / 4 && Add32(address, k) % 4 == k;
      }
    }
    Pow256Values();
    JoinSplit(w, 4);
  }

  /** read64's fast path: two adjacent words, the second in the upper half. */
  lemma {:induction false} DoubleWord(words: WordMap, address: u32)
    ensures Join(Window(words, address, 8))
         == Join(Window(words, address, 4)) + Join(Window(words, Add32(address, 4), 4)) * 0x1_0000_0000
    ensures Join(Window(words, address, 8)) < 0x1_0000_0000_0000_0000
  {
    var low, high := Window(words, address, 4), Window(words, Add32(address, 4), 4);
    assert Window(words, address, 8) == low + high by {
      forall k | 0 <= k < 4 ensures Add32(address, k + 4) == Add32(Add32(address, 4), k) {}
    }
    JoinConcat(low, high);
    JoinBound(low + high);
    Pow256Values();
  }

  // ----- checkpointing -----

  /** RAM size in words: the most a checkpoint may hold. */
  const WORD_LIMIT := 0x100_0000

  function PutWords(order: Pairs, rest: seq<byte>): seq<byte>
    requires |order| < TWO64
  {
    PutU64(|order|, PutPairs(order, rest))
  }

  function GetWords(s: seq<byte>): Parsed<WordMap> {
    var n :- GetCount(WORD_LIMIT, s);
    var pairs :- GetPairs(n.0, n.1);
    Ok((Collect(pairs.0), pairs.1))
  }

  /** Saved in any order, a memory is restored exactly when it has at most as many words
      as RAM; a larger one is refused. */
  lemma {:induction false} WordsRoundTrip(words: WordMap, order: Pairs, rest: seq<byte>)
    requires Enumerates(order, words) && |order| < TWO64
    ensures GetWords(PutWords(order, rest))
         == if |words| <= WORD_LIMIT then Ok((words, rest)) else Err(CountExceedsLimit)
  {
    CollectEnumerated(order, words);
  }

  class SparseMemory {
    var words: WordMap

    constructor ()
      ensures words == map[]
    {
      words := map[];
    }

    function Read8(address: u32): (value: byte)
      reads this
      ensures value == Peek(words, address)
    {
      if address / 4 !in words then
        assert Peek(words, address) == 0 by { ZeroBytes(address % 4); }
        0
      else ByteAt(words[address / 4], address % 4)
    }

    method Read32(address: u32) returns (value: u32)
      ensures value == Join(Window(words, address, 4))
    {
      if address % 4 == 0 {
        WordIsWindow(words, address);
        return if address / 4 in words then words[address / 4] else 0;
      }
      var bytes := ReadBytes(address, 4);
      JoinBound(bytes);
      Pow256Values();
      return Join(bytes);
    }

    /** The byte loop shared by the slow paths: `value |= read8(address + byte) << (byte * 8)`. */
    method ReadBytes(address: u32, n: nat) returns (bytes: seq<byte>)
      ensures bytes == Window(words, address, n)
    {
      bytes := [];
      for k := 0 to n
        invariant bytes == Window(words, address, k)
      {
        bytes := bytes + [Read8(Add32(address, k))];
      }
    }

    method Read64(address: u32) returns (value: u64)
      ensures value == Join(Window(words, address, 8))
    {
      if address % 8 == 0 {
        var low: int := Read32(address);
        var high: int := Read32(Add32(address, 4));
        DoubleWord(words, address);
        return low + high * 0x1_0000_0000;
      }
      var bytes := ReadBytes(address, 8);
      JoinBound(bytes);
      Pow256Values();
      return Join(bytes);
    }

    method Write8(address: u32, value: byte)
      modifies this
      ensures words == Poke(old(words), address, value)
    {
      var word := if address / 4 in words then words[address / 4] else 0;
      words := words[address / 4 := Lane(word, address % 4, value)];
    }

    method Write32(address: u32, value: u32, strobe: Strobe4)
      modifies this
      ensures words == PokeWord(old(words), address, value, strobe)
      ensures StoredLanes(old(words), words, address, value, strobe)
    {
      forall a: u32 { PeekPokeWord(words, address, value, strobe, a); }
      if address % 4 == 0 {
        var word: u32 := if address / 4 in words then words[address / 4] else 0;
        for k := 0 to 4
          invariant MergeLanes(word, value, strobe, k) == MergeLanes(WordAt(words, address / 4), value, strobe, 0)
        {
          if strobe[k] { word := Lane(word, k, ByteAt(value, k)); }
        }
        words := words[address / 4 := word];
      } else {
        StoreLanes(address, value, strobe);
      }
    }

    method StoreLanes(address: u32, value: nat, strobe: seq<bool>)
      modifies this
      ensures words == PokeLanes(old(words), address, value, strobe, 0)
    {
      for k := 0 to |strobe|
        invariant PokeLanes(words, address, value, strobe, k) == PokeLanes(old(words), address, value, strobe, 0)
      {
        if strobe[k] { Write8(Add32(address, k), ByteAt(value, k)); }
      }
    }

    method Write64(address: u32, value: u64, strobe: seq<bool>)
      requires |strobe| == 8
      modifies this
      ensures words == PokeLanes(old(words), address, value, strobe, 0)
      ensures StoredLanes(old(words), words, address, value, strobe)
    {
      forall a: u32 { PeekPokeLanes(words, address, value, strobe, 0, a); }
      StoreLanes(address, value, strobe);
    }

    method Load(address: u32, data: seq<byte>)
      modifies this
      ensures words == PokeAll(old(words), address, data)
    {
      for k := 0 to |data|
        invariant words == PokeAll(old(words), address, data[..k])
      {
        Write8(Add32(address, k), data[k]);
        assert data[..k + 1][..k] == data[..k];
      }
      assert data[..|data|] == data;
    }

    /** The hash map is written in whatever order it iterates. */
    method Save(writer: CheckpointWriter) returns (ghost order: Pairs)
      requires |words| < TWO64
      modifies writer
      ensures Enumerates(order, words) && |order| < TWO64
      ensures forall rest: seq<byte> {:trigger writer.stream + rest} ::
        writer.stream + rest == old(writer.stream) + PutWords(order, rest)
    {
      hide PutU32, PutU64;
      writer.WriteU64(|words|);
      order := [];
      var left := words.Keys;
      while left != {}
        invariant left <= words.Keys && |order| + |left| == |words|
        invariant forall i :: 0 <= i < |order| ==>
          order[i].0 in words && words[order[i].0] == order[i].1 && order[i].0 !in left
        invariant forall i, j :: 0 <= i < j < |order| ==> order[i].0 != order[j].0
        invariant forall rest: seq<byte> {:trigger writer.stream + rest} ::
          writer.stream + rest == old(writer.stream) + PutU64(|words|, PutPairs(order, rest))
        decreases left
      {
        var address :| address in left;
        ghost var before, done := writer.stream, order;
        writer.WriteU32(address);
        writer.WriteU32(words[address]);
        order := order + [(address, words[address])];
        left := left - {address};
        forall rest: seq<byte>
          ensures writer.stream + rest == old(writer.stream) + PutU64(|words|, PutPairs(order, rest))
        {
          PairsSnoc(done, address, words[address], rest);
          var tail := PutU32(address, PutU32(words[address], rest));
          assert writer.stream + rest == before + tail;
        }
      }
    }

    method Restore(reader: CheckpointReader) returns (r: Result<()>)
      modifies this, reader
      ensures match GetWords(old(reader.stream))
        case Ok(f) => r == Ok(()) && words == f.0 && reader.stream == f.1
        case Err(e) => r == Err(e)
    {
      hide GetU32;
      var count :- reader.ReadCount(WORD_LIMIT);
      words := map[];
      ghost var start := reader.stream;
      ghost var done: Pairs := [];
      ghost var all := GetPairs(count, start);
      assert all.Ok? ==> done + all.value.0 == all.value.0;
      for index := 0 to count
        invariant words == Collect(done)
        invariant match GetPairs(count - index, reader.stream)
          case Ok(f) => GetPairs(count, start) == Ok((done + f.0, f.1))
          case Err(e) => GetPairs(count, start) == Err(e)
      {
        ghost var s := reader.stream;
        var address :- reader.ReadU32();
        var value :- reader.ReadU32();
        ghost var tail := GetPairs(count - index - 1, reader.stream);
        assert tail.Ok? ==> done + ([(address, value)] + tail.value.0) == (done + [(address, value)]) + tail.value.0;
        assert (done + [(address, value)])[..|done|] == done;
        words := words[address := value];
        done := done + [(address, value)];
      }
      assert done + [] == done;
      return Ok(());
    }
  }
}
