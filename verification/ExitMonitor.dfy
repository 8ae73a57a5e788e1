/** The tohost monitor (src/ElfImage.cc:275-292): it follows the writes to one word and
    reports an exit code once that word is odd. */
module ExitMonitor {
  import opened Words
  import opened Memory

  datatype Exit = Exit(tohost: u32, value: u32)

  /** Lanes k..4 of a store as the monitor applies them: byte k of the data lands on
      byte `k + offset`, and bytes shifted out of the word are dropped. */
  function ShiftedLanes(word: u32, data: u32, strobe: Strobe4, offset: nat, k: nat): u32
    requires offset < 4 && k <= 4
    decreases 4 - k
  {
    if k == 4 then word
    else
      ShiftedLanes(if strobe[k] && k + offset < 4 then Lane(word, k + offset, ByteAt(data, k)) else word,
        data, strobe, offset, k + 1)
  }

  function Follow(e: Exit, address: u32, data: u32, strobe: Strobe4): Exit {
    if e.tohost / 4 != address / 4 then e
    else e.(value := ShiftedLanes(e.value, data, strobe, address % 4, 0))
  }

  /** The exit code announced by a tohost value, if it announces one. */
  function Code(value: u32): Option<int> {
    if value % 2 == 0 then None else if value == 1 then Some(0) else Some(value / 2)
  }

  function Report(e: Exit, address: u32, data: u32, strobe: Strobe4): Option<int> {
    if e.tohost / 4 != address / 4 then None else Code(Follow(e, address, data, strobe).value)
  }

  lemma {:induction false} ByteOfShifted(word: u32, data: u32, strobe: Strobe4, offset: nat, k: nat, j: nat)
    requires offset < 4 && k <= 4 && j < 4
    ensures ByteAt(ShiftedLanes(word, data, strobe, offset, k), j)
         == if k <= j - offset && strobe[j - offset] then ByteAt(data, j - offset) else ByteAt(word, j)
    decreases 4 - k
  {
    if k < 4 {
      var next := if strobe[k] && k + offset < 4 then Lane(word, k + offset, ByteAt(data, k)) else word;
      if k + offset < 4 { ByteOfWithByte(word, k + offset, ByteAt(data, k), j); }
      ByteOfShifted(next, data, strobe, offset, k + 1, j);
    }
  }

  /** The monitor updates its word as memory does, whatever the word and the data are. */
  ghost predicate FollowsMemory(strobe: Strobe4, offset: nat)
    requires offset < 4
  {
    forall word: u32, data: u32 :: ShiftedLanes(word, data, strobe, offset, 0) == MergeLanes(word, data, strobe, 0)
  }

  /** The data already sits on its bus lanes, so the monitor's own shift by the address
      offset is right only when there is nothing to shift: in the one word it is given, the
      monitor does what a memory word does exactly for word-aligned addresses and for writes
      without strobes. What a whole bus window needs is in AxiExit. */
  lemma {:induction false} FollowsMemoryIff(strobe: Strobe4, offset: nat)
    requires offset < 4
    ensures FollowsMemory(strobe, offset) <==> offset == 0 || true !in strobe
  {
    if offset == 0 || true !in strobe {
      forall word: u32, data: u32
        ensures ShiftedLanes(word, data, strobe, offset, 0) == MergeLanes(word, data, strobe, 0)
      {
        forall j | 0 <= j < 4
          ensures ByteAt(ShiftedLanes(word, data, strobe, offset, 0), j) == ByteAt(MergeLanes(word, data, strobe, 0), j)
        {
          ByteOfShifted(word, data, strobe, offset, 0, j);
          ByteOfMerge(word, data, strobe, 0, j);
          if offset != 0 { assert strobe[j] in strobe; if j >= offset { assert strobe[j - offset] in strobe; } }
        }
        Pow256Values();
        BytesDetermine(ShiftedLanes(word, data, strobe, offset, 0), MergeLanes(word, data, strobe, 0), 4);
      }
    } else {
      var k :| 0 <= k < 4 && strobe[k];
      var data: u32 := Lane(0, k, 1);
      ByteOfShifted(0, data, strobe, offset, 0, k);
      ByteOfMerge(0, data, strobe, 0, k);
      ByteOfWithByte(0, k, 1, k);
      ZeroBytes(k);
      if k >= offset {
        ByteOfWithByte(0, k, 1, k - offset);
        ZeroBytes(k - offset);
      }
      assert ShiftedLanes(0, data, strobe, offset, 0) != MergeLanes(0, data, strobe, 0);
    }
  }

  /** A byte with value 1 stored one byte above tohost: memory takes it in byte 1 of the
      word, the monitor in byte 2. */
  lemma {:induction false} ByteStoreIsShiftedTwice(words: WordMap)
    requires WordAt(words, 0x2000_0400) == 0
    ensures var strobe := [false, true, false, false];
      && Follow(Exit(0x8000_1000, 0), 0x8000_1001, 0x100, strobe).value == 0x1_0000
      && WordAt(PokeWord(words, 0x8000_1000, 0x100, strobe), 0x8000_1000 / 4) == 0x100
  {
    var strobe: Strobe4 := [false, true, false, false];
    assert ByteAt(0x100, 1) == ByteAt(1, 0) == 1;
    assert WithByte(0, 2, 1) == 0x1_0000 && WithByte(0, 1, 1) == 0x100 by {
      assert WithByte(0, 0, 1) == 1 && WithByte(0, 1, 1) == 0x100;
    }
    assert ShiftedLanes(0, 0x100, strobe, 1, 0) == ShiftedLanes(0x1_0000, 0x100, strobe, 1, 2);
    assert MergeLanes(0, 0x100, strobe, 0) == MergeLanes(0x100, 0x100, strobe, 2);
  }

  /** After a word-aligned store of one word the monitor's value is still the memory word at
      tohost. */
  lemma {:induction false} MirrorsTohost(e: Exit, words: WordMap, address: u32, data: u32, strobe: Strobe4)
    requires address % 4 == 0 && e.value == WordAt(words, e.tohost / 4)
    ensures Follow(e, address, data, strobe).value == WordAt(PokeWord(words, address, data, strobe), e.tohost / 4)
  {
    FollowsMemoryIff(strobe, 0);
  }

  class TestExitMonitor {
    const tohostAddress: u32
    var value: u32

    function State(): Exit
      reads this
    {
      Exit(tohostAddress, value)
    }

    constructor (tohostAddress: u32)
      ensures State() == Exit(tohostAddress, 0)
    {
      this.tohostAddress, value := tohostAddress, 0;
    }

    method SetValue(value: u32)
      modifies this
      ensures State() == Exit(tohostAddress, value)
    {
      this.value := value;
    }

    method ObserveWrite(address: u32, data: u32, strobe: Strobe4) returns (code: Option<int>)
      modifies this
      ensures State() == Follow(old(State()), address, data, strobe)
      ensures code == Report(old(State()), address, data, strobe)
    {
      if tohostAddress / 4 != address / 4 { return None; }
      var offset := address % 4;
      for k := 0 to 4
        invariant ShiftedLanes(value, data, strobe, offset, k) == ShiftedLanes(old(value), data, strobe, offset, 0)
      {
        if strobe[k] && k + offset < 4 { value := Lane(value, k + offset, ByteAt(data, k)); }
      }
      if value % 2 == 0 || value == 0 { return None; }
      return if value == 1 then Some(0) else Some(value / 2);
    }
  }
}
