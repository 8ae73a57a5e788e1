/** Whole bursts: how fast a demand burst streams, and which write bursts are accepted. */
module AxiBursts {
  import opened Words
  import opened Platform
  import opened ExitMonitor
  import opened AxiSlave
  import opened AxiScoreboard

  // ----- streaming -----

  /** A demand burst past its first beat, with nothing waiting on R. */
  predicate Streaming(s: Slave) {
    Inv(s) && s.contexts[0].active && s.contexts[0].beat >= 1 && !s.readDataValid
  }

  /** A cycle with RREADY held moves a streaming demand burst by one beat: no coin is
      drawn and the prefetcher cannot get in between. */
  lemma {:induction false} StreamStep(s: Slave, c: Cycle)
    requires Streaming(s) && c.master.Fits(s.bus) && c.master.rReady
    ensures var o, t := StepOutputs(s, c), Step(s, c).0;
      && o.rValid && o.rId == 0 && (o.rLast <==> s.contexts[0].beat == s.contexts[0].length)
      && t.contexts[0] == AfterBeat(s.contexts[0]) && !t.readDataValid
  {
    hide ReadBeat, DevicesAfterRead, StoreBeat, Follow, Report, Arrival, Ticked;
  }

  /** After its first beat a demand burst with RREADY held finishes in exactly as many
      cycles as it has beats left, one beat each, RLAST on the final one, whatever the
      other channels and the random backpressure do. */
  lemma {:induction false} DemandBurstStreams(s: Slave, cycles: seq<Cycle>)
    requires Streaming(s) && CyclesFit(s.bus, cycles)
    requires |cycles| == s.contexts[0].length - s.contexts[0].beat + 1
    requires forall i :: 0 <= i < |cycles| ==> cycles[i].master.rReady
    ensures forall i :: 0 <= i < |cycles| ==>
      var o := Run(s, cycles)[i].outputs; o.rValid && o.rId == 0 && (o.rLast <==> i == |cycles| - 1)
    ensures !StateAfter(s, cycles).contexts[0].active
    decreases |cycles|
  {
    hide Step, StepOutputs;
    StreamStep(s, cycles[0]);
    var t := Step(s, cycles[0]).0;
    if s.contexts[0].beat < s.contexts[0].length {
      DemandBurstStreams(t, cycles[1..]);
      forall i | 0 < i < |cycles|
        ensures Run(s, cycles)[i] == Run(t, cycles[1..])[i - 1]
      {
      }
    } else {
      assert cycles[1..] == [];
    }
  }

  // ----- which write bursts are accepted -----

  function BeatAddress(start: u32, size: nat, k: nat): u32 { Low32(start + k * size) }

  lemma {:induction false} BeatsGrow(size: nat, k: nat, n: nat)
    requires k <= n <= 255 && size <= 128
    ensures 0 <= k * size <= n * size <= 0x8000 && n * size + size == size * (n + 1)
  {
    assert n * size == k * size + (n - k) * size;
    assert k * size >= 0 && (n - k) * size >= 0;
    assert n * size <= 255 * size;
  }

  lemma {:induction false} TargetsApart(address: u32, size: nat, length: byte)
    requires 1 <= size
    ensures WriteTarget(true, address, size, length) == ToWriteCombine <==> IsWriteCombine(address, size * (length + 1))
    ensures WriteTarget(true, address, size, length) == ToMemory <==> IsRam(address, size)
  {
  }

  predicate InsideAperture(start: u32, size: nat, length: byte) {
    IsWriteCombine(start, size * (length + 1))
  }

  /** Every beat of a burst goes to the write-combine aperture. */
  ghost predicate AllWriteCombine(start: u32, size: nat, length: byte) {
    forall k :: 0 <= k <= length ==> WriteTarget(true, BeatAddress(start, size, k), size, length) == ToWriteCombine
  }

  /** A burst that lies inside the write-combine aperture is not always accepted: the test
      is repeated on each beat with the whole length, so the aperture must have room for
      the whole burst again behind the last beat. Exactly then is it accepted in full. */
  lemma {:induction false} WriteCombineBurstAcceptedIff(start: u32, size: nat, length: byte)
    requires 1 <= size <= 128
    ensures AllWriteCombine(start, size, length) <==>
      InsideAperture(start, size, length)
      && start + length * size + size * (length + 1) <= WRITE_COMBINE_BASE + WRITE_COMBINE_SIZE
  {
    hide WriteTarget;
    var total := size * (length + 1);
    if AllWriteCombine(start, size, length) {
      BeatsGrow(size, 0, length);
      ApertureEnd(start, size, length);
      assert BeatAddress(start, size, 0) == start;
      assert BeatAddress(start, size, length) == start + length * size;
    } else if InsideAperture(start, size, length)
              && start + length * size + total <= WRITE_COMBINE_BASE + WRITE_COMBINE_SIZE {
      forall k | 0 <= k <= length
        ensures WriteTarget(true, BeatAddress(start, size, k), size, length) == ToWriteCombine
      {
        BeatsGrow(size, k, length);
        SmallStep(start, k * size);
        TargetsApart(BeatAddress(start, size, k), size, length);
      }
    }
  }

  lemma {:induction false} ApertureEnd(start: u32, size: nat, length: byte)
    requires 1 <= size <= 128 && AllWriteCombine(start, size, length)
    ensures IsWriteCombine(start, size * (length + 1))
    ensures start + length * size < 0x1_0000_0000 && IsWriteCombine(start + length * size, size * (length + 1))
  {
    hide WriteTarget;
    var total := size * (length + 1);
    assert WriteTarget(true, BeatAddress(start, size, 0), size, length) == ToWriteCombine;
    assert WriteTarget(true, BeatAddress(start, size, length), size, length) == ToWriteCombine;
    TargetsApart(BeatAddress(start, size, 0), size, length);
    TargetsApart(BeatAddress(start, size, length), size, length);
    BeatsGrow(size, 0, length);
    SmallStep(start, length * size);
  }

  lemma {:induction false} SmallStep(start: u32, reach: nat)
    requires reach <= 0x8000
    ensures Low32(start) == start && (start < 0xa400_0000 ==> Low32(start + reach) == start + reach)
  {
  }

  /** Two eight-byte beats in the last sixteen bytes of the aperture: the first is taken,
      the second answered with DECERR. */
  lemma {:induction false} LastBurstOfApertureIsRefused(strobe: seq<bool>)
    requires |strobe| == 8
    ensures var start := WRITE_COMBINE_BASE + WRITE_COMBINE_SIZE - 16;
      && InsideAperture(start, 8, 1)
      && Verdict(8, true, BeatAddress(start, 8, 0), 8, 1, strobe) == OKAY
      && Verdict(8, true, BeatAddress(start, 8, 1), 8, 1, strobe) == DECERR
  {
  }

  /** With the platform, every beat of a burst goes to memory exactly when the burst lies
      inside RAM. */
  lemma {:induction false} RamBurstAcceptedIff(start: u32, size: nat, length: byte)
    requires 1 <= size <= 128
    ensures (forall k :: 0 <= k <= length ==> WriteTarget(true, BeatAddress(start, size, k), size, length) == ToMemory)
      <==> IsRam(start, size * (length + 1))
  {
    hide WriteTarget;
    BeatsGrow(size, 0, length);
    SmallStep(start, length * size);
    if forall k :: 0 <= k <= length ==> WriteTarget(true, BeatAddress(start, size, k), size, length) == ToMemory {
      assert WriteTarget(true, BeatAddress(start, size, 0), size, length) == ToMemory;
      assert WriteTarget(true, BeatAddress(start, size, length), size, length) == ToMemory;
      TargetsApart(BeatAddress(start, size, 0), size, length);
      TargetsApart(BeatAddress(start, size, length), size, length);
    } else if IsRam(start, size * (length + 1)) {
      forall k | 0 <= k <= length
        ensures WriteTarget(true, BeatAddress(start, size, k), size, length) == ToMemory
      {
        BeatsGrow(size, k, length);
        SmallStep(start, k * size);
        TargetsApart(BeatAddress(start, size, k), size, length);
      }
    }
  }
}
