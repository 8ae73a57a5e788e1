/** What acceptance by the scoreboard means for the channel activity itself, stated on
    traces alone: stability, conservation of transactions, the shape of bursts. Together
    with AxiRefinement.EveryRunIsAccepted these hold of every run of the slave. */
module AxiTraces {
  import opened Words
  import opened Memory
  import opened Platform
  import opened AxiSlave
  import opened AxiScoreboard
  import opened AxiRefinement

  // ----- counting handshakes -----

  function Count(trace: seq<Observed>, p: Observed -> bool): nat {
    if trace == [] then 0 else (if p(trace[0]) then 1 else 0) + Count(trace[1..], p)
  }

  function ArOn(id: nat): Observed -> bool { (e: Observed) => ArShake(e.master, e.outputs) && e.master.arId == id }

  function ROn(id: nat): Observed -> bool { (e: Observed) => RShake(e.master, e.outputs) && e.outputs.rId == id }

  function LastOn(id: nat): Observed -> bool {
    (e: Observed) => RShake(e.master, e.outputs) && e.outputs.rId == id && e.outputs.rLast
  }

  function AwTaken(): Observed -> bool { (e: Observed) => AwShake(e.master, e.outputs) }

  function BTaken(): Observed -> bool { (e: Observed) => BShake(e.master, e.outputs) }

  ghost function Outstanding(b: Board, id: nat): nat
    requires Sound(b) && id < 2
  {
    if b.jobs[id].Some? then 1 else 0
  }

  /** Write transactions accepted on AW and not yet answered on B. */
  ghost function PendingWrites(b: Board): nat {
    (if b.writeJob.Some? then 1 else 0) + (if b.response.Some? then 1 else 0)
  }

  // ----- one cycle seen from one read id -----

  /** The job of a read id after a cycle depends on that id's handshakes alone. */
  lemma {:induction false} JobStep(b: Board, e: Observed, id: nat)
    requires Sound(b) && e.master.Fits(b.bus) && id < 2
    requires Correct(Before(b, e), e.master, e.outputs)
    ensures var job := b.jobs[id];
      See(b, e).jobs[id] ==
        if ArOn(id)(e) then Some(ReadJob(e.master.arAddress, BeatBytes(e.master.arSize), e.master.arLength, 0))
        else if LastOn(id)(e) then None
        else if ROn(id)(e) then Some(job.value.(delivered := job.value.delivered + 1))
        else job
    ensures ArOn(id)(e) ==> b.jobs[id].None? && !ROn(id)(e)
    ensures ROn(id)(e) ==> b.jobs[id].Some?
    ensures ROn(id)(e) ==> (e.outputs.rLast <==> b.jobs[id].value.delivered == b.jobs[id].value.length)
  {
    hide FreshBeat, DevicesAfterRead, BusStore, BusLoad, WriteTarget, ReadTarget, Verdict, Summary, Arrival, Ticked,
      SeeAw, SeeW, SeeB, CorrectWrite;
    var b1 := SeeLatch(Before(b, e), e.outputs);
    assert b1.jobs == b.jobs && b1.held == b.held;
    var b2 := SeeAr(b1, e.master, e.outputs);
    var b3 := SeeR(b2, e.master, e.outputs);
    WriteSideKeepsJobs(b3, e.master, e.outputs);
  }

  lemma {:induction false} WriteSideKeepsJobs(b: Board, m: Master, o: Outputs)
    requires Sound(b) && m.Fits(b.bus)
    ensures SeeB(SeeW(SeeAw(b, m, o), m, o), m, o).jobs == b.jobs
  {
    hide BusStore, WriteTarget, Verdict, Summary;
  }

  /** Conservation of reads: on every id, accepted bursts minus finished bursts is one
      while a burst is outstanding and zero otherwise. */
  lemma {:induction false} ReadsConserved(b: Board, trace: seq<Observed>, id: nat)
    requires Sound(b) && TraceFits(b.bus, trace) && Accepts(b, trace) && id < 2
    ensures Outstanding(b, id) + Count(trace, ArOn(id)) == Outstanding(SeeAll(b, trace), id) + Count(trace, LastOn(id))
    decreases |trace|
  {
    hide Correct, See;
    if trace != [] {
      JobStep(b, trace[0], id);
      ReadsConserved(See(b, trace[0]), trace[1..], id);
    }
  }

  lemma {:induction false} WriteStep(b: Board, e: Observed)
    requires Sound(b) && e.master.Fits(b.bus)
    requires Correct(Before(b, e), e.master, e.outputs)
    ensures PendingWrites(See(b, e)) + (if BTaken()(e) then 1 else 0)
         == PendingWrites(b) + (if AwTaken()(e) then 1 else 0)
    ensures PendingWrites(b) <= 1 ==> PendingWrites(See(b, e)) <= 1
  {
    hide FreshBeat, DevicesAfterRead, BusStore, BusLoad, WriteTarget, ReadTarget, Verdict, Summary, Arrival, Ticked,
      CorrectRead;
  }

  /** Conservation of writes: accepted AW minus delivered B is the one burst or response
      in flight, and there is never more than one. */
  lemma {:induction false} WritesConserved(b: Board, trace: seq<Observed>)
    requires Sound(b) && TraceFits(b.bus, trace) && Accepts(b, trace) && PendingWrites(b) <= 1
    ensures PendingWrites(b) + Count(trace, AwTaken()) == PendingWrites(SeeAll(b, trace)) + Count(trace, BTaken())
    ensures PendingWrites(SeeAll(b, trace)) <= 1
    decreases |trace|
  {
    hide Correct, See;
    if trace != [] {
      WriteStep(b, trace[0]);
      WritesConserved(See(b, trace[0]), trace[1..]);
    }
  }

  // ----- bursts -----

  /** While a burst is unfinished its delivered beats are counted exactly, however many
      beats of the other id come in between; the burst stays within its length. */
  lemma {:induction false} UnfinishedBurst(b: Board, trace: seq<Observed>, id: nat)
    requires Sound(b) && TraceFits(b.bus, trace) && Accepts(b, trace) && id < 2 && b.jobs[id].Some?
    requires Count(trace, LastOn(id)) == 0
    ensures var job := b.jobs[id].value;
      job.delivered + Count(trace, ROn(id)) <= job.length
      && SeeAll(b, trace).jobs[id] == Some(job.(delivered := job.delivered + Count(trace, ROn(id))))
    decreases |trace|
  {
    hide Correct, See;
    if trace != [] {
      JobStep(b, trace[0], id);
      UnfinishedBurst(See(b, trace[0]), trace[1..], id);
    }
  }

  /** From the acceptance of an AR to its RLAST the slave delivers exactly ARLEN + 1 beats:
      in a trace whose only RLAST of the id is its final cycle, there are as many beats as
      the burst still had to deliver. */
  lemma {:induction false} BurstDeliversLengthPlusOne(b: Board, trace: seq<Observed>, e: Observed, id: nat)
    requires Sound(b) && TraceFits(b.bus, trace + [e]) && id < 2 && b.jobs[id].Some?
    requires TraceFits(b.bus, trace) && Accepts(b, trace) && Count(trace, LastOn(id)) == 0
    requires Correct(Before(SeeAll(b, trace), e), e.master, e.outputs) && ROn(id)(e)
    ensures var beats := b.jobs[id].value.delivered + Count(trace, ROn(id)) + 1;
      (e.outputs.rLast <==> beats == b.jobs[id].value.length + 1) && beats <= b.jobs[id].value.length + 1
  {
    hide Correct, See;
    UnfinishedBurst(b, trace, id);
    assert (trace + [e])[|trace|] == e;
    JobStep(SeeAll(b, trace), e, id);
  }

  // ----- bursts of whole runs -----

  lemma {:induction false} SeeSplits(b: Board, xs: seq<Observed>, ys: seq<Observed>)
    requires Sound(b) && TraceFits(b.bus, xs) && TraceFits(b.bus, ys) && Accepts(b, xs + ys)
    ensures TraceFits(b.bus, xs + ys) && SeeAll(b, xs + ys) == SeeAll(SeeAll(b, xs), ys)
    ensures Accepts(b, xs) && Accepts(SeeAll(b, xs), ys)
    decreases |xs|
  {
    hide Correct, See;
    if xs == [] {
      assert xs + ys == ys;
    } else {
      assert (xs + ys)[0] == xs[0] && (xs + ys)[1..] == xs[1..] + ys;
      SeeSplits(See(b, xs[0]), xs[1..], ys);
    }
  }

  lemma {:induction false} FirstSeen(b: Board, e: Observed, rest: seq<Observed>)
    requires Sound(b) && e.master.Fits(b.bus) && TraceFits(b.bus, rest)
    requires TraceFits(b.bus, [e] + rest) && Accepts(b, [e] + rest)
    ensures Correct(Before(b, e), e.master, e.outputs) && Accepts(See(b, e), rest)
    ensures SeeAll(b, [e] + rest) == SeeAll(See(b, e), rest)
  {
    hide Correct, See;
    assert ([e] + rest)[1..] == rest;
  }

  /** The beats of an id taken in the cycles from i + 1 up to l. */
  function BeatsBetween(trace: seq<Observed>, id: nat, i: nat, l: nat): nat
    requires i < l <= |trace|
  {
    Count(trace[i + 1..l], ROn(id))
  }

  /** No burst of the id ends in the cycles from i + 1 up to l. */
  predicate StillOpen(trace: seq<Observed>, id: nat, i: nat, l: nat)
    requires i < l <= |trace|
  {
    Count(trace[i + 1..l], LastOn(id)) == 0
  }

  /** A burst accepted in cycle i and not finished before cycle l stands at the beat that
      the beats taken in between lead to. */
  lemma {:induction false} JobOfBurst(b: Board, trace: seq<Observed>, id: nat, i: nat, l: nat)
    requires Sound(b) && TraceFits(b.bus, trace) && Accepts(b, trace) && id < 2
    requires i < l <= |trace| && ArOn(id)(trace[i]) && StillOpen(trace, id, i, l)
    ensures TraceFits(b.bus, trace[..l]) && Accepts(SeeAll(b, trace[..l]), trace[l..])
    ensures BeatsBetween(trace, id, i, l) <= trace[i].master.arLength
    ensures var m := trace[i].master;
      SeeAll(b, trace[..l]).jobs[id]
      == Some(ReadJob(m.arAddress, BeatBytes(m.arSize), m.arLength, BeatsBetween(trace, id, i, l)))
  {
    hide Correct, See, SeeAll, Accepts, Count, ArOn, ROn, LastOn, BeatBytes;
    assert trace == trace[..i] + trace[i..] && trace[..l] == trace[..i] + ([trace[i]] + trace[i + 1..l]);
    assert trace == trace[..l] + trace[l..];
    SeeSplits(b, trace[..l], trace[l..]);
    SeeSplits(b, trace[..i], [trace[i]] + trace[i + 1..l]);
    var before := SeeAll(b, trace[..i]);
    FirstSeen(before, trace[i], trace[i + 1..l]);
    JobStep(before, trace[i], id);
    UnfinishedBurst(See(before, trace[i]), trace[i + 1..l], id);
  }

  /** A new beat of the burst accepted in cycle i answers for the address of its number. */
  ghost predicate AnswersBeat(b: Board, trace: seq<Observed>, id: nat, i: nat, l: nat)
    requires Sound(b) && TraceFits(b.bus, trace) && id < 2 && i < l < |trace| && trace[i].master.Fits(b.bus)
  {
    var m := trace[i].master;
    FreshBeat(Before(SeeAll(b, trace[..l]), trace[l]),
      ReadJob(m.arAddress, Pow2(m.arSize), m.arLength, BeatsBetween(trace, id, i, l)), trace[l].outputs)
  }

  /** Every read burst of every run, seen on the channels alone. Say an AR is accepted in
      cycle i, no burst of its id ends before cycle l, and its id is on R in cycle l. Then
      RLAST is up exactly when ARLEN beats of the id have been taken since, so a finished
      burst has ARLEN + 1; and if the beat is new it answers for ARADDR + k * 2^ARSIZE, where k
      beats have been taken since, however the other id's beats are interleaved. */
  lemma {:induction false} EveryBurstIsWhole(bus: nat, words: WordMap, devices: Option<Devices>,
    exit: Option<ExitMonitor.Exit>, cycles: seq<Cycle>, id: nat, i: nat, l: nat)
    requires BusWidth(bus) && CyclesFit(bus, cycles) && id < 2 && i < l < |cycles|
    requires var trace := Run(NewSlave(bus, words, devices, exit), cycles);
      ArOn(id)(trace[i]) && StillOpen(trace, id, i, l) && trace[l].outputs.rValid && trace[l].outputs.rId == id
    ensures var b, trace := NewBoard(bus, words, devices), Run(NewSlave(bus, words, devices, exit), cycles);
      && TraceFits(bus, trace)
      && (trace[l].outputs.rLast <==> BeatsBetween(trace, id, i, l) == trace[i].master.arLength)
      && (SeeAll(b, trace[..l]).held.None? ==> AnswersBeat(b, trace, id, i, l))
  {
    hide Run, FreshBeat, CorrectWrite, See, ArOn, LastOn;
    EveryRunIsAccepted(bus, words, devices, exit, cycles);
    var b, trace := NewBoard(bus, words, devices), Run(NewSlave(bus, words, devices, exit), cycles);
    JobOfBurst(b, trace, id, i, l);
    BeatBytesIsPower(trace[i].master.arSize);
    assert trace[l..][0] == trace[l];
  }

  // ----- channel stability -----

  /** A cycle in which R is valid and not taken. */
  predicate RWaits(e: Observed) { e.outputs.rValid && !e.master.rReady }

  predicate BWaits(e: Observed) { e.outputs.bValid && !e.master.bReady }

  predicate SameR(o: Outputs, p: Outputs) {
    o.rValid && p.rValid && o.rId == p.rId && o.rData == p.rData && o.rResponse == p.rResponse && o.rLast == p.rLast
  }

  predicate SameB(o: Outputs, p: Outputs) {
    o.bValid && p.bValid && o.bId == p.bId && o.bResponse == p.bResponse
  }

  ghost predicate HoldsR(b: Board, o: Outputs) {
    o.rValid && b.held == Some(Payload(o.rId, o.rData, o.rResponse, o.rLast))
  }

  ghost predicate HoldsB(b: Board, o: Outputs) {
    o.bValid && b.response == Some((o.bId, o.bResponse))
  }

  lemma {:induction false} WaitingIsHeld(b: Board, e: Observed)
    requires Sound(b) && e.master.Fits(b.bus)
    requires Correct(Before(b, e), e.master, e.outputs)
    ensures RWaits(e) ==> HoldsR(See(b, e), e.outputs)
    ensures BWaits(e) ==> HoldsB(See(b, e), e.outputs)
  {
    hide FreshBeat, DevicesAfterRead, BusStore, BusLoad, WriteTarget, ReadTarget, Verdict, Summary, Arrival, Ticked;
  }

  lemma {:induction false} HeldStaysR(b: Board, trace: seq<Observed>, o: Outputs, j: nat)
    requires Sound(b) && TraceFits(b.bus, trace) && Accepts(b, trace) && HoldsR(b, o) && j < |trace|
    requires forall i :: 0 <= i < j ==> !trace[i].master.rReady
    ensures SameR(o, trace[j].outputs)
    decreases j
  {
    hide See, FreshBeat, CorrectWrite;
    if j > 0 {
      WaitingIsHeld(b, trace[0]);
      HeldStaysR(See(b, trace[0]), trace[1..], o, j - 1);
    }
  }

  lemma {:induction false} HeldStaysB(b: Board, trace: seq<Observed>, o: Outputs, j: nat)
    requires Sound(b) && TraceFits(b.bus, trace) && Accepts(b, trace) && HoldsB(b, o) && j < |trace|
    requires forall i :: 0 <= i < j ==> !trace[i].master.bReady
    ensures SameB(o, trace[j].outputs)
    decreases j
  {
    hide See, CorrectRead;
    if j > 0 {
      WaitingIsHeld(b, trace[0]);
      HeldStaysB(See(b, trace[0]), trace[1..], o, j - 1);
    }
  }

  /** Channel stability (IHI 0022, section A3.2.1): once R or B is valid it stays valid with
      the same payload through any number of cycles until it is taken, whatever happens on
      the other channels. */
  lemma {:induction false} ChannelsAreStable(b: Board, trace: seq<Observed>, i: nat, j: nat)
    requires Sound(b) && TraceFits(b.bus, trace) && Accepts(b, trace) && i <= j < |trace|
    ensures trace[i].outputs.rValid && (forall k :: i <= k < j ==> !trace[k].master.rReady) ==>
      SameR(trace[i].outputs, trace[j].outputs)
    ensures trace[i].outputs.bValid && (forall k :: i <= k < j ==> !trace[k].master.bReady) ==>
      SameB(trace[i].outputs, trace[j].outputs)
    decreases i
  {
    hide See, Correct;
    if i > 0 {
      ChannelsAreStable(See(b, trace[0]), trace[1..], i - 1, j - 1);
      Shifted(trace, i, j);
    } else if j > 0 {
      var next, rest := See(b, trace[0]), trace[1..];
      WaitingIsHeld(b, trace[0]);
      if trace[0].outputs.rValid && (forall k :: 0 <= k < j ==> !trace[k].master.rReady) {
        HeldStaysR(next, rest, trace[0].outputs, j - 1);
      }
      if trace[0].outputs.bValid && (forall k :: 0 <= k < j ==> !trace[k].master.bReady) {
        HeldStaysB(next, rest, trace[0].outputs, j - 1);
      }
    }
  }

  lemma {:induction false} Shifted(trace: seq<Observed>, i: nat, j: nat)
    requires 0 < i <= j < |trace|
    ensures trace[1..][i - 1] == trace[i] && trace[1..][j - 1] == trace[j]
    ensures (forall k :: i <= k < j ==> !trace[k].master.rReady) ==>
      forall k :: i - 1 <= k < j - 1 ==> !trace[1..][k].master.rReady
    ensures (forall k :: i <= k < j ==> !trace[k].master.bReady) ==>
      forall k :: i - 1 <= k < j - 1 ==> !trace[1..][k].master.bReady
  {
  }

  // ----- where a delivered beat comes from -----

  /** No beat waits on R when cycle l begins, so its beat is new, and it answers its job
      from memory and devices as they are at the start of that cycle. */
  ghost predicate FreshAt(b: Board, trace: seq<Observed>, l: nat)
    requires Sound(b) && TraceFits(b.bus, trace) && l < |trace|
  {
    var c := Before(SeeAll(b, trace[..l]), trace[l]);
    var o := trace[l].outputs;
    c.held.None? && o.rId < 2 && c.jobs[o.rId].Some? && FreshBeat(c, c.jobs[o.rId].value, o)
  }

  predicate NotTaken(trace: seq<Observed>, l: nat, j: nat)
    requires l <= j < |trace|
  {
    forall k :: l <= k < j ==> !trace[k].master.rReady
  }

  /** The beat shown in cycle j is the very one that was new in cycle l: it has not been
      taken in between. */
  ghost predicate OriginOf(b: Board, trace: seq<Observed>, l: nat, j: nat)
    requires Sound(b) && TraceFits(b.bus, trace) && l <= j < |trace|
  {
    FreshAt(b, trace, l) && NotTaken(trace, l, j) && SameR(trace[l].outputs, trace[j].outputs)
  }

  lemma {:induction false} FreshShifts(b: Board, trace: seq<Observed>, l: nat)
    requires Sound(b) && TraceFits(b.bus, trace) && 0 < l < |trace|
    requires FreshAt(See(b, trace[0]), trace[1..], l - 1)
    ensures FreshAt(b, trace, l)
  {
    hide See, FreshBeat;
    assert trace[..l][1..] == trace[1..][..l - 1] && trace[..l][0] == trace[0];
    assert trace[1..][l - 1] == trace[l];
  }

  lemma {:induction false} NotTakenShifts(trace: seq<Observed>, l: nat, j: nat)
    requires 0 < l <= j < |trace|
    ensures NotTaken(trace[1..], l - 1, j - 1) ==> NotTaken(trace, l, j)
  {
    if NotTaken(trace[1..], l - 1, j - 1) {
      forall k | l <= k < j ensures !trace[k].master.rReady {
        assert trace[1..][k - 1] == trace[k];
      }
    }
  }

  lemma {:induction false} NewHeld(b: Board, e: Observed)
    requires Sound(b) && e.master.Fits(b.bus) && Correct(Before(b, e), e.master, e.outputs)
    ensures See(b, e).held.Some? ==> HoldsR(See(b, e), e.outputs) && !e.master.rReady
  {
    hide FreshBeat, DevicesAfterRead, BusStore, BusLoad, WriteTarget, ReadTarget, Verdict, Summary, Arrival, Ticked;
  }

  lemma {:induction false} BeatOrigin(b: Board, trace: seq<Observed>, j: nat) returns (l: int)
    requires Sound(b) && TraceFits(b.bus, trace) && Accepts(b, trace) && j < |trace| && trace[j].outputs.rValid
    ensures l == -1 || 0 <= l <= j
    ensures l == -1 ==> HoldsR(b, trace[j].outputs) && NotTaken(trace, 0, j)
    ensures l >= 0 ==> OriginOf(b, trace, l, j)
    decreases j
  {
    hide See, FreshBeat, CorrectWrite;
    if j == 0 {
      l := if b.held.Some? then -1 else 0;
      assert trace[..0] == [];
    } else {
      var next := See(b, trace[0]);
      var k := BeatOrigin(next, trace[1..], j - 1);
      NotTakenShifts(trace, if k >= 0 then k + 1 else 1, j);
      if k >= 0 {
        l := k + 1;
        FreshShifts(b, trace, l);
      } else {
        NewHeld(b, trace[0]);
        l := if b.held.Some? then -1 else 0;
        assert trace[..0] == [];
      }
    }
  }

  /** Every beat on R, whenever it is finally taken, carries what memory and devices held
      in the cycle in which it was first presented: for a memory beat, on every byte lane
      of its bus window, the last strobed byte accepted on W before that cycle, else the
      byte of the initial image. */
  lemma {:induction false} EveryBeatWasFresh(bus: nat, words: WordMap, devices: Option<Devices>,
    exit: Option<ExitMonitor.Exit>, cycles: seq<Cycle>, j: nat)
    requires BusWidth(bus) && CyclesFit(bus, cycles) && j < |cycles|
    ensures var trace := Run(NewSlave(bus, words, devices, exit), cycles);
      && TraceFits(bus, trace)
      && (trace[j].outputs.rValid ==> exists l :: 0 <= l <= j && OriginOf(NewBoard(bus, words, devices), trace, l, j))
  {
    hide FreshAt, Run, Accepts;
    EveryRunIsAccepted(bus, words, devices, exit, cycles);
    var trace := Run(NewSlave(bus, words, devices, exit), cycles);
    if trace[j].outputs.rValid {
      var l := BeatOrigin(NewBoard(bus, words, devices), trace, j);
      assert OriginOf(NewBoard(bus, words, devices), trace, l, j);
    }
  }

  lemma {:induction false} TracksOutstanding(s: Slave, b: Board)
    requires Tracks(s, b)
    ensures Outstanding(b, 0) == (if s.contexts[0].active then 1 else 0)
    ensures Outstanding(b, 1) == (if s.contexts[1].active then 1 else 0)
    ensures PendingWrites(b) == (if s.writeActive then 1 else 0) + (if s.writeResponseValid then 1 else 0)
  {
  }

  /** Conservation for every run of the slave from its initial state, on both read ids and
      on the write channels; the response register and an active burst exclude each other. */
  lemma {:induction false} EveryRunConservesTransactions(bus: nat, words: WordMap, devices: Option<Devices>,
    exit: Option<ExitMonitor.Exit>, cycles: seq<Cycle>)
    requires BusWidth(bus) && CyclesFit(bus, cycles)
    ensures var s, trace := StateAfter(NewSlave(bus, words, devices, exit), cycles),
      Run(NewSlave(bus, words, devices, exit), cycles);
      && Count(trace, ArOn(0)) - Count(trace, LastOn(0)) == (if s.contexts[0].active then 1 else 0)
      && Count(trace, ArOn(1)) - Count(trace, LastOn(1)) == (if s.contexts[1].active then 1 else 0)
      && Count(trace, AwTaken()) - Count(trace, BTaken())
         == (if s.writeActive then 1 else 0) + (if s.writeResponseValid then 1 else 0)
      && !(s.writeActive && s.writeResponseValid)
  {
    hide Accepts, Run, StateAfter, Count, SeeAll, Tracks, ArOn, LastOn, AwTaken, BTaken;
    NewTracks(bus, words, devices, exit);
    RunIsAccepted(NewSlave(bus, words, devices, exit), NewBoard(bus, words, devices), cycles);
    var b, trace := NewBoard(bus, words, devices), Run(NewSlave(bus, words, devices, exit), cycles);
    ReadsConserved(b, trace, 0);
    ReadsConserved(b, trace, 1);
    WritesConserved(b, trace);
    TracksOutstanding(StateAfter(NewSlave(bus, words, devices, exit), cycles), SeeAll(b, trace));
  }
}
