/** The AXI part of a checkpoint (src/AXIMemory.cc:178-232): everything but the memory
    and device contents, which are saved in sections of their own. */
module AxiCheckpoint {
  import opened Words
  import opened Checkpoint
  import opened Rng
  import opened ExitMonitor
  import opened AxiSlave

  function PutRead(r: ReadTransaction, rest: seq<byte>): (s: seq<byte>)
    requires r.address < TWO64 && r.size < TWO64
    ensures GetRead(s) == Ok((r, rest))
  {
    PutBool(r.active, PutU64(r.address, PutU64(r.size, PutU8(r.length, PutU8(r.beat, rest)))))
  }

  function GetRead(s: seq<byte>): Parsed<ReadTransaction> {
    var active :- GetBool(s);
    var address :- GetU64(active.1);
    var size :- GetU64(address.1);
    var length :- GetU8(size.1);
    var beat :- GetU8(length.1);
    Ok((ReadTransaction(active.0, address.0, size.0, length.0, beat.0), beat.1))
  }

  datatype ReadSide = ReadSide(valid: bool, data: seq<u32>, selected: nat, response: byte,
    contexts: seq<ReadTransaction>)

  predicate ReadSideFits(r: ReadSide) {
    && r.selected < 0x100 && |r.contexts| == 2
    && r.contexts[0].address < TWO64 && r.contexts[0].size < TWO64
    && r.contexts[1].address < TWO64 && r.contexts[1].size < TWO64
  }

  function PutReadSide(r: ReadSide, rest: seq<byte>): (s: seq<byte>)
    requires ReadSideFits(r)
    ensures GetReadSide(|r.data|, s) == Ok((r, rest))
  {
    assert r.contexts == [r.contexts[0], r.contexts[1]];
    PutBool(r.valid, PutU32s(r.data, PutU8(r.selected, PutU8(r.response,
      PutRead(r.contexts[0], PutRead(r.contexts[1], rest))))))
  }

  function GetReadSide(words: nat, s: seq<byte>): Parsed<ReadSide> {
    var valid :- GetBool(s);
    var data :- GetU32s(words, valid.1);
    var selected :- GetU8(data.1);
    var response :- GetU8(selected.1);
    var demand :- GetRead(response.1);
    var prefetch :- GetRead(demand.1);
    Ok((ReadSide(valid.0, data.0, selected.0, response.0, [demand.0, prefetch.0]), prefetch.1))
  }

  datatype WriteSide = WriteSide(active: bool, responseValid: bool, address: nat, size: nat,
    length: byte, beat: byte, id: byte, response: byte)

  function PutWriteSide(w: WriteSide, rest: seq<byte>): (s: seq<byte>)
    requires w.address < TWO64 && w.size < TWO64
    ensures GetWriteSide(s) == Ok((w, rest))
  {
    PutBool(w.active, PutBool(w.responseValid, PutU64(w.address, PutU64(w.size,
      PutU8(w.length, PutU8(w.beat, PutU8(w.id, PutU8(w.response, rest))))))))
  }

  function GetWriteSide(s: seq<byte>): Parsed<WriteSide> {
    var place :- GetWritePlace(s);
    var burst :- GetWriteBurst(place.1);
    var (active, responseValid, address, size) := place.0;
    var (length, beat, id, response) := burst.0;
    Ok((WriteSide(active, responseValid, address, size, length, beat, id, response), burst.1))
  }

  function GetWritePlace(s: seq<byte>): Parsed<(bool, bool, u64, u64)> {
    var active :- GetBool(s);
    var responseValid :- GetBool(active.1);
    var address :- GetU64(responseValid.1);
    var size :- GetU64(address.1);
    Ok(((active.0, responseValid.0, address.0, size.0), size.1))
  }

  function GetWriteBurst(s: seq<byte>): Parsed<(byte, byte, byte, byte)> {
    var length :- GetU8(s);
    var beat :- GetU8(length.1);
    var id :- GetU8(beat.1);
    var response :- GetU8(id.1);
    Ok(((length.0, beat.0, id.0, response.0), response.1))
  }

  function ReadSideOf(s: Slave): ReadSide {
    ReadSide(s.readDataValid, s.readData, s.readSelectedId, s.readResponse, s.contexts)
  }

  function WriteSideOf(s: Slave): WriteSide {
    WriteSide(s.writeActive, s.writeResponseValid, s.writeAddress, s.writeSize,
      s.writeLength, s.writeBeat, s.writeId, s.writeResponse)
  }

  function WithSides(s: Slave, exit: Option<Exit>, r: ReadSide, w: WriteSide): Slave {
    s.(exit := exit, readDataValid := r.valid, readData := r.data, readSelectedId := r.selected,
      readResponse := r.response,
       contexts := r.contexts, writeActive := w.active, writeResponseValid := w.responseValid,
       writeAddress := w.address, writeSize := w.size, writeLength := w.length, writeBeat := w.beat,
       writeId := w.id, writeResponse := w.response)
  }

  datatype ExitSaved = ExitSaved(present: bool, value: u32, rng: bv64)

  function PutExit(e: ExitSaved, rest: seq<byte>): seq<byte> {
    PutBool(e.present, PutU32(e.value, PutU64(FieldOf(e.rng), rest)))
  }

  lemma {:induction false} ExitRoundTrip(e: ExitSaved, rest: seq<byte>)
    requires e.rng != 0
    ensures GetExit(e.present, PutExit(e, rest)) == Ok((e, rest))
    ensures GetExit(!e.present, PutExit(e, rest)) == Err(TohostMismatch)
  {
    hide FieldOf, StateOf;
    ReloadState(e.rng);
  }

  /** The exit value must fit the image, and the generator must not be stuck at zero. */
  function GetExit(expected: bool, s: seq<byte>): Parsed<ExitSaved> {
    var present :- GetBool(s);
    var value :- GetU32(present.1);
    if present.0 != expected then Err(TohostMismatch)
    else
      var state :- GetU64(value.1);
      if StateOf(state.0) == 0 then Err(ZeroRngState)
      else Ok((ExitSaved(present.0, value.0, StateOf(state.0)), state.1))
  }

  function ExitSavedOf(s: Slave, rng: bv64): ExitSaved {
    match s.exit case None => ExitSaved(false, 0, rng) case Some(e) => ExitSaved(true, e.value, rng)
  }

  function RestoredExit(current: Option<Exit>, e: ExitSaved): Option<Exit> {
    match current case None => None case Some(x) => Some(Exit(x.tohost, e.value))
  }

  function PutAxi(s: Slave, rng: bv64, rest: seq<byte>): seq<byte>
    requires Inv(s) && rng != 0
  {
    PutExit(ExitSavedOf(s, rng), PutReadSide(ReadSideOf(s), PutWriteSide(WriteSideOf(s), rest)))
  }

  /** Restore into an object that already has its bus, memory, devices and tohost. */
  function GetAxi(current: Slave, s: seq<byte>): Parsed<(Slave, bv64)> {
    var exit :- GetExit(current.exit.Some?, s);
    var reading :- GetReadSide(current.bus / 4, exit.1);
    var writing :- GetWriteSide(reading.1);
    Ok(((WithSides(current, RestoredExit(current.exit, exit.0), reading.0, writing.0), exit.0.rng), writing.1))
  }

  /** Two slaves built from the same image and options. */
  predicate SameWiring(s: Slave, t: Slave) {
    s.bus == t.bus && s.exit.Some? == t.exit.Some? && (s.exit.Some? ==> s.exit.value.tohost == t.exit.value.tohost)
  }

  /** Every reachable AXI state is restored exactly, into any slave wired alike. */
  lemma {:induction false} AxiRoundTrip(current: Slave, s: Slave, rng: bv64, rest: seq<byte>)
    requires Inv(s) && rng != 0 && SameWiring(current, s)
    ensures GetAxi(current, PutAxi(s, rng, rest))
         == Ok(((s.(words := current.words, devices := current.devices), rng), rest))
  {
    hide PutExit, PutReadSide, PutWriteSide, GetExit, GetReadSide, GetWriteSide, WithSides, ReadSideOf, WriteSideOf,
      ExitSavedOf, Inv;
    FieldsFit(s);
    var r, w, e := ReadSideOf(s), WriteSideOf(s), ExitSavedOf(s, rng);
    ExitRoundTrip(e, PutReadSide(r, PutWriteSide(w, rest)));
    SidesRebuild(current, s, rng);
  }

  lemma {:induction false} FieldsFit(s: Slave)
    requires Inv(s)
    ensures var r, w := ReadSideOf(s), WriteSideOf(s);
      && ReadSideFits(r) && |r.data| == s.bus / 4
      && w.address < TWO64 && w.size < TWO64
    ensures forall rng :: ExitSavedOf(s, rng).present == s.exit.Some? && ExitSavedOf(s, rng).rng == rng
  {
  }

  lemma {:induction false} SidesRebuild(current: Slave, s: Slave, rng: bv64)
    requires SameWiring(current, s)
    ensures WithSides(current, RestoredExit(current.exit, ExitSavedOf(s, rng)), ReadSideOf(s), WriteSideOf(s))
         == s.(words := current.words, devices := current.devices)
  {
  }

  lemma {:induction false} SplitState(s: Slave)
    ensures s == WithSides(s, s.exit, ReadSideOf(s), WriteSideOf(s))
  {
  }

  /** A slave is determined by its wiring, its contents and its saved parts. */
  lemma {:induction false} Reassembled(s: Slave, t: Slave)
    requires s.bus == t.bus && s.words == t.words && s.devices == t.devices
    ensures t == WithSides(s, t.exit, ReadSideOf(t), WriteSideOf(t))
  {
  }

  // ----- streams that no save has written -----

  /** Widths, and a generator that is not stuck, come with acceptance; AxiRestored says what
      restore does not check. */
  lemma {:induction false} RestoredShape(current: Slave, s: seq<byte>)
    requires GetAxi(current, s).Ok?
    ensures var (slave, rng) := GetAxi(current, s).value.0;
      rng != 0 && |slave.readData| == slave.bus / 4 && |slave.contexts| == 2
  {
    hide GetExit, GetReadSide, GetWriteSide, RestoredExit;
    var exit := GetExit(current.exit.Some?, s).value;
    ExitNeverZero(current.exit.Some?, s);
    ReadSideShape(current.bus / 4, exit.1);
  }

  lemma {:induction false} ExitNeverZero(expected: bool, s: seq<byte>)
    requires GetExit(expected, s).Ok?
    ensures GetExit(expected, s).value.0.rng != 0
  {
  }

  lemma {:induction false} ReadSideShape(words: nat, s: seq<byte>)
    requires GetReadSide(words, s).Ok?
    ensures |GetReadSide(words, s).value.0.data| == words && |GetReadSide(words, s).value.0.contexts| == 2
  {
    hide GetBool, GetU8, GetRead;
  }
}
