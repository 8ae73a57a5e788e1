/** The checkpoint byte stream: fixed-width little-endian fields, length-prefixed
    strings and capped counts (include/Checkpoint.h, src/Checkpoint.cc).

    Encoders are written with the rest of the stream as their last argument, so that
    decoding an encoded value leaves exactly that rest. */
module Checkpoint {
  import opened Words

  datatype Error =
    | Truncated
    | CountExceedsLimit
    | InvalidTimerSubcycle
    | ZeroRngState
    | TohostMismatch
    | BadMagic
    | UnsupportedVersion
    | BuildMismatch
    | ImageMismatch
    | RtlMismatch
    | PlatformModeMismatch
    | DifftestMismatch
    | SeedMismatch
    | PlatformMismatch
    | ReferenceMismatch
    | TrailingData
    | RtlUnreadable
    | MissingMstatus
    | AbsentCsr
    | MissingCounterHalf

  datatype Result<+T> = Ok(value: T) | Err(error: Error) {
    predicate IsFailure() { Err? }
    function PropagateFailure<U>(): Result<U> requires Err? { Err(error) }
    function Extract(): T requires Ok? { value }
  }

  type Parsed<T> = Result<(T, seq<byte>)>

  // ----- fields -----

  function Get(width: nat, s: seq<byte>): (r: Parsed<nat>)
    ensures r.Ok? ==> r.value.0 < Pow256(width)
  {
    if |s| < width then Err(Truncated)
    else
      JoinBound(s[..width]);
      Ok((Join(s[..width]), s[width..]))
  }

  function Put(width: nat, v: nat, rest: seq<byte>): (s: seq<byte>)
    requires v < Pow256(width)
    ensures Get(width, s) == Ok((v, rest))
  {
    JoinSplit(v, width);
    var s := Split(v, width) + rest;
    assert s[..width] == Split(v, width) && s[width..] == rest;
    s
  }

  function GetU8(s: seq<byte>): Parsed<byte> {
    var f :- Get(1, s);
    Pow256Values();
    Ok((f.0, f.1))
  }

  function PutU8(v: byte, rest: seq<byte>): (s: seq<byte>)
    ensures GetU8(s) == Ok((v, rest))
  {
    Pow256Values();
    Put(1, v, rest)
  }

  function GetU32(s: seq<byte>): Parsed<u32> {
    var f :- Get(4, s);
    Pow256Values();
    Ok((f.0, f.1))
  }

  function PutU32(v: u32, rest: seq<byte>): (s: seq<byte>)
    ensures GetU32(s) == Ok((v, rest))
  {
    Pow256Values();
    Put(4, v, rest)
  }

  function GetU64(s: seq<byte>): Parsed<u64> {
    var f :- Get(8, s);
    Pow256Values();
    Ok((f.0, f.1))
  }

  function PutU64(v: u64, rest: seq<byte>): (s: seq<byte>)
    ensures GetU64(s) == Ok((v, rest))
  {
    Pow256Values();
    Put(8, v, rest)
  }

  /** A bool occupies one byte and is written as 0 or 1. */
  function GetBool(s: seq<byte>): Parsed<bool> {
    var f :- GetU8(s);
    Ok((f.0 != 0, f.1))
  }

  function PutBool(v: bool, rest: seq<byte>): (s: seq<byte>)
    ensures GetBool(s) == Ok((v, rest))
  {
    PutU8(if v then 1 else 0, rest)
  }

  function GetBytes(n: nat, s: seq<byte>): (r: Parsed<seq<byte>>)
    ensures r.Ok? ==> |r.value.0| == n
  {
    if |s| < n then Err(Truncated) else Ok((s[..n], s[n..]))
  }

  function PutBytes(v: seq<byte>, rest: seq<byte>): (s: seq<byte>)
    ensures GetBytes(|v|, s) == Ok((v, rest))
  {
    assert (v + rest)[..|v|] == v && (v + rest)[|v|..] == rest;
    v + rest
  }

  /** readCount: a count above its cap is refused. */
  function GetCount(maximum: nat, s: seq<byte>): (r: Parsed<u64>)
    ensures r.Ok? ==> r.value.0 <= maximum
  {
    var f :- GetU64(s);
    if f.0 > maximum then Err(CountExceedsLimit) else Ok(f)
  }

  function GetString(maximum: nat, s: seq<byte>): Parsed<seq<byte>> {
    var n :- GetCount(maximum, s);
    GetBytes(n.0, n.1)
  }

  function PutString(v: seq<byte>, rest: seq<byte>): (s: seq<byte>)
    requires |v| < TWO64
    ensures forall maximum: nat :: |v| <= maximum ==> GetString(maximum, s) == Ok((v, rest))
    ensures forall maximum: nat :: |v| > maximum ==> GetString(maximum, s) == Err(CountExceedsLimit)
  {
    PutU64(|v|, PutBytes(v, rest))
  }

  // ----- arrays of 32-bit words and of 64-bit words -----

  function GetU32s(n: nat, s: seq<byte>): (r: Parsed<seq<u32>>)
    ensures r.Ok? ==> |r.value.0| == n
  {
    if n == 0 then Ok(([], s))
    else
      var h :- GetU32(s);
      var t :- GetU32s(n - 1, h.1);
      Ok(([h.0] + t.0, t.1))
  }

  function PutU32s(v: seq<u32>, rest: seq<byte>): (s: seq<byte>)
    ensures GetU32s(|v|, s) == Ok((v, rest))
  {
    if v == [] then rest
    else
      assert v == [v[0]] + v[1..];
      PutU32(v[0], PutU32s(v[1..], rest))
  }

  function GetU64s(n: nat, s: seq<byte>): (r: Parsed<seq<u64>>)
    ensures r.Ok? ==> |r.value.0| == n
  {
    if n == 0 then Ok(([], s))
    else
      var h :- GetU64(s);
      var t :- GetU64s(n - 1, h.1);
      Ok(([h.0] + t.0, t.1))
  }

  function PutU64s(v: seq<u64>, rest: seq<byte>): (s: seq<byte>)
    ensures GetU64s(|v|, s) == Ok((v, rest))
  {
    if v == [] then rest
    else
      assert v == [v[0]] + v[1..];
      PutU64(v[0], PutU64s(v[1..], rest))
  }

  // ----- hash maps, written in whatever order the map iterates -----

  /** An order in which an iteration visits every entry of a map once. */
  ghost predicate Enumerates<V>(order: seq<(u32, V)>, m: map<u32, V>) {
    && |order| == |m|
    && (forall i :: 0 <= i < |order| ==> order[i].0 in m && m[order[i].0] == order[i].1)
    && (forall i, j :: 0 <= i < j < |order| ==> order[i].0 != order[j].0)
  }

  function Collect<V>(order: seq<(u32, V)>): map<u32, V> {
    if order == [] then map[]
    else Collect(order[..|order| - 1])[order[|order| - 1].0 := order[|order| - 1].1]
  }

  /** However a map is enumerated, inserting the entries one by one rebuilds it. */
  lemma {:induction false} CollectEnumerated<V>(order: seq<(u32, V)>, m: map<u32, V>)
    requires Enumerates(order, m)
    ensures Collect(order) == m
  {
    if order == [] {
      assert m == map[];
    } else {
      var n := |order| - 1;
      var k := order[n].0;
      assert Enumerates(order[..n], m - {k}) by {
        assert (m - {k}).Keys == m.Keys - {k};
        assert |(m - {k}).Keys| == |m.Keys| - 1;
      }
      CollectEnumerated(order[..n], m - {k});
      assert m == (m - {k})[k := m[k]];
    }
  }

  /** Entries inserted with emplace: the first of several with one key stays. */
  function CollectFirst<V>(order: seq<(u32, V)>): map<u32, V> {
    if order == [] then map[]
    else
      var before := CollectFirst(order[..|order| - 1]);
      if order[|order| - 1].0 in before then before else before[order[|order| - 1].0 := order[|order| - 1].1]
  }

  lemma {:induction false} KeysCollected<V>(order: seq<(u32, V)>, k: u32)
    ensures k in Collect(order) <==> exists i :: 0 <= i < |order| && order[i].0 == k
  {
    if order != [] {
      var n := |order| - 1;
      KeysCollected(order[..n], k);
      if k in Collect(order[..n]) {
        var i :| 0 <= i < n && order[..n][i].0 == k;
        assert order[i].0 == k;
      }
      if i :| 0 <= i < |order| && order[i].0 == k {
        if i < n { assert order[..n][i].0 == k; }
      }
    }
  }

  /** With distinct keys emplace and assignment build the same map. */
  lemma {:induction false} FirstIsLast<V>(order: seq<(u32, V)>)
    requires forall i, j :: 0 <= i < j < |order| ==> order[i].0 != order[j].0
    ensures CollectFirst(order) == Collect(order)
  {
    if order != [] {
      var n := |order| - 1;
      FirstIsLast(order[..n]);
      KeysCollected(order[..n], order[n].0);
    }
  }

  /** Every map can be enumerated. */
  lemma {:induction false} EnumerationExists<V>(m: map<u32, V>) returns (order: seq<(u32, V)>)
    ensures Enumerates(order, m)
    decreases |m|
  {
    if m == map[] {
      order := [];
    } else {
      var k :| k in m;
      assert (m - {k}).Keys == m.Keys - {k};
      assert |(m - {k}).Keys| == |m.Keys| - 1;
      var shorter := EnumerationExists(m - {k});
      order := shorter + [(k, m[k])];
    }
  }

  type Pairs = seq<(u32, u32)>

  function GetPairs(n: nat, s: seq<byte>): (r: Parsed<Pairs>)
    ensures r.Ok? ==> |r.value.0| == n
  {
    if n == 0 then Ok(([], s))
    else
      var k :- GetU32(s);
      var v :- GetU32(k.1);
      var t :- GetPairs(n - 1, v.1);
      Ok(([(k.0, v.0)] + t.0, t.1))
  }

  function PutPairs(v: Pairs, rest: seq<byte>): (s: seq<byte>)
    ensures GetPairs(|v|, s) == Ok((v, rest))
  {
    if v == [] then rest
    else
      assert v == [(v[0].0, v[0].1)] + v[1..];
      PutU32(v[0].0, PutU32(v[0].1, PutPairs(v[1..], rest)))
  }

  lemma {:induction false} PairsSnoc(v: Pairs, key: u32, value: u32, rest: seq<byte>)
    ensures PutPairs(v + [(key, value)], rest) == PutPairs(v, PutU32(key, PutU32(value, rest)))
  {
    hide PutU32;
    if v == [] {
      assert ([] + [(key, value)])[1..] == [];
    } else {
      assert (v + [(key, value)])[1..] == v[1..] + [(key, value)];
      PairsSnoc(v[1..], key, value, rest);
    }
  }

  // ----- the reader and writer objects -----

  class CheckpointWriter {
    var stream: seq<byte>

    constructor ()
      ensures stream == []
    {
      stream := [];
    }

    method Write(width: nat, v: nat)
      requires v < Pow256(width)
      modifies this
      ensures stream == old(stream) + Split(v, width)
      ensures forall rest: seq<byte> {:trigger stream + rest} :: stream + rest == old(stream) + Put(width, v, rest)
    {
      stream := stream + Split(v, width);
      forall rest: seq<byte> ensures stream + rest == old(stream) + Put(width, v, rest) {
        assert old(stream) + Split(v, width) + rest == old(stream) + (Split(v, width) + rest);
      }
    }

    method WriteU8(v: byte)
      modifies this
      ensures forall rest: seq<byte> {:trigger stream + rest} :: stream + rest == old(stream) + PutU8(v, rest)
    {
      Pow256Values();
      Write(1, v);
    }

    method WriteBool(v: bool)
      modifies this
      ensures forall rest: seq<byte> {:trigger stream + rest} :: stream + rest == old(stream) + PutBool(v, rest)
    {
      WriteU8(if v then 1 else 0);
    }

    method WriteU32(v: u32)
      modifies this
      ensures forall rest: seq<byte> {:trigger stream + rest} :: stream + rest == old(stream) + PutU32(v, rest)
    {
      Pow256Values();
      Write(4, v);
    }

    method WriteU64(v: u64)
      modifies this
      ensures forall rest: seq<byte> {:trigger stream + rest} :: stream + rest == old(stream) + PutU64(v, rest)
    {
      Pow256Values();
      Write(8, v);
    }

    method WriteBytes(v: seq<byte>)
      modifies this
      ensures forall rest: seq<byte> {:trigger stream + rest} :: stream + rest == old(stream) + PutBytes(v, rest)
    {
      stream := stream + v;
      forall rest: seq<byte> ensures stream + rest == old(stream) + PutBytes(v, rest) {
        assert old(stream) + v + rest == old(stream) + (v + rest);
      }
    }

    method WriteString(v: seq<byte>)
      requires |v| < TWO64
      modifies this
      ensures forall rest: seq<byte> {:trigger stream + rest} :: stream + rest == old(stream) + PutString(v, rest)
    {
      WriteU64(|v|);
      WriteBytes(v);
    }

    /** An array is written as its words, one after the other. */
    method WriteU32s(v: seq<u32>)
      modifies this
      decreases |v|
      ensures forall rest: seq<byte> {:trigger stream + rest} :: stream + rest == old(stream) + PutU32s(v, rest)
    {
      if v != [] {
        WriteU32(v[0]);
        WriteU32s(v[1..]);
      } else {
        forall rest: seq<byte> ensures stream + rest == old(stream) + PutU32s(v, rest) {}
      }
    }

    method WriteU64s(v: seq<u64>)
      modifies this
      decreases |v|
      ensures forall rest: seq<byte> {:trigger stream + rest} :: stream + rest == old(stream) + PutU64s(v, rest)
    {
      if v != [] {
        WriteU64(v[0]);
        WriteU64s(v[1..]);
      } else {
        forall rest: seq<byte> ensures stream + rest == old(stream) + PutU64s(v, rest) {}
      }
    }
  }

  class CheckpointReader {
    var stream: seq<byte>

    constructor (stream: seq<byte>)
      ensures this.stream == stream
    {
      this.stream := stream;
    }

    method Read(width: nat) returns (r: Result<nat>)
      modifies this
      ensures match Get(width, old(stream))
        case Ok(f) => r == Ok(f.0) && stream == f.1
        case Err(e) => r == Err(e)
    {
      if |stream| < width { return Err(Truncated); }
      var v := Join(stream[..width]);
      stream := stream[width..];
      return Ok(v);
    }

    method ReadU8() returns (r: Result<byte>)
      modifies this
      ensures match GetU8(old(stream))
        case Ok(f) => r == Ok(f.0) && stream == f.1
        case Err(e) => r == Err(e)
    {
      var v :- Read(1);
      Pow256Values();
      return Ok(v);
    }

    method ReadBool() returns (r: Result<bool>)
      modifies this
      ensures match GetBool(old(stream))
        case Ok(f) => r == Ok(f.0) && stream == f.1
        case Err(e) => r == Err(e)
    {
      var v :- ReadU8();
      return Ok(v != 0);
    }

    method ReadU32() returns (r: Result<u32>)
      modifies this
      ensures match GetU32(old(stream))
        case Ok(f) => r == Ok(f.0) && stream == f.1
        case Err(e) => r == Err(e)
    {
      var v :- Read(4);
      Pow256Values();
      return Ok(v);
    }

    method ReadU64() returns (r: Result<u64>)
      modifies this
      ensures match GetU64(old(stream))
        case Ok(f) => r == Ok(f.0) && stream == f.1
        case Err(e) => r == Err(e)
    {
      var v :- Read(8);
      Pow256Values();
      return Ok(v);
    }

    method ReadBytes(n: nat) returns (r: Result<seq<byte>>)
      modifies this
      ensures match GetBytes(n, old(stream))
        case Ok(f) => r == Ok(f.0) && stream == f.1
        case Err(e) => r == Err(e)
    {
      if |stream| < n { return Err(Truncated); }
      var v := stream[..n];
      stream := stream[n..];
      return Ok(v);
    }

    method ReadCount(maximum: nat) returns (r: Result<u64>)
      modifies this
      ensures match GetCount(maximum, old(stream))
        case Ok(f) => r == Ok(f.0) && stream == f.1
        case Err(e) => r == Err(e)
    {
      var v :- ReadU64();
      if v > maximum { return Err(CountExceedsLimit); }
      return Ok(v);
    }

    method ReadString(maximum: nat) returns (r: Result<seq<byte>>)
      modifies this
      ensures match GetString(maximum, old(stream))
        case Ok(f) => r == Ok(f.0) && stream == f.1
        case Err(e) => r == Err(e)
    {
      var n :- ReadCount(maximum);
      r := ReadBytes(n);
    }

    method ReadU32s(n: nat) returns (r: Result<seq<u32>>)
      modifies this
      ensures match GetU32s(n, old(stream))
        case Ok(f) => r == Ok(f.0) && stream == f.1
        case Err(e) => r == Err(e)
    {
      if n == 0 { return Ok([]); }
      var h :- ReadU32();
      var t :- ReadU32s(n - 1);
      return Ok([h] + t);
    }

    method ReadU64s(n: nat) returns (r: Result<seq<u64>>)
      modifies this
      ensures match GetU64s(n, old(stream))
        case Ok(f) => r == Ok(f.0) && stream == f.1
        case Err(e) => r == Err(e)
    {
      if n == 0 { return Ok([]); }
      var h :- ReadU64();
      var t :- ReadU64s(n - 1);
      return Ok([h] + t);
    }

    /** Succeeds exactly when the whole stream has been consumed. */
    method RequireEnd() returns (r: Result<()>)
      ensures r == if stream == [] then Ok(()) else Err(TrailingData)
    {
      return if |stream| == 0 then Ok(()) else Err(TrailingData);
    }
  }
}
