/** The xorshift generator of include/DeterministicRng.h. */
module Rng {
  import opened Words
  import opened Checkpoint

  const MULTIPLIER: int := 2685821657736338717
  const MULTIPLIER_INVERSE: int := 6415128727920758069

  // The three assignments `value ^= value >> 12`, `value ^= value << 25`, `value ^= value >> 27`.
  function StirA(x: bv64): bv64 { x ^ (x >> 12) }
  function StirB(x: bv64): bv64 { x ^ (x << 25) }
  function StirC(x: bv64): bv64 { x ^ (x >> 27) }

  function Stir(x: bv64): bv64 { StirC(StirB(StirA(x))) }

  /** The output of a state: its product with an odd constant, modulo 2^64. */
  function Output(value: u64): u64 { value * MULTIPLIER % TWO64 }

  function Product(state: bv64): u64 { Output(state as u64) }

  /** next32: the upper half of the output. */
  function Upper(state: bv64): u32 { Product(state) / TWO32 }

  // Each stage has an explicit inverse: the shifted copies cancel by exclusive or.

  function UnstirA(y: bv64): bv64 { y ^ (y >> 12) ^ (y >> 24) ^ (y >> 36) ^ (y >> 48) ^ (y >> 60) }
  function UnstirB(y: bv64): bv64 { y ^ (y << 25) ^ (y << 50) }
  function UnstirC(y: bv64): bv64 { y ^ (y >> 27) ^ (y >> 54) }

  function Unstir(y: bv64): bv64 { UnstirA(UnstirB(UnstirC(y))) }

  lemma {:induction false} ShiftedCopiesCancel(x: bv64)
    ensures UnstirA(x ^ (x >> 12)) == x
    ensures UnstirB(x ^ (x << 25)) == x
    ensures UnstirC(x ^ (x >> 27)) == x
  {
    CancelA(x);
    CancelB(x);
    CancelC(x);
  }

  lemma {:induction false} CancelA(x: bv64)
    ensures var y := x ^ (x >> 12); x == y ^ (y >> 12) ^ (y >> 24) ^ (y >> 36) ^ (y >> 48) ^ (y >> 60)
  {
  }

  lemma {:induction false} CancelB(x: bv64)
    ensures var y := x ^ (x << 25); x == y ^ (y << 25) ^ (y << 50)
  {
  }

  lemma {:induction false} CancelC(x: bv64)
    ensures var y := x ^ (x >> 27); x == y ^ (y >> 27) ^ (y >> 54)
  {
  }

  lemma {:induction false} StagesUndone(x: bv64)
    ensures UnstirA(StirA(x)) == x && UnstirB(StirB(x)) == x && UnstirC(StirC(x)) == x
  {
    hide UnstirA, UnstirB, UnstirC;
    ShiftedCopiesCancel(x);
  }

  /** The state step is invertible, so no two histories of states ever merge. */
  lemma {:induction false} StirInvertible(x: bv64)
    ensures Unstir(Stir(x)) == x
  {
    hide StirA, StirB, StirC, UnstirA, UnstirB, UnstirC;
    StagesUndone(x);
    StagesUndone(StirA(x));
    StagesUndone(StirB(StirA(x)));
  }

  lemma {:induction false} UnstirZero()
    ensures Unstir(0) == 0
  {
    assert UnstirC(0) == 0;
    assert UnstirB(0) == 0;
    assert UnstirA(0) == 0;
  }

  function States(seed: bv64, n: nat): bv64 {
    if n == 0 then seed else Stir(States(seed, n - 1))
  }

  /** From a non-zero seed no run of any length reaches the zero state, which restore
      would refuse and which the generator could never leave. */
  lemma {:induction false} ReachableStatesAreNonzero(seed: bv64, n: nat)
    ensures States(seed, n) == 0 <==> seed == 0
  {
    hide Stir, Unstir;
    if n > 0 {
      ReachableStatesAreNonzero(seed, n - 1);
      StirInvertible(States(seed, n - 1));
      StirInvertible(0);
      UnstirZero();
      StirZero();
    }
  }

  lemma {:induction false} NextIsNonzero(x: bv64)
    requires x != 0
    ensures Stir(x) != 0
  {
    hide Stir;
    ReachableStatesAreNonzero(x, 1);
    assert States(x, 1) == Stir(States(x, 0));
  }

  lemma {:induction false} StirZero()
    ensures Stir(0) == 0
  {
    assert StirA(0) == 0;
    assert StirB(0) == 0;
    assert StirC(0) == 0;
  }

  /** The states of the generator from seed 1, and its first outputs (xorshift64*). */
  lemma {:induction false} KnownOutputs()
    ensures Stir(1) == 0x200_0001 && Stir(0x200_0001) == 0x4_0040_0080_2801
    ensures Stir(0x4_0040_0080_2801) == 0xd_0040_0320_2803
    ensures Output(0x200_0001) == 0x47e4_ce4b_896c_dd1d && Output(0x4_0040_0080_2801) == 0xabcf_a6a8_e079_651d
    ensures Output(0xd_0040_0320_2803) == 0xb9d1_0d8f_eb73_1f57
  {
  }

  /** Distinct states give distinct 64-bit outputs. */
  lemma {:induction false} OutputInjective(a: u64, b: u64)
    requires Output(a) == Output(b)
    ensures a == b
  {
    var k := 934034299265436267;
    assert MULTIPLIER * MULTIPLIER_INVERSE == 1 + k * TWO64;
    var qa, qb := a * MULTIPLIER / TWO64, b * MULTIPLIER / TWO64;
    assert (a - b) * MULTIPLIER == (qa - qb) * TWO64;
    Cancel(a - b, qa - qb, k);
  }

  lemma {:induction false} Cancel(d: int, q: int, k: int)
    requires MULTIPLIER * MULTIPLIER_INVERSE == 1 + k * TWO64 && k == 934034299265436267
    requires d * MULTIPLIER == q * TWO64 && -TWO64 < d < TWO64
    ensures d == 0
  {
    calc {
      d * MULTIPLIER * MULTIPLIER_INVERSE;
      q * TWO64 * MULTIPLIER_INVERSE;
      (q * MULTIPLIER_INVERSE) * TWO64;
    }
    assert d * MULTIPLIER * MULTIPLIER_INVERSE == d + (d * k) * TWO64;
    assert d == (q * MULTIPLIER_INVERSE - d * k) * TWO64;
  }

  // The state as a checkpoint field.
  function FieldOf(state: bv64): u64 { state as u64 }
  function StateOf(field: u64): bv64 { field as bv64 }

  /** Saving and reloading a state gives the state back. */
  lemma {:induction false} ReloadState(x: bv64)
    ensures StateOf(FieldOf(x)) == x
  {
  }

  /** The draw behind every ready and valid signal: refused when the low four bits are zero. */
  predicate Granted(state: bv64) { Upper(state) % 16 != 0 }

  class DeterministicRng {
    var state: bv64

    ghost predicate Valid()
      reads this
    {
      state != 0
    }

    constructor (seed: bv64)
      requires seed != 0
      ensures state == seed && Valid()
    {
      state := seed;
    }

    /** Construction from any seed: zero is refused. */
    static method Create(seed: bv64) returns (r: Option<DeterministicRng>)
      ensures r.Some? <==> seed != 0
      ensures r.Some? ==> fresh(r.value) && r.value.state == seed && r.value.Valid()
    {
      if seed == 0 { return None; }
      var rng := new DeterministicRng(seed);
      return Some(rng);
    }

    method Next64() returns (output: u64)
      requires Valid()
      modifies this
      ensures Valid() && state == Stir(old(state)) && output == Product(state)
    {
      hide StirA, StirB, StirC, Product;
      var value := state;
      value := StirA(value);
      value := StirB(value);
      value := StirC(value);
      NextIsNonzero(state);
      state := value;
      output := Product(value);
    }

    method Next32() returns (output: u32)
      requires Valid()
      modifies this
      ensures Valid() && state == Stir(old(state)) && output == Upper(state)
    {
      var full := Next64();
      output := full / TWO32;
    }

    method SetState(value: bv64) returns (r: Result<()>)
      modifies this
      ensures value != 0 ==> r == Ok(()) && state == value && Valid()
      ensures value == 0 ==> r == Err(ZeroRngState) && state == old(state)
    {
      if value == 0 { return Err(ZeroRngState); }
      state := value;
      return Ok(());
    }
  }
}
