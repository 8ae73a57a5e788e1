/** Fixed-width unsigned integers as the C++ code uses them: byte lanes, bit slices
    and little-endian composition. Shifts and masks are written as repeated division,
    so that every fact about them is linear arithmetic. */
module Words {
  const TWO32: int := 0x1_0000_0000
  const TWO64: int := 0x1_0000_0000_0000_0000

  type byte = x: int | 0 <= x < 0x100
  type u16 = x: int | 0 <= x < 0x1_0000
  type u32 = x: int | 0 <= x < 0x1_0000_0000
  type u64 = x: int | 0 <= x < 0x1_0000_0000_0000_0000

  datatype Option<+T> = None | Some(value: T) {
    predicate IsFailure() { None? }
    function PropagateFailure<U>(): Option<U> requires None? { None }
    function Extract(): T requires Some? { value }
  }

  /** Unsigned 32-bit addition wraps. */
  function Add32(a: int, b: int): u32 { (a + b) % 0x1_0000_0000 }

  // ----- byte lanes -----

  function Pow256(n: nat): (p: nat)
    ensures p > 0
  {
    if n == 0 then 1 else 256 * Pow256(n - 1)
  }

  lemma {:induction false} Pow256Values()
    ensures Pow256(1) == 0x100 && Pow256(2) == 0x1_0000
    ensures Pow256(4) == 0x1_0000_0000
    ensures Pow256(8) == 0x1_0000_0000_0000_0000
  {
    assert Pow256(3) == 0x100_0000;
    assert Pow256(5) == 0x100_0000_0000;
    assert Pow256(6) == 0x1_0000_0000_0000;
    assert Pow256(7) == 0x100_0000_0000_0000;
  }

  /** Byte k of v: `v >> (8 * k)` truncated to eight bits. */
  function ByteAt(v: nat, k: nat): byte {
    if k == 0 then v % 256 else ByteAt(v / 256, k - 1)
  }

  /** v with byte k replaced: `(v & ~(0xff << 8k)) | (b << 8k)`. */
  function WithByte(v: nat, k: nat, b: byte): nat {
    if k == 0 then v - v % 256 + b else v % 256 + 256 * WithByte(v / 256, k - 1, b)
  }

  /** The little-endian value of a byte sequence. */
  function Join(s: seq<byte>): nat {
    if s == [] then 0 else s[0] + 256 * Join(s[1..])
  }

  /** The low n bytes of v, least significant first. */
  function Split(v: nat, n: nat): (s: seq<byte>)
    ensures |s| == n
  {
    if n == 0 then [] else [v % 256] + Split(v / 256, n - 1)
  }

  lemma {:induction false} ByteOfWithByte(v: nat, k: nat, b: byte, j: nat)
    ensures ByteAt(WithByte(v, k, b), j) == if j == k then b else ByteAt(v, j)
  {
    if k == 0 {
      assert WithByte(v, 0, b) / 256 == v / 256;
    } else {
      var w := WithByte(v / 256, k - 1, b);
      assert WithByte(v, k, b) % 256 == v % 256 && WithByte(v, k, b) / 256 == w;
      if j > 0 { ByteOfWithByte(v / 256, k - 1, b, j - 1); }
    }
  }

  lemma {:induction false} ZeroBytes(k: nat)
    ensures ByteAt(0, k) == 0
  {
    if k > 0 { ZeroBytes(k - 1); }
  }

  lemma {:induction false} WithByteBound(v: nat, k: nat, b: byte, n: nat)
    requires v < Pow256(n) && k < n
    ensures WithByte(v, k, b) < Pow256(n)
  {
    if k > 0 { WithByteBound(v / 256, k - 1, b, n - 1); }
  }

  lemma {:induction false} BytesDetermine(v: nat, w: nat, n: nat)
    requires v < Pow256(n) && w < Pow256(n)
    requires forall k :: 0 <= k < n ==> ByteAt(v, k) == ByteAt(w, k)
    ensures v == w
  {
    if n > 0 {
      assert ByteAt(v, 0) == ByteAt(w, 0);
      forall k | 0 <= k < n - 1 ensures ByteAt(v / 256, k) == ByteAt(w / 256, k) {
        assert ByteAt(v, k + 1) == ByteAt(w, k + 1);
      }
      BytesDetermine(v / 256, w / 256, n - 1);
    }
  }

  lemma {:induction false} JoinBound(s: seq<byte>)
    ensures Join(s) < Pow256(|s|)
  {
    if s != [] { JoinBound(s[1..]); }
  }

  lemma {:induction false} ByteOfJoin(s: seq<byte>, k: nat)
    ensures ByteAt(Join(s), k) == if k < |s| then s[k] else 0
  {
    if s == [] {
      if k > 0 { ByteOfJoin(s, k - 1); }
    } else {
      assert Join(s) % 256 == s[0] && Join(s) / 256 == Join(s[1..]);
      if k > 0 { ByteOfJoin(s[1..], k - 1); }
    }
  }

  lemma {:induction false} SplitBytes(v: nat, n: nat)
    ensures forall k :: 0 <= k < n ==> Split(v, n)[k] == ByteAt(v, k)
  {
    if n > 0 {
      SplitBytes(v / 256, n - 1);
      forall k | 0 <= k < n ensures Split(v, n)[k] == ByteAt(v, k) {
        if k > 0 { assert Split(v, n)[k] == Split(v / 256, n - 1)[k - 1]; }
      }
    }
  }

  lemma {:induction false} JoinSplit(v: nat, n: nat)
    requires v < Pow256(n)
    ensures Join(Split(v, n)) == v
  {
    if n > 0 {
      JoinSplit(v / 256, n - 1);
      assert Split(v, n)[1..] == Split(v / 256, n - 1);
    }
  }

  lemma {:induction false} JoinConcat(s: seq<byte>, t: seq<byte>)
    ensures Join(s + t) == Join(s) + Pow256(|s|) * Join(t)
  {
    if s == [] {
      assert s + t == t;
    } else {
      assert (s + t)[1..] == s[1..] + t;
      JoinConcat(s[1..], t);
      var p, j := Pow256(|s| - 1), Join(t);
      assert Pow256(|s|) * j == 256 * (p * j) by { assert (256 * p) * j == 256 * (p * j); }
    }
  }

  // ----- bit slices -----

  function Pow2(n: nat): (p: nat)
    ensures p > 0
  {
    if n == 0 then 1 else 2 * Pow2(n - 1)
  }

  /** `v >> n`. */
  function Shr(v: nat, n: nat): nat {
    if n == 0 then v else Shr(v / 2, n - 1)
  }

  /** `v & ((1 << n) - 1)`. */
  function Low(v: nat, n: nat): nat {
    if n == 0 then 0 else v % 2 + 2 * Low(v / 2, n - 1)
  }

  /** `(1 << n) - 1`. */
  function Ones(n: nat): nat {
    if n == 0 then 0 else 1 + 2 * Ones(n - 1)
  }

  predicate Bit(v: nat, k: nat) {
    if k == 0 then v % 2 == 1 else Bit(v / 2, k - 1)
  }

  lemma {:induction false} BitOfShr(v: nat, n: nat, k: nat)
    ensures Bit(Shr(v, n), k) == Bit(v, n + k)
  {
    if n > 0 { BitOfShr(v / 2, n - 1, k); }
  }

  lemma {:induction false} BitOfLow(v: nat, n: nat, k: nat)
    ensures Bit(Low(v, n), k) == (k < n && Bit(v, k))
  {
    if n == 0 {
      if k > 0 { BitOfLow(v, n, k - 1); }
    } else {
      assert Low(v, n) % 2 == v % 2 && Low(v, n) / 2 == Low(v / 2, n - 1);
      if k > 0 { BitOfLow(v / 2, n - 1, k - 1); }
    }
  }

  lemma {:induction false} BitOfOnes(n: nat, k: nat)
    ensures Bit(Ones(n), k) == (k < n)
  {
    if n == 0 {
      if k > 0 { BitOfOnes(n, k - 1); }
    } else {
      assert Ones(n) % 2 == 1 && Ones(n) / 2 == Ones(n - 1);
      if k > 0 { BitOfOnes(n - 1, k - 1); }
    }
  }

  lemma {:induction false} LowBound(v: nat, n: nat)
    ensures Low(v, n) < Pow2(n) && Ones(n) < Pow2(n)
  {
    if n > 0 { LowBound(v / 2, n - 1); }
  }

  lemma {:induction false} BitsDetermine(v: nat, w: nat, n: nat)
    requires v < Pow2(n) && w < Pow2(n)
    requires forall k :: 0 <= k < n ==> Bit(v, k) == Bit(w, k)
    ensures v == w
  {
    if n > 0 {
      assert Bit(v, 0) == Bit(w, 0);
      forall k | 0 <= k < n - 1 ensures Bit(v / 2, k) == Bit(w / 2, k) {
        assert Bit(v, k + 1) == Bit(w, k + 1);
      }
      BitsDetermine(v / 2, w / 2, n - 1);
    }
  }
}
