/** fileFingerprint of src/Checkpoint.cc: a 64-bit FNV-1a hash taken in chunks of 64 KiB. */
module Fingerprint {
  import opened Words

  const BASIS: u64 := 14695981039346656037
  const PRIME := 1099511628211
  const PRIME_INVERSE := 14886173955864302971
  const CHUNK := 0x1_0000

  /** The exclusive or of the low n bits. */
  function XorLow(x: nat, y: nat, n: nat): (r: nat)
    ensures r < Pow2(n)
  {
    if n == 0 then 0 else (x % 2 + y % 2) % 2 + 2 * XorLow(x / 2, y / 2, n - 1)
  }

  /** A byte changes the low eight bits only. */
  function Xor(hash: u64, b: byte): u64 {
    ByteBits();
    hash / 256 * 256 + XorLow(hash % 256, b, 8)
  }

  lemma {:induction false} ByteBits()
    ensures Pow2(8) == 256
  {
    assert Pow2(4) == 16;
    assert Pow2(6) == 64;
  }

  /** One byte of the hash: xor, then the product modulo 2^64. */
  function Mix(hash: u64, b: byte): u64 { Xor(hash, b) * PRIME % TWO64 }

  /** The hash of a whole file in one pass. */
  function Fnv(file: seq<byte>): u64 {
    if file == [] then BASIS else Mix(Fnv(file[..|file| - 1]), file[|file| - 1])
  }

  /** FNV-1a of the empty file and of the file "a". */
  lemma {:induction false} KnownFingerprints()
    ensures Fnv([]) == 0xcbf2_9ce4_8422_2325
    ensures Fnv(['a' as int]) == 0xaf63_dc4c_8601_ec8c
  {
    hide XorLow;
    var h, b := 0xcbf2_9ce4_8422_2325, 'a' as int;
    assert ['a' as int][..0] == [];
    assert h % 256 == 0x25 && h / 256 * 256 == 0xcbf2_9ce4_8422_2300;
    XorOfLetter();
    assert Fnv([]) == h;
    assert Xor(h, b) == 0xcbf2_9ce4_8422_2344;
  }

  lemma {:induction false} XorOfLetter()
    ensures XorLow(0x25, 0x61, 8) == 0x44
  {
    assert XorLow(0, 1, 2) == 1;
    assert XorLow(1, 3, 3) == 2;
    assert XorLow(2, 6, 4) == 4;
    assert XorLow(4, 12, 5) == 8;
    assert XorLow(9, 24, 6) == 17;
    assert XorLow(18, 48, 7) == 34;
  }

  /** The file is read in chunks until one comes short, and each chunk is hashed byte by
      byte: the result is the one-pass hash whatever the length. */
  method FileFingerprint(file: seq<byte>) returns (hash: u64)
    ensures hash == Fnv(file)
  {
    hide Mix;
    hash := BASIS;
    var position, more := 0, true;
    while more
      invariant 0 <= position <= |file| && hash == Fnv(file[..position])
      invariant !more ==> position == |file|
      decreases more, |file| - position
    {
      var count := if |file| - position < CHUNK then |file| - position else CHUNK;
      var buffer := file[position..position + count];
      for index := 0 to count
        invariant hash == Fnv(file[..position + index])
      {
        assert file[..position + index + 1][..position + index] == file[..position + index];
        hash := Mix(hash, buffer[index]);
      }
      position := position + count;
      more := count == CHUNK;
    }
    assert file[..position] == file;
  }

  // ----- what the hash tells apart -----

  lemma {:induction false} BitAndRest(b: nat, p: nat, c: nat, q: nat)
    requires b < 2 && c < 2 && b + 2 * p == c + 2 * q
    ensures b == c && p == q
  {
  }

  lemma {:induction false} SameParity(a: nat, b: nat, c: nat, d: nat)
    requires a < 2 && b < 2 && c < 2 && d < 2 && (a + c) % 2 == (b + d) % 2
    ensures c == d <==> a == b
  {
  }

  lemma {:induction false} HalvesBound(x: nat, n: nat)
    requires n > 0 && x < Pow2(n)
    ensures x / 2 < Pow2(n - 1) && x == x % 2 + 2 * (x / 2)
  {
  }

  lemma {:induction false} XorLowInjective(x: nat, y: nat, u: nat, v: nat, n: nat)
    requires x < Pow2(n) && y < Pow2(n) && u < Pow2(n) && v < Pow2(n)
    requires XorLow(x, u, n) == XorLow(y, v, n)
    ensures u == v ==> x == y
    ensures x == y ==> u == v
  {
    if n > 0 {
      var p, q := XorLow(x / 2, u / 2, n - 1), XorLow(y / 2, v / 2, n - 1);
      BitAndRest((x % 2 + u % 2) % 2, p, (y % 2 + v % 2) % 2, q);
      SameParity(x % 2, y % 2, u % 2, v % 2);
      HalvesBound(x, n);
      HalvesBound(y, n);
      HalvesBound(u, n);
      HalvesBound(v, n);
      hide XorLow, Pow2;
      XorLowInjective(x / 2, y / 2, u / 2, v / 2, n - 1);
    }
  }

  lemma {:induction false} XorInjective(a: u64, b: u64, x: byte, y: byte)
    requires Xor(a, x) == Xor(b, y)
    ensures x == y ==> a == b
    ensures a == b ==> x == y
  {
    hide XorLow;
    ByteBits();
    XorLowInjective(a % 256, b % 256, x, y, 8);
  }

  /** The product with the odd prime is invertible modulo 2^64. */
  lemma {:induction false} ProductInjective(a: u64, b: u64)
    requires a * PRIME % TWO64 == b * PRIME % TWO64
    ensures a == b
  {
    var k := 887285111055;
    assert PRIME * PRIME_INVERSE == 1 + k * TWO64;
    var qa, qb := a * PRIME / TWO64, b * PRIME / TWO64;
    assert (a - b) * PRIME == (qa - qb) * TWO64;
    CancelPrime(a - b, qa - qb, k);
  }

  lemma {:induction false} CancelPrime(d: int, q: int, k: int)
    requires PRIME * PRIME_INVERSE == 1 + k * TWO64 && k == 887285111055
    requires d * PRIME == q * TWO64 && -TWO64 < d < TWO64
    ensures d == 0
  {
    calc {
      d * PRIME * PRIME_INVERSE;
      q * TWO64 * PRIME_INVERSE;
      (q * PRIME_INVERSE) * TWO64;
    }
    assert d * PRIME * PRIME_INVERSE == d + (d * k) * TWO64;
    assert d == (q * PRIME_INVERSE - d * k) * TWO64;
  }

  lemma {:induction false} MixInjective(a: u64, b: u64, x: byte, y: byte)
    requires Mix(a, x) == Mix(b, y)
    ensures x == y ==> a == b
    ensures a == b ==> x == y
  {
    hide Xor;
    ProductInjective(Xor(a, x), Xor(b, y));
    XorInjective(a, b, x, y);
  }

  /** The two files differ in byte i and nowhere else. */
  predicate DifferAt(a: seq<byte>, b: seq<byte>, i: nat) {
    |a| == |b| && i < |a| && a[i] != b[i] && a[..i] == b[..i] && a[i + 1..] == b[i + 1..]
  }

  /** A file with one byte changed, anywhere, has another fingerprint. */
  lemma {:induction false} OneByteChangeIsSeen(a: seq<byte>, b: seq<byte>, i: nat)
    requires DifferAt(a, b, i)
    ensures Fnv(a) != Fnv(b)
  {
    hide Mix;
    var n := |a| - 1;
    if Fnv(a) == Fnv(b) { MixInjective(Fnv(a[..n]), Fnv(b[..n]), a[n], b[n]); }
    if i < n {
      assert a[n] == a[i + 1..][n - i - 1] && b[n] == b[i + 1..][n - i - 1];
      assert a[..n][..i] == a[..i] && b[..n][..i] == b[..i];
      assert a[..n][i + 1..] == a[i + 1..][..n - i - 1] && b[..n][i + 1..] == b[i + 1..][..n - i - 1];
      OneByteChangeIsSeen(a[..n], b[..n], i);
    } else {
      assert a[..n] == b[..n];
    }
  }
}
