/** source/set_hash.cpp: three hashes of an id set given as a list of
    `uint32_t`. Each is a loop that folds the elements into an accumulator
    `h`; the xor and the sum ignore the order of the elements. */
module SetHash {
  import opened Common

  /** Bitwise XOR of two naturals, one bit at a time from the lowest. */
  function Xor(a: nat, b: nat): nat
    decreases a + b
  {
    if a == 0 && b == 0 then 0 else 2 * Xor(a / 2, b / 2) + Differ(a % 2, b % 2)
  }

  /** XOR of two bits. */
  function Differ(x: nat, y: nat): nat
  {
    if x == y then 0 else 1
  }

  /** XOR of all elements; `h ^= x` widens each element to 64 bits, which
      leaves its value unchanged. */
  function XorOf(s: seq<uint32>): nat
  {
    if s == [] then 0 else Xor(XorOf(s[..|s| - 1]), s[|s| - 1])
  }

  /** Sum of all elements, as an unbounded integer. */
  function SumOf(s: seq<uint32>): int
  {
    if s == [] then 0 else SumOf(s[..|s| - 1]) + s[|s| - 1]
  }

  /** 2^61 - 1 */
  const MOD: int := 0x1FFF_FFFF_FFFF_FFFF
  const P: int := 1000003
  const TWO_128: int := 0x1_0000_0000_0000_0000_0000_0000_0000_0000

  /** Product of `P + x` over all elements, as an unbounded integer. */
  function ProductOf(s: seq<uint32>): (r: int)
    ensures r >= 1
  {
    if s == [] then 1 else ProductOf(s[..|s| - 1]) * (P + s[|s| - 1])
  }

  /** `xor_hash`: the result fits in 32 bits. */
  method XorHash(S: seq<uint32>) returns (h: uint64)
    ensures h == XorOf(S) && h < TWO_32
  {
    var acc := 0;
    for i := 0 to |S|
      invariant acc == XorOf(S[..i])
    {
      assert S[..i + 1][..i] == S[..i];
      acc := Xor(acc, S[i]);
    }
    assert S[..|S|] == S;
    XorOfBound(S);
    h := acc;
  }

  /** `sum_hash`: the `uint64_t` accumulator wraps modulo 2^64. */
  method SumHash(S: seq<uint32>) returns (h: uint64)
    ensures h == SumOf(S) % TWO_64
  {
    h := 0;
    for i := 0 to |S|
      invariant h == SumOf(S[..i]) % TWO_64
    {
      assert S[..i + 1][..i] == S[..i];
      h := (h + S[i]) % TWO_64;
    }
    assert S[..|S|] == S;
  }

  /** `poly_hash`: the `__uint128_t` accumulator is reduced modulo 2^61 - 1
      after every multiplication, which never overflows (`NoOverflow`). */
  method PolyHash(S: seq<uint32>) returns (h: uint64)
    ensures h == ProductOf(S) % MOD
    ensures h < MOD
    ensures S == [] ==> h == 1
  {
    var acc := 1;
    for i := 0 to |S|
      invariant acc == ProductOf(S[..i]) % MOD
    {
      assert S[..i + 1][..i] == S[..i];
      NoOverflow(acc, S[i]);
      ModMul(ProductOf(S[..i]), P + S[i], MOD);
      acc := (acc * (P + S[i])) % MOD;
    }
    assert S[..|S|] == S;
    h := acc;
  }

  /** A reduced accumulator times `P + x` stays below 2^128. */
  lemma NoOverflow(h: int, x: uint32)
    requires 0 <= h < MOD
    ensures 0 <= h * (P + x) < TWO_128
  {
    MulMonotone(h, P + x, 0x2_0000_0000);
    assert h * 0x2_0000_0000 < MOD * 0x2_0000_0000;
  }

  /** Reducing a factor first does not change the remainder of a
      product. */
  lemma ModMul(a: int, b: int, m: int)
    requires a >= 0 && b >= 0 && m > 0
    ensures (a % m) * b % m == a * b % m
  {
    var q := a / m;
    assert a == q * m + a % m;
    assert a * b == (q * b) * m + (a % m) * b;
    ModAddMultiple(q * b, (a % m) * b, m);
  }

  lemma ModAddMultiple(c: int, y: int, m: int)
    requires m > 0
    ensures (c * m + y) % m == y % m
  {
    var q, r := y / m, y % m;
    assert y == q * m + r;
    assert c * m + y == (c + q) * m + r;
    ModUnique(c * m + y, c + q, m, r);
  }

  /** The remainder is the one `r` in [0, m) with `x == q * m + r`. */
  lemma ModUnique(x: int, q: int, m: int, r: int)
    requires m > 0 && 0 <= r < m && x == q * m + r
    ensures x % m == r
  {
    var q', r' := x / m, x % m;
    assert (q - q') * m == r' - r;
    if q - q' >= 1 {
      MulMonotone(m, 1, q - q');
      assert false;
    } else if q' - q >= 1 {
      MulMonotone(m, 1, q' - q);
      assert false;
    }
  }

  lemma MulMonotone(a: int, b: int, c: int)
    requires a >= 0 && b <= c
    ensures a * b <= a * c
  {
    assert a * c - a * b == a * (c - b);
  }

  /** Taking the elements in another order gives the same XOR. */
  lemma {:induction false} XorOrderFree(s: seq<uint32>, t: seq<uint32>)
    requires multiset(s) == multiset(t)
    ensures XorOf(s) == XorOf(t)
    decreases |s|
  {
    if s == [] {
      assert |t| == |multiset(t)| == 0;
    } else {
      var j := Pick(s, t);
      XorOrderFree(s[..|s| - 1], Delete(t, j));
      XorTakeOut(t, j);
    }
  }

  /** The XOR of a sequence is the XOR of the rest with any one of its
      elements. */
  lemma XorTakeOut(t: seq<uint32>, j: nat)
    requires j < |t|
    ensures XorOf(t) == Xor(XorOf(Delete(t, j)), t[j])
  {
    var front, y, back := t[..j], t[j], t[j + 1..];
    assert t == front + ([y] + back);
    assert Delete(t, j) == front + back;
    XorAppend(front, [y] + back);
    XorAppend([y], back);
    XorAppend(front, back);
    assert XorOf([y]) == y by {
      assert [y][..0] == [];
      XorZero(y);
    }
    var x, z := XorOf(front), XorOf(back);
    // XorOf(t) == x ^ (y ^ z) and the right-hand side is (x ^ z) ^ y
    XorCommutes(y, z);
    XorAssociates(x, z, y);
  }

  /** Taking the elements in another order gives the same sum. */
  lemma {:induction false} SumOrderFree(s: seq<uint32>, t: seq<uint32>)
    requires multiset(s) == multiset(t)
    ensures SumOf(s) == SumOf(t)
    decreases |s|
  {
    if s == [] {
      assert |t| == |multiset(t)| == 0;
    } else {
      var j := Pick(s, t);
      SumOrderFree(s[..|s| - 1], Delete(t, j));
      SumTakeOut(t, j);
    }
  }

  /** The sum of a sequence is the sum of the rest plus any one of its
      elements. */
  lemma SumTakeOut(t: seq<uint32>, j: nat)
    requires j < |t|
    ensures SumOf(t) == SumOf(Delete(t, j)) + t[j]
  {
    var front, y, back := t[..j], t[j], t[j + 1..];
    assert t == front + ([y] + back);
    assert Delete(t, j) == front + back;
    SumAppend(front, [y] + back);
    SumAppend([y], back);
    SumAppend(front, back);
    assert SumOf([y]) == y by {
      assert [y][..0] == [];
    }
  }

  /** Hence `xor_hash` and `sum_hash` give equal values for any two
      orderings of the same elements. */
  lemma HashesOrderFree(s: seq<uint32>, t: seq<uint32>)
    requires multiset(s) == multiset(t)
    ensures XorOf(s) == XorOf(t) && SumOf(s) % TWO_64 == SumOf(t) % TWO_64
  {
    XorOrderFree(s, t);
    SumOrderFree(s, t);
  }

  /** A position of `t` holding the last element of `s`; removing it leaves
      the same elements as the rest of `s`. */
  lemma Pick(s: seq<uint32>, t: seq<uint32>) returns (j: nat)
    requires s != [] && multiset(s) == multiset(t)
    ensures j < |t| && t[j] == s[|s| - 1]
    ensures multiset(s[..|s| - 1]) == multiset(Delete(t, j))
  {
    assert s == s[..|s| - 1] + [s[|s| - 1]];
    assert multiset(s) == multiset(s[..|s| - 1]) + multiset{s[|s| - 1]};
    assert s[|s| - 1] in multiset(t);
    j :| 0 <= j < |t| && t[j] == s[|s| - 1];
    DeleteMultiset(t, j);
    assert multiset(Delete(t, j)) == multiset(t) - multiset{t[j]};
    assert multiset(s[..|s| - 1]) == multiset(s) - multiset{s[|s| - 1]};
  }

  lemma {:induction false} XorAppend(a: seq<uint32>, b: seq<uint32>)
    ensures XorOf(a + b) == Xor(XorOf(a), XorOf(b))
    decreases |b|
  {
    if b != [] {
      var b' := b[..|b| - 1];
      assert (a + b)[..|a + b| - 1] == a + b';
      XorAppend(a, b');
      XorAssociates(XorOf(a), XorOf(b'), b[|b| - 1]);
    } else {
      assert a + b == a;
      XorZero(XorOf(a));
    }
  }

  /** XOR with 0 changes nothing. */
  lemma {:induction false} XorZero(a: nat)
    ensures Xor(a, 0) == a && Xor(0, a) == a
    decreases a
  {
    if a != 0 {
      XorZero(a / 2);
    }
  }

  lemma {:induction false} XorCommutes(a: nat, b: nat)
    ensures Xor(a, b) == Xor(b, a)
    decreases a + b
  {
    if a != 0 || b != 0 {
      XorCommutes(a / 2, b / 2);
    }
  }

  lemma {:induction false} XorAssociates(a: nat, b: nat, c: nat)
    ensures Xor(Xor(a, b), c) == Xor(a, Xor(b, c))
    decreases a + b + c
  {
    if a != 0 || b != 0 || c != 0 {
      var ab, bc := Xor(a, b), Xor(b, c);
      XorHalves(a, b);
      XorHalves(b, c);
      XorHalves(ab, c);
      XorHalves(a, bc);
      XorAssociates(a / 2, b / 2, c / 2);
      SameBits(Xor(ab, c), Xor(a, bc));
    } else {
      assert Xor(0, 0) == 0;
    }
  }

  /** The high bits and the low bit of an XOR. */
  lemma XorHalves(a: nat, b: nat)
    ensures Xor(a, b) / 2 == Xor(a / 2, b / 2)
    ensures Xor(a, b) % 2 == Differ(a % 2, b % 2)
  {
  }

  lemma SameBits(l: nat, r: nat)
    requires l / 2 == r / 2 && l % 2 == r % 2
    ensures l == r
  {
  }

  function Pow2(n: nat): (p: nat)
    ensures p >= 1
  {
    if n == 0 then 1 else 2 * Pow2(n - 1)
  }

  /** The XOR of two `n`-bit numbers has `n` bits. */
  lemma {:induction false} XorBound(a: nat, b: nat, n: nat)
    requires a < Pow2(n) && b < Pow2(n)
    ensures Xor(a, b) < Pow2(n)
    decreases n
  {
    if n > 0 && (a != 0 || b != 0) {
      XorBound(a / 2, b / 2, n - 1);
    } else if n == 0 {
      assert a == 0 && b == 0;
    }
  }

  /** The XOR of 32-bit values has 32 bits. */
  lemma {:induction false} XorOfBound(s: seq<uint32>)
    ensures XorOf(s) < TWO_32
  {
    if s != [] {
      XorOfBound(s[..|s| - 1]);
      Pow2Of32();
      XorBound(XorOf(s[..|s| - 1]), s[|s| - 1], 32);
    }
  }

  lemma Pow2Of32()
    ensures Pow2(32) == TWO_32
  {
    assert Pow2(2) == 4;
    Pow2Add(2, 2);
    assert Pow2(4) == 16;
    Pow2Add(4, 4);
    assert Pow2(8) == 256;
    Pow2Add(8, 8);
    assert Pow2(16) == 0x1_0000;
    Pow2Add(16, 16);
  }

  lemma {:induction false} Pow2Add(m: nat, n: nat)
    ensures Pow2(m + n) == Pow2(m) * Pow2(n)
    decreases n
  {
    if n > 0 {
      Pow2Add(m, n - 1);
      assert Pow2(m + n) == 2 * Pow2(m + n - 1);
    }
  }

  lemma {:induction false} SumAppend(a: seq<uint32>, b: seq<uint32>)
    ensures SumOf(a + b) == SumOf(a) + SumOf(b)
    decreases |b|
  {
    if b != [] {
      assert (a + b)[..|a + b| - 1] == a + b[..|b| - 1];
      SumAppend(a, b[..|b| - 1]);
    } else {
      assert a + b == a;
    }
  }
}
