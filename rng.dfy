/** Python's `random` generator as the workload scripts use it. The generator
    is a supplied stream of raw draws; each call consumes the next draws and
    maps them into the range the call asks for. */
module Rng {
  import opened Common

  /** A recorded stream of raw draws: any finite run of the generator
      reads a prefix of some tape. */
  type Tape = seq<nat>

  /** Raw draw number `k`; draws past the end of the tape read as 0. */
  function Draw(tape: Tape, k: nat): nat
  {
    if k < |tape| then tape[k] else 0
  }

  /** `random.random()` has 53 bits of precision. */
  const TWO_53: nat := 0x20_0000_0000_0000

  /** The value `randint(lo, hi)` (and `randrange(lo, hi + 1)`) takes for
      raw draw `d`. */
  function IntIn(d: nat, lo: int, hi: int): (x: int)
    requires lo <= hi
    ensures lo <= x <= hi
  {
    lo + Reduce(d, hi - lo + 1)
  }

  /** `d mod n`, by repeated subtraction. */
  function Reduce(d: nat, n: nat): (r: nat)
    requires n > 0
    ensures r < n
    decreases d
  {
    if d < n then d else Reduce(d - n, n)
  }

  /** Reduce leaves the remainder of dividing `d` by `n`. */
  lemma {:induction false} ReduceIsRemainder(d: nat, n: nat) returns (k: nat)
    requires n > 0
    ensures d == k * n + Reduce(d, n)
    decreases d
  {
    if d < n {
      k := 0;
    } else {
      var j := ReduceIsRemainder(d - n, n);
      k := j + 1;
      assert k * n == j * n + n;
    }
  }

  /** The value `random()` takes for raw draw `d`: a multiple of 2^-53 in
      [0, 1). */
  function Unit(d: nat): (u: real)
    ensures 0.0 <= u < 1.0
  {
    FractionBelowOne(d % TWO_53, TWO_53);
    (d % TWO_53) as real / TWO_53 as real
  }

  lemma FractionBelowOne(a: nat, b: nat)
    requires a < b
    ensures 0.0 <= a as real / b as real < 1.0
  {
    var q := a as real / b as real;
    assert q * b as real == a as real;
  }

  /** `[random() for _ in range(dim)]` starting at draw `pos`. */
  function UnitVector(draw: Tape, pos: nat, dim: int): (v: seq<real>)
    ensures |v| == Max(dim, 0)
    ensures forall i | 0 <= i < |v| :: v[i] == Unit(Draw(draw, pos + i)) && 0.0 <= v[i] < 1.0
    decreases Max(dim, 0)
  {
    if dim <= 0 then [] else [Unit(Draw(draw, pos))] + UnitVector(draw, pos + 1, dim - 1)
  }

  /** A generator: the stream of raw draws it was seeded with and how many
      of them have been consumed. */
  class Rng {
    const draw: Tape
    var pos: nat

    constructor (draw: Tape)
      ensures this.draw == draw && pos == 0
    {
      this.draw := draw;
      pos := 0;
    }

    /** `randint(lo, hi)`; Python raises ValueError when lo > hi, which no
        caller in the benchmark lets happen. */
    method RandInt(lo: int, hi: int) returns (x: int)
      requires lo <= hi
      modifies this
      ensures x == IntIn(Draw(draw, old(pos)), lo, hi) && lo <= x <= hi
      ensures pos == old(pos) + 1
    {
      x := IntIn(Draw(draw, pos), lo, hi);
      pos := pos + 1;
    }

    /** The index `choice(xs)` picks from a non-empty sequence of length n. */
    method ChoiceIndex(n: nat) returns (i: nat)
      requires n > 0
      modifies this
      ensures i == IntIn(Draw(draw, old(pos)), 0, n - 1) && i < n
      ensures pos == old(pos) + 1
    {
      i := IntIn(Draw(draw, pos), 0, n - 1);
      pos := pos + 1;
    }

    /** `random()` */
    method Random() returns (u: real)
      modifies this
      ensures u == Unit(Draw(draw, old(pos))) && 0.0 <= u < 1.0
      ensures pos == old(pos) + 1
    {
      u := Unit(Draw(draw, pos));
      pos := pos + 1;
    }

    /** `[rng.random() for _ in range(dim)]` */
    method RandomVector(dim: int) returns (v: seq<real>)
      modifies this
      ensures v == UnitVector(draw, old(pos), dim)
      ensures pos == old(pos) + Max(dim, 0)
    {
      v := [];
      var start := pos;
      while |v| < dim
        invariant pos == start + |v| && |v| <= Max(dim, 0)
        invariant forall i | 0 <= i < |v| :: v[i] == Unit(Draw(draw, start + i))
      {
        var u := Random();
        v := v + [u];
      }
    }
  }
}
