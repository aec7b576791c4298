/** scripts/download_datasets.py: the synthetic strings attached to
    vector-only data sets, the checks of the fvecs reader, and
    `format_time`. */
module Datasets {
  import opened Common
  import opened Text

  /** The generator state before the first character:
      `((seed + 1) * 2654435761) & 0xFFFFFFFF`, which for every integer,
      negative ones included, is the non-negative remainder mod 2^32. */
  function LcgStart(seed: int): uint32
  {
    ((seed + 1) * 2654435761) % 0x1_0000_0000
  }

  /** One step of the 32-bit linear congruential generator. */
  function LcgStep(x: uint32): uint32
  {
    (1664525 * x + 1013904223) % 0x1_0000_0000
  }

  /** The state after `j` steps. */
  function LcgState(seed: int, j: nat): uint32
  {
    if j == 0 then LcgStart(seed) else LcgStep(LcgState(seed, j - 1))
  }

  /** `chr(ord('a') + (x % 26))` */
  function AlphaChar(x: uint32): (c: char)
    ensures 'a' <= c <= 'z'
  {
    ('a' as int + x % 26) as char
  }

  /** The first `n` characters `_synthetic_alpha_string(seed)` produces:
      character `j` comes from the state after `j + 1` steps. */
  function SyntheticAlpha(seed: int, n: nat): (s: string)
    ensures |s| == n
    ensures forall j | 0 <= j < n :: s[j] == AlphaChar(LcgState(seed, j + 1)) && 'a' <= s[j] <= 'z'
  {
    if n == 0 then [] else SyntheticAlpha(seed, n - 1) + [AlphaChar(LcgState(seed, n))]
  }

  /** `_synthetic_alpha_string(seed, length)`: the loop that steps the
      state and appends one letter per step. */
  method SyntheticAlphaString(seed: int, length: int) returns (s: string)
    ensures s == SyntheticAlpha(seed, Max(length, 0))
  {
    var x: uint32 := ((seed + 1) * 2654435761) % 0x1_0000_0000;
    var chars: string := [];
    var k := 0;
    while k < length
      invariant 0 <= k <= Max(length, 0)
      invariant x == LcgState(seed, k) && chars == SyntheticAlpha(seed, k)
    {
      x := (1664525 * x + 1013904223) % 0x1_0000_0000;
      chars := chars + [('a' as int + x % 26) as char];
      k := k + 1;
    }
    s := chars;
  }

  /** A longer string extends a shorter one for the same seed. */
  lemma {:induction false} SyntheticAlphaPrefix(seed: int, m: nat, n: nat)
    requires m <= n
    ensures SyntheticAlpha(seed, m) <= SyntheticAlpha(seed, n)
    decreases n
  {
    if m < n {
      SyntheticAlphaPrefix(seed, m, n - 1);
    }
  }

  /** The int32 a little-endian word holds. */
  function AsInt32(w: uint32): (v: int32)
    ensures AsUint32(v) == w
  {
    if w < TWO_31 then w else w - TWO_32
  }

  /** The word that stores an int32. */
  function AsUint32(v: int32): (w: uint32)
  {
    if v >= 0 then v else v + TWO_32
  }

  /** What `_load_fvecs_memmap` raises: no first word, a record size of
      zero (Python's ZeroDivisionError for dim = -1), a size that is not a
      whole number of records, a negative record count (numpy refuses the
      shape when dim < -1), or a record whose header is not dim. */
  datatype FvecsError = EmptyFile | ZeroRecordSize | BadFileSize | NegativeShape | InconsistentDims

  /** The trailing dim words of every record (the float32 values, kept as
      their bit patterns), dim and the record count. */
  datatype Fvecs = Fvecs(data: seq<seq<uint32>>, dim: int, nvecs: int)

  datatype FvecsResult = Loaded(fvecs: Fvecs) | Failed(error: FvecsError)

  /** The file cut into records of `w` words. */
  function Records(words: seq<uint32>, w: nat): (rs: seq<seq<uint32>>)
    requires w > 0
    ensures forall i | 0 <= i < |rs| :: |rs[i]| <= w
    decreases |words|
  {
    if |words| < w then (if words == [] then [] else [words])
    else [words[..w]] + Records(words[w..], w)
  }

  /** Every record starts with `dim`. */
  predicate HeadersAre(rs: seq<seq<uint32>>, dim: int)
  {
    forall i | 0 <= i < |rs| :: |rs[i]| > 0 && AsInt32(rs[i][0]) == dim
  }

  /** Every record without its header. */
  function Payloads(rs: seq<seq<uint32>>): (ps: seq<seq<uint32>>)
    requires forall i | 0 <= i < |rs| :: |rs[i]| > 0
    ensures |ps| == |rs| && forall i | 0 <= i < |rs| :: ps[i] == rs[i][1..]
  {
    if rs == [] then [] else [rs[0][1..]] + Payloads(rs[1..])
  }

  /** `_load_fvecs_memmap` on a file of `size` bytes whose whole 32-bit
      words are `words`. */
  function LoadFvecs(size: nat, words: seq<uint32>): (r: FvecsResult)
    requires |words| == size / 4
    ensures size < 4 <==> r == Failed(EmptyFile)
    ensures size >= 4 && AsInt32(words[0]) >= 0 ==>
      (r == Failed(BadFileSize) <==> size % (4 * (AsInt32(words[0]) + 1)) != 0)
    ensures r.Loaded? ==> r.fvecs.dim >= 0 && r.fvecs.dim == AsInt32(words[0])
    ensures r.Loaded? ==> |r.fvecs.data| == r.fvecs.nvecs && r.fvecs.nvecs * 4 * (r.fvecs.dim + 1) == size
    ensures r.Loaded? ==> forall i | 0 <= i < |r.fvecs.data| :: |r.fvecs.data[i]| == r.fvecs.dim
    ensures r.Loaded? ==>
      && HeadersAre(Records(words, r.fvecs.dim + 1), r.fvecs.dim)
      && r.fvecs.data == Payloads(Records(words, r.fvecs.dim + 1))
    ensures size >= 4 ==> var dim := AsInt32(words[0]);
      dim >= 0 && size % (4 * (dim + 1)) == 0 ==>
        (r == Failed(InconsistentDims) <==> !HeadersAre(Records(words, dim + 1), dim))
  {
    if size < 4 then Failed(EmptyFile)
    else
      var dim := AsInt32(words[0]);
      var recordBytes := 4 * (dim + 1);
      if recordBytes == 0 then Failed(ZeroRecordSize)
      else if size % Abs(recordBytes) != 0 then Failed(BadFileSize)
      else if recordBytes < 0 then Failed(NegativeShape)
      else
        var nvecs := size / recordBytes;
        WholeRecords(size, words, dim);
        var rs := Records(words, dim + 1);
        RecordsCount(words, dim + 1, nvecs);
        if !HeadersAre(rs, dim) then Failed(InconsistentDims)
        else Loaded(Fvecs(Payloads(rs), dim, nvecs))
  }

  function Abs(x: int): nat { if x < 0 then -x else x }

  /** A size that is a whole number of records of dim + 1 words holds
      size / (4 * (dim + 1)) of them, and all of its bytes are whole words. */
  lemma WholeRecords(size: nat, words: seq<uint32>, dim: nat)
    requires |words| == size / 4 && size % (4 * (dim + 1)) == 0
    ensures var nvecs := size / (4 * (dim + 1));
      nvecs * 4 * (dim + 1) == size && |words| * 4 == size
  {
    var rb := 4 * (dim + 1);
    var nvecs := size / rb;
    assert size == nvecs * rb;
    assert size == 4 * (nvecs * (dim + 1));
  }

  /** A file of a whole number of `nvecs` records of `w` words cuts into
      `nvecs` full records. */
  lemma {:induction false} RecordsCount(words: seq<uint32>, w: nat, nvecs: nat)
    requires w > 0 && |words| * 4 == nvecs * 4 * w
    ensures |Records(words, w)| == nvecs
    ensures forall i | 0 <= i < nvecs :: |Records(words, w)[i]| == w
    decreases nvecs
  {
    if nvecs > 0 {
      assert |words| == nvecs * w;
      assert |words[w..]| * 4 == (nvecs - 1) * 4 * w;
      RecordsCount(words[w..], w, nvecs - 1);
    }
  }

  /** A word written from an int32 reads back as that int32. */
  lemma Int32RoundTrip(v: int32)
    ensures AsInt32(AsUint32(v)) == v
  {
  }

  /** The fvecs layout: every vector preceded by its dimension. */
  function Encode(dim: int32, vecs: seq<seq<uint32>>): (words: seq<uint32>)
  {
    if vecs == [] then [] else [AsUint32(dim)] + vecs[0] + Encode(dim, vecs[1..])
  }

  predicate AllOfDim(vecs: seq<seq<uint32>>, dim: int)
  {
    forall i | 0 <= i < |vecs| :: |vecs[i]| == dim
  }

  /** An encoded file cuts back into one record per vector, each its header
      followed by the vector. */
  lemma {:induction false} RecordsOfEncode(dim: int32, vecs: seq<seq<uint32>>)
    requires dim >= 0 && AllOfDim(vecs, dim)
    ensures |Encode(dim, vecs)| == |vecs| * (dim + 1)
    ensures var rs := Records(Encode(dim, vecs), dim + 1);
      |rs| == |vecs| && forall i | 0 <= i < |vecs| :: rs[i] == [AsUint32(dim)] + vecs[i]
    decreases |vecs|
  {
    if vecs != [] {
      var head := [AsUint32(dim)] + vecs[0];
      var rest := Encode(dim, vecs[1..]);
      RecordsOfEncode(dim, vecs[1..]);
      var words := Encode(dim, vecs);
      assert words == head + rest;
      assert words[..dim + 1] == head && words[dim + 1..] == rest;
      assert |words| == |vecs[1..]| * (dim + 1) + (dim + 1);
      var rs := Records(words, dim + 1);
      assert rs == [head] + Records(rest, dim + 1);
    }
  }

  /** A file written in the fvecs layout loads back as the vectors it holds,
      with its dimension and its count. */
  lemma FvecsRoundTrip(dim: int32, vecs: seq<seq<uint32>>)
    requires dim >= 0 && vecs != [] && AllOfDim(vecs, dim)
    ensures var words := Encode(dim, vecs);
      LoadFvecs(4 * |words|, words) == Loaded(Fvecs(vecs, dim, |vecs|))
  {
    var words := Encode(dim, vecs);
    RecordsOfEncode(dim, vecs);
    Int32RoundTrip(dim);
    var size := 4 * |words|;
    assert words[0] == AsUint32(dim);
    RecordArithmetic(|vecs|, dim + 1);
    var rs := Records(words, dim + 1);
    assert HeadersAre(rs, dim) by {
      forall i | 0 <= i < |rs| ensures |rs[i]| > 0 && AsInt32(rs[i][0]) == dim {
        assert rs[i] == [AsUint32(dim)] + vecs[i];
      }
    }
    assert Payloads(rs) == vecs;
  }

  /** `n` records of `w` words fill 4 * n * w bytes, a whole multiple of
      the record size. */
  lemma RecordArithmetic(n: nat, w: nat)
    requires n > 0 && w > 0
    ensures (4 * (n * w)) % (4 * w) == 0 && (4 * (n * w)) / (4 * w) == n && 4 * (n * w) >= 4
    ensures (4 * (n * w)) / 4 == n * w
  {
    assert 4 * (n * w) == n * (4 * w);
    DivOfMultiple(n, 4 * w);
    DivOfMultiple(n * w, 4);
    assert n * w >= 1 by {
      assert n * w >= 1 * w;
    }
  }

  lemma DivOfMultiple(n: int, b: int)
    requires b > 0
    ensures (n * b) % b == 0 && (n * b) / b == n
  {
    var q, r := (n * b) / b, (n * b) % b;
    assert n * b == q * b + r && 0 <= r < b;
    assert (n - q) * b == r;
    MulBounds(n - q, b);
  }

  lemma MulBounds(d: int, b: int)
    requires b > 0
    ensures d >= 1 ==> d * b >= b
    ensures d <= -1 ==> d * b <= -b
  {
    if d >= 1 {
      assert d * b == (d - 1) * b + b;
    } else if d <= -1 {
      assert d * b == (d + 1) * b - b;
    }
  }

  /** `format_time` on the whole seconds `int(seconds)` leaves. */
  function FormatTime(seconds: int): string
  {
    if seconds >= 3600 then
      IntToString(seconds / 3600) + "h " + IntToString(seconds % 3600 / 60) + "min " + IntToString(seconds % 60) + "s"
    else if seconds >= 60 then
      IntToString(seconds / 60) + "min " + IntToString(seconds % 60) + "s"
    else IntToString(seconds) + "s"
  }

  /** The fields `format_time` prints: from an hour on, hours, minutes
      below 60 and seconds below 60 that add back up to the input; from a
      minute on, minutes below 60 and seconds below 60; below a minute the
      input itself. */
  lemma FormatTimeFields(seconds: int) returns (h: int, m: int, sec: int)
    ensures seconds >= 3600 ==>
      FormatTime(seconds) == IntToString(h) + "h " + IntToString(m) + "min " + IntToString(sec) + "s" &&
      h >= 1 && 0 <= m < 60 && 0 <= sec < 60 && h * 3600 + m * 60 + sec == seconds
    ensures 60 <= seconds < 3600 ==>
      FormatTime(seconds) == IntToString(m) + "min " + IntToString(sec) + "s" &&
      1 <= m < 60 && 0 <= sec < 60 && m * 60 + sec == seconds
    ensures seconds < 60 ==> FormatTime(seconds) == IntToString(seconds) + "s"
  {
    if seconds >= 3600 {
      h, m, sec := seconds / 3600, seconds % 3600 / 60, seconds % 60;
      assert seconds % 3600 == m * 60 + sec;
    } else {
      h, m, sec := 0, seconds / 60, seconds % 60;
    }
  }
}
