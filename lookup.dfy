/**
 * The supersampling lookup table: one (face, u, v) record per output pixel and
 * antialias sub-sample, in row-major (j, i, aj, ai) order, loaded from a cache
 * file when that holds enough records and otherwise regenerated and written back.
 *
 * The ray search of FindFaceUV is the parameter `locate`, a function of the
 * normalised sample position (x, y) in [0, 1) x [0, 1); the mapping of x and y to
 * longitude x*2pi - pi and latitude y*pi - pi/2 is part of it. The cache file is
 * an `Option<seq<Entry>>`: None when it cannot be opened, else its records.
 */
module Lookup {
  import opened Wrappers
  import opened Geometry

  /** One table record: the (u, v) and the face id FindFaceUV returned (-1 on failure). */
  datatype Entry = Entry(uv: UV, face: int)

  /**
   * The record left in a slot by `slot.face = FindFaceUV(..., &slot.uv)`: the
   * returned code, and the (u, v) only when a face was found; on failure the
   * slot keeps the (u, v) it had.
   */
  function Store(slot: Entry, r: FaceUV): (e: Entry)
    ensures e.face == FaceCode(r)
    ensures e.uv == if r.Found? then r.uv else slot.uv
  {
    if r.Found? then Entry(r.uv, FaceId(r.face)) else slot.(face := -1)
  }

  /** A record agrees with a FindFaceUV outcome: same code, and the same (u, v) when a face was found. */
  predicate Agrees(e: Entry, r: FaceUV)
  {
    e.face == FaceCode(r) && (r.Found? ==> e.uv == r.uv)
  }

  /** The table position of sample (aj, ai) of output pixel (j, i). */
  function SampleIndex(j: nat, i: nat, aj: nat, ai: nat, W: nat, A: nat): nat
  {
    ((j * W + i) * A + aj) * A + ai
  }

  /** Normalised horizontal position of a sample: i/W + ai/(A*W). */
  function SampleX(i: nat, ai: nat, W: nat, A: nat): real
    requires W > 0 && A > 0
  {
    i as real / W as real + ai as real / (A * W) as real
  }

  /** Normalised vertical position of a sample: j/H + aj/(A*H). */
  function SampleY(j: nat, aj: nat, H: nat, A: nat): real
    requires H > 0 && A > 0
  {
    j as real / H as real + aj as real / (A * H) as real
  }

  /** Sample positions stay inside [0, 1), so longitude stays in [-pi, pi) and latitude in [-pi/2, pi/2). */
  lemma SamplePositionInUnit(j: nat, i: nat, aj: nat, ai: nat, W: nat, H: nat, A: nat)
    requires j < H && i < W && aj < A && ai < A
    ensures 0.0 <= SampleX(i, ai, W, A) < 1.0
    ensures 0.0 <= SampleY(j, aj, H, A) < 1.0
  {
    FractionInUnit(i, ai, W, A);
    FractionInUnit(j, aj, H, A);
  }

  /** q/Q + r/(A*Q) lies in [0, 1) when q < Q and r < A. */
  lemma FractionInUnit(q: nat, r: nat, Q: nat, A: nat)
    requires q < Q && r < A
    ensures 0.0 <= q as real / Q as real + r as real / (A * Q) as real < 1.0
  {
    AddFractions(q, r, Q, A);
    BelowNextMultiple(q, r, A, Q);
    assert Q * A == A * Q;
    DivBelowOne((q * A + r) as real, (A * Q) as real);
  }

  lemma DivBelowOne(x: real, y: real)
    requires 0.0 <= x < y
    ensures 0.0 <= x / y < 1.0
  {
  }

  /** i/W + ai/(A*W) is the single fraction (i*A + ai)/(A*W). */
  lemma AddFractions(i: nat, ai: nat, W: nat, A: nat)
    requires W > 0 && A > 0
    ensures i as real / W as real + ai as real / (A * W) as real == (i * A + ai) as real / (A * W) as real
  {
    var w := W as real;
    var a := A as real;
    assert (A * W) as real == a * w;
    assert (i * A) as real == i as real * a;
    assert i as real / w == (i as real * a) / (a * w);
  }

  /** What load_lltable computes for sample (aj, ai) of pixel (j, i). */
  function Sample(j: nat, i: nat, aj: nat, ai: nat, W: nat, H: nat, A: nat, locate: (real, real) -> Hit): FaceUV
    requires W > 0 && H > 0 && A > 0
  {
    FindFaceUV(locate(SampleX(i, ai, W, A), SampleY(j, aj, H, A)))
  }

  lemma PositiveFactors(H: nat, W: nat, A: nat)
    requires H * W * A * A > 0
    ensures H > 0 && W > 0 && A > 0 && A * A > 0
  {
    ZeroProduct(H, W);
    ZeroProduct(H * W, A);
    ZeroProduct(H * W * A, A);
    MultipleAtLeastOne(A, A);
  }

  lemma ZeroProduct(x: int, y: int)
    ensures x == 0 || y == 0 ==> x * y == 0
  {
  }

  /** Quotient and remainder of a natural number by a positive one are natural. */
  lemma DivModNat(k: nat, n: nat)
    requires n > 0
    ensures k / n >= 0 && 0 <= k % n < n
  {
  }

  /** The outcome the table should hold at position k: k split back into (j, i, aj, ai). */
  function Expected(k: nat, W: nat, H: nat, A: nat, locate: (real, real) -> Hit): FaceUV
    requires k < H * W * A * A
  {
    PositiveFactors(H, W, A);
    var n := A * A;
    DivModNat(k, n);
    var p := k / n;
    var r := k % n;
    DivModNat(p, W);
    DivModNat(r, A);
    Sample(p / W, p % W, r / A, r % A, W, H, A, locate)
  }

  /** Division by n recovers q and r from q*n + r when 0 <= r < n. */
  lemma DivModOf(q: int, r: int, n: int)
    requires n > 0 && 0 <= r < n
    ensures (q * n + r) / n == q && (q * n + r) % n == r
  {
    var d := (q * n + r) / n;
    var m := (q * n + r) % n;
    assert (q - d) * n == m - r;
    MultipleAtLeastOne(q - d, n);
  }

  /** A non-zero multiple of n is at least n away from zero. */
  lemma MultipleAtLeastOne(x: int, n: int)
    requires n > 0
    ensures x >= 1 ==> x * n >= n
    ensures x <= -1 ==> x * n <= -n
  {
  }

  /** q*n + r stays below Q*n when q < Q and r < n. */
  lemma BelowNextMultiple(q: nat, r: nat, n: nat, Q: nat)
    requires q < Q && r < n
    ensures q * n + r < Q * n
  {
    assert q * n + n == (q + 1) * n;
    assert (q + 1) * n <= Q * n;
  }

  /** The running position of a sample, regrouped as pixel number times samples per pixel plus the sub-sample number. */
  lemma SampleIndexRegroup(j: nat, i: nat, aj: nat, ai: nat, W: nat, A: nat)
    ensures SampleIndex(j, i, aj, ai, W, A) == (j * W + i) * (A * A) + (aj * A + ai)
  {
    var p := j * W + i;
    assert (p * A + aj) * A == p * A * A + aj * A;
    assert p * A * A == p * (A * A);
  }

  lemma TableSizeRegroup(H: nat, W: nat, A: nat)
    ensures (H * W) * (A * A) == H * W * A * A
  {
  }

  /**
   * Sample positions are a one-to-one numbering of the table: every sample of
   * the H x W output with A x A sub-samples lands below H*W*A*A, and its
   * position splits back into the sample.
   */
  lemma SampleIndexSplits(j: nat, i: nat, aj: nat, ai: nat, W: nat, H: nat, A: nat)
    requires j < H && i < W && aj < A && ai < A
    ensures var k := SampleIndex(j, i, aj, ai, W, A);
            && k < H * W * A * A
            && k / (A * A) / W == j && k / (A * A) % W == i
            && k % (A * A) / A == aj && k % (A * A) % A == ai
  {
    var p := j * W + i;
    var r := aj * A + ai;
    var n := A * A;
    SampleIndexRegroup(j, i, aj, ai, W, A);
    BelowNextMultiple(aj, ai, A, A);
    BelowNextMultiple(j, i, W, H);
    BelowNextMultiple(p, r, n, H * W);
    TableSizeRegroup(H, W, A);
    DivModOf(p, r, n);
    DivModOf(j, i, W);
    DivModOf(aj, ai, A);
  }

  /** Moving on from the last sub-sample of a row of sub-samples, of a pixel, and of an output row. */
  lemma SampleIndexCarry(j: nat, i: nat, aj: nat, W: nat, H: nat, A: nat)
    ensures SampleIndex(j, i, aj, A, W, A) == SampleIndex(j, i, aj + 1, 0, W, A)
    ensures SampleIndex(j, i, A, 0, W, A) == SampleIndex(j, i + 1, 0, 0, W, A)
    ensures SampleIndex(j, W, 0, 0, W, A) == SampleIndex(j + 1, 0, 0, 0, W, A)
    ensures SampleIndex(H, 0, 0, 0, W, A) == H * W * A * A
  {
    var p := j * W + i;
    assert (p * A + aj) * A + A == (p * A + aj + 1) * A;
    assert p * A + A == (p + 1) * A;
    assert j * W + W == (j + 1) * W;
  }

  /** At the position of a sample the table expects exactly that sample. */
  lemma ExpectedAtSample(j: nat, i: nat, aj: nat, ai: nat, W: nat, H: nat, A: nat, locate: (real, real) -> Hit)
    requires j < H && i < W && aj < A && ai < A
    ensures SampleIndex(j, i, aj, ai, W, A) < H * W * A * A
    ensures Expected(SampleIndex(j, i, aj, ai, W, A), W, H, A, locate) == Sample(j, i, aj, ai, W, H, A, locate)
  {
    SampleIndexSplits(j, i, aj, ai, W, H, A);
  }

  /** The records fread delivers from the cache file into a table of n slots. */
  function ReadRecords(cache: Option<seq<Entry>>, n: nat): (rs: seq<Entry>)
    ensures |rs| <= n
    ensures |rs| == n <==> n == 0 || (cache.Some? && |cache.value| >= n)
    ensures cache.None? ==> rs == []
    ensures cache.Some? ==> |rs| <= |cache.value| && rs == cache.value[..|rs|]
  {
    match cache
    case None => []
    case Some(file) => if |file| <= n then file else file[..n]
  }

  /**
   * The two antialiasing loops of load_lltable for output pixel (j, i): the
   * A*A slots from `start`, the pixel's first sample position, get the
   * outcomes of the pixel's sub-samples in (aj, ai) order, and `next` is the
   * next pixel's first sample position. No other slot changes.
   */
  method FillPixel(table: array<Entry>, start: nat, j: nat, i: nat, H: nat, W: nat, A: nat,
                   locate: (real, real) -> Hit)
    returns (next: nat)
    requires j < H && i < W
    requires table.Length == H * W * A * A
    requires start == SampleIndex(j, i, 0, 0, W, A)
    modifies table
    ensures next == SampleIndex(j, i + 1, 0, 0, W, A)
    ensures forall k :: 0 <= k < table.Length && !(start <= k < next) ==> table[k] == old(table[k])
    ensures forall k :: start <= k < next && k < table.Length ==> Agrees(table[k], Expected(k, W, H, A, locate))
  {
    var itable := start;
    var aj := 0;
    while aj < A
      invariant 0 <= aj <= A
      invariant start <= itable == SampleIndex(j, i, aj, 0, W, A)
      invariant forall k :: 0 <= k < table.Length && !(start <= k < itable) ==> table[k] == old(table[k])
      invariant forall k :: start <= k < itable && k < table.Length ==> Agrees(table[k], Expected(k, W, H, A, locate))
    {
      var ai := 0;
      while ai < A
        invariant 0 <= ai <= A
        invariant start <= itable == SampleIndex(j, i, aj, ai, W, A)
        invariant forall k :: 0 <= k < table.Length && !(start <= k < itable) ==> table[k] == old(table[k])
        invariant forall k :: start <= k < itable && k < table.Length ==> Agrees(table[k], Expected(k, W, H, A, locate))
      {
        ExpectedAtSample(j, i, aj, ai, W, H, A, locate);
        var x := SampleX(i, ai, W, A);
        var y := SampleY(j, aj, H, A);
        table[itable] := Store(table[itable], FindFaceUV(locate(x, y)));
        itable := itable + 1;
        ai := ai + 1;
      }
      SampleIndexCarry(j, i, aj, W, H, A);
      aj := aj + 1;
    }
    SampleIndexCarry(j, i, aj, W, H, A);
    next := itable;
  }

  /** The table (g_lltable) with its size (ntable) and fill position (itable). */
  class LookupTable {
    var entries: array<Entry>
    var ntable: int
    var itable: int

    /** No table yet. */
    constructor ()
      ensures entries.Length == 0 && ntable == 0 && itable == 0
    {
      entries := new Entry[0];
      ntable := 0;
      itable := 0;
    }

    /**
     * load_lltable for an H x W output with A x A sub-samples. The cache is
     * kept verbatim exactly when it delivers ntable records; otherwise every
     * slot is regenerated in (j, i, aj, ai) order and the whole table is
     * returned as the records written back to the cache file.
     */
    method Load(H: nat, W: nat, A: nat, cache: Option<seq<Entry>>, locate: (real, real) -> Hit)
      returns (saved: Option<seq<Entry>>)
      modifies this
      ensures fresh(entries)
      ensures ntable == H * W * A * A && entries.Length == ntable
      ensures |ReadRecords(cache, ntable)| == ntable ==>
                entries[..] == ReadRecords(cache, ntable) && saved == None && itable == old(itable)
      ensures |ReadRecords(cache, ntable)| != ntable ==>
                && itable == ntable
                && saved == Some(entries[..])
                && forall k :: 0 <= k < ntable ==> Agrees(entries[k], Expected(k, W, H, A, locate))
    {
      ntable := H * W * A * A;
      var table := new Entry[ntable];
      entries := table;
      var records := ReadRecords(cache, ntable);
      forall k | 0 <= k < |records| {
        table[k] := records[k];
      }
      saved := None;
      if |records| != ntable {
        ghost var size := ntable;
        itable := 0;
        var j := 0;
        while j < H
          invariant 0 <= j <= H
          invariant entries == table && ntable == size
          invariant itable == SampleIndex(j, 0, 0, 0, W, A)
          invariant forall k :: 0 <= k < itable && k < size ==> Agrees(table[k], Expected(k, W, H, A, locate))
        {
          var i := 0;
          while i < W
            invariant 0 <= i <= W
            invariant entries == table && ntable == size
            invariant itable == SampleIndex(j, i, 0, 0, W, A)
            invariant forall k :: 0 <= k < itable && k < size ==> Agrees(table[k], Expected(k, W, H, A, locate))
          {
            itable := FillPixel(table, itable, j, i, H, W, A, locate);
            i := i + 1;
          }
          SampleIndexCarry(j, i, 0, W, H, A);
          j := j + 1;
        }
        SampleIndexCarry(j, 0, 0, W, H, A);
        saved := Some(table[..]);
      }
    }
  }

  /**
   * A table written back by a fresh build and read again by the next run with
   * the same sizes is the table that was built: the cache round trip is exact.
   */
  method ReloadMatchesFresh(H: nat, W: nat, A: nat, locate: (real, real) -> Hit)
    returns (built: seq<Entry>, reloaded: seq<Entry>)
    ensures |built| == H * W * A * A
    ensures forall k :: 0 <= k < |built| ==> Agrees(built[k], Expected(k, W, H, A, locate))
    ensures reloaded == built
  {
    var first := new LookupTable();
    var file := first.Load(H, W, A, None, locate);
    built := first.entries[..];
    var second := new LookupTable();
    var _ := second.Load(H, W, A, if file.Some? then file else Some(built), locate);
    reloaded := second.entries[..];
  }
}
