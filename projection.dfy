/**
 * Projection of one output frame (calc_spherical): every output pixel is the
 * per-channel mean of the colours of its antialias x antialias samples, read
 * from the lookup table in table order.
 *
 * Colour lookup (GetColour, with its blending between the two source frames)
 * is the parameter `getColour`: a function of a table record's face code and
 * (u, v) that returns a pixel of byte channels. The source frames it reads
 * are part of it.
 */
module Projection {
  import opened Geometry
  import opened Lookup

  newtype byte = x: int | 0 <= x < 256

  /** An RGBA pixel of the output and source bitmaps. */
  datatype Pixel = Pixel(r: byte, g: byte, b: byte, a: byte)

  datatype Channel = Red | Green | Blue

  function Level(c: Pixel, ch: Channel): int
  {
    match ch
    case Red => c.r as int
    case Green => c.g as int
    case Blue => c.b as int
  }

  /** The sum of one channel over the colours of the records table[lo..hi). */
  function ChannelSum(table: seq<Entry>, lo: nat, hi: nat, getColour: (int, UV) -> Pixel, ch: Channel): int
    requires lo <= hi <= |table|
    decreases hi - lo
  {
    if hi == lo then 0
    else ChannelSum(table, lo, hi - 1, getColour, ch) + Level(getColour(table[hi - 1].face, table[hi - 1].uv), ch)
  }

  /** A sum of n byte levels lies between 0 and 255*n. */
  lemma {:induction false} ChannelSumBounds(table: seq<Entry>, lo: nat, hi: nat, getColour: (int, UV) -> Pixel, ch: Channel)
    requires lo <= hi <= |table|
    ensures 0 <= ChannelSum(table, lo, hi, getColour, ch) <= 255 * (hi - lo)
    decreases hi - lo
  {
    if hi > lo {
      ChannelSumBounds(table, lo, hi - 1, getColour, ch);
    }
  }

  /** If every sample has level c, the sum is c times the number of samples. */
  lemma {:induction false} ChannelSumUniform(table: seq<Entry>, lo: nat, hi: nat, getColour: (int, UV) -> Pixel, ch: Channel, c: int)
    requires lo <= hi <= |table|
    requires forall k :: lo <= k < hi ==> Level(getColour(table[k].face, table[k].uv), ch) == c
    ensures ChannelSum(table, lo, hi, getColour, ch) == c * (hi - lo)
    decreases hi - lo
  {
    if hi > lo {
      ChannelSumUniform(table, lo, hi - 1, getColour, ch, c);
      assert c * (hi - 1 - lo) + c == c * (hi - lo);
    }
  }

  /** The store of an integer into an unsigned char channel keeps its low eight bits. */
  function ToByte(x: int): (b: byte)
    ensures 0 <= x < 256 ==> b as int == x
  {
    (x % 256) as byte
  }

  lemma MulLe(x: nat, y: nat, n: nat)
    requires x <= y
    ensures x * n <= y * n
  {
  }

  /**
   * The pixel calc_spherical leaves when its n samples are the records
   * table[lo .. lo+n): each of r, g and b is the sum of that channel over the
   * samples, divided by A2 and stored in a byte; alpha is what the pixel held
   * before.
   */
  function PixelColour(prev: Pixel, table: seq<Entry>, lo: nat, n: nat, A2: nat,
                       getColour: (int, UV) -> Pixel): Pixel
    requires lo + n <= |table| && A2 > 0
  {
    prev.(r := ToByte(ChannelSum(table, lo, lo + n, getColour, Red) / A2),
          g := ToByte(ChannelSum(table, lo, lo + n, getColour, Green) / A2),
          b := ToByte(ChannelSum(table, lo, lo + n, getColour, Blue) / A2))
  }

  /**
   * With antialias2 equal to the number of samples, as the program keeps it
   * (antialias squared), each channel is the mean of the samples: the integer
   * quotient of their sum by n, which never exceeds 255, so the byte store
   * loses nothing; alpha is kept.
   */
  lemma PixelColourIsMean(prev: Pixel, table: seq<Entry>, lo: nat, n: nat, getColour: (int, UV) -> Pixel, ch: Channel)
    requires lo + n <= |table| && n >= 1
    ensures Level(PixelColour(prev, table, lo, n, n, getColour), ch) == ChannelSum(table, lo, lo + n, getColour, ch) / n
    ensures Level(PixelColour(prev, table, lo, n, n, getColour), ch) <= 255
    ensures PixelColour(prev, table, lo, n, n, getColour).a == prev.a
  {
    ChannelSumBounds(table, lo, lo + n, getColour, ch);
    var s := ChannelSum(table, lo, lo + n, getColour, ch);
    DivBelow(s, n, 255);
  }

  lemma DivBelow(s: nat, n: nat, c: nat)
    requires n >= 1 && s <= c * n
    ensures s / n <= c
  {
    if s / n > c {
      assert (s / n) * n >= (c + 1) * n by { MulLe(c + 1, s / n, n); }
    }
  }

  /** With one sample per pixel (antialias 1) a pixel takes its sample's colour; alpha is kept. */
  lemma PixelColourPassThrough(prev: Pixel, table: seq<Entry>, lo: nat, getColour: (int, UV) -> Pixel)
    requires lo < |table|
    ensures var c := getColour(table[lo].face, table[lo].uv);
            PixelColour(prev, table, lo, 1, 1, getColour) == Pixel(c.r, c.g, c.b, prev.a)
  {
    assert ChannelSum(table, lo, lo, getColour, Red) == 0;
    assert ChannelSum(table, lo, lo, getColour, Green) == 0;
    assert ChannelSum(table, lo, lo, getColour, Blue) == 0;
  }

  /** A pixel whose n samples all have the same colour c gets that colour (alpha aside). */
  lemma PixelColourUniform(prev: Pixel, table: seq<Entry>, lo: nat, n: nat, getColour: (int, UV) -> Pixel, c: Pixel)
    requires lo + n <= |table| && n >= 1
    requires forall k :: lo <= k < lo + n ==> getColour(table[k].face, table[k].uv) == c
    ensures PixelColour(prev, table, lo, n, n, getColour) == c.(a := prev.a)
  {
    ChannelSumUniform(table, lo, lo + n, getColour, Red, c.r as int);
    ChannelSumUniform(table, lo, lo + n, getColour, Green, c.g as int);
    ChannelSumUniform(table, lo, lo + n, getColour, Blue, c.b as int);
    DivModOf(c.r as int, 0, n);
    DivModOf(c.g as int, 0, n);
    DivModOf(c.b as int, 0, n);
  }

  /**
   * Output pixel p = j*W+i of an H x W output is below H*W, and its samples,
   * from FirstSample(p) on, lie within the H*W*A*A records of the table.
   */
  lemma PixelSamples(j: nat, i: nat, W: nat, H: nat, A: nat)
    requires j < H && i < W
    ensures j * W + i < H * W
    ensures FirstSample(j * W + i, A) + A * A <= H * W * A * A
  {
    var p := j * W + i;
    var n := A * A;
    BelowNextMultiple(j, i, W, H);
    assert p * n + n == (p + 1) * n;
    MulLe(p + 1, H * W, n);
    TableSizeRegroup(H, W, A);
  }

  /**
   * The antialiasing loops of calc_spherical for one output pixel: A rows of A
   * sub-samples read the records from `start` on, one after the other, and
   * their colours are summed per channel. The running table index ends A*A
   * records further on.
   */
  method SumSamples(table: array<Entry>, start: nat, A: nat, getColour: (int, UV) -> Pixel)
    returns (sumR: int, sumG: int, sumB: int, next: nat)
    requires start + A * A <= table.Length
    ensures next == start + A * A
    ensures sumR == ChannelSum(table[..], start, next, getColour, Red)
    ensures sumG == ChannelSum(table[..], start, next, getColour, Green)
    ensures sumB == ChannelSum(table[..], start, next, getColour, Blue)
  {
    var itable := start;
    sumR, sumG, sumB := 0, 0, 0;
    var aj := 0;
    while aj < A
      invariant 0 <= aj <= A
      invariant itable == start + aj * A && aj * A <= A * A
      invariant sumR == ChannelSum(table[..], start, itable, getColour, Red)
      invariant sumG == ChannelSum(table[..], start, itable, getColour, Green)
      invariant sumB == ChannelSum(table[..], start, itable, getColour, Blue)
    {
      SubSampleBound(aj, A, A);
      var ai := 0;
      while ai < A
        invariant 0 <= ai <= A
        invariant itable == start + aj * A + ai
        invariant sumR == ChannelSum(table[..], start, itable, getColour, Red)
        invariant sumG == ChannelSum(table[..], start, itable, getColour, Green)
        invariant sumB == ChannelSum(table[..], start, itable, getColour, Blue)
      {
        var face := table[itable].face;
        var uv := table[itable].uv;
        itable := itable + 1;
        var c := getColour(face, uv);
        sumR := sumR + c.r as int;
        sumG := sumG + c.g as int;
        sumB := sumB + c.b as int;
        ai := ai + 1;
      }
      aj := aj + 1;
    }
    next := itable;
  }

  lemma NextMultiple(p: nat, n: nat)
    ensures p * n + n == (p + 1) * n
  {
  }

  /** The samples of pixel p end where those of pixel p+1 begin. */
  lemma NextPixelStart(p: nat, A: nat)
    ensures FirstSample(p, A) + A * A == FirstSample(p + 1, A)
  {
    NextMultiple(p, A * A);
  }

  /** aj*A + ai never passes A*A while aj < A and ai <= A; a full row of sub-samples moves on by A. */
  lemma SubSampleBound(aj: nat, ai: nat, A: nat)
    requires aj < A && ai <= A
    ensures aj * A + ai <= A * A
    ensures aj * A + A == (aj + 1) * A
  {
    MulLe(aj + 1, A, A);
  }

  /** The table position of the first of the A*A samples of output pixel p. */
  function FirstSample(p: nat, A: nat): nat
  {
    p * (A * A)
  }

  /**
   * Output pixel (j, i) of a W-wide output is pixel j*W+i, and its first
   * sample is the record load_lltable computed for sample (j, i, 0, 0): the
   * projection reads the table in the order it was built.
   */
  lemma FirstSampleIsSampleIndex(j: nat, i: nat, aj: nat, ai: nat, W: nat, A: nat)
    ensures FirstSample(j * W + i, A) + (aj * A + ai) == SampleIndex(j, i, aj, ai, W, A)
  {
    SampleIndexRegroup(j, i, aj, ai, W, A);
  }

  /**
   * calc_spherical. The table is walked once, in order: the samples of output
   * pixel (j, i) are the records from SampleIndex(j, i, 0, 0) on, and the walk
   * ends at `consumed`, which is H*W*A*A. Every output pixel q below H*W gets
   * the colour of the records q*A*A .. q*A*A + A*A - 1, with its alpha kept;
   * the rest of the output is untouched.
   */
  method CalcSpherical(table: array<Entry>, W: nat, H: nat, A: nat, A2: nat,
                       getColour: (int, UV) -> Pixel, out: array<Pixel>)
    returns (ghost consumed: nat)
    requires A2 > 0
    requires table.Length >= H * W * A * A
    requires out.Length >= H * W
    modifies out
    ensures consumed == H * W * A * A
    ensures forall q :: 0 <= q < H * W ==>
              FirstSample(q, A) + A * A <= table.Length &&
              out[q] == PixelColour(old(out[q]), table[..], FirstSample(q, A), A * A, A2, getColour)
    ensures forall q :: H * W <= q < out.Length ==> out[q] == old(out[q])
  {
    ghost var n := A * A;
    ghost var t := table[..];
    ghost var p := 0;
    var itable := 0;
    var j := 0;
    while j < H
      invariant 0 <= j <= H && p == j * W <= H * W
      invariant itable == FirstSample(p, A)
      invariant forall q :: 0 <= q < p ==>
                  FirstSample(q, A) + n <= |t| && out[q] == PixelColour(old(out[q]), t, FirstSample(q, A), n, A2, getColour)
      invariant forall q :: p <= q < out.Length ==> out[q] == old(out[q])
    {
      var i := 0;
      while i < W
        invariant 0 <= i <= W && p == j * W + i <= H * W
        invariant itable == FirstSample(p, A)
        invariant forall q :: 0 <= q < p ==>
                    FirstSample(q, A) + n <= |t| && out[q] == PixelColour(old(out[q]), t, FirstSample(q, A), n, A2, getColour)
        invariant forall q :: p <= q < out.Length ==> out[q] == old(out[q])
      {
        var index := j * W + i;
        PixelSamples(j, i, W, H, A);
        var sumR, sumG, sumB;
        sumR, sumG, sumB, itable := SumSamples(table, itable, A, getColour);
        out[index] := out[index].(r := ToByte(sumR / A2), g := ToByte(sumG / A2), b := ToByte(sumB / A2));
        NextPixelStart(p, A);
        p := p + 1;
        i := i + 1;
      }
      NextMultiple(j, W);
      MulLe(j + 1, H, W);
      j := j + 1;
    }
    TableSizeRegroup(H, W, A);
    consumed := itable;
  }
}
