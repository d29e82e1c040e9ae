/**
 * The registry of known dual-fisheye frame layouts and the detection of the
 * layout in use from the measured sizes of the first pair of frames.
 */
module Templates {

  /** One source-frame layout: frame size, the three region widths, the blend band and the default output width. */
  datatype FrameSpec = FrameSpec(width: int, height: int, sidewidth: int, centerwidth: int,
                                 blendwidth: int, equiWidth: int)

  /** The two layouts the program knows, in registry order. */
  const Registry: seq<FrameSpec> :=
    [ FrameSpec(4096, 1344, 1376, 1344, 32, 5376),
      FrameSpec(2272, 736, 768, 736, 16, 2944) ]

  /** A frame of width w and height h has the layout t. */
  predicate Matches(t: FrameSpec, w: int, h: int)
  {
    t.width == w && t.height == h
  }

  /**
   * The layout facts the rest of the program relies on: the frame size is
   * positive, a side region, the centre region and the other side region fill
   * the frame's width, the blend band is narrower than a side region, and the
   * default output width is positive and a multiple of four with an even half.
   */
  predicate WellFormed(t: FrameSpec)
  {
    && t.width > 0 && t.height > 0
    && 2 * t.sidewidth + t.centerwidth == t.width
    && 0 < t.blendwidth < t.sidewidth
    && t.equiWidth > 0 && t.equiWidth % 4 == 0 && (t.equiWidth / 2) % 2 == 0
  }

  lemma RegistryWellFormed()
    ensures forall k :: 0 <= k < |Registry| ==> WellFormed(Registry[k])
  {
    assert WellFormed(Registry[0]);
    assert WellFormed(Registry[1]);
  }

  /** No two layouts share a frame size, so detection by size is unambiguous. */
  lemma RegistryUnambiguous()
    ensures forall k, m :: 0 <= k < m < |Registry| ==> !Matches(Registry[k], Registry[m].width, Registry[m].height)
  {
  }

  /** The first layout at or after index `from` that a w x h frame has, or -1. */
  function FindTemplate(w: int, h: int, from: nat): (r: int)
    requires from <= |Registry|
    decreases |Registry| - from
    ensures r == -1 || from <= r < |Registry|
    ensures r >= 0 ==> Matches(Registry[r], w, h)
    ensures r >= 0 ==> forall k :: from <= k < r ==> !Matches(Registry[k], w, h)
    ensures r == -1 <==> forall k :: from <= k < |Registry| ==> !Matches(Registry[k], w, h)
  {
    if from == |Registry| then -1
    else if Matches(Registry[from], w, h) then from
    else FindTemplate(w, h, from + 1)
  }

  /** What CheckFrames reports: -1, or the layout index together with the frame size it stores. */
  datatype Detection = Rejected | Detected(index: nat, width: int, height: int)

  /**
   * The size check of CheckFrames on the measured sizes of the two frames: the
   * sizes must agree, and then the first layout with that size is chosen.
   */
  function CheckFrames(w1: int, h1: int, w2: int, h2: int): (r: Detection)
    ensures w1 != w2 || h1 != h2 ==> r == Rejected
    ensures r.Detected? <==> w1 == w2 && h1 == h2 && exists k :: 0 <= k < |Registry| && Matches(Registry[k], w1, h1)
    ensures r.Detected? ==> r.index < |Registry| && Matches(Registry[r.index], w1, h1)
    ensures r.Detected? ==> forall k :: 0 <= k < r.index ==> !Matches(Registry[k], w1, h1)
    ensures r.Detected? ==> r.width == w1 && r.height == h1
  {
    if w1 != w2 || h1 != h2 then Rejected
    else
      var n := FindTemplate(w1, h1, 0);
      if n < 0 then Rejected else Detected(n, w1, h1)
  }

  /** The two known frame sizes are detected as layouts 0 and 1; any other size is rejected. */
  lemma KnownSizesDetected(w: int, h: int)
    ensures CheckFrames(4096, 1344, 4096, 1344) == Detected(0, 4096, 1344)
    ensures CheckFrames(2272, 736, 2272, 736) == Detected(1, 2272, 736)
    ensures !((w == 4096 && h == 1344) || (w == 2272 && h == 736)) ==> CheckFrames(w, h, w, h) == Rejected
  {
  }
}
