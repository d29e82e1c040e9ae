/**
 * The run parameters (the global `params` record) with their defaults and the
 * normalisation the command-line options apply to them.
 *
 * `Settings` is the value of the record; class `Params` is the record itself,
 * updated field by field. The integer parsing of option values (atoi) and the
 * processor count (sysconf) are inputs.
 */
module Params {
  import opened Geometry
  import Filenames

  /** (size_t)-1, what the frame size fields hold until the frames are measured. */
  const SizeMax: nat := 0xFFFF_FFFF_FFFF_FFFF

  function Max(a: int, b: int): (r: int)
    ensures r >= a && r >= b && (r == a || r == b)
  {
    if a >= b then a else b
  }

  datatype Settings = Settings(
    outwidth: int, outheight: int,
    framewidth: nat, frameheight: nat,
    antialias: nat, antialias2: nat,
    nStart: nat, nStop: nat,
    faces: seq<Plane>,
    outfilename: string,
    debug: bool,
    threads: nat,
    skipExisting: bool)

  /**
   * init_default_params. The output size is unset (-1), the frame size is
   * unknown, antialiasing is 2 (4 samples), frames 0..100000, one worker per
   * online processor plus one, existing outputs skipped, and the six cube planes.
   */
  function Defaults(cpus: int): (s: Settings)
    ensures s.outwidth < 0 && s.outheight < 0
    ensures s.antialias == 2 && s.antialias2 == 4
    ensures s.threads >= 2 && s.skipExisting && !s.debug && s.outfilename == []
  {
    Settings(-1, -1, SizeMax, SizeMax, 2, 4, 0, 100000, CubePlanes(), "", false, Max(1, cpus) + 1, true)
  }

  /** -w n: the requested width, at least one, rounded down to a multiple of four. */
  function WidthOption(n: int): (w: int)
    ensures w >= 0 && w % 4 == 0
    // the largest multiple of four not above max(1, n)
    ensures w <= Max(1, n) < w + 4
    ensures n <= 3 ==> w == 0
  {
    4 * (Max(1, n) / 4)
  }

  /** Half a width that is a multiple of four is even, and doubles back to the width. */
  lemma HalfWidthEven(w: int)
    requires w >= 0 && w % 4 == 0
    ensures (w / 2) % 2 == 0 && 2 * (w / 2) == w
  {
    var k := w / 4;
    assert w == 4 * k;
    assert w / 2 == 2 * k;
  }

  /**
   * One pass of the option loop at argv[i]; the value of an option is the
   * next argument, parsed by atoi. The loop does not skip that value, so it is
   * itself examined as an option on the next pass.
   */
  function ApplyOption(s: Settings, argv: seq<string>, i: nat, atoi: string -> int): (r: Settings)
    requires i + 1 < |argv|
    // options never touch the frame size or the cube planes
    ensures r.framewidth == s.framewidth && r.frameheight == s.frameheight && r.faces == s.faces
  {
    var flag := argv[i];
    if flag == "-w" then
      var w := WidthOption(atoi(argv[i + 1]));
      s.(outwidth := w, outheight := w / 2)
    else if flag == "-a" then
      var a := Max(1, atoi(argv[i + 1]));
      s.(antialias := a, antialias2 := a * a)
    else if flag == "-o" then s.(outfilename := argv[i + 1])
    else if flag == "-n" then s.(nStart := Max(0, atoi(argv[i + 1])))
    else if flag == "-m" then s.(nStop := Max(0, atoi(argv[i + 1])))
    else if flag == "-d" then s.(debug := true)
    else if flag == "-F" then s.(skipExisting := false)
    else if flag == "-t" then s.(threads := Max(1, atoi(argv[i + 1])) + 1)
    else s
  }

  /** The option loop from argv[i] up to, but excluding, the last argument. */
  function ApplyOptions(s: Settings, argv: seq<string>, atoi: string -> int, i: nat): (r: Settings)
    ensures r.framewidth == s.framewidth && r.frameheight == s.frameheight && r.faces == s.faces
    decreases |argv| - i
  {
    if i + 1 >= |argv| then s
    else ApplyOptions(ApplyOption(s, argv, i, atoi), argv, atoi, i + 1)
  }

  /**
   * The invariant option handling keeps: antialias at least one with
   * antialias2 its square, at least two threads, the cube planes in place,
   * and an output size that is either unset or a multiple-of-four width with
   * an even height of half of it.
   */
  predicate Normalised(s: Settings)
  {
    && s.antialias >= 1 && s.antialias2 == s.antialias * s.antialias
    && s.threads >= 2
    && s.faces == CubePlanes()
    && ((s.outwidth == -1 && s.outheight == -1) ||
        (s.outwidth >= 0 && s.outwidth % 4 == 0 && s.outheight == s.outwidth / 2 && s.outheight % 2 == 0))
  }

  lemma DefaultsNormalised(cpus: int)
    ensures Normalised(Defaults(cpus))
  {
  }

  lemma ApplyOptionNormalised(s: Settings, argv: seq<string>, i: nat, atoi: string -> int)
    requires i + 1 < |argv|
    requires Normalised(s)
    ensures Normalised(ApplyOption(s, argv, i, atoi))
  {
    if argv[i] == "-w" {
      HalfWidthEven(WidthOption(atoi(argv[i + 1])));
    }
  }

  /** Whatever the arguments, the option loop keeps the settings normalised. */
  lemma {:induction false} ApplyOptionsNormalised(s: Settings, argv: seq<string>, atoi: string -> int, i: nat)
    requires Normalised(s)
    ensures Normalised(ApplyOptions(s, argv, atoi, i))
    decreases |argv| - i
  {
    if i + 1 < |argv| {
      ApplyOptionNormalised(s, argv, i, atoi);
      ApplyOptionsNormalised(ApplyOption(s, argv, i, atoi), argv, atoi, i + 1);
    }
  }

  /** Without a "-w" among the options examined, the output size stays as it was. */
  lemma {:induction false} NoWidthOptionKeepsSize(s: Settings, argv: seq<string>, atoi: string -> int, i: nat)
    requires forall m :: i <= m < |argv| - 1 ==> argv[m] != "-w"
    ensures ApplyOptions(s, argv, atoi, i).outwidth == s.outwidth
    ensures ApplyOptions(s, argv, atoi, i).outheight == s.outheight
    decreases |argv| - i
  {
    if i + 1 < |argv| {
      NoWidthOptionKeepsSize(ApplyOption(s, argv, i, atoi), argv, atoi, i + 1);
    }
  }

  /** Arguments other than the eight recognised flags change nothing. */
  lemma UnknownFlagIgnored(s: Settings, argv: seq<string>, i: nat, atoi: string -> int)
    requires i + 1 < |argv|
    requires argv[i] !in ["-w", "-a", "-o", "-n", "-m", "-d", "-F", "-t"]
    ensures ApplyOption(s, argv, i, atoi) == s
  {
  }

  /** An output mask longer than two characters must hold exactly one '%'; otherwise it is cleared. */
  function CheckedMask(mask: string): (r: string)
    ensures r == mask || r == []
    ensures |r| > 2 ==> Filenames.PercentCount(r) == 1
    ensures r == [] <==> mask == [] || (|mask| > 2 && Filenames.PercentCount(mask) != 1)
  {
    if |mask| > 2 && Filenames.PercentCount(mask) != 1 then [] else mask
  }

  /** The global parameter record, updated in place. */
  class Params {
    var outwidth: int
    var outheight: int
    var framewidth: nat
    var frameheight: nat
    var antialias: nat
    var antialias2: nat
    var nStart: nat
    var nStop: nat
    var faces: seq<Plane>
    var outfilename: string
    var debug: bool
    var threads: nat
    var skipExisting: bool

    function State(): Settings
      reads this
    {
      Settings(outwidth, outheight, framewidth, frameheight, antialias, antialias2,
               nStart, nStop, faces, outfilename, debug, threads, skipExisting)
    }

    /** The record as static storage holds it before anything runs: all zero. */
    constructor ()
      ensures State() == Settings(0, 0, 0, 0, 0, 0, 0, 0, seq(6, _ => Plane(0, 0, 0, 0)), [], false, 0, false)
    {
      outwidth, outheight := 0, 0;
      framewidth, frameheight := 0, 0;
      antialias, antialias2 := 0, 0;
      nStart, nStop := 0, 0;
      faces := seq(6, _ => Plane(0, 0, 0, 0));
      outfilename := [];
      debug := false;
      threads := 0;
      skipExisting := false;
    }

    /** init_default_params; cpus is what the processor-count query returned. */
    method InitDefaultParams(cpus: int)
      modifies this
      ensures State() == Defaults(cpus)
      ensures Normalised(State())
    {
      outwidth := -1;
      outheight := -1;
      framewidth := SizeMax;
      frameheight := SizeMax;
      antialias := 2;
      antialias2 := 4;
      nStart := 0;
      nStop := 100000;
      outfilename := [];
      debug := false;
      threads := Max(1, cpus) + 1;
      skipExisting := true;
      faces := CubePlanes();
      DefaultsNormalised(cpus);
    }

    /** One pass of the option loop of init, at argv[i]. */
    method ApplyOptionAt(argv: seq<string>, i: nat, atoi: string -> int)
      requires i + 1 < |argv|
      modifies this
      ensures State() == ApplyOption(old(State()), argv, i, atoi)
    {
      var flag := argv[i];
      if flag == "-w" {
        var w := WidthOption(atoi(argv[i + 1]));
        outwidth := w;
        outheight := w / 2;
      } else if flag == "-a" {
        antialias := Max(1, atoi(argv[i + 1]));
        antialias2 := antialias * antialias;
      } else if flag == "-o" {
        outfilename := argv[i + 1];
      } else if flag == "-n" {
        nStart := Max(0, atoi(argv[i + 1]));
      } else if flag == "-m" {
        nStop := Max(0, atoi(argv[i + 1]));
      } else if flag == "-d" {
        debug := true;
      } else if flag == "-F" {
        skipExisting := false;
      } else if flag == "-t" {
        threads := Max(1, atoi(argv[i + 1])) + 1;
      }
    }

    /** The option loop of init over argv[1 .. argc-2]. */
    method ParseOptions(argv: seq<string>, atoi: string -> int)
      modifies this
      ensures State() == ApplyOptions(old(State()), argv, atoi, 1)
      ensures Normalised(old(State())) ==> Normalised(State())
    {
      var i := 1;
      while i < |argv| - 1
        invariant 1 <= i
        invariant ApplyOptions(State(), argv, atoi, i) == ApplyOptions(old(State()), argv, atoi, 1)
      {
        ApplyOptionAt(argv, i, atoi);
        i := i + 1;
      }
      if Normalised(old(State())) {
        ApplyOptionsNormalised(old(State()), argv, atoi, 1);
      }
    }
  }
}
