/**
 * Start-up (init): default parameters, the option loop, the filename
 * template checks, frame layout detection, the default output size and the
 * lookup table. Where the program calls exit(-1) the model returns None.
 *
 * The measured sizes of the first pair of frames are an input: None stands
 * for every way CheckFrames fails before it compares sizes (a name that is
 * neither JPEG nor PNG, a frame that does not open).
 */
module Driver {
  import opened Wrappers
  import opened Geometry
  import opened Templates
  import opened Filenames
  import opened Params
  import opened Lookup

  /** The width and height of the first (w1, h1) and second (w2, h2) frame of the first pair. */
  datatype Measured = Measured(w1: int, h1: int, w2: int, h2: int)

  /** A successful start: the detected layout (whichtemplate) and the parameter record. */
  datatype Started = Started(template: nat, settings: Settings)

  /** The parameters after the option loop and the output mask check. */
  function Options(argv: seq<string>, atoi: string -> int, cpus: int): Settings
  {
    var opts := ApplyOptions(Defaults(cpus), argv, atoi, 1);
    opts.(outfilename := CheckedMask(opts.outfilename))
  }

  /** CheckFrames on the first pair of frames, when both could be examined. */
  function Detect(frames: Option<Measured>): Detection
  {
    match frames
    case None => Rejected
    case Some(m) => CheckFrames(m.w1, m.h1, m.w2, m.h2)
  }

  /** The frame size stored, and the layout's default output size where none was asked for. */
  function WithLayout(s: Settings, k: nat, w: nat, h: nat): Settings
    requires k < |Registry|
  {
    var s := s.(framewidth := w, frameheight := h);
    if s.outwidth < 0 then s.(outwidth := Registry[k].equiWidth, outheight := Registry[k].equiWidth / 2)
    else s
  }

  /**
   * What init leaves behind, as a value: None where it exits, otherwise the
   * layout index and the parameters after options, mask check, frame sizes
   * and the default output size.
   */
  function Configure(argv: seq<string>, atoi: string -> int, cpus: int, frames: Option<Measured>): Option<Started>
  {
    if |argv| < 2 || PercentCount(argv[|argv| - 1]) != 2 then None
    else
      match Detect(frames)
      case Rejected => None
      case Detected(k, w, h) =>
        RegistryWellFormed();
        Some(Started(k, WithLayout(Options(argv, atoi, cpus), k, w, h)))
  }

  /**
   * After a successful start the parameters are normalised with a set,
   * non-negative output size; the last argument had two conversions and a
   * kept output mask has one; the frame size is that of the detected layout.
   */
  lemma ConfigureSound(argv: seq<string>, atoi: string -> int, cpus: int, frames: Option<Measured>)
    ensures var r := Configure(argv, atoi, cpus, frames);
            r.Some? ==>
              && |argv| >= 2 && PercentCount(argv[|argv| - 1]) == 2
              && Normalised(r.value.settings) && r.value.settings.outwidth >= 0
              && (|r.value.settings.outfilename| > 2 ==> PercentCount(r.value.settings.outfilename) == 1)
              && r.value.template < |Registry|
              && Matches(Registry[r.value.template], r.value.settings.framewidth, r.value.settings.frameheight)
  {
    if |argv| >= 2 {
      DefaultsNormalised(cpus);
      ApplyOptionsNormalised(Defaults(cpus), argv, atoi, 1);
      RegistryWellFormed();
    }
  }

  /**
   * Frames are only ever accepted in a pair of equal size, and with no "-w"
   * option the output is the layout's default equirectangular size.
   */
  lemma DefaultOutputSize(argv: seq<string>, atoi: string -> int, cpus: int, frames: Option<Measured>)
    requires forall m :: 1 <= m < |argv| - 1 ==> argv[m] != "-w"
    ensures var r := Configure(argv, atoi, cpus, frames);
            r.Some? ==>
              && frames.Some? && frames.value.w1 == frames.value.w2 && frames.value.h1 == frames.value.h2
              && r.value.settings.outwidth == Registry[r.value.template].equiWidth
              && r.value.settings.outheight == Registry[r.value.template].equiWidth / 2
  {
    NoWidthOptionKeepsSize(Defaults(cpus), argv, atoi, 1);
  }

  /**
   * The first half of init: defaults, the argument count check, the option
   * loop and the two filename template checks. ok is false where the
   * program exits.
   */
  method ReadOptions(p: Params, argv: seq<string>, atoi: string -> int, cpus: int) returns (ok: bool)
    modifies p
    ensures ok <==> |argv| >= 2 && PercentCount(argv[|argv| - 1]) == 2
    ensures ok ==> p.State() == Options(argv, atoi, cpus)
  {
    p.InitDefaultParams(cpus);
    if |argv| < 2 {
      return false;
    }
    p.ParseOptions(argv, atoi);
    ok := CheckTemplate(argv[|argv| - 1], 2);
    if !ok {
      return;
    }
    if |p.outfilename| > 2 {
      var maskOk := CheckTemplate(p.outfilename, 1);
      if !maskOk {
        p.outfilename := [];
      }
    }
  }

  /** The frame size found by CheckFrames is stored, and an unset output size becomes the layout's default. */
  method UseLayout(p: Params, k: nat, w: nat, h: nat)
    requires k < |Registry|
    modifies p
    ensures p.State() == WithLayout(old(p.State()), k, w, h)
  {
    p.framewidth := w;
    p.frameheight := h;
    if p.outwidth < 0 {
      p.outwidth := Registry[k].equiWidth;
      p.outheight := p.outwidth / 2;
    }
  }

  /**
   * init. The parameter record p and the lookup table t are updated in place;
   * r is None where the program exits and otherwise the detected layout. On
   * success the table has been loaded for the final output size: it is the
   * cache verbatim when the cache delivers a full table, and otherwise every
   * slot holds its sample's FindFaceUV outcome and the table is written back.
   */
  method Init(p: Params, t: LookupTable, argv: seq<string>, atoi: string -> int, cpus: int,
              frames: Option<Measured>, cache: Option<seq<Entry>>, locate: (real, real) -> Hit)
    returns (r: Option<nat>, saved: Option<seq<Entry>>)
    modifies p, t
    ensures r.None? <==> Configure(argv, atoi, cpus, frames).None?
    ensures r.Some? ==>
              && r.value == Configure(argv, atoi, cpus, frames).value.template
              && p.State() == Configure(argv, atoi, cpus, frames).value.settings
              && p.outheight >= 0 && p.outwidth >= 0
              && t.entries.Length == t.ntable == p.outheight * p.outwidth * p.antialias * p.antialias
              && (|ReadRecords(cache, t.ntable)| == t.ntable ==>
                    t.entries[..] == ReadRecords(cache, t.ntable) && saved == None)
              && (|ReadRecords(cache, t.ntable)| != t.ntable ==>
                    && t.itable == t.ntable
                    && saved == Some(t.entries[..])
                    && forall k :: 0 <= k < t.ntable ==>
                         Agrees(t.entries[k], Expected(k, p.outwidth, p.outheight, p.antialias, locate)))
  {
    saved := None;
    var ok := ReadOptions(p, argv, atoi, cpus);
    if !ok {
      return None, None;
    }
    var d := Detect(frames);
    if d.Rejected? {
      return None, None;
    }
    RegistryWellFormed();
    UseLayout(p, d.index, d.width, d.height);
    ConfigureSound(argv, atoi, cpus, frames);
    saved := t.Load(p.outheight, p.outwidth, p.antialias, cache, locate);
    r := Some(d.index);
  }
}
