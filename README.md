# max2sphere projection core in Dafny

max2sphere converts pairs of fisheye frames from a dual-lens 360° camera
(GoPro MAX) into one equirectangular image. This project models the core of
`max2sphere.c`:

- the **lookup table** (`load_lltable`). Each of the `outheight x outwidth x
  antialias²` supersamples gets a cube face and a texel coordinate `(u, v)`.
  The table is taken from a cache file when that file delivers exactly
  `ntable` records. Otherwise it is rebuilt in `(j, i, aj, ai)` order and
  written back;
- the **projection of a frame** (`calc_spherical`). The table is walked in
  order, and each output pixel gets the per-channel integer mean of its
  samples' colours;
- the **texel step** of `FindFaceUV`: the per-face `(u, v)` rules, the halving,
  the clamp to `NEARLYONE`, and the range check;
- the **frame layout registry** and its detection in `CheckFrames`;
- the **filename helpers** `CheckTemplate` and `create_output_filename`;
- **start-up** (`init`, `init_default_params`): the parameter record, the
  option loop, the template checks, the default output size, and the table
  load.

Modules:

| module | what it holds |
|---|---|
| `Wrappers` | `Option` |
| `Geometry` | faces and their ids, the cube planes, and the `FindFaceUV` tail |
| `Templates` | the registry and `CheckFrames` |
| `Filenames` | `CheckTemplate` and `create_output_filename` |
| `Params` | the parameter record as a class (`Params`) and as a value (`Settings`), the defaults, and the option loop |
| `Lookup` | `LookupTable` (`g_lltable`, `ntable`, `itable`) and `load_lltable` |
| `Projection` | `calc_spherical` |
| `Driver` | `init` |

Mutable program state is modelled in place:
- the parameter record `params` is the class `Params.Params`;
- the global table `g_lltable` is the array `Lookup.LookupTable.entries`;
- the output bitmap is an `array<Pixel>` that `CalcSpherical` updates.

Every method that changes state is proved against a value-level specification:
- `Settings` with `Defaults`, `ApplyOptions` and `Configure`;
- `Expected`, the outcome every table slot should hold;
- `PixelColour`, the colour every output pixel should get.

The lemmas state the program's promises about those functions.

Two computations are parameters, because they are trigonometry on doubles or
image decoding:
- `locate` is the ray/plane search of `FindFaceUV`. It maps a sample position
  `(x, y)` in `[0,1)²` to the face hit and the intersection point.
- `getColour` is `GetColour`. It maps a table record's face code and `(u, v)`
  to a pixel.

Other inputs:
- `atoi` parses option values, and `cpus` is the processor count that `sysconf` returns.
- The cache file's contents and the measured sizes of the first frame pair are values.

In a few places the code does not do what its comments, its usage text or
the rest of the program would lead one to expect. The model follows the code:
- **Cache file size.** The cache is accepted when `fread` returns `ntable`
  records, so a cache file longer than the table is accepted and its first
  `ntable` records are used (`Lookup.ReadRecords`). An empty table
  (`ntable == 0`) is never regenerated or written.
- **Failed samples.** A sample for which `FindFaceUV` fails gets face code `-1`,
  and its `uv` is whatever the slot held before (`Lookup.Store`). `FindFaceUV`
  reports the failure on stderr (max2sphere.c:578, 617), but `load_lltable`
  stores the `-1` as it is and goes on (max2sphere.c:93).
- **Short masks.** A two-character output mask is not checked for a `%`
  (`strlen > 2` at max2sphere.c:176). `create_output_filename` still uses it,
  because it tests `strlen < 2`.
- **Option values.** The option loop does not skip an option's value, so the
  value is itself examined as a flag on the next pass (`Params.ApplyOption`).
- **Small widths.** `-w` with a value below 4 gives an output width of 0
  (`Params.WidthOption`).

## Model

| member | source | states |
|---|---|---|
| Geometry.FaceId | max2sphere.h:9-14 | every face id lies in 0..5 |
| Geometry.FaceOf | max2sphere.h:9-14 | an integer names a face exactly when it lies in 0..5, and then it is that face's id |
| Geometry.FaceIdRoundTrip | max2sphere.h:9-14 | face to id to face is the identity |
| Geometry.CubePlane | max2sphere.c:766-795 | every face plane has d = -1 and a unit normal along one axis |
| Geometry.CubePlanes | max2sphere.c:766-795 | the six planes sit in `faces[]` at their face ids |
| Geometry.CubePlaneAtUnitDistance | max2sphere.c:766-795 | the tip of each plane's normal lies on the plane, so the faces bound the cube of half-width one |
| Geometry.CubePlanesOpposite | max2sphere.c:766-795 | left/right, top/down and front/back have opposite normals |
| Geometry.CubePlanesDistinct | max2sphere.c:766-795 | each face is recovered from its plane, and no two faces share a plane |
| Geometry.RawUV | max2sphere.c:583-608 | the per-face coordinates before halving; a point of the cube's surface gets coordinates in [0, 2] |
| Geometry.Halved | max2sphere.c:609-614 | half of a coordinate, NEARLYONE where the half reaches one; always below one |
| Geometry.FindFaceUV | max2sphere.c:577-623 | a face is reported exactly when one was hit and neither per-face coordinate is negative; the face is kept; (u, v) lies in [0,1); each coordinate is half the per-face value, or NEARLYONE where the half reaches 1 |
| Geometry.FaceCode | max2sphere.c:577-623 | the returned integer is -1 exactly on failure, and otherwise a face id |
| Geometry.InRangeHitIsFound | max2sphere.c:555-621 | a hit whose in-plane coordinates lie in [-1,1] always passes the range check, on the face that was hit |
| Geometry.NegativeCoordinateFails | max2sphere.c:583-617 | a hit with a negative per-face coordinate is rejected |
| Templates.RegistryWellFormed | max2sphere.c:16 | each known layout has a positive size; side + centre + side fill the width; the blend band is narrower than a side; the default output width is a positive multiple of four with an even half |
| Templates.RegistryUnambiguous | max2sphere.c:16 | no two layouts share a frame size |
| Templates.FindTemplate | max2sphere.c:439-445 | the result is the first matching layout at or after `from`, or -1 exactly when none matches |
| Templates.CheckFrames | max2sphere.c:432-455 | rejects frames of different sizes; otherwise the first layout whose width and height both match, or rejection when none does; on success the stored size is the first frame's |
| Templates.KnownSizesDetected | max2sphere.c:16 | 4096x1344 is layout 0, 2272x736 is layout 1, and every other size is rejected |
| Filenames.PercentCount | max2sphere.c:815-819 | the number of '%' characters, at most the string's length |
| Filenames.PercentCountIsMultiplicity | max2sphere.c:816-819 | the count is the number of '%' characters in the string |
| Filenames.PercentCountAppend | max2sphere.c:816-819 | counts add up over concatenation |
| Filenames.EscapedPercentCountsTwice | max2sphere.c:816-819 | an escaped "%%" counts as two conversions |
| Filenames.CheckTemplate | max2sphere.c:815-828 | TRUE exactly when the string holds `nexpect` '%' characters |
| Filenames.ExtensionCutUnique | max2sphere.c:462-467 | the place where the extension is cut is determined by the name |
| Filenames.CreateOutputFilename | max2sphere.c:459-472 | with a mask of two or more characters the name is the formatted mask; otherwise it is the formatted frame name cut at its last '.' after index 0, followed by "_sphere.png" |
| Params.Defaults | max2sphere.c:752-764 | output size unset, antialias 2 with antialias2 = 4, at least two threads, existing outputs skipped, no debug, empty mask |
| Params.WidthOption | max2sphere.c:151-153 | the width is the largest multiple of four not above max(1, n), and 0 when n is at most 3 |
| Params.HalfWidthEven | max2sphere.c:151-153 | half of a multiple of four is even and doubles back to it |
| Params.DefaultsNormalised | max2sphere.c:752-795 | the defaults satisfy the option invariant |
| Params.ApplyOption | max2sphere.c:151-170 | one pass of the option loop at argv[i] never changes the frame size or the cube planes |
| Params.ApplyOptions | max2sphere.c:150-171 | the option loop over argv[i .. argc-2] never changes the frame size or the cube planes |
| Params.ApplyOptionNormalised | max2sphere.c:151-170 | one pass of the option loop keeps the invariant: antialias2 = antialias² with antialias ≥ 1, threads ≥ 2, the cube planes in place, output size unset or a multiple of four with an even half height |
| Params.ApplyOptionsNormalised | max2sphere.c:150-171 | the whole option loop keeps that invariant, whatever the arguments |
| Params.NoWidthOptionKeepsSize | max2sphere.c:150-171 | without a "-w" among the options the output size is unchanged |
| Params.UnknownFlagIgnored | max2sphere.c:150-171 | an argument other than the eight flags changes nothing |
| Params.CheckedMask | max2sphere.c:176-179 | a mask is cleared exactly when it is longer than two characters and does not hold one '%'; a kept mask longer than two holds exactly one |
| Params.Params.constructor | max2sphere.c:11 | the static record starts all zero, six all-zero planes included |
| Params.Params.InitDefaultParams | max2sphere.c:752-796 | the record becomes `Defaults(cpus)`, which satisfies the option invariant |
| Params.Params.ApplyOptionAt | max2sphere.c:151-170 | the record becomes `ApplyOption` of its old value at argv[i] |
| Params.Params.ParseOptions | max2sphere.c:150-171 | the record becomes `ApplyOptions` of its old value over argv[1 .. argc-2], and the invariant is preserved |
| Lookup.Store | max2sphere.c:93 | the slot's face is the returned code; uv is replaced only when a face was found |
| Lookup.SampleIndex | max2sphere.c:83-95 | the value of `itable` when sample (aj, ai) of pixel (j, i) is written: ((j·W + i)·A + aj)·A + ai (a definition; its properties are in SampleIndexSplits and SampleIndexCarry) |
| Lookup.SampleX | max2sphere.c:85-90 | the normalised horizontal position i/W + ai/(A·W) of a sample (a definition; its range is in SamplePositionInUnit) |
| Lookup.SampleY | max2sphere.c:83-88 | the normalised vertical position j/H + aj/(A·H) of a sample (a definition; its range is in SamplePositionInUnit) |
| Lookup.Sample | max2sphere.c:89-93 | the `FindFaceUV` outcome of a sample at its normalised position (a definition) |
| Lookup.Expected | max2sphere.c:83-95 | the outcome slot k should hold: k split back into (j, i, aj, ai) by A², W and A (a definition; ExpectedAtSample ties it to the loops) |
| Lookup.SamplePositionInUnit | max2sphere.c:84-90 | every sample's x and y lie in [0,1), so longitude stays in [-π, π) and latitude in [-π/2, π/2) |
| Lookup.SampleIndexSplits | max2sphere.c:83-95 | the running index of sample (j, i, aj, ai) is below ntable and splits back into (j, i, aj, ai): the numbering is one-to-one |
| Lookup.SampleIndexCarry | max2sphere.c:83-95 | finishing a row of sub-samples, a pixel or an output row moves `itable` to the next one's first position; after the last row `itable` is ntable |
| Lookup.ExpectedAtSample | max2sphere.c:83-95 | the slot the loops write for a sample is the slot whose expected outcome is that sample's |
| Lookup.ReadRecords | max2sphere.c:70-76 | fread delivers at most n records, and exactly n when the file exists and holds at least n, or n is 0; they are the file's first records, and none when the file does not open |
| Lookup.FillPixel | max2sphere.c:87-95 | the A² slots of pixel (j, i) get their samples' outcomes; itable moves to the next pixel; no other slot changes |
| Lookup.LookupTable.constructor | max2sphere.c:24-26 | no table yet: ntable and itable are 0 |
| Lookup.LookupTable.Load | max2sphere.c:62-104 | the table has H·W·A² slots; it is the cache verbatim exactly when fread delivered that many records; otherwise every slot holds its sample's outcome, itable ends at ntable, and the whole table is written back |
| Lookup.ReloadMatchesFresh | max2sphere.c:66-102 | a table written by a fresh build and read by the next run with the same sizes is the table that was built |
| Projection.ChannelSum | max2sphere.c:292-311 | the sum of one channel over the colours of records lo .. hi-1 (a definition; ChannelSumBounds and ChannelSumUniform state its properties) |
| Projection.PixelColour | max2sphere.c:289-318 | the pixel calc_spherical stores: each of r, g, b is its channel sum divided by antialias2 and stored in a byte, alpha unchanged (a definition; PixelColourIsMean and CalcSpherical state its properties) |
| Projection.ChannelSumBounds | max2sphere.c:289-311 | a sum of n byte levels lies in [0, 255n] |
| Projection.ChannelSumUniform | max2sphere.c:306-311 | n samples of level c sum to c·n |
| Projection.ToByte | max2sphere.c:316-318 | a value in 0..255 is stored unchanged |
| Projection.PixelColourIsMean | max2sphere.c:314-318 | with antialias2 equal to the number of samples, each channel is the integer mean of its samples, never above 255, and alpha is kept |
| Projection.PixelColourPassThrough | max2sphere.c:292-318 | with antialias 1 a pixel takes its single sample's colour, alpha aside |
| Projection.PixelColourUniform | max2sphere.c:292-318 | samples that all have colour c give colour c, alpha aside |
| Projection.PixelSamples | max2sphere.c:287-315 | output index j·W+i is below H·W, and its samples lie within the table |
| Projection.NextPixelStart | max2sphere.c:292-304 | a pixel's samples end where the next pixel's begin |
| Projection.FirstSampleIsSampleIndex | max2sphere.c:281-304 | the projection reads, for sample (j, i, aj, ai), the slot `load_lltable` wrote for it |
| Projection.SumSamples | max2sphere.c:289-312 | the antialias loops read A² consecutive records from `itable` on, and the sums are their channel sums |
| Projection.CalcSpherical | max2sphere.c:280-321 | the walk ends at H·W·A² (= ntable); every output index below H·W gets the colour of records q·A² .. q·A²+A²-1, alpha kept; every other output pixel is unchanged |
| Driver.Options | max2sphere.c:141-180 | the record after `init_default_params`, the option loop and the output mask check (a definition) |
| Driver.Detect | max2sphere.c:184 | CheckFrames on the measured first pair, rejection when that pair could not be examined (a definition) |
| Driver.WithLayout | max2sphere.c:184-193 | the frame size stored and, where no output size was set, the layout's default width and half of it (a definition) |
| Driver.Configure | max2sphere.c:140-196 | what init leaves: no start where it exits (argc < 2, a last argument without two '%', frames rejected), otherwise the layout and the record (a definition; ConfigureSound and DefaultOutputSize state its properties) |
| Driver.ConfigureSound | max2sphere.c:140-196 | after a successful start the parameters satisfy the option invariant, the output size is set, the last argument had two '%', a kept mask has one, and the frame size is that of the detected layout |
| Driver.DefaultOutputSize | max2sphere.c:184-193 | frames are only accepted as a pair of equal size; without "-w" the output size is the layout's default width and half of it |
| Driver.ReadOptions | max2sphere.c:141-180 | the start goes on exactly when argc ≥ 2 and the last argument holds two '%'; the record is then the defaults after the option loop and the mask check |
| Driver.UseLayout | max2sphere.c:184-193 | the record gets the frame size, and the layout's default output size where none was set |
| Driver.Init | max2sphere.c:140-196 | init exits exactly when `Configure` does; otherwise the layout and the record are `Configure`'s, and the table has outheight·outwidth·antialias² slots and is the cache verbatim when the cache delivers them all; otherwise every slot agrees with `Expected` for the final sizes, itable ends at ntable, and the table is written back |

## Left out

- Trigonometry of `FindFaceUV`: the longitude/latitude mapping, the ray, the plane intersection and the atan correction are the parameter `locate`. Its result's coordinates are reals, not doubles or floats.
- `GetColour`, `ColourBlend` and `RotateUV90`: the colour lookup with seam blending is the parameter `getColour`.
- Float precision: `UV` is two C floats; the model uses `real`.
- Frame I/O is not modelled: `ReadFrame`, `read_image_pair`, `WriteSpherical`, `process_single_image`, `set_frame_filename_from_template`, `IsJPEG`/`IsPNG`, and `JPEG_Info`/`PNG_Info`. The measured sizes are an input, and None stands for CheckFrames failing before the size comparison.
- The printf-style formatting (`sprintf` of names) is an input to `CreateOutputFilename`: the formatted names are passed in.
- The cache file name, `fopen`, `fclose` and `fwrite` are not modelled. A failed write-back (the file cannot be created) is not modelled; `Load` returns the records to be written.
- Threads are not modelled: `main`, the worker pool, the shared frame counter with its mutex, `image_processing_worker_function`, and the stub `image_reader_worker_function`.
- `test_read_from_stdin` and `read_BMP_stdin` are not modelled. They read bitmap pairs from standard input until it ends. `main` calls the former before `init`, and it ends with `exit(42)`, so as written the program stops before `init`. The model describes `init` and what follows as the code states them.
- `GiveUsage`, the debug messages and `GetRunTime` are output and timing only.
- `input_buffer_length` is a record field that `init_default_params` never sets.
- Lookup.LookupTable.Load: `ntable` is an unbounded integer, so the `int` overflow of `outheight*outwidth*antialias*antialias` for huge sizes, and a failed `malloc`, are not modelled.
- Projection.CalcSpherical: the COLOUR16 accumulator is an unbounded integer. Its type is declared in bitmaplib.h, which is not part of this model, so any wrap-around of its channels is not modelled. The store of a channel into a byte keeps the low eight bits.
- Params.ApplyOption: `atoi` is an arbitrary function from strings to unbounded integers. The `int` range of its result and the `int` overflow of `MAX(1, atoi(argv[i + 1])) + 1` for `-t` at INT_MAX (max2sphere.c:169) are not modelled.
- Params.CheckedMask: strings are sequences of characters, while `strlen` counts bytes. The `> 2` test (max2sphere.c:176) and the `< 2` test of `create_output_filename` (max2sphere.c:460) are modelled on character counts, so a mask with multi-byte characters can be judged differently.
- Params.Params.ApplyOptionAt: `strcpy` into the 256-byte `outfilename` is modelled as a plain assignment; its buffer overflow for longer arguments is not modelled.
- Driver.Init: an exit ends the process in the program; the model returns None and leaves the record as far as it had got.
