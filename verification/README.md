# Week-3 ray tracer test harness in Dafny

This project models the ray tracer's week-3 test file, `testWeek3.cpp`. The file has two parts:

- **`loadImage`.** A helper that reads an image back from the plain-text layout `SaveImage` writes:
  - a header line;
  - a `<width> <height>` line;
  - a maximum-value line;
  - one `<r> <g> <b>` line per pixel, in row-major order.

  It stores pixel `(x, y)` at `image[x][y]`. It throws when the declared dimensions differ from the expected ones or when the pixel lines run out.
- **The behaviour its test cases assert of the renderer's classes.** These are:
  - `SaveImage` clamps each channel to 0..255 and truncates it;
  - `SaveImage` refuses an empty path;
  - the `Sphere` constructor refuses a non-positive radius;
  - the `Camera` constructor refuses a zero width or height;
  - `VecUtils::norm` throws on the zero vector;
  - `IntersectionData::getObject` throws until an `Intersect` call has hit.

Every `std::runtime_error` becomes a `Failure` value of a `Result`.

Modules:

- `Wrappers` (`wrappers.dfy`): `Option` and `Result`. Also in that file, `CppInt` gives the 32-bit `uint` range.
- `ImageText` (`image_text.dfy`): the text layout. It covers:
  - lexemes;
  - `stream >> unsigned` and `stream >> float`;
  - reading one pixel line;
  - the row-major position `RowMajor(x, y, w)` and its properties.
- `ImageLoader` (`image_loader.dfy`): `loadImage`, in two forms:
  - a functional reading, `LoadImage`;
  - the nested loops as written, `LoadImageStreaming` and `ReadPixels`, proved equal to it.

  It also holds the lemmas about which lines matter.
- `ImageUtils` (`image_utils.dfy`): `SaveImage`. It covers:
  - channel clamping;
  - the written file;
  - the save-then-load round trip;
  - the "extreme values" test case.
- `VecUtils` (`vec_utils.dfy`): vectors, the dot product and `norm`.
- `Geometry` (`geometry.dfy`): rays, spheres and cameras, with their construction guards and a square-root-free ray/sphere hit test.
- `Intersection` (`intersection.dfy`): `IntersectionData` as an `Option` state, and the "Test Object Pointer" case.

A file is a sequence of lines. Each line is the sequence of lexemes that stream extraction sees in it, already classified as an integer numeral, another numeral, or a word.

## Model

| member | source | states |
|---|---|---|
| `ImageText.ExtractUint` | testWeek3.cpp:33-35 | Reading a `uint` succeeds (leaves the fail bit clear) exactly when the lexeme begins with an integer numeral of magnitude below 2^32. A non-negative value is kept and a negative one wraps round modulo 2^32. A larger magnitude stores the maximum value and fails. A lexeme with no integer at its front stores 0 and fails. Only a whole integer lexeme is consumed entirely. |
| `ImageText.Dimensions` | testWeek3.cpp:30-35 | An empty or missing second line leaves both variables unwritten. A failed width leaves the height unwritten. A fractional width leaves the rest of its lexeme for the height, which stores 0. A whole width followed by a lexeme stores the height that lexeme reads as. A whole width that is the line's only lexeme leaves the height unwritten. The height is never written without the width. |
| `ImageText.WrittenDimensionsRead` | testWeek3.cpp:30-35 | A second line starting with two in-range integers declares exactly that size. |
| `ImageText.IrregularDimensionLines` | testWeek3.cpp:30-37 | These dimension lines declare: `5 abc` gives 5 by 0; `5 3.7` gives 5 by 3; `3.7 5` gives 3 by 0; `abc 5` gives width 0 and no height; `5` alone gives no height; `-1 5` gives 4294967295 by 5. |
| `ImageText.ReadPixel` | testWeek3.cpp:57-60 | Each channel of a pixel is its lexeme's value while that extraction and every earlier one succeed. From the first failed extraction on, the channel keeps the 0 of the resized buffer. |
| `ImageText.ExtractedValue` | testWeek3.cpp:57-60 | The `i`-th of the successive `>> float` extractions from a pixel line stores the `i`-th lexeme when it and every lexeme before it are numbers, and 0 once any extraction has failed. |
| `ImageText.RowMajorFormula` | testWeek3.cpp:51-58 | The pixel line read for `(x, y)` is number `y * w + x`: the inner loop runs over `x` and the outer over `y`. |
| `ImageText.RowMajorInRange` | testWeek3.cpp:51-55 | Every `(x, y)` with `x < w` and `y < h` is read from a position below `w * h`. |
| `ImageText.RowMajorInjective` | testWeek3.cpp:51-58 | No two pixels are read from the same line. |
| `ImageText.AreaIsProduct` | testWeek3.cpp:51-53 | The loops consume exactly `w * h` pixel lines. |
| `ImageLoader.Columns` | testWeek3.cpp:42-60 | The buffer has `w` columns of `h` pixels, and `image[x][y]` holds the pixel read from line `3 + RowMajor(x, y, w)`. |
| `ImageLoader.LoadImage` | testWeek3.cpp:18-75 | The expected size defaults to 100 by 100. A dimension mismatch fails, whatever follows. With the dimensions right, loading fails with "out of pixel data" exactly when fewer than `w * h` pixel lines follow the header. On success the buffer is `w` by `h` and filled row-major from the pixel lines. |
| `ImageLoader.LoadImageFile` | testWeek3.cpp:18-23 | An absent file fails with "file not found" naming the file. A present one loads as its contents do. The expected size defaults to 100 by 100. |
| `ImageLoader.FilledNone` | testWeek3.cpp:42-46 | Before any pixel line is read, the resized buffer is all zero. |
| `ImageLoader.CellStep` | testWeek3.cpp:55-60 | Reading the `n`-th pixel line sets the one pixel at position `n` and no other. |
| `ImageLoader.FilledStep` | testWeek3.cpp:57-60 | One pass of the inner loop is the single-pixel update `image[x][y] := pixel`. |
| `ImageLoader.ReadPixels` | testWeek3.cpp:51-66 | The pixel loops throw "Ran out of pixel data" exactly when fewer than `w * h` lines remain. Otherwise they produce the row-major buffer; the loop invariant is the buffer after `consumed` reads. |
| `ImageLoader.LoadImageStreaming` | testWeek3.cpp:18-75 | The statement-by-statement reading of `loadImage` returns the same result as `LoadImage` on every file and every expected size. |
| `ImageLoader.ColumnsAgree` | testWeek3.cpp:51-60 | The buffer depends only on the `w * h` pixel lines it reads. |
| `ImageLoader.ExtraLinesIgnored` | testWeek3.cpp:51-66 | Appending lines to a file that loads does not change the result. |
| `ImageLoader.HeaderLineIgnored` | testWeek3.cpp:27-28 | Replacing the first line (the header) of a file of any length never changes the result, success or failure. |
| `ImageLoader.LimitLineIgnored` | testWeek3.cpp:48-49 | Replacing the third line (the maximum value) never changes the result, success or failure. |
| `ImageLoader.WidthMismatchFirst` | testWeek3.cpp:34-39 | A width other than the expected one is reported as a mismatch whatever the height holds: `abc 5` and a lone `7` both fail against an expected width of 100. |
| `ImageLoader.TwoLineFileLoads` | testWeek3.cpp:30-66 | A two-line file declaring `w` by 0 loads as `w` empty columns. The missing maximum-value line is never needed. |
| `ImageUtils.ClampChannel` | testWeek3.cpp:105-112 | A written channel lies in 0..255. Below 0 gives 0, above 255 gives 255, and otherwise it is the integer part (truncation, not rounding). |
| `ImageUtils.ClampChannelIdempotent` | testWeek3.cpp:105-112 | Writing a channel that was already written leaves it unchanged. |
| `ImageUtils.ReadPixelLine` | testWeek3.cpp:57-60 | Reading back a written `<r> <g> <b>` line yields the clamped pixel. |
| `ImageUtils.PixelRowsAt` | testWeek3.cpp:51-58 | The writer emits pixel `(x, y)` at the row-major position the reader reads it from. |
| `ImageUtils.Serialise` | testWeek3.cpp:94-98 | The written file holds the buffer's dimensions on its second line, and `w * h` pixel lines after the three header lines, with pixel `(x, y)` at line `3 + RowMajor(x, y, w)`. |
| `ImageUtils.SaveImage` | testWeek3.cpp:77-86 | Saving fails exactly on the empty path. Otherwise it writes the file at that path and leaves every other file alone. |
| `ImageUtils.SaveThenLoad` | testWeek3.cpp:96-112 | Saving any rectangular buffer and loading it back with its own dimensions yields the buffer with every channel clamped and truncated. |
| `ImageUtils.ExtremeValuesClamp` | testWeek3.cpp:90-112 | The test buffer `{1000, 300, 255.5}`, `{-0.2, -1000, -25.3}`, `{10.4, 1.0, 245.1}` clamps to `{255, 255, 255}`, `{0, 0, 0}`, `{10, 1, 245}`. |
| `ImageUtils.ExtremeValuesRoundTrip` | testWeek3.cpp:88-113 | Saving that buffer to `TestImage.pbm` succeeds, and loading it as 1 by 3 returns those clamped values. |
| `VecUtils.DotSelfZeroIff` | testWeek3.cpp:148-152 | `v . v` is never negative and is zero exactly on the zero vector. |
| `VecUtils.Norm` | testWeek3.cpp:148-152 | `norm` fails exactly on the zero vector. Otherwise the length is positive and its square is `v . v`. |
| `VecUtils.NormOfZeroFails` | testWeek3.cpp:151 | `norm({0, 0, 0})` throws. |
| `Geometry.MakeSphere` | testWeek3.cpp:130-135 | Constructing a sphere succeeds exactly when the radius is positive, and the sphere keeps its arguments. |
| `Geometry.MakeCamera` | testWeek3.cpp:137-146 | Constructing a camera succeeds exactly when neither dimension is zero, and the camera keeps them. |
| `Geometry.ConstructorGuardCases` | testWeek3.cpp:130-146 | `Camera(100, 50)` succeeds, `Camera(0, 50)` and `Camera(100, 0)` fail, and a sphere of radius -2 fails for every centre and material. |
| `Geometry.Hits` | testWeek3.cpp:165-169 | The hit decision `Sphere::Intersect` makes is never a hit for a ray with a zero direction. |
| `Geometry.QuadraticExpansion` | testWeek3.cpp:165-169 | The squared distance from the sphere's centre to the ray point at `t`, minus the squared radius, is `a t^2 + b t + c` with the hit test's coefficients. |
| `Geometry.RootBeyond` | testWeek3.cpp:165-169 | If `t > eps` is a root of `a t^2 + b t + c` with `a > 0`, then the square-root-free hit test reports a root beyond `eps`. |
| `Geometry.SurfacePointIsHit` | testWeek3.cpp:165-169 | Whenever a ray with a non-zero direction touches the sphere's surface beyond `eps`, the hit test reports a hit. |
| `Geometry.PerpendicularRayMisses` | testWeek3.cpp:164-166 | A ray that starts outside the sphere and runs perpendicular to the line from the centre to its origin is reported as a miss, for every `eps`. |
| `Intersection.GetObject` | testWeek3.cpp:156-158 | `getObject` fails exactly when no object is recorded, and otherwise returns the recorded object. |
| `Intersection.Intersect` | testWeek3.cpp:164-171 | A hit points the record at the intersected sphere. A miss leaves the record exactly as it was. |
| `Intersection.IntersectAllTracksHits` | testWeek3.cpp:154-172 | After any series of `Intersect` calls the record is unset exactly when it started unset and no call hit. When it is set, it holds its old object or a sphere that one of the calls hit. |
| `Intersection.GetObjectAfterCasts` | testWeek3.cpp:154-172 | From a fresh record, `getObject` fails after a series of calls exactly when none hit, and otherwise returns a sphere that one of them hit. |
| `Intersection.TestSphereConstructed` | testWeek3.cpp:161-162 | The test's sphere of radius 1 at the origin passes the constructor's guard and keeps its fields. |
| `Intersection.MissingRayMisses` | testWeek3.cpp:165 | The ray from `(0, 0, 10)` along `(1, 0, 0)` misses the unit sphere at the origin, for every `eps`: it is a perpendicular ray starting 10 from the centre. |
| `Intersection.HittingRayHits` | testWeek3.cpp:169 | The ray from `(0, 0, 10)` along `(0, 0, -1)` hits that sphere for every `eps` below 11, the distance to its far intersection. |
| `Intersection.MissingRayLeavesPointerUnset` | testWeek3.cpp:157-166 | After the missing ray, a fresh record's `getObject` still throws. |
| `Intersection.HittingRaySetsPointer` | testWeek3.cpp:168-171 | After the hitting ray, `getObject` returns exactly the sphere that was hit, whatever the record held before. |

## Left out

- File access: the file system is a map from path to contents. Opening, reading and writing files are not modelled beyond that, and "file not found" means the path is absent.
- Lexing and number parsing: lines arrive already split into classified lexemes. The exact text `stream >> float` accepts, the rounding to `float` and the range of `float` are not modelled. Channels are exact reals.
- ImageLoader.LoadImage: C++ compares a dimension the extraction never wrote only on a blank or missing dimensions line, or when the width equals `w` and the height was left unwritten (after a failed width or a lone integer width). Its outcome is undefined there, and the model reports a mismatch. In every other case the `||` of line 37 short-circuits or compares written values, and C++ throws the mismatch or passes the check exactly as the model does.
- ImageText.Dimensions: a last line without a terminating newline is not distinguished from one with it. After such a line, libstdc++'s `getline` leaves the previous line in the string, so a one-line file without a final newline would be re-read as its own dimensions line. Here a file of fewer than two lines has an empty dimensions line.
- ImageText.ExtractUint: the integer numeral at the front of a fractional lexeme is carried by the lexeme (`Fraction`'s `lead`) rather than read from its text, since lexing is not modelled.
- ImageUtils.SaveImage: the implementation of `SaveImage` is not part of this model. Its behaviour comes from what the test cases assert:
  - the clamp and truncate rule;
  - failure on the empty path only.

  The layout is the one `loadImage` reads, with format identifier `P3` and maximum value 255; the identifier is a choice. Only rectangular buffers are accepted, because a ragged buffer has no well-defined width and height on the dimensions line.
- ImageUtils.SaveThenLoad: requires both dimensions to be below 2^32, the range `loadImage` reads them in.
- Buffer unchanged by `SaveImage` (lines 115-128): buffers are immutable values here, so the property holds by construction and no member states it.
- `Render::genImage` (line 83) is defined outside testWeek3.cpp and is not modelled. The `Camera cam(1, 1)` of line 160 is built but never used.
- Intersection.Intersect: the hit distance is not recorded, and a hit is not compared with an earlier one. The hit test says only whether the ray meets the sphere at some `t > eps`, with `eps` a parameter because its value is defined outside testWeek3.cpp.
- Geometry.Hits: only one direction is proved in general: a real surface point beyond `eps` is reported. The converse, that a reported hit reaches the sphere at some `t > eps`, is not stated. `Sphere::Intersect` is defined outside testWeek3.cpp, and the test pins only its outcome on the two test rays, which are shown exactly.
- VecUtils.Norm: the reals have no square root, so `norm` returns the squared length. The length itself is the positive root of that value.
- Geometry.MakeSphere: the test case pins only radius -2. The model refuses every radius that is not positive, zero included.
- The two-argument `Sphere` constructor of line 134 uses a default material defined outside testWeek3.cpp and not modelled; `ConstructorGuardCases` quantifies over every material instead.
- `VecUtils::normalize` and the other vector helpers are not used by these test cases and are not modelled.
- The Catch2 macros, the plain `assert` calls of lines 99-100 and the `unique_ptr` ownership of lines 133 and 139 have no counterpart.
