/** `SaveImage` as the tests pin it: each channel of every pixel is
    clamped to the range 0 to 255 and truncated to an integer, and the
    result is written in the layout `loadImage` reads back. */
module ImageUtils {
  import opened Wrappers
  import opened CppInt
  import opened ImageText
  import opened ImageLoader

  /** The maximum channel value written on the third line. */
  const MaxChannel: int := 255

  /** The format identifier written on the first line. */
  const Magic: string := "P3"

  /** Writing fails when the target cannot be opened. */
  datatype SaveError = CannotOpen(path: string)

  /** One channel as written: below 0 becomes 0, above 255 becomes 255,
      anything else loses its fractional part. */
  function ClampChannel(v: real): (c: int)
    ensures 0 <= c <= MaxChannel
    ensures v < 0.0 ==> c == 0
    ensures v > MaxChannel as real ==> c == MaxChannel
    ensures 0.0 <= v <= MaxChannel as real ==> c as real <= v < c as real + 1.0
  {
    if v < 0.0 then 0 else if v > MaxChannel as real then MaxChannel else v.Floor
  }

  /** A written channel is written again unchanged. */
  lemma ClampChannelIdempotent(v: real)
    ensures ClampChannel(ClampChannel(v) as real) == ClampChannel(v)
  {
  }

  /** A pixel as it reads back after being written. */
  function Clamped(c: Colour): Colour {
    Colour(ClampChannel(c.r) as real, ClampChannel(c.g) as real, ClampChannel(c.b) as real)
  }

  /** The buffer as it reads back after being written. */
  function ClampImage(img: Image): (out: Image)
    ensures |out| == |img|
    ensures forall x :: 0 <= x < |img| ==> |out[x]| == |img[x]|
    ensures forall x, y :: 0 <= x < |img| && 0 <= y < |img[x]| ==> out[x][y] == Clamped(img[x][y])
  {
    seq(|img|, x requires 0 <= x < |img| => seq(|img[x]|, y requires 0 <= y < |img[x]| => Clamped(img[x][y])))
  }

  /** The `<r> <g> <b>` line written for one pixel. */
  function PixelLine(c: Colour): Line {
    [Whole(ClampChannel(c.r)), Whole(ClampChannel(c.g)), Whole(ClampChannel(c.b))]
  }

  /** Reading a written pixel line yields the clamped pixel. */
  lemma ReadPixelLine(c: Colour)
    ensures ReadPixel(PixelLine(c)) == Clamped(c)
  {
    var line := PixelLine(c);
    var r, g, b := ClampChannel(c.r) as real, ClampChannel(c.g) as real, ClampChannel(c.b) as real;
    assert Extracted(line[1..][1..], 1) == [b];
    assert Extracted(line[1..], 2) == [g, b];
    assert Extracted(line, 3) == [r, g, b];
  }

  /** The pixel lines of rows `0` to `n - 1`, row by row. */
  function PixelRows(img: Image, w: nat, h: nat, n: nat): (lines: seq<Line>)
    requires IsGrid(img, w, h) && n <= h
    ensures |lines| == RowMajor(0, n, w)
  {
    if n == 0 then []
    else PixelRows(img, w, h, n - 1) + seq(w, x requires 0 <= x < w => PixelLine(img[x][n - 1]))
  }

  /** Pixel `(x, y)` is written at its row-major position. */
  lemma {:induction false} PixelRowsAt(img: Image, w: nat, h: nat, n: nat, x: nat, y: nat)
    requires IsGrid(img, w, h) && n <= h && x < w && y < n
    ensures RowMajor(x, y, w) < RowMajor(0, n, w)
    ensures PixelRows(img, w, h, n)[RowMajor(x, y, w)] == PixelLine(img[x][y])
  {
    RowMajorShift(x, y, w);
    if y < n - 1 {
      RowMajorInRange(x, y, w, n - 1);
      PixelRowsAt(img, w, h, n - 1, x, y);
    }
  }

  /** The whole file `SaveImage` writes for a rectangular buffer. */
  function Serialise(img: Image): (file: seq<Line>)
    requires IsRectangular(img)
    ensures |file| == 3 + Area(|img|, Height(img))
    ensures file[1] == [Whole(|img|), Whole(Height(img))]
    ensures forall x, y :: 0 <= x < |img| && 0 <= y < Height(img) ==>
      3 + RowMajor(x, y, |img|) < |file| && file[3 + RowMajor(x, y, |img|)] == PixelLine(img[x][y])
  {
    var w, h := |img|, Height(img);
    var rows := PixelRows(img, w, h, h);
    var file := [[Word(Magic)], [Whole(w), Whole(h)], [Whole(MaxChannel)]] + rows;
    assert forall x, y :: 0 <= x < w && 0 <= y < h ==>
      3 + RowMajor(x, y, w) < |file| && file[3 + RowMajor(x, y, w)] == PixelLine(img[x][y]) by {
      forall x, y | 0 <= x < w && 0 <= y < h
        ensures 3 + RowMajor(x, y, w) < |file| && file[3 + RowMajor(x, y, w)] == PixelLine(img[x][y])
      {
        var k := RowMajor(x, y, w);
        PixelRowsAt(img, w, h, h, x, y);
        assert file[3 + k] == rows[k];
      }
    }
    file
  }

  /** `SaveImage(image, path)`: an empty path cannot be opened and nothing
      is written; otherwise the file at `path` is (re)written and every
      other file is left alone. */
  function SaveImage(fs: FileSystem, img: Image, path: string): (r: Result<FileSystem, SaveError>)
    requires IsRectangular(img)
    ensures r.Failure? <==> path == ""
    ensures r.Failure? ==> r.error == CannotOpen(path)
    ensures r.Success? ==> path in r.value && r.value[path] == Serialise(img)
    ensures r.Success? ==> forall p :: p != path ==>
      (p in r.value <==> p in fs) && (p in fs ==> r.value[p] == fs[p])
  {
    if path == "" then Failure(CannotOpen(path)) else Success(fs[path := Serialise(img)])
  }

  /** Writing a buffer and reading it back with its own dimensions yields
      the buffer with every channel clamped and truncated. */
  lemma {:induction false} SaveThenLoad(fs: FileSystem, img: Image, path: string)
    requires IsRectangular(img) && path != ""
    requires |img| < UintModulus && Height(img) < UintModulus
    ensures SaveImage(fs, img, path).Success?
    ensures LoadImageFile(SaveImage(fs, img, path).value, path, |img|, Height(img)) ==
      Success(ClampImage(img))
  {
    var w, h := |img|, Height(img);
    var file := Serialise(img);
    assert SaveImage(fs, img, path).value[path] == file;
    WrittenDimensionsRead(file, w, h);
    assert PixelCount(file) == Area(w, h);
    var saved := SaveImage(fs, img, path).value;
    assert LoadImageFile(saved, path, w, h) == LoadImage(file, w, h);
    assert LoadImage(file, w, h).Success?;
    var loaded := LoadImage(file, w, h).value;
    var expected := ClampImage(img);
    forall x | 0 <= x < w
      ensures loaded[x] == expected[x]
    {
      forall y | 0 <= y < h
        ensures loaded[x][y] == expected[x][y]
      {
        ReadPixelLine(img[x][y]);
      }
    }
    assert loaded == expected;
  }

  /** The buffer of the "extreme values" test: one column of three
      pixels, one above range, one below, one in range. */
  const Overflow: Colour := Colour(1000.0, 300.0, 255.5)
  const Underflow: Colour := Colour(-0.2, -1000.0, -25.3)
  const Ordinary: Colour := Colour(10.4, 1.0, 245.1)
  const ExtremeImage: Image := [[Overflow, Underflow, Ordinary]]

  /** What that test reads back: 255 for every channel above range, 0 for
      every channel below it, and the truncated values in between. */
  lemma ExtremeValuesClamp()
    ensures ClampImage(ExtremeImage) ==
      [[Colour(255.0, 255.0, 255.0), Colour(0.0, 0.0, 0.0), Colour(10.0, 1.0, 245.0)]]
  {
    var out := ClampImage(ExtremeImage);
    assert out[0][0] == Clamped(Overflow) == Colour(255.0, 255.0, 255.0);
    assert out[0][1] == Clamped(Underflow) == Colour(0.0, 0.0, 0.0);
    assert out[0][2] == Clamped(Ordinary) == Colour(10.0, 1.0, 245.0);
    assert out[0] == [Colour(255.0, 255.0, 255.0), Colour(0.0, 0.0, 0.0), Colour(10.0, 1.0, 245.0)];
  }

  /** Saving the test buffer to "TestImage.pbm" succeeds, and loading that
      file as 1 by 3 yields the clamped buffer. */
  lemma {:induction false} ExtremeValuesRoundTrip(fs: FileSystem)
    ensures SaveImage(fs, ExtremeImage, "TestImage.pbm").Success?
    ensures LoadImageFile(SaveImage(fs, ExtremeImage, "TestImage.pbm").value, "TestImage.pbm", 1, 3) ==
      Success([[Colour(255.0, 255.0, 255.0), Colour(0.0, 0.0, 0.0), Colour(10.0, 1.0, 245.0)]])
  {
    assert IsRectangular(ExtremeImage) && Height(ExtremeImage) == 3;
    SaveThenLoad(fs, ExtremeImage, "TestImage.pbm");
    ExtremeValuesClamp();
  }
}
