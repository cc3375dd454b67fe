/** The tests' `loadImage`: reads a pixel buffer back from the plain-text
    image layout, checking the declared dimensions against the expected
    ones and failing when the pixel lines run out. */
module ImageLoader {
  import opened Wrappers
  import opened CppInt
  import opened ImageText

  /** The three `std::runtime_error`s `loadImage` can throw. */
  datatype LoadError =
    | FileNotFound(name: string)
    | DimensionMismatch
    | OutOfPixelData

  /** How many pixel lines a `getline` loop can read once the header,
      dimension and maximum-value lines are consumed. A file shorter than
      three lines leaves the stream failed, so it offers none. */
  function PixelCount(file: seq<Line>): nat {
    if |file| < 3 then 0 else |file| - 3
  }

  /** Pixel `(x, y)` of a `w`-wide buffer once the first `n` pixel lines
      have been read: its line if its row-major position is below `n`, and
      otherwise the black the buffer was resized with. */
  function Cell(file: seq<Line>, w: nat, n: nat, x: nat, y: nat): Colour
    requires n <= PixelCount(file)
  {
    if RowMajor(x, y, w) < n then ReadPixel(file[3 + RowMajor(x, y, w)]) else Black
  }

  /** The whole `w` by `h` buffer once the first `n` pixel lines have been
      read. */
  function Filled(file: seq<Line>, w: nat, h: nat, n: nat): (img: Image)
    requires n <= PixelCount(file)
    ensures IsGrid(img, w, h)
    ensures forall x, y :: 0 <= x < w && 0 <= y < h ==> img[x][y] == Cell(file, w, n, x, y)
  {
    seq(w, x requires 0 <= x < w => seq(h, y requires 0 <= y < h => Cell(file, w, n, x, y)))
  }

  /** The buffer `loadImage` returns: every one of its `Area(w, h)` pixels
      read, pixel `(x, y)` from line `3 + RowMajor(x, y, w)`. */
  function Columns(file: seq<Line>, w: nat, h: nat): (img: Image)
    requires Area(w, h) <= PixelCount(file)
    ensures IsGrid(img, w, h)
    ensures forall x, y :: 0 <= x < w && 0 <= y < h ==>
      3 + RowMajor(x, y, w) < |file| && img[x][y] == ReadPixel(file[3 + RowMajor(x, y, w)])
  {
    var img := Filled(file, w, h, Area(w, h));
    assert forall x, y :: 0 <= x < w && 0 <= y < h ==>
      3 + RowMajor(x, y, w) < |file| && img[x][y] == ReadPixel(file[3 + RowMajor(x, y, w)]) by {
      forall x, y | 0 <= x < w && 0 <= y < h
        ensures 3 + RowMajor(x, y, w) < |file| && img[x][y] == ReadPixel(file[3 + RowMajor(x, y, w)])
      {
        RowMajorInRange(x, y, w, h);
      }
    }
    img
  }

  /** `loadImage(file, w, h)` on the contents of an opened file, the
      expected size defaulting to 100 by 100. The dimension check comes
      first, so a mismatch is reported whatever follows. C++ reads an
      unwritten dimension only on a blank or missing dimensions line, or
      when the width equals `w` and the height was left unwritten (the
      `||` short-circuits otherwise); that undefined comparison is
      modelled as a mismatch. On success the buffer is `w` columns of `h`
      pixels and every pixel comes from the pixel line at its row-major
      position. */
  function LoadImage(file: seq<Line>, w: Uint := 100, h: Uint := 100): (r: Result<Image, LoadError>)
    ensures r.Success? <==> Declares(file, w, h) && Area(w, h) <= PixelCount(file)
    ensures !Declares(file, w, h) ==> r == Failure(DimensionMismatch)
    ensures Declares(file, w, h) && Area(w, h) > PixelCount(file) ==>
      r == Failure(OutOfPixelData)
    ensures r.Success? ==> IsGrid(r.value, w, h)
    ensures r.Success? ==> forall x, y :: 0 <= x < w && 0 <= y < h ==>
      3 + RowMajor(x, y, w) < |file| && r.value[x][y] == ReadPixel(file[3 + RowMajor(x, y, w)])
  {
    if !Declares(file, w, h) then
      Failure(DimensionMismatch)
    else if Area(w, h) > PixelCount(file) then
      Failure(OutOfPixelData)
    else
      Success(Columns(file, w, h))
  }

  /** `loadImage(filename, w, h)`: an absent file is reported by name. The
      expected size defaults to 100 by 100. */
  function LoadImageFile(fs: FileSystem, name: string, w: Uint := 100, h: Uint := 100): (r: Result<Image, LoadError>)
    ensures name !in fs <==> r == Failure(FileNotFound(name))
    ensures name in fs ==> r == LoadImage(fs[name], w, h)
  {
    if name !in fs then Failure(FileNotFound(name)) else LoadImage(fs[name], w, h)
  }

  /** The nested loops of `loadImage` as written: the buffer is resized to
      `w` columns of `h` black pixels, then each pass of the inner loop
      either reads the next line into `image[x][y]` or throws. Agrees with
      the functional reading above on every input. */
  method LoadImageStreaming(file: seq<Line>, w: Uint, h: Uint) returns (r: Result<Image, LoadError>)
    ensures r == LoadImage(file, w, h)
  {
    if !Declares(file, w, h) {
      return Failure(DimensionMismatch);
    }
    r := ReadPixels(file, w, h);
  }

  /** Before any line is read the buffer is all black. */
  lemma FilledNone(file: seq<Line>, w: nat, h: nat)
    ensures Filled(file, w, h, 0) == seq(w, _ => seq(h, _ => Black))
  {
    var none, black := Filled(file, w, h, 0), seq(w, _ => seq(h, _ => Black));
    forall i | 0 <= i < w
      ensures none[i] == black[i]
    {
      assert forall j :: 0 <= j < h ==> none[i][j] == Black;
    }
  }

  /** Reading pixel line `n` sets the pixel at row-major position `n` and
      no other. */
  lemma {:induction false} CellStep(file: seq<Line>, w: nat, x: nat, y: nat, n: nat, i: nat, j: nat)
    requires x < w && i < w && n == RowMajor(x, y, w) && n < PixelCount(file)
    ensures Cell(file, w, n + 1, i, j) ==
      if i == x && j == y then ReadPixel(file[3 + n]) else Cell(file, w, n, i, j)
  {
    if RowMajor(i, j, w) == n {
      RowMajorInjective(i, j, x, y, w);
    }
  }

  /** Hence the read is the one-pixel update the inner loop performs. */
  lemma {:induction false} FilledStep(file: seq<Line>, w: nat, h: nat, x: nat, y: nat, n: nat)
    requires x < w && y < h && n == RowMajor(x, y, w) && n < PixelCount(file)
    ensures Filled(file, w, h, n + 1) ==
      Filled(file, w, h, n)[x := Filled(file, w, h, n)[x][y := ReadPixel(file[3 + n])]]
  {
    var before, after := Filled(file, w, h, n), Filled(file, w, h, n + 1);
    var updated := before[x := before[x][y := ReadPixel(file[3 + n])]];
    forall i | 0 <= i < w
      ensures after[i] == updated[i]
    {
      forall j | 0 <= j < h
        ensures after[i][j] == updated[i][j]
      {
        CellStep(file, w, x, y, n, i, j);
      }
    }
  }

  /** The pixel loops of `loadImage`, after the dimensions are checked:
      `consumed` counts the lines `getline` has delivered. */
  method ReadPixels(file: seq<Line>, w: nat, h: nat) returns (r: Result<Image, LoadError>)
    ensures r.Failure? <==> Area(w, h) > PixelCount(file)
    ensures r.Failure? ==> r.error == OutOfPixelData
    ensures r.Success? ==> r.value == Columns(file, w, h)
  {
    var image: Image := seq(w, _ => seq(h, _ => Black));
    var consumed: nat := 0;
    FilledNone(file, w, h);
    var y: nat := 0;
    while y < h
      invariant y <= h
      invariant consumed == RowMajor(0, y, w) && consumed <= PixelCount(file)
      invariant image == Filled(file, w, h, consumed)
    {
      var x: nat := 0;
      while x < w
        invariant x <= w
        invariant consumed == RowMajor(0, y, w) + x && consumed <= PixelCount(file)
        invariant image == Filled(file, w, h, consumed)
      {
        RowMajorShift(x, y, w);
        if consumed < PixelCount(file) {
          FilledStep(file, w, h, x, y, consumed);
          image := image[x := image[x][y := ReadPixel(file[3 + consumed])]];
          consumed := consumed + 1;
        } else {
          RowMajorInRange(x, y, w, h);
          return Failure(OutOfPixelData);
        }
        x := x + 1;
      }
      y := y + 1;
    }
    return Success(image);
  }

  /** The buffer depends on the pixel lines it reads and on nothing else
      in the file. */
  lemma {:induction false} ColumnsAgree(a: seq<Line>, b: seq<Line>, w: nat, h: nat)
    requires Area(w, h) <= PixelCount(a) && Area(w, h) <= PixelCount(b)
    requires forall k :: 3 <= k < 3 + Area(w, h) ==> a[k] == b[k]
    ensures Columns(a, w, h) == Columns(b, w, h)
  {
    var left, right := Columns(a, w, h), Columns(b, w, h);
    forall x | 0 <= x < w
      ensures left[x] == right[x]
    {
      forall y | 0 <= y < h
        ensures left[x][y] == right[x][y]
      {
        RowMajorInRange(x, y, w, h);
      }
    }
  }

  /** Pixel lines beyond the `Area(w, h)` that are needed never change the
      result. */
  lemma {:induction false} ExtraLinesIgnored(file: seq<Line>, more: seq<Line>, w: Uint, h: Uint)
    requires LoadImage(file, w, h).Success?
    ensures LoadImage(file + more, w, h) == LoadImage(file, w, h)
  {
    var longer := file + more;
    assert longer[1] == file[1];
    assert Dimensions(longer) == Dimensions(file);
    ColumnsAgree(longer, file, w, h);
  }

  /** The header line is skipped unread: two files that differ only
      there load alike, however short they are. */
  lemma {:induction false} HeaderLineIgnored(file: seq<Line>, header: Line, w: Uint, h: Uint)
    requires |file| >= 1
    ensures LoadImage(file[0 := header], w, h) == LoadImage(file, w, h)
  {
    var other := file[0 := header];
    assert |file| >= 2 ==> other[1] == file[1];
    assert Dimensions(other) == Dimensions(file);
    if Declares(file, w, h) && Area(w, h) <= PixelCount(file) {
      ColumnsAgree(other, file, w, h);
    }
  }

  /** The maximum-value line is skipped unread as well. */
  lemma {:induction false} LimitLineIgnored(file: seq<Line>, limit: Line, w: Uint, h: Uint)
    requires |file| >= 3
    ensures LoadImage(file[2 := limit], w, h) == LoadImage(file, w, h)
  {
    var other := file[2 := limit];
    assert other[1] == file[1];
    assert Dimensions(other) == Dimensions(file);
    if Declares(file, w, h) && Area(w, h) <= PixelCount(file) {
      ColumnsAgree(other, file, w, h);
    }
  }

  /** A width that differs from the expected one is a mismatch before the
      height is looked at: `abc 5` (width 0) and `7` (height unwritten)
      both fail against an expected width of 100. */
  lemma WidthMismatchFirst(header: Line)
    ensures LoadImage([header, [Word("abc"), Whole(5)]], 100, 5) == Failure(DimensionMismatch)
    ensures LoadImage([header, [Whole(7)]], 100, 5) == Failure(DimensionMismatch)
  {
  }

  /** A file of two lines declaring `w` by 0 loads as `w` empty columns:
      the missing maximum-value line and the missing pixel lines are never
      needed. */
  lemma TwoLineFileLoads(header: Line, w: Uint)
    ensures LoadImage([header, [Whole(w), Whole(0)]], w, 0) == Success(seq(w, _ => []))
  {
    var file := [header, [Whole(w), Whole(0)]];
    WrittenDimensionsRead(file, w, 0);
    var img := LoadImage(file, w, 0).value;
    assert img == seq(w, _ => []);
  }
}
