/** The plain-text image layout that `SaveImage` writes and the tests'
    `loadImage` reads back:

      line 0   a format header (ignored by the reader)
      line 1   `<width> <height>`
      line 2   the maximum channel value (ignored by the reader)
      line 3+  one `<r> <g> <b>` line per pixel, row by row

    A file is a sequence of lines; a line is the sequence of lexemes that
    C++ stream extraction sees in it, already classified. */
module ImageText {
  import opened Wrappers
  import opened CppInt

  /** A whitespace-separated lexeme: an integer numeral, any other numeral
      a `float` extraction accepts, or something no number can be read
      from. A `Fraction` also carries the integer numeral its text begins
      with, if any: 3 for `3.7`, 1 for `1e5`, none for `.5`. */
  datatype Token = Whole(n: int) | Fraction(v: real, lead: Option<int>) | Word(text: string)

  /** The integer numeral an integer extraction reads from the front of a
      lexeme, if there is one. */
  function IntegerPrefix(t: Token): Option<int> {
    match t
    case Whole(n) => Some(n)
    case Fraction(_, lead) => lead
    case Word(_) => None
  }

  type Line = seq<Token>

  /** The files the model can see, by path. */
  type FileSystem = map<string, seq<Line>>

  /** One pixel: `std::array<float, 3>` holding red, green and blue. */
  datatype Colour = Colour(r: real, g: real, b: real)

  /** The value a freshly resized pixel buffer holds. */
  const Black: Colour := Colour(0.0, 0.0, 0.0)

  /** `std::vector<std::vector<std::array<float, 3>>>`, indexed `[x][y]`:
      the outer sequence holds the columns. */
  type Image = seq<seq<Colour>>

  /** `img` has exactly `w` columns, each holding `h` pixels. */
  predicate IsGrid(img: Image, w: nat, h: nat) {
    |img| == w && forall x :: 0 <= x < w ==> |img[x]| == h
  }

  /** The column length a buffer's writer reads off its first column. */
  function Height(img: Image): nat {
    if |img| == 0 then 0 else |img[0]|
  }

  /** Every column has the length of the first. */
  predicate IsRectangular(img: Image) {
    IsGrid(img, |img|, Height(img))
  }

  /** What one `stream >> unsigned` does when a lexeme is available: the
      value it stores, whether the read succeeded (the fail bit stays
      clear; the end-of-file bit is not tracked), and
      whether it consumed the whole lexeme (rather than only the integer
      numeral at its front). */
  datatype UintRead = UintRead(stored: Uint, ok: bool, consumed: bool)

  /** `stream >> unsigned`, libstdc++ style, on the lexeme `t`: an integer
      numeral of magnitude below 2^32 is read, a negative one wrapping round
      modulo 2^32; a larger magnitude stores the maximum value and fails;
      a lexeme with no integer numeral at its front stores 0 and fails.
      After a fraction's integer part the rest of the lexeme stays unread. */
  function ExtractUint(t: Token): (r: UintRead)
    ensures r.ok <==> IntegerPrefix(t).Some? && -UintModulus < IntegerPrefix(t).value < UintModulus
    ensures r.ok && IntegerPrefix(t).value >= 0 ==> r.stored == IntegerPrefix(t).value
    ensures r.ok && IntegerPrefix(t).value < 0 ==> r.stored == UintModulus + IntegerPrefix(t).value
    ensures IntegerPrefix(t).None? ==> r.stored == 0
    ensures IntegerPrefix(t).Some? && !r.ok ==> r.stored == UintModulus - 1
    ensures r.consumed <==> r.ok && t.Whole?
  {
    match IntegerPrefix(t)
    case None => UintRead(0, false, false)
    case Some(n) =>
      if -UintModulus < n < UintModulus then UintRead(n % UintModulus, true, t.Whole?)
      else UintRead(UintModulus - 1, false, false)
  }

  /** `stream >> float` on one lexeme: `None` when it sets the fail bit. */
  function ExtractReal(t: Token): Option<real> {
    match t
    case Whole(n) => Some(n as real)
    case Fraction(v, _) => Some(v)
    case Word(_) => None
  }

  /** The `width` and `height` variables after `line_stream >> width;
      line_stream >> height;` on the second line. `None` marks a variable
      the extraction never wrote: the stream was exhausted or had already
      failed. A file of fewer than two lines yields an empty second line. */
  datatype DeclaredSize = DeclaredSize(width: Option<Uint>, height: Option<Uint>)

  /** The two extractions from the dimensions line. Once the width fails
      the height is left alone; after the integer part of a fractional
      width the height extraction meets the rest of that lexeme, which
      holds no integer, and stores 0. */
  function Dimensions(file: seq<Line>): (d: DeclaredSize)
    ensures (|file| < 2 || |file[1]| == 0) ==> d == DeclaredSize(None, None)
    ensures d.height.Some? ==> d.width.Some?
    ensures |file| >= 2 && |file[1]| >= 2 && ExtractUint(file[1][0]).consumed ==>
      d == DeclaredSize(Some(ExtractUint(file[1][0]).stored), Some(ExtractUint(file[1][1]).stored))
    ensures |file| >= 2 && |file[1]| >= 1 && !ExtractUint(file[1][0]).ok ==>
      d == DeclaredSize(Some(ExtractUint(file[1][0]).stored), None)
    ensures |file| >= 2 && |file[1]| == 1 && ExtractUint(file[1][0]).consumed ==>
      d == DeclaredSize(Some(ExtractUint(file[1][0]).stored), None)
    ensures |file| >= 2 && |file[1]| >= 1 && ExtractUint(file[1][0]).ok && !ExtractUint(file[1][0]).consumed ==>
      d == DeclaredSize(Some(ExtractUint(file[1][0]).stored), Some(0))
  {
    var line := if |file| < 2 then [] else file[1];
    if |line| == 0 then DeclaredSize(None, None)
    else
      var width := ExtractUint(line[0]);
      if !width.ok then DeclaredSize(Some(width.stored), None)
      else if !width.consumed then DeclaredSize(Some(width.stored), Some(0))
      else if |line| == 1 then DeclaredSize(Some(width.stored), None)
      else DeclaredSize(Some(width.stored), Some(ExtractUint(line[1]).stored))
  }

  /** The second line declares exactly the size `w` by `h`. */
  predicate Declares(file: seq<Line>, w: Uint, h: Uint) {
    Dimensions(file) == DeclaredSize(Some(w), Some(h))
  }

  /** The dimensions line a writer emits, two in-range integers, is read
      back as exactly that size, whatever follows on the line. */
  lemma WrittenDimensionsRead(file: seq<Line>, w: Uint, h: Uint)
    requires |file| >= 2 && |file[1]| >= 2 && file[1][0] == Whole(w) && file[1][1] == Whole(h)
    ensures Declares(file, w, h)
  {
  }

  /** Dimension lines that are not two integers: `5 abc` declares a height
      of 0, `5 3.7` a height of 3, `3.7 5` a width of 3 and a height of 0,
      `abc 5` a width of 0 and no height, and `5` alone no height. */
  lemma IrregularDimensionLines(header: Line)
    ensures Dimensions([header, [Whole(5), Word("abc")]]) == DeclaredSize(Some(5), Some(0))
    ensures Dimensions([header, [Whole(5), Fraction(3.7, Some(3))]]) == DeclaredSize(Some(5), Some(3))
    ensures Dimensions([header, [Fraction(3.7, Some(3)), Whole(5)]]) == DeclaredSize(Some(3), Some(0))
    ensures Dimensions([header, [Word("abc"), Whole(5)]]) == DeclaredSize(Some(0), None)
    ensures Dimensions([header, [Whole(5)]]) == DeclaredSize(Some(5), None)
    ensures Dimensions([header, [Whole(-1), Whole(5)]]) == DeclaredSize(Some(UintModulus - 1), Some(5))
  {
  }

  /** What `count` successive `stream >> float` extractions from `line`
      store. Once one extraction fails the stream refuses all further
      input, so that value and every later one keep the 0 the buffer was
      initialised with. */
  function Extracted(line: Line, count: nat): (vs: seq<real>)
    ensures |vs| == count
  {
    if count == 0 then []
    else if |line| == 0 || ExtractReal(line[0]).None? then seq(count, _ => 0.0)
    else [ExtractReal(line[0]).value] + Extracted(line[1..], count - 1)
  }

  /** The `i`-th value extracted is the `i`-th lexeme when it and every
      lexeme before it are numbers, and 0 otherwise. */
  lemma {:induction false} ExtractedValue(line: Line, count: nat, i: nat)
    requires i < count
    ensures i < |line| && (forall j :: 0 <= j <= i ==> ExtractReal(line[j]).Some?) ==>
      Some(Extracted(line, count)[i]) == ExtractReal(line[i])
    ensures (i >= |line| || exists j :: 0 <= j <= i && ExtractReal(line[j]).None?) ==>
      Extracted(line, count)[i] == 0.0
  {
    if |line| > 0 && ExtractReal(line[0]).Some? && i > 0 {
      ExtractedValue(line[1..], count - 1, i - 1);
      if i < |line| {
        assert forall j :: 1 <= j <= i ==> line[1..][j - 1] == line[j];
        if exists j :: 0 <= j <= i && ExtractReal(line[j]).None? {
          var j :| 0 <= j <= i && ExtractReal(line[j]).None?;
          assert j > 0 && ExtractReal(line[1..][j - 1]).None?;
        }
      }
    }
  }

  /** The three `pixel_stream >> image[x][y][c]` extractions of one line:
      each channel is its lexeme while every extraction so far succeeds,
      and keeps the 0 of the resized buffer from the first failure on. */
  function ReadPixel(line: Line): (c: Colour)
    ensures |line| >= 1 && ExtractReal(line[0]).Some? ==> Some(c.r) == ExtractReal(line[0])
    ensures |line| >= 2 && ExtractReal(line[0]).Some? && ExtractReal(line[1]).Some? ==>
      Some(c.g) == ExtractReal(line[1])
    ensures |line| >= 3 && ExtractReal(line[0]).Some? && ExtractReal(line[1]).Some? && ExtractReal(line[2]).Some? ==>
      Some(c.b) == ExtractReal(line[2])
    ensures |line| < 1 || ExtractReal(line[0]).None? ==> c == Black
    ensures |line| < 2 || ExtractReal(line[0]).None? || ExtractReal(line[1]).None? ==> c.g == 0.0 && c.b == 0.0
    ensures |line| < 3 || ExtractReal(line[0]).None? || ExtractReal(line[1]).None? || ExtractReal(line[2]).None? ==>
      c.b == 0.0
  {
    var vs := Extracted(line, 3);
    ExtractedValue(line, 3, 0);
    ExtractedValue(line, 3, 1);
    ExtractedValue(line, 3, 2);
    Colour(vs[0], vs[1], vs[2])
  }

  /** Row-major position of pixel `(x, y)` in a `w`-wide image: `y` whole
      rows of `w` pixels, then `x` more. */
  function RowMajor(x: nat, y: nat, w: nat): nat {
    if y == 0 then x else RowMajor(x, y - 1, w) + w
  }

  /** The position is `y * w + x`. */
  lemma {:induction false} RowMajorFormula(x: nat, y: nat, w: nat)
    ensures RowMajor(x, y, w) == y * w + x
  {
    if y > 0 {
      RowMajorFormula(x, y - 1, w);
      assert (y - 1) * w + w == y * w;
    }
  }

  /** Moving `x` pixels along a row moves the position by `x`. */
  lemma {:induction false} RowMajorShift(x: nat, y: nat, w: nat)
    ensures RowMajor(x, y, w) == RowMajor(0, y, w) + x
  {
    if y > 0 {
      RowMajorShift(x, y - 1, w);
    }
  }

  /** The number of pixels of a `w` by `h` image: the position just past
      its last row. Kept in this form, free of multiplication, so that
      reasoning about positions stays linear; `AreaIsProduct` relates it to
      `w * h`. */
  function Area(w: nat, h: nat): nat {
    RowMajor(0, h, w)
  }

  /** `Area(w, h)` is `w * h`. */
  lemma AreaIsProduct(w: nat, h: nat)
    ensures Area(w, h) == w * h
  {
    RowMajorFormula(0, h, w);
  }

  /** Every pixel of a `w` by `h` image has a position below its area. */
  lemma {:induction false} RowMajorInRange(x: nat, y: nat, w: nat, h: nat)
    requires x < w && y < h
    ensures RowMajor(x, y, w) < Area(w, h)
    decreases h - y
  {
    RowMajorShift(x, y, w);
    if y + 1 < h {
      RowMajorInRange(x, y + 1, w, h);
    }
  }

  /** Each position names exactly one pixel: two pixels of a `w`-wide
      image with the same position are the same pixel. */
  lemma {:induction false} RowMajorInjective(i: nat, j: nat, x: nat, y: nat, w: nat)
    requires i < w && x < w && RowMajor(i, j, w) == RowMajor(x, y, w)
    ensures i == x && j == y
  {
    if j > 0 && y > 0 {
      RowMajorInjective(i, j - 1, x, y - 1, w);
    }
  }
}
