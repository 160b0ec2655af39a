/**
 * Day 20, trench map: an image of light ('#') and dark ('.') pixels is enhanced by looking
 * up, for every pixel, the 9-bit number its 3x3 neighbourhood spells in a 512-character
 * algorithm. The puzzle's image is infinite and dark outside the input; `Image` keeps a
 * finite square, padded with dark pixels, and counts the lit pixels of the part that has
 * grown out of the input.
 */
module Day20 {
  import opened Util

  /** Every row as long as there are rows. */
  predicate IsSquare(img: seq<seq<char>>)
  {
    forall i :: 0 <= i < |img| ==> |img[i]| == |img|
  }

  /** `['.'] * n`. */
  function Dots(n: nat): string
  {
    seq(n, i => '.')
  }

  /** `n` rows of `['.'] * dim`. */
  function Blank(n: nat, dim: nat): seq<string>
  {
    seq(n, i => Dots(dim))
  }

  /** The input rows, each with `p` dark pixels on either side. */
  function Middle(lines: seq<string>, p: nat): seq<string>
  {
    seq(|lines|, i requires 0 <= i < |lines| => Dots(p) + lines[i] + Dots(p))
  }

  /**
   * The image the constructor builds (lines 24-29): `p` dark rows, the input rows with
   * `p` dark pixels on either side, `p` dark rows. It is a square of side `|lines| + 2 p`
   * with the input at its centre and dark pixels everywhere else.
   */
  function Framed(lines: seq<string>, p: nat): (img: seq<string>)
    requires IsSquare(lines)
    ensures |img| == |lines| + 2 * p && IsSquare(img)
    ensures forall y, x :: 0 <= y < |img| && 0 <= x < |img| ==>
      img[y][x] == if p <= y < p + |lines| && p <= x < p + |lines| then lines[y - p][x - p] else '.'
  {
    var dim := |lines| + 2 * p;
    var img := Blank(p, dim) + Middle(lines, p) + Blank(p, dim);
    assert forall y :: p <= y < p + |lines| ==> img[y] == Dots(p) + lines[y - p] + Dots(p);
    assert forall y :: 0 <= y < p || p + |lines| <= y < dim ==> img[y] == Dots(dim);
    img
  }

  /** Line 45: '1' for a lit pixel, '0' for any other. */
  function Bit(c: char): char
  {
    if c == '#' then '1' else '0'
  }

  /** The bit string of a run of pixels. */
  function Bits(s: seq<char>): (b: string)
    ensures |b| == |s| && IsBinary(b)
  {
    seq(|s|, i requires 0 <= i < |s| => Bit(s[i]))
  }

  /** Lines 46-47: the index a window of nine pixels spells, read as a big-endian binary number. */
  function WindowIndex(window: seq<char>): (k: nat)
    requires |window| == 9
    ensures k < 512
  {
    BinaryValueBound(Bits(window));
    assert Pow2(9) == 512;
    BinaryValue(Bits(window))
  }

  /** The value of a bit string is its first bit's weight plus the value of the rest. */
  lemma {:induction false} LeadingBit(s: string)
    requires s != []
    ensures BinaryValue(s) == (if s[0] == '1' then Pow2(|s| - 1) else 0) + BinaryValue(s[1..])
    decreases |s|
  {
    if |s| > 1 {
      var init := s[..|s| - 1];
      LeadingBit(init);
      assert init[1..] == s[1..][..|s| - 2];
    } else {
      assert s[1..] == [];
    }
  }

  /**
   * Big-endian order: the top-left pixel of the window carries the weight 256 and the
   * bottom-right one the weight 1.
   */
  lemma WindowIndexBits(window: seq<char>)
    requires |window| == 9
    ensures WindowIndex(window) >= 256 <==> window[0] == '#'
    ensures WindowIndex(window) % 2 == 1 <==> window[8] == '#'
  {
    var b := Bits(window);
    LeadingBit(b);
    BinaryValueBound(b[1..]);
    assert Pow2(8) == 256;
    assert b[..8] == b[..|b| - 1];
  }

  /** A string of '1's is worth one less than the next power of 2. */
  lemma {:induction false} OnesValue(s: string)
    requires forall i :: 0 <= i < |s| ==> s[i] == '1'
    ensures BinaryValue(s) == Pow2(|s|) - 1
    decreases |s|
  {
    if s != [] {
      OnesValue(s[..|s| - 1]);
    }
  }

  /** A dark window looks up the first character of the algorithm, a lit one the last. */
  lemma WindowIndexUniform(window: seq<char>)
    requires |window| == 9
    ensures (forall i :: 0 <= i < 9 ==> window[i] == '.') ==> WindowIndex(window) == 0
    ensures (forall i :: 0 <= i < 9 ==> window[i] == '#') ==> WindowIndex(window) == 511
  {
    var b := Bits(window);
    if forall i :: 0 <= i < 9 ==> window[i] == '.' {
      ZerosValue(b);
    }
    if forall i :: 0 <= i < 9 ==> window[i] == '#' {
      OnesValue(b);
      assert Pow2(9) == 512;
    }
  }

  /** The character of the algorithm a window of nine pixels selects: line 47. */
  function Lookup(algo: string, window: seq<char>): char
    requires |algo| == 512 && |window| == 9
  {
    algo[WindowIndex(window)]
  }

  /** Lines 42-44: the 3x3 neighbourhood of an inner pixel, row by row. */
  function Neighborhood(img: seq<string>, y: int, x: int): (w: seq<char>)
    requires IsSquare(img) && 1 <= y < |img| - 1 && 1 <= x < |img| - 1
    ensures |w| == 9
    ensures w == [img[y - 1][x - 1], img[y - 1][x], img[y - 1][x + 1],
                  img[y][x - 1], img[y][x], img[y][x + 1],
                  img[y + 1][x - 1], img[y + 1][x], img[y + 1][x + 1]]
  {
    img[y - 1][x - 1..x + 2] + img[y][x - 1..x + 2] + img[y + 1][x - 1..x + 2]
  }

  /** The new pixel at (y, x) after one enhancement: looked up for an inner pixel, dark on the border (lines 39-47). */
  function EnhancedAt(img: seq<string>, algo: string, y: int, x: int): char
    requires IsSquare(img) && |algo| == 512
  {
    if 1 <= y < |img| - 1 && 1 <= x < |img| - 1 then Lookup(algo, Neighborhood(img, y, x)) else '.'
  }

  /**
   * The image after one enhancement: the same side, dark on the border, and every inner
   * pixel the algorithm's character for its neighbourhood in the old image.
   */
  function Enhanced(img: seq<string>, algo: string): (e: seq<string>)
    requires IsSquare(img) && |algo| == 512
    ensures |e| == |img| && IsSquare(e)
    ensures forall y, x :: 0 <= y < |e| && 0 <= x < |e| && (y == 0 || x == 0 || y == |e| - 1 || x == |e| - 1) ==>
      e[y][x] == '.'
  {
    seq(|img|, y => seq(|img|, x => EnhancedAt(img, algo, y, x)))
  }

  /** How many of the cells `(r, c0) .. (r, c0 + n - 1)` satisfy `f`. */
  function RowCount(f: (int, int) -> bool, r: int, c0: int, n: nat): nat
  {
    if n == 0 then 0 else RowCount(f, r, c0, n - 1) + (if f(r, c0 + n - 1) then 1 else 0)
  }

  /** How many cells in rows `o .. o + m` and columns `o .. o + a` satisfy `f`. */
  function BlockCount(f: (int, int) -> bool, o: int, m: nat, a: nat): nat
  {
    if m == 0 then 0 else BlockCount(f, o, m - 1, a) + RowCount(f, o + m - 1, o, a)
  }

  /** The cells `(r, c0) .. (r, c0 + n - 1)` that satisfy `f`. */
  function RowCells(f: (int, int) -> bool, r: int, c0: int, n: nat): set<(int, int)>
  {
    set c | c0 <= c < c0 + n && f(r, c) :: (r, c)
  }

  /** The cells in rows `o .. o + m` and columns `o .. o + a` that satisfy `f`. */
  function Cells(f: (int, int) -> bool, o: int, m: nat, a: nat): set<(int, int)>
  {
    set r, c | o <= r < o + m && o <= c < o + a && f(r, c) :: (r, c)
  }

  /** `RowCount` counts the cells of the row that satisfy `f`. */
  lemma {:induction false} RowCountCells(f: (int, int) -> bool, r: int, c0: int, n: nat)
    ensures RowCount(f, r, c0, n) == |RowCells(f, r, c0, n)|
  {
    if n > 0 {
      RowCountCells(f, r, c0, n - 1);
      var before, now := RowCells(f, r, c0, n - 1), RowCells(f, r, c0, n);
      if f(r, c0 + n - 1) {
        assert (r, c0 + n - 1) !in before;
        assert now == before + {(r, c0 + n - 1)};
      } else {
        assert now == before;
      }
    }
  }

  /** `BlockCount` counts the cells of the block that satisfy `f`. */
  lemma {:induction false} BlockCountCells(f: (int, int) -> bool, o: int, m: nat, a: nat)
    ensures BlockCount(f, o, m, a) == |Cells(f, o, m, a)|
  {
    if m == 0 {
      assert Cells(f, o, m, a) == {};
    } else {
      BlockCountCells(f, o, m - 1, a);
      RowCountCells(f, o + m - 1, o, a);
      var all, rest, row := Cells(f, o, m, a), Cells(f, o, m - 1, a), RowCells(f, o + m - 1, o, a);
      assert all == rest + row by {
        forall s | s in all ensures s in rest + row {
          if s.0 < o + m - 1 {
            assert s in rest;
          }
        }
      }
      assert rest * row == {} by {
        forall s | s in row ensures s !in rest {
        }
      }
    }
  }

  /** Whether the pixel at (y, x) of a picture is lit. */
  function LitIn(img: seq<string>): (int, int) -> bool
  {
    (y, x) => 0 <= y < |img| && 0 <= x < |img[y]| && img[y][x] == '#'
  }

  /** `Image`: the algorithm, the square of pixels and the side of the part grown out of the input. */
  class Image {
    var algo: string
    var actualDim: int
    var image: seq<string>

    /** A 512-character algorithm, a square image, and a grown part whose side differs from the image's by an even number. */
    predicate Valid()
      reads this
    {
      |algo| == 512 && IsSquare(image) && 0 <= actualDim && (|image| - actualDim) % 2 == 0
    }

    /** Lines 17-29: the input, framed by `padding` dark pixels on every side. */
    constructor (algo: string, lines: seq<string>, padding: nat)
      requires |algo| == 512 && IsSquare(lines)
      ensures Valid()
      ensures this.algo == algo && actualDim == |lines| && image == Framed(lines, padding)
    {
      this.algo := algo;
      actualDim := |lines|;
      var dim := |lines| + 2 * padding;
      var img: seq<string> := [];
      for i := 0 to padding
        invariant img == Blank(i, dim)
      {
        img := img + [Dots(dim)];
      }
      for i := 0 to |lines|
        invariant img == Blank(padding, dim) + Middle(lines[..i], padding)
      {
        assert Middle(lines[..i + 1], padding) == Middle(lines[..i], padding) + [Dots(padding) + lines[i] + Dots(padding)];
        img := img + [Dots(padding) + lines[i] + Dots(padding)];
      }
      assert lines[..|lines|] == lines;
      for i := 0 to padding
        invariant img == Blank(padding, dim) + Middle(lines, padding) + Blank(i, dim)
      {
        img := img + [Dots(dim)];
      }
      assert img == Framed(lines, padding);
      image := img;
    }

    /**
     * `enhance`, lines 34-49: every inner pixel of a fresh dark image of the same side is
     * looked up from its neighbourhood in the old image, the grown part widens by 2, and
     * the new image replaces the old one.
     */
    method Enhance()
      requires Valid()
      modifies this
      ensures Valid()
      ensures algo == old(algo) && actualDim == old(actualDim) + 2
      ensures image == Enhanced(old(image), old(algo))
    {
      var n := |image|;
      var next := Blank(n, n);
      var y := 1;
      while y < n - 1
        invariant 1 <= y && (y <= n - 1 || n < 2)
        invariant |next| == n && IsSquare(next)
        invariant forall r, c :: 0 <= r < n && 0 <= c < n ==>
          next[r][c] == if r < y then EnhancedAt(image, algo, r, c) else '.'
      {
        var x := 1;
        while x < n - 1
          invariant 1 <= x <= n - 1
          invariant |next| == n && IsSquare(next)
          invariant forall r, c :: 0 <= r < n && 0 <= c < n ==>
            next[r][c] == if r < y || (r == y && c < x) then EnhancedAt(image, algo, r, c) else '.'
        {
          var k := WindowIndex(Neighborhood(image, y, x));
          next := next[y := next[y][x := algo[k]]];
          x := x + 1;
        }
        y := y + 1;
      }
      var e := Enhanced(image, algo);
      forall r | 0 <= r < n
        ensures next[r] == e[r]
      {
      }
      actualDim := actualDim + 2;
      image := next;
    }

    /**
     * `count_lit_bits`, lines 51-58: the lit pixels of the centred square of side
     * `actualDim`. When the grown part is wider than the image the loop reads outside
     * it, which the source reports as an `IndexError`.
     */
    method CountLitBits() returns (r: Result<nat>)
      requires Valid()
      ensures r.Ok? <==> actualDim <= |image|
      ensures r.Ok? ==> r.value == |Cells(LitIn(image), (|image| - actualDim) / 2, actualDim, actualDim)|
    {
      if actualDim > |image| {
        return Err("IndexError: list index out of range");
      }
      var origin := (|image| - actualDim) / 2;
      var count := 0;
      for row := origin to origin + actualDim
        invariant count == BlockCount(LitIn(image), origin, row - origin, actualDim)
      {
        for col := origin to origin + actualDim
          invariant count == BlockCount(LitIn(image), origin, row - origin, actualDim) + RowCount(LitIn(image), row, origin, col - origin)
        {
          if image[row][col] == '#' {
            count := count + 1;
          }
        }
      }
      BlockCountCells(LitIn(image), origin, actualDim, actualDim);
      return Ok(count);
    }
  }

  // The infinite image of the puzzle, and why the padded square computes it.

  /**
   * The pixel at row `r`, column `c` of the infinite image after `k` enhancements: the
   * input inside its square and dark outside it at first, then the algorithm's character
   * for the 3x3 neighbourhood one enhancement earlier.
   */
  ghost function Pixel(lines: seq<string>, algo: string, k: nat, r: int, c: int): char
    requires IsSquare(lines) && |algo| == 512
    decreases k, 1
  {
    if k == 0 then
      if 0 <= r < |lines| && 0 <= c < |lines| then lines[r][c] else '.'
    else
      Lookup(algo, Around(lines, algo, k - 1, r, c))
  }

  /** The 3x3 neighbourhood of a pixel of the infinite image, row by row. */
  ghost function Around(lines: seq<string>, algo: string, k: nat, r: int, c: int): (w: seq<char>)
    requires IsSquare(lines) && |algo| == 512
    ensures |w| == 9
    decreases k, 2
  {
    [Pixel(lines, algo, k, r - 1, c - 1), Pixel(lines, algo, k, r - 1, c), Pixel(lines, algo, k, r - 1, c + 1),
     Pixel(lines, algo, k, r, c - 1), Pixel(lines, algo, k, r, c), Pixel(lines, algo, k, r, c + 1),
     Pixel(lines, algo, k, r + 1, c - 1), Pixel(lines, algo, k, r + 1, c), Pixel(lines, algo, k, r + 1, c + 1)]
  }

  /**
   * The square `img` shows the infinite image after `k` enhancements, shifted by `p`,
   * everywhere except in the outer `d` rings.
   */
  ghost predicate Agrees(lines: seq<string>, algo: string, img: seq<string>, k: nat, p: int, d: nat)
    requires IsSquare(lines) && |algo| == 512
  {
    IsSquare(img) &&
    forall y, x :: d <= y < |img| - d && d <= x < |img| - d ==> img[y][x] == Pixel(lines, algo, k, y - p, x - p)
  }

  /** The framed input shows the infinite image before any enhancement, all of it. */
  lemma FramedAgrees(lines: seq<string>, algo: string, p: nat)
    requires IsSquare(lines) && |algo| == 512
    ensures Agrees(lines, algo, Framed(lines, p), 0, p, 0)
  {
  }

  /**
   * One enhancement of the square loses at most one more outer ring: its border is kept
   * dark, which is where it may part from the infinite image, and each inner pixel only
   * looks one pixel away.
   */
  lemma EnhanceAgrees(lines: seq<string>, algo: string, img: seq<string>, k: nat, p: int, d: nat)
    requires IsSquare(lines) && |algo| == 512
    requires Agrees(lines, algo, img, k, p, d)
    ensures Agrees(lines, algo, Enhanced(img, algo), k + 1, p, d + 1)
  {
    var e := Enhanced(img, algo);
    forall y, x | d + 1 <= y < |e| - d - 1 && d + 1 <= x < |e| - d - 1
      ensures e[y][x] == Pixel(lines, algo, k + 1, y - p, x - p)
    {
      assert Neighborhood(img, y, x) == Around(lines, algo, k, y - p, x - p);
    }
  }

  /** Whether a pixel of the infinite image after `k` enhancements is lit. */
  ghost function Lit(lines: seq<string>, algo: string, k: nat): (int, int) -> bool
  {
    (r, c) => IsSquare(lines) && |algo| == 512 && Pixel(lines, algo, k, r, c) == '#'
  }

  /** Where the square shows the infinite image, a row of it counts as many lit pixels. */
  lemma {:induction false} RowAgrees(lines: seq<string>, algo: string, img: seq<string>, k: nat, p: int, d: nat, y: nat, o: nat, n: nat)
    requires IsSquare(lines) && |algo| == 512 && Agrees(lines, algo, img, k, p, d)
    requires d <= y < |img| - d && d <= o && o + n <= |img| - d
    ensures RowCount(LitIn(img), y, o, n) == RowCount(Lit(lines, algo, k), y - p, o - p, n)
  {
    if n > 0 {
      RowAgrees(lines, algo, img, k, p, d, y, o, n - 1);
      assert img[y][o + n - 1] == Pixel(lines, algo, k, y - p, o + n - 1 - p);
    }
  }

  /** Where the square shows the infinite image, a block of it counts as many lit pixels. */
  lemma {:induction false} CountAgrees(lines: seq<string>, algo: string, img: seq<string>, k: nat, p: int, d: nat, o: nat, m: nat, a: nat)
    requires IsSquare(lines) && |algo| == 512 && Agrees(lines, algo, img, k, p, d)
    requires d <= o && o + m <= |img| - d && o + a <= |img| - d
    ensures BlockCount(LitIn(img), o, m, a) == BlockCount(Lit(lines, algo, k), o - p, m, a)
  {
    if m > 0 {
      CountAgrees(lines, algo, img, k, p, d, o, m - 1, a);
      RowAgrees(lines, algo, img, k, p, d, o + m - 1, o, a);
    }
  }

  /** The image rows of the input: everything after the algorithm and the blank line. */
  function Picture(lines: seq<string>): seq<string>
  {
    if |lines| >= 2 then lines[2..] else []
  }

  /**
   * The lit pixels of the infinite image after `n` enhancements in the square grown out
   * of the input: `n` pixels beyond it on every side.
   */
  ghost function LitPixels(lines: seq<string>, algo: string, n: nat): set<(int, int)>
    requires IsSquare(lines) && |algo| == 512
  {
    Cells(Lit(lines, algo, n), -(n as int), |lines| + 2 * n, |lines| + 2 * n)
  }

  /**
   * `part_a`, lines 61-65: frames the input with `2 n` dark pixels, enhances `n` times
   * and counts the lit pixels of the grown square. The padding is wide enough: the count
   * is that of the infinite image, although the square's border is kept dark. Input
   * without a first line fails as the source's `lines[0]` does.
   */
  method PartA(lines: seq<string>, n: nat) returns (r: Result<nat>)
    requires |lines| > 0 ==> |lines[0]| == 512 && IsSquare(Picture(lines))
    ensures r.Err? <==> |lines| == 0
    ensures r.Ok? ==> r.value == |LitPixels(Picture(lines), lines[0], n)|
  {
    if |lines| == 0 {
      return Err("IndexError: list index out of range");
    }
    var algo, pic := lines[0], Picture(lines);
    var image := new Image(algo, pic, n * 2);
    FramedAgrees(pic, algo, n * 2);
    EnhanceTimes(image, pic, n);
    ghost var grown, side := image.image, image.actualDim;
    assert side == |pic| + 2 * n && (|grown| - side) / 2 == n;
    r := image.CountLitBits();
    GrownCount(pic, algo, n, grown);
    assert r.Ok? && r.value == |Cells(LitIn(grown), n, side, side)|;
  }

  /** Lines 63-64: `n` enhancements of the framed input, which keep the centre faithful to the infinite image. */
  method EnhanceTimes(image: Image, ghost pic: seq<string>, n: nat)
    requires image.Valid() && IsSquare(pic) && image.actualDim == |pic| && |image.image| == |pic| + 4 * n
    requires Agrees(pic, image.algo, image.image, 0, 2 * n, 0)
    modifies image
    ensures image.Valid() && image.algo == old(image.algo)
    ensures image.actualDim == |pic| + 2 * n && |image.image| == |pic| + 4 * n
    ensures Agrees(pic, image.algo, image.image, n, 2 * n, n)
  {
    for i := 0 to n
      invariant image.Valid() && image.algo == old(image.algo)
      invariant image.actualDim == |pic| + 2 * i && |image.image| == |pic| + 4 * n
      invariant Agrees(pic, image.algo, image.image, i, 2 * n, i)
    {
      ghost var before := image.image;
      image.Enhance();
      EnhanceAgrees(pic, image.algo, before, i, 2 * n, i);
    }
  }

  /**
   * After `n` enhancements of the input framed by `2 n` dark pixels, the grown square
   * holds as many lit pixels as the infinite image in the same place.
   */
  lemma GrownCount(lines: seq<string>, algo: string, n: nat, img: seq<string>)
    requires IsSquare(lines) && |algo| == 512
    requires |img| == |lines| + 4 * n && Agrees(lines, algo, img, n, 2 * n, n)
    ensures |Cells(LitIn(img), n, |lines| + 2 * n, |lines| + 2 * n)| == |LitPixels(lines, algo, n)|
  {
    var side := |lines| + 2 * n;
    BlockCountCells(LitIn(img), n, side, side);
    CountAgrees(lines, algo, img, n, 2 * n, n, n, side, side);
    BlockCountCells(Lit(lines, algo, n), -(n as int), side, side);
  }

  /** `part_b`, lines 68-69: part A with 50 enhancements. */
  method PartB(lines: seq<string>) returns (r: Result<nat>)
    requires |lines| > 0 ==> |lines[0]| == 512 && IsSquare(Picture(lines))
    ensures r.Err? <==> |lines| == 0
    ensures r.Ok? ==> r.value == |LitPixels(Picture(lines), lines[0], 50)|
  {
    r := PartA(lines, 50);
  }
}
