/** The grid sampler that runs in the image worker: an RGBA pixel buffer is cut
    into gridSize x gridSize cells, and each cell becomes one particle whose
    colour is the rounded average of the pixels it samples. */
module GridSampler {

  type byte = x: int | 0 <= x < 256

  /** The colour of a cell, `rgb(r,g,b)`. A cell that sampled no pixel divides
      its sums by a zero count, which in the source prints `rgb(NaN,NaN,NaN)`. */
  datatype Colour = Rgb(r: int, g: int, b: int) | NaNColour

  /** A particle of the image field, as the worker emits it: a position and a
      rest position in percent of the container, and a velocity. */
  datatype Particle = Particle(color: Colour, x: real, y: real, originalX: real, originalY: real, vx: real, vy: real)

  /** The running sums `r`, `g`, `b` and the number `count` of samples added. */
  datatype Acc = Acc(r: nat, g: nat, b: nat, count: nat)

  const Empty := Acc(0, 0, 0, 0)

  /** The number of iterations of `for (let k = 0; k < t; k++)`: the least
      natural number that is not below t. */
  function Steps(t: real): (n: nat)
    ensures t <= n as real
    ensures n > 0 ==> ((n - 1) as real) < t
  {
    if t <= 0.0 then 0 else if t.Floor as real == t then t.Floor else t.Floor + 1
  }

  // ---------------------------------------------------------------------------
  // Where a cell's window lies

  /** `width / gridSize`: how many source pixels one cell spans along an axis. */
  function PixelWidth(width: nat, gridSize: nat): (w: real)
    requires gridSize > 0
    ensures w >= 0.0 && (width > 0 ==> w > 0.0)
  {
    width as real / gridSize as real
  }

  lemma ScaledBelow(x: nat, gridSize: nat, extent: nat)
    requires gridSize > 0
    ensures x < gridSize && extent > 0 ==> (x as real) * (extent as real / gridSize as real) < extent as real
  {
    if x >= gridSize || extent == 0 {
      return;
    }
    var q := extent as real / gridSize as real;
    assert q * (gridSize as real) == extent as real;
    assert q > 0.0;
    assert (x as real) * q <= ((gridSize - 1) as real) * q;
    assert ((gridSize - 1) as real) * q == (gridSize as real) * q - q;
  }

  lemma ScaledNonNegative(x: nat, q: real)
    requires q >= 0.0
    ensures (x as real) * q >= 0.0
  {
  }

  /** The first source column (row) that grid column (row) k samples,
      `Math.floor(k * pixelWidth)` for an image `extent` pixels wide (high): inside
      the image whenever the image is not empty and k is on the grid. */
  function AxisStart(extent: nat, gridSize: nat, k: nat): (c: nat)
    requires gridSize > 0
    ensures k < gridSize && extent > 0 ==> c < extent
  {
    ScaledNonNegative(k, PixelWidth(extent, gridSize));
    ScaledBelow(k, gridSize, extent);
    ((k as real) * PixelWidth(extent, gridSize)).Floor
  }

  /** The byte offset of a cell's first sample: row `Math.floor(y * pixelHeight)`,
      column `Math.floor(x * pixelWidth)`, four bytes per pixel. */
  function WindowStart(width: nat, height: nat, gridSize: nat, x: nat, y: nat): (s: nat)
    requires gridSize > 0
    ensures s % 4 == 0
  {
    (AxisStart(height, gridSize, y) * width + AxisStart(width, gridSize, x)) * 4
  }

  /** The byte offset `i` of sample (py, px) of a window. */
  function SampleIndex(start: nat, width: nat, py: nat, px: nat): (i: nat)
    ensures start % 4 == 0 ==> i % 4 == 0
  {
    var pixel := py * width + px;
    start + pixel * 4
  }

  /** A pixel that starts inside a buffer of whole pixels ends inside it. */
  lemma WholePixel(i: nat, n: nat)
    requires i % 4 == 0 && n % 4 == 0 && i < n
    ensures i + 3 < n
  {
    assert i == 4 * (i / 4) && n == 4 * (n / 4);
  }

  // ---------------------------------------------------------------------------
  // What a cell accumulates

  /** One iteration of the innermost loop: a sample in the buffer is added,
      one past its end is skipped. */
  function AddSample(data: seq<byte>, acc: Acc, i: nat): (r: Acc)
    requires |data| % 4 == 0 && i % 4 == 0
  {
    if i < |data| then
      WholePixel(i, |data|);
      Acc(acc.r + data[i], acc.g + data[i + 1], acc.b + data[i + 2], acc.count + 1)
    else acc
  }

  /** The sums after the first n samples of row py, starting from `acc`. */
  function RowAcc(data: seq<byte>, acc: Acc, start: nat, width: nat, py: nat, n: nat): Acc
    requires |data| % 4 == 0 && start % 4 == 0
  {
    if n == 0 then acc
    else AddSample(data, RowAcc(data, acc, start, width, py, n - 1), SampleIndex(start, width, py, n - 1))
  }

  /** The sums after the first `rows` rows of `cols` samples each. */
  function WindowAcc(data: seq<byte>, start: nat, width: nat, rows: nat, cols: nat): Acc
    requires |data| % 4 == 0 && start % 4 == 0
  {
    if rows == 0 then Empty
    else RowAcc(data, WindowAcc(data, start, width, rows - 1, cols), start, width, rows - 1, cols)
  }

  /** The sums of cell (x, y). */
  function Window(data: seq<byte>, width: nat, height: nat, gridSize: nat, x: nat, y: nat): Acc
    requires |data| % 4 == 0 && gridSize > 0
  {
    WindowAcc(data, WindowStart(width, height, gridSize, x, y), width,
              Steps(PixelWidth(height, gridSize)), Steps(PixelWidth(width, gridSize)))
  }

  /** `Math.round(sum / count)`: the nearest integer, halves rounded up. */
  function RoundedMean(sum: nat, count: nat): int
    requires count > 0
  {
    ((sum as real) / (count as real) + 0.5).Floor
  }

  function ColourOf(acc: Acc): Colour {
    if acc.count == 0 then NaNColour
    else Rgb(RoundedMean(acc.r, acc.count), RoundedMean(acc.g, acc.count), RoundedMean(acc.b, acc.count))
  }

  /** The distance between neighbouring cells, `100 / gridSize` percent. */
  function Spacing(gridSize: nat): real
    requires gridSize > 0
  {
    100.0 / gridSize as real
  }

  /** p is the particle the worker emits for cell (x, y). */
  predicate IsCell(data: seq<byte>, width: nat, height: nat, gridSize: nat, x: nat, y: nat, p: Particle)
    requires |data| % 4 == 0 && gridSize > 0
  {
    && p.x == (x as real) * Spacing(gridSize)
    && p.y == (y as real) * Spacing(gridSize)
    && p.originalX == p.x && p.originalY == p.y
    && p.vx == 0.0 && p.vy == 0.0
    && p.color == ColourOf(Window(data, width, height, gridSize, x, y))
  }

  // ---------------------------------------------------------------------------
  // The worker's loops

  /** The two inner loops of the worker: sums and count over one window. */
  method AccumulateWindow(data: array<byte>, start: nat, width: nat, pixelWidth: real, pixelHeight: real)
    returns (r: nat, g: nat, b: nat, count: nat)
    requires data.Length % 4 == 0 && start % 4 == 0
    ensures Acc(r, g, b, count) == WindowAcc(data[..], start, width, Steps(pixelHeight), Steps(pixelWidth))
  {
    r, g, b, count := 0, 0, 0, 0;
    var py: nat := 0;
    while (py as real) < pixelHeight
      invariant py <= Steps(pixelHeight)
      invariant Acc(r, g, b, count) == WindowAcc(data[..], start, width, py, Steps(pixelWidth))
      decreases Steps(pixelHeight) - py
    {
      ghost var rowStart := Acc(r, g, b, count);
      var px: nat := 0;
      while (px as real) < pixelWidth
        invariant px <= Steps(pixelWidth)
        invariant Acc(r, g, b, count) == RowAcc(data[..], rowStart, start, width, py, px)
        decreases Steps(pixelWidth) - px
      {
        var i := SampleIndex(start, width, py, px);
        if i < data.Length {
          WholePixel(i, data.Length);
          r := r + data[i];
          g := g + data[i + 1];
          b := b + data[i + 2];
          count := count + 1;
        }
        px := px + 1;
      }
      py := py + 1;
    }
  }

  /** The body of the two outer loops: the particle of cell (x, y). */
  method SampleCell(data: array<byte>, width: nat, height: nat, gridSize: nat, x: nat, y: nat) returns (p: Particle)
    requires data.Length % 4 == 0 && gridSize > 0
    ensures IsCell(data[..], width, height, gridSize, x, y, p)
  {
    var pixelWidth := PixelWidth(width, gridSize);
    var pixelHeight := PixelWidth(height, gridSize);
    var startIndex := (AxisStart(height, gridSize, y) * width + AxisStart(width, gridSize, x)) * 4;
    var r, g, b, count := AccumulateWindow(data, startIndex, width, pixelWidth, pixelHeight);
    var xPos := (x as real) * (100.0 / gridSize as real);
    var yPos := (y as real) * (100.0 / gridSize as real);
    var color := if count == 0 then NaNColour
                 else Rgb(RoundedMean(r, count), RoundedMean(g, count), RoundedMean(b, count));
    p := Particle(color, xPos, yPos, xPos, yPos, 0.0, 0.0);
  }

  lemma {:induction false} MulAtLeast(a: int, g: nat)
    requires a >= 1
    ensures a * g >= g
  {
    if a > 1 {
      MulAtLeast(a - 1, g);
      assert a * g == (a - 1) * g + g;
    }
  }

  /** Cell (x, y) is number y * gridSize + x of the row-major list. */
  lemma RowMajor(gridSize: nat, x: nat, y: nat)
    requires x < gridSize
    ensures (y * gridSize + x) % gridSize == x && (y * gridSize + x) / gridSize == y
  {
    var k := y * gridSize + x;
    var q, m := k / gridSize, k % gridSize;
    assert k == q * gridSize + m && 0 <= m < gridSize;
    assert (y - q) * gridSize == m - x;
    if y - q >= 1 {
      MulAtLeast(y - q, gridSize);
      assert false;
    } else if q - y >= 1 {
      MulAtLeast(q - y, gridSize);
      assert false;
    }
  }

  /** Every particle of ps is the cell its place in the row-major list names. */
  predicate AllCells(data: seq<byte>, width: nat, height: nat, gridSize: nat, ps: seq<Particle>)
    requires |data| % 4 == 0 && gridSize > 0
  {
    forall k :: 0 <= k < |ps| ==> IsCell(data, width, height, gridSize, k % gridSize, k / gridSize, ps[k])
  }

  /** Appending cell (x, y) at place y * gridSize + x keeps the list row-major. */
  lemma AppendCell(data: seq<byte>, width: nat, height: nat, gridSize: nat, ps: seq<Particle>, x: nat, y: nat, p: Particle)
    requires |data| % 4 == 0 && gridSize > 0 && x < gridSize
    requires AllCells(data, width, height, gridSize, ps) && |ps| == y * gridSize + x
    requires IsCell(data, width, height, gridSize, x, y, p)
    ensures AllCells(data, width, height, gridSize, ps + [p])
  {
    RowMajor(gridSize, x, y);
    var ps' := ps + [p];
    forall k | 0 <= k < |ps'|
      ensures IsCell(data, width, height, gridSize, k % gridSize, k / gridSize, ps'[k])
    {
      if k < |ps| {
        assert ps'[k] == ps[k];
      }
    }
  }

  /** The worker's message handler: cells in row-major order, y outer and x inner. */
  method Sample(data: array<byte>, width: nat, height: nat, gridSize: nat) returns (particles: seq<Particle>)
    requires data.Length % 4 == 0
    ensures |particles| == gridSize * gridSize
    ensures forall k :: 0 <= k < |particles| ==>
      gridSize > 0 && IsCell(data[..], width, height, gridSize, k % gridSize, k / gridSize, particles[k])
  {
    particles := [];
    if gridSize == 0 {
      return;
    }
    for y := 0 to gridSize
      invariant |particles| == y * gridSize
      invariant AllCells(data[..], width, height, gridSize, particles)
    {
      for x := 0 to gridSize
        invariant |particles| == y * gridSize + x
        invariant AllCells(data[..], width, height, gridSize, particles)
      {
        var p := SampleCell(data, width, height, gridSize, x, y);
        AppendCell(data[..], width, height, gridSize, particles, x, y, p);
        particles := particles + [p];
      }
      assert y * gridSize + gridSize == (y + 1) * gridSize;
    }
  }

  // ---------------------------------------------------------------------------
  // Properties

  /** A sample that passes the buffer guard has its green and blue bytes in the
      buffer too, since buffer length and index are multiples of four. */
  lemma SampleInBounds(data: seq<byte>, start: nat, width: nat, py: nat, px: nat)
    requires |data| % 4 == 0 && start % 4 == 0
    requires SampleIndex(start, width, py, px) < |data|
    ensures SampleIndex(start, width, py, px) + 3 < |data|
  {
  }

  /** Each channel sum is at most 255 per counted sample, and no window counts
      more samples than it has positions. */
  predicate Bounded(acc: Acc) {
    acc.r <= 255 * acc.count && acc.g <= 255 * acc.count && acc.b <= 255 * acc.count
  }

  lemma {:induction false} RowAccBounded(data: seq<byte>, acc: Acc, start: nat, width: nat, py: nat, n: nat)
    requires |data| % 4 == 0 && start % 4 == 0
    requires Bounded(acc)
    ensures Bounded(RowAcc(data, acc, start, width, py, n))
    ensures acc.count <= RowAcc(data, acc, start, width, py, n).count <= acc.count + n
  {
    if n > 0 {
      RowAccBounded(data, acc, start, width, py, n - 1);
    }
  }

  lemma {:induction false} WindowAccBounded(data: seq<byte>, start: nat, width: nat, rows: nat, cols: nat)
    requires |data| % 4 == 0 && start % 4 == 0
    ensures Bounded(WindowAcc(data, start, width, rows, cols))
    ensures WindowAcc(data, start, width, rows, cols).count <= rows * cols
  {
    if rows > 0 {
      WindowAccBounded(data, start, width, rows - 1, cols);
      RowAccBounded(data, WindowAcc(data, start, width, rows - 1, cols), start, width, rows - 1, cols);
      assert (rows - 1) * cols + cols == rows * cols;
    }
  }

  /** Every cell's channels are bounded by 255 per sample, and every colour
      component lies in 0..255. */
  lemma CellBounded(data: seq<byte>, width: nat, height: nat, gridSize: nat, x: nat, y: nat)
    requires |data| % 4 == 0 && gridSize > 0
    ensures Bounded(Window(data, width, height, gridSize, x, y))
    ensures ColourOf(Window(data, width, height, gridSize, x, y)).Rgb? ==>
      var c := ColourOf(Window(data, width, height, gridSize, x, y));
      0 <= c.r <= 255 && 0 <= c.g <= 255 && 0 <= c.b <= 255
  {
    var acc := Window(data, width, height, gridSize, x, y);
    WindowAccBounded(data, WindowStart(width, height, gridSize, x, y), width,
                     Steps(PixelWidth(height, gridSize)), Steps(PixelWidth(width, gridSize)));
    if acc.count > 0 {
      MeanBounded(acc.r, acc.count);
      MeanBounded(acc.g, acc.count);
      MeanBounded(acc.b, acc.count);
    }
  }

  lemma MeanBounded(sum: nat, count: nat)
    requires count > 0 && sum <= 255 * count
    ensures 0 <= RoundedMean(sum, count) <= 255
  {
    var m := (sum as real) / (count as real);
    assert m * (count as real) == sum as real;
    assert (sum as real) <= 255.0 * (count as real);
    assert m <= 255.0;
  }

  /** Every pixel of the buffer has the colour c. */
  predicate Uniform(data: seq<byte>, c: Colour)
    requires |data| % 4 == 0
  {
    c.Rgb? && forall i :: 0 <= i < |data| && i % 4 == 0 ==> data[i] == c.r && data[i + 1] == c.g && data[i + 2] == c.b
  }

  /** The sums are the colour times the count. */
  predicate Proportional(acc: Acc, c: Colour)
    requires c.Rgb?
  {
    acc.r == c.r * acc.count && acc.g == c.g * acc.count && acc.b == c.b * acc.count
  }

  lemma MulSucc(a: nat, n: nat)
    ensures a * n + a == a * (n + 1)
  {
  }

  lemma AddSampleUniform(data: seq<byte>, c: Colour, acc: Acc, i: nat)
    requires |data| % 4 == 0 && i % 4 == 0 && Uniform(data, c)
    requires Proportional(acc, c)
    ensures Proportional(AddSample(data, acc, i), c)
  {
    if i < |data| {
      assert data[i] == c.r && data[i + 1] == c.g && data[i + 2] == c.b;
      MulSucc(c.r, acc.count);
      MulSucc(c.g, acc.count);
      MulSucc(c.b, acc.count);
    }
  }

  lemma {:induction false} RowAccUniform(data: seq<byte>, c: Colour, acc: Acc, start: nat, width: nat, py: nat, n: nat)
    requires |data| % 4 == 0 && start % 4 == 0 && Uniform(data, c)
    requires Proportional(acc, c)
    ensures Proportional(RowAcc(data, acc, start, width, py, n), c)
  {
    if n > 0 {
      RowAccUniform(data, c, acc, start, width, py, n - 1);
      AddSampleUniform(data, c, RowAcc(data, acc, start, width, py, n - 1), SampleIndex(start, width, py, n - 1));
    }
  }

  lemma {:induction false} WindowAccUniform(data: seq<byte>, c: Colour, start: nat, width: nat, rows: nat, cols: nat)
    requires |data| % 4 == 0 && start % 4 == 0 && Uniform(data, c)
    ensures Proportional(WindowAcc(data, start, width, rows, cols), c)
  {
    if rows > 0 {
      WindowAccUniform(data, c, start, width, rows - 1, cols);
      RowAccUniform(data, c, WindowAcc(data, start, width, rows - 1, cols), start, width, rows - 1, cols);
    }
  }

  lemma MeanOfEqual(v: nat, count: nat)
    requires count > 0
    ensures RoundedMean(v * count, count) == v
  {
    assert ((v * count) as real) == (v as real) * (count as real);
    assert ((v * count) as real) / (count as real) == v as real;
  }

  /** In an image of one colour, every cell that sampled a pixel has exactly that colour. */
  lemma UniformImage(data: seq<byte>, c: Colour, width: nat, height: nat, gridSize: nat, x: nat, y: nat)
    requires |data| % 4 == 0 && gridSize > 0 && Uniform(data, c)
    requires Window(data, width, height, gridSize, x, y).count > 0
    ensures ColourOf(Window(data, width, height, gridSize, x, y)) == c
  {
    var acc := Window(data, width, height, gridSize, x, y);
    WindowAccUniform(data, c, WindowStart(width, height, gridSize, x, y), width,
                     Steps(PixelWidth(height, gridSize)), Steps(PixelWidth(width, gridSize)));
    MeanOfEqual(c.r, acc.count);
    MeanOfEqual(c.g, acc.count);
    MeanOfEqual(c.b, acc.count);
  }

  lemma {:induction false} RowAccCountsFirst(data: seq<byte>, acc: Acc, start: nat, width: nat, n: nat)
    requires |data| % 4 == 0 && start % 4 == 0 && start < |data| && n > 0
    ensures RowAcc(data, acc, start, width, 0, n).count > acc.count
  {
    if n > 1 {
      RowAccCountsFirst(data, acc, start, width, n - 1);
    } else {
      assert SampleIndex(start, width, 0, 0) == start;
    }
  }

  lemma {:induction false} WindowAccCountsFirst(data: seq<byte>, start: nat, width: nat, rows: nat, cols: nat)
    requires |data| % 4 == 0 && start % 4 == 0 && start < |data| && rows > 0 && cols > 0
    ensures WindowAcc(data, start, width, rows, cols).count > 0
  {
    if rows == 1 {
      RowAccCountsFirst(data, Empty, start, width, cols);
    } else {
      WindowAccCountsFirst(data, start, width, rows - 1, cols);
      WindowAccBounded(data, start, width, rows - 1, cols);
      RowAccBounded(data, WindowAcc(data, start, width, rows - 1, cols), start, width, rows - 1, cols);
    }
  }

  lemma PixelInImage(row: nat, col: nat, width: nat, height: nat)
    requires row < height && col < width
    ensures (row * width + col) * 4 < 4 * (width * height)
  {
    assert row * width + col < (row + 1) * width;
    assert (row + 1) * width <= height * width;
  }

  /** When the buffer holds the whole width x height image, every cell of the
      grid samples at least one pixel, so no cell gets the NaN colour. */
  lemma FullBufferColoursEveryCell(data: seq<byte>, width: nat, height: nat, gridSize: nat, x: nat, y: nat)
    requires |data| == 4 * (width * height) && width > 0 && height > 0
    requires x < gridSize && y < gridSize
    ensures Window(data, width, height, gridSize, x, y).count > 0
    ensures ColourOf(Window(data, width, height, gridSize, x, y)).Rgb?
  {
    var row := AxisStart(height, gridSize, y);
    var col := AxisStart(width, gridSize, x);
    PixelInImage(row, col, width, height);
    var start := WindowStart(width, height, gridSize, x, y);
    assert start == (row * width + col) * 4;
    var rows := Steps(PixelWidth(height, gridSize));
    var cols := Steps(PixelWidth(width, gridSize));
    WindowAccCountsFirst(data, start, width, rows, cols);
    assert Window(data, width, height, gridSize, x, y) == WindowAcc(data, start, width, rows, cols);
  }

  /** The scenario of a 100 x 100 image of pure red sampled on a 10 x 10 grid:
      one hundred particles, all red, ten percent apart. */
  method SampleRedSquare(data: array<byte>) returns (particles: seq<Particle>)
    requires data.Length == 4 * (100 * 100) && Uniform(data[..], Rgb(255, 0, 0))
    ensures |particles| == 100
    ensures forall k :: 0 <= k < 100 ==>
      && particles[k].color == Rgb(255, 0, 0)
      && particles[k].x == ((k % 10) as real) * 10.0
      && particles[k].y == ((k / 10) as real) * 10.0
  {
    particles := Sample(data, 100, 100, 10);
    forall k | 0 <= k < 100
      ensures particles[k].color == Rgb(255, 0, 0)
    {
      FullBufferColoursEveryCell(data[..], 100, 100, 10, k % 10, k / 10);
      UniformImage(data[..], Rgb(255, 0, 0), 100, 100, 10, k % 10, k / 10);
    }
  }
}
