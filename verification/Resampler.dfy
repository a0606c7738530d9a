/**
  The image resampler of mms_attachment_image.c: a line buffer, a row of sums, and one output
  line for every block of input lines, written back into the same line buffer. Lines are RGB,
  three octets a pixel; the codecs are the lines they deliver and the lines they accept.
*/
module Resampler {
  import opened Common

  type Line = seq<Byte>

  datatype Size = Size(width: nat, height: nat)

  // --------------------------------------------------------------- which step

  function Scaled(s: Size, step: nat): Size {
    Size(s.width / (step + 1), s.height / (step + 1))
  }

  function Pixels(s: Size, step: nat): nat {
    Product(Scaled(s, step).width, Scaled(s, step).height)
  }

  function Product(a: nat, b: nat): nat {
    a * b
  }

  lemma ProductMonotone(a: nat, b: nat, c: nat, d: nat)
    requires a <= c && b <= d
    ensures Product(a, b) <= Product(c, d)
  {
    assert a * b <= c * b <= c * d;
  }

  lemma QuotientMonotone(n: nat, a: nat, b: nat)
    requires 0 < a <= b
    ensures n / b <= n / a
  {
    if n / b > n / a {
      ProductMonotone(n / a + 1, a, n / b, b);
    }
  }

  lemma PixelsShrink(s: Size, a: nat, b: nat)
    requires a <= b
    ensures Pixels(s, b) <= Pixels(s, a)
  {
    QuotientMonotone(s.width, a + 1, b + 1);
    QuotientMonotone(s.height, a + 1, b + 1);
    ProductMonotone(Scaled(s, b).width, Scaled(s, b).height, Scaled(s, a).width, Scaled(s, a).height);
  }

  lemma SomeLeft(s: Size, step: nat)
    ensures Pixels(s, step) > 0 <==> step < s.width && step < s.height
  {
    var scaled := Scaled(s, step);
    assert scaled.width > 0 <==> step < s.width;
    assert scaled.height > 0 <==> step < s.height;
    assert scaled.width > 0 && scaled.height > 0 ==> Product(scaled.width, scaled.height) > 0;
  }

  function NextStep(s: Size, step: nat, maxPixels: nat): nat
    decreases s.width - step
  {
    SomeLeft(s, step + 1);
    if maxPixels > 0 && Pixels(s, step + 1) > maxPixels then NextStep(s, step + 1, maxPixels) else step + 1
  }

  /** mms_attachment_image_next_resize_step; the limit zero stands for no limit. */
  method NextResizeStep(s: Size, step: nat, maxPixels: nat) returns (next: nat)
    ensures next == NextStep(s, step, maxPixels)
  {
    next := step + 1;
    if maxPixels > 0 {
      var size := Pixels(s, next);
      while size > 0 && size > maxPixels
        invariant next > step && size == Pixels(s, next)
        invariant NextStep(s, step, maxPixels) == NextStep(s, next - 1, maxPixels)
        decreases s.width - next
      {
        SomeLeft(s, next);
        next := next + 1;
        size := Pixels(s, next);
      }
    }
  }

  /** The next step is the first one after the current that is within the limit. */
  lemma {:induction false} NextStepIsLeast(s: Size, step: nat, maxPixels: nat)
    ensures var next := NextStep(s, step, maxPixels);
      && next > step
      && (maxPixels == 0 ==> next == step + 1)
      && (maxPixels > 0 ==> Pixels(s, next) <= maxPixels)
      && forall n :: step < n < next ==> Pixels(s, n) > maxPixels
    decreases s.width - step
  {
    SomeLeft(s, step + 1);
    if maxPixels > 0 && Pixels(s, step + 1) > maxPixels {
      NextStepIsLeast(s, step + 1, maxPixels);
    }
  }

  /** Something is left of the image exactly when some later step is within the limit and not
      empty. */
  lemma {:induction false} NotEmptied(s: Size, step: nat, maxPixels: nat)
    ensures Pixels(s, NextStep(s, step, maxPixels)) > 0
      <==> exists n :: n > step && Pixels(s, n) > 0 && (maxPixels == 0 || Pixels(s, n) <= maxPixels)
  {
    var next := NextStep(s, step, maxPixels);
    NextStepIsLeast(s, step, maxPixels);
    forall n | n > step && Pixels(s, n) > 0 && (maxPixels == 0 || Pixels(s, n) <= maxPixels)
      ensures Pixels(s, next) > 0
    {
      if next <= n {
        PixelsShrink(s, next, n);
      }
    }
  }

  /** What a caller can ask beforehand: the smaller side allows one more step, and the last
      step it allows is within the limit. */
  predicate LeavesSomething(s: Size, step: nat, maxPixels: nat) {
    var side := Min(s.width, s.height);
    side >= step + 2 && (maxPixels == 0 || Pixels(s, side - 1) <= maxPixels)
  }

  /** Something is left of the image exactly then. */
  lemma {:induction false} LeftExactly(s: Size, step: nat, maxPixels: nat)
    ensures Pixels(s, NextStep(s, step, maxPixels)) > 0 <==> LeavesSomething(s, step, maxPixels)
  {
    var side := Min(s.width, s.height);
    NotEmptied(s, step, maxPixels);
    if side >= 1 {
      SomeLeft(s, side - 1);
    }
    forall n | n > step && Pixels(s, n) > 0 && (maxPixels == 0 || Pixels(s, n) <= maxPixels)
      ensures LeavesSomething(s, step, maxPixels)
    {
      SomeLeft(s, n);
      PixelsShrink(s, n, side - 1);
    }
  }

  /** An image that is one pixel wide is gone at the first step, whatever the limit. */
  lemma {:induction false} OneColumnEmptied(height: nat, maxPixels: nat)
    ensures Pixels(Size(1, height), NextStep(Size(1, height), 0, maxPixels)) == 0
  {
    LeftExactly(Size(1, height), 0, maxPixels);
  }

  // ------------------------------------------------------------ block averages

  /** One colour of `k` pixels of a line, from pixel `base`. */
  function RowSum(row: Line, base: nat, k: nat, colour: nat): nat
    requires colour < 3 && 3 * (base + k) <= |row|
  {
    if k == 0 then 0 else RowSum(row, base, k - 1, colour) + row[3 * (base + k - 1) + colour]
  }

  predicate AllWide(lines: seq<Line>, width: nat) {
    forall r :: 0 <= r < |lines| ==> |lines[r]| == 3 * width
  }

  /** One colour of a block of pixels. */
  function BlockSum(lines: seq<Line>, width: nat, top: nat, rows: nat, base: nat, nx: nat, colour: nat): nat
    requires colour < 3 && top + rows <= |lines| && base + nx <= width && AllWide(lines, width)
  {
    if rows == 0 then 0
    else
      BlockSum(lines, width, top, rows - 1, base, nx, colour)
        + RowSum(lines[top + rows - 1], base, nx, colour)
  }

  lemma {:induction false} RowSumBound(row: Line, base: nat, k: nat, colour: nat)
    requires colour < 3 && 3 * (base + k) <= |row|
    ensures RowSum(row, base, k, colour) <= 255 * k
  {
    if k > 0 {
      RowSumBound(row, base, k - 1, colour);
    }
  }

  lemma {:induction false} BlockSumBound(lines: seq<Line>, width: nat, top: nat, rows: nat, base: nat, nx: nat, colour: nat)
    requires colour < 3 && top + rows <= |lines| && base + nx <= width && AllWide(lines, width)
    ensures BlockSum(lines, width, top, rows, base, nx, colour) <= 255 * Product(rows, nx)
  {
    if rows > 0 {
      BlockSumBound(lines, width, top, rows - 1, base, nx, colour);
      RowSumBound(lines[top + rows - 1], base, nx, colour);
      assert Product(rows, nx) == Product(rows - 1, nx) + nx;
    }
  }

  lemma BlockFits(x: nat, n: nat, size: nat, total: nat)
    requires x < size && Product(size, n) <= total
    ensures Product(x, n) + n <= total
  {
    ProductMonotone(x + 1, n, size, n);
  }

  /** Octet `c` of output line `j`: the floor of the mean of its block. */
  function Mean(lines: seq<Line>, width: nat, nx: nat, ny: nat, j: nat, c: nat): (m: Byte)
    requires nx > 0 && ny > 0 && AllWide(lines, width)
    requires Product(j, ny) + ny <= |lines| && Product(c / 3, nx) + nx <= width
  {
    var top, base := Product(j, ny), Product(c / 3, nx);
    BlockSumBound(lines, width, top, ny, base, nx, c % 3);
    Quotient(BlockSum(lines, width, top, ny, base, nx, c % 3), Product(ny, nx))
  }

  lemma MeanIsByte(sum: nat, n: nat)
    requires sum <= 255 * n
    ensures n > 0 ==> sum / n < 256
  {
    if n > 0 {
      assert sum / n <= 255 * n / n == 255;
    }
  }

  function Quotient(sum: nat, n: nat): Byte
    requires n > 0 && sum <= 255 * n
  {
    MeanIsByte(sum, n);
    sum / n
  }

  function Shade(row: Line, x: nat, colour: nat): Byte
    requires colour < 3 && 3 * x + colour < |row|
  {
    row[3 * x + colour]
  }

  /** All of one colour in a block is between `lo` and `hi`. */
  predicate Between(lines: seq<Line>, width: nat, top: nat, rows: nat, base: nat, nx: nat, colour: nat, lo: Byte, hi: Byte)
    requires colour < 3 && top + rows <= |lines| && base + nx <= width && AllWide(lines, width)
  {
    forall y, x :: top <= y < top + rows && base <= x < base + nx ==> lo <= Shade(lines[y], x, colour) <= hi
  }

  lemma {:induction false} RowSumBetween(row: Line, base: nat, k: nat, colour: nat, lo: Byte, hi: Byte)
    requires colour < 3 && 3 * (base + k) <= |row|
    requires forall x :: base <= x < base + k ==> lo <= Shade(row, x, colour) <= hi
    ensures Product(k, lo) <= RowSum(row, base, k, colour) <= Product(k, hi)
  {
    if k > 0 {
      RowSumBetween(row, base, k - 1, colour, lo, hi);
      assert lo <= Shade(row, base + k - 1, colour) <= hi;
      assert Product(k, lo) == Product(k - 1, lo) + lo && Product(k, hi) == Product(k - 1, hi) + hi;
    }
  }

  lemma {:induction false} BlockSumBetween(lines: seq<Line>, width: nat, top: nat, rows: nat, base: nat, nx: nat,
                                           colour: nat, lo: Byte, hi: Byte)
    requires colour < 3 && top + rows <= |lines| && base + nx <= width && AllWide(lines, width)
    requires Between(lines, width, top, rows, base, nx, colour, lo, hi)
    ensures Product(rows, Product(nx, lo)) <= BlockSum(lines, width, top, rows, base, nx, colour)
      <= Product(rows, Product(nx, hi))
  {
    if rows > 0 {
      BlockSumBetween(lines, width, top, rows - 1, base, nx, colour, lo, hi);
      var y := top + rows - 1;
      RowSumBetween(lines[y], base, nx, colour, lo, hi);
      assert Product(rows, Product(nx, lo)) == Product(rows - 1, Product(nx, lo)) + Product(nx, lo);
      assert Product(rows, Product(nx, hi)) == Product(rows - 1, Product(nx, hi)) + Product(nx, hi);
    }
  }

  lemma ProductTwice(a: nat, b: nat, c: nat)
    ensures Product(a, Product(b, c)) == Product(c, Product(a, b))
  {
    assert a * (b * c) == c * (a * b);
  }

  lemma QuotientBetween(sum: nat, n: nat, lo: nat, hi: nat)
    requires n > 0 && Product(lo, n) <= sum <= Product(hi, n)
    ensures lo <= sum / n <= hi
  {
    var q := sum / n;
    assert sum == Product(q, n) + sum % n;
    assert Product(q + 1, n) == Product(q, n) + n && Product(hi + 1, n) == Product(hi, n) + n;
    if q < lo {
      ProductMonotone(q + 1, n, lo, n);
    }
    if q > hi {
      ProductMonotone(hi + 1, n, q, n);
    }
  }

  /** The mean is never darker than the darkest and never lighter than the lightest octet of its
      block; of a block of one shade it is that shade. */
  lemma MeanBetween(lines: seq<Line>, width: nat, nx: nat, ny: nat, j: nat, c: nat, lo: Byte, hi: Byte)
    requires nx > 0 && ny > 0 && AllWide(lines, width)
    requires Product(j, ny) + ny <= |lines| && Product(c / 3, nx) + nx <= width
    requires Between(lines, width, Product(j, ny), ny, Product(c / 3, nx), nx, c % 3, lo, hi)
    ensures lo <= Mean(lines, width, nx, ny, j, c) <= hi
  {
    hide BlockSum, Between;
    var top, base := Product(j, ny), Product(c / 3, nx);
    BlockSumBound(lines, width, top, ny, base, nx, c % 3);
    BlockSumBetween(lines, width, top, ny, base, nx, c % 3, lo, hi);
    assert Product(ny, nx) > 0;
    ProductTwice(ny, nx, lo);
    ProductTwice(ny, nx, hi);
    QuotientBetween(BlockSum(lines, width, top, ny, base, nx, c % 3), Product(ny, nx), lo, hi);
  }

  function Averaged(lines: seq<Line>, width: nat, out: nat, nx: nat, ny: nat, j: nat): (r: Line)
    requires nx > 0 && ny > 0 && AllWide(lines, width)
    requires Product(j, ny) + ny <= |lines| && Product(out, nx) <= width
  {
    seq(3 * out, c requires 0 <= c < 3 * out =>
      (BlockFits(c / 3, nx, out, width);
      Mean(lines, width, nx, ny, j, c)))
  }

  // ------------------------------------------------------------------ in place

  /** The first `n` sums have grown by the pixels of `row`, the others have not changed. */
  predicate Added(sums: seq<nat>, before: seq<nat>, row: Line, nx: nat, n: nat) {
    && |sums| == |before|
    && (forall c :: 0 <= c < n && c < |sums| ==>
      && 3 * (Product(c / 3, nx) + nx) <= |row|
      && sums[c] == before[c] + RowSum(row, Product(c / 3, nx), nx, c % 3))
    && (forall c :: n <= c < |sums| ==> sums[c] == before[c])
  }

  /** The inner loops: every output pixel adds its `nx` input pixels, colour by colour. */
  method AddLine(line: array<Byte>, buf: array<nat>, width: nat, out: nat, nx: nat)
    requires line.Length == 3 * width && buf.Length == 3 * out && Product(out, nx) <= width
    modifies buf
    ensures Added(buf[..], old(buf[..]), line[..], nx, 3 * out)
  {
    var p := 0;
    ghost var row := line[..];
    for x := 0 to out
      invariant p == 3 * Product(x, nx)
      invariant Added(buf[..], old(buf[..]), row, nx, 3 * x)
    {
      BlockFits(x, nx, out, width);
      ghost var before := buf[..];
      AddPixels(line, p, buf, 3 * x, Product(x, nx), nx);
      assert line[..] == row;
      OnePixel(buf[..], before, old(buf[..]), row, nx, x);
      p := p + 3 * nx;
      assert Product(x + 1, nx) == Product(x, nx) + nx;
    }
  }

  lemma {:induction false} OnePixel(sums: seq<nat>, before: seq<nat>, first: seq<nat>, row: Line, nx: nat, x: nat)
    requires Added(before, first, row, nx, 3 * x) && |sums| == |before| && 3 * x + 3 <= |sums|
    requires 3 * (Product(x, nx) + nx) <= |row|
    requires forall colour :: 0 <= colour < 3 ==>
      sums[3 * x + colour] == before[3 * x + colour] + RowSum(row, Product(x, nx), nx, colour)
    requires forall c :: 0 <= c < |sums| && !(3 * x <= c < 3 * x + 3) ==> sums[c] == before[c]
    ensures Added(sums, first, row, nx, 3 * x + 3)
  {
    forall c | 0 <= c < 3 * x + 3
      ensures 3 * (Product(c / 3, nx) + nx) <= |row|
      ensures sums[c] == first[c] + RowSum(row, Product(c / 3, nx), nx, c % 3)
    {
      if c >= 3 * x {
        assert c / 3 == x && c == 3 * x + c % 3;
      }
    }
  }

  method AddPixels(line: array<Byte>, start: nat, buf: array<nat>, b: nat, base: nat, nx: nat)
    requires start == 3 * base && 3 * (base + nx) <= line.Length && b + 3 <= buf.Length
    modifies buf
    ensures forall colour :: 0 <= colour < 3 ==>
      buf[..][b + colour] == old(buf[..])[b + colour] + RowSum(line[..], base, nx, colour)
    ensures forall c :: 0 <= c < buf.Length && !(b <= c < b + 3) ==> buf[..][c] == old(buf[..])[c]
  {
    var p := start;
    ghost var row := line[..];
    for k := 0 to nx
      invariant p == 3 * (base + k)
      invariant buf[b] == old(buf[b]) + RowSum(row, base, k, 0)
      invariant buf[b + 1] == old(buf[b + 1]) + RowSum(row, base, k, 1)
      invariant buf[b + 2] == old(buf[b + 2]) + RowSum(row, base, k, 2)
      invariant forall c :: 0 <= c < buf.Length && !(b <= c < b + 3) ==> buf[c] == old(buf[c])
    {
      buf[b] := buf[b] + line[p];
      buf[b + 1] := buf[b + 1] + line[p + 1];
      buf[b + 2] := buf[b + 2] + line[p + 2];
      p := p + 3;
    }
  }

  /** The averages, written over the start of the line buffer. */
  method AverageInto(buf: array<nat>, line: array<Byte>, denominator: nat)
    requires denominator > 0 && buf.Length <= line.Length
    requires forall c :: 0 <= c < buf.Length ==> buf[c] <= 255 * denominator
    modifies line
    ensures forall c :: 0 <= c < buf.Length ==> line[c] == Quotient(buf[c], denominator)
  {
    for c := 0 to buf.Length
      invariant forall d :: 0 <= d < c ==> line[d] == Quotient(buf[d], denominator)
    {
      MeanIsByte(buf[c], denominator);
      line[c] := buf[c] / denominator;
    }
  }

  method Clear(buf: array<nat>)
    modifies buf
    ensures forall c :: 0 <= c < buf.Length ==> buf[c] == 0
  {
    for c := 0 to buf.Length
      invariant forall d :: 0 <= d < c ==> buf[d] == 0
    {
      buf[c] := 0;
    }
  }

  /** The sums hold the first `rows` lines of the block that starts at line `top`. */
  predicate Summed(sums: seq<nat>, lines: seq<Line>, width: nat, nx: nat, top: nat, rows: nat) {
    && AllWide(lines, width) && top + rows <= |lines|
    && forall c :: 0 <= c < |sums| ==>
      && Product(c / 3, nx) + nx <= width
      && sums[c] == BlockSum(lines, width, top, rows, Product(c / 3, nx), nx, c % 3)
  }

  lemma NoneSummed(sums: seq<nat>, lines: seq<Line>, width: nat, out: nat, nx: nat, top: nat)
    requires AllWide(lines, width) && top <= |lines| && |sums| == 3 * out && Product(out, nx) <= width
    requires forall c :: 0 <= c < |sums| ==> sums[c] == 0
    ensures Summed(sums, lines, width, nx, top, 0)
  {
    forall c | 0 <= c < |sums|
      ensures Product(c / 3, nx) + nx <= width
    {
      BlockFits(c / 3, nx, out, width);
    }
  }

  lemma OneMoreLine(sums: seq<nat>, before: seq<nat>, lines: seq<Line>, width: nat, nx: nat, top: nat, rows: nat)
    requires top + rows < |lines| && Summed(before, lines, width, nx, top, rows)
    requires Added(sums, before, lines[top + rows], nx, |sums|)
    ensures Summed(sums, lines, width, nx, top, rows + 1)
  {
  }

  // -------------------------------------------------------------- a whole image

  /** What comes out: the number of lines that were read in full, whether all was well, and
      the lines that were accepted. */
  datatype Outcome = Outcome(ok: bool, written: seq<Line>)

  /** How many lines are written when the input ends after `readable` lines and the output
      takes `writable` lines. */
  function LinesOut(height: nat, ny: nat, readable: nat, writable: nat): nat
    requires ny > 0
  {
    Min(writable, Min(readable, height) / ny)
  }

  predicate AllAveraged(written: seq<Line>, lines: seq<Line>, width: nat, out: nat, nx: nat, ny: nat) {
    && nx > 0 && ny > 0 && AllWide(lines, width) && Product(out, nx) <= width
    && forall j :: 0 <= j < |written| ==>
      && Product(j, ny) + ny <= |lines|
      && written[j] == Averaged(lines, width, out, nx, ny, j)
  }

  lemma Divided(n: nat, d: nat, q: nat, r: nat)
    requires n == Product(q, d) + r && r < d
    ensures n / d == q && n % d == r
  {
    var p, m := n / d, n % d;
    assert n == Product(p, d) + m;
    if p < q {
      ProductMonotone(p + 1, d, q, d);
    } else if p > q {
      ProductMonotone(q + 1, d, p, d);
    }
  }

  /** The block a line belongs to, and its place there. */
  function Block(y: nat, ny: nat): nat
    requires ny > 0
  {
    y / ny
  }

  function Place(y: nat, ny: nat): nat
    requires ny > 0
  {
    y % ny
  }

  /** Where the next line falls. */
  lemma NextLine(y: nat, ny: nat)
    requires ny > 0
    ensures Product(Block(y, ny), ny) + Place(y, ny) == y && Place(y, ny) < ny
    ensures Block(y + 1, ny) == if Place(y, ny) == ny - 1 then Block(y, ny) + 1 else Block(y, ny)
    ensures Place(y, ny) == ny - 1 ==> Product(Block(y, ny), ny) + ny == Product(Block(y, ny) + 1, ny) == y + 1
    ensures Place(y + 1, ny) == if Place(y, ny) == ny - 1 then 0 else Place(y, ny) + 1
  {
    var q, r := y / ny, y % ny;
    assert y == Product(q, ny) + r;
    if r == ny - 1 {
      assert Product(q + 1, ny) == Product(q, ny) + ny;
      Divided(y + 1, ny, q + 1, 0);
    } else {
      Divided(y + 1, ny, q, r + 1);
    }
  }

  lemma QuotientGrows(a: nat, b: nat, d: nat)
    requires a <= b && d > 0
    ensures a / d <= b / d
  {
    var p, q := a / d, b / d;
    assert a == Product(p, d) + a % d && b == Product(q, d) + b % d;
    if p > q {
      ProductMonotone(q + 1, d, p, d);
    }
  }

  method ReadLine(source: Line, line: array<Byte>)
    requires |source| == line.Length
    modifies line
    ensures line[..] == source
  {
    for i := 0 to line.Length
      invariant line[..i] == source[..i]
    {
      line[i] := source[i];
    }
  }

  /** A whole block has been summed: one line of averages comes out. */
  method FinishBlock(buf: array<nat>, line: array<Byte>, ghost lines: seq<Line>, ghost width: nat, out: nat,
                     nx: nat, ny: nat, ghost j: nat)
    returns (written: Line)
    requires nx > 0 && ny > 0 && buf.Length == 3 * out && buf.Length <= line.Length
    requires Product(out, nx) <= width && AllWide(lines, width) && Product(j, ny) + ny <= |lines|
    requires Summed(buf[..], lines, width, nx, Product(j, ny), ny)
    modifies line
    ensures written == Averaged(lines, width, out, nx, ny, j)
  {
    ghost var sums := buf[..];
    forall c | 0 <= c < 3 * out
      ensures buf[c] <= 255 * Product(ny, nx)
    {
      assert sums[c] == buf[c];
      BlockSumBound(lines, width, Product(j, ny), ny, Product(c / 3, nx), nx, c % 3);
    }
    AverageInto(buf, line, Product(ny, nx));
    written := line[..3 * out];
    forall c | 0 <= c < 3 * out
      ensures written[c] == Averaged(lines, width, out, nx, ny, j)[c]
    {
      assert sums[c] == buf[c];
    }
  }

  /** The loop that averages. */
  method Average(source: seq<Line>, width: nat, out: nat, nx: nat, ny: nat, readable: nat, writable: nat)
    returns (outcome: Outcome)
    requires AllWide(source, width) && nx > 0 && ny > 0 && Product(out, nx) <= width
    ensures AllAveraged(outcome.written, source, width, out, nx, ny)
    ensures |outcome.written| == LinesOut(|source|, ny, readable, writable)
    ensures outcome.ok <==> readable >= |source| && writable >= Block(|source|, ny)
  {
    hide AllAveraged, Summed, Averaged, AllWide, Product, Block, Place, LinesOut;
    var line := new Byte[3 * width](_ => 0);
    var buf := new nat[3 * out](_ => 0);
    var written: seq<Line> := [];
    var y := 0;
    FirstLine(buf[..], source, width, out, nx, ny);
    while y < |source| && y < readable
      invariant y <= |source| && y <= readable
      invariant |written| == Block(y, ny) <= writable
      invariant AllAveraged(written, source, width, out, nx, ny)
      invariant Summed(buf[..], source, width, nx, Product(Block(y, ny), ny), Place(y, ny))
    {
      NextLine(y, ny);
      LineWidth(source, width, y);
      ReadLine(source[y], line);
      SumLine(line, buf, source, width, out, nx, y, Product(Block(y, ny), ny), Place(y, ny));
      if Place(y, ny) == ny - 1 {
        var next := FinishBlock(buf, line, source, width, out, nx, ny, Block(y, ny));
        if |written| == writable {
          Blocked(y + 1, |source|, ny, readable, writable);
          return Outcome(false, written);
        }
        OneMoreAveraged(written, next, source, width, out, nx, ny);
        written := written + [next];
        Clear(buf);
        NoneSummed(buf[..], source, width, out, nx, Product(Block(y, ny) + 1, ny));
      }
      y := y + 1;
    }
    Finished(y, |source|, ny, readable, writable);
    outcome := Outcome(y == |source|, written);
  }

  lemma FirstLine(sums: seq<nat>, lines: seq<Line>, width: nat, out: nat, nx: nat, ny: nat)
    requires AllWide(lines, width) && nx > 0 && ny > 0 && Product(out, nx) <= width
    requires |sums| == 3 * out && forall c :: 0 <= c < |sums| ==> sums[c] == 0
    ensures Block(0, ny) == 0 && AllAveraged([], lines, width, out, nx, ny)
    ensures Summed(sums, lines, width, nx, Product(Block(0, ny), ny), Place(0, ny))
    ensures out <= width
  {
    ProductMonotone(out, 1, out, nx);
    NoneSummed(sums, lines, width, out, nx, 0);
  }

  lemma LineWidth(lines: seq<Line>, width: nat, y: nat)
    requires AllWide(lines, width) && y < |lines|
    ensures |lines[y]| == 3 * width
  {
  }

  lemma Finished(y: nat, height: nat, ny: nat, readable: nat, writable: nat)
    requires ny > 0 && y <= height && y <= readable && (y == height || y == readable)
    requires Block(y, ny) <= writable
    ensures LinesOut(height, ny, readable, writable) == Block(y, ny)
    ensures y == height <==> readable >= height && writable >= Block(height, ny)
  {
  }

  lemma Blocked(y: nat, height: nat, ny: nat, readable: nat, writable: nat)
    requires ny > 0 && y <= height && y <= readable && writable < Block(y, ny)
    ensures LinesOut(height, ny, readable, writable) == writable < Block(height, ny)
  {
    QuotientGrows(y, Min(readable, height), ny);
    QuotientGrows(y, height, ny);
  }

  method SumLine(line: array<Byte>, buf: array<nat>, ghost lines: seq<Line>, width: nat, out: nat, nx: nat,
                 ghost y: nat, ghost top: nat, ghost rows: nat)
    requires line.Length == 3 * width && buf.Length == 3 * out && Product(out, nx) <= width
    requires y == top + rows < |lines| && line[..] == lines[y] && Summed(buf[..], lines, width, nx, top, rows)
    modifies buf
    ensures Summed(buf[..], lines, width, nx, top, rows + 1)
  {
    ghost var before := buf[..];
    AddLine(line, buf, width, out, nx);
    OneMoreLine(buf[..], before, lines, width, nx, top, rows);
  }

  lemma OneMoreAveraged(written: seq<Line>, next: Line, lines: seq<Line>, width: nat, out: nat, nx: nat, ny: nat)
    requires AllAveraged(written, lines, width, out, nx, ny)
    requires Product(|written|, ny) + ny <= |lines| && next == Averaged(lines, width, out, nx, ny, |written|)
    ensures AllAveraged(written + [next], lines, width, out, nx, ny)
  {
  }

  /** The loop that copies, when the decoder has scaled the image already. */
  method Copy(source: seq<Line>, width: nat, readable: nat, writable: nat) returns (outcome: Outcome)
    requires AllWide(source, width)
    ensures outcome.ok <==> readable >= |source| && writable >= |source|
    ensures outcome.written == source[..LinesOut(|source|, 1, readable, writable)]
  {
    var line := new Byte[3 * width](_ => 0);
    var written: seq<Line> := [];
    var y := 0;
    while y < |source| && y < readable && y < writable
      invariant y <= |source| && y <= readable && y <= writable && written == source[..y]
    {
      ReadLine(source[y], line);
      written := written + [line[..]];
      y := y + 1;
    }
    outcome := Outcome(y == |source|, written);
  }

  /** Blocks of one pixel leave a line as it is: copying is averaging over them. */
  lemma OnePixelBlocks(lines: seq<Line>, width: nat, j: nat)
    requires AllWide(lines, width) && j < |lines|
    ensures Product(j, 1) + 1 <= |lines| && Product(width, 1) <= width
    ensures Averaged(lines, width, width, 1, 1, j) == lines[j]
  {
    forall c | 0 <= c < 3 * width
      ensures Averaged(lines, width, width, 1, 1, j)[c] == lines[j][c]
    {
      BlockFits(c / 3, 1, width, width);
      var base := Product(c / 3, 1);
      assert base == c / 3 && 3 * base + c % 3 == c;
      assert RowSum(lines[j], base, 1, c % 3) == RowSum(lines[j], base, 0, c % 3) + lines[j][c];
      assert BlockSum(lines, width, j, 1, base, 1, c % 3)
        == BlockSum(lines, width, j, 0, base, 1, c % 3) + RowSum(lines[j], base, 1, c % 3);
    }
  }

  /** A height divided by its own quotients. */
  lemma LinesWritten(h: nat, k: nat)
    requires 0 < k <= h
    ensures h / k > 0 && h / (h / k) >= k && h / (h / (h / k)) == h / k
  {
    var q := h / k;
    assert h == Product(q, k) + h % k;
    assert q > 0;
    AtLeast(h, q, k);
    var ny := h / q;
    QuotientMonotone(h, k, ny);
    AtLeast(h, ny, q);
  }

  lemma AtLeast(h: nat, d: nat, q: nat)
    requires d > 0 && h >= Product(q, d)
    ensures h / d >= q
  {
    var p := h / d;
    assert h == Product(p, d) + h % d;
    if p < q {
      ProductMonotone(p + 1, d, q, d);
    }
  }

  /** What the codec makes of the sizes: the decoder scales, or it leaves that to the resampler,
      or it refuses both. */
  datatype Prepared = ByDecoder | ByResampler | Refused

  /** A codec that leaves no scaling to empty outputs to the resampler, as the one for JPEG:
      it cannot start to compress an image without pixels. */
  predicate RefusesEmpty(prepared: Prepared, out: Size) {
    prepared.ByResampler? ==> out.width > 0 && out.height > 0
  }

  /** How resizing ends. */
  datatype Ending = Resized | NotResized | DividesByZero

  /** Every line that was written consists of the means of its blocks. */
  predicate Means(written: seq<Line>, lines: seq<Line>, input: Size, out: Size) {
    out.width > 0 && out.height > 0 ==>
      AllAveraged(written, lines, input.width, out.width, input.width / out.width, input.height / out.height)
  }

  /** The two loops and what decides between them. The quotients of the sizes are by zero
      exactly when an image is to be scaled of which nothing would be left. */
  method Scale(decoded: seq<Line>, input: Size, out: Size, ghost step: nat, readable: nat, writable: nat)
    returns (ending: Ending, written: seq<Line>)
    requires |decoded| == input.height && AllWide(decoded, input.width)
    requires input == out || out == Scaled(input, step)
    ensures ending.DividesByZero? <==> input != out && (out.width == 0 || out.height == 0)
    ensures ending.Resized? <==>
      !ending.DividesByZero? && readable >= input.height && writable >= out.height
    ensures Means(written, decoded, input, out)
    ensures ending.Resized? ==> |written| == out.height
  {
    hide AllAveraged, AllWide, Means;
    var outcome;
    if input.width == out.width && input.height == out.height {
      outcome := Copy(decoded, out.width, readable, writable);
      CopiesMean(decoded, outcome.written, input);
    } else if out.width == 0 || out.height == 0 {
      NoMeans(decoded, input, out);
      return DividesByZero, [];
    } else {
      ScaledDown(input.width, step + 1);
      ScaledDown(input.height, step + 1);
      PixelsInside(input.width, out.width);
      outcome := Average(decoded, input.width, out.width, input.width / out.width, input.height / out.height,
                         readable, writable);
      AveragesMean(decoded, outcome.written, input, out);
    }
    written := outcome.written;
    ending := if outcome.ok then Resized else NotResized;
  }

  lemma ScaledDown(size: nat, k: nat)
    requires k > 0 && size / k > 0
    ensures size / (size / k) > 0 && Block(size, size / (size / k)) == size / k
  {
    Positive(size, k);
    LinesWritten(size, k);
    var q := size / k;
    assert size / q >= k;
  }

  lemma NoMeans(lines: seq<Line>, input: Size, out: Size)
    requires out.width == 0 || out.height == 0
    ensures Means([], lines, input, out)
  {
  }

  lemma AveragesMean(lines: seq<Line>, written: seq<Line>, input: Size, out: Size)
    requires out.width > 0 && out.height > 0
    requires AllAveraged(written, lines, input.width, out.width, input.width / out.width, input.height / out.height)
    ensures Means(written, lines, input, out)
  {
  }

  lemma CopiesMean(lines: seq<Line>, written: seq<Line>, size: Size)
    requires AllWide(lines, size.width) && written <= lines
    ensures Means(written, lines, size, size)
  {
    hide AllAveraged;
    if size.width > 0 && size.height > 0 {
      assert size.width / size.width == 1 && size.height / size.height == 1;
      CopiesAverage(lines, written, size.width);
    }
  }

  /** The size of what the decoder delivers. */
  function Delivered(prepared: Prepared, size: Size, out: Size): Size {
    if prepared.ByDecoder? then out else size
  }

  /** An image attachment remembers how far it was scaled down. */
  class Image {
    const size: Size
    var resizeStep: nat

    constructor (size: Size)
      ensures this.size == size && resizeStep == 0
    {
      this.size := size;
      resizeStep := 0;
    }

    /** The size at the next step. */
    function Target(maxPixels: nat): Size
      reads this
    {
      Scaled(size, NextStep(size, resizeStep, maxPixels))
    }

    /** mms_attachment_image_resize_type_specific */
    method Resize(maxPixels: nat, prepared: Prepared, decoded: seq<Line>, readable: nat, writable: nat)
      returns (ending: Ending, written: seq<Line>)
      requires |decoded| == Delivered(prepared, size, Target(maxPixels)).height
      requires AllWide(decoded, Delivered(prepared, size, Target(maxPixels)).width)
      modifies this
      ensures ending.DividesByZero? <==>
        && prepared.ByResampler? && size != Size(0, 0)
        && !LeavesSomething(size, old(resizeStep), maxPixels)
      ensures RefusesEmpty(prepared, old(Target(maxPixels))) ==> !ending.DividesByZero?
      ensures ending.Resized? <==>
        && !prepared.Refused? && !ending.DividesByZero?
        && readable >= |decoded| && writable >= old(Target(maxPixels)).height
      ensures !prepared.Refused? ==>
        Means(written, decoded, Delivered(prepared, size, old(Target(maxPixels))), old(Target(maxPixels)))
      ensures ending.Resized? ==> |written| == old(Target(maxPixels)).height
      ensures resizeStep == if ending.Resized? then NextStep(size, old(resizeStep), maxPixels) else old(resizeStep)
    {
      hide Means, AllWide, Pixels, NextStep, LeavesSomething;
      var next := NextResizeStep(size, resizeStep, maxPixels);
      var out := Scaled(size, next);
      if prepared.Refused? {
        return NotResized, [];
      }
      TargetEmpty(size, resizeStep, maxPixels);
      ending, written := Scale(decoded, Delivered(prepared, size, out), out, next, readable, writable);
      if ending.Resized? {
        resizeStep := next;
      }
    }
  }

  lemma {:induction false} TargetEmpty(s: Size, step: nat, maxPixels: nat)
    ensures var out := Scaled(s, NextStep(s, step, maxPixels));
      (out.width == 0 || out.height == 0 <==> !LeavesSomething(s, step, maxPixels))
        && (s == out <==> s == Size(0, 0))
  {
    hide NextStep, LeavesSomething;
    var next := NextStep(s, step, maxPixels);
    NextStepIsLeast(s, step, maxPixels);
    LeftExactly(s, step, maxPixels);
    SomeLeft(s, next);
    Smaller(s.width, next + 1);
    Smaller(s.height, next + 1);
    Positive(s.width, next + 1);
    Positive(s.height, next + 1);
  }

  lemma Smaller(n: nat, k: nat)
    requires k > 1
    ensures n / k == n <==> n == 0
  {
    var q := n / k;
    assert n == Product(q, k) + n % k;
    ProductMonotone(q, 2, q, k);
  }

  lemma Positive(n: nat, k: nat)
    requires k > 0
    ensures n / k > 0 <==> n >= k
  {
  }

  lemma CopiesAverage(lines: seq<Line>, written: seq<Line>, width: nat)
    requires AllWide(lines, width) && written <= lines
    ensures AllAveraged(written, lines, width, width, 1, 1)
  {
    assert Product(width, 1) == width;
    forall j | 0 <= j < |written|
      ensures Product(j, 1) + 1 <= |lines| && written[j] == Averaged(lines, width, width, 1, 1, j)
    {
      OnePixelBlocks(lines, width, j);
    }
  }

  lemma PixelsInside(width: nat, out: nat)
    requires 0 < out
    ensures Product(out, width / out) <= width
  {
    assert Product(out, width / out) + width % out == width;
  }
}
