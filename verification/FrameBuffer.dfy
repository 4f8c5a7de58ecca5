/** The flat, row-major frame buffer: painting rectangles, saving a block of it and putting it back. */
module FrameBuffer {
  import opened Canvas

  // ---------- Row-major indices ----------

  function At(y: int, x: int, w: int): int {
    y * w + x
  }

  lemma AtNextRow(y: int, x: int, w: int)
    ensures At(y + 1, x, w) == At(y, x, w) + w
  {}

  lemma AtShift(y: int, x: int, k: int, w: int)
    ensures At(y, x + k, w) == At(y, x, w) + k
  {}

  lemma RowsBelow(y: int, y': int, w: int)
    requires y < y' && w >= 0
    ensures y * w + w <= y' * w
  {
    assert (y' - y - 1) * w >= 0;
    assert y' * w == y * w + w + (y' - y - 1) * w;
  }

  lemma AtInside(y: int, x: int, w: int, h: int)
    requires 0 <= y < h && 0 <= x <= w
    ensures 0 <= At(y, x, w) && At(y, x, w) + (w - x) <= w * h
  {
    RowsBelow(y, h, w);
    if y > 0 { RowsBelow(0, y, w); }
  }

  /** A pixel is in a stretch of one row exactly when its row and column say so. */
  lemma RowHit(y: int, x: int, row: int, from: int, n: int, w: int)
    requires 0 <= x < w && 0 <= from && 0 <= n && from + n <= w
    ensures At(row, from, w) <= At(y, x, w) < At(row, from, w) + n <==> y == row && from <= x < from + n
  {
    if y < row { RowsBelow(y, row, w); } else if row < y { RowsBelow(row, y, w); }
  }

  /** The flat buffer holds the picture. */
  ghost predicate Shows(frame: seq<Rgb>, w: nat, h: nat, p: Picture) {
    && |frame| == w * h && Is(p, w, h)
    && forall y, x :: 0 <= y < h && 0 <= x < w ==> 0 <= At(y, x, w) < |frame| && frame[At(y, x, w)] == p[y][x]
  }

  /** Pixel by pixel, `frame'` is `frame` with the rectangle painted. */
  ghost predicate Painted(frame: seq<Rgb>, frame': seq<Rgb>, w: nat, h: nat, r: Rect, c: Rgb) {
    && |frame'| == |frame| == w * h
    && forall y, x :: 0 <= y < h && 0 <= x < w ==>
         0 <= At(y, x, w) < w * h && frame'[At(y, x, w)] == if Covers(r, x, y) then c else frame[At(y, x, w)]
  }

  lemma PaintedShows(frame: seq<Rgb>, frame': seq<Rgb>, w: nat, h: nat, r: Rect, c: Rgb, p: Picture)
    requires Painted(frame, frame', w, h, r, c) && Shows(frame, w, h, p)
    ensures Shows(frame', w, h, Paint(p, r, c))
  {}

  method FillRun(frame: array<Rgb>, from: nat, n: nat, c: Rgb)
    requires from + n <= frame.Length
    modifies frame
    ensures forall i :: 0 <= i < frame.Length ==> frame[i] == if from <= i < from + n then c else old(frame[i])
  {
    for k := 0 to n
      invariant forall i :: 0 <= i < frame.Length ==> frame[i] == if from <= i < from + k then c else old(frame[i])
    {
      frame[from + k] := c;
    }
  }

  /** `graphics_.rectangle`: the part of the rectangle inside the display, and nothing else, takes the colour. */
  method FillRect(frame: array<Rgb>, w: nat, h: nat, r: Rect, c: Rgb)
    requires frame.Length == w * h
    modifies frame
    ensures Painted(old(frame[..]), frame[..], w, h, r, c)
  {
    var x0 := if r.x < 0 then 0 else r.x;
    var x1 := if r.x + r.w < w then r.x + r.w else w;
    var y0 := if r.y < 0 then 0 else r.y;
    var y1 := if r.y + r.h < h then r.y + r.h else h;
    forall y, x | 0 <= y < h && 0 <= x < w ensures 0 <= At(y, x, w) < w * h { AtInside(y, x, w, h); }
    if x0 < x1 && y0 < y1 {
      for row := y0 to y1
        invariant forall y, x :: 0 <= y < h && 0 <= x < w ==>
          frame[At(y, x, w)] == if y0 <= y < row && x0 <= x < x1 then c else old(frame[At(y, x, w)])
      {
        AtInside(row, x0, w, h);
        FillRun(frame, At(row, x0, w), x1 - x0, c);
        forall y, x | 0 <= y < h && 0 <= x < w
          ensures At(row, x0, w) <= At(y, x, w) < At(row, x0, w) + (x1 - x0) <==> y == row && x0 <= x < x1
        {
          RowHit(y, x, row, x0, x1 - x0, w);
        }
      }
    }
  }

  // ---------- The block under the cursor ----------

  datatype Block = Block(x0: int, y0: int, w: int, h: int)

  /** The block of a cursor of radius `radius` around a pencil of the given size, clamped to the display. */
  function ClampBlock(x: int, y: int, size: nat, radius: nat, w: nat, h: nat): Block {
    var topOffset := radius - size / 2;
    var x0 := if topOffset > x then 0 else x - topOffset;
    var y0 := if topOffset > y then 0 else y - topOffset;
    Block(x0, y0,
          if x0 + 2 * radius >= w then w - x0 else 2 * radius,
          if y0 + 2 * radius >= h then h - y0 else 2 * radius)
  }

  /** The block lies in the display and its pixels fit the buffer. */
  ghost predicate Fits(b: Block, w: nat, h: nat, capacity: nat) {
    0 <= b.x0 && 0 <= b.w && b.x0 + b.w <= w && 0 <= b.y0 && 0 <= b.h && b.y0 + b.h <= h && b.w * b.h <= capacity
  }

  /** For every display, radius, pencil position in it and size no wider than the cursor. */
  lemma ClampBlockFits(x: int, y: int, size: nat, radius: nat, w: nat, h: nat)
    requires 0 <= x < w && 0 <= y < h && size / 2 <= radius
    ensures var b := ClampBlock(x, y, size, radius, w, h);
            Fits(b, w, h, (2 * radius) * (2 * radius)) && b.w <= 2 * radius && b.h <= 2 * radius
            && (radius > 0 ==> b.w > 0 && b.h > 0)
  {
    var b := ClampBlock(x, y, size, radius, w, h);
    MulMonotone(b.w, 2 * radius, b.h, 2 * radius);
  }

  /** The block covers all of the pencil that is in the display, if the pencil is no wider than the cursor. */
  lemma BlockCoversPencil(x: int, y: int, size: nat, radius: nat, w: nat, h: nat, i: int, j: int)
    requires 0 <= x < w && 0 <= y < h && size <= 2 * radius
    requires Covers(Rect(x, y, size, size), i, j) && i < w && j < h
    ensures InBlock(ClampBlock(x, y, size, radius, w, h), i, j)
  {}

  /** Away from the edges it is the square of the cursor, with the middle of the pencil in its middle. */
  lemma BlockIsCentred(x: int, y: int, size: nat, radius: nat, w: nat, h: nat)
    requires 0 <= x < w && 0 <= y < h
    requires 0 <= x + size / 2 - radius && x + size / 2 + radius <= w
    requires 0 <= y + size / 2 - radius && y + size / 2 + radius <= h
    ensures var b := ClampBlock(x, y, size, radius, w, h);
            b.x0 + radius == x + size / 2 && b.y0 + radius == y + size / 2 && b.w == b.h == 2 * radius
  {}

  lemma MulMonotone(a: int, a': int, b: int, b': int)
    requires 0 <= a <= a' && 0 <= b <= b'
    ensures a * b <= a' * b'
  {
    assert a * b <= a' * b;
    assert a' * b <= a' * b';
  }

  predicate InBlock(b: Block, x: int, y: int) {
    b.x0 <= x < b.x0 + b.w && b.y0 <= y < b.y0 + b.h
  }

  /** The buffer holds the block of the picture, row after row. */
  ghost predicate Saved(buffer: seq<Rgb>, b: Block, p: Picture)
    requires 0 <= b.x0 && 0 <= b.y0 && b.y0 + b.h <= |p| && forall y :: b.y0 <= y < b.y0 + b.h ==> b.x0 + b.w <= |p[y]|
  {
    forall y, x :: 0 <= y < b.h && 0 <= x < b.w ==>
      0 <= At(y, x, b.w) < |buffer| && buffer[At(y, x, b.w)] == p[b.y0 + y][b.x0 + x]
  }

  /** Outside the block the frame shows the picture. */
  ghost predicate ShowsAround(frame: seq<Rgb>, w: nat, h: nat, b: Block, p: Picture) {
    && |frame| == w * h && Is(p, w, h)
    && forall y, x :: 0 <= y < h && 0 <= x < w && !InBlock(b, x, y) ==>
         0 <= At(y, x, w) < |frame| && frame[At(y, x, w)] == p[y][x]
  }

  method CopyRun(dst: array<Rgb>, to: nat, src: array<Rgb>, from: nat, n: nat)
    requires dst != src && to + n <= dst.Length && from + n <= src.Length
    modifies dst
    ensures forall i :: 0 <= i < dst.Length ==> dst[i] == if to <= i < to + n then src[from + i - to] else old(dst[i])
  {
    for k := 0 to n
      invariant forall i :: 0 <= i < dst.Length ==>
        dst[i] == if to <= i < to + k then src[from + i - to] else old(dst[i])
    {
      dst[to + k] := src[from + k];
    }
  }

  /** The first copy loop of the cursor: the block's rows go into the buffer one after the other. */
  method SaveBlock(frame: array<Rgb>, w: nat, h: nat, b: Block, buffer: array<Rgb>, ghost p: Picture)
    requires frame != buffer && Fits(b, w, h, buffer.Length) && Shows(frame[..], w, h, p)
    modifies buffer
    ensures Saved(buffer[..], b, p)
  {
    var nextByte, nextCache := b.x0 + b.y0 * w, 0;
    forall y, x | 0 <= y < b.h && 0 <= x < b.w ensures 0 <= At(y, x, b.w) < buffer.Length { AtInside(y, x, b.w, b.h); }
    for row := 0 to b.h
      invariant nextByte == At(b.y0 + row, b.x0, w) && nextCache == At(row, 0, b.w)
      invariant forall y, x :: 0 <= y < row && 0 <= x < b.w ==> buffer[At(y, x, b.w)] == p[b.y0 + y][b.x0 + x]
    {
      AtInside(b.y0 + row, b.x0, w, h);
      AtInside(row, 0, b.w, b.h);
      CopyRun(buffer, nextCache, frame, nextByte, b.w);
      forall y, x | 0 <= y <= row && 0 <= x < b.w ensures buffer[At(y, x, b.w)] == p[b.y0 + y][b.x0 + x] {
        RowHit(y, x, row, 0, b.w, b.w);
        if y == row {
          AtShift(row, 0, x, b.w);
          AtShift(b.y0 + row, b.x0, x, w);
        }
      }
      AtNextRow(b.y0 + row, b.x0, w);
      AtNextRow(row, 0, b.w);
      nextCache := nextCache + b.w;
      nextByte := nextByte + w;
    }
  }

  /** The second copy loop: the buffer goes back into the block, and the whole frame shows the picture again. */
  method RestoreBlock(frame: array<Rgb>, w: nat, h: nat, b: Block, buffer: array<Rgb>, ghost p: Picture)
    requires frame != buffer && Fits(b, w, h, buffer.Length) && ShowsAround(frame[..], w, h, b, p)
    requires Saved(buffer[..], b, p)
    modifies frame
    ensures Shows(frame[..], w, h, p)
  {
    var nextByte, nextCache := b.x0 + b.y0 * w, 0;
    forall y, x | 0 <= y < h && 0 <= x < w ensures 0 <= At(y, x, w) < w * h { AtInside(y, x, w, h); }
    for row := 0 to b.h
      invariant nextByte == At(b.y0 + row, b.x0, w) && nextCache == At(row, 0, b.w)
      invariant forall y, x :: 0 <= y < h && 0 <= x < w && !(InBlock(b, x, y) && y >= b.y0 + row) ==>
        frame[At(y, x, w)] == p[y][x]
    {
      AtInside(b.y0 + row, b.x0, w, h);
      AtInside(row, 0, b.w, b.h);
      CopyRun(frame, nextByte, buffer, nextCache, b.w);
      forall y, x | 0 <= y < h && 0 <= x < w && !(InBlock(b, x, y) && y >= b.y0 + row + 1)
        ensures frame[At(y, x, w)] == p[y][x]
      {
        RowHit(y, x, b.y0 + row, b.x0, b.w, w);
        if y == b.y0 + row && InBlock(b, x, y) {
          AtShift(y, b.x0, x - b.x0, w);
          AtShift(row, 0, x - b.x0, b.w);
        }
      }
      AtNextRow(b.y0 + row, b.x0, w);
      AtNextRow(row, 0, b.w);
      nextCache := nextCache + b.w;
      nextByte := nextByte + w;
    }
  }
}
