/**
 Pico-Sketch with its cursor. Showing the cursor draws over the frame buffer after saving what is
 under it; every other event must put that back first. Each event is proved to do to the visible
 canvas exactly what the cursor-free drawing of module `Canvas` does.
 */
module Sketch {
  import opened Canvas
  import opened FrameBuffer

  /**
   The glyph of the cursor: a black block with a white square inside, `size` (rounded up to even) wide where unclipped.
   */
  function Inner(b: Block, radius: nat, size: nat): Rect {
    var d := radius - (size + 1) / 2;
    Rect(b.x0 + d, b.y0 + d, b.w - 2 * d, b.h - 2 * d)
  }

  /** The white square keeps the same distance from all sides of the block. */
  lemma GlyphMargin(b: Block, radius: nat, size: nat, i: int, j: int)
    ensures var d := radius - (size + 1) / 2;
            Covers(Inner(b, radius, size), i, j) <==>
            b.x0 + d <= i && i < b.x0 + b.w - d && b.y0 + d <= j && j < b.y0 + b.h - d
  {}

  /** Away from the edges the white square is that wide around the middle of the pencil, and has all of the pencil. */
  lemma GlyphFramesPencil(x: int, y: int, size: nat, radius: nat, w: nat, h: nat, i: int, j: int)
    requires 0 <= x < w && 0 <= y < h && (size + 1) / 2 <= radius
    requires 0 <= x + size / 2 - radius && x + size / 2 + radius <= w
    requires 0 <= y + size / 2 - radius && y + size / 2 + radius <= h
    ensures var inner, half := Inner(ClampBlock(x, y, size, radius, w, h), radius, size), (size + 1) / 2;
            && (Covers(inner, i, j) <==> -half <= i - (x + size / 2) < half && -half <= j - (y + size / 2) < half)
            && (Covers(Rect(x, y, size, size), i, j) ==> Covers(inner, i, j))
  {
    BlockIsCentred(x, y, size, radius, w, h);
  }

  ghost predicate ShowsCursor(frame: seq<Rgb>, w: nat, h: nat, b: Block, inner: Rect) {
    forall y, x :: 0 <= y < h && 0 <= x < w && InBlock(b, x, y) ==>
      0 <= At(y, x, w) < |frame| && frame[At(y, x, w)] == if Covers(inner, x, y) then WHITE else BLACK
  }

  class EventMonitor {
    const w: nat
    const h: nat
    const radius: nat
    const frame: array<Rgb>
    const blockBuffer: array<Rgb>
    var pen: Rgb
    var pencilSize: nat
    var pencilX0: int
    var pencilY0: int
    var pencilColor: Rgb
    var block: Block
    var sizeIndex: nat
    var colorIndex: nat
    var waitingAnyKey: bool
    var cursorActive: bool
    ghost var picture: Picture

    /** The display is not empty and the cursor is as wide as the widest pencil. */
    ghost predicate Sound()
      reads this
    {
      && w >= 1 && h >= 1 && radius >= 10
      && frame != blockBuffer && frame.Length == w * h && blockBuffer.Length == (2 * radius) * (2 * radius)
    }

    /**
     With the cursor off the frame shows the picture; with it on, the saved block completes the frame to the picture.
     */
    ghost predicate Holds()
      requires Sound()
      reads this, frame, blockBuffer
    {
      if cursorActive then
        && Fits(block, w, h, blockBuffer.Length)
        && ShowsAround(frame[..], w, h, block, picture) && Saved(blockBuffer[..], block, picture)
        && ShowsCursor(frame[..], w, h, block, Inner(block, radius, pencilSize))
      else
        Shows(frame[..], w, h, picture) && pen == pencilColor
    }

    ghost predicate Valid()
      reads this, frame, blockBuffer
    {
      && Sound() && sizeIndex < 8 && colorIndex < 8
      && (waitingAnyKey ==> !cursorActive && sizeIndex == 0 && colorIndex == 0)
      && (!waitingAnyKey ==>
            && 0 <= pencilX0 < w && 0 <= pencilY0 < h
            && pencilSize == SIZES[sizeIndex] && pencilColor == COLORS[colorIndex]
            && Is(picture, w, h) && Holds())
    }

    /** What the user has drawn, whether or not the cursor is over it. */
    ghost function Now(): Drawing
      reads this
    {
      Drawing(waitingAnyKey, sizeIndex, colorIndex, pencilX0, pencilY0, picture)
    }

    /** `intializeUI`: the start screen, whose pixels are the graphics library's business. */
    constructor (w: nat, h: nat, radius: nat, splash: seq<Rgb>)
      requires w >= 1 && h >= 1 && radius >= 10 && |splash| == w * h
      ensures Valid() && fresh(frame) && fresh(blockBuffer)
      ensures this.w == w && this.h == h && this.radius == radius
      ensures Now() == START && !cursorActive
    {
      this.w, this.h, this.radius := w, h, radius;
      frame := new Rgb[w * h](i requires 0 <= i < |splash| => splash[i]);
      blockBuffer := new Rgb[(2 * radius) * (2 * radius)](_ => BLACK);
      pen, pencilColor, pencilSize, pencilX0, pencilY0 := WHITE, BLACK, 0, 0, 0;
      block := Block(0, 0, 0, 0);
      sizeIndex, colorIndex, waitingAnyKey, cursorActive := 0, 0, true, false;
      picture := [];
    }

    // ---------- Screen operations ----------

    method MovePencil(deltaX: int, deltaY: int)
      requires Valid() && !waitingAnyKey && !cursorActive
      modifies this`pencilX0, this`pencilY0, this`picture, frame
      ensures Valid() && pencilX0 == Clamp(old(pencilX0) + deltaX, w) && pencilY0 == Clamp(old(pencilY0) + deltaY, h)
      ensures picture == Paint(old(picture), Rect(pencilX0, pencilY0, SIZES[sizeIndex], SIZES[sizeIndex]),
                               COLORS[colorIndex])
    {
      pencilX0 := pencilX0 + deltaX;
      if pencilX0 < 0 {
        pencilX0 := 0;
      } else if pencilX0 >= w {
        pencilX0 := w - 1;
      }
      pencilY0 := pencilY0 + deltaY;
      if pencilY0 < 0 {
        pencilY0 := 0;
      } else if pencilY0 >= h {
        pencilY0 := h - 1;
      }
      var box := Rect(pencilX0, pencilY0, pencilSize, pencilSize);
      ghost var before := frame[..];
      FillRect(frame, w, h, box, pen);
      PaintedShows(before, frame[..], w, h, box, pen, picture);
      picture := Paint(picture, box, pen);
    }

    method ClearTheCanvas()
      requires Sound() && sizeIndex == 0 && colorIndex == 0 && !cursorActive
      modifies this, frame
      ensures Valid() && !cursorActive
      ensures waitingAnyKey == old(waitingAnyKey) && sizeIndex == 0 && colorIndex == 0
      ensures pencilX0 == w / 2 && pencilY0 == h / 2 && picture == Blank(w, h)
      ensures pen == pencilColor == BLACK && pencilSize == 1 && Shows(frame[..], w, h, picture)
    {
      pen := WHITE;
      FillRect(frame, w, h, Rect(0, 0, w, h), pen);
      picture := Blank(w, h);
      pen := BLACK;
      pencilX0, pencilY0 := w / 2, h / 2;
      pencilSize := 1;
      pencilColor := BLACK;
    }

    method ShowCursor()
      requires Valid() && !waitingAnyKey && !cursorActive
      modifies this`block, this`pen, this`cursorActive, frame, blockBuffer
      ensures Valid() && cursorActive
    {
      SizesBounded(sizeIndex);
      cursorActive := true;
      block := ClampBlock(pencilX0, pencilY0, pencilSize, radius, w, h);
      ClampBlockFits(pencilX0, pencilY0, pencilSize, radius, w, h);
      SaveBlock(frame, w, h, block, blockBuffer, picture);
      pen := BLACK;
      FillRect(frame, w, h, Rect(block.x0, block.y0, block.w, block.h), pen);
      pen := WHITE;
      FillRect(frame, w, h, Inner(block, radius, pencilSize), pen);
    }

    method RestoreCursorBlock()
      requires Valid() && !waitingAnyKey && cursorActive
      modifies this`pen, this`cursorActive, frame
      ensures Valid() && !cursorActive
    {
      cursorActive := false;
      pen := pencilColor;
      RestoreBlock(frame, w, h, block, blockBuffer, picture);
    }

    method DrawStartScreen(splash: seq<Rgb>)
      requires Sound() && |splash| == frame.Length
      modifies this`pen, frame
      ensures frame[..] == splash && pen == WHITE
    {
      pen := Rgb(0, 0, 255);
      for i := 0 to frame.Length
        invariant forall k :: 0 <= k < i ==> frame[k] == splash[k]
      {
        frame[i] := splash[i];
      }
      pen := WHITE;
    }

    // ---------- Button events ----------

    method ConsumeAnyKeyWhenWaiting() returns (consumed: bool)
      requires Valid()
      modifies this, frame
      ensures Valid() && consumed == old(waitingAnyKey) && !waitingAnyKey
      ensures consumed ==> Now() == Drawing(false, 0, 0, w / 2, h / 2, Blank(w, h)) && !cursorActive
      ensures !consumed ==> Now() == old(Now()) && cursorActive == old(cursorActive)
    {
      consumed := waitingAnyKey;
      if waitingAnyKey {
        ClearTheCanvas();
        waitingAnyKey := false;
      }
    }

    method DeactivateCursor()
      requires Valid() && !waitingAnyKey
      modifies this`pen, this`cursorActive, frame
      ensures Valid() && !cursorActive
    {
      if cursorActive { RestoreCursorBlock(); }
    }

    method ToggleCursor()
      requires Valid() && !waitingAnyKey
      modifies this`block, this`pen, this`cursorActive, frame, blockBuffer
      ensures Valid() && cursorActive == !old(cursorActive)
    {
      if !cursorActive { ShowCursor(); } else { RestoreCursorBlock(); }
    }

    method NextSize()
      requires Valid() && !waitingAnyKey
      modifies this`sizeIndex, this`pencilSize, this`block, this`pen, this`cursorActive, frame, blockBuffer
      ensures Valid() && cursorActive && sizeIndex == (old(sizeIndex) + 1) % 8
    {
      DeactivateCursor();
      sizeIndex := sizeIndex + 1;
      if sizeIndex >= |SIZES| { sizeIndex := 0; }
      pencilSize := SIZES[sizeIndex];
      ShowCursor();
    }

    method NextColor()
      requires Valid() && !waitingAnyKey
      modifies this`colorIndex, this`pencilColor, this`pen
      ensures Valid() && colorIndex == (old(colorIndex) + 1) % 8
    {
      colorIndex := colorIndex + 1;
      if colorIndex >= |COLORS| { colorIndex := 0; }
      pencilColor := COLORS[colorIndex];
      pen := pencilColor;
    }

    method MoveEvent(e: Event)
      requires Valid() && !waitingAnyKey && (e == Right || e == Left || e == Up || e == Down)
      modifies this`pencilX0, this`pencilY0, this`picture, this`pen, this`cursorActive, frame
      ensures Valid() && !cursorActive && Now() == Step(old(Now()), e, w, h)
    {
      DeactivateCursor();
      var (deltaX, deltaY) := Delta(e);
      MovePencil(deltaX, deltaY);
    }

    method ClearEvent(splash: seq<Rgb>)
      requires Valid() && !waitingAnyKey && |splash| == frame.Length
      modifies this`pen, this`waitingAnyKey, this`sizeIndex, this`colorIndex, this`cursorActive, frame
      ensures Valid() && !cursorActive && Now() == Step(old(Now()), Clear, w, h)
    {
      DrawStartScreen(splash);
      waitingAnyKey, sizeIndex, colorIndex, cursorActive := true, 0, 0, false;
    }

    /**
     One pressed event. The drawing follows the cursor-free application, and the cursor is on exactly
     after the cursor key switches it on or the size changes, until a stroke, a clear or the key.
     */
    method ButtonEvent(e: Event, splash: seq<Rgb>)
      requires Valid() && |splash| == frame.Length
      modifies this, frame, blockBuffer
      ensures Valid() && Now() == Step(old(Now()), e, w, h)
      ensures cursorActive ==
        if old(waitingAnyKey) then false
        else match e
          case Alt => !old(cursorActive)
          case Size => true
          case Color => old(cursorActive)
          case _ => false
    {
      var consumed := ConsumeAnyKeyWhenWaiting();
      if consumed { return; }
      match e {
        case Alt => ToggleCursor();
        case Size => NextSize();
        case Color => NextColor();
        case Clear => ClearEvent(splash);
        case _ => MoveEvent(e);
      }
    }

    /** Over every sequence of events the cursor leaves no trace. */
    method ButtonEvents(es: seq<Event>, splash: seq<Rgb>)
      requires Valid() && Now() == START && |splash| == frame.Length
      modifies this, frame, blockBuffer
      ensures Valid() && Now() == Run(es, w, h)
      ensures !waitingAnyKey && !cursorActive ==>
        forall y, x :: 0 <= y < h && 0 <= x < w ==>
          0 <= At(y, x, w) < frame.Length && frame[At(y, x, w)] == LastColor(Strokes(es, w, h), x, y)
    {
      for k := 0 to |es|
        invariant Valid() && Now() == Run(es[..k], w, h)
      {
        assert es[..k + 1][..k] == es[..k];
        ButtonEvent(es[k], splash);
      }
      assert es[..|es|] == es;
      if !waitingAnyKey && !cursorActive {
        forall y, x | 0 <= y < h && 0 <= x < w ensures picture[y][x] == LastColor(Strokes(es, w, h), x, y) {
          PictureIsStrokes(es, w, h, x, y);
        }
      }
    }
  }
}
