/**
 Pico-Sketch without a cursor: a canvas of rows of pixels, a pencil, and what each button event does
 to them. This is what the application with its cursor is proved to show.
 */
module Canvas {

  datatype Rgb = Rgb(red: nat, green: nat, blue: nat)

  const BLACK := Rgb(0, 0, 0)
  const WHITE := Rgb(255, 255, 255)

  /** The pencil colours and sizes the buttons step through. */
  const COLORS: seq<Rgb> := [
    Rgb(0, 0, 0), Rgb(0, 0, 255), Rgb(0, 255, 0), Rgb(0, 255, 255),
    Rgb(255, 0, 0), Rgb(255, 0, 255), Rgb(255, 255, 0), Rgb(255, 255, 255)]

  const SIZES: seq<nat> := [1, 2, 3, 4, 6, 8, 10, 20]

  /** The bits of a colour's index, from the highest, are its red, green and blue: black is first and white last. */
  lemma ColorBits(i: nat)
    requires i < |COLORS|
    ensures COLORS[i] == Rgb(255 * (i / 4), 255 * (i / 2 % 2), 255 * (i % 2))
    ensures |COLORS| == 8 && COLORS[0] == BLACK && COLORS[7] == WHITE
  {}

  /** Sizes grow by one pixel up to four, by two up to ten; the last is twice that. */
  lemma SizeSteps(i: nat)
    requires i + 1 < |SIZES|
    ensures |SIZES| == 8 && SIZES[0] == 1
    ensures SIZES[i + 1] == if SIZES[i] < 4 then SIZES[i] + 1 else if SIZES[i] < 10 then SIZES[i] + 2 else 2 * SIZES[i]
  {}

  lemma SizesBounded(i: nat)
    requires i < 8
    ensures |SIZES| == 8 && |COLORS| == 8 && 1 <= SIZES[i] <= 20
  {}

  /** A rectangle; one with no positive width or height covers nothing. */
  datatype Rect = Rect(x: int, y: int, w: int, h: int)

  predicate Covers(r: Rect, x: int, y: int) {
    r.x <= x < r.x + r.w && r.y <= y < r.y + r.h
  }

  // ---------- Pixels ----------

  type Picture = seq<seq<Rgb>>

  ghost predicate Is(p: Picture, w: nat, h: nat) {
    |p| == h && forall y :: 0 <= y < h ==> |p[y]| == w
  }

  function PaintRow(row: seq<Rgb>, r: Rect, y: int, c: Rgb): (row': seq<Rgb>)
    ensures |row'| == |row|
    ensures forall x :: 0 <= x < |row| ==> row'[x] == if Covers(r, x, y) then c else row[x]
  {
    seq(|row|, x requires 0 <= x < |row| => if Covers(r, x, y) then c else row[x])
  }

  /** The picture with every pixel of the rectangle that lies in it set to the colour. */
  function Paint(p: Picture, r: Rect, c: Rgb): (p': Picture)
    ensures |p'| == |p| && forall y :: 0 <= y < |p| ==> |p'[y]| == |p[y]|
    ensures forall y, x :: 0 <= y < |p| && 0 <= x < |p[y]| ==> p'[y][x] == if Covers(r, x, y) then c else p[y][x]
  {
    seq(|p|, y requires 0 <= y < |p| => PaintRow(p[y], r, y, c))
  }

  function Blank(w: nat, h: nat): (p: Picture)
    ensures Is(p, w, h) && forall y, x :: 0 <= y < h && 0 <= x < w ==> p[y][x] == WHITE
  {
    seq(h, _ => seq(w, _ => WHITE))
  }

  // ---------- Events ----------

  datatype Event = Alt | Right | Left | Up | Down | Size | Color | Clear

  /** What a user sees: the start screen, or a canvas with a pencil on it. */
  datatype Drawing = Drawing(waiting: bool, sizeIndex: nat, colorIndex: nat, x: int, y: int, picture: Picture)

  function Clamp(v: int, limit: int): int {
    if v < 0 then 0 else if v >= limit then limit - 1 else v
  }

  function Delta(e: Event): (int, int) {
    match e
    case Right => (1, 0)
    case Left => (-1, 0)
    case Up => (0, -1)
    case Down => (0, 1)
    case _ => (0, 0)
  }

  ghost predicate Valid(d: Drawing, w: nat, h: nat) {
    && d.sizeIndex < 8 && d.colorIndex < 8
    && (d.waiting ==> d.sizeIndex == 0 && d.colorIndex == 0)
    && (!d.waiting ==> 0 <= d.x < w && 0 <= d.y < h && Is(d.picture, w, h))
  }

  /** One button event on the cursor-free drawing: `Alt`, the cursor key, changes nothing. */
  function Step(d: Drawing, e: Event, w: nat, h: nat): Drawing
    requires Valid(d, w, h) && w >= 1 && h >= 1
  {
    if d.waiting then Drawing(false, 0, 0, w / 2, h / 2, Blank(w, h)) else
    match e
    case Alt => d
    case Size => d.(sizeIndex := (d.sizeIndex + 1) % 8)
    case Color => d.(colorIndex := (d.colorIndex + 1) % 8)
    case Clear => d.(waiting := true, sizeIndex := 0, colorIndex := 0)
    case _ =>
      SizesBounded(d.sizeIndex);
      SizesBounded(d.colorIndex);
      var x, y := Clamp(d.x + Delta(e).0, w), Clamp(d.y + Delta(e).1, h);
      var size := SIZES[d.sizeIndex];
      d.(x := x, y := y, picture := Paint(d.picture, Rect(x, y, size, size), COLORS[d.colorIndex]))
  }

  lemma StepValid(d: Drawing, e: Event, w: nat, h: nat)
    requires Valid(d, w, h) && w >= 1 && h >= 1
    ensures Valid(Step(d, e, w, h), w, h)
  {}

  // ---------- Where moves take the pencil ----------

  /** `n` times the same event. */
  function Steps(d: Drawing, e: Event, n: nat, w: nat, h: nat): (d': Drawing)
    requires Valid(d, w, h) && w >= 1 && h >= 1
    ensures Valid(d', w, h)
  {
    if n == 0 then d else
    var before := Steps(d, e, n - 1, w, h);
    StepValid(before, e, w, h);
    Step(before, e, w, h)
  }

  function Min(a: int, b: int): int {
    if a <= b then a else b
  }

  function Max(a: int, b: int): int {
    if a <= b then b else a
  }

  /** A key pressed `n` times takes the pencil `n` pixels its way, up to the edge, and not to the side. */
  lemma {:induction false} MovesTake(d: Drawing, e: Event, n: nat, w: nat, h: nat)
    requires Valid(d, w, h) && w >= 1 && h >= 1 && !d.waiting && e != Clear
    ensures var d' := Steps(d, e, n, w, h);
            && !d'.waiting
            && d'.x == (if e == Right then Min(d.x + n, w - 1) else if e == Left then Max(d.x - n, 0) else d.x)
            && d'.y == (if e == Down then Min(d.y + n, h - 1) else if e == Up then Max(d.y - n, 0) else d.y)
    decreases n
  {
    if n > 0 { MovesTake(d, e, n - 1, w, h); }
  }

  /** The keys for size and colour step through all of them and start again; the pencil and the picture stay. */
  lemma {:induction false} SettingsCycle(d: Drawing, e: Event, n: nat, w: nat, h: nat)
    requires Valid(d, w, h) && w >= 1 && h >= 1 && !d.waiting && (e == Size || e == Color)
    ensures Steps(d, e, n, w, h) ==
            if e == Size then d.(sizeIndex := Turned(d.sizeIndex, n)) else d.(colorIndex := Turned(d.colorIndex, n))
    decreases n
  {
    if n > 0 { SettingsCycle(d, e, n - 1, w, h); }
  }

  /** `n` further on a ring of eight. */
  function Turned(i: nat, n: nat): (j: nat)
    ensures j == (i + n) % 8
  {
    if n == 0 then i % 8 else (Turned(i, n - 1) + 1) % 8
  }

  const START := Drawing(true, 0, 0, 0, 0, [])

  function Run(es: seq<Event>, w: nat, h: nat): (d: Drawing)
    requires w >= 1 && h >= 1
    ensures Valid(d, w, h)
  {
    if es == [] then START else
    var d := Run(es[..|es| - 1], w, h);
    StepValid(d, es[|es| - 1], w, h);
    Step(d, es[|es| - 1], w, h)
  }

  // ---------- The picture is the strokes since the last clear ----------

  datatype Stroke = Stroke(rect: Rect, color: Rgb)

  /** The strokes a run of events has drawn since the canvas was last cleared. */
  function Strokes(es: seq<Event>, w: nat, h: nat): seq<Stroke>
    requires w >= 1 && h >= 1
  {
    if es == [] then [] else
    var before, e := es[..|es| - 1], es[|es| - 1];
    var d := Run(before, w, h);
    if d.waiting || e == Clear then []
    else if e == Alt || e == Size || e == Color then Strokes(before, w, h)
    else
      SizesBounded(d.sizeIndex);
      SizesBounded(d.colorIndex);
      var size := SIZES[d.sizeIndex];
      var at := Rect(Clamp(d.x + Delta(e).0, w), Clamp(d.y + Delta(e).1, h), size, size);
      Strokes(before, w, h) + [Stroke(at, COLORS[d.colorIndex])]
  }

  /** The colour of the last stroke over a pixel, or the white of the canvas. */
  function LastColor(strokes: seq<Stroke>, x: int, y: int): Rgb {
    if strokes == [] then WHITE else
    var s := strokes[|strokes| - 1];
    if Covers(s.rect, x, y) then s.color else LastColor(strokes[..|strokes| - 1], x, y)
  }

  /** Every pixel of the canvas shows the last stroke over it since the last clear, whatever the cursor key did. */
  lemma {:induction false} PictureIsStrokes(es: seq<Event>, w: nat, h: nat, x: nat, y: nat)
    requires w >= 1 && h >= 1 && x < w && y < h && !Run(es, w, h).waiting
    ensures Run(es, w, h).picture[y][x] == LastColor(Strokes(es, w, h), x, y)
  {
    var before, e := es[..|es| - 1], es[|es| - 1];
    var d := Run(before, w, h);
    if !d.waiting {
      PictureIsStrokes(before, w, h, x, y);
      var strokes := Strokes(es, w, h);
      if e != Alt && e != Size && e != Color {
        assert strokes[..|strokes| - 1] == Strokes(before, w, h);
      }
    }
  }
}
