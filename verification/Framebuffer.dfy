/** Rectangles, borders and bars in the 320x240 dashboard framebuffer. */
module Framebuffer {
  import opened Ints

  const WIDTH := 320
  const HEIGHT := 240
  const PIXELS := 76800

  const BLACK: u16 := 0x0000
  const WHITE: u16 := 0xFFFF
  const GREEN: u16 := 0x07E0
  const RED: u16 := 0xF800
  const AMBER: u16 := 0xFD20

  // ----- paint on one pixel -----

  datatype Rect = Rect(x: int, y: int, w: int, h: int)

  predicate Covers(r: Rect, px: int, py: int) { r.x <= px < r.x + r.w && r.y <= py < r.y + r.h }

  /** A fill that does not fit the screen is not drawn at all. */
  predicate OnScreen(r: Rect) { r.x >= 0 && r.y >= 0 && r.x + r.w <= WIDTH && r.y + r.h <= HEIGHT }

  datatype Fill = Fill(r: Rect, color: u16)

  function Paint(f: Fill, px: int, py: int, under: u16): u16 {
    if OnScreen(f.r) && Covers(f.r, px, py) then f.color else under
  }

  /** The colour of a pixel after a list of fills; the last one on top. */
  function PaintAll(fs: seq<Fill>, px: int, py: int, under: u16): u16 {
    if fs == [] then under else Paint(fs[|fs| - 1], px, py, PaintAll(fs[..|fs| - 1], px, py, under))
  }

  lemma {:induction false} PaintAppend(fs: seq<Fill>, gs: seq<Fill>, px: int, py: int, under: u16)
    ensures PaintAll(fs + gs, px, py, under) == PaintAll(gs, px, py, PaintAll(fs, px, py, under))
  {
    hide Paint;
    if gs == [] {
      assert fs + gs == fs;
    } else {
      var n := |gs| - 1;
      assert (fs + gs)[..|fs| + n] == fs + gs[..n];
      PaintAppend(fs, gs[..n], px, py, under);
    }
  }

  lemma PaintNone(px: int, py: int, under: u16)
    ensures PaintAll([], px, py, under) == under
  {
  }

  lemma PaintOne(f: Fill, px: int, py: int, under: u16)
    ensures PaintAll([f], px, py, under) == Paint(f, px, py, under)
  {
    assert [f][..0] == [];
  }

  // ----- paint on a whole framebuffer -----

  type Buffer = s: seq<u16> | |s| == PIXELS witness seq(PIXELS, _ => 0)

  function Painted(fs: seq<Fill>, s: Buffer): Buffer {
    seq(PIXELS, i requires 0 <= i < PIXELS => PaintAll(fs, i % WIDTH, i / WIDTH, s[i]))
  }

  lemma PaintedAppend(fs: seq<Fill>, gs: seq<Fill>, s: Buffer)
    ensures Painted(fs + gs, s) == Painted(gs, Painted(fs, s))
  {
    hide PaintAll;
    forall i | 0 <= i < PIXELS
      ensures Painted(fs + gs, s)[i] == Painted(gs, Painted(fs, s))[i]
    {
      PaintAppend(fs, gs, i % WIDTH, i / WIDTH, s[i]);
    }
  }

  lemma PaintedNothing(s: Buffer)
    ensures Painted([], s) == s
  {
  }

  lemma Position(px: int, py: int)
    requires 0 <= px < WIDTH && 0 <= py < HEIGHT
    ensures var i := py * WIDTH + px; 0 <= i < PIXELS && i % WIDTH == px && i / WIDTH == py
  {
  }

  // ----- primitives -----

  /** The pixels of two rectangles have the colour, the rest what they had. */
  ghost predicate Filled(was: seq<u16>, now: seq<u16>, r: Rect, s: Rect, color: u16) {
    |was| == |now| &&
    forall i :: 0 <= i < |was| ==>
                  now[i] == if Covers(r, i % WIDTH, i / WIDTH) || Covers(s, i % WIDTH, i / WIDTH) then color else was[i]
  }

  const NOWHERE := Rect(0, 0, 0, 0)

  method FillRect(fb: array<u16>, x: int, y: int, w: int, h: int, color: u16)
    requires fb.Length == PIXELS
    modifies fb
    ensures fb[..] == Painted([Fill(Rect(x, y, w, h), color)], old(fb[..]))
  {
    hide Painted, PaintAll;
    ghost var was: Buffer := fb[..];
    if x < 0 || y < 0 || x + w > WIDTH || y + h > HEIGHT {
      NotFilled(Rect(x, y, w, h), color, was);
      return;
    }
    assert Filled(was, fb[..], Rect(x, y, w, 0), NOWHERE, color);
    var row := 0;
    while row < h
      invariant 0 <= row && (row <= h || row == 0)
      invariant Filled(was, fb[..], Rect(x, y, w, row), NOWHERE, color)
    {
      var line := (y + row) * WIDTH + x;
      var col := 0;
      StartRow(was, fb[..], x, y, w, row, color);
      while col < w
        invariant 0 <= col && (col <= w || col == 0)
        invariant Filled(was, fb[..], Rect(x, y, w, row), Rect(x, y + row, col, 1), color)
      {
        Position(x + col, y + row);
        ghost var before := fb[..];
        fb[line + col] := color;
        OnePixel(was, before, fb[..], x, y, w, row, col, color);
        col := col + 1;
      }
      EndRow(was, fb[..], x, y, w, row, col, color);
      row := row + 1;
    }
    AllRows(was, fb[..], x, y, w, h, row, color);
  }

  lemma StartRow(was: seq<u16>, now: seq<u16>, x: int, y: int, w: int, row: int, color: u16)
    requires Filled(was, now, Rect(x, y, w, row), NOWHERE, color)
    ensures Filled(was, now, Rect(x, y, w, row), Rect(x, y + row, 0, 1), color)
  {
  }

  lemma OnePixel(was: seq<u16>, before: seq<u16>, now: seq<u16>, x: int, y: int, w: int, row: nat, col: nat, color: u16)
    requires Filled(was, before, Rect(x, y, w, row), Rect(x, y + row, col, 1), color)
    requires |was| == PIXELS && 0 <= x + col < WIDTH && 0 <= y + row < HEIGHT
    requires now == before[(y + row) * WIDTH + x + col := color]
    ensures Filled(was, now, Rect(x, y, w, row), Rect(x, y + row, col + 1, 1), color)
  {
    Position(x + col, y + row);
  }

  lemma EndRow(was: seq<u16>, now: seq<u16>, x: int, y: int, w: int, row: nat, col: nat, color: u16)
    requires col >= w && (col == w || col == 0)
    requires Filled(was, now, Rect(x, y, w, row), Rect(x, y + row, col, 1), color)
    ensures Filled(was, now, Rect(x, y, w, row + 1), NOWHERE, color)
  {
  }

  lemma AllRows(was: Buffer, now: seq<u16>, x: int, y: int, w: int, h: int, row: nat, color: u16)
    requires OnScreen(Rect(x, y, w, h)) && row >= h && (row == h || row == 0)
    requires Filled(was, now, Rect(x, y, w, row), NOWHERE, color)
    ensures now == Painted([Fill(Rect(x, y, w, h), color)], was)
  {
    var f := Fill(Rect(x, y, w, h), color);
    forall i | 0 <= i < PIXELS
      ensures now[i] == PaintAll([f], i % WIDTH, i / WIDTH, was[i])
    {
      PaintOne(f, i % WIDTH, i / WIDTH, was[i]);
      hide PaintAll;
    }
    hide PaintAll;
  }

  lemma NotFilled(r: Rect, color: u16, was: Buffer)
    requires !OnScreen(r)
    ensures was == Painted([Fill(r, color)], was)
  {
    forall i | 0 <= i < PIXELS
      ensures was[i] == PaintAll([Fill(r, color)], i % WIDTH, i / WIDTH, was[i])
    {
      PaintOne(Fill(r, color), i % WIDTH, i / WIDTH, was[i]);
      hide PaintAll;
    }
    hide PaintAll;
  }

  // ----- borders -----

  function Border(r: Rect, color: u16): seq<Fill> {
    if r.w <= 0 || r.h <= 0 then [] else
    [Fill(Rect(r.x, r.y, r.w, 1), color), Fill(Rect(r.x, r.y + r.h - 1, r.w, 1), color)] +
    [Fill(Rect(r.x, r.y + 1, 1, r.h - 2), color), Fill(Rect(r.x + r.w - 1, r.y + 1, 1, r.h - 2), color)]
  }

  function Inside(r: Rect): Rect { Rect(r.x + 1, r.y + 1, r.w - 2, r.h - 2) }

  predicate OnEdge(r: Rect, px: int, py: int) { Covers(r, px, py) && !Covers(Inside(r), px, py) }

  lemma PaintTwo(f: Fill, g: Fill, px: int, py: int, under: u16)
    ensures PaintAll([f, g], px, py, under) == Paint(g, px, py, Paint(f, px, py, under))
  {
    hide Paint;
    assert [f, g] == [f] + [g];
    PaintAppend([f], [g], px, py, under);
    PaintOne(f, px, py, under);
    PaintOne(g, px, py, Paint(f, px, py, under));
  }

  /** A border colours the pixels of the rectangle that are not in its interior. */
  lemma BorderPixel(r: Rect, color: u16, px: int, py: int, under: u16)
    requires OnScreen(r)
    ensures PaintAll(Border(r, color), px, py, under) == if OnEdge(r, px, py) then color else under
  {
    if r.w > 0 && r.h > 0 {
      var top, bottom := Fill(Rect(r.x, r.y, r.w, 1), color), Fill(Rect(r.x, r.y + r.h - 1, r.w, 1), color);
      var left := Fill(Rect(r.x, r.y + 1, 1, r.h - 2), color);
      var right := Fill(Rect(r.x + r.w - 1, r.y + 1, 1, r.h - 2), color);
      var u := PaintAll([top, bottom], px, py, under);
      assert PaintAll(Border(r, color), px, py, under) == PaintAll([left, right], px, py, u) by {
        PaintAppend([top, bottom], [left, right], px, py, under);
      }
      PaintTwo(top, bottom, px, py, under);
      PaintTwo(left, right, px, py, u);
      hide PaintAll;
    }
  }

  /** Framebuffer position of the upper left corner. */
  function Corner(r: Rect): int { r.y * WIDTH + r.x }

  /** Offset d from the corner lies on the first columns of the top or bottom edge. */
  predicate Ends(r: Rect, col: int, d: int) {
    0 <= d < col || (r.h - 1) * WIDTH <= d < (r.h - 1) * WIDTH + col
  }

  /** Offset d lies in the column of the corner, below it and above a row. */
  predicate Side(row: int, d: int) { d % WIDTH == 0 && 0 < d / WIDTH < row }

  /** Position i is on the border, wherever the rectangle lies; what leaves the right side runs on in the next row. */
  predicate EdgeAt(r: Rect, i: int) {
    r.w > 0 && r.h > 0 &&
    var d := i - Corner(r);
    Ends(r, r.w, d) || Side(r.h - 1, d) || Side(r.h - 1, d - (r.w - 1))
  }

  function Bordered(r: Rect, color: u16, s: Buffer): Buffer {
    seq(PIXELS, i requires 0 <= i < PIXELS => if EdgeAt(r, i) then color else s[i])
  }

  /** The corner, if there is one, is not before the framebuffer: the bounds tests only look at its end. */
  predicate StartsInside(r: Rect) { r.w <= 0 || r.h <= 0 || Corner(r) >= 0 }

  method Plot(fb: array<u16>, i: nat, color: u16)
    requires fb.Length == PIXELS
    modifies fb
    ensures forall j :: 0 <= j < PIXELS ==> fb[j] == if j == i then color else old(fb[j])
  {
    if i < WIDTH * HEIGHT {
      fb[i] := color;
    }
  }

  method DrawBorder(fb: array<u16>, r: Rect, color: u16)
    requires fb.Length == PIXELS && StartsInside(r)
    modifies fb
    ensures fb[..] == Bordered(r, color, old(fb[..]))
  {
    ghost var was: Buffer := fb[..];
    if r.w <= 0 || r.h <= 0 {
      return;
    }
    ghost var t := Corner(r);
    var col := 0;
    while col < r.w
      invariant 0 <= col <= r.w
      invariant forall i :: 0 <= i < PIXELS ==> fb[i] == if Ends(r, col, i - t) then color else was[i]
    {
      Plot(fb, r.y * WIDTH + (r.x + col), color);
      Plot(fb, (r.y + r.h - 1) * WIDTH + (r.x + col), color);
      col := col + 1;
    }
    var row := 1;
    hide Ends, Side;
    NoSide();
    while row < r.h - 1
      invariant 1 <= row && (row <= r.h - 1 || row == 1)
      invariant forall i :: 0 <= i < PIXELS ==>
        fb[i] == if Ends(r, r.w, i - t) || Side(row, i - t) || Side(row, i - t - (r.w - 1)) then color else was[i]
    {
      SideGrows(row);
      Plot(fb, (r.y + row) * WIDTH + r.x, color);
      Plot(fb, (r.y + row) * WIDTH + (r.x + r.w - 1), color);
      row := row + 1;
    }
    NoSide();
  }

  lemma NoSide()
    ensures forall d, row :: row <= 1 ==> !Side(row, d)
  {
  }

  lemma SideGrows(row: int)
    requires row >= 1
    ensures forall d :: Side(row + 1, d) <==> Side(row, d) || d == row * WIDTH
  {
  }

  /** On the screen the border is the rectangle without its interior. */
  lemma EdgeOnScreen(r: Rect, px: int, py: int)
    requires OnScreen(r) && 0 <= px < WIDTH && 0 <= py < HEIGHT
    ensures EdgeAt(r, py * WIDTH + px) <==> OnEdge(r, px, py)
  {
    if r.w > 0 && r.h > 0 {
      var d, dx, dy := py * WIDTH + px - Corner(r), px - r.x, py - r.y;
      assert d == dy * WIDTH + dx;
      assert Side(r.h - 1, d) <==> dx == 0 && 0 < dy < r.h - 1;
      assert Side(r.h - 1, d - (r.w - 1)) <==> dx == r.w - 1 && 0 < dy < r.h - 1;
      hide Side;
    }
  }

  lemma BorderedOnScreen(r: Rect, color: u16, s: Buffer)
    requires OnScreen(r)
    ensures Bordered(r, color, s) == Painted(Border(r, color), s)
  {
    hide PaintAll, Border, EdgeAt, OnEdge;
    forall i | 0 <= i < PIXELS
      ensures Bordered(r, color, s)[i] == Painted(Border(r, color), s)[i]
    {
      EdgeOnScreen(r, i % WIDTH, i / WIDTH);
      BorderPixel(r, color, i % WIDTH, i / WIDTH, s[i]);
    }
  }

  // ----- bars -----

  function FillWidth(w: int, value: u8, max: u8): int
    requires w > 0 && max > 0
  {
    if w * value / max > w then w else w * value / max
  }

  /** What a bar draws inside its border. */
  function BarInside(r: Rect, value: u8, max: u8, bg: u16): seq<Fill> {
    if max == 0 || r.w <= 2 || r.h <= 2 then [] else
    [Fill(Inside(r), bg), Fill(Inside(r).(w := FillWidth(r.w - 2, value, max)), GREEN)]
  }

  function Bar(r: Rect, value: u8, max: u8, bg: u16): seq<Fill> {
    Border(r, WHITE) + BarInside(r, value, max, bg)
  }

  method DrawBar(fb: array<u16>, r: Rect, value: u8, max: u8, bg: u16)
    requires fb.Length == PIXELS && StartsInside(r)
    modifies fb
    ensures fb[..] == Painted(BarInside(r, value, max, bg), Bordered(r, WHITE, old(fb[..])))
    ensures OnScreen(r) ==> fb[..] == Painted(Bar(r, value, max, bg), old(fb[..]))
  {
    hide Painted, Bordered, Border;
    ghost var was: Buffer := fb[..];
    DrawBorder(fb, r, WHITE);
    ghost var edged: Buffer := fb[..];
    PaintedNothing(edged);
    if OnScreen(r) {
      BorderedOnScreen(r, WHITE, was);
      PaintedAppend(Border(r, WHITE), BarInside(r, value, max, bg), was);
    }
    if max == 0 {
      return;
    }
    var innerW, innerH := r.w - 2, r.h - 2;
    if innerW <= 0 || innerH <= 0 {
      return;
    }
    var fillW := innerW * value / max;
    if fillW > innerW {
      fillW := innerW;
    }
    FillRect(fb, r.x + 1, r.y + 1, innerW, innerH, bg);
    FillRect(fb, r.x + 1, r.y + 1, fillW, innerH, GREEN);
    ghost var f, g := Fill(Inside(r), bg), Fill(Inside(r).(w := fillW), GREEN);
    PaintedAppend([f], [g], edged);
    assert [f] + [g] == [f, g];
  }

  lemma FillWidthFits(w: int, value: u8)
    requires w > 0
    ensures 0 <= FillWidth(w, value, 100) <= w
  {
    assert w * value >= 0;
  }

  /** A bar is a white frame around a green part and the background to its right. */
  lemma BarPixel(r: Rect, value: u8, bg: u16, px: int, py: int, under: u16)
    requires OnScreen(r) && r.w > 2 && r.h > 2
    ensures PaintAll(Bar(r, value, 100, bg), px, py, under) ==
            if OnEdge(r, px, py) then WHITE
            else if !Covers(r, px, py) then under
            else if px < r.x + 1 + FillWidth(r.w - 2, value, 100) then GREEN
            else bg
  {
    hide PaintAll, Border, FillWidth;
    var u := PaintAll(Border(r, WHITE), px, py, under);
    BorderPixel(r, WHITE, px, py, under);
    var f, g := Fill(Inside(r), bg), Fill(Inside(r).(w := FillWidth(r.w - 2, value, 100)), GREEN);
    PaintAppend(Border(r, WHITE), [f, g], px, py, under);
    PaintTwo(f, g, px, py, u);
    FillWidthFits(r.w - 2, value);
  }
}
