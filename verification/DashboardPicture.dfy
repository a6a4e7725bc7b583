/**
 * The screen as a cache: a render repaints only some regions, and what it leaves must
 * be what a redraw of the whole screen would have drawn.
 */
module DashboardPicture {
  import opened Ints
  import opened Framebuffer
  import opened Digits
  import opened Dashboard

  // ----- the picture, pixel by pixel -----

  predicate ShowsSpeed(mode: u8) { mode <= 3 }

  predicate ShowsTorque(mode: u8) { 2 <= mode <= 3 }

  predicate Paged(mode: u8) { mode <= 3 || mode == 5 }

  const SIGN := Rect(182, 106, 18, 8)

  /** Where the picture depends on the values shown and not only on the mode. */
  predicate Changing(mode: u8, px: int, py: int) {
    (ShowsSpeed(mode) && Covers(SPEED, px, py)) ||
    (ShowsTorque(mode) && (Covers(SIGN, px, py) || Covers(NEGATIVE, px, py))) ||
    (mode == 5 && (Covers(SOC_BAR, px, py) || Covers(CURRENT_BAR, px, py))) ||
    (mode == 7 && Covers(OTA_BAR, px, py))
  }

  function FramePixel(r: Rect, color: u16, px: int, py: int): u16 { if OnEdge(r, px, py) then WHITE else color }

  function Backdrop(mode: u8, px: int, py: int): u16 {
    if mode == UNSET then if Covers(LOGO, px, py) then WHITE else BLACK
    else if mode <= 3 && Covers(STATUS, px, py) then FramePixel(STATUS, StatusColor(mode), px, py)
    else if mode == 4 && Covers(WARNING, px, py) then FramePixel(WARNING, RED, px, py)
    else Background(mode)
  }

  function BarColor(r: Rect, value: u8, bg: u16, px: int, py: int): u16 {
    if OnEdge(r, px, py) then WHITE
    else if px < r.x + 1 + (if value >= 100 then r.w - 2 else (r.w - 2) * value / 100) then GREEN
    else bg
  }

  /** The values as they stand on the screen. */
  function Foreground(d: Dash, px: int, py: int): u16 {
    var bg := Background(d.mode);
    if d.mode == 5 then
      if Covers(SOC_BAR, px, py) then BarColor(SOC_BAR, d.soc, bg, px, py)
      else BarColor(CURRENT_BAR, d.current, bg, px, py)
    else if d.mode == 7 then BarColor(OTA_BAR, d.ota, bg, px, py)
    else if Covers(SPEED, px, py) then if Shows(SPEED, d.speed, px, py) then WHITE else bg
    else if Covers(SIGN, px, py) then if d.torque < 0 then WHITE else bg
    else if Shows(TORQUE, Abs(d.torque), px, py) then WHITE else bg
  }

  /** Whether a render brings the values up to date. */
  predicate Refreshes(d: Dash) { d.page == 0 || !Paged(d.mode) }

  function Picture(d: Dash, px: int, py: int): u16 {
    if Changing(d.mode, px, py) && Refreshes(d) then Foreground(d, px, py) else Backdrop(d.mode, px, py)
  }

  function Screen(d: Dash): Buffer {
    seq(PIXELS, i requires 0 <= i < PIXELS => Picture(d, i % WIDTH, i / WIDTH))
  }

  /** The dashboard's background is the one of its mode. */
  predicate Settled(d: Dash) { d.bg == Background(d.mode) }

  // ----- what the body paints -----

  lemma FramedPixel(r: Rect, color: u16, px: int, py: int, under: u16)
    requires OnScreen(r) && r.w > 2 && r.h > 2
    ensures PaintAll(Framed(r, color), px, py, under) ==
            if Covers(r, px, py) then FramePixel(r, color, px, py) else under
  {
    var u := PaintAll(Border(r, WHITE), px, py, under);
    PaintAppend(Border(r, WHITE), [Fill(Inside(r), color)], px, py, under);
    BorderPixel(r, WHITE, px, py, under);
    PaintOne(Fill(Inside(r), color), px, py, u);
    hide PaintAll;
  }

  lemma BarIs(r: Rect, value: u8, bg: u16, px: int, py: int, under: u16)
    requires OnScreen(r) && r.w == 280 && r.h > 2
    ensures PaintAll(Bar(r, value, 100, bg), px, py, under) ==
            if Covers(r, px, py) then BarColor(r, value, bg, px, py) else under
  {
    BarPixel(r, value, bg, px, py, under);
    hide PaintAll, Bar;
  }

  lemma Thousand()
    ensures Pow10(1) == 10 && Pow10(2) == 100 && Pow10(3) == 1000
  {
    assert Pow10(0) == 1;
    assert Pow10(1) == 10;
    assert Pow10(2) == 100;
  }

  /** Three digits are enough for every value shown. */
  lemma ThreeDigits(v: nat)
    requires v < 1000
    ensures v < Pow10(LIMIT) && 1 <= |Decimal(v)| <= 3
  {
    Thousand();
    Pow10Mono(3, LIMIT);
    Places(v, 3);
  }

  /** A shown number stays within three cells of its right edge. */
  lemma ShownInside(r: Rect, v: nat, px: int, py: int)
    requires v < 1000 && r.h == 80 && Shows(r, v, px, py)
    ensures r.x + r.w - 90 <= px < r.x + r.w && r.y + 17 <= py < r.y + 63
  {
    hide Lit;
    var fromRight := r.x + r.w - 1 - px;
    var k := fromRight / DIGIT_W;
    LitInCell(v / Pow10(k) % 10, DIGIT_W - 1 - fromRight % DIGIT_W, py - StartY(r));
    if k >= 3 {
      Thousand();
      Pow10Mono(3, k);
    }
  }

  lemma SmallNumberPixel(r: Rect, v: nat, bg: u16, px: int, py: int, under: u16)
    requires OnScreen(r) && v < 1000 && r.w >= 90 && r.h == 80
    ensures PaintAll(Number(r, v, WHITE, bg), px, py, under) ==
            if Covers(r, px, py) then (if Shows(r, v, px, py) then WHITE else bg) else under
  {
    hide PaintAll, Number, Shows, Decimal, Pow10;
    ThreeDigits(v);
    NumberPixel(r, v, WHITE, bg, px, py, under);
    if Shows(r, v, px, py) {
      ShownInside(r, v, px, py);
    }
  }

  /** With a minus sign, the strip around the sign is left as it was. */
  lemma NegativePixel(d: Dash, px: int, py: int, under: u16)
    requires d.torque < 0
    ensures PaintAll(Torque(d), px, py, under) ==
            if Covers(SIGN, px, py) then WHITE
            else if Covers(NEGATIVE, px, py) then (if Shows(TORQUE, Abs(d.torque), px, py) then WHITE else d.bg)
            else under
  {
    hide PaintAll, Number, Pow10, Lit;
    var v := -(d.torque as int);
    var rest := Fill(NEGATIVE, d.bg);
    var u := PaintAll(Minus(TORQUE, WHITE, d.bg), px, py, under);
    PaintAppend(Minus(TORQUE, WHITE, d.bg), Number(NEGATIVE, v, WHITE, d.bg), px, py, under);
    assert Minus(TORQUE, WHITE, d.bg) == [Fill(SIGN, WHITE), rest];
    PaintTwo(Fill(SIGN, WHITE), rest, px, py, under);
    SmallNumberPixel(NEGATIVE, v, d.bg, px, py, u);
    assert Shows(NEGATIVE, v, px, py) <==> Shows(TORQUE, v, px, py);
    hide Shows;
  }

  lemma PositivePixel(d: Dash, px: int, py: int, under: u16)
    requires d.torque >= 0
    ensures PaintAll(Torque(d), px, py, under) ==
            if Covers(TORQUE, px, py) then (if Shows(TORQUE, d.torque, px, py) then WHITE else d.bg) else under
  {
    hide PaintAll, Number, Shows;
    var u := PaintAll([Fill(TORQUE, d.bg)], px, py, under);
    PaintAppend([Fill(TORQUE, d.bg)], Number(TORQUE, d.torque, WHITE, d.bg), px, py, under);
    PaintOne(Fill(TORQUE, d.bg), px, py, under);
    SmallNumberPixel(TORQUE, d.torque, d.bg, px, py, u);
  }

  /** What the body makes of one pixel, given what was there. */
  predicate Repaints(d: Dash, px: int, py: int, under: u16, now: u16) {
    if !Changing(d.mode, px, py) then
      (under == Background(d.mode) || under == Backdrop(d.mode, px, py) ==> now == Backdrop(d.mode, px, py))
    else now == if Refreshes(d) then Foreground(d, px, py) else under
  }

  predicate Pixel(px: int, py: int) { 0 <= px < WIDTH && 0 <= py < HEIGHT }

  lemma SpeedBody(d: Dash, px: int, py: int, under: u16)
    requires Settled(d) && Pixel(px, py) && d.mode <= 1
    ensures Repaints(d, px, py, under, PaintAll(Body(d), px, py, under))
  {
    hide PaintAll, Number, Framed, Shows;
    var u := PaintAll(Framed(STATUS, GREEN), px, py, under);
    var rest := if d.page == 0 then Speed(d) else [];
    PaintAppend(Framed(STATUS, GREEN), rest, px, py, under);
    FramedPixel(STATUS, GREEN, px, py, under);
    PaintNone(px, py, u);
    SmallNumberPixel(SPEED, d.speed, d.bg, px, py, u);
  }

  lemma TorquePixel(d: Dash, px: int, py: int, under: u16)
    requires Settled(d) && ShowsTorque(d.mode)
    ensures PaintAll(Torque(d), px, py, under) ==
            if Covers(SIGN, px, py) || Covers(NEGATIVE, px, py) then Foreground(d, px, py)
            else if d.torque >= 0 && Covers(TORQUE, px, py) then d.bg
            else under
  {
    hide PaintAll, Torque, Shows;
    if d.torque < 0 {
      NegativePixel(d, px, py, under);
    } else {
      PositivePixel(d, px, py, under);
      if Shows(TORQUE, d.torque, px, py) {
        ShownInside(TORQUE, d.torque, px, py);
      }
    }
  }

  lemma TorqueBody(d: Dash, px: int, py: int, under: u16)
    requires Settled(d) && Pixel(px, py) && ShowsTorque(d.mode)
    ensures Repaints(d, px, py, under, PaintAll(Body(d), px, py, under))
  {
    hide PaintAll, Number, Framed, Shows, Torque;
    var frame := Framed(STATUS, StatusColor(d.mode));
    var u := PaintAll(frame, px, py, under);
    var rest := if d.page == 0 then Speed(d) + Torque(d) else [];
    PaintAppend(frame, rest, px, py, under);
    FramedPixel(STATUS, StatusColor(d.mode), px, py, under);
    PaintNone(px, py, u);
    var u' := PaintAll(Speed(d), px, py, u);
    PaintAppend(Speed(d), Torque(d), px, py, u);
    SmallNumberPixel(SPEED, d.speed, d.bg, px, py, u);
    TorquePixel(d, px, py, u');
  }

  lemma BarBody(d: Dash, px: int, py: int, under: u16)
    requires Settled(d) && Pixel(px, py) && (d.mode == 5 || d.mode == 7)
    ensures Repaints(d, px, py, under, PaintAll(Body(d), px, py, under))
  {
    hide PaintAll, Bar, BarColor;
    if d.mode == 7 {
      BarIs(OTA_BAR, d.ota, d.bg, px, py, under);
    } else {
      PaintNone(px, py, under);
      var u := PaintAll(Bar(SOC_BAR, d.soc, 100, d.bg), px, py, under);
      PaintAppend(Bar(SOC_BAR, d.soc, 100, d.bg), Bar(CURRENT_BAR, d.current, 100, d.bg), px, py, under);
      BarIs(SOC_BAR, d.soc, d.bg, px, py, under);
      BarIs(CURRENT_BAR, d.current, d.bg, px, py, u);
    }
  }

  lemma BodyPixel(d: Dash, px: int, py: int, under: u16)
    requires Settled(d) && Pixel(px, py)
    ensures Repaints(d, px, py, under, PaintAll(Body(d), px, py, under))
  {
    if d.mode <= 1 {
      SpeedBody(d, px, py, under);
    } else if d.mode <= 3 {
      TorqueBody(d, px, py, under);
    } else if d.mode == 5 || d.mode == 7 {
      BarBody(d, px, py, under);
    } else if d.mode == 4 {
      hide PaintAll, Framed;
      FramedPixel(WARNING, RED, px, py, under);
    } else if d.mode == UNSET {
      hide PaintAll;
      PaintTwo(Fill(FULL, BLACK), Fill(LOGO, WHITE), px, py, under);
    } else {
      hide PaintAll;
      PaintNone(px, py, under);
    }
  }

  // ----- redraws and incremental renders -----

  /** Drawn on a cleared screen, the result is the picture whatever was there before. */
  lemma RedrawIsScreen(d: Dash, s: Buffer)
    requires Settled(d)
    ensures Painted(Redraw(d), s) == Screen(d)
  {
    hide PaintAll, Body, Picture;
    forall i | 0 <= i < PIXELS
      ensures Painted(Redraw(d), s)[i] == Picture(d, i % WIDTH, i / WIDTH)
    {
      RedrawPixel(d, i % WIDTH, i / WIDTH, s[i]);
    }
  }

  lemma RedrawPixel(d: Dash, px: int, py: int, under: u16)
    requires Settled(d) && Pixel(px, py)
    ensures PaintAll(Redraw(d), px, py, under) == Picture(d, px, py)
  {
    hide PaintAll, Body, Foreground;
    PaintAppend([Fill(FULL, d.bg)], Body(d), px, py, under);
    PaintOne(Fill(FULL, d.bg), px, py, under);
    BodyPixel(d, px, py, d.bg);
    if Changing(d.mode, px, py) && !Refreshes(d) {
      ChangingIsPlain(d.mode, px, py);
    }
  }

  /** No changing region overlaps a frame. */
  lemma ChangingIsPlain(mode: u8, px: int, py: int)
    requires Changing(mode, px, py)
    ensures Backdrop(mode, px, py) == Background(mode)
  {
  }

  /** Outside the changing regions the framebuffer holds the picture of the last rendered mode. */
  ghost predicate Cached(mode: u8, fb: Buffer) {
    forall i :: 0 <= i < PIXELS && !Changing(mode, i % WIDTH, i / WIDTH) ==>
                  fb[i] == Backdrop(mode, i % WIDTH, i / WIDTH)
  }

  lemma BodyOnCache(d: Dash, fb: Buffer)
    requires Settled(d) && Cached(d.mode, fb)
    ensures Cached(d.mode, Painted(Body(d), fb))
    ensures Refreshes(d) ==> Painted(Body(d), fb) == Screen(d)
    ensures !Refreshes(d) ==> forall i :: 0 <= i < PIXELS && Changing(d.mode, i % WIDTH, i / WIDTH) ==>
                                            Painted(Body(d), fb)[i] == fb[i]
  {
    hide PaintAll, Body, Foreground, Backdrop, Changing;
    forall i | 0 <= i < PIXELS
      ensures Repaints(d, i % WIDTH, i / WIDTH, fb[i], Painted(Body(d), fb)[i])
    {
      BodyPixel(d, i % WIDTH, i / WIDTH, fb[i]);
    }
  }
}
