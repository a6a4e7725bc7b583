/** The dashboard renderer: what a render writes, and the picture that is on the screen afterwards. */
module Dashboard {
  import opened Ints
  import opened Framebuffer
  import opened Digits
  import V = Vehicle

  /** The mode byte before any mode frame has arrived. */
  const UNSET: u8 := 0xFF

  const FULL := Rect(0, 0, 320, 240)
  const LOGO := Rect(40, 108, 240, 24)
  const STATUS := Rect(0, 0, 320, 40)
  const SPEED := Rect(20, 70, 120, 80)
  const TORQUE := Rect(180, 70, 120, 80)
  const NEGATIVE := Rect(200, 70, 100, 80)
  const WARNING := Rect(0, 170, 320, 70)
  const SOC_BAR := Rect(20, 90, 280, 24)
  const CURRENT_BAR := Rect(20, 140, 280, 24)
  const OTA_BAR := Rect(20, 110, 280, 24)

  datatype Dash = Dash(mode: u8, prev: u8, page: u8, bg: u16, speed: u8, torque: i8, soc: u8, current: u8, ota: u8)

  const INITIAL := Dash(UNSET, UNSET, 0, 0, 0, 0, 0, 0, 0)

  function Background(mode: u8): u16 {
    match V.ModeOf(mode)
    case Ready => 0x0010
    case Drive => 0x0200
    case Limp => 0xFD20
    case Fault => 0x7800
    case Charging => 0x4010
    case OtaUpdate => 0x0008
    case _ => 0x0000
  }

  /** Five bits of red, six of green and five of blue. */
  function Channels(c: u16): (int, int, int) { (c / 2048, c / 32 % 64, c % 32) }

  /** The backgrounds by mode byte: dark blue, dark green, amber, dark red, purple and midnight blue; every other byte is black. */
  lemma BackgroundColors(mode: u8)
    ensures Channels(Background(1)) == (0, 0, 16) && Channels(Background(2)) == (0, 16, 0)
    ensures Background(3) == AMBER && Channels(AMBER) == (31, 41, 0)
    ensures Channels(Background(4)) == (15, 0, 0) && Channels(Background(5)) == (8, 0, 16)
    ensures Channels(Background(7)) == (0, 0, 8)
    ensures !(mode in {1, 2, 3, 4, 5, 7}) ==> Channels(Background(mode)) == (0, 0, 0)
  {
  }

  function WithMode(d: Dash, mode: u8): Dash { d.(mode := mode, bg := Background(mode)) }

  // ----- the fills of a render -----

  function Framed(r: Rect, color: u16): seq<Fill> { Border(r, WHITE) + [Fill(Inside(r), color)] }

  function Torque(d: Dash): seq<Fill> {
    if d.torque < 0 then Minus(TORQUE, WHITE, d.bg) + Number(NEGATIVE, -(d.torque as int), WHITE, d.bg)
    else [Fill(TORQUE, d.bg)] + Number(TORQUE, d.torque, WHITE, d.bg)
  }

  function Speed(d: Dash): seq<Fill> { Number(SPEED, d.speed, WHITE, d.bg) }

  function Bars(d: Dash): seq<Fill> { Bar(SOC_BAR, d.soc, 100, d.bg) + Bar(CURRENT_BAR, d.current, 100, d.bg) }

  function StatusColor(mode: u8): u16 { if V.ModeOf(mode) == V.Limp then AMBER else GREEN }

  /** Everything a render draws on top of what is there. */
  function Body(d: Dash): seq<Fill> {
    if d.mode == UNSET then [Fill(FULL, BLACK), Fill(LOGO, WHITE)]
    else match V.ModeOf(d.mode)
      case Off => Framed(STATUS, GREEN) + (if d.page == 0 then Speed(d) else [])
      case Ready => Framed(STATUS, GREEN) + (if d.page == 0 then Speed(d) else [])
      case Drive => Framed(STATUS, GREEN) + (if d.page == 0 then Speed(d) + Torque(d) else [])
      case Limp => Framed(STATUS, AMBER) + (if d.page == 0 then Speed(d) + Torque(d) else [])
      case Fault => Framed(WARNING, RED)
      case Charging => if d.page == 0 then Bars(d) else []
      case OtaUpdate => Bar(OTA_BAR, d.ota, 100, d.bg)
      case _ => []
  }

  /** The clear of a changed screen, then the body. */
  function Drawn(d: Dash): seq<Fill> { (if d.mode != d.prev then [Fill(FULL, d.bg)] else []) + Body(d) }

  /** The same picture drawn from nothing. */
  function Redraw(d: Dash): seq<Fill> { [Fill(FULL, d.bg)] + Body(d) }

  // ----- the renderer -----

  class DashState {
    var mode: u8
    var prevMode: u8
    var page: u8
    var bgColor: u16
    var speedKmh: u8
    var torquePercent: i8
    var socPercent: u8
    var currentAx2: u8
    var otaProgress: u8

    function Value(): Dash
      reads this
    {
      Dash(mode, prevMode, page, bgColor, speedKmh, torquePercent, socPercent, currentAx2, otaProgress)
    }

    constructor ()
      ensures Value() == INITIAL
    {
      page, bgColor, speedKmh, torquePercent, socPercent, currentAx2, otaProgress := 0, 0, 0, 0, 0, 0, 0;
      mode, prevMode := UNSET, UNSET;
    }

    method SetMode(m: u8)
      modifies this
      ensures Value() == WithMode(old(Value()), m)
    {
      mode := m;
      bgColor := match V.ModeOf(m)
        case Off => 0x0000 case Ready => 0x0010 case Drive => 0x0200 case Limp => 0xFD20 case Fault => 0x7800
        case Charging => 0x4010 case Service => 0x0000 case OtaUpdate => 0x0008 case Transport => 0x0000
        case Unnamed(_) => 0x0000;
    }

    method Render(fb: array<u16>)
      requires fb.Length == PIXELS
      modifies this`prevMode, fb
      ensures Value() == old(Value()).(prev := mode)
      ensures fb[..] == Painted(Drawn(old(Value())), old(fb[..]))
    {
      hide Painted, Number, Bar, Border;
      ghost var d, was: Buffer := Value(), fb[..];
      var bg := bgColor;
      if mode != prevMode {
        FillRect(fb, 0, 0, WIDTH, HEIGHT, bg);
        prevMode := mode;
      } else {
        PaintedNothing(was);
      }
      ghost var clear := if d.mode != d.prev then [Fill(FULL, d.bg)] else [];
      assert fb[..] == Painted(clear, was);
      PaintedAppend(clear, Body(d), was);
      DrawBody(fb);
    }

    /** The part of a render that follows the clear. */
    method DrawBody(fb: array<u16>)
      requires fb.Length == PIXELS
      modifies fb
      ensures fb[..] == Painted(Body(Value()), old(fb[..]))
    {
      hide Painted, Number, Bar, Border, Speed, Torque;
      ghost var d, was: Buffer := Value(), fb[..];
      var bg := bgColor;
      if mode == UNSET {
        FillRect(fb, 0, 0, WIDTH, HEIGHT, BLACK);
        FillRect(fb, 40, 108, 240, 24, WHITE);
        PaintedAppend([Fill(FULL, BLACK)], [Fill(LOGO, WHITE)], was);
        assert Body(d) == [Fill(FULL, BLACK)] + [Fill(LOGO, WHITE)];
        return;
      }
      match V.ModeOf(mode) {
        case Off =>
          DrawFramed(fb, STATUS, GREEN);
          PaintedNothing(fb[..]);
          PaintedAppend(Framed(STATUS, GREEN), if d.page == 0 then Speed(d) else [], was);
          if page == 0 {
            DrawSpeed(fb);
          }
        case Ready =>
          DrawFramed(fb, STATUS, GREEN);
          PaintedNothing(fb[..]);
          PaintedAppend(Framed(STATUS, GREEN), if d.page == 0 then Speed(d) else [], was);
          if page == 0 {
            DrawSpeed(fb);
          }
        case Drive =>
          DrawFramed(fb, STATUS, GREEN);
          DrawSpeedAndTorque(fb);
          PaintedAppend(Framed(STATUS, GREEN), if d.page == 0 then Speed(d) + Torque(d) else [], was);
        case Limp =>
          DrawFramed(fb, STATUS, AMBER);
          DrawSpeedAndTorque(fb);
          PaintedAppend(Framed(STATUS, AMBER), if d.page == 0 then Speed(d) + Torque(d) else [], was);
        case Fault =>
          DrawFramed(fb, WARNING, RED);
        case Charging =>
          if page == 0 {
            DrawBar(fb, SOC_BAR, socPercent, 100, bg);
            DrawBar(fb, CURRENT_BAR, currentAx2, 100, bg);
            PaintedAppend(Bar(SOC_BAR, d.soc, 100, d.bg), Bar(CURRENT_BAR, d.current, 100, d.bg), was);
          } else {
            PaintedNothing(was);
          }
        case OtaUpdate =>
          DrawBar(fb, OTA_BAR, otaProgress, 100, bg);
        case _ =>
          PaintedNothing(was);
      }
    }

    method DrawSpeed(fb: array<u16>)
      requires fb.Length == PIXELS
      modifies fb
      ensures fb[..] == Painted(Speed(Value()), old(fb[..]))
    {
      hide Painted;
      DrawNumber(fb, SPEED, speedKmh, WHITE, bgColor);
    }

    method DrawSpeedAndTorque(fb: array<u16>)
      requires fb.Length == PIXELS
      modifies fb
      ensures fb[..] == Painted(if page == 0 then Speed(Value()) + Torque(Value()) else [], old(fb[..]))
    {
      hide Painted, Number, Minus;
      ghost var d, was: Buffer := Value(), fb[..];
      if page == 0 {
        DrawSpeed(fb);
        PaintedAppend(Speed(d), Torque(d), was);
        ghost var mid: Buffer := fb[..];
        if torquePercent < 0 {
          DrawMinus(fb, TORQUE, WHITE, bgColor);
          DrawNumber(fb, NEGATIVE, -(torquePercent as int), WHITE, bgColor);
          PaintedAppend(Minus(TORQUE, WHITE, d.bg), Number(NEGATIVE, -(d.torque as int), WHITE, d.bg), mid);
        } else {
          FillRect(fb, 180, 70, 120, 80, bgColor);
          DrawNumber(fb, TORQUE, torquePercent, WHITE, bgColor);
          PaintedAppend([Fill(TORQUE, d.bg)], Number(TORQUE, d.torque, WHITE, d.bg), mid);
        }
      } else {
        PaintedNothing(was);
      }
    }
  }

  method DrawFramed(fb: array<u16>, r: Rect, color: u16)
    requires fb.Length == PIXELS && OnScreen(r)
    modifies fb
    ensures fb[..] == Painted(Framed(r, color), old(fb[..]))
  {
    hide Painted, Border, Bordered;
    ghost var was: Buffer := fb[..];
    DrawBorder(fb, r, WHITE);
    BorderedOnScreen(r, WHITE, was);
    FillRect(fb, r.x + 1, r.y + 1, r.w - 2, r.h - 2, color);
    PaintedAppend(Border(r, WHITE), [Fill(Inside(r), color)], was);
  }
}
