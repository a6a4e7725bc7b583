/** Reading the values back off the screen. */
module DashboardReading {
  import opened Ints
  import opened Framebuffer
  import opened Digits
  import opened Dashboard
  import opened DashboardPicture

  function ColorAt(fb: Buffer, px: int, py: int): u16
    requires Pixel(px, py)
  {
    Position(px, py);
    fb[py * WIDTH + px]
  }

  lemma ColorIsPicture(d: Dash, px: int, py: int)
    requires Pixel(px, py)
    ensures ColorAt(Screen(d), px, py) == Picture(d, px, py)
  {
    hide Picture;
    Position(px, py);
  }

  // ----- digits -----

  /** A point of each segment that no other segment covers. */
  function Probe(s: Segment): (int, int) {
    match s
    case A => (15, 4) case B => (25, 13) case C => (25, 32) case D => (15, 42)
    case E => (3, 32) case F => (3, 13) case G => (15, 23)
  }

  lemma ProbesSeparate(d: u8, s: Segment)
    ensures Lit(d, Probe(s).0, Probe(s).1) <==> Shape(d, s)
  {
    hide Shape;
    assert Covers(Place(s), Probe(s).0, Probe(s).1);
  }

  /** The digit whose segments are lit, zero for a blank cell. */
  function Recognize(a: bool, b: bool, c: bool, d: bool, e: bool, f: bool, g: bool): nat {
    if !b && !c then 0
    else if !c then 2
    else if !b then (if e then 6 else 5)
    else if !a then (if g then 4 else 1)
    else if !d then 7
    else if !g then 0
    else if !f then 3
    else if e then 8 else 9
  }

  predicate Seen(fb: Buffer, x: int, y: int, s: Segment)
    requires x >= 0 && y >= 0 && OnScreen(Rect(x, y, DIGIT_W, DIGIT_H))
  {
    ColorAt(fb, x + Probe(s).0, y + Probe(s).1) == WHITE
  }

  function ReadCell(fb: Buffer, x: int, y: int): nat
    requires x >= 0 && y >= 0 && OnScreen(Rect(x, y, DIGIT_W, DIGIT_H))
  {
    Recognize(Seen(fb, x, y, A), Seen(fb, x, y, B), Seen(fb, x, y, C), Seen(fb, x, y, D),
              Seen(fb, x, y, E), Seen(fb, x, y, F), Seen(fb, x, y, G))
  }

  /** A region with room for three digits. */
  predicate Readable(r: Rect) { OnScreen(r) && r.w >= 90 && r.h == 80 }

  function ReadPlace(fb: Buffer, r: Rect, k: nat): nat
    requires Readable(r) && k < 3
  {
    ReadCell(fb, r.x + r.w - (k + 1) * DIGIT_W, r.y + 17)
  }

  function ReadNumber(fb: Buffer, r: Rect): nat
    requires Readable(r)
  {
    100 * ReadPlace(fb, r, 2) + 10 * ReadPlace(fb, r, 1) + ReadPlace(fb, r, 0)
  }

  /** The region shows this number in white. */
  ghost predicate Displays(fb: Buffer, r: Rect, v: nat) {
    forall px, py :: Pixel(px, py) && r.x + r.w - 90 <= px < r.x + r.w && r.y <= py < r.y + r.h ==>
                       (ColorAt(fb, px, py) == WHITE <==> Shows(r, v, px, py))
  }

  lemma ShowsInCell(r: Rect, v: nat, k: nat, dx: int, dy: int)
    requires 0 <= dx < DIGIT_W && r.h == 80
    ensures Shows(r, v, r.x + r.w - (k + 1) * DIGIT_W + dx, r.y + 17 + dy) <==> InPlace(v, k, dx, dy)
  {
    hide InPlace;
    CellOffset(k, dx);
    assert StartY(r) == r.y + 17;
    hide StartY;
    var px, py := r.x + r.w - (k + 1) * DIGIT_W + dx, r.y + 17 + dy;
    var fromRight := (k + 1) * DIGIT_W - 1 - dx;
    assert r.x + r.w - 1 - px == fromRight && py - StartY(r) == dy;
  }

  lemma CellOffset(k: nat, dx: int)
    requires 0 <= dx < DIGIT_W
    ensures var fromRight := (k + 1) * DIGIT_W - 1 - dx;
            fromRight >= 0 && fromRight / DIGIT_W == k && DIGIT_W - 1 - fromRight % DIGIT_W == dx
  {
  }

  lemma SeenSegment(fb: Buffer, r: Rect, v: nat, k: nat, s: Segment)
    requires Readable(r) && Displays(fb, r, v) && k < 3
    ensures Seen(fb, r.x + r.w - (k + 1) * DIGIT_W, r.y + 17, s) <==>
            (k == 0 || v >= Pow10(k)) && Shape(v / Pow10(k) % 10, s)
  {
    hide Lit, Shape, Shows, Pow10, ColorAt;
    var (dx, dy) := Probe(s);
    ShowsInCell(r, v, k, dx, dy);
    ProbesSeparate(v / Pow10(k) % 10, s);
  }

  lemma PlaceIsRead(fb: Buffer, r: Rect, v: nat, k: nat)
    requires Readable(r) && Displays(fb, r, v) && k < 3
    ensures ReadPlace(fb, r, k) == v / Pow10(k) % 10
  {
    hide Seen, Displays, Pow10, Readable, OnScreen;
    SeenSegment(fb, r, v, k, A);
    SeenSegment(fb, r, v, k, B);
    SeenSegment(fb, r, v, k, C);
    SeenSegment(fb, r, v, k, D);
    SeenSegment(fb, r, v, k, E);
    SeenSegment(fb, r, v, k, F);
    SeenSegment(fb, r, v, k, G);
    var p := Pow10(k);
    if k > 0 && v < p {
      assert v / p == 0;
    }
  }

  lemma NumberIsRead(fb: Buffer, r: Rect, v: nat)
    requires Readable(r) && Displays(fb, r, v) && v < 1000
    ensures ReadNumber(fb, r) == v
  {
    hide Displays, Readable, OnScreen, ReadPlace, Pow10;
    PlaceIsRead(fb, r, v, 0);
    PlaceIsRead(fb, r, v, 1);
    PlaceIsRead(fb, r, v, 2);
    Thousand();
    One();
    ThreePlaces(v);
  }

  lemma One()
    ensures Pow10(0) == 1
  {
  }

  lemma ThreePlaces(v: nat)
    requires v < 1000
    ensures 100 * (v / 100 % 10) + 10 * (v / 10 % 10) + v / 1 % 10 == v
  {
  }

  // ----- the dashboard's values -----

  lemma BackgroundIsNotWhite(mode: u8)
    ensures Background(mode) != WHITE && Background(mode) != GREEN
  {
  }

  /** The speed on the screen is the speed of the state. */
  lemma SpeedIsRead(d: Dash)
    requires ShowsSpeed(d.mode) && d.page == 0
    ensures ReadNumber(Screen(d), SPEED) == d.speed
  {
    hide ReadNumber, Screen, Shows;
    BackgroundIsNotWhite(d.mode);
    forall px, py | Pixel(px, py) && 50 <= px < 140 && 70 <= py < 150
      ensures ColorAt(Screen(d), px, py) == WHITE <==> Shows(SPEED, d.speed, px, py)
    {
      hide ColorAt;
      ColorIsPicture(d, px, py);
    }
    NumberIsRead(Screen(d), SPEED, d.speed);
  }

  /** The signed number read off the torque region. */
  function ReadTorque(fb: Buffer): int {
    if ColorAt(fb, 190, 110) == WHITE then -(ReadNumber(fb, TORQUE) as int) else ReadNumber(fb, TORQUE)
  }

  lemma TorqueIsRead(d: Dash)
    requires ShowsTorque(d.mode) && d.page == 0
    ensures ReadTorque(Screen(d)) == d.torque
  {
    hide ReadNumber, Screen, Shows;
    BackgroundIsNotWhite(d.mode);
    forall px, py | Pixel(px, py) && 210 <= px < 300 && 70 <= py < 150
      ensures ColorAt(Screen(d), px, py) == WHITE <==> Shows(TORQUE, Abs(d.torque), px, py)
    {
      hide ColorAt;
      ColorIsPicture(d, px, py);
    }
    NumberIsRead(Screen(d), TORQUE, Abs(d.torque));
    hide ColorAt;
    ColorIsPicture(d, 190, 110);
  }

  /** The column that turns green when a bar reaches a percentage. */
  function Mark(v: nat): int { 20 + 278 * v / 100 }

  /** A bar is a scale: its mark for v percent is green exactly when the value has reached v. */
  lemma BarsAreScales(d: Dash, v: nat)
    requires 1 <= v <= 100
    ensures d.mode == 5 && d.page == 0 ==> (ColorAt(Screen(d), Mark(v), 100) == GREEN <==> d.soc >= v)
    ensures d.mode == 5 && d.page == 0 ==> (ColorAt(Screen(d), Mark(v), 150) == GREEN <==> d.current >= v)
    ensures d.mode == 7 ==> (ColorAt(Screen(d), Mark(v), 120) == GREEN <==> d.ota >= v)
  {
    hide Screen, ColorAt, Shows;
    BackgroundIsNotWhite(d.mode);
    ColorIsPicture(d, Mark(v), 100);
    ColorIsPicture(d, Mark(v), 150);
    ColorIsPicture(d, Mark(v), 120);
  }
}
