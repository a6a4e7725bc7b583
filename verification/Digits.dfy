/** Seven-segment numbers: the digit string, the segments drawn, and what they show. */
module Digits {
  import opened Ints
  import opened Monotone
  import opened Framebuffer

  // ----- the digit string -----

  /** The last digits of a positive number, at most n of them, most significant first. */
  function LowDigits(v: int, n: nat): seq<u8> {
    if v <= 0 || n == 0 then [] else LowDigits(v / 10, n - 1) + [v % 10]
  }

  const LIMIT := 7

  function Decimal(v: int): seq<u8> { if v == 0 then [0] else LowDigits(v, LIMIT) }

  function Pow10(k: nat): (r: nat)
    ensures r > 0
  {
    if k == 0 then 1 else 10 * Pow10(k - 1)
  }

  /** Counted from the right, digit k is the k-th decimal place, and leading zeros are not part of the string. */
  lemma {:induction false} LowDigitsArePlaces(v: int, n: nat, k: nat)
    ensures k < |LowDigits(v, n)| <==> k < n && v >= Pow10(k)
    ensures k < |LowDigits(v, n)| ==> LowDigits(v, n)[|LowDigits(v, n)| - 1 - k] == v / Pow10(k) % 10
  {
    if v > 0 && n > 0 && k > 0 {
      LowDigitsArePlaces(v / 10, n - 1, k - 1);
      var p := Pow10(k - 1);
      DivDiv(v, p);
    } else if v <= 0 {
      assert v < Pow10(k);
    }
  }

  lemma DivDiv(v: nat, p: nat)
    requires p > 0
    ensures v / 10 / p == v / (10 * p)
    ensures v / 10 >= p <==> v >= 10 * p
  {
    var q, m := v / 10, v % 10;
    var a, b := q / p, q % p;
    assert v == 10 * (a * p + b) + m;
    assert v == a * (10 * p) + (10 * b + m);
    assert 0 <= 10 * b + m < 10 * p;
    QuotientIs(v, 10 * p, a, 10 * b + m);
  }

  lemma QuotientIs(v: nat, d: nat, q: nat, r: nat)
    requires d > 0 && v == q * d + r && r < d
    ensures v / d == q
  {
    var p := v / d;
    assert v == p * d + v % d;
    assert (q + 1) * d == q * d + d && (p + 1) * d == p * d + d;
    if p > q {
      MulMono(q + 1, p, d);
      assert false;
    } else if p < q {
      MulMono(p + 1, q, d);
      assert false;
    }
  }

  function Mirror(s: seq<u8>): seq<u8> {
    seq(|s|, i requires 0 <= i < |s| => s[|s| - 1 - i])
  }

  function Char(d: u8): int { 48 + d }

  /** The characters of a digit string. */
  function Text(s: seq<u8>): seq<int> {
    seq(|s|, i requires 0 <= i < |s| => Char(s[i]))
  }

  /** Builds the digit string in the buffer, last digit first and then reversed in place. */
  method DigitString(buf: array<int>, value: int) returns (nd: nat)
    requires buf.Length == 8
    modifies buf
    ensures nd <= LIMIT
    ensures buf[..nd] == Text(Decimal(value))
  {
    if value == 0 {
      buf[0] := 48;
      return 1;
    }
    nd := 0;
    var v := value;
    ghost var back: seq<u8> := [];
    assert Mirror(back) == [];
    hide LowDigits, Mirror;
    while v > 0 && nd < LIMIT
      invariant 0 <= nd <= LIMIT && nd == |back|
      invariant buf[..nd] == Text(back)
      invariant LowDigits(v, LIMIT - nd) + Mirror(back) == LowDigits(value, LIMIT)
      decreases LIMIT - nd
    {
      NextDigit(v, LIMIT - nd, back);
      back := back + [v % 10];
      buf[nd] := 48 + v % 10;
      nd, v := nd + 1, v / 10;
    }
    NoDigits(v, LIMIT - nd);
    assert Mirror(back) == LowDigits(value, LIMIT);
    ReverseInPlace(buf, nd);
    MirrorText(back);
    assert forall k :: 0 <= k < nd ==> buf[k] == Text(back)[nd - 1 - k];
    assert buf[..nd] == Text(Mirror(back));
  }

  lemma NoDigits(v: int, n: nat)
    requires v <= 0 || n == 0
    ensures LowDigits(v, n) == []
  {
  }

  lemma MirrorText(s: seq<u8>)
    ensures |Text(Mirror(s))| == |s| && forall k :: 0 <= k < |s| ==> Text(Mirror(s))[k] == Text(s)[|s| - 1 - k]
  {
  }

  method ReverseInPlace(buf: array<int>, nd: nat)
    requires nd <= buf.Length
    modifies buf
    ensures forall k :: 0 <= k < nd ==> buf[k] == old(buf[nd - 1 - k])
  {
    var i := 0;
    while i < nd / 2
      invariant 0 <= i <= nd / 2
      invariant forall k :: 0 <= k < i ==> buf[k] == old(buf[nd - 1 - k]) && buf[nd - 1 - k] == old(buf[k])
      invariant forall k :: i <= k < nd - i ==> buf[k] == old(buf[k])
    {
      buf[i], buf[nd - 1 - i] := buf[nd - 1 - i], buf[i];
      i := i + 1;
    }
  }

  lemma NextDigit(v: int, n: nat, back: seq<u8>)
    requires v > 0 && n > 0
    ensures LowDigits(v / 10, n - 1) + Mirror(back + [v % 10]) == LowDigits(v, n) + Mirror(back)
  {
    assert Mirror(back + [v % 10]) == [v % 10] + Mirror(back);
  }

  // ----- one digit -----

  const DIGIT_W := 30
  const DIGIT_H := 46

  datatype Segment = A | B | C | D | E | F | G

  /** Where a segment lies in the cell of a digit. */
  function Place(s: Segment): Rect {
    match s
    case A => Rect(1, 0, 28, 8) case B => Rect(22, 1, 8, 18) case C => Rect(22, 20, 8, 18)
    case D => Rect(1, 38, 28, 8) case E => Rect(0, 20, 8, 18) case F => Rect(0, 1, 8, 18)
    case G => Rect(1, 19, 28, 8)
  }

  /**
    * The shape of the cell: strokes of 8 pixels; three bars of 28, centred; two pairs of uprights of 18
    * against the sides, each starting one pixel below the top of a bar and ending where the next
    * begins; the first bar at the top and the last at the bottom.
    */
  lemma CellGeometry()
    ensures forall s: Segment :: s == A || s == D || s == G ==>
              Place(s).w == 28 && Place(s).h == 8 && Place(s).x + Place(s).x + Place(s).w == DIGIT_W
    ensures forall s: Segment :: s == B || s == C || s == E || s == F ==> Place(s).w == 8 && Place(s).h == 18
    ensures Place(E).x == Place(F).x == 0 && Place(B).x + 8 == Place(C).x + 8 == DIGIT_W
    ensures Place(A).y == 0 && Place(D).y + 8 == DIGIT_H
    ensures Place(F).y == Place(B).y == Place(A).y + 1 && Place(F).y + 18 == Place(G).y
    ensures Place(E).y == Place(C).y == Place(G).y + 1 && Place(E).y + 18 == Place(D).y
  {
  }

  const DIGIT_SEGS: seq<bv8> := [0x7E, 0x30, 0x6D, 0x79, 0x33, 0x5B, 0x5F, 0x70, 0x7F, 0x7B]

  /** The bit of a segment in a mask. */
  function MaskBit(s: Segment): bv8 {
    match s
    case A => 0x40 case B => 0x20 case C => 0x10 case D => 0x08 case E => 0x04 case F => 0x02 case G => 0x01
  }

  predicate InMask(d: u8, s: Segment)
    requires d <= 9
  {
    DIGIT_SEGS[d] & MaskBit(s) != 0
  }

  /** The segments that make up the usual shape of each digit. */
  predicate Shape(d: u8, s: Segment) {
    match s
    case A => d != 1 && d != 4
    case B => d != 5 && d != 6
    case C => d != 2
    case D => d != 1 && d != 4 && d != 7
    case E => d == 0 || d == 2 || d == 6 || d == 8
    case F => d == 0 || 4 <= d <= 6 || 8 <= d <= 9
    case G => d != 0 && d != 1 && d != 7
  }

  lemma MasksAreShapes(d: u8, s: Segment)
    requires d <= 9
    ensures InMask(d, s) <==> Shape(d, s)
  {
    var m := DIGIT_SEGS[d];
    assert m == (match d case 0 => 0x7E case 1 => 0x30 case 2 => 0x6D case 3 => 0x79 case 4 => 0x33
                 case 5 => 0x5B case 6 => 0x5F case 7 => 0x70 case 8 => 0x7F case _ => 0x7B);
  }

  function At(x: int, y: int, r: Rect): Rect { Rect(x + r.x, y + r.y, r.w, r.h) }

  function SegmentFill(x: int, y: int, d: u8, s: Segment, color: u16): seq<Fill>
    requires d <= 9
  {
    if InMask(d, s) then [Fill(At(x, y, Place(s)), color)] else []
  }

  const SEGMENTS := [A, B, C, D, E, F, G]

  /** The first n segments of a digit, those its mask names. */
  function Segments(x: int, y: int, d: u8, color: u16, n: nat): seq<Fill>
    requires d <= 9 && n <= 7
  {
    if n == 0 then [] else Segments(x, y, d, color, n - 1) + SegmentFill(x, y, d, SEGMENTS[n - 1], color)
  }

  function Digit(x: int, y: int, d: u8, color: u16): seq<Fill> {
    if d > 9 then [] else Segments(x, y, d, color, 7)
  }

  method DrawSegment(fb: array<u16>, x: int, y: int, d: u8, n: nat, color: u16, ghost was: Buffer)
    requires fb.Length == PIXELS && d <= 9 && n < 7
    requires fb[..] == Painted(Segments(x, y, d, color, n), was)
    modifies fb
    ensures fb[..] == Painted(Segments(x, y, d, color, n + 1), was)
  {
    hide Painted, InMask;
    var s := SEGMENTS[n];
    PaintedAppend(Segments(x, y, d, color, n), SegmentFill(x, y, d, s, color), was);
    if InMask(d, s) {
      var r := Place(s);
      FillRect(fb, x + r.x, y + r.y, r.w, r.h, color);
    } else {
      PaintedNothing(fb[..]);
    }
  }

  method DrawDigit(fb: array<u16>, x: int, y: int, d: u8, color: u16)
    requires fb.Length == PIXELS
    modifies fb
    ensures fb[..] == Painted(Digit(x, y, d, color), old(fb[..]))
  {
    hide Painted;
    ghost var was: Buffer := fb[..];
    PaintedNothing(was);
    if d > 9 {
      return;
    }
    DrawSegment(fb, x, y, d, 0, color, was);
    DrawSegment(fb, x, y, d, 1, color, was);
    DrawSegment(fb, x, y, d, 2, color, was);
    DrawSegment(fb, x, y, d, 3, color, was);
    DrawSegment(fb, x, y, d, 4, color, was);
    DrawSegment(fb, x, y, d, 5, color, was);
    DrawSegment(fb, x, y, d, 6, color, was);
  }

  /** A pixel of the cell is lit when some segment of the digit covers it. */
  predicate Lit(d: u8, dx: int, dy: int) {
    exists s: Segment :: Shape(d, s) && Covers(Place(s), dx, dy)
  }

  lemma {:induction false} SegmentsPixel(x: int, y: int, d: u8, color: u16, n: nat, px: int, py: int, under: u16)
    requires d <= 9 && n <= 7 && OnScreen(Rect(x, y, DIGIT_W, DIGIT_H))
    ensures PaintAll(Segments(x, y, d, color, n), px, py, under) ==
            if exists k :: 0 <= k < n && Shape(d, SEGMENTS[k]) && Covers(Place(SEGMENTS[k]), px - x, py - y)
            then color else under
  {
    hide PaintAll, InMask, Shape;
    if n == 0 {
      PaintNone(px, py, under);
    } else {
      SegmentsPixel(x, y, d, color, n - 1, px, py, under);
      var s, u := SEGMENTS[n - 1], PaintAll(Segments(x, y, d, color, n - 1), px, py, under);
      PaintAppend(Segments(x, y, d, color, n - 1), SegmentFill(x, y, d, s, color), px, py, under);
      SegmentPixel(x, y, d, color, s, px, py, u);
      MasksAreShapes(d, s);
    }
  }

  lemma SegmentPixel(x: int, y: int, d: u8, color: u16, s: Segment, px: int, py: int, under: u16)
    requires d <= 9 && OnScreen(Rect(x, y, DIGIT_W, DIGIT_H))
    ensures PaintAll(SegmentFill(x, y, d, s, color), px, py, under) ==
            if InMask(d, s) && Covers(Place(s), px - x, py - y) then color else under
  {
    hide InMask;
    PaintNone(px, py, under);
    PaintOne(Fill(At(x, y, Place(s)), color), px, py, under);
    hide PaintAll;
  }

  lemma DigitPixel(x: int, y: int, d: u8, color: u16, px: int, py: int, under: u16)
    requires d <= 9 && OnScreen(Rect(x, y, DIGIT_W, DIGIT_H))
    ensures PaintAll(Digit(x, y, d, color), px, py, under) == if Lit(d, px - x, py - y) then color else under
  {
    hide PaintAll, Segments, Shape;
    SegmentsPixel(x, y, d, color, 7, px, py, under);
    if Lit(d, px - x, py - y) {
      var s: Segment :| Shape(d, s) && Covers(Place(s), px - x, py - y);
      var k := match s case A => 0 case B => 1 case C => 2 case D => 3 case E => 4 case F => 5 case G => 6;
      assert SEGMENTS[k] == s;
    }
  }

  // ----- numbers -----

  /** A row of digits, one cell each. */
  function Row(x: int, y: int, ds: seq<u8>, color: u16): seq<Fill> {
    if ds == [] then [] else
      var n := |ds| - 1;
      Row(x, y, ds[..n], color) + Digit(x + n * DIGIT_W, y, ds[n], color)
  }

  function StartX(r: Rect, v: int): int { r.x + r.w - |Decimal(v)| * DIGIT_W }

  function StartY(r: Rect): int { r.y + TruncDiv(r.h - DIGIT_H, 2) }

  function Number(r: Rect, v: int, color: u16, bg: u16): seq<Fill> {
    [Fill(r, bg)] + Row(StartX(r, v), StartY(r), Decimal(v), color)
  }

  method DrawNumber(fb: array<u16>, r: Rect, value: int, color: u16, bg: u16)
    requires fb.Length == PIXELS
    modifies fb
    ensures fb[..] == Painted(Number(r, value, color, bg), old(fb[..]))
  {
    hide Painted, Digit, Decimal;
    ghost var was: Buffer := fb[..];
    ghost var ds := Decimal(value);
    var buf := new int[8];
    var nd := DigitString(buf, value);
    assert |Text(ds)| == nd;
    var totalW := nd * DIGIT_W;
    var startX, startY := r.x + r.w - totalW, r.y + TruncDiv(r.h - DIGIT_H, 2);
    FillRect(fb, r.x, r.y, r.w, r.h, bg);
    ghost var cleared: Buffer := fb[..];
    PaintedNothing(cleared);
    var i := 0;
    while i < nd
      invariant 0 <= i <= nd == |ds| && buf[..nd] == Text(ds)
      invariant fb[..] == Painted(Row(startX, startY, ds[..i], color), cleared)
    {
      assert buf[i] == buf[..nd][i] == Char(ds[i]);
      DrawDigit(fb, startX + i * DIGIT_W, startY, buf[i] - 48, color);
      NextCell(startX, startY, ds, i, color, cleared);
      i := i + 1;
    }
    assert ds[..nd] == ds;
    PaintedAppend([Fill(r, bg)], Row(startX, startY, ds, color), was);
  }

  lemma NextCell(x: int, y: int, ds: seq<u8>, i: nat, color: u16, was: Buffer)
    requires i < |ds|
    ensures Painted(Row(x, y, ds[..i + 1], color), was) ==
            Painted(Digit(x + i * DIGIT_W, y, ds[i], color), Painted(Row(x, y, ds[..i], color), was))
  {
    hide Painted, Digit;
    assert ds[..i + 1][..i] == ds[..i];
    PaintedAppend(Row(x, y, ds[..i], color), Digit(x + i * DIGIT_W, y, ds[i], color), was);
  }

  predicate AllDigits(ds: seq<u8>) { forall i :: 0 <= i < |ds| ==> ds[i] <= 9 }

  /** What a row shows at an offset from its left end. */
  predicate RowLit(ds: seq<u8>, dx: int, dy: int) {
    0 <= dx < |ds| * DIGIT_W && Lit(ds[dx / DIGIT_W], dx % DIGIT_W, dy)
  }

  lemma {:induction false} RowPixel(x: int, y: int, ds: seq<u8>, color: u16, px: int, py: int, under: u16)
    requires OnScreen(Rect(x, y, |ds| * DIGIT_W, DIGIT_H)) && AllDigits(ds)
    ensures PaintAll(Row(x, y, ds, color), px, py, under) == if RowLit(ds, px - x, py - y) then color else under
  {
    hide PaintAll, Digit, Lit;
    if ds == [] {
      PaintNone(px, py, under);
    } else {
      var n := |ds| - 1;
      var u := PaintAll(Row(x, y, ds[..n], color), px, py, under);
      RowPixel(x, y, ds[..n], color, px, py, under);
      PaintAppend(Row(x, y, ds[..n], color), Digit(x + n * DIGIT_W, y, ds[n], color), px, py, under);
      DigitPixel(x + n * DIGIT_W, y, ds[n], color, px, py, u);
      RowStep(ds, px - x, py - y);
    }
  }

  lemma RowStep(ds: seq<u8>, dx: int, dy: int)
    requires ds != []
    ensures var n := |ds| - 1;
            RowLit(ds, dx, dy) <==> RowLit(ds[..n], dx, dy) || Lit(ds[n], dx - n * DIGIT_W, dy)
  {
    var n := |ds| - 1;
    LitInCell(ds[n], dx - n * DIGIT_W, dy);
    hide Lit;
    if n * DIGIT_W <= dx < n * DIGIT_W + DIGIT_W {
      assert dx / DIGIT_W == n && dx % DIGIT_W == dx - n * DIGIT_W;
    }
  }

  lemma LitInCell(d: u8, dx: int, dy: int)
    ensures Lit(d, dx, dy) ==> 0 <= dx < DIGIT_W && 0 <= dy < DIGIT_H
  {
  }

  /**
   * What a number shows: in the cell k places from the right edge stands the k-th decimal
   * digit, without leading zeros.
   */
  predicate Shows(r: Rect, v: nat, px: int, py: int) {
    var fromRight := r.x + r.w - 1 - px;
    fromRight >= 0 &&
    InPlace(v, fromRight / DIGIT_W, DIGIT_W - 1 - fromRight % DIGIT_W, py - StartY(r))
  }

  predicate InPlace(v: nat, k: nat, dx: int, dy: int) {
    (k == 0 || v >= Pow10(k)) && Lit(v / Pow10(k) % 10, dx, dy)
  }

  lemma Places(v: nat, k: nat)
    requires v < Pow10(LIMIT)
    ensures |Decimal(v)| > 0 && AllDigits(Decimal(v))
    ensures k < |Decimal(v)| <==> k == 0 || v >= Pow10(k)
    ensures k < |Decimal(v)| ==> Decimal(v)[|Decimal(v)| - 1 - k] == v / Pow10(k) % 10
  {
    if v == 0 {
      assert Pow10(k) > 0;
    } else {
      LowDigitsArePlaces(v, LIMIT, k);
      LowDigitsArePlaces(v, LIMIT, 0);
      SmallDigits(v, LIMIT);
      if k >= LIMIT {
        Pow10Mono(LIMIT, k);
      }
    }
  }

  lemma {:induction false} Pow10Mono(j: nat, k: nat)
    requires j <= k
    ensures Pow10(j) <= Pow10(k)
  {
    if j < k {
      Pow10Mono(j, k - 1);
    }
  }

  lemma {:induction false} SmallDigits(v: int, n: nat)
    ensures AllDigits(LowDigits(v, n))
  {
    if v > 0 && n > 0 {
      SmallDigits(v / 10, n - 1);
    }
  }

  lemma ShowsTheRow(r: Rect, v: nat, px: int, py: int)
    requires v < Pow10(LIMIT)
    ensures RowLit(Decimal(v), px - StartX(r, v), py - StartY(r)) <==> Shows(r, v, px, py)
  {
    hide Lit, Decimal, Pow10;
    var n, dx := |Decimal(v)|, px - StartX(r, v);
    var fromRight := r.x + r.w - 1 - px;
    assert dx + fromRight == n * DIGIT_W - 1;
    if fromRight >= 0 {
      var k := fromRight / DIGIT_W;
      Places(v, k);
      assert k < n <==> dx >= 0;
      if dx >= 0 {
        assert dx / DIGIT_W == n - 1 - k && dx % DIGIT_W == DIGIT_W - 1 - fromRight % DIGIT_W;
      }
    }
  }

  /** A number is drawn right-aligned on a cleared region. */
  lemma NumberPixel(r: Rect, v: nat, color: u16, bg: u16, px: int, py: int, under: u16)
    requires OnScreen(r) && v < Pow10(LIMIT) && |Decimal(v)| * DIGIT_W <= r.w && r.h >= DIGIT_H
    ensures PaintAll(Number(r, v, color, bg), px, py, under) ==
            if Shows(r, v, px, py) then color else if Covers(r, px, py) then bg else under
  {
    hide PaintAll, Shows, Row, RowLit, Decimal, Pow10, AllDigits;
    var row := Row(StartX(r, v), StartY(r), Decimal(v), color);
    var u := PaintAll([Fill(r, bg)], px, py, under);
    PaintOne(Fill(r, bg), px, py, under);
    PaintAppend([Fill(r, bg)], row, px, py, under);
    Places(v, 0);
    RowPixel(StartX(r, v), StartY(r), Decimal(v), color, px, py, u);
    ShowsTheRow(r, v, px, py);
  }

  // ----- the minus sign -----

  function Sign(r: Rect): Rect { Rect(r.x + 2, r.y + TruncDiv(r.h - 8, 2), 18, 8) }

  function Minus(r: Rect, color: u16, bg: u16): seq<Fill> {
    [Fill(Sign(r), color)] +
    if 20 < r.w then [Fill(Rect(r.x + 20, r.y, r.w - 20, r.h), bg)] else []
  }

  method DrawMinus(fb: array<u16>, r: Rect, color: u16, bg: u16)
    requires fb.Length == PIXELS
    modifies fb
    ensures fb[..] == Painted(Minus(r, color, bg), old(fb[..]))
  {
    hide Painted;
    ghost var was: Buffer := fb[..];
    var barW, barH := 18, 8;
    var barX, barY := r.x + 2, r.y + TruncDiv(r.h - barH, 2);
    FillRect(fb, barX, barY, barW, barH, color);
    if barX + barW < r.x + r.w {
      FillRect(fb, barX + barW, r.y, r.x + r.w - barX - barW, r.h, bg);
      PaintedAppend([Fill(Sign(r), color)], [Fill(Rect(r.x + 20, r.y, r.w - 20, r.h), bg)], was);
    } else {
      assert Minus(r, color, bg) == [Fill(Sign(r), color)];
    }
  }
}
