/** The reflected CRC-32 used for image and record checks. */
module Crc32 {

  const POLY: bv32 := 0xEDB88320
  const ONES: bv32 := 0xFFFFFFFF

  // Names for the word operations, so that proofs can treat them as an algebra.
  function X(a: bv32, b: bv32): bv32 { a ^ b }
  function Half(v: bv32): bv32 { v >> 1 }
  predicate Low(v: bv32) { v & 1 == 1 }
  predicate Top(v: bv32) { v & 0x8000_0000 != 0 }
  function Bit(b: bool): bv32 { if b then 1 else 0 }

  /** One turn of the inner loop: shift right, and fold the polynomial in when a one fell out. */
  function BitStep(c: bv32): bv32 {
    (c >> 1) ^ (POLY & (0 - (c & 1)))
  }

  function Steps(c: bv32, n: nat): bv32
    decreases n
  {
    if n == 0 then c else Steps(BitStep(c), n - 1)
  }

  /** The register after the bytes of `data`, starting from `c`. */
  function Feed(c: bv32, data: seq<bv8>): bv32
    decreases data
  {
    if data == [] then c else Feed(Steps(X(c, data[0] as bv32), 8), data[1..])
  }

  function Crc(data: seq<bv8>): bv32 {
    X(Feed(ONES, data), ONES)
  }

  // ----- the message as a bit string, least significant bit of each byte first -----

  function LowBits(v: bv32, n: nat): (s: seq<bool>)
    ensures |s| == n
    decreases n
  {
    if n == 0 then [] else [Low(v)] + LowBits(Half(v), n - 1)
  }

  function Bits(data: seq<bv8>): (s: seq<bool>)
    ensures |s| == 8 * |data|
  {
    if data == [] then [] else LowBits(data[0] as bv32, 8) + Bits(data[1..])
  }

  /** The same register driven one message bit at a time. */
  function FeedBits(c: bv32, bits: seq<bool>): bv32
    decreases bits
  {
    if bits == [] then c else FeedBits(BitStep(X(c, Bit(bits[0]))), bits[1..])
  }

  // ----- word-level facts -----

  lemma BitStepCases(c: bv32)
    ensures BitStep(c) == if Low(c) then X(Half(c), POLY) else Half(c)
  {
    if c & 1 == 1 {
      assert POLY & (0 - (c & 1)) == POLY;
    } else {
      assert c & 1 == 0;
      assert POLY & (0 - (c & 1)) == 0;
    }
  }

  lemma HalfXor(a: bv32, b: bv32)
    ensures Half(X(a, b)) == X(Half(a), Half(b))
    ensures Low(X(a, b)) == (Low(a) != Low(b))
  {
  }

  lemma XorAssoc(a: bv32, b: bv32, c: bv32)
    ensures X(X(a, b), c) == X(a, X(b, c))
  {
  }

  lemma XorComm(a: bv32, b: bv32)
    ensures X(a, b) == X(b, a)
  {
  }

  lemma XorZero(a: bv32)
    ensures X(a, a) == 0 && X(a, 0) == a
  {
  }

  lemma XorCancel(a: bv32, b: bv32, c: bv32)
    requires X(a, c) == X(b, c)
    ensures a == b
  {
    hide X;
    XorAssoc(a, c, c);
    XorAssoc(b, c, c);
    XorZero(a);
    XorZero(b);
    XorZero(c);
  }

  /** Pairs can be regrouped. */
  lemma XorRegroup(a: bv32, b: bv32, c: bv32, d: bv32)
    ensures X(X(a, b), X(c, d)) == X(X(a, c), X(b, d))
  {
    hide X;
    XorAssoc(a, b, X(c, d));
    XorAssoc(b, c, d);
    XorComm(b, c);
    XorAssoc(c, b, d);
    XorAssoc(a, c, X(b, d));
  }

  lemma BitFacts(b: bool)
    ensures Half(Bit(b)) == 0 && Low(Bit(b)) == b
  {
  }

  /** The step is linear over exclusive or. */
  lemma BitStepLinear(a: bv32, b: bv32)
    ensures BitStep(X(a, b)) == X(BitStep(a), BitStep(b))
  {
    hide X, Half, Low, BitStep;
    var h, k := Half(a), Half(b);
    BitStepCases(a);
    BitStepCases(b);
    BitStepCases(X(a, b));
    HalfXor(a, b);
    var p, q := if Low(a) then POLY else 0, if Low(b) then POLY else 0;
    XorRegroup(h, p, k, q);
    XorZero(h);
    XorZero(k);
    XorZero(X(h, k));
    XorZero(POLY);
    XorComm(POLY, 0);
  }

  /** A register whose top bit is clear came from an even one: the step lost nothing. */
  lemma BitStepBack(e: bv32)
    requires !Top(BitStep(e))
    ensures !Low(e) && Half(e) == BitStep(e)
  {
  }

  lemma BitStepInjective(a: bv32, b: bv32)
    requires BitStep(a) == BitStep(b)
    ensures a == b
  {
  }

  /** Bits above the lowest pass through the step unchanged. */
  lemma BitStepSplit(c: bv32, v: bv32)
    ensures BitStep(X(c, v)) == X(BitStep(X(c, Bit(Low(v)))), Half(v))
  {
    hide X, Half, Low, BitStep, Bit;
    var b := Bit(Low(v));
    BitStepCases(X(c, v));
    BitStepCases(X(c, b));
    HalfXor(c, v);
    HalfXor(c, b);
    BitFacts(Low(v));
    XorZero(Half(c));
    XorAssoc(Half(c), Half(v), POLY);
    XorComm(Half(v), POLY);
    XorAssoc(Half(c), POLY, Half(v));
  }

  // ----- the byte loop is the bit-serial register -----

  function Shr(v: bv32, n: nat): bv32
    decreases n
  {
    if n == 0 then v else Shr(Half(v), n - 1)
  }

  lemma {:induction false} ShrSplit(v: bv32, m: nat, n: nat)
    ensures Shr(v, m + n) == Shr(Shr(v, m), n)
    decreases m
  {
    hide Half;
    if m > 0 {
      ShrSplit(Half(v), m - 1, n);
    }
  }

  lemma {:induction false} ShrZero(n: nat)
    ensures Shr(0, n) == 0
  {
    if n > 0 {
      ShrZero(n - 1);
    }
  }

  function Down4(v: bv32): bv32 { v >> 4 }

  function Down16(v: bv32): bv32 { Down4(Down4(Down4(Down4(v)))) }

  lemma Shr4(v: bv32)
    ensures Shr(v, 4) == Down4(v)
  {
    var w := Half(Half(v));
    assert Shr(v, 4) == Shr(Half(v), 3) == Shr(w, 2) == Shr(Half(w), 1) == Half(Half(w));
  }

  lemma Shr8(v: bv32)
    ensures Shr(v, 8) == Down4(Down4(v))
  {
    hide Shr, Down4;
    ShrSplit(v, 4, 4);
    Shr4(v);
    Shr4(Down4(v));
  }

  lemma Shr28(v: bv32)
    ensures Shr(v, 28) == Down4(Down4(Down4(Down16(v))))
  {
    hide Shr, Down4;
    ShrSplit(v, 8, 20);
    Shr8(v);
    var w := Down4(Down4(v));
    ShrSplit(w, 8, 12);
    Shr8(w);
    var u := Down16(v);
    ShrSplit(u, 8, 4);
    Shr8(u);
    Shr4(Down4(Down4(u)));
  }

  lemma Shr31(v: bv32)
    ensures Shr(v, 31) == 0 ==> !Top(v)
    ensures Half(Shr(v, 31)) == 0
  {
    ShrSplit(v, 28, 3);
    Shr28(v);
    var w := Down4(Down4(Down4(Down16(v))));
    assert Shr(w, 3) == Shr(Half(w), 2) == Shr(Half(Half(w)), 1) == Half(Half(Half(w)));
  }

  /** Mixing a word in and turning the register is feeding the word's bits; the rest is still pending. */
  lemma {:induction false} StepsAreBits(c: bv32, v: bv32, n: nat)
    ensures Steps(X(c, v), n) == X(FeedBits(c, LowBits(v, n)), Shr(v, n))
    decreases n
  {
    hide X, Half, Low, BitStep, Bit;
    if n > 0 {
      BitStepSplit(c, v);
      StepsAreBits(BitStep(X(c, Bit(Low(v)))), Half(v), n - 1);
      assert LowBits(v, n)[1..] == LowBits(Half(v), n - 1);
    }
  }

  lemma {:induction false} FeedBitsAppend(c: bv32, x: seq<bool>, y: seq<bool>)
    ensures FeedBits(c, x + y) == FeedBits(FeedBits(c, x), y)
    decreases x
  {
    hide X, BitStep, Bit;
    if x == [] {
      assert x + y == y;
    } else {
      assert (x + y)[1..] == x[1..] + y;
      FeedBitsAppend(BitStep(X(c, Bit(x[0]))), x[1..], y);
    }
  }

  lemma ByteFits(b: bv8)
    ensures Shr(b as bv32, 8) == 0
  {
    Shr8(b as bv32);
  }

  /** The byte-at-a-time loop computes the bit-serial register. */
  lemma {:induction false} FeedIsFeedBits(c: bv32, data: seq<bv8>)
    ensures Feed(c, data) == FeedBits(c, Bits(data))
    decreases data
  {
    hide X, BitStep, Bit, Steps, LowBits, Shr;
    if data != [] {
      var v := data[0] as bv32;
      ByteFits(data[0]);
      StepsAreBits(c, v, 8);
      XorZero(FeedBits(c, LowBits(v, 8)));
      FeedBitsAppend(c, LowBits(v, 8), Bits(data[1..]));
      FeedIsFeedBits(Steps(X(c, v), 8), data[1..]);
    }
  }

  // ----- burst errors -----

  /** The bits of `d`, from the lowest, say where `x` and `y` differ, and `d` has no other bit. */
  predicate Marks(d: bv32, x: seq<bool>, y: seq<bool>)
    requires |x| == |y|
    decreases x
  {
    if x == [] then d == 0
    else Low(d) == (x[0] != y[0]) && Marks(Half(d), x[1..], y[1..])
  }

  lemma {:induction false} MarksNothingAbove(d: bv32, x: seq<bool>, y: seq<bool>, n: nat)
    requires |x| == |y| <= n && Marks(d, x, y)
    ensures Shr(d, n) == 0
    decreases x
  {
    hide Half, Low;
    if x == [] {
      ShrZero(n);
    } else {
      MarksNothingAbove(Half(d), x[1..], y[1..], n - 1);
    }
  }

  lemma MarksTop(d: bv32, x: seq<bool>, y: seq<bool>)
    requires |x| == |y| <= 31 && Marks(d, x, y)
    ensures !Top(d)
  {
    MarksNothingAbove(d, x, y, 31);
    Shr31(d);
  }

  lemma {:induction false} MarksZero(x: seq<bool>, y: seq<bool>)
    requires |x| == |y| && Marks(0, x, y)
    ensures x == y
    decreases x
  {
    if x != [] {
      MarksZero(x[1..], y[1..]);
      assert x == [x[0]] + x[1..] && y == [y[0]] + y[1..];
    }
  }

  /** Undo one step of two registers that have met: the difference before it shows the two bits. */
  lemma DifferenceBack(a: bv32, b: bv32, p: bool, q: bool)
    requires !Top(X(BitStep(X(a, Bit(p))), BitStep(X(b, Bit(q)))))
    ensures Low(X(a, b)) == (p != q)
    ensures Half(X(a, b)) == X(BitStep(X(a, Bit(p))), BitStep(X(b, Bit(q))))
  {
    hide X, Half, Low, BitStep, Bit, Top;
    var s, t := X(a, Bit(p)), X(b, Bit(q));
    BitStepLinear(s, t);
    BitStepBack(X(s, t));
    XorRegroup(a, Bit(p), b, Bit(q));
    var g, m := X(a, b), X(Bit(p), Bit(q));
    HalfXor(g, m);
    HalfXor(Bit(p), Bit(q));
    BitFacts(p);
    BitFacts(q);
    XorZero(0);
    XorZero(Half(g));
  }

  /** Registers that meet after at most 32 bits differed exactly where the bits did. */
  lemma {:induction false} MeetingMarks(a: bv32, b: bv32, x: seq<bool>, y: seq<bool>)
    requires |x| == |y| <= 32
    requires FeedBits(a, x) == FeedBits(b, y)
    ensures Marks(X(a, b), x, y)
    decreases x
  {
    hide X, Half, Low, BitStep, Bit, Top;
    if x == [] {
      XorZero(a);
    } else {
      var s, t := BitStep(X(a, Bit(x[0]))), BitStep(X(b, Bit(y[0])));
      MeetingMarks(s, t, x[1..], y[1..]);
      MarksTop(X(s, t), x[1..], y[1..]);
      DifferenceBack(a, b, x[0], y[0]);
    }
  }

  lemma StepUndone(a: bv32, b: bv32, m: bv32)
    requires BitStep(X(a, m)) == BitStep(X(b, m))
    ensures a == b
  {
    hide X, BitStep;
    BitStepInjective(X(a, m), X(b, m));
    XorCancel(a, b, m);
  }

  lemma {:induction false} RegisterInjective(a: bv32, b: bv32, bits: seq<bool>)
    requires FeedBits(a, bits) == FeedBits(b, bits)
    ensures a == b
    decreases bits
  {
    hide X, BitStep, Bit;
    if bits != [] {
      var m := Bit(bits[0]);
      RegisterInjective(BitStep(X(a, m)), BitStep(X(b, m)), bits[1..]);
      StepUndone(a, b, m);
    }
  }

  /** `x` and `y` have the same length and differ, but only inside 32 consecutive bits from `k`. */
  ghost predicate Burst(x: seq<bool>, y: seq<bool>, k: nat) {
    && |x| == |y| && x != y
    && forall i :: 0 <= i < |x| && x[i] != y[i] ==> k <= i < k + 32
  }

  /** From any register value, no burst of up to 32 bits goes undetected. */
  lemma BurstChangesRegister(c: bv32, x: seq<bool>, y: seq<bool>, k: nat)
    requires Burst(x, y, k)
    ensures FeedBits(c, x) != FeedBits(c, y)
  {
    hide FeedBits, X;
    assert k < |x| by { assert exists i :: 0 <= i < |x| && x[i] != y[i]; }
    var e := if k + 32 <= |x| then k + 32 else |x|;
    var pre, wx, wy, post := x[..k], x[k..e], y[k..e], x[e..];
    assert x == pre + (wx + post) && y == pre + (wy + post);
    FeedBitsAppend(c, pre, wx + post);
    FeedBitsAppend(c, pre, wy + post);
    var d := FeedBits(c, pre);
    FeedBitsAppend(d, wx, post);
    FeedBitsAppend(d, wy, post);
    if FeedBits(c, x) == FeedBits(c, y) {
      RegisterInjective(FeedBits(d, wx), FeedBits(d, wy), post);
      MeetingMarks(d, d, wx, wy);
      XorZero(d);
      MarksZero(wx, wy);
      assert false;
    }
  }

  /** Two messages that differ by a burst of up to 32 bits, at any bit offset, have different CRCs. */
  lemma CrcDetectsBursts(s: seq<bv8>, t: seq<bv8>, k: nat)
    requires Burst(Bits(s), Bits(t), k)
    ensures Crc(s) != Crc(t)
  {
    hide Bits, Feed, X;
    FeedIsFeedBits(ONES, s);
    FeedIsFeedBits(ONES, t);
    BurstChangesRegister(ONES, Bits(s), Bits(t), k);
    if Crc(s) == Crc(t) {
      XorCancel(Feed(ONES, s), Feed(ONES, t), ONES);
      assert false;
    }
  }

  // ----- appending the CRC -----

  function Byte0(v: bv32): bv8 { (v & 0xFF) as bv8 }

  function Down8(v: bv32): bv32 { v >> 8 }

  /** A word as four bytes, least significant first. */
  function Le32(v: bv32): (s: seq<bv8>)
    ensures |s| == 4
  {
    [Byte0(v), Byte0(Down8(v)), Byte0(Down8(Down8(v))), Byte0(Down8(Down8(Down8(v))))]
  }

  function FromLe32(s: seq<bv8>): bv32
    requires |s| == 4
  {
    (s[0] as bv32) | (s[1] as bv32 << 8) | (s[2] as bv32 << 16) | (s[3] as bv32 << 24)
  }

  lemma Le32RoundTrip(v: bv32, s: seq<bv8>)
    requires |s| == 4
    ensures FromLe32(Le32(v)) == v
    ensures Le32(FromLe32(s)) == s
  {
  }

  lemma {:induction false} LowBitsSplit(v: bv32, m: nat, n: nat)
    ensures LowBits(v, m + n) == LowBits(v, m) + LowBits(Shr(v, m), n)
    decreases m
  {
    hide Half, Low;
    if m > 0 {
      LowBitsSplit(Half(v), m - 1, n);
    }
  }

  lemma Down44(v: bv32)
    ensures Down4(Down4(v)) == Down8(v)
  {
  }

  lemma NibbleBits(v: bv32, w: bv32)
    requires v & 0xF == w & 0xF
    ensures LowBits(v, 4) == LowBits(w, 4)
  {
    NibbleOf(v);
    NibbleOf(w);
    hide Low, Half, LowBits;
    LowFour(v);
    LowFour(w);
  }

  /** The four low bits, read off the nibble alone. */
  lemma NibbleOf(v: bv32)
    ensures Low(v) == (v & 0xF & 1 == 1) && Low(Half(v)) == (v & 0xF & 2 == 2)
    ensures Low(Half(Half(v))) == (v & 0xF & 4 == 4) && Low(Half(Half(Half(v)))) == (v & 0xF & 8 == 8)
  {
  }

  lemma LowFour(v: bv32)
    ensures LowBits(v, 4) == [Low(v), Low(Half(v)), Low(Half(Half(v))), Low(Half(Half(Half(v))))]
  {
    hide Low, Half;
    assert LowBits(v, 4) == [Low(v), Low(Half(v))] + LowBits(Half(Half(v)), 2);
  }

  lemma ByteBits(v: bv32)
    ensures LowBits(Byte0(v) as bv32, 8) == LowBits(v, 8)
  {
    hide LowBits, Shr, Low, Half;
    var w := Byte0(v) as bv32;
    LowBitsSplit(v, 4, 4);
    LowBitsSplit(w, 4, 4);
    Shr4(v);
    Shr4(w);
    assert w & 0xF == v & 0xF && Down4(w) & 0xF == Down4(v) & 0xF;
    NibbleBits(v, w);
    NibbleBits(Down4(v), Down4(w));
  }

  lemma Shr8IsDown8(v: bv32)
    ensures Shr(v, 8) == Down8(v)
  {
    hide Shr, Down4, Down8;
    Shr8(v);
    Down44(v);
  }

  lemma BitsOfByteThen(v: bv32, rest: seq<bv8>)
    ensures Bits([Byte0(v)] + rest) == LowBits(v, 8) + Bits(rest)
  {
    hide LowBits, Byte0;
    ByteBits(v);
    assert ([Byte0(v)] + rest)[1..] == rest;
  }

  lemma LowByteThen(v: bv32, n: nat)
    ensures LowBits(v, 8 + n) == LowBits(v, 8) + LowBits(Down8(v), n)
  {
    hide LowBits, Shr, Down8;
    LowBitsSplit(v, 8, n);
    Shr8IsDown8(v);
  }

  lemma Le32Bits(v: bv32)
    ensures Bits(Le32(v)) == LowBits(v, 32)
  {
    hide LowBits, Byte0, Down8, Bits;
    var v1 := Down8(v);
    var v2 := Down8(v1);
    var v3 := Down8(v2);
    var s3: seq<bv8> := [Byte0(v3)] + [];
    var s2 := [Byte0(v2)] + s3;
    var s1 := [Byte0(v1)] + s2;
    assert Le32(v) == [Byte0(v)] + s1;
    BitsOfByteThen(v, s1);
    BitsOfByteThen(v1, s2);
    BitsOfByteThen(v2, s3);
    BitsOfByteThen(v3, []);
    LowByteThen(v, 24);
    LowByteThen(v1, 16);
    LowByteThen(v2, 8);
  }

  lemma FeedWord(c: bv32, v: bv32)
    ensures Feed(c, Le32(v)) == Steps(X(c, v), 32)
  {
    hide X, Feed, Steps, FeedBits, LowBits, Le32, Bits;
    FeedIsFeedBits(c, Le32(v));
    Le32Bits(v);
    StepsAreBits(c, v, 32);
    ShrSplit(v, 31, 1);
    Shr31(v);
    XorZero(FeedBits(c, LowBits(v, 32)));
  }

  lemma {:induction false} FeedAppend(c: bv32, s: seq<bv8>, t: seq<bv8>)
    ensures Feed(c, s + t) == Feed(Feed(c, s), t)
    decreases s
  {
    hide X, Steps;
    if s == [] {
      assert s + t == t;
    } else {
      assert (s + t)[1..] == s[1..] + t;
      FeedAppend(Steps(X(c, s[0] as bv32), 8), s[1..], t);
    }
  }

  lemma {:induction false} StepsInjective(a: bv32, b: bv32, n: nat)
    requires Steps(a, n) == Steps(b, n)
    ensures a == b
    decreases n
  {
    hide BitStep;
    if n > 0 {
      StepsInjective(BitStep(a), BitStep(b), n - 1);
      BitStepInjective(a, b);
    }
  }

  const RESIDUE: bv32 := 0xDEBB20E3

  lemma {:induction false} StepsSplit(c: bv32, m: nat, n: nat)
    ensures Steps(c, m + n) == Steps(Steps(c, m), n)
    decreases m
  {
    hide BitStep;
    if m > 0 {
      StepsSplit(BitStep(c), m - 1, n);
    }
  }

  function Eight(c: bv32): bv32 {
    BitStep(BitStep(BitStep(BitStep(BitStep(BitStep(BitStep(BitStep(c))))))))
  }

  lemma StepsEight(c: bv32)
    ensures Steps(c, 8) == Eight(c)
  {
    hide BitStep;
    var d := BitStep(BitStep(BitStep(BitStep(c))));
    assert Steps(c, 8) == Steps(BitStep(BitStep(c)), 6) == Steps(d, 4);
    assert Steps(d, 4) == Steps(BitStep(BitStep(d)), 2);
  }

  lemma ResidueValue()
    ensures Steps(ONES, 32) == RESIDUE
  {
    hide Steps;
    StepsSplit(ONES, 8, 24);
    StepsEight(ONES);
    StepsSplit(0x2DFD1072, 8, 16);
    StepsEight(0x2DFD1072);
    StepsSplit(0xBE26ED00, 8, 8);
    StepsEight(0xBE26ED00);
    StepsEight(0x00BE26ED);
  }

  /**
    * A message followed by four bytes ends on one fixed register value exactly when
    * those bytes are the message's CRC, least significant byte first.
    */
  lemma TrailerIffResidue(data: seq<bv8>, trailer: bv32)
    ensures trailer == Crc(data) <==> Feed(ONES, data + Le32(trailer)) == RESIDUE
  {
    hide X, Feed, Steps, Le32;
    var r := Feed(ONES, data);
    FeedAppend(ONES, data, Le32(trailer));
    FeedWord(r, trailer);
    ResidueValue();
    XorAssoc(r, r, ONES);
    XorZero(r);
    XorComm(0, ONES);
    XorZero(ONES);
    if Steps(X(r, trailer), 32) == Steps(ONES, 32) {
      StepsInjective(X(r, trailer), ONES, 32);
      XorComm(r, trailer);
      XorComm(r, Crc(data));
      XorCancel(trailer, Crc(data), r);
    }
  }

  lemma FeedOne(c: bv32, b: bv8, data: seq<bv8>, r: bv32)
    requires data != [] && data[0] == b && Steps(X(c, b as bv32), 8) == r
    ensures Feed(c, data) == Feed(r, data[1..])
  {
  }

  lemma CheckBytes1To3()
    ensures Steps(X(0xFFFFFFFF, 0x31), 8) == 0x7C231048
    ensures Steps(X(0x7C231048, 0x32), 8) == 0xB0ACBB32
    ensures Steps(X(0xB0ACBB32, 0x33), 8) == 0x77B79C2D
  {
    hide Steps;
    StepsEight(0xFFFFFFFF ^ 0x31);
    StepsEight(0x7C231048 ^ 0x32);
    StepsEight(0xB0ACBB32 ^ 0x33);
  }

  lemma CheckBytes4To6()
    ensures Steps(X(0x77B79C2D, 0x34), 8) == 0x641C1F5C
    ensures Steps(X(0x641C1F5C, 0x35), 8) == 0x340AC5E3
    ensures Steps(X(0x340AC5E3, 0x36), 8) == 0xF68D2C9E
  {
    hide Steps;
    StepsEight(0x77B79C2D ^ 0x34);
    StepsEight(0x641C1F5C ^ 0x35);
    StepsEight(0x340AC5E3 ^ 0x36);
  }

  lemma CheckBytes7To9()
    ensures Steps(X(0xF68D2C9E, 0x37), 8) == 0xAFFC9660
    ensures Steps(X(0xAFFC9660, 0x38), 8) == 0x651F2550
    ensures Steps(X(0x651F2550, 0x39), 8) == 0x340BC6D9
  {
    hide Steps;
    StepsEight(0xF68D2C9E ^ 0x37);
    StepsEight(0xAFFC9660 ^ 0x38);
    StepsEight(0x651F2550 ^ 0x39);
  }

  /** The standard check value: the CRC of the nine ASCII digits. */
  lemma CheckVector()
    ensures Crc([0x31, 0x32, 0x33, 0x34, 0x35, 0x36, 0x37, 0x38, 0x39]) == 0xCBF43926
  {
    hide Steps;
    var m: seq<bv8> := [0x31, 0x32, 0x33, 0x34, 0x35, 0x36, 0x37, 0x38, 0x39];
    CheckBytes1To3();
    CheckBytes4To6();
    CheckBytes7To9();
    FeedOne(0xFFFFFFFF, 0x31, m[0..], 0x7C231048);
    FeedOne(0x7C231048, 0x32, m[1..], 0xB0ACBB32);
    FeedOne(0xB0ACBB32, 0x33, m[2..], 0x77B79C2D);
    FeedOne(0x77B79C2D, 0x34, m[3..], 0x641C1F5C);
    FeedOne(0x641C1F5C, 0x35, m[4..], 0x340AC5E3);
    FeedOne(0x340AC5E3, 0x36, m[5..], 0xF68D2C9E);
    FeedOne(0xF68D2C9E, 0x37, m[6..], 0xAFFC9660);
    FeedOne(0xAFFC9660, 0x38, m[7..], 0x651F2550);
    FeedOne(0x651F2550, 0x39, m[8..], 0x340BC6D9);
    assert m[0..] == m;
  }

  /** The nested loops over bytes and bits. */
  method ComputeCrc32(data: array<bv8>, len: nat) returns (crc: bv32)
    requires len <= data.Length
    ensures crc == Crc(data[..len])
  {
    hide BitStep, X;
    crc := ONES;
    for i := 0 to len
      invariant Feed(crc, data[i..len]) == Feed(ONES, data[..len])
    {
      assert data[i..len][1..] == data[i + 1..len];
      crc := X(crc, data[i] as bv32);
      ghost var mixed := crc;
      for b := 0 to 8
        invariant Steps(crc, 8 - b) == Steps(mixed, 8)
      {
        crc := BitStep(crc);
      }
    }
    crc := X(crc, ONES);
  }
}
