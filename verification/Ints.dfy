/** Machine integers as ranges of the unbounded ones; wrap-around is written out where the source wraps. */
module Ints {

  const WRAP := 0x1_0000_0000

  type u8 = x: int | 0 <= x < 0x100
  type u16 = x: int | 0 <= x < 0x1_0000
  type u32 = x: int | 0 <= x < WRAP
  type i8 = x: int | -0x80 <= x < 0x80
  type i16 = x: int | -0x8000 <= x < 0x8000
  type i32 = x: int | -0x8000_0000 <= x < 0x8000_0000
  type i64 = x: int | -0x8000_0000_0000_0000 <= x < 0x8000_0000_0000_0000

  predicate FitsI32(x: int) { -0x8000_0000 <= x < 0x8000_0000 }

  predicate FitsI64(x: int) { -0x8000_0000_0000_0000 <= x < 0x8000_0000_0000_0000 }

  function Max(a: int, b: int): int { if a > b then a else b }

  function Abs(a: int): nat { if a >= 0 then a else -a }

  /** Division that truncates toward zero, as C and Rust divide. */
  function TruncDiv(a: int, b: int): int
    requires b > 0
  {
    if a >= 0 then a / b else -(-a / b)
  }
}

/** A value that may be missing. */
module Wrappers {

  datatype Option<+T> = None | Some(value: T)
}

/** Order facts about products and quotients. */
module Monotone {

  lemma MulMono(a: int, b: int, c: nat)
    requires a <= b
    ensures a * c <= b * c
  {
  }

  lemma DivMono(a: nat, b: nat, d: nat)
    requires a <= b && d > 0
    ensures a / d <= b / d
  {
    var p, q := a / d, b / d;
    assert a == p * d + a % d && b == q * d + b % d;
    assert (q + 1) * d == q * d + d;
    if p > q {
      MulMono(q + 1, p, d);
      assert false;
    }
  }
}

/** Conditions of the kind "this happened and that has not happened since". */
module Histories {

  /** Before n there is a position where it began, and none after it where it ended. */
  ghost predicate Since(n: nat, begun: nat -> bool, ended: nat -> bool) {
    exists k: nat :: k < n && begun(k) && forall j: nat :: k < j < n ==> !ended(j)
  }

  lemma SinceNext(n: nat, begun: nat -> bool, ended: nat -> bool)
    ensures Since(n + 1, begun, ended) <==> begun(n) || (Since(n, begun, ended) && !ended(n))
  {
    if Since(n, begun, ended) && !ended(n) {
      var k: nat :| k < n && begun(k) && forall j: nat :: k < j < n ==> !ended(j);
      assert forall j: nat :: k < j < n + 1 ==> !ended(j);
    }
    if Since(n + 1, begun, ended) && !begun(n) {
      var k: nat :| k < n + 1 && begun(k) && forall j: nat :: k < j < n + 1 ==> !ended(j);
      assert k != n;
    }
  }
}
