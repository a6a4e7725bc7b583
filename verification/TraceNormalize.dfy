/** Normalisation of trace lines before hashing. */
module TraceNormalize {
  import opened Ints

  /** Unicode white space. */
  predicate IsSpace(c: char) {
    var v := c as int;
    9 <= v <= 13 || v == 0x20 || v == 0x85 || v == 0xA0 || v == 0x1680 || 0x2000 <= v <= 0x200A
    || v == 0x2028 || v == 0x2029 || v == 0x202F || v == 0x205F || v == 0x3000
  }

  /** The 25 characters Unicode calls white space. */
  lemma WhiteSpaceIs(c: char)
    ensures IsSpace(c) <==>
            c as int in {0x09, 0x0A, 0x0B, 0x0C, 0x0D, 0x20, 0x85, 0xA0, 0x1680, 0x2000, 0x2001, 0x2002, 0x2003, 0x2004, 0x2005,
                         0x2006, 0x2007, 0x2008, 0x2009, 0x200A, 0x2028, 0x2029, 0x202F, 0x205F, 0x3000}
  {
  }

  // ----- tokens -----

  predicate EndsInWord(s: string) { s != "" && !IsSpace(s[|s| - 1]) }

  /** The maximal runs of non-space characters, in order. */
  function Split(s: string): (ts: seq<string>)
    ensures EndsInWord(s) ==> ts != []
  {
    if s == "" then []
    else
      var front, c := s[..|s| - 1], s[|s| - 1];
      var ts := Split(front);
      if IsSpace(c) then ts
      else if EndsInWord(front) then ts[..|ts| - 1] + [ts[|ts| - 1] + [c]]
      else ts + [[c]]
  }

  /** Tokens with one blank between neighbours. */
  function Join(ts: seq<string>): string {
    if ts == [] then ""
    else if |ts| == 1 then ts[0]
    else Join(ts[..|ts| - 1]) + " " + ts[|ts| - 1]
  }

  predicate IsToken(t: string) { t != "" && forall i :: 0 <= i < |t| ==> !IsSpace(t[i]) }

  ghost predicate AllTokens(ts: seq<string>) { forall i :: 0 <= i < |ts| ==> IsToken(ts[i]) }

  lemma {:induction false} SplitGivesTokens(s: string)
    ensures AllTokens(Split(s))
  {
    if s != "" {
      SplitGivesTokens(s[..|s| - 1]);
    }
  }

  lemma JoinExtend(ts: seq<string>, c: char)
    requires ts != []
    ensures Join(ts[..|ts| - 1] + [ts[|ts| - 1] + [c]]) == Join(ts) + [c]
  {
    var us := ts[..|ts| - 1] + [ts[|ts| - 1] + [c]];
    assert us[..|us| - 1] == ts[..|ts| - 1];
    if |ts| > 1 {
      var a := Join(ts[..|ts| - 1]) + " ";
      assert a + (ts[|ts| - 1] + [c]) == a + ts[|ts| - 1] + [c];
    }
  }

  lemma JoinAdd(ts: seq<string>, t: string)
    ensures Join(ts + [t]) == if ts == [] then t else Join(ts) + " " + t
  {
    assert (ts + [t])[..|ts|] == ts;
  }

  lemma {:induction false} JoinNonempty(ts: seq<string>)
    requires AllTokens(ts)
    ensures Join(ts) == "" <==> ts == []
  {
  }

  /** The loop that trims the line and collapses runs of white space. */
  method Collapse(line: string) returns (collapsed: string)
    ensures collapsed == Join(Split(line))
  {
    collapsed := "";
    var prevWs := false;
    for i := 0 to |line|
      invariant collapsed == Join(Split(line[..i]))
      invariant prevWs <==> Split(line[..i]) != [] && !EndsInWord(line[..i])
    {
      var front, ch := line[..i], line[i];
      ghost var ts := Split(front);
      SplitGivesTokens(front);
      JoinNonempty(ts);
      assert line[..i + 1][..i] == front && line[..i + 1][i] == ch;
      if IsSpace(ch) {
        if collapsed != "" { prevWs := true; }
      } else {
        JoinAdd(ts, [ch]);
        if prevWs {
          collapsed := collapsed + " ";
          prevWs := false;
        } else if ts != [] {
          JoinExtend(ts, ch);
        }
        collapsed := collapsed + [ch];
      }
    }
    assert line[..|line|] == line;
  }

  lemma {:induction false} SplitOfJoin(ts: seq<string>)
    requires AllTokens(ts)
    ensures Split(Join(ts)) == ts
    ensures ts != [] ==> EndsInWord(Join(ts))
  {
    if ts != [] {
      var n := |ts| - 1;
      SplitOfJoin(ts[..n]);
      if n == 0 {
        SplitWord("", ts[0]);
        assert "" + ts[0] == ts[0];
      } else {
        var s := Join(ts[..n]) + " ";
        assert s[..|s| - 1] == Join(ts[..n]);
        SplitWord(s, ts[n]);
      }
      assert ts == ts[..n] + [ts[n]];
    }
  }

  /** A word after a blank or at the start becomes one more token. */
  lemma {:induction false} SplitWord(s: string, t: string)
    requires !EndsInWord(s) && IsToken(t)
    ensures Split(s + t) == Split(s) + [t] && EndsInWord(s + t)
    decreases |t|
  {
    hide IsSpace, Split;
    var n := |t| - 1;
    assert t == t[..n] + [t[n]] && s + t == s + t[..n] + [t[n]];
    SplitAdd(s + t[..n], t[n]);
    if n == 0 {
      assert s + t[..0] == s && t == [t[0]];
    } else {
      SplitWord(s, t[..n]);
      assert (Split(s) + [t[..n]])[..|Split(s)|] == Split(s);
    }
  }

  lemma SplitAdd(s: string, c: char)
    requires !IsSpace(c)
    ensures EndsInWord(s) ==> Split(s) != []
    ensures Split(s + [c]) ==
            if EndsInWord(s) then Split(s)[..|Split(s)| - 1] + [Split(s)[|Split(s)| - 1] + [c]] else Split(s) + [[c]]
    ensures EndsInWord(s + [c])
  {
    hide IsSpace;
    assert (s + [c])[..|s|] == s;
  }

  // ----- bytes -----

  /** UTF-8 of one character. */
  function Utf8(c: char): seq<u8> {
    var v := c as int;
    if v < 0x80 then [v]
    else if v < 0x800 then [0xC0 + v / 64, 0x80 + v % 64]
    else if v < 0x1_0000 then [0xE0 + v / 4096, 0x80 + v / 64 % 64, 0x80 + v % 64]
    else [0xF0 + v / 262144, 0x80 + v / 4096 % 64, 0x80 + v / 64 % 64, 0x80 + v % 64]
  }

  function Less(b: u8, base: int): int { b - base }

  /** The payload bits of a UTF-8 sequence, by the class of its lead byte. */
  function Utf8Value(b: seq<u8>): int
    requires 1 <= |b| <= 4
  {
    if |b| == 1 then b[0]
    else if |b| == 2 then 64 * Less(b[0], 0xC0) + Less(b[1], 0x80)
    else if |b| == 3 then 64 * (64 * Less(b[0], 0xE0) + Less(b[1], 0x80)) + Less(b[2], 0x80)
    else 64 * (64 * (64 * Less(b[0], 0xF0) + Less(b[1], 0x80)) + Less(b[2], 0x80)) + Less(b[3], 0x80)
  }

  lemma BaseSixtyFour(v: nat)
    ensures v == 64 * (v / 64) + v % 64 && v / 64 == 64 * (v / 4096) + v / 64 % 64
    ensures v / 4096 == 64 * (v / 262144) + v / 4096 % 64
  {
  }

  /**
    * The encoding is that of section 3 of RFC 3629: the shortest form, lead and continuation bytes in
    * their ranges, and the character is read back.
    */
  lemma Utf8Decodes(c: char)
    ensures var b, v := Utf8(c), c as int;
            && |b| == (if v < 0x80 then 1 else if v < 0x800 then 2 else if v < 0x1_0000 then 3 else 4)
            && Utf8Value(b) == v
            && (|b| == 1 ==> b[0] < 0x80) && (|b| == 2 ==> 0xC2 <= b[0] <= 0xDF)
            && (|b| == 3 ==> 0xE0 <= b[0] <= 0xEF) && (|b| == 4 ==> 0xF0 <= b[0] <= 0xF4)
            && forall i :: 1 <= i < |b| ==> 0x80 <= b[i] <= 0xBF
  {
    BaseSixtyFour(c as int);
    var v := c as int;
    if v < 0x800 {
    } else if v < 0x1_0000 {
      assert Utf8Value(Utf8(c)) == 64 * (64 * (v / 4096) + v / 64 % 64) + v % 64;
    } else {
      assert Utf8Value(Utf8(c)) == 64 * (64 * (64 * (v / 262144) + v / 4096 % 64) + v / 64 % 64) + v % 64;
    }
  }

  function Encode(s: string): seq<u8> {
    if s == "" then [] else Encode(s[..|s| - 1]) + Utf8(s[|s| - 1])
  }

  /** Each byte pushed as a character of its own. */
  function Chars(b: seq<u8>): (s: string)
    ensures |s| == |b|
    ensures forall i :: 0 <= i < |b| ==> s[i] as int == b[i]
  {
    seq(|b|, i requires 0 <= i < |b| => b[i] as char)
  }

  predicate IsHex(b: u8) { 48 <= b <= 57 || 65 <= b <= 70 || 97 <= b <= 102 }

  lemma HexDigitsAre(b: u8)
    ensures IsHex(b) <==>
            b as char in {'0', '1', '2', '3', '4', '5', '6', '7', '8', '9', 'a', 'b', 'c', 'd', 'e', 'f', 'A', 'B', 'C', 'D', 'E', 'F'}
  {
  }

  /** Length of the run of hex digits at the front. */
  function HexRun(b: seq<u8>): (n: nat)
    ensures n <= |b|
  {
    if b == [] || !IsHex(b[0]) then 0 else 1 + HexRun(b[1..])
  }

  /** A `0x` or `0X` with eight or more hex digits stands at the front. */
  predicate IsPointer(b: seq<u8>) {
    |b| >= 2 && b[0] == 48 && (b[1] == 120 || b[1] == 88) && HexRun(b[2..]) >= 8
  }

  /** The bytes of `0xPTR`. */
  function Mark(): seq<u8> { [48, 120, 80, 84, 82] }

  function Scrub(b: seq<u8>): seq<u8>
    decreases |b|
  {
    if b == [] then []
    else if IsPointer(b) then Mark() + Scrub(b[2 + HexRun(b[2..])..])
    else [b[0]] + Scrub(b[1..])
  }

  function NormalBytes(line: string): seq<u8> { Scrub(Encode(Join(Split(line)))) }

  function NormalizeLine(line: string): string { Chars(NormalBytes(line)) }

  function NormalizeTrace(lines: seq<string>): seq<string> {
    seq(|lines|, i requires 0 <= i < |lines| => NormalizeLine(lines[i]))
  }

  lemma Assoc<T>(a: seq<T>, b: seq<T>, c: seq<T>)
    ensures a + (b + c) == a + b + c
  {
  }

  lemma {:induction false} HexRunFrom(bytes: seq<u8>, j: nat)
    requires j <= |bytes|
    ensures HexRun(bytes[j..]) == if j < |bytes| && IsHex(bytes[j]) then 1 + HexRun(bytes[j + 1..]) else 0
  {
    if j < |bytes| {
      assert bytes[j..][1..] == bytes[j + 1..];
    }
  }

  /** A pointer starts at position i. */
  predicate PointerAt(bytes: seq<u8>, i: nat) {
    i + 1 < |bytes| && bytes[i] == 48 && (bytes[i + 1] == 120 || bytes[i + 1] == 88) && HexRun(bytes[i + 2..]) >= 8
  }

  lemma {:induction false} ScrubFrom(bytes: seq<u8>, i: nat)
    requires i < |bytes|
    ensures Scrub(bytes[i..]) ==
            if PointerAt(bytes, i) then Mark() + Scrub(bytes[i + 2 + HexRun(bytes[i + 2..])..])
            else [bytes[i]] + Scrub(bytes[i + 1..])
  {
    var b := bytes[i..];
    assert b[1..] == bytes[i + 1..];
    if i + 1 < |bytes| {
      assert b[2..] == bytes[i + 2..];
      var k := HexRun(b[2..]);
      assert b[2 + k..] == bytes[i + 2 + k..];
    }
  }

  /** The index-driven scan with its inner digit loop. */
  method ScrubPointers(bytes: seq<u8>) returns (out: seq<u8>)
    ensures out == Scrub(bytes)
  {
    ScrubNothing();
    hide Scrub, HexRun, Mark;
    out := [];
    assert bytes[0..] == bytes;
    var i := 0;
    while i < |bytes|
      invariant i <= |bytes| && out + Scrub(bytes[i..]) == Scrub(bytes)
    {
      ScrubFrom(bytes, i);
      if i + 1 < |bytes| && bytes[i] == 48 && (bytes[i + 1] == 120 || bytes[i + 1] == 88) {
        var j := i + 2;
        while j < |bytes| && IsHex(bytes[j])
          invariant i + 2 <= j <= |bytes| && HexRun(bytes[i + 2..]) == j - (i + 2) + HexRun(bytes[j..])
        {
          HexRunFrom(bytes, j);
          j := j + 1;
        }
        HexRunFrom(bytes, j);
        if j - (i + 2) >= 8 {
          Assoc(out, Mark(), Scrub(bytes[j..]));
          out := out + Mark();
          i := j;
          continue;
        }
      }
      Assoc(out, [bytes[i]], Scrub(bytes[i + 1..]));
      out := out + [bytes[i]];
      i := i + 1;
    }
    assert bytes[i..] == [] && out + [] == out && bytes[0..] == bytes;
  }

  lemma ScrubNothing()
    ensures Scrub([]) == []
  {
  }

  method ComputeNormalizeLine(line: string) returns (r: string)
    ensures r == NormalizeLine(line)
  {
    var collapsed := Collapse(line);
    var out := ScrubPointers(Encode(collapsed));
    r := Chars(out);
  }

  // ----- normalisation is per token -----

  const BLANK: u8 := 0x20

  lemma {:induction false} EncodeAppend(s: string, t: string)
    ensures Encode(s + t) == Encode(s) + Encode(t)
  {
    hide Utf8;
    if t == "" {
      assert s + t == s;
    } else {
      var n := |t| - 1;
      assert (s + t)[..|s| + n] == s + t[..n];
      EncodeAppend(s, t[..n]);
    }
  }

  lemma {:induction false} HexRunStops(a: seq<u8>, b: seq<u8>)
    requires b != [] && !IsHex(b[0])
    ensures HexRun(a + b) == HexRun(a)
  {
    if a == [] {
      assert a + b == b;
    } else {
      assert (a + b)[1..] == a[1..] + b;
      HexRunStops(a[1..], b);
    }
  }

  lemma {:induction false} ScrubHead(b: seq<u8>)
    requires b != []
    ensures Scrub(b) == if IsPointer(b) then Mark() + Scrub(b[2 + HexRun(b[2..])..]) else [b[0]] + Scrub(b[1..])
  {
  }

  lemma {:induction false} ScrubBlank(b: seq<u8>)
    ensures Scrub([BLANK] + b) == [BLANK] + Scrub(b)
  {
    assert ([BLANK] + b)[1..] == b;
  }

  lemma DropAppend<T>(a: seq<T>, r: seq<T>, k: nat)
    requires k <= |a|
    ensures (a + r)[k..] == a[k..] + r
  {
  }

  /** A blank separates: nothing before it can join with anything after it. */
  lemma {:induction false} ScrubAtBlank(a: seq<u8>, b: seq<u8>)
    ensures Scrub(a + ([BLANK] + b)) == Scrub(a) + ([BLANK] + Scrub(b))
    decreases |a|
  {
    hide Scrub, IsPointer, HexRun, Mark;
    var r, q := [BLANK] + b, [BLANK] + Scrub(b);
    ScrubBlank(b);
    if a == [] {
      ScrubNothing();
      assert a + r == r && [] + q == q;
    } else {
      ScrubHead(a);
      ScrubHead(a + r);
      PointerBeforeBlank(a, r);
      if IsPointer(a) {
        var k := 2 + HexRun(a[2..]);
        DropAppend(a, r, k);
        ScrubAtBlank(a[k..], b);
        Assoc(Mark(), Scrub(a[k..]), q);
      } else {
        DropAppend(a, r, 1);
        ScrubAtBlank(a[1..], b);
        Assoc([a[0]], Scrub(a[1..]), q);
      }
    }
  }

  lemma {:induction false} PointerBeforeBlank(a: seq<u8>, r: seq<u8>)
    requires a != [] && r != [] && r[0] == BLANK
    ensures IsPointer(a + r) <==> IsPointer(a)
    ensures IsPointer(a) ==> |a| >= 2 && HexRun((a + r)[2..]) == HexRun(a[2..])
  {
    if |a| >= 2 {
      assert (a + r)[2..] == a[2..] + r;
      HexRunStops(a[2..], r);
    }
  }

  function NormalizeToken(t: string): string { Chars(Scrub(Encode(t))) }

  function NormalizeTokens(ts: seq<string>): (r: seq<string>)
    ensures |r| == |ts|
  {
    seq(|ts|, i requires 0 <= i < |ts| => NormalizeToken(ts[i]))
  }

  lemma CharsAppend(a: seq<u8>, b: seq<u8>)
    ensures Chars(a + b) == Chars(a) + Chars(b)
  {
  }

  lemma {:induction false} NormalizeJoin(ts: seq<string>)
    ensures Chars(Scrub(Encode(Join(ts)))) == Join(NormalizeTokens(ts))
  {
    if ts == [] {
      ScrubNothing();
    } else if |ts| > 1 {
      hide Scrub, Encode;
      var n := |ts| - 1;
      var front, t := ts[..n], ts[n];
      NormalizeJoin(front);
      var f := Encode(Join(front));
      EncodeAppend(Join(front) + " ", t);
      EncodeAppend(Join(front), " ");
      BlankBytes();
      Assoc(f, [BLANK], Encode(t));
      ScrubAtBlank(f, Encode(t));
      CharsAppend(Scrub(f), [BLANK] + Scrub(Encode(t)));
      CharsAppend([BLANK], Scrub(Encode(t)));
      var us := NormalizeTokens(ts);
      assert us[..n] == NormalizeTokens(front) && us[n] == NormalizeToken(t);
      Assoc(Join(us[..n]), " ", us[n]);
    }
  }

  lemma BlankBytes()
    ensures Encode(" ") == [BLANK] && Chars([BLANK]) == " "
  {
    assert " "[..0] == "";
  }

  /** Every line, ASCII or not, is normalised token by token. */
  lemma NormalizesTokenwise(line: string)
    ensures NormalizeLine(line) == Join(NormalizeTokens(Split(line)))
  {
    NormalizeJoin(Split(line));
  }

  /** Lines with the same tokens normalise alike, however they are spaced. */
  lemma SpacingIsIrrelevant(x: string, y: string)
    requires Split(x) == Split(y)
    ensures NormalizeLine(x) == NormalizeLine(y)
  {
  }

  // ----- scrubbing twice is scrubbing once -----

  lemma {:induction false} ScrubKeepsHexRun(b: seq<u8>)
    ensures HexRun(Scrub(b)) == HexRun(b)
    decreases |b|
  {
    if b != [] {
      if IsPointer(b) {
        assert HexRun(b[1..]) == 0;
        assert Scrub(b)[1..][0] == 120 && HexRun(Scrub(b)[1..]) == 0;
      } else {
        ScrubKeepsHexRun(b[1..]);
        assert Scrub(b)[1..] == Scrub(b[1..]);
      }
    }
  }

  lemma {:induction false} ScrubPlain(c: u8, b: seq<u8>)
    requires c != 48 || !IsPointer([c] + b)
    ensures Scrub([c] + b) == [c] + Scrub(b)
  {
    assert ([c] + b)[1..] == b && ([c] + b)[0] == c;
  }

  lemma {:induction false} MarkIsNoPointer(b: seq<u8>)
    ensures !IsPointer([48] + ([120] + ([80] + b)))
  {
    var m := [48] + ([120] + ([80] + b));
    assert m[2..][0] == 80;
  }

  lemma {:induction false} ScrubOfMark(b: seq<u8>)
    ensures Scrub(Mark() + b) == Mark() + Scrub(b)
  {
    hide Scrub, IsPointer;
    var tr := [84] + ([82] + b);
    ScrubPlain(82, b);
    ScrubPlain(84, [82] + b);
    ScrubPlain(80, tr);
    ScrubPlain(120, [80] + tr);
    MarkIsNoPointer(tr);
    ScrubPlain(48, [120] + ([80] + tr));
    assert Mark() + b == [48] + ([120] + ([80] + tr));
    assert Mark() + Scrub(b) == [48] + ([120] + ([80] + ([84] + ([82] + Scrub(b)))));
  }

  lemma {:induction false} ScrubTwice(b: seq<u8>)
    ensures Scrub(Scrub(b)) == Scrub(b)
    decreases |b|
  {
    if b != [] {
      if IsPointer(b) {
        var rest := b[2 + HexRun(b[2..])..];
        ScrubTwice(rest);
        ScrubOfMark(Scrub(rest));
      } else {
        ScrubTwice(b[1..]);
        var s := Scrub(b);
        assert s[1..] == Scrub(b[1..]);
        NoNewPointer(b);
      }
    }
  }

  /** Scrubbing the rest cannot turn a non-pointer into a pointer. */
  lemma {:induction false} NoNewPointer(b: seq<u8>)
    requires b != [] && !IsPointer(b)
    ensures !IsPointer([b[0]] + Scrub(b[1..]))
  {
    var r := b[1..];
    var s := [b[0]] + Scrub(r);
    if IsPointer(s) {
      assert s[1..] == Scrub(r) && s[1] == Scrub(r)[0];
      assert r != [] && r[0] == Scrub(r)[0];
      assert !IsPointer(r) && Scrub(r) == [r[0]] + Scrub(r[1..]);
      assert s[2..] == Scrub(r[1..]) && r[1..] == b[2..];
      ScrubKeepsHexRun(b[2..]);
      assert false;
    }
  }

  /** Scrubbing changes a text exactly if some position starts a pointer; so its result contains none. */
  lemma {:induction false} ScrubChangesExactlyPointers(b: seq<u8>)
    ensures Scrub(b) == b <==> forall i :: 0 <= i < |b| ==> !PointerAt(b, i)
    decreases |b|
  {
    if b != [] {
      ScrubHead(b);
      assert b[0..] == b;
      assert IsPointer(b) <==> PointerAt(b, 0);
      if IsPointer(b) {
        assert IsHex(b[2..][0]) && !IsHex(Mark()[2]);
        assert b[2] != Scrub(b)[2];
      } else {
        ScrubChangesExactlyPointers(b[1..]);
        assert b == [b[0]] + b[1..] && Scrub(b)[1..] == Scrub(b[1..]);
        forall i | 0 <= i < |b| - 1
          ensures PointerAt(b[1..], i) <==> PointerAt(b, i + 1)
        {
          PointerShifts(b, i);
        }
        assert forall i :: 1 <= i < |b| ==> (PointerAt(b, i) <==> PointerAt(b[1..], i - 1));
      }
    }
  }

  lemma {:induction false} PointerShifts(b: seq<u8>, i: nat)
    requires i + 1 < |b|
    ensures PointerAt(b[1..], i) <==> PointerAt(b, i + 1)
  {
    if i + 2 < |b| {
      assert b[1..][i + 2..] == b[i + 3..];
    }
  }

  lemma ScrubbedHasNoPointer(b: seq<u8>, i: nat)
    requires i < |Scrub(b)|
    ensures !PointerAt(Scrub(b), i)
  {
    ScrubTwice(b);
    ScrubChangesExactlyPointers(Scrub(b));
  }
}
