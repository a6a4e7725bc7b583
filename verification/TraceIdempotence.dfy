/** Exactly when normalising a trace line a second time changes nothing. */
module TraceIdempotence {
  import opened Ints
  import opened TraceNormalize

  /** Every character that is not white space is ASCII. */
  predicate Plain(s: string) {
    forall i :: 0 <= i < |s| ==> IsSpace(s[i]) || s[i] as int < 0x80
  }

  // ----- plain lines -----

  predicate IsWordByte(b: u8) { b < 0x80 && !IsSpace(b as char) }

  ghost predicate Word(b: seq<u8>) { forall i :: 0 <= i < |b| ==> IsWordByte(b[i]) }

  lemma {:induction false} EncodeOfChars(b: seq<u8>)
    requires forall i :: 0 <= i < |b| ==> b[i] < 0x80
    ensures Encode(Chars(b)) == b
  {
    if b != [] {
      var n := |b| - 1;
      EncodeOfChars(b[..n]);
      assert Chars(b)[..n] == Chars(b[..n]);
      assert Utf8(Chars(b)[n]) == [b[n]];
      assert b == b[..n] + [b[n]];
    }
  }

  lemma {:induction false} PlainTokenBytes(t: string)
    requires IsToken(t) && Plain(t)
    ensures Word(Encode(t)) && Encode(t) != []
  {
    var n := |t| - 1;
    assert Utf8(t[n]) == [t[n] as int];
    if n > 0 {
      PlainTokenBytes(t[..n]);
    }
  }

  lemma {:induction false} ScrubKeepsWords(b: seq<u8>)
    requires Word(b)
    ensures Word(Scrub(b)) && (b != [] ==> Scrub(b) != [])
    decreases |b|
  {
    if b != [] {
      if IsPointer(b) {
        ScrubKeepsWords(b[2 + HexRun(b[2..])..]);
        assert Word(Mark());
      } else {
        ScrubKeepsWords(b[1..]);
      }
    }
  }

  lemma WordIsToken(b: seq<u8>)
    requires Word(b) && b != []
    ensures IsToken(Chars(b)) && Encode(Chars(b)) == b
  {
    EncodeOfChars(b);
    forall i | 0 <= i < |b|
      ensures !IsSpace(Chars(b)[i])
    {
      assert Chars(b)[i] == b[i] as char;
    }
  }

  lemma TokenTwice(t: string)
    requires IsToken(t) && Plain(t)
    ensures IsToken(NormalizeToken(t)) && NormalizeToken(NormalizeToken(t)) == NormalizeToken(t)
  {
    hide Scrub, Encode;
    PlainTokenBytes(t);
    ScrubKeepsWords(Encode(t));
    WordIsToken(Scrub(Encode(t)));
    ScrubTwice(Encode(t));
  }

  lemma {:induction false} PlainTokens(s: string)
    requires Plain(s)
    ensures forall i :: 0 <= i < |Split(s)| ==> IsToken(Split(s)[i]) && Plain(Split(s)[i])
  {
    hide IsSpace;
    if s != "" {
      PlainTokens(s[..|s| - 1]);
    }
  }

  lemma PlainLinesAreStable(line: string)
    requires Plain(line)
    ensures NormalizeLine(NormalizeLine(line)) == NormalizeLine(line)
  {
    hide NormalizeLine, NormalizeToken, IsToken, Plain;
    var ts := Split(line);
    PlainTokens(line);
    var us := NormalizeTokens(ts);
    forall i | 0 <= i < |ts|
      ensures IsToken(us[i]) && NormalizeToken(us[i]) == us[i]
    {
      TokenTwice(ts[i]);
    }
    NormalizesTokenwise(line);
    SplitOfJoin(us);
    NormalizesTokenwise(Join(us));
    assert NormalizeTokens(us) == us;
  }

  // ----- other lines: each pass multiplies the bytes above 0x7F -----

  function High1(b: u8): seq<u8> { if b >= 0x80 then [b] else [] }

  /** The bytes above 0x7F, in order. */
  function High(b: seq<u8>): seq<u8> {
    if b == [] then [] else High1(b[0]) + High(b[1..])
  }

  lemma {:induction false} HighAppend(a: seq<u8>, b: seq<u8>)
    ensures High(a + b) == High(a) + High(b)
  {
    hide High1;
    if a == [] {
      assert a + b == b;
    } else {
      assert (a + b)[1..] == a[1..] + b && (a + b)[0] == a[0];
      HighAppend(a[1..], b);
      Assoc(High1(a[0]), High(a[1..]), High(b));
    }
  }

  lemma {:induction false} HighHexRun(b: seq<u8>)
    ensures High(b[HexRun(b)..]) == High(b)
  {
    if b != [] && IsHex(b[0]) {
      HighHexRun(b[1..]);
      assert b[1..][HexRun(b[1..])..] == b[HexRun(b)..];
    } else {
      assert b[0..] == b;
    }
  }

  lemma {:induction false} HighOne(b: u8)
    ensures High([b]) == High1(b)
  {
  }

  lemma {:induction false} HighPointer(b: seq<u8>)
    requires IsPointer(b)
    ensures High(b) == High(b[2 + HexRun(b[2..])..])
  {
    HighHexRun(b[2..]);
    var k := HexRun(b[2..]);
    assert b[2..][k..] == b[2 + k..] && b[1..][1..] == b[2..];
  }

  /** Scrubbing removes only ASCII bytes. */
  lemma {:induction false} HighScrub(b: seq<u8>)
    ensures High(Scrub(b)) == High(b)
    decreases |b|
  {
    hide Scrub, HexRun, High1, Mark;
    if b == [] {
      ScrubNothing();
    } else {
      ScrubHead(b);
      if IsPointer(b) {
        var rest := b[2 + HexRun(b[2..])..];
        HighScrub(rest);
        HighAppend(Mark(), Scrub(rest));
        HighMark();
        HighPointer(b);
      } else {
        HighScrub(b[1..]);
        HighAppend([b[0]], Scrub(b[1..]));
        HighOne(b[0]);
      }
    }
  }

  lemma {:induction false} HighNone(b: seq<u8>)
    requires forall i :: 0 <= i < |b| ==> b[i] < 0x80
    ensures High(b) == []
  {
    if b != [] {
      HighNone(b[1..]);
    }
  }

  lemma {:induction false} HighAll(b: seq<u8>)
    requires forall i :: 0 <= i < |b| ==> b[i] >= 0x80
    ensures High(b) == b
  {
    if b != [] {
      HighAll(b[1..]);
    }
  }

  lemma HighMark()
    ensures High(Mark()) == []
  {
    HighNone(Mark());
  }

  /** The bytes one character contributes: none if it is white space or ASCII, else all its UTF-8 bytes. */
  function Spread1(c: char): seq<u8> {
    if IsSpace(c) || c as int < 0x80 then [] else Utf8(c)
  }

  function Spread(s: string): seq<u8> {
    if s == "" then [] else Spread(s[..|s| - 1]) + Spread1(s[|s| - 1])
  }

  lemma HighUtf8(c: char)
    ensures c as int >= 0x80 ==> High(Utf8(c)) == Utf8(c) && |Utf8(c)| >= 2
    ensures !IsSpace(c) ==> High(Utf8(c)) == Spread1(c)
  {
    if c as int >= 0x80 {
      HighAll(Utf8(c));
    } else {
      HighNone(Utf8(c));
    }
  }

  lemma SpreadAdd(s: string, c: char)
    ensures Spread(s + [c]) == Spread(s) + Spread1(c)
  {
    assert (s + [c])[..|s|] == s;
  }

  /** Collapsing keeps exactly the non-space characters. */
  lemma {:induction false} HighOfCollapsed(s: string)
    ensures High(Encode(Join(Split(s)))) == Spread(s)
  {
    hide IsSpace, Utf8, Spread1;
    if s != "" {
      var n := |s| - 1;
      var front, c := s[..n], s[n];
      HighOfCollapsed(front);
      var ts := Split(front);
      var e := Encode(Join(ts));
      BlankBytes();
      if IsSpace(c) {
        SpaceSpreadsNothing(c);
      } else {
        EncodeOne(c);
        HighUtf8(c);
        if EndsInWord(front) {
          JoinExtend(ts, c);
          EncodeAppend(Join(ts), [c]);
          HighAppend(e, Utf8(c));
        } else {
          JoinAdd(ts, [c]);
          if ts != [] {
            EncodeAppend(Join(ts) + " ", [c]);
            EncodeAppend(Join(ts), " ");
            HighAppend(e + [BLANK], Utf8(c));
            HighAppend(e, [BLANK]);
            HighOne(BLANK);
          }
        }
      }
    }
  }

  lemma SpaceSpreadsNothing(c: char)
    requires IsSpace(c)
    ensures Spread1(c) == []
  {
  }

  lemma EncodeOne(c: char)
    ensures Encode([c]) == Utf8(c)
  {
    assert [c][..0] == "";
  }

  /** A normalised line carries exactly the spread of the line it came from. */
  lemma HighOfNormal(s: string)
    ensures High(NormalBytes(s)) == Spread(s)
  {
    HighOfCollapsed(s);
    HighScrub(Encode(Join(Split(s))));
  }

  lemma {:induction false} SpreadNonempty(s: string)
    ensures Plain(s) <==> Spread(s) == []
  {
    hide IsSpace, Utf8;
    if s != "" {
      var n := |s| - 1;
      SpreadNonempty(s[..n]);
      HighUtf8(s[n]);
      assert s == s[..n] + [s[n]];
    }
  }

  // ----- a second pass over bytes read as characters -----

  /** What the bytes above 0x7F become in another pass: two bytes each, or none for the two that are white space. */
  function Pairs(h: seq<u8>): seq<u8> {
    if h == [] then [] else Spread1(h[0] as char) + Pairs(h[1..])
  }

  lemma {:induction false} PairsAppend(a: seq<u8>, b: seq<u8>)
    ensures Pairs(a + b) == Pairs(a) + Pairs(b)
  {
    hide Spread1;
    if a == [] {
      assert a + b == b;
    } else {
      assert (a + b)[1..] == a[1..] + b && (a + b)[0] == a[0];
      PairsAppend(a[1..], b);
      Assoc(Spread1(a[0] as char), Pairs(a[1..]), Pairs(b));
    }
  }

  lemma {:induction false} SpreadOfChars(b: seq<u8>)
    ensures Spread(Chars(b)) == Pairs(High(b))
  {
    if b != [] {
      var n := |b| - 1;
      var front := b[..n];
      SpreadOfChars(front);
      assert Chars(b) == Chars(front) + [b[n] as char] && b == front + [b[n]];
      SpreadAdd(Chars(front), b[n] as char);
      HighAppend(front, [b[n]]);
      HighOne(b[n]);
      PairsAppend(High(front), High1(b[n]));
      PairsOne(b[n]);
    }
  }

  lemma {:induction false} PairsOne(b: u8)
    ensures Pairs(High1(b)) == Spread1(b as char)
  {
  }

  /** How many of the bytes are not white space. */
  function Solid(h: seq<u8>): nat {
    if h == [] then 0 else (if IsSpace(h[0] as char) then 0 else 1) + Solid(h[1..])
  }

  lemma {:induction false} SolidAppend(a: seq<u8>, b: seq<u8>)
    ensures Solid(a + b) == Solid(a) + Solid(b)
  {
    hide IsSpace;
    if a == [] {
      assert a + b == b;
    } else {
      assert (a + b)[1..] == a[1..] + b && (a + b)[0] == a[0];
      SolidAppend(a[1..], b);
    }
  }

  ghost predicate AllHigh(h: seq<u8>) { forall i :: 0 <= i < |h| ==> h[i] >= 0x80 }

  /** One byte becomes a pair whose first byte is never white space, or vanishes. */
  lemma PairOf(b: u8)
    requires b >= 0x80
    ensures var p := Spread1(b as char);
            if IsSpace(b as char) then p == []
            else p == [0xC0 + b / 64, 0x80 + b % 64] && Solid(p) >= 1 && AllHigh(p)
  {
    var p := Spread1(b as char);
    if !IsSpace(b as char) {
      assert p[1..] == [p[1]];
    }
  }

  lemma {:induction false} PairsCount(h: seq<u8>)
    requires AllHigh(h)
    ensures |Pairs(h)| == 2 * Solid(h) && 2 * Solid(Pairs(h)) >= |Pairs(h)|
  {
    if h != [] {
      PairsCount(h[1..]);
      PairOf(h[0]);
      hide Spread1;
      SolidAppend(Spread1(h[0] as char), Pairs(h[1..]));
    }
  }

  /** The first byte of anything a pass produces is a lead byte. */
  lemma {:induction false} FirstIsLead(h: seq<u8>)
    requires AllHigh(h) && Pairs(h) != []
    ensures 0xC2 <= Pairs(h)[0] <= 0xC3
  {
    PairOf(h[0]);
    if IsSpace(h[0] as char) {
      FirstIsLead(h[1..]);
    }
  }

  /** A leading 0xC3 becomes the pair 0xC3, 0x83, neither of them white space. */
  lemma SolidFirstPair(h: seq<u8>)
    requires AllHigh(h) && h != [] && h[0] == 0xC3
    ensures 2 * Solid(Pairs(h)) >= |Pairs(h)| + 2
  {
    var p := Spread1(h[0] as char);
    PairOf(h[0]);
    assert p == [0xC3, 0x83] && p[1..] == [0x83];
    assert Solid(p[1..]) == 1;
    SolidAppend(p, Pairs(h[1..]));
    PairsCount(h[1..]);
  }

  /** No nonempty string of such bytes survives a pass unchanged: it would start with 0xC3 and grow. */
  lemma NoFixedPoint(h: seq<u8>)
    requires AllHigh(h) && Pairs(h) == h
    ensures h == []
  {
    if h != [] {
      FirstIsLead(h);
      PairOf(h[0]);
      PairsCount(h);
      assert Pairs(h)[0] == 0xC0 + h[0] / 64 == 0xC3;
      SolidFirstPair(h);
      assert false;
    }
  }

  lemma {:induction false} HighIsHigh(b: seq<u8>)
    ensures AllHigh(High(b))
  {
    if b != [] {
      HighIsHigh(b[1..]);
    }
  }

  lemma CharsInjective(a: seq<u8>, b: seq<u8>)
    requires Chars(a) == Chars(b)
    ensures a == b
  {
    forall i | 0 <= i < |a|
      ensures a[i] == b[i]
    {
      assert Chars(a)[i] as int == Chars(b)[i] as int;
    }
  }

  lemma StableLinesArePlain(line: string)
    requires NormalizeLine(NormalizeLine(line)) == NormalizeLine(line)
    ensures Plain(line)
  {
    hide Plain;
    var b := NormalBytes(line);
    CharsInjective(NormalBytes(Chars(b)), b);
    HighOfNormal(line);
    HighOfNormal(Chars(b));
    SpreadOfChars(b);
    HighIsHigh(b);
    NoFixedPoint(High(b));
    SpreadNonempty(line);
  }

  /**
    * Normalisation is documented as idempotent. It is, on a line, exactly when every character of
    * the line that is not white space is ASCII.
    */
  lemma IdempotentExactlyOnPlainLines(line: string)
    ensures NormalizeLine(NormalizeLine(line)) == NormalizeLine(line) <==> Plain(line)
  {
    hide NormalizeLine, Plain;
    if Plain(line) {
      PlainLinesAreStable(line);
    }
    if NormalizeLine(NormalizeLine(line)) == NormalizeLine(line) {
      StableLinesArePlain(line);
    }
  }

  /** The smallest kind of failure: a single accented letter. */
  lemma AccentedLetterIsUnstable()
    ensures NormalizeLine(NormalizeLine("\U{E9}")) != NormalizeLine("\U{E9}")
  {
    hide NormalizeLine;
    var s := "\U{E9}";
    assert s[0] as int == 0xE9 && !IsSpace(s[0]);
    IdempotentExactlyOnPlainLines(s);
  }

  /** The same law for a whole trace. */
  lemma TraceIdempotence(lines: seq<string>)
    ensures NormalizeTrace(NormalizeTrace(lines)) == NormalizeTrace(lines) <==>
            forall i :: 0 <= i < |lines| ==> Plain(lines[i])
  {
    hide NormalizeLine, Plain;
    var once := NormalizeTrace(lines);
    var twice := NormalizeTrace(once);
    forall i | 0 <= i < |lines|
      ensures twice[i] == once[i] <==> Plain(lines[i])
    {
      IdempotentExactlyOnPlainLines(lines[i]);
    }
    if twice == once {
      assert forall i :: 0 <= i < |lines| ==> twice[i] == once[i];
    }
  }
}
