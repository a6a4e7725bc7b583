/** The 32-byte persistent metadata record: layout, validity and two-copy selection. */
module OtaRecord {
  import opened Crc32
  import opened Wrappers

  const MAGIC: bv32 := 0x4D434F54
  const FORMAT_VERSION: bv8 := 1

  datatype MetaRecord = MetaRecord(
    magic: bv32, formatVersion: bv8, activeSlot: bv8, targetSlot: bv8, state: bv8, committed: bv8,
    bootAttemptCount: bv8, healthy: bv8, abortReason: bv8,
    generation: bv32, imageLength: bv32, imageCrc32: bv32, reserved: bv32, recordCrc32: bv32)

  // ----- layout -----

  /** Bytes 4..11. */
  function Flags(r: MetaRecord): (s: seq<bv8>)
    ensures |s| == 8
  {
    [r.formatVersion, r.activeSlot, r.targetSlot, r.state, r.committed, r.bootAttemptCount, r.healthy, r.abortReason]
  }

  /** Bytes 0..27: everything the record CRC covers. */
  function Covered(r: MetaRecord): (s: seq<bv8>)
    ensures |s| == 28
  {
    Le32(r.magic) + Flags(r) + Le32(r.generation) + Le32(r.imageLength) + Le32(r.imageCrc32) + Le32(r.reserved)
  }

  function ToBytes(r: MetaRecord): (s: seq<bv8>)
    ensures |s| == 32
  {
    Covered(r) + Le32(r.recordCrc32)
  }

  /** Reading the packed structure back out of a flash page. */
  function FromBytes(b: seq<bv8>): MetaRecord
    requires |b| == 32
  {
    MetaRecord(FromLe32(b[0..4]), b[4], b[5], b[6], b[7], b[8], b[9], b[10], b[11],
               FromLe32(b[12..16]), FromLe32(b[16..20]), FromLe32(b[20..24]), FromLe32(b[24..28]),
               FromLe32(b[28..32]))
  }

  /** Where each piece of a page lies. */
  lemma Pieces<T>(a: seq<T>, b: seq<T>, c: seq<T>, d: seq<T>, e: seq<T>, f: seq<T>, g: seq<T>)
    requires |a| == |c| == |d| == |e| == |f| == |g| == 4 && |b| == 8
    ensures var s := a + b + c + d + e + f + g;
            && |s| == 32 && s[0..4] == a && s[4..12] == b && s[12..16] == c
            && s[16..20] == d && s[20..24] == e && s[24..28] == f && s[28..32] == g
  {
  }

  lemma PagePieces(r: MetaRecord)
    ensures var s := ToBytes(r);
            && s[0..4] == Le32(r.magic) && s[4..12] == Flags(r) && s[12..16] == Le32(r.generation)
            && s[16..20] == Le32(r.imageLength) && s[20..24] == Le32(r.imageCrc32)
            && s[24..28] == Le32(r.reserved) && s[28..32] == Le32(r.recordCrc32)
  {
    hide Le32, Flags;
    Pieces(Le32(r.magic), Flags(r), Le32(r.generation), Le32(r.imageLength), Le32(r.imageCrc32),
           Le32(r.reserved), Le32(r.recordCrc32));
  }

  lemma WordBack(v: bv32)
    ensures FromLe32(Le32(v)) == v
  {
    Le32RoundTrip(v, [0, 0, 0, 0]);
  }

  lemma FlagsAt<T>(s: seq<T>, t: seq<T>)
    requires |s| == 32 && s[4..12] == t
    ensures forall i :: 4 <= i < 12 ==> s[i] == t[i - 4]
  {
  }

  lemma ReadBack(r: MetaRecord)
    ensures FromBytes(ToBytes(r)) == r
  {
    hide Le32, FromLe32, ToBytes;
    var b := ToBytes(r);
    PagePieces(r);
    FlagsAt(b, Flags(r));
    WordBack(r.magic);
    WordBack(r.generation);
    WordBack(r.imageLength);
    WordBack(r.imageCrc32);
    WordBack(r.reserved);
    WordBack(r.recordCrc32);
  }

  lemma WholePage<T>(s: seq<T>, t: seq<T>)
    requires |s| == |t| == 32
    requires s[0..4] == t[0..4] && s[4..12] == t[4..12] && s[12..16] == t[12..16] && s[16..20] == t[16..20]
    requires s[20..24] == t[20..24] && s[24..28] == t[24..28] && s[28..32] == t[28..32]
    ensures s == t
  {
    assert s == s[0..4] + s[4..12] + s[12..16] + s[16..20] + s[20..24] + s[24..28] + s[28..32];
    assert t == t[0..4] + t[4..12] + t[12..16] + t[16..20] + t[20..24] + t[24..28] + t[28..32];
  }

  lemma WriteBack(b: seq<bv8>)
    requires |b| == 32
    ensures ToBytes(FromBytes(b)) == b
  {
    hide Le32, FromLe32, ToBytes;
    PagePieces(FromBytes(b));
    Le32RoundTrip(0, b[0..4]);
    Le32RoundTrip(0, b[12..16]);
    Le32RoundTrip(0, b[16..20]);
    Le32RoundTrip(0, b[20..24]);
    Le32RoundTrip(0, b[24..28]);
    Le32RoundTrip(0, b[28..32]);
    assert b[4..12] == [b[4], b[5], b[6], b[7], b[8], b[9], b[10], b[11]];
    WholePage(ToBytes(FromBytes(b)), b);
  }

  /** Copy a slice into a buffer. */
  method Put(b: array<bv8>, at: nat, s: seq<bv8>)
    requires at + |s| <= b.Length
    modifies b
    ensures b[at..at + |s|] == s
    ensures b[..at] == old(b[..at]) && b[at + |s|..] == old(b[at + |s|..])
  {
    for i := 0 to |s|
      invariant b[at..at + i] == s[..i]
      invariant b[..at] == old(b[..at]) && b[at + |s|..] == old(b[at + |s|..])
    {
      b[at + i] := s[i];
    }
  }

  lemma Extend<T>(s: seq<T>, t: seq<T>, u: seq<T>, at: nat, n: nat)
    requires at + n <= |s| && at + n <= |u|
    requires s[..at] == u[..at] && s[at..at + n] == t == u[at..at + n]
    ensures s[..at + n] == u[..at + n]
  {
    assert s[..at + n] == s[..at] + s[at..at + n];
    assert u[..at + n] == u[..at] + u[at..at + n];
  }

  /** Fill a zeroed 32-byte buffer field by field. */
  method WriteRecord(r: MetaRecord) returns (b: array<bv8>)
    ensures fresh(b) && b[..] == ToBytes(r)
  {
    hide Le32, ToBytes;
    ghost var want := ToBytes(r);
    PagePieces(r);
    b := new bv8[32](_ => 0);
    Put(b, 0, Le32(r.magic));
    Extend(b[..], Le32(r.magic), want, 0, 4);
    Put(b, 4, [r.formatVersion, r.activeSlot, r.targetSlot, r.state,
               r.committed, r.bootAttemptCount, r.healthy, r.abortReason]);
    Extend(b[..], Flags(r), want, 4, 8);
    Put(b, 12, Le32(r.generation));
    Extend(b[..], Le32(r.generation), want, 12, 4);
    Put(b, 16, Le32(r.imageLength));
    Extend(b[..], Le32(r.imageLength), want, 16, 4);
    Put(b, 20, Le32(r.imageCrc32));
    Extend(b[..], Le32(r.imageCrc32), want, 20, 4);
    Put(b, 24, Le32(r.reserved));
    Extend(b[..], Le32(r.reserved), want, 24, 4);
    Put(b, 28, Le32(r.recordCrc32));
    Extend(b[..], Le32(r.recordCrc32), want, 28, 4);
    assert want[..32] == want;
  }

  // ----- validity -----

  predicate IsValid(r: MetaRecord) {
    && r.magic == MAGIC
    && r.formatVersion == FORMAT_VERSION
    && r.recordCrc32 == Crc(Covered(r))
  }

  function Stamped(r: MetaRecord): MetaRecord {
    r.(magic := MAGIC, formatVersion := FORMAT_VERSION)
  }

  function Finalized(r: MetaRecord): MetaRecord {
    Stamped(r).(recordCrc32 := Crc(Covered(Stamped(r))))
  }

  /** Finalizing always yields a valid record, and changes a record exactly when it was not valid. */
  lemma FinalizeMakesValid(r: MetaRecord)
    ensures IsValid(Finalized(r))
    ensures Finalized(r) == r <==> IsValid(r)
  {
    hide Crc;
    assert Covered(Finalized(r)) == Covered(Stamped(r));
    if IsValid(r) {
      assert Stamped(r) == r;
    }
  }

  class RecordCell {
    var r: MetaRecord

    constructor (init: MetaRecord)
      ensures r == init
    {
      r := init;
    }

    method ComputeRecordCrc() returns (c: bv32)
      ensures c == Crc(Covered(r))
    {
      var b := WriteRecord(r);
      c := ComputeCrc32(b, 28);
      assert b[..28] == b[..][..28] == Covered(r);
    }

    method Finalize()
      modifies this
      ensures r == Finalized(old(r))
    {
      r := r.(magic := MAGIC, formatVersion := FORMAT_VERSION);
      var c := ComputeRecordCrc();
      r := r.(recordCrc32 := c);
    }

    method CheckValid() returns (ok: bool)
      ensures ok == IsValid(r)
    {
      if r.magic != MAGIC { return false; }
      if r.formatVersion != FORMAT_VERSION { return false; }
      var c := ComputeRecordCrc();
      ok := r.recordCrc32 == c;
    }
  }

  // ----- error detection -----

  /** The CRC test is one fixed register value after all 32 bytes. */
  lemma ValidIffResidue(r: MetaRecord)
    ensures IsValid(r) <==>
            r.magic == MAGIC && r.formatVersion == FORMAT_VERSION && Feed(ONES, ToBytes(r)) == RESIDUE
  {
    hide Feed, Crc, Le32;
    TrailerIffResidue(Covered(r), r.recordCrc32);
  }

  /** A burst of up to 32 bits anywhere in the stored page, across fields too, makes it invalid. */
  lemma BurstInvalidates(r: MetaRecord, b: seq<bv8>, k: nat)
    requires IsValid(r) && |b| == 32
    requires Burst(Bits(ToBytes(r)), Bits(b), k)
    ensures !IsValid(FromBytes(b))
  {
    hide Feed, Crc, Bits, FeedBits, ToBytes, FromBytes;
    ValidIffResidue(r);
    ValidIffResidue(FromBytes(b));
    WriteBack(b);
    FeedIsFeedBits(ONES, ToBytes(r));
    FeedIsFeedBits(ONES, b);
    BurstChangesRegister(ONES, Bits(ToBytes(r)), Bits(b), k);
  }

  lemma {:induction false} BitsAt(s: seq<bv8>, i: nat)
    requires i < |s|
    ensures Bits(s)[8 * i..8 * i + 8] == LowBits(s[i] as bv32, 8)
  {
    hide LowBits;
    var first, rest := LowBits(s[0] as bv32, 8), Bits(s[1..]);
    assert Bits(s) == first + rest;
    if i > 0 {
      BitsAt(s[1..], i - 1);
      hide Bits;
      Behind(first, rest, 8 * (i - 1));
    }
  }

  lemma Behind<T>(a: seq<T>, b: seq<T>, k: nat)
    requires |a| == 8 && k + 8 <= |b|
    ensures (a + b)[8 + k..8 + k + 8] == b[k..k + 8]
  {
  }

  lemma ByteBitsInjective(a: bv8, b: bv8)
    requires LowBits(a as bv32, 8) == LowBits(b as bv32, 8)
    ensures a == b
  {
    hide LowBits, Shr, X, FeedBits, Steps;
    var v, w := a as bv32, b as bv32;
    StepsAreBits(0, v, 8);
    StepsAreBits(0, w, 8);
    ByteFits(a);
    ByteFits(b);
    StepsInjective(X(0, v), X(0, w), 8);
    XorComm(0, v);
    XorComm(0, w);
    XorZero(v);
    XorZero(w);
  }

  /** Bytes that differ only inside four consecutive positions differ by a burst. */
  lemma BytesBurst(s: seq<bv8>, t: seq<bv8>, k: nat)
    requires |s| == |t| && s != t
    requires forall i :: 0 <= i < |s| && s[i] != t[i] ==> k <= i < k + 4
    ensures Burst(Bits(s), Bits(t), 8 * k)
  {
    hide Bits, LowBits;
    var x, y := Bits(s), Bits(t);
    forall j | 0 <= j < |x| && x[j] != y[j]
      ensures 8 * k <= j < 8 * k + 32
    {
      var i := j / 8;
      BitsAt(s, i);
      BitsAt(t, i);
      assert x[j] == x[8 * i..8 * i + 8][j % 8] && y[j] == y[8 * i..8 * i + 8][j % 8];
    }
    if x == y {
      var i :| 0 <= i < |s| && s[i] != t[i];
      BitsAt(s, i);
      BitsAt(t, i);
      ByteBitsInjective(s[i], t[i]);
      assert false;
    }
  }

  datatype Field =
    | Magic | FormatVersion | ActiveSlot | TargetSlot | State | Committed | BootAttemptCount
    | HealthyFlag | AbortReason | Generation | ImageLength | ImageCrc32 | Reserved | RecordCrc32

  function Offset(f: Field): nat {
    match f
    case Magic => 0 case FormatVersion => 4 case ActiveSlot => 5 case TargetSlot => 6
    case State => 7 case Committed => 8 case BootAttemptCount => 9 case HealthyFlag => 10
    case AbortReason => 11 case Generation => 12 case ImageLength => 16 case ImageCrc32 => 20
    case Reserved => 24 case RecordCrc32 => 28
  }

  /** `s` equals `r` outside field `f`. */
  predicate SameBut(r: MetaRecord, s: MetaRecord, f: Field) {
    && (Offset(f) == 0 || s.magic == r.magic)
    && (Offset(f) == 4 || s.formatVersion == r.formatVersion)
    && (Offset(f) == 5 || s.activeSlot == r.activeSlot)
    && (Offset(f) == 6 || s.targetSlot == r.targetSlot)
    && (Offset(f) == 7 || s.state == r.state)
    && (Offset(f) == 8 || s.committed == r.committed)
    && (Offset(f) == 9 || s.bootAttemptCount == r.bootAttemptCount)
    && (Offset(f) == 10 || s.healthy == r.healthy)
    && (Offset(f) == 11 || s.abortReason == r.abortReason)
    && (Offset(f) == 12 || s.generation == r.generation)
    && (Offset(f) == 16 || s.imageLength == r.imageLength)
    && (Offset(f) == 20 || s.imageCrc32 == r.imageCrc32)
    && (Offset(f) == 24 || s.reserved == r.reserved)
    && (Offset(f) == 28 || s.recordCrc32 == r.recordCrc32)
  }

  lemma PiecesDiffer<T>(s: seq<T>, t: seq<T>, k: nat)
    requires |s| == |t| == 32 && k + 4 <= 32
    requires k == 0 || s[0..4] == t[0..4]
    requires forall i :: 4 <= i < 12 && i != k ==> s[i] == t[i]
    requires k == 12 || s[12..16] == t[12..16]
    requires k == 16 || s[16..20] == t[16..20]
    requires k == 20 || s[20..24] == t[20..24]
    requires k == 24 || s[24..28] == t[24..28]
    requires k == 28 || s[28..32] == t[28..32]
    ensures forall i :: 0 <= i < 32 && s[i] != t[i] ==> k <= i < k + 4
  {
    forall i | 0 <= i < 32 && !(k <= i < k + 4)
      ensures s[i] == t[i]
    {
      if i < 4 {
        assert s[i] == s[0..4][i] && t[i] == t[0..4][i];
      } else if i < 12 {
      } else if i < 16 {
        assert s[i] == s[12..16][i - 12] && t[i] == t[12..16][i - 12];
      } else if i < 20 {
        assert s[i] == s[16..20][i - 16] && t[i] == t[16..20][i - 16];
      } else if i < 24 {
        assert s[i] == s[20..24][i - 20] && t[i] == t[20..24][i - 20];
      } else if i < 28 {
        assert s[i] == s[24..28][i - 24] && t[i] == t[24..28][i - 24];
      } else {
        assert s[i] == s[28..32][i - 28] && t[i] == t[28..32][i - 28];
      }
    }
  }

  lemma FlagsSameBut(r: MetaRecord, s: MetaRecord, f: Field)
    requires SameBut(r, s, f)
    ensures forall i :: 0 <= i < 8 && i + 4 != Offset(f) ==> Flags(r)[i] == Flags(s)[i]
  {
    hide Offset;
  }

  /** A field occupies at most four consecutive bytes. */
  lemma FieldBytes(r: MetaRecord, s: MetaRecord, f: Field)
    requires SameBut(r, s, f)
    ensures var a, b := ToBytes(r), ToBytes(s);
            forall i :: 0 <= i < 32 && a[i] != b[i] ==> Offset(f) <= i < Offset(f) + 4
  {
    assert Offset(f) + 4 <= 32;
    hide Le32, ToBytes, Flags, Offset;
    var a, b := ToBytes(r), ToBytes(s);
    FlagsSameBut(r, s, f);
    PagePieces(r);
    PagePieces(s);
    FlagsAt(a, Flags(r));
    FlagsAt(b, Flags(s));
    PiecesDiffer(a, b, Offset(f));
  }

  /** Replacing exactly one field of a valid record by another value always makes it invalid. */
  lemma OneFieldChangeInvalidates(r: MetaRecord, s: MetaRecord, f: Field)
    requires IsValid(r) && SameBut(r, s, f) && s != r
    ensures !IsValid(s)
  {
    hide Bits, FromBytes, IsValid, ToBytes, SameBut, Offset;
    var a, b := ToBytes(r), ToBytes(s);
    ReadBack(r);
    ReadBack(s);
    FieldBytes(r, s, f);
    BytesBurst(a, b, Offset(f));
    BurstInvalidates(r, b, 8 * Offset(f));
  }

  // ----- the two copies -----

  predicate AtLeast(g: bv32, h: bv32) { g >= h }

  lemma AtLeastTotal(g: bv32, h: bv32)
    ensures AtLeast(g, h) || AtLeast(h, g)
    ensures AtLeast(g, g)
  {
  }

  /** `None` stands for a null pointer, as an argument and as the result. */
  function SelectRecord(a: Option<MetaRecord>, b: Option<MetaRecord>): Option<MetaRecord> {
    var va := a.Some? && IsValid(a.value);
    var vb := b.Some? && IsValid(b.value);
    if va && vb then (if AtLeast(a.value.generation, b.value.generation) then a else b)
    else if va then a
    else if vb then b
    else None
  }

  /** A pick is valid, is one of the copies, and no valid copy is newer; nothing is picked only if nothing is valid. */
  lemma SelectsNewestValid(a: Option<MetaRecord>, b: Option<MetaRecord>)
    ensures var p := SelectRecord(a, b);
            && (p.Some? ==> (p == a || p == b) && IsValid(p.value))
            && forall c: Option<MetaRecord> :: (c == a || c == b) && c.Some? && IsValid(c.value) ==>
                 p.Some? && AtLeast(p.value.generation, c.value.generation)
  {
    hide IsValid, AtLeast;
    if a.Some? && b.Some? {
      AtLeastTotal(a.value.generation, b.value.generation);
    }
    forall c: Option<MetaRecord> | c.Some?
      ensures AtLeast(c.value.generation, c.value.generation)
    {
      AtLeastTotal(c.value.generation, c.value.generation);
    }
  }

  /**
    * A record written beside a valid older copy: intact, it takes over; with any content the
    * validity test rejects, bursts among them, the old copy is used, in whichever page the new one went.
    */
  lemma InterruptedUpdate(kept: MetaRecord, written: MetaRecord, page: seq<bv8>)
    requires IsValid(kept) && IsValid(written) && !AtLeast(kept.generation, written.generation)
    requires |page| == 32 && (page == ToBytes(written) || !IsValid(FromBytes(page)))
    ensures var found := Some(FromBytes(page));
            var expected := if page == ToBytes(written) then written else kept;
            SelectRecord(Some(kept), found) == SelectRecord(found, Some(kept)) == Some(expected)
  {
    hide IsValid, ToBytes, FromBytes, AtLeast;
    AtLeastTotal(kept.generation, written.generation);
    ReadBack(written);
  }
}
