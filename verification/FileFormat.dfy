/**
 The V1 file format of IP sets: big-endian integers, a header, and one nine-byte record per nonterminal.
 */
module FileFormat {
  import opened Octets

  /** "IP set" */
  const MAGIC_NUMBER: seq<Octet> := [0x49, 0x50, 0x20, 0x73, 0x65, 0x74]

  // ----- records

  /** A nonterminal on disk: children are terminal values if not negative, else -k for the k-th record. */
  datatype Rec = Rec(variable: nat, low: int, high: int)

  function EncodeRec(r: Rec): (b: seq<Octet>)
    ensures |b| == 9
  {
    U8(r.variable) + U32(r.low) + U32(r.high)
  }

  function EncodeRecs(rs: seq<Rec>): (b: seq<Octet>)
    ensures |b| == 9 * |rs|
  {
    if rs == [] then [] else EncodeRecs(rs[..|rs| - 1]) + EncodeRec(rs[|rs| - 1])
  }

  function DecodeRec(b: seq<Octet>): (r: Rec)
    requires |b| == 9
    ensures r.variable < 256 && -TWO_TO_THE_31 <= r.low < TWO_TO_THE_31 && -TWO_TO_THE_31 <= r.high < TWO_TO_THE_31
  {
    Rec(b[0], Signed32(Read32(b[1..5])), Signed32(Read32(b[5..])))
  }

  function DecodeRecs(b: seq<Octet>, n: nat): (rs: seq<Rec>)
    requires 9 * n <= |b|
    ensures |rs| == n
  {
    if n == 0 then [] else DecodeRecs(b, n - 1) + [DecodeRec(b[9 * (n - 1)..9 * n])]
  }

  lemma {:induction false} RecAt(b: seq<Octet>, n: nat, i: nat)
    requires 9 * n <= |b| && i < n
    ensures DecodeRecs(b, n)[i] == DecodeRec(b[9 * i..9 * (i + 1)])
  {
    if i < n - 1 {
      RecAt(b, n - 1, i);
    }
  }

  /** What a record can hold. */
  predicate RecFits(r: Rec) {
    && r.variable < 256
    && -TWO_TO_THE_31 <= r.low < TWO_TO_THE_31
    && -TWO_TO_THE_31 <= r.high < TWO_TO_THE_31
  }

  lemma {:induction false} Signed32U32(x: int)
    requires -TWO_TO_THE_31 <= x < TWO_TO_THE_31
    ensures Signed32(x % TWO_TO_THE_32) == x
  {
  }

  lemma {:induction false} DecodeEncodeRec(r: Rec)
    requires RecFits(r)
    ensures DecodeRec(EncodeRec(r)) == r
  {
    var b := EncodeRec(r);
    Read32U32(r.low);
    Read32U32(r.high);
    Signed32U32(r.low);
    Signed32U32(r.high);
    assert b[1..5] == U32(r.low) && b[5..] == U32(r.high);
  }

  lemma {:induction false} DecodeEncodeRecs(rs: seq<Rec>, tail: seq<Octet>)
    requires forall k :: 0 <= k < |rs| ==> RecFits(rs[k])
    ensures DecodeRecs(EncodeRecs(rs) + tail, |rs|) == rs
  {
    hide EncodeRec, DecodeRec, RecFits, DecodeRecs, EncodeRecs;
    if rs == [] {
      DecodeNone(EncodeRecs(rs) + tail);
    } else {
      var n := |rs| - 1;
      var front, last := EncodeRecs(rs[..n]), EncodeRec(rs[n]);
      EncodeLast(rs);
      var b := EncodeRecs(rs) + tail;
      assert b == front + (last + tail);
      DecodeEncodeRecs(rs[..n], last + tail);
      assert b[9 * n..9 * (n + 1)] == last;
      DecodeEncodeRec(rs[n]);
      DecodeLast(b, n);
    }
  }

  lemma {:induction false} DecodeNone(b: seq<Octet>)
    ensures DecodeRecs(b, 0) == []
  {
  }

  lemma {:induction false} DecodeLast(b: seq<Octet>, n: nat)
    requires 9 * (n + 1) <= |b|
    ensures DecodeRecs(b, n + 1) == DecodeRecs(b, n) + [DecodeRec(b[9 * n..9 * (n + 1)])]
  {
  }

  lemma {:induction false} EncodeLast(rs: seq<Rec>)
    requires rs != []
    ensures EncodeRecs(rs) == EncodeRecs(rs[..|rs| - 1]) + EncodeRec(rs[|rs| - 1])
  {
  }

  // ----- files

  /** The size of a file, header included, as its header states it. */
  function SetSize(count: nat, terminalRoot: bool): nat {
    6 + 2 + 8 + 4 + 9 * count + if terminalRoot then 4 else 0
  }

  function Header(count: nat, terminalRoot: bool): (b: seq<Octet>)
    ensures |b| == 20
  {
    MAGIC_NUMBER + U16(1) + U64(SetSize(count, terminalRoot)) + U32(count)
  }

  datatype LoadError = UnexpectedEof | BadMagic | UnknownVersion | ReadError | ExtraData | ReadTooMuch

  datatype Contents = Nodes(recs: seq<Rec>) | Value(value: nat) | Malformed(error: LoadError)

  datatype Outcome = Pass | Fail(error: LoadError)

  /** Whether exactly as many bytes were read as the header announced. */
  function VerifyCap(bytesRead: int, cap: int): Outcome {
    if bytesRead < cap then Fail(ExtraData)
    else if bytesRead > cap then Fail(ReadTooMuch)
    else Pass
  }

  function Checked(o: Outcome, c: Contents): Contents {
    if o.Fail? then Malformed(o.error) else c
  }

  /** What a loader makes of a file. */
  function Decode(b: seq<Octet>): Contents {
    if |b| < 6 then Malformed(UnexpectedEof)
    else if b[..6] != MAGIC_NUMBER then Malformed(BadMagic)
    else if |b| < 8 then Malformed(ReadError)
    else if Read16(b[6..8]) != 1 then Malformed(UnknownVersion)
    else if |b| < 20 then Malformed(ReadError)
    else
      var cap := (Read64(b[8..16]) - 16) % TWO_TO_THE_64;
      var count := Read32(b[16..20]);
      if count == 0 then
        if |b| < 24 then Malformed(ReadError)
        else Checked(VerifyCap(8, cap), Value(Read32(b[20..24]) % TWO_TO_THE_31))
      else if |b| < 20 + 9 * count then Malformed(ReadError)
      else Checked(VerifyCap(4 + 9 * count, cap), Nodes(DecodeRecs(b[20..], count)))
  }

  lemma {:induction false} SizeFits(count: nat, terminalRoot: bool)
    requires count < TWO_TO_THE_32
    ensures SetSize(count, terminalRoot) % TWO_TO_THE_64 == SetSize(count, terminalRoot)
    ensures count % TWO_TO_THE_32 == count
  {
  }

  lemma {:induction false} HeaderParts(
    magic: seq<Octet>, version: seq<Octet>, size: seq<Octet>, count: seq<Octet>, tail: seq<Octet>)
    requires |magic| == 6 && |version| == 2 && |size| == 8 && |count| == 4
    ensures var b := magic + version + size + count + tail;
            b[..6] == magic && b[6..8] == version && b[8..16] == size && b[16..20] == count && b[20..] == tail
  {
  }

  lemma {:induction false} DecodeHeader(count: nat, terminalRoot: bool, tail: seq<Octet>)
    requires count < TWO_TO_THE_32
    ensures var b := Header(count, terminalRoot) + tail;
            && b[..6] == MAGIC_NUMBER && Read16(b[6..8]) == 1
            && Read64(b[8..16]) == SetSize(count, terminalRoot) && Read32(b[16..20]) == count && b[20..] == tail
  {
    hide Read16, Read32, Read64, SetSize, U16, U32, U64;
    Read16U16(1);
    Read64U64(SetSize(count, terminalRoot));
    Read32U32(count);
    SizeFits(count, terminalRoot);
    HeaderParts(MAGIC_NUMBER, U16(1), U64(SetSize(count, terminalRoot)), U32(count), tail);
  }

  /** The cap that the loader derives from the header is what it goes on to read. */
  lemma {:induction false} CapMatches(count: nat, terminalRoot: bool)
    requires count < TWO_TO_THE_32
    ensures (SetSize(count, terminalRoot) - 16) % TWO_TO_THE_64 == 4 + 9 * count + if terminalRoot then 4 else 0
  {
  }

  /** Decoding what was written for a list of records. */
  lemma {:induction false} DecodeNodes(rs: seq<Rec>)
    requires 0 < |rs| < TWO_TO_THE_32 && forall k :: 0 <= k < |rs| ==> RecFits(rs[k])
    ensures Decode(Header(|rs|, false) + EncodeRecs(rs)) == Nodes(rs)
  {
    hide Read16, Read32, Read64, EncodeRecs, DecodeRecs, DecodeRec, U16, U32, U64, Header, RecFits, SetSize;
    DecodeHeader(|rs|, false, EncodeRecs(rs));
    CapMatches(|rs|, false);
    DecodeEncodeRecs(rs, []);
    assert EncodeRecs(rs) + [] == EncodeRecs(rs);
  }

  /** Decoding what was written for a terminal. */
  lemma {:induction false} DecodeValue(value: nat)
    requires value < TWO_TO_THE_31
    ensures Decode(Header(0, true) + U32(value)) == Value(value)
  {
    hide Read16, Read32, Read64, U32, Header, SetSize;
    DecodeHeader(0, true, U32(value));
    CapMatches(0, true);
    Read32U32(value);
    assert (Header(0, true) + U32(value))[20..24] == U32(value);
  }

  /** A whole file, byte by byte: a test of variable 2 that leads to 1 if it is false, and to node -1 otherwise. */
  lemma {:induction false} FileBytes()
    ensures Header(0x102, false) + EncodeRec(Rec(2, 1, -1))
         == [0x49, 0x50, 0x20, 0x73, 0x65, 0x74, 0, 1, 0, 0, 0, 0, 0, 0, 0x09, 0x26, 0, 0, 1, 2]
            + [2, 0, 0, 0, 1, 0xff, 0xff, 0xff, 0xff]
  {
    BigEndian(1);
    BigEndian(0x102);
    BigEndian(-1);
    BigEndian(SetSize(0x102, false));
    BigEndian(0);
    hide U16, U32;
  }

  // ----- which files are accepted, from their bytes

  predicate HasMagic(b: seq<Octet>) {
    |b| >= 6 && b[0] == 'I' as int && b[1] == 'P' as int && b[2] == ' ' as int
    && b[3] == 's' as int && b[4] == 'e' as int && b[5] == 't' as int
  }

  /** The magic number and version 1 */
  predicate IsV1(b: seq<Octet>) {
    HasMagic(b) && |b| >= 8 && b[6] == 0 && b[7] == 1
  }

  function Count(b: seq<Octet>): nat
    requires |b| >= 20
  {
    Read32(b[16..20])
  }

  /** How many bytes a file has that says how many nonterminals it has */
  function SizeOf(b: seq<Octet>): nat
    requires |b| >= 20
  {
    if Count(b) == 0 then 24 else 20 + 9 * Count(b)
  }

  /** As many bytes as are read */
  predicate IsComplete(b: seq<Octet>) {
    |b| >= 20 && |b| >= SizeOf(b)
  }

  function LengthField(b: seq<Octet>): nat
    requires |b| >= 20
  {
    Read64(b[8..16])
  }

  /** A file is accepted exactly if it is a complete file of version 1 with its true size in the header. */
  predicate IsAccepted(b: seq<Octet>) {
    IsV1(b) && IsComplete(b) && LengthField(b) == SizeOf(b)
  }

  /** The error for a file that is not accepted. A length below 16 wraps around, and is too much for every file. */
  predicate Reports(b: seq<Octet>, e: LoadError) {
    match e
    case UnexpectedEof => |b| < 6
    case BadMagic => |b| >= 6 && !HasMagic(b)
    case UnknownVersion => HasMagic(b) && |b| >= 8 && !IsV1(b)
    case ReadError => HasMagic(b) && (|b| < 8 || (IsV1(b) && !IsComplete(b)))
    case ExtraData => IsV1(b) && IsComplete(b) && (LengthField(b) > SizeOf(b) || LengthField(b) < 16)
    case ReadTooMuch => IsV1(b) && IsComplete(b) && 16 <= LengthField(b) < SizeOf(b)
  }

  /** Which files are accepted, and what is wrong with each of the others. */
  lemma {:induction false} Verdict(b: seq<Octet>)
    ensures !Decode(b).Malformed? <==> IsAccepted(b)
    ensures forall e :: Decode(b) == Malformed(e) <==> Reports(b, e)
    ensures Decode(b).Value? ==> Count(b) == 0
    ensures Decode(b).Nodes? ==> |Decode(b).recs| == Count(b) > 0
  {
    hide Read32, Read64, DecodeRecs;
    if |b| >= 6 {
      assert b[..6] == MAGIC_NUMBER <==> HasMagic(b) by {
        MagicBytes(b[..6]);
      }
    }
  }

  lemma {:induction false} MagicBytes(m: seq<Octet>)
    requires |m| == 6
    ensures m == MAGIC_NUMBER <==> HasMagic(m)
  {
    if HasMagic(m) {
      assert m == [m[0], m[1], m[2], m[3], m[4], m[5]];
    }
  }
}
