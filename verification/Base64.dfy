/**
 The base64 codec with the URL-safe alphabet of section 5 of RFC 4648: an encoder that slides bytes through
 a 32-bit accumulator, and a decoder that ignores what does not fit.
 */
module Base64 {
  import opened Octets

  const EQUALS: Byte := 0x3d

  /** UINT_MAX / 4 */
  const MAX_INPUT: int := 0x3FFF_FFFF

  /** The room for n encoded bytes and the final NUL. */
  function Base64Size(n: nat): nat {
    (n + 2) / 3 * 4 + 1
  }

  // ----- the alphabet

  /** A-Z, a-z, 0-9, '-' and '_' */
  function Char(s: Byte): Byte {
    if s < 26 then 0x41 + s
    else if s < 52 then 0x61 + (s - 26)
    else if s < 62 then 0x30 + (s - 52)
    else if s == 62 then 0x2d else 0x5f
  }

  const INVALID: Byte := 0xff

  /** The decoder's table, which begins at '+' and ends at 'z'. */
  function Value(c: Byte): Byte {
    if 0x41 <= c <= 0x5a then c - 0x41
    else if 0x61 <= c <= 0x7a then c - 0x61 + 26
    else if 0x30 <= c <= 0x39 then c - 0x30 + 52
    else if c == 0x2d then 62
    else if c == 0x5f then 63 else INVALID
  }

  lemma {:induction false} CharValue(s: Byte)
    requires s < 64
    ensures Value(Char(s)) == s && Char(s) != 0 && Char(s) != EQUALS
  {
  }

  /** The URL-safe alphabet of table 2 of RFC 4648: A to Z, a to z, 0 to 9, minus and underline */
  lemma {:induction false} Alphabet(s: Byte)
    requires s < 64
    ensures Char(0) == 0x41 && Char(25) == 0x5a && Char(26) == 0x61 && Char(51) == 0x7a
    ensures Char(52) == 0x30 && Char(61) == 0x39 && Char(62) == 0x2d && Char(63) == 0x5f
    ensures s !in {25, 51, 61, 62, 63} ==> Char(s + 1) == Char(s) + 1
  {
  }

  /** The alphabet has no other characters. */
  lemma {:induction false} ValueChar(c: Byte)
    ensures Value(c) != INVALID ==> Value(c) < 64 && Char(Value(c)) == c
  {
  }

  // ----- bytes as groups of six bits

  function SextetCount(n: nat): nat {
    (4 * n + 2) / 3
  }

  /** The byte at i, with zeros after the end. */
  function At(b: seq<Byte>, i: nat): Byte {
    if i < |b| then b[i] else 0
  }

  /** The r-th group of six bits of three bytes. */
  function Part(x: Byte, y: Byte, z: Byte, r: nat): Byte
    requires r < 4
  {
    match r
    case 0 => x >> 2
    case 1 => ((x & 3) << 4) | (y >> 4)
    case 2 => ((y & 15) << 2) | (z >> 6)
    case _ => z & 63
  }

  /** The four groups are the digits of the three bytes as one number, the most significant first. */
  lemma {:induction false} PartsInOrder(x: Byte, y: Byte, z: Byte)
    ensures (Part(x, y, z, 0) as bv32 << 18) | (Part(x, y, z, 1) as bv32 << 12)
            | (Part(x, y, z, 2) as bv32 << 6) | Part(x, y, z, 3) as bv32
         == (x as bv32 << 16) | (y as bv32 << 8) | z as bv32
  {
  }

  /** The j-th group of six bits, counting from the top bit of the first byte. */
  function Sextet(b: seq<Byte>, j: nat): Byte {
    var q := j / 4 * 3;
    Part(At(b, q), At(b, q + 1), At(b, q + 2), j % 4)
  }

  lemma {:induction false} SextetSmall(b: seq<Byte>, j: nat)
    ensures Sextet(b, j) < 64
  {
    var q := j / 4 * 3;
    SmallBits(At(b, q), At(b, q + 1));
    SmallBits(At(b, q + 1), At(b, q + 2));
  }

  lemma {:induction false} SmallBits(x: Byte, y: Byte)
    ensures x >> 2 < 64 && ((x & 3) << 4) | (y >> 4) < 64 && ((x & 15) << 2) | (y >> 6) < 64 && y & 63 < 64
  {
  }

  /** The byte whose bits are the last 2k of x and then the first 8 - 2k of y. */
  function Join(x: Byte, y: Byte, k: nat): Byte
    requires 1 <= k <= 3
  {
    match k
    case 1 => (x << 2) | (y >> 4)
    case 2 => (x << 4) | (y >> 2)
    case _ => (x << 6) | y
  }

  function Sextets(b: seq<Byte>): (r: seq<Byte>)
    ensures |r| == SextetCount(|b|)
  {
    seq(SextetCount(|b|), j requires 0 <= j => Sextet(b, j))
  }

  /** The whole bytes in a sequence of sextets. */
  function Bytes(ss: seq<Byte>): (r: seq<Byte>)
    ensures |r| == 3 * |ss| / 4
  {
    seq(3 * |ss| / 4, i requires 0 <= i < 3 * |ss| / 4 => Join(ss[i + i / 3], ss[i + i / 3 + 1], i % 3 + 1))
  }

  lemma {:induction false} JoinSplit(x: Byte, y: Byte, z: Byte)
    ensures (x >> 2 << 2) | ((((x & 3) << 4) | (y >> 4)) >> 4) == x
    ensures ((((x & 3) << 4) | (y >> 4)) << 4) | ((((y & 15) << 2) | (z >> 6)) >> 2) == y
    ensures ((((y & 15) << 2) | (z >> 6)) << 6) | (z & 63) == z
  {
  }

  lemma {:induction false} JoinParts(x: Byte, y: Byte, z: Byte, r: nat)
    requires r < 3
    ensures Join(Part(x, y, z, r), Part(x, y, z, r + 1), r + 1) == if r == 0 then x else if r == 1 then y else z
  {
    JoinSplit(x, y, z);
  }

  /** Splitting into sextets loses nothing. */
  lemma {:induction false} BytesSextets(b: seq<Byte>)
    ensures Bytes(Sextets(b)) == b
  {
    var ss := Sextets(b);
    assert 3 * |ss| / 4 == |b|;
    forall i | 0 <= i < |b| ensures Bytes(ss)[i] == b[i] {
      SextetsAround(b, i);
      JoinSextets(b, i);
      hide Join, Sextet;
    }
  }

  lemma {:induction false} JoinSextets(b: seq<Byte>, i: nat)
    requires i < |b|
    ensures Join(Sextet(b, i + i / 3), Sextet(b, i + i / 3 + 1), i % 3 + 1) == b[i]
  {
    hide Join, Part;
    SextetsAround(b, i);
    var q := i / 3 * 3;
    JoinParts(At(b, q), At(b, q + 1), At(b, q + 2), i % 3);
  }

  lemma {:induction false} SextetsAround(b: seq<Byte>, i: nat)
    requires i < |b|
    ensures i + i / 3 + 1 < SextetCount(|b|)
    ensures (i + i / 3) / 4 * 3 == i / 3 * 3 && (i + i / 3) % 4 == i % 3
    ensures (i + i / 3 + 1) / 4 * 3 == i / 3 * 3 && (i + i / 3 + 1) % 4 == i % 3 + 1
  {
    assert i == 3 * (i / 3) + i % 3;
    assert i + i / 3 == 4 * (i / 3) + i % 3;
  }

  // ----- text

  function Chars(ss: seq<Byte>): (r: seq<Byte>)
    ensures |r| == |ss|
  {
    seq(|ss|, j requires 0 <= j < |ss| => Char(ss[j]))
  }

  function Padding(n: nat): (r: seq<Byte>)
    ensures |r| == (4 - n % 4) % 4
  {
    seq((4 - n % 4) % 4, _ => EQUALS)
  }

  lemma {:induction false} TextSize(n: nat)
    ensures SextetCount(n) + (4 - SextetCount(n) % 4) % 4 == Base64Size(n) - 1
  {
    var q, r := n / 3, n % 3;
    assert n == 3 * q + r;
    assert (4 * n + 2) / 3 == 4 * q + (4 * r + 2) / 3;
  }

  function Text(b: seq<Byte>): (r: seq<Byte>)
    ensures |r| == Base64Size(|b|) - 1
  {
    TextSize(|b|);
    Chars(Sextets(b)) + Padding(SextetCount(|b|))
  }

  /** The characters of the groups, and '=' up to a multiple of four. */
  lemma {:induction false} TextLayout(b: seq<Byte>, j: nat)
    requires j < |Text(b)|
    ensures |Text(b)| == 4 * ((|b| + 2) / 3)
    ensures Text(b)[j] == if 6 * j < 8 * |b| then Char(Sextet(b, j)) else 0x3d
  {
    TextSize(|b|);
    hide Char, Sextet;
    assert j < |Sextets(b)| ==> Chars(Sextets(b))[j] == Char(Sextets(b)[j]);
  }

  datatype Decoded = Invalid | Valid(bytes: seq<Byte>)

  /** The sextets of a text up to its end or the first '=', if they are all in the alphabet. */
  function Scan(text: seq<Byte>, i: nat): Decoded
    requires i <= |text|
    decreases |text| - i
  {
    if i == |text| || text[i] == 0 || text[i] == EQUALS then Valid([])
    else if Value(text[i]) == INVALID then Invalid
    else
      match Scan(text, i + 1)
      case Invalid => Invalid
      case Valid(rest) => Valid([Value(text[i])] + rest)
  }

  /** The scan of a buffer that begins with the text of b and a NUL. */
  lemma {:induction false} ScanText(b: seq<Byte>, buffer: seq<Byte>, i: nat)
    requires i <= SextetCount(|b|) && Text(b) + [0] <= buffer
    ensures Scan(buffer, i) == Valid(Sextets(b)[i..])
    decreases SextetCount(|b|) - i
  {
    var n := SextetCount(|b|);
    assert buffer[i] == (Text(b) + [0])[i];
    if i == n {
      assert i < |Text(b)| ==> Text(b)[i] == EQUALS;
      assert Sextets(b)[i..] == [];
    } else {
      ScanText(b, buffer, i + 1);
      TextSextet(b, i);
      SextetSmall(b, i);
      CharValue(Sextet(b, i));
      assert Sextets(b)[i..] == [Sextet(b, i)] + Sextets(b)[i + 1..];
    }
  }

  /** Decoding what the encoder leaves in a buffer gives the bytes back. */
  lemma {:induction false} DecodeText(b: seq<Byte>, buffer: seq<Byte>)
    requires Text(b) + [0] <= buffer
    ensures Scanned(buffer) == Valid(Sextets(b)) && Bytes(Sextets(b)) == b
  {
    ScanText(b, buffer, 0);
    BytesSextets(b);
    assert Sextets(b)[0..] == Sextets(b);
  }

  // ----- decoding

  lemma {:induction false} BytesAppend(ss: seq<Byte>, x: Byte)
    ensures Bytes(ss + [x])
            == if |ss| % 4 == 0 then Bytes(ss) else Bytes(ss) + [Join(ss[|ss| - 1], x, |ss| % 4)]
  {
    var n := |ss|;
    assert n == 4 * (n / 4) + n % 4;
    if n % 4 != 0 {
      var i := 3 * n / 4;
      assert i == 3 * (n / 4) + (n % 4 - 1);
      assert i / 3 == n / 4 && i % 3 + 1 == n % 4 && i + i / 3 == n - 1;
      assert (ss + [x])[n - 1] == ss[n - 1];
    }
  }

  /** The accumulator ends in the last two sextets. */
  predicate Ends(v: bv32, ss: seq<Byte>) {
    && (|ss| >= 1 ==> v & 63 == ss[|ss| - 1] as bv32)
    && (forall k :: 0 <= k < |ss| ==> ss[k] < 64)
  }

  function Low(v: bv32): Byte {
    (v & 0xff) as Byte
  }

  lemma {:induction false} ShiftedFour(v: bv32, x: Byte, y: Byte)
    requires v & 63 == x as bv32 && x < 64 && y < 64
    ensures Low(((v << 6) + (y as bv32)) >> 4) == Join(x, y, 1)
  {
  }

  lemma {:induction false} ShiftedTwo(v: bv32, x: Byte, y: Byte)
    requires v & 63 == x as bv32 && x < 64 && y < 64
    ensures Low(((v << 6) + (y as bv32)) >> 2) == Join(x, y, 2)
  {
  }

  lemma {:induction false} Unshifted(v: bv32, x: Byte, y: Byte)
    requires v & 63 == x as bv32 && x < 64 && y < 64
    ensures Low((v << 6) + (y as bv32)) == Join(x, y, 3)
  {
  }

  lemma {:induction false} FirstShifted(v: bv32, y: Byte)
    requires y < 64
    ensures ((v << 6) + (y as bv32)) & 63 == y as bv32
  {
  }

  /** The byte that is complete with the k-th sextet of a group: the accumulator shifted by 6 - 2k. */
  function Completed(v: bv32, k: nat): Byte
    requires 1 <= k <= 3
  {
    match k
    case 1 => Low(v >> 4)
    case 2 => Low(v >> 2)
    case _ => Low(v)
  }

  lemma {:induction false} CompletedJoin(v: bv32, x: Byte, y: Byte, k: nat)
    requires 1 <= k <= 3 && v & 63 == x as bv32 && x < 64 && y < 64
    ensures Completed((v << 6) + (y as bv32), k) == Join(x, y, k)
  {
    ShiftedFour(v, x, y);
    ShiftedTwo(v, x, y);
    Unshifted(v, x, y);
    hide Low, Join;
  }

  lemma {:induction false} EndsNext(v: bv32, ss: seq<Byte>, x: Byte)
    requires Ends(v, ss) && x < 64
    ensures Ends((v << 6) + (x as bv32), ss + [x])
  {
    FirstShifted(v, x);
  }

  /** One more sextet in the accumulator, and the byte that it completes. */
  lemma {:induction false} NextSextet(v: bv32, ss: seq<Byte>, x: Byte)
    requires Ends(v, ss) && x < 64
    ensures Ends((v << 6) + (x as bv32), ss + [x])
    ensures Bytes(ss + [x])
            == if |ss| % 4 == 0 then Bytes(ss) else Bytes(ss) + [Completed((v << 6) + (x as bv32), |ss| % 4)]
  {
    EndsNext(v, ss, x);
    BytesAppend(ss, x);
    hide Join, Low, Bytes, Completed;
    if |ss| % 4 != 0 {
      CompletedJoin(v, ss[|ss| - 1], x, |ss| % 4);
    }
  }

  function Min(a: nat, b: nat): nat {
    if a < b then a else b
  }

  /** The buffer holds as much of done as there is room for, and is unchanged after it. */
  predicate Stored(out: seq<Byte>, before: seq<Byte>, done: seq<Byte>, dst: nat, outSize: nat) {
    && |out| == |before| >= outSize && dst == Min(outSize, |done|)
    && out[..dst] == done[..dst] && out[dst..] == before[dst..]
  }

  method Store(out: array<Byte>, outSize: nat, dst: nat, b: Byte, ghost before: seq<Byte>, ghost done: seq<Byte>)
    returns (dst': nat)
    requires Stored(out[..], before, done, dst, outSize)
    modifies out
    ensures Stored(out[..], before, done + [b], dst', outSize)
  {
    dst' := dst;
    if dst < outSize {
      out[dst] := b;
      dst' := dst + 1;
      assert out[..][..dst'] == done + [b];
    } else {
      assert (done + [b])[..dst] == done[..dst];
    }
  }

  /** What a text stands for. */
  function Scanned(text: seq<Byte>): Decoded {
    Scan(text, 0)
  }

  /** The first i characters of the text stand for the sextets ss. */
  predicate ScannedTo(text: seq<Byte>, i: nat, ss: seq<Byte>)
    requires i <= |text|
  {
    match Scan(text, i)
    case Invalid => Scanned(text) == Invalid
    case Valid(rest) => Scanned(text) == Valid(ss + rest)
  }

  lemma {:induction false} ScanStart(text: seq<Byte>)
    ensures ScannedTo(text, 0, [])
  {
    if Scan(text, 0).Valid? {
      assert [] + Scan(text, 0).bytes == Scan(text, 0).bytes;
    }
  }

  lemma {:induction false} ScanNext(text: seq<Byte>, i: nat, ss: seq<Byte>)
    requires i < |text| && text[i] != 0 && text[i] != EQUALS && ScannedTo(text, i, ss)
    ensures if Value(text[i]) == INVALID then Scanned(text) == Invalid
            else ScannedTo(text, i + 1, ss + [Value(text[i])])
  {
    hide Value;
    var x := [Value(text[i])];
    if Scan(text, i + 1).Valid? {
      assert (ss + x) + Scan(text, i + 1).bytes == ss + (x + Scan(text, i + 1).bytes);
    }
  }

  lemma {:induction false} ScanEnd(text: seq<Byte>, i: nat, ss: seq<Byte>)
    requires i <= |text| && ScannedTo(text, i, ss)
    requires i == |text| || text[i] == 0 || text[i] == EQUALS
    ensures Scanned(text) == Valid(ss)
  {
    assert ss + [] == ss;
  }

  /**
   Decodes up to the end or the first '='. Fails exactly on characters outside the alphabet; else writes as
   many of the bytes as there is room for and leaves the rest of the buffer alone.
   */
  method Decode(out: array<Byte>, text: seq<Byte>, outSize: nat) returns (r: int)
    requires outSize <= out.Length
    modifies out
    ensures match Scanned(text)
            case Invalid => r == -1
            case Valid(ss) => r >= 0 && Stored(out[..], old(out[..]), Bytes(ss), r, outSize)
  {
    hide Value, Char, Stored, Bytes, Ends, Completed, Scanned, ScannedTo;
    var v: bv32 := 0;
    var i, dst := 0, 0;
    ghost var ss: seq<Byte> := [];
    StoredNothing(out[..], outSize);
    ScanStart(text);
    while i < |text| && text[i] != 0 && text[i] != EQUALS
      invariant 0 <= i == |ss| <= |text|
      invariant Ends(v, ss) && ScannedTo(text, i, ss)
      invariant Stored(out[..], old(out[..]), Bytes(ss), dst, outSize)
    {
      var index := text[i] - 43;
      ScanNext(text, i, ss);
      NotInTable(text[i]);
      if index >= 80 || Value(text[i]) == INVALID {
        return -1;
      }
      var x := Value(text[i]);
      ValueChar(text[i]);
      NextSextet(v, ss, x);
      v := (v << 6) + (x as bv32);
      if i % 4 != 0 {
        dst := Store(out, outSize, dst, Completed(v, i % 4), old(out[..]), Bytes(ss));
      }
      ss := ss + [x];
      i := i + 1;
    }
    ScanEnd(text, i, ss);
    return dst;
  }

  lemma {:induction false} StoredNothing(out: seq<Byte>, outSize: nat)
    requires outSize <= |out|
    ensures Ends(0, []) && Stored(out, out, Bytes([]), 0, outSize)
  {
  }

  /** Outside of the table there are no characters of the alphabet. */
  lemma {:induction false} NotInTable(c: Byte)
    ensures c - 43 >= 80 ==> Value(c) == INVALID
  {
  }

  // ----- encoding

  /** The low six bits that are left when the accumulator is shifted: six bits up, then so many down. */
  function Window(bits: bv32, shift: nat): Byte
    requires shift in {2, 4, 6, 8, 10, 12, 14}
  {
    var up := bits << 6;
    var w := match shift
      case 2 => up >> 2
      case 4 => up >> 4
      case 6 => up >> 6
      case 8 => up >> 8
      case 10 => up >> 10
      case 12 => up >> 12
      case _ => up >> 14;
    (w & 0x3f) as Byte
  }

  /** The accumulator ends in the last two bytes read. */
  predicate Read(bits: bv32, b: seq<Byte>, i: nat)
    requires 1 <= i <= |b|
  {
    bits & 0xff == b[i - 1] as bv32 && (i >= 2 ==> bits & 0xffff == ((b[i - 2] as bv32) << 8) | (b[i - 1] as bv32))
  }

  lemma {:induction false} Windows(bits: bv32, y: Byte)
    requires bits & 0xff == y as bv32
    ensures Window(bits, 2) == ((y & 3) << 4) | (0 >> 4) && Window(bits, 4) == ((y & 15) << 2) | (0 >> 6)
    ensures Window(bits, 6) == y & 63 && Window(bits, 8) == y >> 2
  {
  }

  lemma {:induction false} WideWindows(bits: bv32, x: Byte, y: Byte)
    requires bits & 0xffff == ((x as bv32) << 8) | (y as bv32)
    ensures Window(bits, 10) == ((x & 3) << 4) | (y >> 4)
    ensures Window(bits, 12) == ((x & 15) << 2) | (y >> 6)
    ensures Window(bits, 14) == x & 63
  {
  }

  /** With i bytes read and j sextets written, the window shows sextet j: all of it, or what is left at the end. */
  lemma {:induction false} WindowSextet(bits: bv32, b: seq<Byte>, i: nat, j: nat)
    requires 1 <= i <= |b| && Read(bits, b, i)
    requires 8 * i - 6 * j in {8, 10, 12, 14} || (i == |b| && 8 * i - 6 * j in {2, 4, 6})
    ensures Window(bits, 8 * i - 6 * j) == Sextet(b, j)
  {
    hide Window, Part;
    var shift, q := 8 * i - 6 * j, j / 4 * 3;
    WhichSextet(i, j);
    var x, y, z := At(b, q), At(b, q + 1), At(b, q + 2);
    if shift == 2 {
      NarrowParts(bits, x, z, 0);
    } else if shift == 4 {
      NarrowParts(bits, y, x, 0);
    } else if shift == 6 {
      NarrowParts(bits, z, x, y);
    } else if shift == 8 {
      NarrowParts(bits, x, y, z);
    } else if shift == 10 {
      WideParts(bits, x, y, z, 0);
    } else if shift == 12 {
      WideParts(bits, y, z, x, 0);
    } else {
      WideParts(bits, z, At(b, q + 3), x, y);
    }
  }

  lemma {:induction false} NarrowParts(bits: bv32, y: Byte, u: Byte, v: Byte)
    requires bits & 0xff == y as bv32
    ensures Window(bits, 2) == Part(y, 0, u, 1) && Window(bits, 4) == Part(u, y, 0, 2)
    ensures Window(bits, 6) == Part(u, v, y, 3) && Window(bits, 8) == Part(y, u, v, 0)
  {
    Windows(bits, y);
  }

  lemma {:induction false} WideParts(bits: bv32, x: Byte, y: Byte, u: Byte, v: Byte)
    requires bits & 0xffff == ((x as bv32) << 8) | (y as bv32)
    ensures Window(bits, 10) == Part(x, y, u, 1) && Window(bits, 12) == Part(u, x, y, 2)
    ensures Window(bits, 14) == Part(u, v, x, 3)
  {
    WideWindows(bits, x, y);
  }

  lemma {:induction false} WhichSextet(i: nat, j: nat)
    requires i >= 1 && 8 * i - 6 * j in {2, 4, 6, 8, 10, 12, 14}
    ensures var shift, q := 8 * i - 6 * j, j / 4 * 3;
            match shift
            case 2 => j % 4 == 1 && q == i - 1
            case 4 => j % 4 == 2 && q + 1 == i - 1
            case 6 => j % 4 == 3 && q + 2 == i - 1
            case 8 => j % 4 == 0 && q == i - 1
            case 10 => j % 4 == 1 && q + 1 == i - 1
            case 12 => j % 4 == 2 && q + 2 == i - 1
            case _ => j % 4 == 3 && q + 2 == i - 2
  {
    var m, r := j / 4, j % 4;
    assert j == 4 * m + r;
  }

  lemma {:induction false} ReadNext(bits: bv32, b: seq<Byte>, i: nat)
    requires i < |b| && (i >= 1 ==> Read(bits, b, i))
    ensures Read((bits << 8) + (b[i] as bv32), b, i + 1)
  {
    var x: Byte := if i >= 1 then b[i - 1] else 0;
    if i >= 1 {
      ShiftIn(bits, x, b[i]);
    }
    ShiftInLow(bits, b[i]);
  }

  lemma {:induction false} ShiftInLow(bits: bv32, y: Byte)
    ensures ((bits << 8) + (y as bv32)) & 0xff == y as bv32
  {
  }

  lemma {:induction false} ShiftIn(bits: bv32, x: Byte, y: Byte)
    requires bits & 0xff == x as bv32
    ensures ((bits << 8) + (y as bv32)) & 0xffff == ((x as bv32) << 8) | (y as bv32)
  {
  }

  /** The first j characters of the text are written, and nothing else is. */
  predicate Written(out: seq<Byte>, before: seq<Byte>, b: seq<Byte>, j: nat) {
    && j <= |Text(b)| < |out| == |before|
    && out[..j] == Text(b)[..j] && out[j..] == before[j..]
  }

  /** Writes the next character of the text. */
  method Put(out: array<Byte>, j: nat, c: Byte, ghost b: seq<Byte>, ghost before: seq<Byte>)
    requires Written(out[..], before, b, j) && j < |Text(b)| && c == Text(b)[j]
    modifies out
    ensures Written(out[..], before, b, j + 1)
  {
    hide Text;
    out[j] := c;
    assert out[..][..j + 1] == Text(b)[..j] + [c] == Text(b)[..j + 1];
  }

  lemma {:induction false} TextSextet(b: seq<Byte>, j: nat)
    requires j < SextetCount(|b|)
    ensures j < |Text(b)| && Text(b)[j] == Char(Sextet(b, j))
  {
    hide Char, Sextet;
  }

  lemma {:induction false} TextPadding(b: seq<Byte>, j: nat)
    requires SextetCount(|b|) <= j <= |Text(b)|
    ensures j % 4 != 0 <==> j < |Text(b)|
    ensures j < |Text(b)| ==> Text(b)[j] == EQUALS
  {
    hide Char, Sextet, Base64Size, SextetCount, Chars, Sextets;
    TextSize(|b|);
    PaddingEnd(SextetCount(|b|), j);
    var k := j - SextetCount(|b|);
    assert k < |Padding(SextetCount(|b|))| ==> Padding(SextetCount(|b|))[k] == EQUALS;
  }

  lemma {:induction false} PaddingEnd(n: nat, j: nat)
    requires n <= j <= n + (4 - n % 4) % 4
    ensures j % 4 != 0 <==> j < n + (4 - n % 4) % 4
  {
  }

  /** Between the bytes, fewer than seven bits wait in the accumulator. */
  predicate Waiting(n: nat, i: nat, j: nat) {
    i <= n && if i == 0 then j == 0 else if i < n then 8 * i - 6 * j in {2, 4, 6} else j == SextetCount(n)
  }

  /** Reads byte i and writes the sextets that are complete with it, and at the end also the last one. */
  method EncodeByte(out: array<Byte>, b: seq<Byte>, i: nat, bits: bv32, j0: nat, ghost before: seq<Byte>)
    returns (bits': bv32, j: nat)
    requires i < |b| && Waiting(|b|, i, j0) && (i >= 1 ==> Read(bits, b, i))
    requires Written(out[..], before, b, j0)
    modifies out
    ensures Waiting(|b|, i + 1, j) && Read(bits', b, i + 1) && Written(out[..], before, b, j)
  {
    hide Written, Read, Window, Char, Sextet, Text;
    j := j0;
    bits' := (bits << 8) + (b[i] as bv32);
    ReadNext(bits, b, i);
    var remaining := |b| - (i + 1);
    var shift: int := 8 * i - 6 * j0 + 8;
    var more := true;
    while more
      invariant shift == 8 * (i + 1) - 6 * j
      invariant more ==> shift in {8, 10, 12, 14} || (remaining == 0 && shift in {2, 4, 6})
      invariant !more ==> Waiting(|b|, i + 1, j)
      invariant Written(out[..], before, b, j)
      decreases shift + if more then 7 else 0
    {
      WindowSextet(bits', b, i + 1, j);
      CountBound(|b|, i + 1, j);
      TextSextet(b, j);
      Put(out, j, Char(Window(bits', shift)), b, before);
      j := j + 1;
      shift := shift - 6;
      more := shift > 6 || (remaining == 0 && shift > 0);
    }
  }

  lemma {:induction false} CountBound(n: nat, i: nat, j: nat)
    requires i <= n && 8 * i - 6 * j > 0
    ensures j < SextetCount(n)
    ensures i == n && 8 * i - 6 * j <= 6 ==> j + 1 == SextetCount(n)
  {
  }

  /**
   Encodes the bytes, with padding and a final NUL, into the first Base64Size places of the buffer. Refuses
   inputs that are too long and buffers that are too short.
   */
  method Encode(out: array<Byte>, outSize: int, b: seq<Byte>) returns (ok: bool)
    requires outSize <= out.Length
    modifies out
    ensures ok <==> |b| < MAX_INPUT && Base64Size(|b|) <= outSize
    ensures ok ==> out[..Base64Size(|b|)] == Text(b) + [0] && out[Base64Size(|b|)..] == old(out[Base64Size(|b|)..])
    ensures !ok ==> out[..] == old(out[..])
  {
    if |b| >= MAX_INPUT || outSize < Base64Size(|b|) {
      return false;
    }
    hide Written, Read, Text, Base64Size;
    ghost var before := out[..];
    var bits: bv32 := 0;
    var i, j := 0, 0;
    NothingWritten(out[..], b);
    while i < |b|
      invariant 0 <= i <= |b| && Waiting(|b|, i, j) && (i >= 1 ==> Read(bits, b, i))
      invariant Written(out[..], before, b, j)
    {
      bits, j := EncodeByte(out, b, i, bits, j, before);
      i := i + 1;
    }
    Finish(out, j, b, before);
    return true;
  }

  lemma {:induction false} NothingWritten(out: seq<Byte>, b: seq<Byte>)
    requires Base64Size(|b|) <= |out|
    ensures Written(out, out, b, 0)
  {
  }

  /** The padding and the NUL. */
  method Finish(out: array<Byte>, j0: nat, ghost b: seq<Byte>, ghost before: seq<Byte>)
    requires j0 == SextetCount(|b|) && Written(out[..], before, b, j0)
    modifies out
    ensures Base64Size(|b|) <= out.Length == |before|
    ensures out[..Base64Size(|b|)] == Text(b) + [0] && out[Base64Size(|b|)..] == before[Base64Size(|b|)..]
  {
    hide Text;
    var j := j0;
    TextPadding(b, j);
    while j % 4 != 0
      invariant SextetCount(|b|) <= j <= |Text(b)| && Written(out[..], before, b, j)
      decreases |Text(b)| - j
    {
      TextPadding(b, j);
      Put(out, j, EQUALS, b, before);
      j := j + 1;
    }
    TextPadding(b, j);
    out[j] := 0;
  }
}
