/** Quoting strings of bytes for a line of text, and splitting such a line into arguments. */
module Quoting {
  import opened Octets
  import opened Sequences

  const QUOTE: Octet := 0x22
  const APOSTROPHE: Octet := 0x27
  const BACKSLASH: Octet := 0x5c
  const SPACE: Octet := 0x20

  // ----- character classes of the C locale

  predicate IsPrint(c: Octet) { 0x20 <= c <= 0x7e }

  predicate IsSpace(c: Octet) { c == SPACE || 0x09 <= c <= 0x0d }

  predicate IsHexDigit(c: Octet) {
    0x30 <= c <= 0x39 || 0x61 <= c <= 0x66 || 0x41 <= c <= 0x46
  }

  function HexDigitToInt(c: Octet): (n: nat)
    ensures n < 16
  {
    if 0x30 <= c <= 0x39 then c - 0x30
    else if 0x61 <= c <= 0x66 then c - 0x61 + 10
    else if 0x41 <= c <= 0x46 then c - 0x41 + 10
    else 0
  }

  /** A digit of the format %02x */
  function HexDigit(n: nat): (c: Octet)
    requires n < 16
    ensures IsHexDigit(c) && HexDigitToInt(c) == n
  {
    if n < 10 then 0x30 + n else 0x61 + (n - 10)
  }

  // ----- quoting

  function Escape(c: Octet): (e: seq<Octet>)
    ensures |e| >= 1
  {
    if c == BACKSLASH || c == QUOTE then [BACKSLASH, c]
    else if c == 0x0a then [BACKSLASH, 0x6e]
    else if c == 0x0d then [BACKSLASH, 0x72]
    else if c == 0x09 then [BACKSLASH, 0x74]
    else if c == 0x07 then [BACKSLASH, 0x61]
    else if c == 0x08 then [BACKSLASH, 0x62]
    else if IsPrint(c) then [c]
    else [BACKSLASH, 0x78, HexDigit(c / 16), HexDigit(c % 16)]
  }

  function Escapes(s: seq<Octet>): seq<Octet> {
    if s == [] then [] else Escape(s[0]) + Escapes(s[1..])
  }

  lemma {:induction false} EscapesAppend(s: seq<Octet>, c: Octet)
    ensures Escapes(s + [c]) == Escapes(s) + Escape(c)
  {
    if s == [] {
      assert (s + [c])[1..] == [];
    } else {
      assert (s + [c])[1..] == s[1..] + [c];
      EscapesAppend(s[1..], c);
    }
  }

  function Repr(s: seq<Octet>): seq<Octet> {
    [QUOTE] + Escapes(s) + [QUOTE]
  }

  /** Appends a quoted representation of p to s. */
  method CatRepr(s: seq<Octet>, p: seq<Octet>) returns (r: seq<Octet>)
    ensures r == s + Repr(p)
  {
    r := s + [QUOTE];
    var i := 0;
    assert p[..i] == [];
    while i < |p|
      invariant 0 <= i <= |p|
      invariant r == s + [QUOTE] + Escapes(p[..i])
    {
      EscapesAppend(p[..i], p[i]);
      assert p[..i + 1] == p[..i] + [p[i]];
      r := r + Escape(p[i]);
      i := i + 1;
    }
    assert p[..i] == p;
    r := r + [QUOTE];
  }

  // ----- splitting, as a function of the rest of the line

  datatype Mode = Bare | InQuotes | InSingleQuotes

  /** The k-th character of a rest of a line, and NUL at its end. */
  function At(p: seq<Octet>, k: nat): Octet {
    if k < |p| then p[k] else 0
  }

  function Unescape(c: Octet): Octet {
    if c == 0x6e then 0x0a
    else if c == 0x72 then 0x0d
    else if c == 0x74 then 0x09
    else if c == 0x62 then 0x08
    else if c == 0x61 then 0x07 else c
  }

  predicate IsHexEscape(p: seq<Octet>) {
    At(p, 0) == BACKSLASH && At(p, 1) == 0x78 && IsHexDigit(At(p, 2)) && IsHexDigit(At(p, 3))
  }

  /** What one step of the scan of a token does. */
  datatype Scan = More(length: nat, mode: Mode, add: seq<Octet>) | Done(length: nat) | Unbalanced

  /** A closing quote must be followed by a space or nothing at all. */
  function Close(p: seq<Octet>): Scan {
    if At(p, 1) != 0 && !IsSpace(At(p, 1)) then Unbalanced else Done(1)
  }

  function Next(p: seq<Octet>, mode: Mode): (s: Scan)
    ensures s.More? ==> 1 <= s.length <= |p|
    ensures s.Done? ==> s.length <= |p| && (At(p, 0) != 0 ==> s.length > 0)
  {
    match mode
    case InQuotes =>
      if IsHexEscape(p) then More(4, mode, [16 * HexDigitToInt(p[2]) + HexDigitToInt(p[3])])
      else if At(p, 0) == BACKSLASH && At(p, 1) != 0 then More(2, mode, [Unescape(p[1])])
      else if At(p, 0) == QUOTE then Close(p)
      else if At(p, 0) == 0 then Unbalanced
      else More(1, mode, [p[0]])
    case InSingleQuotes =>
      if At(p, 0) == BACKSLASH && At(p, 1) == APOSTROPHE then More(2, mode, [APOSTROPHE])
      else if At(p, 0) == APOSTROPHE then Close(p)
      else if At(p, 0) == 0 then Unbalanced
      else More(1, mode, [p[0]])
    case Bare =>
      if At(p, 0) == 0 then Done(0)
      else if At(p, 0) in {SPACE, 0x0a, 0x0d, 0x09} then Done(1)
      else if At(p, 0) == QUOTE then More(1, InQuotes, [])
      else if At(p, 0) == APOSTROPHE then More(1, InSingleQuotes, [])
      else More(1, mode, [p[0]])
  }

  datatype Token = Token(value: seq<Octet>, rest: seq<Octet>) | NoToken

  /** The rest of a token, with `current` already read. */
  function Scanned(p: seq<Octet>, mode: Mode, current: seq<Octet>): (t: Token)
    ensures t.Token? ==> |t.rest| <= |p| && (At(p, 0) != 0 ==> |t.rest| < |p|)
    decreases |p|
  {
    match Next(p, mode)
    case More(n, m, add) => Scanned(p[n..], m, current + add)
    case Done(n) => Token(current, p[n..])
    case Unbalanced => NoToken
  }

  function SkipBlanks(p: seq<Octet>): (q: seq<Octet>)
    ensures |q| <= |p|
  {
    if At(p, 0) != 0 && IsSpace(At(p, 0)) then SkipBlanks(p[1..]) else p
  }

  datatype Args = Args(list: seq<seq<Octet>>) | Malformed

  function Split(line: seq<Octet>): Args
    decreases |line|
  {
    var p := SkipBlanks(line);
    if At(p, 0) == 0 then Args([])
    else
      match Scanned(p, Bare, [])
      case NoToken => Malformed
      case Token(value, rest) =>
        match Split(rest)
        case Malformed => Malformed
        case Args(list) => Args([value] + list)
  }

  // ----- splitting, as the loop

  /** The arguments so far, and those of the rest of the line. */
  predicate SplitTo(line: seq<Octet>, list: seq<seq<Octet>>, rest: seq<Octet>) {
    match Split(rest)
    case Malformed => Split(line) == Malformed
    case Args(more) => Split(line) == Args(list + more)
  }

  lemma {:induction false} SplitNext(line: seq<Octet>, list: seq<seq<Octet>>, rest: seq<Octet>)
    requires SplitTo(line, list, rest)
    ensures var p := SkipBlanks(rest);
            if At(p, 0) == 0 then Split(line) == Args(list)
            else
              match Scanned(p, Bare, [])
              case NoToken => Split(line) == Malformed
              case Token(value, r) => SplitTo(line, list + [value], r)
  {
    var p := SkipBlanks(rest);
    if At(p, 0) == 0 {
      assert list + [] == list;
    } else if Split(rest).Args? {
      var t := Scanned(p, Bare, []);
      assert list + ([t.value] + Split(t.rest).list) == (list + [t.value]) + Split(t.rest).list;
    }
  }

  lemma {:induction false} SplitStart(line: seq<Octet>)
    ensures SplitTo(line, [], line)
  {
    if Split(line).Args? {
      assert [] + Split(line).list == Split(line).list;
    }
  }

  method Skip(line: seq<Octet>, p0: nat) returns (p: nat)
    requires p0 <= |line|
    ensures p0 <= p <= |line| && line[p..] == SkipBlanks(line[p0..])
  {
    p := p0;
    while p < |line| && line[p] != 0 && IsSpace(line[p])
      invariant p0 <= p <= |line|
      invariant SkipBlanks(line[p..]) == SkipBlanks(line[p0..])
    {
      assert line[p..][1..] == line[p + 1..];
      p := p + 1;
    }
  }

  function ModeOf(inq: bool, insq: bool): Mode {
    if inq then InQuotes else if insq then InSingleQuotes else Bare
  }

  datatype Flags = Flags(inq: bool, insq: bool, done: bool)

  /** One turn of the loop over a token: what happens to the position, the token and the flags. */
  method TokenStep(line: seq<Octet>, p0: nat, f0: Flags, current0: seq<Octet>)
    returns (ok: bool, p: nat, f: Flags, current: seq<Octet>)
    requires p0 <= |line| && !(f0.inq && f0.insq) && !f0.done
    ensures p0 <= p <= |line| && !(f.inq && f.insq)
    ensures match Next(line[p0..], ModeOf(f0.inq, f0.insq))
            case Unbalanced => !ok
            case Done(n) => ok && f.done && p == p0 + n && current == current0
            case More(n, mode, add) =>
              ok && !f.done && p == p0 + n && ModeOf(f.inq, f.insq) == mode && current == current0 + add
  {
    ghost var rest := line[p0..];
    ok, p, f, current := true, p0, f0, current0;
    var c := if p < |line| then line[p] else 0;
    var d := if p + 1 < |line| then line[p + 1] else 0;
    assert c == At(rest, 0) && d == At(rest, 1);
    if f.inq {
      if c == BACKSLASH && d == 0x78 && p + 3 < |line| && IsHexDigit(line[p + 2]) && IsHexDigit(line[p + 3]) {
        assert line[p + 2] == At(rest, 2) && line[p + 3] == At(rest, 3);
        current := current + [16 * HexDigitToInt(line[p + 2]) + HexDigitToInt(line[p + 3])];
        p := p + 3;
      } else if c == BACKSLASH && d != 0 {
        p := p + 1;
        current := current + [Unescape(d)];
      } else if c == QUOTE {
        if d != 0 && !IsSpace(d) {
          ok := false;
          return;
        }
        f := f.(done := true);
      } else if c == 0 {
        ok := false;
        return;
      } else {
        current := current + [c];
      }
    } else if f.insq {
      if c == BACKSLASH && d == APOSTROPHE {
        p := p + 1;
        current := current + [APOSTROPHE];
      } else if c == APOSTROPHE {
        if d != 0 && !IsSpace(d) {
          ok := false;
          return;
        }
        f := f.(done := true);
      } else if c == 0 {
        ok := false;
        return;
      } else {
        current := current + [c];
      }
    } else if c in {SPACE, 0x0a, 0x0d, 0x09, 0} {
      f := f.(done := true);
    } else if c == QUOTE {
      f := f.(inq := true);
    } else if c == APOSTROPHE {
      f := f.(insq := true);
    } else {
      current := current + [c];
    }
    if p < |line| && line[p] != 0 {
      p := p + 1;
    }
  }

  /** Reads one token; ok is false for unbalanced quotes or characters right after a closing quote. */
  method ReadToken(line: seq<Octet>, p0: nat) returns (ok: bool, current: seq<Octet>, p: nat)
    requires p0 <= |line|
    ensures p0 <= p <= |line|
    ensures match Scanned(line[p0..], Bare, [])
            case NoToken => !ok
            case Token(value, rest) => ok && current == value && line[p..] == rest
  {
    hide Next;
    ok, current, p := true, [], p0;
    var f := Flags(false, false, false);
    while !f.done
      invariant p0 <= p <= |line| && !(f.inq && f.insq)
      invariant !f.done ==> Scanned(line[p0..], Bare, []) == Scanned(line[p..], ModeOf(f.inq, f.insq), current)
      invariant f.done ==> Scanned(line[p0..], Bare, []) == Token(current, line[p..])
      decreases !f.done, |line| - p
    {
      var q, g, more;
      ok, q, g, more := TokenStep(line, p, f, current);
      if !ok {
        return;
      }
      assert line[p..][q - p..] == line[q..];
      p, f, current := q, g, more;
    }
  }

  method SplitArgs(line: seq<Octet>) returns (r: Args)
    ensures r == Split(line)
  {
    var p := 0;
    var vector: seq<seq<Octet>> := [];
    assert line[0..] == line;
    SplitStart(line);
    while true
      invariant p <= |line| && SplitTo(line, vector, line[p..])
      decreases |line| - p
    {
      SplitNext(line, vector, line[p..]);
      p := Skip(line, p);
      if p < |line| && line[p] != 0 {
        var ok, current, q := ReadToken(line, p);
        if !ok {
          return Malformed;
        }
        vector := vector + [current];
        p := q;
      } else {
        return Args(vector);
      }
    }
  }

  // ----- the round trip

  /** An escaped character is read back in quotes, whatever follows. */
  lemma {:induction false} ScanEscape(c: Octet, tail: seq<Octet>, current: seq<Octet>)
    ensures Scanned(Escape(c) + tail, InQuotes, current) == Scanned(tail, InQuotes, current + [c])
  {
    hide Next, Escape;
    NextEscape(c, tail);
    var p := Escape(c) + tail;
    assert p[|Escape(c)|..] == tail;
  }

  lemma {:induction false} NextEscape(c: Octet, tail: seq<Octet>)
    ensures Next(Escape(c) + tail, InQuotes) == More(|Escape(c)|, InQuotes, [c])
  {
  }

  lemma {:induction false} EscapesFront(s: seq<Octet>)
    requires s != []
    ensures Escapes(s) == Escape(s[0]) + Escapes(s[1..])
  {
  }

  lemma {:induction false} ScanEscapes(s: seq<Octet>, tail: seq<Octet>, current: seq<Octet>)
    ensures Scanned(Escapes(s) + tail, InQuotes, current) == Scanned(tail, InQuotes, current + s)
    decreases |s|
  {
    hide Escape, Escapes, Scanned, Next;
    if s == [] {
      EscapesEmpty();
      assert [] + tail == tail && current + s == current;
    } else {
      EscapesFront(s);
      AppendAssoc(Escape(s[0]), Escapes(s[1..]), tail);
      ScanEscape(s[0], Escapes(s[1..]) + tail, current);
      ScanEscapes(s[1..], tail, current + [s[0]]);
      assert (current + [s[0]]) + s[1..] == current + s;
    }
  }

  lemma {:induction false} EscapesEmpty()
    ensures Escapes([]) == []
  {
  }

  /** What may follow a closing quote: nothing, or a space */
  predicate Separates(tail: seq<Octet>) {
    At(tail, 0) == 0 || IsSpace(At(tail, 0))
  }

  /** After a closing quote the token is complete, or the split fails. */
  lemma {:induction false} ScanClose(mode: Mode, tail: seq<Octet>, current: seq<Octet>)
    requires mode != Bare
    ensures var p := [if mode == InQuotes then QUOTE else APOSTROPHE] + tail;
            Scanned(p, mode, current) == if Separates(tail) then Token(current, tail) else NoToken
  {
    var p := [if mode == InQuotes then QUOTE else APOSTROPHE] + tail;
    assert p[1..] == tail;
    assert At(p, 1) == At(tail, 0);
  }

  /** A quoted string is one token, if nothing or a space follows, and no token otherwise. */
  lemma {:induction false} ScanRepr(s: seq<Octet>, tail: seq<Octet>)
    ensures Scanned(Repr(s) + tail, Bare, []) == if Separates(tail) then Token(s, tail) else NoToken
  {
    var p := Repr(s) + tail;
    assert Next(p, Bare) == More(1, InQuotes, []);
    assert p[1..] == Escapes(s) + ([QUOTE] + tail);
    var none: seq<Octet> := [];
    assert none + none == none && none + s == s;
    ScanEscapes(s, [QUOTE] + tail, []);
    ScanClose(InQuotes, tail, s);
    hide Next, Escape, Escapes;
  }

  /** How the special characters are written: n, r, t, b and a after a backslash, and two hexadecimal digits */
  lemma {:induction false} EscapeTable()
    ensures Escape(0x0a) == ['\\' as int, 'n' as int] && Escape(0x0d) == ['\\' as int, 'r' as int]
    ensures Escape(0x09) == ['\\' as int, 't' as int] && Escape(0x08) == ['\\' as int, 'b' as int]
    ensures Escape(0x07) == ['\\' as int, 'a' as int] && Escape(0x22) == ['\\' as int, '"' as int]
    ensures Escape(0x5c) == ['\\' as int, '\\' as int]
    ensures Escape(0x1f) == ['\\' as int, 'x' as int, '1' as int, 'f' as int]
  {
  }

  // ----- the other two kinds of tokens

  /** A character that stands for itself outside of quotes */
  predicate IsPlain(c: Octet) {
    c != 0 && !IsSpace(c) && c != QUOTE && c != APOSTROPHE
  }

  lemma {:induction false} ScanPlain(w: seq<Octet>, tail: seq<Octet>, current: seq<Octet>)
    requires forall k :: 0 <= k < |w| ==> IsPlain(w[k])
    ensures Scanned(w + tail, Bare, current) == Scanned(tail, Bare, current + w)
    decreases |w|
  {
    if w == [] {
      assert w + tail == tail && current + w == current;
    } else {
      var p := w + tail;
      assert p[1..] == w[1..] + tail;
      assert Next(p, Bare) == More(1, Bare, [w[0]]);
      hide Next;
      ScanPlain(w[1..], tail, current + [w[0]]);
      assert (current + [w[0]]) + w[1..] == current + w;
    }
  }

  /** A word of plain characters is a token as it stands, up to a space, which is skipped, or to the end. */
  lemma {:induction false} ScanWord(w: seq<Octet>, tail: seq<Octet>)
    requires w != [] && forall k :: 0 <= k < |w| ==> IsPlain(w[k])
    ensures Scanned(w, Bare, []) == Token(w, [])
    ensures Scanned(w + ([SPACE] + tail), Bare, []) == Token(w, tail)
  {
    ScanPlain(w, [], []);
    ScanPlain(w, [SPACE] + tail, []);
    assert w + [] == w && [] + w == w;
    assert ([SPACE] + tail)[1..] == tail;
  }

  /** Between apostrophes every character stands for itself, but for an apostrophe, which needs a backslash. */
  function Single(c: Octet): seq<Octet> {
    if c == APOSTROPHE then [BACKSLASH, APOSTROPHE] else [c]
  }

  function Apostrophes(s: seq<Octet>): seq<Octet> {
    if s == [] then [] else Single(s[0]) + Apostrophes(s[1..])
  }

  function SingleRepr(s: seq<Octet>): seq<Octet> {
    [APOSTROPHE] + Apostrophes(s) + [APOSTROPHE]
  }

  lemma {:induction false} ScanApostrophes(s: seq<Octet>, tail: seq<Octet>, current: seq<Octet>)
    requires 0 !in s && (s != [] && s[|s| - 1] == BACKSLASH ==> At(tail, 0) != APOSTROPHE)
    ensures Scanned(Apostrophes(s) + tail, InSingleQuotes, current) == Scanned(tail, InSingleQuotes, current + s)
    decreases |s|
  {
    hide Scanned, Next, Apostrophes;
    ApostrophesFront(s);
    if s == [] {
      assert [] + tail == tail && current + s == current;
    } else {
      var rest := Apostrophes(s[1..]);
      if s[0] == BACKSLASH {
        NoApostrophe(s, tail);
      }
      AppendAssoc(Single(s[0]), rest, tail);
      ScanSingle(s[0], rest + tail, current);
      ScanApostrophes(s[1..], tail, current + [s[0]]);
      assert (current + [s[0]]) + s[1..] == current + s;
    }
  }

  lemma {:induction false} ApostrophesFront(s: seq<Octet>)
    ensures Apostrophes(s) == if s == [] then [] else Single(s[0]) + Apostrophes(s[1..])
  {
  }

  lemma {:induction false} ScanSingle(c: Octet, rest: seq<Octet>, current: seq<Octet>)
    requires c != 0 && (c == BACKSLASH ==> At(rest, 0) != APOSTROPHE)
    ensures Scanned(Single(c) + rest, InSingleQuotes, current) == Scanned(rest, InSingleQuotes, current + [c])
  {
    NextSingle(c, rest);
    var p := Single(c) + rest;
    assert p[|Single(c)|..] == rest;
    hide Next, Single;
  }

  lemma {:induction false} NextSingle(c: Octet, rest: seq<Octet>)
    requires c != 0 && (c == BACKSLASH ==> At(rest, 0) != APOSTROPHE)
    ensures Next(Single(c) + rest, InSingleQuotes) == More(|Single(c)|, InSingleQuotes, [c])
  {
    var p := [c] + rest;
    assert At(p, 1) == At(rest, 0);
  }

  lemma {:induction false} NoApostrophe(s: seq<Octet>, tail: seq<Octet>)
    requires s != [] && s[0] == BACKSLASH && (s[|s| - 1] == BACKSLASH ==> At(tail, 0) != APOSTROPHE)
    ensures At(Apostrophes(s[1..]) + tail, 0) != APOSTROPHE
  {
    if |s| == 1 {
      assert s[1..] == [] && Apostrophes(s[1..]) + tail == tail;
    }
  }

  /** A string in apostrophes is one token if it has no NUL and does not end in a backslash. */
  lemma {:induction false} ScanSingleRepr(s: seq<Octet>, tail: seq<Octet>)
    requires 0 !in s && (s == [] || s[|s| - 1] != BACKSLASH)
    ensures Scanned(SingleRepr(s) + tail, Bare, []) == if Separates(tail) then Token(s, tail) else NoToken
  {
    hide Scanned, Next, Apostrophes;
    var rest := Apostrophes(s) + ([APOSTROPHE] + tail);
    assert SingleRepr(s) + tail == [APOSTROPHE] + rest;
    OpenSingle(rest);
    ScanApostrophes(s, [APOSTROPHE] + tail, []);
    ScanClose(InSingleQuotes, tail, s);
    assert [] + s == s;
  }

  /** Otherwise the backslash takes the closing apostrophe with it. */
  lemma {:induction false} ScanSingleBackslash(s: seq<Octet>)
    requires 0 !in s && s != [] && s[|s| - 1] == BACKSLASH
    ensures Scanned(SingleRepr(s), Bare, []) == NoToken
  {
    hide Scanned, Next, Apostrophes;
    var t := s[..|s| - 1];
    ApostrophesLast(t);
    assert t + [BACKSLASH] == s;
    assert Apostrophes(s) + [APOSTROPHE] == Apostrophes(t) + [BACKSLASH, APOSTROPHE];
    OpenSingle(Apostrophes(s) + [APOSTROPHE]);
    assert SingleRepr(s) == [APOSTROPHE] + (Apostrophes(s) + [APOSTROPHE]);
    ScanApostrophes(t, [BACKSLASH, APOSTROPHE], []);
    CutSingle([] + t);
  }

  lemma {:induction false} OpenSingle(rest: seq<Octet>)
    ensures Scanned([APOSTROPHE] + rest, Bare, []) == Scanned(rest, InSingleQuotes, [])
  {
    var p := [APOSTROPHE] + rest;
    assert Next(p, Bare) == More(1, InSingleQuotes, []);
    assert p[1..] == rest;
    var none: seq<Octet> := [];
    assert none + none == none;
    hide Next;
  }

  /** After an escaped apostrophe nothing is left. */
  lemma {:induction false} CutSingle(current: seq<Octet>)
    ensures Scanned([BACKSLASH, APOSTROPHE], InSingleQuotes, current) == NoToken
  {
    var q := [BACKSLASH, APOSTROPHE];
    assert Next(q, InSingleQuotes) == More(2, InSingleQuotes, [APOSTROPHE]);
    assert q[2..] == [];
    assert Next([], InSingleQuotes) == Unbalanced;
    hide Next;
  }

  lemma {:induction false} ApostrophesLast(t: seq<Octet>)
    ensures Apostrophes(t + [BACKSLASH]) == Apostrophes(t) + [BACKSLASH]
  {
    if t == [] {
      assert (t + [BACKSLASH])[1..] == [];
    } else {
      assert (t + [BACKSLASH])[1..] == t[1..] + [BACKSLASH];
      ApostrophesLast(t[1..]);
    }
  }

  /** The quoted strings with a space before each but the first. */
  function Line(args: seq<seq<Octet>>): seq<Octet> {
    if args == [] then []
    else if |args| == 1 then Repr(args[0])
    else Repr(args[0]) + ([SPACE] + Line(args[1..]))
  }

  /** Any list of strings of bytes, quoted and joined by spaces, splits into that list again. */
  lemma {:induction false} SplitLine(args: seq<seq<Octet>>)
    ensures Split(Line(args)) == Args(args)
  {
    if args != [] {
      var tail := if |args| == 1 then [] else [SPACE] + Line(args[1..]);
      assert Line(args) == Repr(args[0]) + tail;
      SplitLine(args[1..]);
      SplitSpace(Line(args[1..]));
      ScanRepr(args[0], tail);
      assert args == [args[0]] + args[1..];
    }
  }

  lemma {:induction false} SplitSpace(line: seq<Octet>)
    ensures Split([SPACE] + line) == Split(line)
  {
    assert ([SPACE] + line)[1..] == line;
  }

  /** One of the tokens of the line begins at n, as far as the line can be split. */
  predicate TokenAt(line: seq<Octet>, n: nat)
    decreases |line|
  {
    var p := SkipBlanks(line);
    At(p, 0) != 0 &&
    var t := Scanned(p, Bare, []);
    || n == |line| - |p|
    || (t.Token? && n >= |line| - |t.rest| && TokenAt(t.rest, n - (|line| - |t.rest|)))
  }

  predicate BadTokenAt(line: seq<Octet>, n: nat) {
    n <= |line| && TokenAt(line, n) && Scanned(line[n..], Bare, []) == NoToken
  }

  /** Splitting fails exactly if a token is not closed properly. */
  lemma {:induction false} MalformedToken(line: seq<Octet>)
    ensures Split(line) == Malformed <==> exists n: nat :: BadTokenAt(line, n)
    decreases |line|
  {
    var p := SkipBlanks(line);
    var k := |line| - |p|;
    SkipSuffix(line);
    assert BadTokenAt(line, k) <==> At(p, 0) != 0 && Scanned(p, Bare, []) == NoToken;
    if At(p, 0) != 0 && Scanned(p, Bare, []).Token? {
      var rest := Scanned(p, Bare, []).rest;
      forall n: nat ensures BadTokenAt(line, n) <==> n >= |line| - |rest| && BadTokenAt(rest, n - (|line| - |rest|)) {
        LaterToken(line, p, rest, n);
      }
      forall n: nat | BadTokenAt(rest, n) ensures BadTokenAt(line, n + (|line| - |rest|)) {
        LaterToken(line, p, rest, n + (|line| - |rest|));
      }
      MalformedToken(rest);
    }
  }

  /** After the first token of a line come the tokens of its rest. */
  lemma {:induction false} LaterToken(line: seq<Octet>, p: seq<Octet>, rest: seq<Octet>, n: nat)
    requires p == SkipBlanks(line) && At(p, 0) != 0 && Scanned(p, Bare, []).Token? && rest == Scanned(p, Bare, []).rest
    ensures BadTokenAt(line, n) <==> n >= |line| - |rest| && BadTokenAt(rest, n - (|line| - |rest|))
  {
    hide Next;
    var d := |line| - |rest|;
    SkipSuffix(line);
    ScanSuffix(p, Bare, []);
    if d <= n <= |line| {
      assert line[n..] == rest[n - d..] by {
        SuffixSuffix(line, |line| - |p|, |p| - |rest|, n - d);
      }
    }
  }

  lemma {:induction false} SuffixSuffix(s: seq<Octet>, i: nat, j: nat, k: nat)
    requires i + j + k <= |s|
    ensures s[i..][j..][k..] == s[i + j + k..]
  {
  }

  lemma {:induction false} SkipSuffix(line: seq<Octet>)
    ensures line[|line| - |SkipBlanks(line)|..] == SkipBlanks(line)
  {
    if At(line, 0) != 0 && IsSpace(At(line, 0)) {
      SkipSuffix(line[1..]);
    }
  }

  lemma {:induction false} ScanSuffix(p: seq<Octet>, mode: Mode, current: seq<Octet>)
    ensures var t := Scanned(p, mode, current); t.Token? ==> p[|p| - |t.rest|..] == t.rest
    decreases |p|
  {
    hide Next;
    match Next(p, mode)
    case More(n, m, add) => ScanSuffix(p[n..], m, current + add);
    case Done(_) =>
    case Unbalanced =>
  }
}
