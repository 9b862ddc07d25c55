/**
 AEAD framing as a whole: the receiver's result does not depend on how the stream is cut into segments,
 and it is the sender's plaintext up to the last complete chunk.
 */
module AeadRoundTrip {
  import opened Framing
  import opened Octets
  import opened Sequences
  import opened AeadFraming

  // ----- waiting for more

  /** The part of the stream that a context still keeps as bytes; the salt stays in its field. */
  function Held(c: Ctx): seq<Octet> {
    if c.init == 0 then c.chunk else c.salt + c.chunk
  }

  /** Waiting for more loses no byte and moves no nonce, whatever the bytes are. */
  lemma {:induction false} NeedMoreKeeps(c: Cipher, s: Ctx, b: seq<Octet>)
    requires Lawful(c) && Feed(c, s, b).code == NeedMore
    ensures var t := Feed(c, s, b).ctx;
            && Held(t) == Held(s) + b && Feed(c, s, b).out == [] && t.seen == s.seen
            && t.nonce == if s.init == 0 && t.init != 0 then 0 else s.nonce
  {
    var held := s.chunk + b;
    if s.init != 0 {
      DrainNothing(c, s.salt, s.nonce, held);
      assert s.salt + held == s.salt + s.chunk + b;
    } else if |held| > c.saltLen {
      DrainNothing(c, held[..c.saltLen], 0, held[c.saltLen..]);
    }
  }

  lemma {:induction false} DrainNothing(c: Cipher, salt: seq<Octet>, nonce: nat, b: seq<Octet>)
    requires Lawful(c)
    ensures var d := Drain(c, salt, nonce, b); !d.broken && d.out == [] ==> d.nonce == nonce && d.rest == b
  {
  }

  // ----- segments do not matter

  lemma {:induction false} OpenMore(c: Cipher, salt: seq<Octet>, nonce: nat, a: seq<Octet>, b: seq<Octet>)
    requires Lawful(c)
    ensures match OpenChunk(c, salt, nonce, a)
            case Short => true
            case Broken(n) => OpenChunk(c, salt, nonce, a + b) == Broken(n)
            case Chunk(m, n, rest) => OpenChunk(c, salt, nonce, a + b) == Chunk(m, n, rest + b)
  {
    if |a| > 2 * c.tagLen + CHUNK_SIZE_LEN {
      assert (a + b)[..CHUNK_SIZE_LEN + c.tagLen] == a[..CHUNK_SIZE_LEN + c.tagLen];
      var lenBuf := c.open(salt, nonce, a[..CHUNK_SIZE_LEN + c.tagLen]);
      if lenBuf.Some? {
        var chunkLen := 2 * c.tagLen + CHUNK_SIZE_LEN + Read16(lenBuf.value) % (CHUNK_SIZE_MASK + 1);
        if chunkLen <= |a| {
          assert (a + b)[CHUNK_SIZE_LEN + c.tagLen..chunkLen] == a[CHUNK_SIZE_LEN + c.tagLen..chunkLen];
          assert (a + b)[chunkLen..] == a[chunkLen..] + b;
        }
      }
    }
  }

  /** Draining a, and then what is left of it followed by b, is draining a followed by b. */
  lemma {:induction false} DrainSplit(c: Cipher, salt: seq<Octet>, nonce: nat, a: seq<Octet>, b: seq<Octet>)
    requires Lawful(c)
    ensures var d, all := Drain(c, salt, nonce, a), Drain(c, salt, nonce, a + b);
            if d.broken then all.broken
            else
              var e := Drain(c, salt, d.nonce, d.rest + b);
              all.broken == e.broken && all.out == d.out + e.out && all.nonce == e.nonce && all.rest == e.rest
    decreases |a|
  {
    hide OpenChunk, Lawful;
    OpenMore(c, salt, nonce, a, b);
    if a == [] {
      assert a + b == b;
    } else {
      match OpenChunk(c, salt, nonce, a)
      case Short =>
      case Broken(_) =>
      case Chunk(m, n, rest) =>
        DrainSplit(c, salt, n, rest, b);
    }
  }

  /** No context waits in the middle with an empty buffer. */
  predicate Waiting(s: Ctx) {
    s.init == 1 ==> s.chunk != []
  }

  lemma {:induction false} FeedWaiting(c: Cipher, s: Ctx, b: seq<Octet>)
    requires Lawful(c) && Waiting(s)
    ensures Feed(c, s, b).code != Error ==> Waiting(Feed(c, s, b).ctx)
  {
    hide Drain;
  }

  /**
   Two calls of Decrypt do what one call with both segments does: they fail if and only if it does, and
   else give the same plaintext in total and end in the same context. The bytes are arbitrary.
   */
  lemma {:induction false} FeedSplit(c: Cipher, s: Ctx, a: seq<Octet>, b: seq<Octet>)
    requires Lawful(c) && Waiting(s)
    ensures var x, all := Feed(c, s, a), Feed(c, s, a + b);
            var y := Feed(c, x.ctx, b);
            && (all.code == Error <==> x.code == Error || y.code == Error)
            && (all.code != Error ==> all.ctx == y.ctx && all.out == x.out + y.out)
  {
    hide Drain, Lawful;
    var held := s.chunk + a;
    assert s.chunk + (a + b) == held + b;
    if s.init != 0 {
      FeedChunksSplit(c, s.(chunk := held), b);
    } else if |held| > c.saltLen {
      var salt := held[..c.saltLen];
      assert (held + b)[..c.saltLen] == salt && (held + b)[c.saltLen..] == held[c.saltLen..] + b;
      FeedChunksSplit(c, s.(salt := salt, nonce := 0, init := 1, chunk := held[c.saltLen..]), b);
    }
  }

  lemma {:induction false} FeedChunksSplit(c: Cipher, s: Ctx, b: seq<Octet>)
    requires Lawful(c) && s.init != 0 && Waiting(s)
    ensures var x, all := FeedChunks(c, s), FeedChunks(c, s.(chunk := s.chunk + b));
            var y := FeedChunks(c, x.ctx.(chunk := x.ctx.chunk + b));
            && x.ctx.init != 0
            && (all.code == Error <==> x.code == Error || y.code == Error)
            && (all.code != Error ==> all.ctx == y.ctx && all.out == x.out + y.out)
  {
    DrainSplit(c, s.salt, s.nonce, s.chunk, b);
    DrainNothing(c, s.salt, s.nonce, s.chunk);
    hide Drain, Lawful;
  }

  /** Any cutting of a stream into segments gives what the whole stream gives in one call. */
  lemma {:induction false} AnySegments(c: Cipher, s: Ctx, segments: seq<seq<Octet>>)
    requires Lawful(c) && Waiting(s) && segments != []
    ensures Agrees(FeedAll(c, s, segments), Feed(c, s, Flatten(segments)))
    ensures FeedAll(c, s, segments).ok ==> Waiting(FeedAll(c, s, segments).ctx)
  {
    var n := |segments| - 1;
    hide Feed, Lawful;
    if n == 0 {
      assert Flatten(segments) == segments[0];
      assert FeedAll(c, s, segments[..n]) == Received(s, true, []);
      FeedWaiting(c, s, segments[0]);
    } else {
      AnySegments(c, s, segments[..n]);
      FeedSplit(c, s, Flatten(segments[..n]), segments[n]);
      FeedWaiting(c, s, Flatten(segments));
    }
  }

  // ----- the wire

  /** The nonce after k chunks. */
  function After(c: Cipher, nonce: nat, k: nat): nat
    requires c.nonces > 0
  {
    if k == 0 then nonce else Next(c, Next(c, After(c, nonce, k - 1)))
  }

  lemma {:induction false} AfterShift(c: Cipher, nonce: nat, k: nat)
    requires c.nonces > 0
    ensures After(c, Next(c, Next(c, nonce)), k) == After(c, nonce, k + 1)
  {
    if k > 0 {
      AfterShift(c, nonce, k - 1);
    }
  }

  /** Two nonces per chunk. */
  lemma {:induction false} AfterCounts(c: Cipher, k: nat)
    requires c.nonces > 0
    ensures After(c, 0, k) == 2 * k % c.nonces
  {
    if k > 0 {
      AfterCounts(c, k - 1);
      NextOf(c, 2 * (k - 1));
      NextOf(c, 2 * (k - 1) + 1);
    } else {
      ModUnique(0, c.nonces, 0, 0);
    }
  }

  lemma {:induction false} NextOf(c: Cipher, x: nat)
    requires c.nonces > 0
    ensures Next(c, x % c.nonces) == (x + 1) % c.nonces
  {
    var m := c.nonces;
    var q, r := x / m, x % m;
    if r + 1 < m {
      ModUnique(x + 1, m, q, r + 1);
      ModUnique(r + 1, m, 0, r + 1);
    } else {
      assert m * (q + 1) == m * q + m;
      ModUnique(x + 1, m, q + 1, 0);
      ModUnique(r + 1, m, 1, 0);
    }
  }

  /** The chunks of the pieces, from a nonce on. */
  function Wire(c: Cipher, salt: seq<Octet>, nonce: nat, pieces: seq<seq<Octet>>): seq<Octet>
    requires c.nonces > 0
    decreases |pieces|
  {
    if pieces == [] then []
    else SealChunk(c, salt, nonce, pieces[0]) + Wire(c, salt, Next(c, Next(c, nonce)), pieces[1..])
  }

  lemma {:induction false} WireAppend(c: Cipher, salt: seq<Octet>, nonce: nat, pieces: seq<seq<Octet>>, m: seq<Octet>)
    requires c.nonces > 0
    ensures Wire(c, salt, nonce, pieces + [m])
            == Wire(c, salt, nonce, pieces) + SealChunk(c, salt, After(c, nonce, |pieces|), m)
    decreases |pieces|
  {
    hide SealChunk;
    if pieces == [] {
      assert (pieces + [m])[1..] == [];
      assert Wire(c, salt, nonce, pieces) == [];
    } else {
      var next := Next(c, Next(c, nonce));
      assert (pieces + [m])[1..] == pieces[1..] + [m];
      WireAppend(c, salt, next, pieces[1..], m);
      AfterShift(c, nonce, |pieces| - 1);
    }
  }

  lemma {:induction false} WireConcat(
    c: Cipher, salt: seq<Octet>, nonce: nat, a: seq<seq<Octet>>, b: seq<seq<Octet>>)
    requires c.nonces > 0
    ensures Wire(c, salt, nonce, a + b) == Wire(c, salt, nonce, a) + Wire(c, salt, After(c, nonce, |a|), b)
    decreases |a|
  {
    hide SealChunk;
    if a == [] {
      assert a + b == b;
    } else {
      var next := Next(c, Next(c, nonce));
      assert (a + b)[1..] == a[1..] + b;
      WireConcat(c, salt, next, a[1..], b);
      AfterShift(c, nonce, |a| - 1);
      AppendAssoc(SealChunk(c, salt, nonce, a[0]), Wire(c, salt, next, a[1..]), Wire(c, salt, After(c, nonce, |a|), b));
    }
  }

  /** The pieces that are sent: empty ones are not. */
  function Sent(pieces: seq<seq<Octet>>): seq<seq<Octet>> {
    if pieces == [] then []
    else
      var n := |pieces| - 1;
      Sent(pieces[..n]) + if pieces[n] == [] then [] else [pieces[n]]
  }

  lemma {:induction false} SentFlatten(pieces: seq<seq<Octet>>)
    ensures Flatten(Sent(pieces)) == Flatten(pieces)
  {
    if pieces != [] {
      var n := |pieces| - 1;
      SentFlatten(pieces[..n]);
      if pieces[n] != [] {
        FlattenAppend(Sent(pieces[..n]), pieces[n]);
      } else {
        assert Sent(pieces) == Sent(pieces[..n]);
      }
    }
  }

  /** A sender's bytes are its salt and then the chunks; its nonce is twice their number. */
  lemma {:induction false} SenderWire(c: Cipher, s: Ctx, pieces: seq<seq<Octet>>)
    requires c.nonces > 0 && s.init == 0
    ensures var r, sent := SendAll(c, s, pieces), Sent(pieces);
            && r.0.salt == s.salt && r.0.init == (if sent == [] then 0 else 1)
            && r.1 == (if sent == [] then [] else s.salt + Wire(c, s.salt, 0, sent))
            && (sent != [] ==> r.0.nonce == After(c, 0, |sent|))
  {
    hide Next, SealChunk;
    if pieces != [] {
      var n := |pieces| - 1;
      var m := pieces[n];
      SenderWire(c, s, pieces[..n]);
      if m != [] {
        WireAppend(c, s.salt, 0, Sent(pieces[..n]), m);
        SendStep(c, s, pieces);
      } else {
        assert Sent(pieces) == Sent(pieces[..n]);
        assert SendAll(c, s, pieces[..n]).1 + [] == SendAll(c, s, pieces[..n]).1;
      }
    }
  }

  lemma {:induction false} SendStep(c: Cipher, s: Ctx, pieces: seq<seq<Octet>>)
    requires c.nonces > 0 && pieces != [] && pieces[|pieces| - 1] != []
    ensures var n := |pieces| - 1;
            var before, sent := SendAll(c, s, pieces[..n]), Sent(pieces[..n]);
            var last := Encrypted(c, before.0, pieces[n]);
            SendAll(c, s, pieces) == (last.0, before.1 + last.1) && Sent(pieces) == sent + [pieces[n]]
  {
  }

  // ----- draining the wire

  function ChunkLen(c: Cipher, m: seq<Octet>): nat {
    2 * c.tagLen + CHUNK_SIZE_LEN + |m|
  }

  function WireLen(c: Cipher, pieces: seq<seq<Octet>>): nat {
    if pieces == [] then 0 else ChunkLen(c, pieces[0]) + WireLen(c, pieces[1..])
  }

  /** How many of the pieces are complete in the first len bytes. */
  function Complete(c: Cipher, pieces: seq<seq<Octet>>, len: nat): (k: nat)
    ensures k <= |pieces|
  {
    if pieces == [] || len < ChunkLen(c, pieces[0]) then 0
    else 1 + Complete(c, pieces[1..], len - ChunkLen(c, pieces[0]))
  }

  /** Complete counts as many pieces as fit. */
  lemma {:induction false} CompleteIsMost(c: Cipher, pieces: seq<seq<Octet>>, len: nat)
    ensures var k := Complete(c, pieces, len);
            WireLen(c, pieces[..k]) <= len && (k < |pieces| ==> len < WireLen(c, pieces[..k + 1]))
    decreases |pieces|
  {
    if pieces != [] {
      var k := Complete(c, pieces, len);
      if len >= ChunkLen(c, pieces[0]) {
        CompleteIsMost(c, pieces[1..], len - ChunkLen(c, pieces[0]));
        assert pieces[..k][1..] == pieces[1..][..k - 1];
      }
      if k < |pieces| {
        assert pieces[..k + 1][1..] == pieces[1..][..k];
      }
    }
  }

  predicate PieceOk(m: seq<Octet>) {
    0 < |m| <= CHUNK_SIZE_MASK
  }

  /** A complete chunk is opened. */
  lemma {:induction false} OpenSealed(c: Cipher, salt: seq<Octet>, nonce: nat, m: seq<Octet>, rest: seq<Octet>)
    requires Lawful(c) && PieceOk(m)
    ensures |SealChunk(c, salt, nonce, m)| == ChunkLen(c, m)
    ensures OpenChunk(c, salt, nonce, SealChunk(c, salt, nonce, m) + rest) == Chunk(m, Next(c, Next(c, nonce)), rest)
  {
    Read16U16(|m|);
    hide U16, Read16, Next;
    var len, body := c.seal(salt, nonce, U16(|m|)), c.seal(salt, Next(c, nonce), m);
    var b := SealChunk(c, salt, nonce, m) + rest;
    assert b == len + body + rest;
    assert b[..|len|] == len && b[|len|..|len| + |body|] == body && b[|len| + |body|..] == rest;
    assert |m| % TWO_TO_THE_16 % (CHUNK_SIZE_MASK + 1) == |m|;
  }

  /**
   What a receiver gets for a piece of any length that passes: the part that is carried, and the stale bytes as if
   they were the next chunk. So the piece arrives exactly if it fits a chunk. If nothing of it is carried, the
   receiver reports an error.
   */
  lemma {:induction false} PieceArrives(
    c: Cipher, salt: seq<Octet>, nonce: nat, m: seq<Octet>, stale: seq<Octet>, rest: seq<Octet>)
    requires Lawful(c) && m != [] && Passes(m) && |stale| == |m| - PassedLength(|m|)
    ensures var o := OpenChunk(c, salt, nonce, SealChunk(c, salt, nonce, Carried(m)) + (stale + rest));
            && (PassedLength(|m|) > 0 ==> o == Chunk(Carried(m), Next(c, Next(c, nonce)), stale + rest))
            && (PassedLength(|m|) == 0 ==> o == Broken(nonce))
            && (o == Chunk(m, Next(c, Next(c, nonce)), rest) <==> |m| <= CHUNK_SIZE_MASK)
  {
    var sealed := SealChunk(c, salt, nonce, Carried(m));
    if PassedLength(|m|) > 0 {
      OpenSealed(c, salt, nonce, Carried(m), stale + rest);
      if |m| <= CHUNK_SIZE_MASK {
        ShortPiece(m, stale);
        assert stale + rest == rest;
      } else {
        assert |m| > |Carried(m)|;
      }
    } else {
      OpenEmpty(c, salt, nonce, stale + rest);
      assert Carried(m) == [];
    }
  }

  /** A chunk with nothing in it is refused once something follows. */
  lemma {:induction false} OpenEmpty(c: Cipher, salt: seq<Octet>, nonce: nat, rest: seq<Octet>)
    requires Lawful(c) && rest != []
    ensures OpenChunk(c, salt, nonce, SealChunk(c, salt, nonce, []) + rest) == Broken(nonce)
  {
    var first, n := c.seal(salt, nonce, U16(0)), CHUNK_SIZE_LEN + c.tagLen;
    var b := SealChunk(c, salt, nonce, []) + rest;
    assert |U16(0)| == 2;
    assert b[..n] == first;
    Read16U16(0);
  }

  /** A part of a chunk is not. */
  lemma {:induction false} OpenPart(c: Cipher, salt: seq<Octet>, nonce: nat, m: seq<Octet>, b: seq<Octet>)
    requires Lawful(c) && PieceOk(m) && b < SealChunk(c, salt, nonce, m)
    ensures OpenChunk(c, salt, nonce, b) == Short
  {
    Read16U16(|m|);
    hide U16, Read16, Next;
    var len := c.seal(salt, nonce, U16(|m|));
    if |b| > 2 * c.tagLen + CHUNK_SIZE_LEN {
      assert b[..|len|] == SealChunk(c, salt, nonce, m)[..|len|] == len;
      assert |m| % TWO_TO_THE_16 % (CHUNK_SIZE_MASK + 1) == |m|;
    }
  }

  lemma {:induction false} FlattenFront<T>(pieces: seq<seq<T>>)
    requires pieces != []
    ensures Flatten(pieces) == pieces[0] + Flatten(pieces[1..])
  {
    var n := |pieces| - 1;
    if n == 0 {
      assert Flatten(pieces[..n]) == Flatten(pieces[1..]) == [];
    } else {
      FlattenFront(pieces[..n]);
      assert pieces[..n][1..] == pieces[1..][..n - 1];
      AppendAssoc(pieces[0], Flatten(pieces[1..][..n - 1]), pieces[n]);
    }
  }

  /** Draining b opens the pieces that are complete in it and keeps the bytes of the one cut short. */
  ghost predicate Drains(c: Cipher, salt: seq<Octet>, nonce: nat, pieces: seq<seq<Octet>>, b: seq<Octet>)
    requires Lawful(c)
  {
    var d, k := Drain(c, salt, nonce, b), Complete(c, pieces, |b|);
    !d.broken && d.out == Flatten(pieces[..k]) && d.nonce == After(c, nonce, k)
    && Wire(c, salt, nonce, pieces[..k]) + d.rest == b
  }

  /** So does any prefix of the wire. */
  lemma {:induction false} DrainWire(
    c: Cipher, salt: seq<Octet>, nonce: nat, pieces: seq<seq<Octet>>, b: seq<Octet>, tail: seq<Octet>)
    requires Lawful(c) && b + tail == Wire(c, salt, nonce, pieces)
    requires forall i :: 0 <= i < |pieces| ==> PieceOk(pieces[i])
    ensures Drains(c, salt, nonce, pieces, b)
    decreases |pieces|
  {
    hide SealChunk, OpenChunk, Next, PieceOk, Drains, Drain, Complete;
    assert c.nonces > 0;
    if pieces == [] || b == [] {
      assert b == [];
      DrainEmpty(c, salt, nonce, pieces);
    } else {
      var first, next := SealChunk(c, salt, nonce, pieces[0]), Next(c, Next(c, nonce));
      OpenSealed(c, salt, nonce, pieces[0], []);
      if |b| < |first| {
        PrefixPart(b, tail, first, Wire(c, salt, next, pieces[1..]));
        DrainPart(c, salt, nonce, pieces, b);
      } else {
        CutFront(b, tail, first, Wire(c, salt, next, pieces[1..]));
        DrainWire(c, salt, next, pieces[1..], b[|first|..], tail);
        DrainStep(c, salt, nonce, pieces, b[|first|..]);
      }
    }
  }

  lemma {:induction false} DrainEmpty(c: Cipher, salt: seq<Octet>, nonce: nat, pieces: seq<seq<Octet>>)
    requires Lawful(c)
    ensures Drains(c, salt, nonce, pieces, [])
  {
    assert pieces[..0] == [];
  }

  lemma {:induction false} DrainPart(c: Cipher, salt: seq<Octet>, nonce: nat, pieces: seq<seq<Octet>>, b: seq<Octet>)
    requires Lawful(c) && pieces != [] && PieceOk(pieces[0]) && b != [] && b < SealChunk(c, salt, nonce, pieces[0])
    ensures Drains(c, salt, nonce, pieces, b)
  {
    OpenSealed(c, salt, nonce, pieces[0], []);
    OpenPart(c, salt, nonce, pieces[0], b);
    hide SealChunk, OpenChunk, Next;
    assert pieces[..0] == [];
    assert [] + b == b;
  }

  lemma {:induction false} DrainStep(c: Cipher, salt: seq<Octet>, nonce: nat, pieces: seq<seq<Octet>>, rest: seq<Octet>)
    requires Lawful(c) && pieces != [] && PieceOk(pieces[0])
    requires Drains(c, salt, Next(c, Next(c, nonce)), pieces[1..], rest)
    ensures Drains(c, salt, nonce, pieces, SealChunk(c, salt, nonce, pieces[0]) + rest)
  {
    assert c.nonces > 0;
    hide SealChunk, OpenChunk, Next, Lawful, PieceOk, Drain, Complete, Wire, Flatten, After;
    var first, next := SealChunk(c, salt, nonce, pieces[0]), Next(c, Next(c, nonce));
    OpenSealed(c, salt, nonce, pieces[0], rest);
    StepParts(c, salt, nonce, pieces, first, rest);
    var k, d := Complete(c, pieces[1..], |rest|), Drain(c, salt, next, rest);
    AppendAssoc(first, Wire(c, salt, next, pieces[1..][..k]), d.rest);
  }

  lemma {:induction false} StepParts(
    c: Cipher, salt: seq<Octet>, nonce: nat, pieces: seq<seq<Octet>>, first: seq<Octet>, rest: seq<Octet>)
    requires Lawful(c) && pieces != [] && first == SealChunk(c, salt, nonce, pieces[0]) && |first|
        == ChunkLen(c, pieces[0])
    requires OpenChunk(c, salt, nonce, first + rest) == Chunk(pieces[0], Next(c, Next(c, nonce)), rest)
    ensures var d, e := Drain(c, salt, nonce, first + rest), Drain(c, salt, Next(c, Next(c, nonce)), rest);
            d == e.(out := pieces[0] + e.out)
    ensures var k := Complete(c, pieces[1..], |rest|);
            && Complete(c, pieces, |first + rest|) == k + 1
            && Flatten(pieces[..k + 1]) == pieces[0] + Flatten(pieces[1..][..k])
            && After(c, Next(c, Next(c, nonce)), k) == After(c, nonce, k + 1)
            && Wire(c, salt, nonce, pieces[..k + 1])
               == first + Wire(c, salt, Next(c, Next(c, nonce)), pieces[1..][..k])
  {
    assert c.nonces > 0;
    hide SealChunk, OpenChunk, Next, Lawful;
    var k := Complete(c, pieces[1..], |rest|);
    assert pieces[..k + 1][1..] == pieces[1..][..k];
    FlattenFront(pieces[..k + 1]);
    AfterShift(c, nonce, k);
  }

  // ----- the round trip

  /** A context that has not received anything. */
  predicate Fresh(s: Ctx) {
    s.init == 0 && s.chunk == []
  }

  /** This plaintext and this nonce are those of the pieces that are complete in the first len bytes of the wire. */
  ghost predicate Delivers(c: Cipher, nonce: nat, out: seq<Octet>, sent: seq<seq<Octet>>, len: nat)
    requires c.nonces > 0
  {
    var k := Complete(c, sent, len);
    out == Flatten(sent[..k]) && nonce == After(c, 0, k)
  }

  function Ciphertext(c: Cipher, sender: Ctx, pieces: seq<seq<Octet>>): seq<Octet>
    requires c.nonces > 0
  {
    SendAll(c, sender, pieces).1
  }

  /** A sender encrypts the pieces, and b, some prefix of the ciphertext, has reached a receiver. */
  ghost predicate Connected(c: Cipher, sender: Ctx, receiver: Ctx, pieces: seq<seq<Octet>>, b: seq<Octet>) {
    && Lawful(c) && |sender.salt| == c.saltLen && sender.init == 0
    && Fresh(receiver) && sender.salt !in receiver.seen
    && (forall i :: 0 <= i < |pieces| ==> |pieces[i]| <= CHUNK_SIZE_MASK)
    && b <= Ciphertext(c, sender, pieces)
  }

  /** How many chunks are complete in the first len bytes of a stream. */
  function CompleteChunks(c: Cipher, pieces: seq<seq<Octet>>, len: nat): (k: nat)
    ensures k <= |Sent(pieces)|
  {
    if len <= c.saltLen then 0 else Complete(c, Sent(pieces), len - c.saltLen)
  }

  /** The plaintext is that of the chunks complete in the first len bytes, and the nonce counts them. */
  ghost predicate Arrived(c: Cipher, pieces: seq<seq<Octet>>, len: nat, out: seq<Octet>, nonce: nat)
    requires c.nonces > 0
  {
    var k := CompleteChunks(c, pieces, len);
    out == Flatten(Sent(pieces)[..k]) && (len > c.saltLen ==> nonce == 2 * k % c.nonces)
  }

  /**
   For any pieces of plaintext, any prefix of the ciphertext and any cutting of it into segments, no call
   of Decrypt fails, the plaintext that comes out is that of the complete chunks in order, and the nonce
   is twice their number.
   */
  lemma {:induction false} StreamRoundTrip(
    c: Cipher, sender: Ctx, receiver: Ctx, pieces: seq<seq<Octet>>, segments: seq<seq<Octet>>)
    requires segments != [] && Connected(c, sender, receiver, pieces, Flatten(segments))
    ensures var r := FeedAll(c, receiver, segments);
            r.ok && Arrived(c, pieces, |Flatten(segments)|, r.out, r.ctx.nonce)
  {
    AnySegments(c, receiver, segments);
    OneCall(c, sender, receiver, pieces, Flatten(segments));
    hide Lawful, Feed, FeedAll, Ciphertext, Arrived;
  }

  /** The sender's nonce is twice the number of chunks it has sent. */
  lemma {:induction false} SenderNonce(c: Cipher, sender: Ctx, pieces: seq<seq<Octet>>)
    requires c.nonces > 0 && sender.init == 0 && Sent(pieces) != []
    ensures SendAll(c, sender, pieces).0.nonce == 2 * |Sent(pieces)| % c.nonces
  {
    SenderWire(c, sender, pieces);
    AfterCounts(c, |Sent(pieces)|);
    hide SendAll, Next;
  }

  /** Nothing but the sender's plaintext arrives, and all of it once the whole ciphertext is in. */
  lemma {:induction false} PlaintextArrives(
    c: Cipher, sender: Ctx, receiver: Ctx, pieces: seq<seq<Octet>>, b: seq<Octet>, out: seq<Octet>, nonce: nat)
    requires Connected(c, sender, receiver, pieces, b) && Arrived(c, pieces, |b|, out, nonce)
    ensures out <= Flatten(pieces)
    ensures b == Ciphertext(c, sender, pieces) ==> out == Flatten(pieces)
  {
    assert c.nonces > 0;
    hide Lawful, Next, PieceOk, Ciphertext;
    var sent, k := Sent(pieces), CompleteChunks(c, pieces, |b|);
    SentFlatten(pieces);
    FlattenPrefix(sent, k);
    if b == Ciphertext(c, sender, pieces) {
      AllComplete(c, sender, pieces);
      assert sent[..k] == sent;
    }
  }

  lemma {:induction false} AllComplete(c: Cipher, sender: Ctx, pieces: seq<seq<Octet>>)
    requires Lawful(c) && |sender.salt| == c.saltLen && sender.init == 0
    requires forall i :: 0 <= i < |pieces| ==> |pieces[i]| <= CHUNK_SIZE_MASK
    ensures CompleteChunks(c, pieces, |Ciphertext(c, sender, pieces)|) == |Sent(pieces)|
  {
    SentOk(pieces);
    CiphertextWire(c, sender, pieces);
    WholeWire(c, sender.salt, Sent(pieces));
    hide Lawful, Ciphertext, Next, PieceOk;
  }

  lemma {:induction false} CiphertextWire(c: Cipher, s: Ctx, pieces: seq<seq<Octet>>)
    requires Lawful(c) && s.init == 0
    ensures Ciphertext(c, s, pieces) == if Sent(pieces) == [] then [] else s.salt + Wire(c, s.salt, 0, Sent(pieces))
  {
    SenderWire(c, s, pieces);
  }

  /** The whole stream so far in one call. */
  lemma {:induction false} OneCall(c: Cipher, sender: Ctx, receiver: Ctx, pieces: seq<seq<Octet>>, b: seq<Octet>)
    requires Connected(c, sender, receiver, pieces, b)
    ensures var f := Feed(c, receiver, b); f.code != Error && Arrived(c, pieces, |b|, f.out, f.ctx.nonce)
  {
    assert c.nonces > 0;
    var sent := Sent(pieces);
    if |b| <= c.saltLen {
      FeedShort(c, receiver, b);
      assert sent[..0] == [];
      hide Lawful, Ciphertext, Feed;
    } else {
      hide Lawful, Next, PieceOk, Ciphertext, Feed, Delivers, Arrived;
      var all := Ciphertext(c, sender, pieces);
      PrefixTail(b, all);
      SentOk(pieces);
      CiphertextWire(c, sender, pieces);
      FeedWire(c, sender.salt, receiver, sent, b, all[|b|..]);
      DeliversArrived(c, pieces, |b|, Feed(c, receiver, b));
    }
  }

  lemma {:induction false} DeliversArrived(c: Cipher, pieces: seq<seq<Octet>>, len: nat, f: Fed<Ctx, Octet>)
    requires c.nonces > 0 && len > c.saltLen && Delivers(c, f.ctx.nonce, f.out, Sent(pieces), len - c.saltLen)
    ensures Arrived(c, pieces, len, f.out, f.ctx.nonce)
  {
    AfterCounts(c, CompleteChunks(c, pieces, len));
    hide Next;
  }

  lemma {:induction false} SentOk(pieces: seq<seq<Octet>>)
    requires forall i :: 0 <= i < |pieces| ==> |pieces[i]| <= CHUNK_SIZE_MASK
    ensures forall i :: 0 <= i < |Sent(pieces)| ==> PieceOk(Sent(pieces)[i])
  {
    if pieces != [] {
      SentOk(pieces[..|pieces| - 1]);
    }
  }

  lemma {:induction false} FlattenPrefix<T>(pieces: seq<seq<T>>, k: nat)
    requires k <= |pieces|
    ensures Flatten(pieces[..k]) <= Flatten(pieces)
  {
    if k < |pieces| {
      FlattenPrefix(pieces[..|pieces| - 1], k);
      assert pieces[..|pieces| - 1][..k] == pieces[..k];
    } else {
      assert pieces[..k] == pieces;
    }
  }

  /** All pieces are complete in the whole wire. */
  lemma {:induction false} WholeWire(c: Cipher, salt: seq<Octet>, pieces: seq<seq<Octet>>)
    requires Lawful(c) && forall i :: 0 <= i < |pieces| ==> PieceOk(pieces[i])
    ensures Complete(c, pieces, |Wire(c, salt, 0, pieces)|) == |pieces|
    ensures pieces != [] ==> Wire(c, salt, 0, pieces) != []
  {
    WireLength(c, salt, 0, pieces);
    CompleteAll(c, pieces);
  }

  lemma {:induction false} WireLength(c: Cipher, salt: seq<Octet>, nonce: nat, pieces: seq<seq<Octet>>)
    requires Lawful(c) && forall i :: 0 <= i < |pieces| ==> PieceOk(pieces[i])
    ensures |Wire(c, salt, nonce, pieces)| == WireLen(c, pieces)
    decreases |pieces|
  {
    if pieces != [] {
      OpenSealed(c, salt, nonce, pieces[0], []);
      WireLength(c, salt, Next(c, Next(c, nonce)), pieces[1..]);
    }
  }

  lemma {:induction false} CompleteAll(c: Cipher, pieces: seq<seq<Octet>>)
    ensures Complete(c, pieces, WireLen(c, pieces)) == |pieces|
  {
    if pieces != [] {
      CompleteAll(c, pieces[1..]);
    }
  }

  lemma {:induction false} FeedShort(c: Cipher, s: Ctx, b: seq<Octet>)
    requires Lawful(c) && Fresh(s) && |b| <= c.saltLen
    ensures Feed(c, s, b).code == NeedMore && Feed(c, s, b).out == []
  {
  }

  /** The whole stream so far in one call. */
  lemma {:induction false} FeedWire(
    c: Cipher, salt: seq<Octet>, s: Ctx, sent: seq<seq<Octet>>, b: seq<Octet>, tail: seq<Octet>)
    requires Lawful(c) && Fresh(s) && salt !in s.seen && |salt| == c.saltLen < |b|
    requires forall i :: 0 <= i < |sent| ==> PieceOk(sent[i])
    requires b + tail == salt + Wire(c, salt, 0, sent)
    ensures var f := Feed(c, s, b); f.code != Error && Delivers(c, f.ctx.nonce, f.out, sent, |b| - c.saltLen)
  {
    assert c.nonces > 0;
    hide Lawful, Next, PieceOk, Drain, After, Wire, Complete, Feed, Flatten;
    CutFront(b, tail, salt, Wire(c, salt, 0, sent));
    DrainWire(c, salt, 0, sent, b[|salt|..], tail);
    FeedFresh(c, salt, s, b);
  }

  lemma {:induction false} FeedFresh(c: Cipher, salt: seq<Octet>, s: Ctx, b: seq<Octet>)
    requires Lawful(c) && Fresh(s) && salt !in s.seen && |salt| == c.saltLen < |b| && b[..c.saltLen] == salt
    requires !Drain(c, salt, 0, b[c.saltLen..]).broken
    ensures var f, d := Feed(c, s, b), Drain(c, salt, 0, b[c.saltLen..]);
            f.code != Error && f.out == d.out && f.ctx.nonce == d.nonce
  {
    hide Lawful, Drain;
    assert s.chunk + b == b;
  }
}
