/**
 Single chunks: under which nonces the sender seals them, and what the receiver does with one that opens, or does not.
 */
module AeadChunks {
  import opened Framing
  import opened Octets
  import opened Sequences
  import opened Wrappers
  import opened AeadFraming
  import opened AeadRoundTrip

  // ----- sending

  /** What comes before chunk j: the salt, or what has been sent for the chunks before */
  function SentBefore(c: Cipher, s: Ctx, pieces: seq<seq<Octet>>, j: nat): seq<Octet>
    requires c.nonces > 0 && j <= |Sent(pieces)|
  {
    if j == 0 then s.salt else SendAll(c, s, Sent(pieces)[..j]).1
  }

  /** Chunk j has its length sealed under nonce 2 * j, and its contents under the next one. */
  lemma {:induction false} ChunkSealed(c: Cipher, s: Ctx, pieces: seq<seq<Octet>>, j: nat) returns (rest: seq<Octet>)
    requires c.nonces > 0 && s.init == 0 && j < |Sent(pieces)|
    ensures var m := Sent(pieces)[j];
            SendAll(c, s, pieces).1
            == SentBefore(c, s, pieces, j)
               + (c.seal(s.salt, 2 * j % c.nonces, U16(|m|)) + c.seal(s.salt, (2 * j + 1) % c.nonces, m)) + rest
  {
    hide SendAll, Wire, SealChunk, Next, SentBefore;
    var sent := Sent(pieces);
    var m, front := sent[j], Wire(c, s.salt, 0, sent[..j]);
    rest := Wire(c, s.salt, After(c, 0, j + 1), sent[j + 1..]);
    SenderWire(c, s, pieces);
    WireAt(c, s.salt, sent, j);
    BeforeChunk(c, s, pieces, j);
    AppendAssoc(s.salt, front, SealChunk(c, s.salt, After(c, 0, j), m) + rest);
    AppendAssoc(s.salt + front, SealChunk(c, s.salt, After(c, 0, j), m), rest);
    ChunkNonces(c, s.salt, j, m);
  }

  lemma {:induction false} WireAt(c: Cipher, salt: seq<Octet>, sent: seq<seq<Octet>>, j: nat)
    requires c.nonces > 0 && j < |sent|
    ensures Wire(c, salt, 0, sent)
         == Wire(c, salt, 0, sent[..j])
            + (SealChunk(c, salt, After(c, 0, j), sent[j]) + Wire(c, salt, After(c, 0, j + 1), sent[j + 1..]))
  {
    hide Wire, SealChunk, Next;
    assert sent == sent[..j] + sent[j..];
    WireConcat(c, salt, 0, sent[..j], sent[j..]);
    WireFront(c, salt, After(c, 0, j), sent[j..]);
    ChunkNonces(c, salt, j, sent[j]);
    assert sent[j..][1..] == sent[j + 1..];
  }

  lemma {:induction false} BeforeChunk(c: Cipher, s: Ctx, pieces: seq<seq<Octet>>, j: nat)
    requires c.nonces > 0 && s.init == 0 && j <= |Sent(pieces)|
    ensures SentBefore(c, s, pieces, j) == s.salt + Wire(c, s.salt, 0, Sent(pieces)[..j])
  {
    hide SendAll, Wire;
    SentAgain(pieces, j);
    SenderWire(c, s, Sent(pieces)[..j]);
    if j == 0 {
      WireNone(c, s.salt, 0, Sent(pieces)[..j]);
      assert s.salt + [] == s.salt;
    }
  }

  lemma {:induction false} WireNone(c: Cipher, salt: seq<Octet>, nonce: nat, pieces: seq<seq<Octet>>)
    requires c.nonces > 0 && pieces == []
    ensures Wire(c, salt, nonce, pieces) == []
  {
  }

  lemma {:induction false} WireFront(c: Cipher, salt: seq<Octet>, nonce: nat, pieces: seq<seq<Octet>>)
    requires c.nonces > 0 && pieces != []
    ensures Wire(c, salt, nonce, pieces)
         == SealChunk(c, salt, nonce, pieces[0]) + Wire(c, salt, Next(c, Next(c, nonce)), pieces[1..])
  {
  }

  lemma {:induction false} ChunkNonces(c: Cipher, salt: seq<Octet>, j: nat, m: seq<Octet>)
    requires c.nonces > 0
    ensures After(c, 0, j + 1) == Next(c, Next(c, After(c, 0, j)))
    ensures SealChunk(c, salt, After(c, 0, j), m)
         == c.seal(salt, 2 * j % c.nonces, U16(|m|)) + c.seal(salt, (2 * j + 1) % c.nonces, m)
  {
    AfterCounts(c, j);
    NextOf(c, 2 * j);
  }

  /** None of the pieces that are sent is empty, so sending them alone sends all of them. */
  lemma {:induction false} SentAgain(pieces: seq<seq<Octet>>, j: nat)
    requires j <= |Sent(pieces)|
    ensures Sent(Sent(pieces)[..j]) == Sent(pieces)[..j]
    decreases |pieces|, j
  {
    if pieces != [] {
      var n := |pieces| - 1;
      var before := Sent(pieces[..n]);
      if j <= |before| {
        assert Sent(pieces)[..j] == before[..j];
        SentAgain(pieces[..n], j);
      } else {
        SentAgain(pieces[..n], |before|);
        assert before[..|before|] == before;
        assert Sent(pieces)[..j] == before + [pieces[n]];
        assert (before + [pieces[n]])[..|before|] == before;
      }
    }
  }

  /** No nonce is used twice, as long as there are enough. */
  lemma {:induction false} NoncesApart(c: Cipher, i: nat, k: nat)
    requires i < k < c.nonces
    ensures i % c.nonces != k % c.nonces
  {
    ModUnique(i, c.nonces, 0, i);
    ModUnique(k, c.nonces, 0, k);
  }

  // ----- receiving

  /** The bytes that a context has not opened yet, once it has its salt */
  function Pending(s: Ctx, b: seq<Octet>): seq<Octet> {
    s.chunk + b
  }

  /**
   A complete chunk that opens gives its contents, and what follows it is opened two nonces later. Of the length
   only the lower 14 bits count.
   */
  lemma {:induction false} GoodChunk(c: Cipher, s: Ctx, b: seq<Octet>, lenBuf: seq<Octet>, m: seq<Octet>)
    requires Lawful(c) && s.init != 0 && |lenBuf| == 2 && m != [] && |m| == Read16(lenBuf) % 0x4000
    requires var all, first := Pending(s, b), CHUNK_SIZE_LEN + c.tagLen;
             && |all| >= first + |m| + c.tagLen
             && c.open(s.salt, s.nonce, all[..first]) == Some(lenBuf)
             && c.open(s.salt, Next(c, s.nonce), all[first..first + |m| + c.tagLen]) == Some(m)
    ensures var all, end := Pending(s, b), CHUNK_SIZE_LEN + 2 * c.tagLen + |m|;
            var d := Drain(c, s.salt, (s.nonce + 2) % c.nonces, all[end..]);
            && (Feed(c, s, b).code == Error <==> d.broken || (s.init == 1 && s.salt in s.seen))
            && (Feed(c, s, b).code != Error ==> Feed(c, s, b).out == m + d.out)
  {
    hide Lawful, OpenChunk, Read16;
    LawfulNonces(c);
    OpensChunk(c, s.salt, s.nonce, Pending(s, b), lenBuf, m);
    TwoNonces(c, s.nonce);
  }

  lemma {:induction false} LawfulNonces(c: Cipher)
    requires Lawful(c)
    ensures c.nonces > 0
  {
  }

  lemma {:induction false} TwoNonces(c: Cipher, nonce: nat)
    requires c.nonces > 0
    ensures Next(c, Next(c, nonce)) == (nonce + 2) % c.nonces
  {
    NextOf(c, nonce + 1);
  }

  lemma {:induction false} OpensChunk(
    c: Cipher, salt: seq<Octet>, nonce: nat, all: seq<Octet>, lenBuf: seq<Octet>, m: seq<Octet>)
    requires Lawful(c) && |lenBuf| == 2 && m != [] && |m| == Read16(lenBuf) % 0x4000
    requires |all| >= 2 * c.tagLen + CHUNK_SIZE_LEN + |m|
    requires var first := CHUNK_SIZE_LEN + c.tagLen;
             && c.open(salt, nonce, all[..first]) == Some(lenBuf)
             && c.open(salt, Next(c, nonce), all[first..first + |m| + c.tagLen]) == Some(m)
    ensures OpenChunk(c, salt, nonce, all)
         == Chunk(m, Next(c, Next(c, nonce)), all[CHUNK_SIZE_LEN + 2 * c.tagLen + |m|..])
  {
    hide Lawful, Read16, Next;
    assert CHUNK_SIZE_LEN + c.tagLen + |m| + c.tagLen == 2 * c.tagLen + CHUNK_SIZE_LEN + |m|;
  }

  /** A chunk whose sealed length does not open is an error, and nothing comes out. */
  lemma {:induction false} BadLength(c: Cipher, s: Ctx, b: seq<Octet>)
    requires Lawful(c) && s.init != 0 && |s.chunk + b| > 2 * c.tagLen + CHUNK_SIZE_LEN
    requires c.open(s.salt, s.nonce, (s.chunk + b)[..CHUNK_SIZE_LEN + c.tagLen]).None?
    ensures Feed(c, s, b).code == Error && Feed(c, s, b).out == []
  {
    hide Lawful;
  }

  /** A complete chunk whose sealed contents do not open is one too. */
  lemma {:induction false} BadContents(c: Cipher, s: Ctx, b: seq<Octet>, mlen: nat)
    requires Lawful(c) && s.init != 0 && 0 < mlen <= CHUNK_SIZE_MASK
    requires var all, first := s.chunk + b, CHUNK_SIZE_LEN + c.tagLen;
             && |all| >= first + mlen + c.tagLen
             && c.open(s.salt, s.nonce, all[..first]) == Some(U16(mlen))
             && c.open(s.salt, Next(c, s.nonce), all[first..first + mlen + c.tagLen]).None?
    ensures Feed(c, s, b).code == Error && Feed(c, s, b).out == []
  {
    hide Lawful, OpenChunk, U16;
    Unopened(c, s.salt, s.nonce, s.chunk + b, mlen);
  }

  lemma {:induction false} Unopened(c: Cipher, salt: seq<Octet>, nonce: nat, all: seq<Octet>, mlen: nat)
    requires Lawful(c) && 0 < mlen <= CHUNK_SIZE_MASK && |all| >= 2 * c.tagLen + CHUNK_SIZE_LEN + mlen
    requires var first := CHUNK_SIZE_LEN + c.tagLen;
             && c.open(salt, nonce, all[..first]) == Some(U16(mlen))
             && c.open(salt, Next(c, nonce), all[first..first + mlen + c.tagLen]).None?
    ensures OpenChunk(c, salt, nonce, all).Broken?
  {
    hide Lawful, U16, Read16;
    Read16U16(mlen);
    assert CHUNK_SIZE_LEN + c.tagLen + mlen + c.tagLen == 2 * c.tagLen + CHUNK_SIZE_LEN + mlen;
  }
}
