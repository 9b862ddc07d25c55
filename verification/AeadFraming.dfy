/**
 AEAD framing of a TCP stream: a salt, then for each piece of plaintext its sealed length and its sealed
 contents. The receiver gets the stream in arbitrary segments.
 */
module AeadFraming {
  import opened Framing
  import opened Octets
  import opened Wrappers

  const CHUNK_SIZE_LEN: nat := 2
  const CHUNK_SIZE_MASK: nat := 0x3FFF

  /**
   A cipher with the shared key. The subkey is a function of the salt, so seal and open take the salt, a
   nonce and a message; nonces are counted modulo `nonces`.
   */
  datatype Cipher = Cipher(
    saltLen: nat, tagLen: nat, nonces: nat,
    seal: (seq<Octet>, nat, seq<Octet>) -> seq<Octet>,
    open: (seq<Octet>, nat, seq<Octet>) -> Option<seq<Octet>>)

  ghost predicate Lawful(c: Cipher) {
    && c.nonces > 0
    && (forall s, n, m :: |c.seal(s, n, m)| == |m| + c.tagLen && c.open(s, n, c.seal(s, n, m)) == Some(m))
    && (forall s, n, b :: c.open(s, n, b).Some? ==> |b| == |c.open(s, n, b).value| + c.tagLen)
  }

  function Next(c: Cipher, nonce: nat): nat
    requires c.nonces > 0
  {
    (nonce + 1) % c.nonces
  }

  /** The fields of a cipher context. seen stands for the peer's filter of salts. */
  datatype Ctx = Ctx(init: nat, salt: seq<Octet>, nonce: nat, chunk: seq<Octet>, seen: set<seq<Octet>>)

  // ----- sending

  function SealChunk(c: Cipher, salt: seq<Octet>, nonce: nat, m: seq<Octet>): seq<Octet>
    requires c.nonces > 0
  {
    c.seal(salt, nonce, U16(|m|)) + c.seal(salt, Next(c, nonce), m)
  }

  /** What one call of Encrypt does to a context, and the bytes it gives. */
  function Encrypted(c: Cipher, s: Ctx, m: seq<Octet>): (Ctx, seq<Octet>)
    requires c.nonces > 0
  {
    if m == [] then (s, []) else Emitted(c, s, m)
  }

  /** One chunk, after the salt if it is the first one */
  function Emitted(c: Cipher, s: Ctx, m: seq<Octet>): (Ctx, seq<Octet>)
    requires c.nonces > 0
  {
    if s.init == 0 then
      (s.(init := 1, nonce := Next(c, Next(c, 0)), seen := s.seen + {s.salt}), s.salt + SealChunk(c, s.salt, 0, m))
    else
      (s.(nonce := Next(c, Next(c, s.nonce))), SealChunk(c, s.salt, s.nonce, m))
  }

  /** The length that is passed on: it is cut to 16 bits. */
  function PassedLength(n: nat): nat {
    n % TWO_TO_THE_16
  }

  /** The assertion on the length that is passed on */
  predicate Passes(m: seq<Octet>) {
    PassedLength(|m|) <= CHUNK_SIZE_MASK
  }

  /** What is sealed of a piece */
  function Carried(m: seq<Octet>): seq<Octet> {
    m[..PassedLength(|m|)]
  }

  /** All the bytes a sender gives for the pieces. */
  function SendAll(c: Cipher, s: Ctx, pieces: seq<seq<Octet>>): (Ctx, seq<Octet>)
    requires c.nonces > 0
  {
    if pieces == [] then (s, [])
    else
      var n := |pieces| - 1;
      var before := SendAll(c, s, pieces[..n]);
      var last := Encrypted(c, before.0, pieces[n]);
      (last.0, before.1 + last.1)
  }

  /** A piece that fits a chunk is carried completely. */
  lemma {:induction false} ShortPiece(m: seq<Octet>, stale: seq<Octet>)
    requires |stale| == |m| - PassedLength(|m|) && |m| <= CHUNK_SIZE_MASK
    ensures Passes(m) && Carried(m) == m && stale == []
  {
  }

  // ----- receiving

  datatype Opened = Chunk(m: seq<Octet>, nonce: nat, rest: seq<Octet>) | Short | Broken(nonce: nat)

  /** Opens the chunk at the front of b, if it is complete. */
  function OpenChunk(c: Cipher, salt: seq<Octet>, nonce: nat, b: seq<Octet>): (r: Opened)
    requires Lawful(c)
    ensures r.Chunk? ==> r.m != [] && |b| == 2 * c.tagLen + CHUNK_SIZE_LEN + |r.m| + |r.rest|
  {
    if |b| <= 2 * c.tagLen + CHUNK_SIZE_LEN then Short
    else
      match c.open(salt, nonce, b[..CHUNK_SIZE_LEN + c.tagLen])
      case None => Broken(nonce)
      case Some(lenBuf) =>
        var mlen := Read16(lenBuf) % (CHUNK_SIZE_MASK + 1);
        var chunkLen := 2 * c.tagLen + CHUNK_SIZE_LEN + mlen;
        if mlen == 0 then Broken(nonce)
        else if |b| < chunkLen then Short
        else
          match c.open(salt, Next(c, nonce), b[CHUNK_SIZE_LEN + c.tagLen..chunkLen])
          case None => Broken(Next(c, nonce))
          case Some(m) => Chunk(m, Next(c, Next(c, nonce)), b[chunkLen..])
  }

  datatype Drained = Drained(broken: bool, out: seq<Octet>, nonce: nat, rest: seq<Octet>)

  /** Opens all the complete chunks at the front of b. */
  function Drain(c: Cipher, salt: seq<Octet>, nonce: nat, b: seq<Octet>): (d: Drained)
    requires Lawful(c)
    decreases |b|
  {
    if b == [] then Drained(false, [], nonce, b)
    else
      match OpenChunk(c, salt, nonce, b)
      case Short => Drained(false, [], nonce, b)
      case Broken(n) => Drained(true, [], n, b)
      case Chunk(m, n, rest) =>
        var d := Drain(c, salt, n, rest);
        d.(out := m + d.out)
  }

  /** What one call of Decrypt does to a context, and the plaintext it gives. */
  function Feed(c: Cipher, s: Ctx, b: seq<Octet>): Fed<Ctx, Octet>
    requires Lawful(c)
  {
    var held := s.chunk + b;
    if s.init != 0 then FeedChunks(c, s.(chunk := held))
    else if |held| <= c.saltLen then Fed(s.(chunk := held), NeedMore, [])
    else
      var t := s.(salt := held[..c.saltLen], nonce := 0);
      if t.salt in s.seen then Fed(t.(chunk := held), Error, [])
      else FeedChunks(c, t.(init := 1, chunk := held[c.saltLen..]))
  }

  function FeedChunks(c: Cipher, s: Ctx): Fed<Ctx, Octet>
    requires Lawful(c)
  {
    var d := Drain(c, s.salt, s.nonce, s.chunk);
    var t := s.(nonce := d.nonce, chunk := d.rest);
    if d.broken then Fed(t, Error, [])
    else if d.rest != [] && d.out == [] then Fed(t, NeedMore, [])
    else if s.init == 1 then
      if s.salt in s.seen then Fed(t, Error, [])
      else Fed(t.(init := 2, seen := s.seen + {s.salt}), Ok, d.out)
    else Fed(t, Ok, d.out)
  }

  /** Feeding one segment after another; an error ends the connection. */
  function FeedAll(c: Cipher, s: Ctx, segments: seq<seq<Octet>>): Received<Ctx, Octet>
    requires Lawful(c)
  {
    if segments == [] then Nothing(s)
    else
      var n := |segments| - 1;
      var before := FeedAll(c, s, segments[..n]);
      if !before.ok then before
      else
        Then(before, Feed(c, before.ctx, segments[n]))
  }

  // ----- the cipher context

  class CipherCtx {
    const cipher: Cipher
    var init: nat
    var salt: seq<Octet>
    var nonce: nat
    var chunk: seq<Octet>
    var seen: set<seq<Octet>>

    ghost function V(): Ctx reads this {
      Ctx(init, salt, nonce, chunk, seen)
    }

    method ChunkEncrypt(m: seq<Octet>) returns (c: seq<Octet>)
      requires Lawful(cipher) && |m| <= CHUNK_SIZE_MASK
      modifies this`nonce
      ensures c == SealChunk(cipher, salt, old(nonce), m)
      ensures nonce == Next(cipher, Next(cipher, old(nonce)))
    {
      c := cipher.seal(salt, nonce, U16(|m| % (CHUNK_SIZE_MASK + 1)));
      nonce := Next(cipher, nonce);
      c := c + cipher.seal(salt, nonce, m);
      nonce := Next(cipher, nonce);
    }

    /**
     One piece of plaintext to bytes for the wire; the first call sends the salt too. The length of a piece is
     cut to 16 bits, but the output is as long as for the whole piece: it ends in stale, what the static buffer
     holds behind the chunk. That is nothing for the pieces that fit a chunk.
     */
    method Encrypt(plaintext: seq<Octet>, stale: seq<Octet>) returns (ciphertext: seq<Octet>)
      requires Lawful(cipher) && Passes(plaintext) && |stale| == |plaintext| - PassedLength(|plaintext|)
      modifies this
      ensures plaintext == [] ==> V() == old(V()) && ciphertext == []
      ensures plaintext != [] ==>
                (V(), ciphertext)
                == var e := Emitted(cipher, old(V()), Carried(plaintext)); (e.0, e.1 + stale)
      ensures |plaintext| <= CHUNK_SIZE_MASK ==> (V(), ciphertext) == Encrypted(cipher, old(V()), plaintext)
    {
      if |plaintext| == 0 {
        return plaintext;
      }
      ciphertext := [];
      if init == 0 {
        ciphertext := salt;
        nonce := 0;
        init := 1;
        seen := seen + {salt};
      }
      var chunk := ChunkEncrypt(plaintext[..PassedLength(|plaintext|)]);
      assert [] + chunk == chunk;
      ciphertext := ciphertext + chunk + stale;
      if |plaintext| <= CHUNK_SIZE_MASK {
        ShortPiece(plaintext, stale);
      }
      assert |plaintext| <= CHUNK_SIZE_MASK ==> salt + chunk + [] == salt + chunk && chunk + [] == chunk;
    }

    /** Opens the first chunk of the buffer and moves the rest down. */
    method ChunkDecrypt() returns (code: Code, m: seq<Octet>)
      requires Lawful(cipher)
      modifies this`nonce, this`chunk
      ensures match OpenChunk(cipher, salt, old(nonce), old(chunk))
              case Short => code == NeedMore && nonce == old(nonce) && chunk == old(chunk)
              case Broken(n) => code == Error && nonce == n && chunk == old(chunk)
              case Chunk(p, n, rest) => code == Ok && m == p && nonce == n && chunk == rest
    {
      m := [];
      var tlen := cipher.tagLen;
      if |chunk| <= 2 * tlen + CHUNK_SIZE_LEN {
        return NeedMore, m;
      }
      var lenBuf := cipher.open(salt, nonce, chunk[..CHUNK_SIZE_LEN + tlen]);
      if lenBuf.None? {
        return Error, m;
      }
      var mlen := Read16(lenBuf.value) % (CHUNK_SIZE_MASK + 1);
      if mlen == 0 {
        return Error, m;
      }
      var chunkLen := 2 * tlen + CHUNK_SIZE_LEN + mlen;
      if |chunk| < chunkLen {
        return NeedMore, m;
      }
      nonce := Next(cipher, nonce);
      var p := cipher.open(salt, nonce, chunk[CHUNK_SIZE_LEN + tlen..chunkLen]);
      if p.None? {
        return Error, m;
      }
      nonce := Next(cipher, nonce);
      chunk := chunk[chunkLen..];
      return Ok, p.value;
    }

    /** Opens the complete chunks in the buffer; the error of a broken one ends that. */
    method DecryptChunks() returns (code: Code, plaintext: seq<Octet>)
      requires Lawful(cipher)
      modifies this`nonce, this`chunk
      ensures var d := Drain(cipher, salt, old(nonce), old(chunk));
              && nonce == d.nonce && chunk == d.rest
              && code == (if d.broken then Error else Ok) && (!d.broken ==> plaintext == d.out)
    {
      hide OpenChunk, Lawful;
      plaintext := [];
      ghost var d := Drain(cipher, salt, nonce, chunk);
      while |chunk| > 0
        invariant d == Drain(cipher, salt, nonce, chunk).(out := plaintext + Drain(cipher, salt, nonce, chunk).out)
        decreases |chunk|
      {
        var c, m := ChunkDecrypt();
        if c == Error {
          return Error, [];
        } else if c == NeedMore {
          break;
        }
        plaintext := plaintext + m;
      }
      return Ok, plaintext;
    }

    /** A segment of the wire to plaintext; incomplete chunks stay in the buffer. */
    method Decrypt(ciphertext: seq<Octet>) returns (code: Code, plaintext: seq<Octet>)
      requires Lawful(cipher)
      modifies this
      ensures Fed(V(), code, plaintext) == Feed(cipher, old(V()), ciphertext)
    {
      hide Drain, Lawful;
      chunk := chunk + ciphertext;
      if init == 0 {
        if |chunk| <= cipher.saltLen {
          return NeedMore, [];
        }
        salt := chunk[..cipher.saltLen];
        nonce := 0;
        if salt in seen {
          return Error, [];
        }
        chunk := chunk[cipher.saltLen..];
        init := 1;
      }
      var drained;
      drained, plaintext := DecryptChunks();
      if drained == Error {
        return Error, [];
      }
      if chunk != [] && plaintext == [] {
        return NeedMore, [];
      }
      if init == 1 {
        if salt in seen {
          return Error, [];
        }
        seen := seen + {salt};
        init := 2;
      }
      return Ok, plaintext;
    }
  }
}
