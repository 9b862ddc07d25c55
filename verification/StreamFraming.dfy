/**
 Stream-cipher framing of a TCP stream for the block-counter ciphers (salsa20, chacha20, chacha20-ietf):
 the nonce, then the data xored with a keystream. Each call starts at a block boundary and pads with zeros
 up to its place in the stream.
 */
module StreamFraming {
  import opened Framing
  import opened Octets

  const SODIUM_BLOCK_SIZE: nat := 64

  datatype Method = Salsa20 | Chacha20 | Chacha20Ietf

  /** A cipher with the shared key: block gives the keystream block of a nonce with a number. */
  datatype Cipher = Cipher(cmethod: Method, nonceLen: nat, block: (seq<Byte>, nat) -> seq<Byte>, remote: bool)

  ghost predicate Lawful(c: Cipher) {
    forall n, i :: |c.block(n, i)| == SODIUM_BLOCK_SIZE
  }

  /** How many bytes the block counter of the cipher and the byte counter of a context are good for. */
  function Limit(c: Cipher): nat {
    if c.cmethod == Chacha20Ietf then 64 * TWO_TO_THE_32 else TWO_TO_THE_64 - 1
  }

  /** The library's xor from block ic on; chacha20-ietf takes a 32-bit block number. */
  function XorIc(c: Cipher, nonce: seq<Byte>, ic: nat, m: seq<Byte>): (r: seq<Byte>)
    requires Lawful(c)
    ensures |r| == |m|
  {
    var first := if c.cmethod == Chacha20Ietf then ic % TWO_TO_THE_32 else ic;
    seq(|m|, j requires 0 <= j < |m| => m[j] ^ c.block(nonce, first + j / SODIUM_BLOCK_SIZE)[j % SODIUM_BLOCK_SIZE])
  }

  // ----- one keystream

  /** Byte p of the keystream. */
  function Key(c: Cipher, nonce: seq<Byte>, p: nat): Byte
    requires Lawful(c)
  {
    c.block(nonce, p / SODIUM_BLOCK_SIZE)[p % SODIUM_BLOCK_SIZE]
  }

  /** m xored with the keystream from byte p on. */
  function XorAt(c: Cipher, nonce: seq<Byte>, p: nat, m: seq<Byte>): (r: seq<Byte>)
    requires Lawful(c)
    ensures |r| == |m|
  {
    seq(|m|, j requires 0 <= j < |m| => m[j] ^ Key(c, nonce, p + j))
  }

  lemma {:induction false} XorTwice(c: Cipher, nonce: seq<Byte>, p: nat, m: seq<Byte>)
    requires Lawful(c)
    ensures XorAt(c, nonce, p, XorAt(c, nonce, p, m)) == m
  {
    var r := XorAt(c, nonce, p, XorAt(c, nonce, p, m));
    forall j | 0 <= j < |m| ensures r[j] == m[j] {
      XorCancels(m[j], Key(c, nonce, p + j));
    }
  }

  lemma {:induction false} XorCancels(x: Byte, k: Byte)
    ensures (x ^ k) ^ k == x
  {
  }

  lemma {:induction false} XorConcat(c: Cipher, nonce: seq<Byte>, p: nat, a: seq<Byte>, b: seq<Byte>)
    requires Lawful(c)
    ensures XorAt(c, nonce, p, a + b) == XorAt(c, nonce, p, a) + XorAt(c, nonce, p + |a|, b)
  {
    hide Key, Lawful;
    var l, r := XorAt(c, nonce, p, a + b), XorAt(c, nonce, p, a) + XorAt(c, nonce, p + |a|, b);
    forall j | 0 <= j < |a + b| ensures l[j] == r[j] {
      if j >= |a| {
        assert (p + |a|) + (j - |a|) == p + j;
      }
    }
  }

  function Zeros(n: nat): (z: seq<Byte>)
    ensures |z| == n
  {
    seq(n, _ => 0)
  }

  /** Padding up to the place in the block and starting at that block xors with the one keystream. */
  lemma {:induction false} PaddingTrick(c: Cipher, nonce: seq<Byte>, p: nat, m: seq<Byte>)
    requires Lawful(c) && p + |m| <= Limit(c)
    ensures var padding := p % SODIUM_BLOCK_SIZE;
            XorIc(c, nonce, p / SODIUM_BLOCK_SIZE, Zeros(padding) + m)[padding..] == XorAt(c, nonce, p, m)
  {
    hide XorIc, XorAt, Lawful;
    var padding := p % SODIUM_BLOCK_SIZE;
    var padded := Zeros(padding) + m;
    var r, q := XorIc(c, nonce, p / SODIUM_BLOCK_SIZE, padded), XorAt(c, nonce, p, m);
    forall j | 0 <= j < |m| ensures r[padding..][j] == q[j] {
      assert padded[padding + j] == m[j];
      FirstBlock(c, p, |m|);
      XorIcByte(c, nonce, p / SODIUM_BLOCK_SIZE, padded, padding + j);
      SameBlock(p, j);
      XorAtByte(c, nonce, p, m, j);
    }
  }

  lemma {:induction false} XorIcByte(c: Cipher, nonce: seq<Byte>, ic: nat, m: seq<Byte>, k: nat)
    requires Lawful(c) && k < |m| && (c.cmethod == Chacha20Ietf ==> ic < TWO_TO_THE_32)
    ensures XorIc(c, nonce, ic, m)[k]
            == m[k] ^ c.block(nonce, ic + k / SODIUM_BLOCK_SIZE)[k % SODIUM_BLOCK_SIZE]
  {
  }

  lemma {:induction false} XorAtByte(c: Cipher, nonce: seq<Byte>, p: nat, m: seq<Byte>, j: nat)
    requires Lawful(c) && j < |m|
    ensures XorAt(c, nonce, p, m)[j]
            == m[j] ^ c.block(nonce, (p + j) / SODIUM_BLOCK_SIZE)[(p + j) % SODIUM_BLOCK_SIZE]
  {
    assert XorAt(c, nonce, p, m)[j] == m[j] ^ Key(c, nonce, p + j);
  }

  lemma {:induction false} FirstBlock(c: Cipher, p: nat, n: nat)
    requires p + n <= Limit(c) && n > 0
    ensures c.cmethod == Chacha20Ietf ==> p / SODIUM_BLOCK_SIZE < TWO_TO_THE_32
  {
  }

  lemma {:induction false} SameBlock(p: nat, j: nat)
    ensures var padding, ic := p % SODIUM_BLOCK_SIZE, p / SODIUM_BLOCK_SIZE;
            && (p + j) / SODIUM_BLOCK_SIZE == ic + (padding + j) / SODIUM_BLOCK_SIZE
            && (p + j) % SODIUM_BLOCK_SIZE == (padding + j) % SODIUM_BLOCK_SIZE
  {
    assert p == 64 * (p / 64) + p % 64;
    assert p + j == 64 * (p / 64 + (p % 64 + j) / 64) + (p % 64 + j) % 64;
  }

  // ----- the calls as functions

  datatype Ctx = Ctx(init: nat, nonce: seq<Byte>, counter: nat, chunk: seq<Byte>, seen: set<seq<Byte>>)

  /** What one call of Encrypt does to a context, and the bytes it gives. */
  function Encrypted(c: Cipher, s: Ctx, m: seq<Byte>): (Ctx, seq<Byte>)
    requires Lawful(c)
  {
    if s.init == 0 then
      (s.(init := 1, counter := |m|, seen := if c.remote then s.seen + {s.nonce} else s.seen),
       s.nonce + XorAt(c, s.nonce, 0, m))
    else
      (s.(counter := s.counter + |m|), XorAt(c, s.nonce, s.counter, m))
  }

  /** What one call of Decrypt does to a context, and the plaintext it gives. */
  function Feed(c: Cipher, s: Ctx, b: seq<Byte>): Fed<Ctx, Byte>
    requires Lawful(c)
  {
    if s.init != 0 then FeedData(c, s, b)
    else
      var held := s.chunk + b;
      if |held| < c.nonceLen then Fed(s.(chunk := held), NeedMore, [])
      else
        var t := s.(chunk := held[..c.nonceLen], nonce := held[..c.nonceLen], counter := 0, init := 1);
        if t.nonce in t.seen then Fed(t, Error, [])
        else FeedData(c, t, held[c.nonceLen..])
  }

  function FeedData(c: Cipher, s: Ctx, b: seq<Byte>): Fed<Ctx, Byte>
    requires Lawful(c)
  {
    if b == [] then Fed(s, NeedMore, [])
    else
      var t := s.(counter := s.counter + |b|);
      if s.init == 1 && s.nonce in s.seen then Fed(t, Error, [])
      else
        var u := if s.init == 1 then t.(init := 2, seen := s.seen + {s.nonce}) else t;
        Fed(u, Ok, XorAt(c, s.nonce, s.counter, b))
  }

  /** No context collects more than a nonce. */
  predicate Collecting(c: Cipher, s: Ctx) {
    s.init == 0 ==> |s.chunk| <= c.nonceLen
  }

  /** The counters do not run out. */
  predicate Room(c: Cipher, s: Ctx, b: seq<Byte>) {
    (if s.init == 0 then |s.chunk| + |b| - c.nonceLen else s.counter + |b|) <= Limit(c)
  }

  // ----- the cipher context

  class CipherCtx {
    const cipher: Cipher
    var init: nat
    var nonce: seq<Byte>
    var counter: nat
    var chunk: seq<Byte>
    var seen: set<seq<Byte>>

    ghost function V(): Ctx reads this {
      Ctx(init, nonce, counter, chunk, seen)
    }

    /** Moves the data to its place in a block, applies the cipher from that block on, and moves it back. */
    method Update(m: seq<Byte>) returns (r: seq<Byte>)
      requires Lawful(cipher) && counter + |m| <= Limit(cipher)
      modifies this`counter
      ensures r == XorAt(cipher, nonce, old(counter), m) && counter == old(counter) + |m|
    {
      var padding := counter % SODIUM_BLOCK_SIZE;
      var data := m;
      if padding != 0 {
        data := Zeros(padding) + m;
      } else {
        assert Zeros(padding) + m == m;
      }
      r := XorIc(cipher, nonce, counter / SODIUM_BLOCK_SIZE, data);
      PaddingTrick(cipher, nonce, counter, m);
      counter := counter + |m|;
      if padding != 0 {
        r := r[padding..];
      }
    }

    /** Plaintext to bytes for the wire; the first call sends the nonce too. */
    method Encrypt(plaintext: seq<Byte>) returns (ciphertext: seq<Byte>)
      requires Lawful(cipher)
      requires (if init == 0 then 0 else counter) + |plaintext| <= Limit(cipher)
      modifies this
      ensures (V(), ciphertext) == Encrypted(cipher, old(V()), plaintext)
    {
      var head := [];
      if init == 0 {
        head := nonce;
        counter := 0;
        init := 1;
        if cipher.remote {
          seen := seen + {nonce};
        }
      }
      var data := Update(plaintext);
      assert [] + data == data;
      ciphertext := head + data;
    }

    /** A segment of the wire to plaintext; the nonce may itself arrive in parts. */
    method Decrypt(ciphertext: seq<Byte>) returns (code: Code, plaintext: seq<Byte>)
      requires Lawful(cipher) && Collecting(cipher, V()) && Room(cipher, V(), ciphertext)
      modifies this
      ensures Fed(V(), code, plaintext) == Feed(cipher, old(V()), ciphertext)
      ensures Collecting(cipher, V())
    {
      var data := ciphertext;
      if init == 0 {
        ghost var held := chunk + ciphertext;
        var leftLen := if cipher.nonceLen - |chunk| < |data| then cipher.nonceLen - |chunk| else |data|;
        if leftLen > 0 {
          chunk := chunk + data[..leftLen];
          data := data[leftLen..];
        }
        if |chunk| < cipher.nonceLen {
          assert chunk == held;
          return NeedMore, [];
        }
        assert chunk == held[..cipher.nonceLen] && data == held[cipher.nonceLen..];
        nonce := chunk;
        counter := 0;
        init := 1;
        if nonce in seen {
          return Error, [];
        }
      }
      if |data| <= 0 {
        return NeedMore, [];
      }
      var r := Update(data);
      if init == 1 {
        if nonce in seen {
          return Error, [];
        }
        seen := seen + {nonce};
        init := 2;
      }
      return Ok, r;
    }
  }
}
