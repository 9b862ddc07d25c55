/**
 Stream-cipher framing as a whole: however the plaintext is cut into pieces and the ciphertext into
 segments, the receiver gets the sender's plaintext byte for byte.
 */
module StreamRoundTrip {
  import opened Framing
  import opened Octets
  import opened Sequences
  import opened StreamFraming

  // ----- the sender

  /** All the bytes a sender gives for the pieces. */
  function SendAll(c: Cipher, s: Ctx, pieces: seq<seq<Byte>>): (Ctx, seq<Byte>)
    requires Lawful(c)
  {
    if pieces == [] then (s, [])
    else
      var n := |pieces| - 1;
      var before := SendAll(c, s, pieces[..n]);
      var last := Encrypted(c, before.0, pieces[n]);
      (last.0, before.1 + last.1)
  }

  /** The cutting of the plaintext does not matter: it is xored with one keystream, after the nonce. */
  lemma {:induction false} SenderWire(c: Cipher, s: Ctx, pieces: seq<seq<Byte>>)
    requires Lawful(c) && s.init == 0 && pieces != []
    ensures var r, plain := SendAll(c, s, pieces), Flatten(pieces);
            && r.1 == s.nonce + XorAt(c, s.nonce, 0, plain)
            && r.0.init != 0 && r.0.nonce == s.nonce && r.0.counter == |plain|
  {
    hide Lawful, XorAt;
    var n := |pieces| - 1;
    var before, m := Flatten(pieces[..n]), pieces[n];
    if n == 0 {
      assert pieces[..n] == [];
      assert [] + (s.nonce + XorAt(c, s.nonce, 0, m)) == s.nonce + XorAt(c, s.nonce, 0, m);
      assert [] + m == m;
    } else {
      SenderWire(c, s, pieces[..n]);
      XorConcat(c, s.nonce, 0, before, m);
      AppendAssoc(s.nonce, XorAt(c, s.nonce, 0, before), XorAt(c, s.nonce, |before|, m));
    }
  }

  // ----- segments do not matter

  /** Feeding one segment after another; an error ends the connection. */
  function FeedAll(c: Cipher, s: Ctx, segments: seq<seq<Byte>>): Received<Ctx, Byte>
    requires Lawful(c)
  {
    if segments == [] then Nothing(s)
    else
      var n := |segments| - 1;
      var before := FeedAll(c, s, segments[..n]);
      if !before.ok then before
      else
        Then(before, Feed(c, before.ctx, segments[n]))
  }

  /**
   Two calls of Decrypt do what one call with both segments does: they fail if and only if it does, and
   else give the same plaintext in total and end in the same context. The bytes are arbitrary.
   */
  lemma {:induction false} FeedSplit(c: Cipher, s: Ctx, a: seq<Byte>, b: seq<Byte>)
    requires Lawful(c)
    ensures var x, all := Feed(c, s, a), Feed(c, s, a + b);
            var y := Feed(c, x.ctx, b);
            && (x.code == Error ==> all.code == Error)
            && (x.code != Error ==> (all.code == Error <==> y.code == Error))
            && (all.code != Error ==> all.ctx == y.ctx && all.out == x.out + y.out)
  {
    hide XorAt, Lawful;
    var held := s.chunk + a;
    assert s.chunk + (a + b) == held + b;
    if s.init != 0 {
      FeedDataSplit(c, s, a, b);
    } else if |held| >= c.nonceLen {
      var n := c.nonceLen;
      assert (held + b)[..n] == held[..n] && (held + b)[n..] == held[n..] + b;
      FeedDataSplit(c, s.(chunk := held[..n], nonce := held[..n], counter := 0, init := 1), held[n..], b);
    }
  }

  lemma {:induction false} FeedDataSplit(c: Cipher, s: Ctx, a: seq<Byte>, b: seq<Byte>)
    requires Lawful(c) && s.init != 0
    ensures var x, all := FeedData(c, s, a), FeedData(c, s, a + b);
            var y := FeedData(c, x.ctx, b);
            && x.ctx.init != 0
            && (x.code == Error ==> all.code == Error)
            && (x.code != Error ==> (all.code == Error <==> y.code == Error))
            && (all.code != Error ==> all.ctx == y.ctx && all.out == x.out + y.out)
  {
    hide XorAt, Lawful;
    if a == [] {
      assert a + b == b;
    } else if b == [] {
      assert a + b == a;
    } else {
      XorConcat(c, s.nonce, s.counter, a, b);
    }
  }

  /** Any cutting of a stream into segments gives what the whole stream gives in one call. */
  lemma {:induction false} AnySegments(c: Cipher, s: Ctx, segments: seq<seq<Byte>>)
    requires Lawful(c) && segments != []
    ensures Agrees(FeedAll(c, s, segments), Feed(c, s, Flatten(segments)))
  {
    var n := |segments| - 1;
    hide Feed, Lawful;
    if n == 0 {
      assert Flatten(segments) == segments[0];
      assert FeedAll(c, s, segments[..n]) == Received(s, true, []);
    } else {
      AnySegments(c, s, segments[..n]);
      FeedSplit(c, s, Flatten(segments[..n]), segments[n]);
    }
  }

  // ----- the round trip

  function Ciphertext(c: Cipher, sender: Ctx, pieces: seq<seq<Byte>>): seq<Byte>
    requires Lawful(c)
  {
    SendAll(c, sender, pieces).1
  }

  /** A sender encrypts the pieces, and b, some prefix of the ciphertext, has reached a receiver. */
  ghost predicate Connected(c: Cipher, sender: Ctx, receiver: Ctx, pieces: seq<seq<Byte>>, b: seq<Byte>) {
    && Lawful(c) && |sender.nonce| == c.nonceLen && sender.init == 0 && pieces != []
    && receiver.init == 0 && receiver.chunk == [] && sender.nonce !in receiver.seen
    && b <= Ciphertext(c, sender, pieces)
  }

  /** The plaintext is that of the bytes beyond the nonce, and the counter counts them. */
  predicate Arrived(c: Cipher, pieces: seq<seq<Byte>>, len: nat, r: Received<Ctx, Byte>) {
    var n := if len <= c.nonceLen then 0 else len - c.nonceLen;
    && r.ok && n <= |Flatten(pieces)| && r.out == Flatten(pieces)[..n]
    && (len >= c.nonceLen ==> r.ctx.counter == n)
  }

  /**
   For any cutting of the plaintext into pieces, any prefix of the ciphertext and any cutting of that into
   segments, no call of Decrypt fails and the plaintext comes out byte for byte.
   */
  lemma {:induction false} RoundTrip(
    c: Cipher, sender: Ctx, receiver: Ctx, pieces: seq<seq<Byte>>, segments: seq<seq<Byte>>)
    requires segments != [] && Connected(c, sender, receiver, pieces, Flatten(segments))
    ensures Arrived(c, pieces, |Flatten(segments)|, FeedAll(c, receiver, segments))
  {
    AnySegments(c, receiver, segments);
    OneCall(c, sender, receiver, pieces, Flatten(segments));
    hide Lawful, Feed, FeedAll, Ciphertext;
  }

  /** The whole ciphertext gives the whole plaintext. */
  lemma {:induction false} WholeStream(c: Cipher, sender: Ctx, pieces: seq<seq<Byte>>, r: Received<Ctx, Byte>)
    requires Lawful(c) && |sender.nonce| == c.nonceLen && sender.init == 0 && pieces != []
    requires Arrived(c, pieces, |Ciphertext(c, sender, pieces)|, r)
    ensures r.out == Flatten(pieces)
  {
    hide Lawful;
    SenderWire(c, sender, pieces);
  }

  lemma {:induction false} OneCall(c: Cipher, sender: Ctx, receiver: Ctx, pieces: seq<seq<Byte>>, b: seq<Byte>)
    requires Connected(c, sender, receiver, pieces, b)
    ensures var f := Feed(c, receiver, b); Arrived(c, pieces, |b|, Received(f.ctx, f.code != Error, f.out))
  {
    hide Lawful, Key;
    var nonce, plain := sender.nonce, Flatten(pieces);
    var all := XorAt(c, nonce, 0, plain);
    SenderWire(c, sender, pieces);
    assert receiver.chunk + b == b;
    if |b| >= |nonce| {
      PrefixTail(b, nonce + all);
      var tail := (nonce + all)[|b|..];
      CutFront(b, tail, nonce, all);
      KeystreamCancels(c, nonce, plain, b[|nonce|..], tail);
    }
  }

  lemma {:induction false} KeystreamCancels(
    c: Cipher, nonce: seq<Byte>, plain: seq<Byte>, x: seq<Byte>, tail: seq<Byte>)
    requires Lawful(c) && x + tail == XorAt(c, nonce, 0, plain)
    ensures |x| <= |plain| && XorAt(c, nonce, 0, x) == plain[..|x|]
  {
    hide Lawful, Key;
    XorTwice(c, nonce, 0, plain);
    XorConcat(c, nonce, 0, x, tail);
  }
}
