/** What the filter of nonces is for: a stream that has been decrypted is refused when it comes again. */
module StreamReplay {
  import opened Framing
  import opened Octets
  import opened Sequences
  import opened StreamFraming
  import opened StreamRoundTrip

  /** A context that has given plaintext has recorded its nonce. */
  predicate Recorded(s: Ctx) {
    s.init >= 2 ==> s.nonce in s.seen
  }

  /** The filter only grows, and it has the nonce of every stream that has given plaintext. */
  lemma {:induction false} NonceRecorded(c: Cipher, s: Ctx, b: seq<Byte>)
    requires Lawful(c) && Recorded(s)
    ensures var f := Feed(c, s, b);
            && s.seen <= f.ctx.seen && Recorded(f.ctx)
            && (f.code == Ok ==> f.ctx.nonce in f.ctx.seen)
            && (f.code != Ok ==> f.out == [] && f.ctx.seen == s.seen)
            && (s.init != 0 ==> f.ctx.nonce == s.nonce)
  {
    hide XorAt, Lawful;
  }

  /** A new connection */
  predicate Fresh(s: Ctx) {
    s.init == 0 && s.chunk == []
  }

  /** The nonce of a stream */
  function NonceOf(c: Cipher, b: seq<Byte>): seq<Byte>
    requires |b| >= c.nonceLen
  {
    b[..c.nonceLen]
  }

  /** A new connection refuses a stream with a nonce in the filter, and gives nothing. */
  lemma {:induction false} NonceRefused(c: Cipher, s: Ctx, b: seq<Byte>)
    requires Lawful(c) && Fresh(s) && |b| >= c.nonceLen && NonceOf(c, b) in s.seen
    ensures Feed(c, s, b).code == Error && Feed(c, s, b).out == []
  {
    assert s.chunk + b == b;
    hide XorAt, Lawful;
  }

  /** However the stream is cut into segments. */
  lemma {:induction false} CutNonceRefused(c: Cipher, s: Ctx, segments: seq<seq<Byte>>)
    requires Lawful(c) && Fresh(s) && segments != []
    requires |Flatten(segments)| >= c.nonceLen && NonceOf(c, Flatten(segments)) in s.seen
    ensures !FeedAll(c, s, segments).ok && FeedAll(c, s, segments).out == []
  {
    hide Feed, Lawful;
    var n := |segments| - 1;
    AnySegments(c, s, segments);
    NonceRefused(c, s, Flatten(segments));
    var before := Flatten(segments[..n]);
    if |before| >= c.nonceLen && n > 0 {
      assert NonceOf(c, Flatten(segments)) == NonceOf(c, before);
      CutNonceRefused(c, s, segments[..n]);
    } else {
      if n > 0 {
        OnlyNonce(c, s, segments[..n]);
      }
      LastRefused(c, s, segments);
    }
  }

  /** As long as the nonce is not complete, nothing comes out. */
  lemma {:induction false} OnlyNonce(c: Cipher, s: Ctx, segments: seq<seq<Byte>>)
    requires Lawful(c) && Fresh(s) && |Flatten(segments)| < c.nonceLen
    ensures var r := FeedAll(c, s, segments);
            r.ok && r.out == [] && r.ctx == s.(chunk := Flatten(segments))
  {
    hide Lawful;
    if segments != [] {
      OnlyNonce(c, s, segments[..|segments| - 1]);
    }
  }

  lemma {:induction false} LastRefused(c: Cipher, s: Ctx, segments: seq<seq<Byte>>)
    requires Lawful(c) && Fresh(s) && segments != []
    requires |Flatten(segments)| >= c.nonceLen && NonceOf(c, Flatten(segments)) in s.seen
    requires var n := |segments| - 1;
             FeedAll(c, s, segments[..n]) == Received(s.(chunk := Flatten(segments[..n])), true, [])
    ensures FeedAll(c, s, segments).out == []
  {
    hide Lawful, XorAt;
  }

  /** Two streams have the same nonce. */
  predicate SameNonce(c: Cipher, a: seq<Byte>, b: seq<Byte>) {
    |a| >= c.nonceLen && |b| >= c.nonceLen && NonceOf(c, a) == NonceOf(c, b)
  }

  /**
   When a stream has given plaintext to one connection, every later one that shares the filter refuses a stream with
   its nonce, as soon as that is complete.
   */
  lemma {:induction false} ReplayRefused(
    c: Cipher, first: Ctx, segments: seq<seq<Byte>>, later: Ctx, again: seq<seq<Byte>>)
    requires Lawful(c) && Fresh(first) && Fresh(later) && again != []
    requires FeedAll(c, first, segments).ok && FeedAll(c, first, segments).out != []
    requires FeedAll(c, first, segments).ctx.seen <= later.seen
    requires SameNonce(c, Flatten(segments), Flatten(again))
    ensures !FeedAll(c, later, again).ok && FeedAll(c, later, again).out == []
  {
    AnySegments(c, first, segments);
    PlaintextRecords(c, first, Flatten(segments));
    CutNonceRefused(c, later, again);
  }

  lemma {:induction false} PlaintextRecords(c: Cipher, s: Ctx, b: seq<Byte>)
    requires Lawful(c) && Fresh(s) && Feed(c, s, b).out != [] && |b| >= c.nonceLen
    ensures NonceOf(c, b) in Feed(c, s, b).ctx.seen
  {
    NonceRecorded(c, s, b);
    assert s.chunk + b == b;
    hide XorAt, Lawful;
  }

  /** In a remote server, what has been sent is refused as well, if it comes back. */
  lemma {:induction false} ReflectionRefused(
    c: Cipher, sender: Ctx, pieces: seq<seq<Byte>>, later: Ctx, again: seq<seq<Byte>>)
    requires Lawful(c) && c.remote && sender.init == 0 && |sender.nonce| == c.nonceLen && Fresh(later)
    requires pieces != [] && again != [] && SendAll(c, sender, pieces).0.seen <= later.seen
    requires SameNonce(c, SendAll(c, sender, pieces).1, Flatten(again))
    ensures !FeedAll(c, later, again).ok && FeedAll(c, later, again).out == []
  {
    SentRecorded(c, sender, pieces);
    hide SendAll, Lawful;
    CutNonceRefused(c, later, again);
  }

  lemma {:induction false} SentRecorded(c: Cipher, s: Ctx, pieces: seq<seq<Byte>>)
    requires Lawful(c) && c.remote && s.init == 0 && |s.nonce| == c.nonceLen && pieces != []
    ensures var r := SendAll(c, s, pieces);
            r.0.init != 0 && s.nonce in r.0.seen && |r.1| >= c.nonceLen && NonceOf(c, r.1) == s.nonce
  {
    hide Lawful, XorAt;
    var n := |pieces| - 1;
    if n > 0 {
      SentRecorded(c, s, pieces[..n]);
    } else {
      assert SendAll(c, s, pieces[..n]) == (s, []);
    }
  }
}
