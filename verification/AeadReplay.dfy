/** What the filter of salts is for: a stream that has been decrypted, or sent, is refused when it comes again. */
module AeadReplay {
  import opened Framing
  import opened Octets
  import opened Sequences
  import opened AeadFraming
  import opened AeadRoundTrip

  // ----- the filter

  /** A context that has given plaintext has recorded its salt. */
  predicate Recorded(s: Ctx) {
    s.init >= 2 ==> s.salt in s.seen
  }

  /** The filter only grows, and it has the salt of every stream that has given plaintext. */
  lemma {:induction false} SaltRecorded(c: Cipher, s: Ctx, b: seq<Octet>)
    requires Lawful(c) && Recorded(s)
    ensures var f := Feed(c, s, b);
            && s.seen <= f.ctx.seen && Recorded(f.ctx)
            && (f.code == Ok ==> f.ctx.salt in f.ctx.seen)
            && (f.code != Ok ==> f.out == [] && f.ctx.seen == s.seen)
            && (s.init != 0 ==> f.ctx.salt == s.salt)
  {
    hide Drain, Lawful;
  }

  /** A new connection */
  predicate Fresh(s: Ctx) {
    s.init == 0 && s.chunk == []
  }

  /** The salt of a stream */
  function Salt(c: Cipher, b: seq<Octet>): seq<Octet>
    requires |b| >= c.saltLen
  {
    b[..c.saltLen]
  }

  /** A new connection refuses a stream with a salt in the filter, and gives nothing. */
  lemma {:induction false} SaltRefused(c: Cipher, s: Ctx, b: seq<Octet>)
    requires Lawful(c) && Fresh(s) && |b| > c.saltLen && Salt(c, b) in s.seen
    ensures Feed(c, s, b).code == Error && Feed(c, s, b).out == []
  {
    assert s.chunk + b == b;
    hide Drain, Lawful;
  }

  /** However the stream is cut into segments. */
  lemma {:induction false} CutSaltRefused(c: Cipher, s: Ctx, segments: seq<seq<Octet>>)
    requires Lawful(c) && Fresh(s) && |Flatten(segments)| > c.saltLen && Salt(c, Flatten(segments)) in s.seen
    ensures !FeedAll(c, s, segments).ok && FeedAll(c, s, segments).out == []
  {
    hide Feed, Lawful;
    var n := |segments| - 1;
    AnySegments(c, s, segments);
    SaltRefused(c, s, Flatten(segments));
    var before := Flatten(segments[..n]);
    if |before| > c.saltLen {
      assert Salt(c, Flatten(segments)) == Salt(c, before);
      CutSaltRefused(c, s, segments[..n]);
    } else {
      OnlySalt(c, s, segments[..n]);
      LastRefused(c, s, segments);
    }
  }

  /** As long as there is no more than a salt, nothing comes out. */
  lemma {:induction false} OnlySalt(c: Cipher, s: Ctx, segments: seq<seq<Octet>>)
    requires Lawful(c) && Fresh(s) && |Flatten(segments)| <= c.saltLen
    ensures var r := FeedAll(c, s, segments);
            r.ok && r.out == [] && r.ctx == s.(chunk := Flatten(segments))
  {
    hide Lawful;
    if segments != [] {
      OnlySalt(c, s, segments[..|segments| - 1]);
    }
  }

  lemma {:induction false} LastRefused(c: Cipher, s: Ctx, segments: seq<seq<Octet>>)
    requires Lawful(c) && Fresh(s) && segments != []
    requires |Flatten(segments)| > c.saltLen && Salt(c, Flatten(segments)) in s.seen
    requires var n := |segments| - 1;
             FeedAll(c, s, segments[..n]) == Received(s.(chunk := Flatten(segments[..n])), true, [])
    ensures FeedAll(c, s, segments).out == []
  {
    hide Lawful, Drain;
  }

  // ----- whole streams

  /** Two streams have the same salt, and some bytes after it. */
  predicate SameSalt(c: Cipher, a: seq<Octet>, b: seq<Octet>) {
    |a| > c.saltLen && |b| > c.saltLen && Salt(c, a) == Salt(c, b)
  }

  /**
   When a stream has given plaintext to one connection, every later one that shares the filter refuses a stream with
   its salt, from the first byte of plaintext on.
   */
  lemma {:induction false} ReplayRefused(
    c: Cipher, first: Ctx, segments: seq<seq<Octet>>, later: Ctx, again: seq<seq<Octet>>)
    requires Lawful(c) && Fresh(first) && Fresh(later)
    requires FeedAll(c, first, segments).ok && FeedAll(c, first, segments).out != []
    requires FeedAll(c, first, segments).ctx.seen <= later.seen
    requires SameSalt(c, Flatten(segments), Flatten(again))
    ensures !FeedAll(c, later, again).ok && FeedAll(c, later, again).out == []
  {
    AnySegments(c, first, segments);
    PlaintextRecords(c, first, Flatten(segments));
    CutSaltRefused(c, later, again);
  }

  lemma {:induction false} PlaintextRecords(c: Cipher, s: Ctx, b: seq<Octet>)
    requires Lawful(c) && Fresh(s) && Feed(c, s, b).out != [] && |b| > c.saltLen
    ensures Salt(c, b) in Feed(c, s, b).ctx.seen
  {
    SaltRecorded(c, s, b);
    assert s.chunk + b == b;
    hide Drain, Lawful;
  }

  /** What a sender has sent is refused as well, if it comes back. */
  lemma {:induction false} ReflectionRefused(
    c: Cipher, sender: Ctx, pieces: seq<seq<Octet>>, later: Ctx, again: seq<seq<Octet>>)
    requires Lawful(c) && sender.init == 0 && |sender.salt| == c.saltLen && Fresh(later)
    requires SendAll(c, sender, pieces).0.seen <= later.seen
    requires SameSalt(c, SendAll(c, sender, pieces).1, Flatten(again))
    ensures !FeedAll(c, later, again).ok && FeedAll(c, later, again).out == []
  {
    SentRecorded(c, sender, pieces);
    hide SendAll, Lawful;
    CutSaltRefused(c, later, again);
  }

  lemma {:induction false} SentRecorded(c: Cipher, s: Ctx, pieces: seq<seq<Octet>>)
    requires c.nonces > 0 && s.init == 0 && |s.salt| == c.saltLen
    ensures var r := SendAll(c, s, pieces);
            && r.0.salt == s.salt && s.seen <= r.0.seen
            && (r.0.init == 0 ==> r.1 == [])
            && (r.0.init != 0 ==> s.salt in r.0.seen && |r.1| >= c.saltLen && Salt(c, r.1) == s.salt)
  {
    if pieces != [] {
      SentRecorded(c, s, pieces[..|pieces| - 1]);
    }
  }
}
