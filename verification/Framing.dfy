/** What the two kinds of framing have in common: the results of their calls. */
module Framing {
  datatype Code = Ok | NeedMore | Error

  /** One call on a context C of a receiver: its new state, and plaintext made of elements B. */
  datatype Fed<C, B> = Fed(ctx: C, code: Code, out: seq<B>)

  /** One call after another, up to the first error. */
  datatype Received<C, B> = Received(ctx: C, ok: bool, out: seq<B>)

  /** The same errors, plaintext and final context. */
  predicate Agrees<C(==), B(==)>(cut: Received<C, B>, all: Fed<C, B>) {
    && (cut.ok <==> all.code != Error)
    && (cut.ok ==> cut.ctx == all.ctx && cut.out == all.out)
  }

  /** Nothing received yet */
  function Nothing<C, B>(s: C): Received<C, B> {
    Received(s, true, [])
  }

  /** After one more call */
  function Then<C, B>(before: Received<C, B>, last: Fed<C, B>): Received<C, B> {
    Received(last.ctx, last.code != Error, before.out + last.out)
  }
}
