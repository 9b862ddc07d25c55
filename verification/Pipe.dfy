/**
 The back-pressured pipe between two raw TCP connections: bytes read from one are written to the other,
 and reading stops while some of them are still unwritten.
 */
module Pipe {
  import opened Octets

  const TCP_OK: int := 0
  const TCP_ERR: int := -1

  /** wbuf of a connection with nothing to write */
  const NULL: int := -1

  // ----- one direction as a value

  /**
   One direction of a pipe: the buffer of the source, the pending part of it at the destination, and which
   of the two events is armed. received is all that was read from the source, sent all that the
   destination's socket has accepted.
   */
  datatype Direction = Direction(
    buf: seq<Octet>, rbufOff: nat, wbuf: int, wbufLen: nat, readArmed: bool, writeArmed: bool,
    received: seq<Octet>, sent: seq<Octet>)

  /** buf with data from offset i on. */
  function Overwrite(buf: seq<Octet>, i: nat, data: seq<Octet>): (r: seq<Octet>)
    requires i + |data| <= |buf|
    ensures |r| == |buf|
  {
    buf[..i] + data + buf[i + |data|..]
  }

  /** The source read data, and the destination's socket took the first `accepted` pending bytes (or failed). */
  function AfterRead(d: Direction, data: seq<Octet>, accepted: int): Direction
    requires data != [] && d.rbufOff + |data| <= |d.buf|
    requires TCP_ERR <= accepted <= d.rbufOff + |data|
    requires NULL <= d.wbuf && (if d.wbuf == NULL then 0 else d.wbuf) + d.rbufOff + |data| <= |d.buf|
  {
    var buf := Overwrite(d.buf, d.rbufOff, data);
    var off := d.rbufOff + |data|;
    var start := if d.wbuf == NULL then 0 else d.wbuf;
    var received := d.received + data;
    if accepted == TCP_ERR then
      d.(buf := buf, rbufOff := off, wbuf := start, wbufLen := off, received := received)
    else
      var sent := d.sent + buf[start..start + accepted];
      if off - accepted > 0 then
        Direction(buf, off, start + accepted, off - accepted, false, true, received, sent)
      else
        Direction(buf, 0, NULL, 0, true, false, received, sent)
  }

  /** The destination became writable, and its socket took `accepted` of the pending bytes (or failed). */
  function AfterWrite(d: Direction, accepted: int): Direction
    requires TCP_ERR <= accepted <= d.wbufLen
    requires d.wbufLen > 0 ==> 0 <= d.wbuf && d.wbuf + d.wbufLen <= |d.buf|
  {
    if d.wbufLen == 0 then d.(rbufOff := 0, wbuf := NULL, readArmed := true, writeArmed := false)
    else if accepted == TCP_ERR then d
    else
      d.(wbuf := d.wbuf + accepted, wbufLen := d.wbufLen - accepted, writeArmed := true,
         sent := d.sent + d.buf[d.wbuf..d.wbuf + accepted])
  }

  // ----- the invariant

  /**
   Exactly one of the events is armed. With the read armed nothing is pending; with the write armed, the
   pending bytes are the rest of the source's buffer. What was read is what was sent and what is pending.
   */
  predicate Consistent(d: Direction) {
    && d.readArmed != d.writeArmed
    && (d.readArmed ==> d.rbufOff == 0 && d.wbuf == NULL && d.wbufLen == 0 && d.received == d.sent)
    && (d.writeArmed ==>
          && 0 <= d.wbuf && d.wbuf + d.wbufLen == d.rbufOff <= |d.buf|
          && d.received == d.sent + d.buf[d.wbuf..d.rbufOff])
  }

  /** What was accepted has been sent, and the source is read again exactly if that was all. */
  lemma {:induction false} ReadKeeps(d: Direction, data: seq<Octet>, accepted: nat)
    requires Consistent(d) && d.readArmed && 0 < |data| <= |d.buf| && accepted <= |data|
    ensures var e := AfterRead(d, data, accepted);
            && Consistent(e) && e.received == d.received + data && e.sent == d.sent + data[..accepted]
            && (e.readArmed <==> accepted == |data|)
  {
    var buf := Overwrite(d.buf, 0, data);
    assert buf[..accepted] == data[..accepted] && buf[accepted..|data|] == data[accepted..];
    assert data[..accepted] + data[accepted..] == data;
    assert (d.sent + data[..accepted]) + data[accepted..] == d.sent + data;
    if accepted == |data| {
      assert data[..accepted] == data;
    }
  }

  /** The next of the pending bytes have been sent; the source is read again when there were none left. */
  lemma {:induction false} WriteKeeps(d: Direction, accepted: nat)
    requires Consistent(d) && d.writeArmed && accepted <= d.wbufLen
    ensures var e := AfterWrite(d, accepted);
            && Consistent(e) && e.received == d.received
            && e.sent == d.sent + d.buf[d.wbuf..d.wbuf + accepted]
            && (e.readArmed <==> d.wbufLen == 0)
  {
    var i, j, k := d.wbuf, d.wbuf + accepted, d.rbufOff;
    assert d.buf[i..k] == d.buf[i..j] + d.buf[j..k];
    assert (d.sent + d.buf[i..j]) + d.buf[j..k] == d.sent + d.buf[i..k];
    if d.wbufLen == 0 {
      assert d.sent + d.buf[i..k] == d.sent;
    }
  }

  /** Even if a write fails, what was read is what was sent and what the buffer still holds. */
  lemma {:induction false} FailedWriteKeepsBytes(d: Direction, data: seq<Octet>)
    requires Consistent(d) && d.readArmed && 0 < |data| <= |d.buf|
    ensures var e := AfterRead(d, data, TCP_ERR);
            e.wbuf + e.wbufLen <= |e.buf| && e.received == e.sent + e.buf[e.wbuf..e.wbuf + e.wbufLen]
  {
    assert Overwrite(d.buf, 0, data)[..|data|] == data;
  }

  // ----- runs of both directions at once

  /** What the event loop may deliver; forth tells which direction it concerns. */
  datatype Event = Readable(forth: bool, data: seq<Octet>, accepted: nat) | Writable(forth: bool, accepted: nat)

  /** Only armed events are delivered, reads fit the buffer, and sockets take no more than they are given. */
  predicate Enabled(d: Direction, e: Event) {
    match e
    case Readable(_, data, accepted) => d.readArmed && d.rbufOff + |data| <= |d.buf| && accepted <= |data|
    case Writable(_, accepted) => d.writeArmed && accepted <= d.wbufLen
  }

  function Step(d: Direction, e: Event): Direction
    requires Consistent(d) && Enabled(d, e)
  {
    match e
    case Readable(_, data, accepted) => if data == [] then d else AfterRead(d, data, accepted)
    case Writable(_, accepted) => AfterWrite(d, accepted)
  }

  /**
   The states of the two directions, after each event of a run. Step speaks of consistent states only;
   RunConserves shows that a run never meets another.
   */
  ghost predicate Run(ds: seq<(Direction, Direction)>, es: seq<Event>) {
    && |ds| == |es| + 1
    && forall k :: 0 <= k < |es| ==> RunStep(ds[k], es[k], ds[k + 1])
  }

  ghost predicate RunStep(x: (Direction, Direction), e: Event, y: (Direction, Direction)) {
    if e.forth then Consistent(x.0) ==> Enabled(x.0, e) && y == (Step(x.0, e), x.1)
    else Consistent(x.1) ==> Enabled(x.1, e) && y == (x.0, Step(x.1, e))
  }

  /** In every state of every run, in both directions: no byte is lost, doubled or reordered. */
  lemma {:induction false} RunConserves(ds: seq<(Direction, Direction)>, es: seq<Event>, k: nat)
    requires Run(ds, es) && k < |ds| && Consistent(ds[0].0) && Consistent(ds[0].1)
    ensures Consistent(ds[k].0) && Consistent(ds[k].1)
    ensures ds[k].0.sent <= ds[k].0.received && ds[k].1.sent <= ds[k].1.received
  {
    if k > 0 {
      RunConserves(ds, es, k - 1);
      var x, e, y := ds[k - 1], es[k - 1], ds[k];
      assert RunStep(x, e, y);
      StepKeeps(if e.forth then x.0 else x.1, e);
    }
  }

  lemma {:induction false} StepKeeps(d: Direction, e: Event)
    requires Consistent(d) && Enabled(d, e)
    ensures Consistent(Step(d, e))
  {
    match e
    case Readable(_, data, accepted) =>
      if data != [] {
        ReadKeeps(d, data, accepted);
      }
    case Writable(_, accepted) => WriteKeeps(d, accepted);
  }

  // ----- no stalling

  /** How many more times the destination has to become writable before the source is read again. */
  function Pending(d: Direction): nat {
    if d.readArmed then 0 else d.wbufLen + 1
  }

  /** The destination becomes writable again and again, each time taking up to so many bytes. */
  function Writes(d: Direction, takes: seq<nat>): Direction
    requires Consistent(d)
    decreases |takes|
  {
    if takes == [] || d.readArmed then d
    else
      var accepted := if takes[0] < d.wbufLen then takes[0] else d.wbufLen;
      WriteKeeps(d, accepted);
      Writes(AfterWrite(d, accepted), takes[1..])
  }

  /** If its socket takes at least a byte each time, all pending bytes get sent and the source is read again. */
  lemma {:induction false} NeverStalls(d: Direction, takes: seq<nat>)
    requires Consistent(d) && |takes| >= Pending(d)
    requires forall k :: 0 <= k < |takes| ==> takes[k] >= 1
    ensures Writes(d, takes).readArmed && Writes(d, takes).sent == d.received
    decreases |takes|
  {
    if !d.readArmed {
      var accepted := if takes[0] < d.wbufLen then takes[0] else d.wbufLen;
      WriteKeeps(d, accepted);
      NeverStalls(AfterWrite(d, accepted), takes[1..]);
    }
  }

  // ----- the connections

  /** What a read from a socket gives: bytes, nothing yet, or an error or the end of the stream. */
  datatype ReadResult = Bytes(data: seq<Octet>) | Nothing | Failed

  class TcpConn {
    const rbuf: array<Octet>
    var rbufOff: nat
    /** The offset in the peer's rbuf, or NULL. */
    var wbuf: int
    var wbufLen: nat
    var pipe: TcpConn?
    var isPipe: bool
    var readArmed: bool
    var writeArmed: bool
    ghost var received: seq<Octet>
    ghost var sent: seq<Octet>

    constructor (bufLen: nat)
      requires bufLen > 0
      ensures rbuf.Length == bufLen && rbufOff == 0 && wbuf == NULL && wbufLen == 0 && pipe == null && !isPipe
      ensures fresh(rbuf) && !readArmed && !writeArmed && received == sent == []
    {
      rbuf := new Octet[bufLen](_ => 0);
      rbufOff, wbuf, wbufLen := 0, NULL, 0;
      pipe, isPipe := null, false;
      readArmed, writeArmed := false, false;
      received, sent := [], [];
    }

    /** Reads from the socket into the buffer at offset i. */
    method Read(i: nat, result: ReadResult) returns (nread: int)
      requires result.Bytes? ==> i + |result.data| <= rbuf.Length
      modifies this`received, rbuf
      ensures match result
              case Bytes(data) => nread == |data| && rbuf[..] == Overwrite(old(rbuf[..]), i, data)
                                  && received == old(received) + data
              case Nothing => nread == 0 && rbuf[..] == old(rbuf[..]) && received == old(received)
              case Failed => nread == TCP_ERR && rbuf[..] == old(rbuf[..]) && received == old(received)
    {
      match result
      case Failed => nread := TCP_ERR;
      case Nothing => nread := 0;
      case Bytes(data) =>
        nread := 0;
        while nread < |data|
          invariant 0 <= nread <= |data|
          invariant rbuf[..] == Overwrite(old(rbuf[..]), i, data[..nread]) && received == old(received)
        {
          rbuf[i + nread] := data[nread];
          nread := nread + 1;
          assert data[..nread] == data[..nread - 1] + [data[nread - 1]];
        }
        assert data[..nread] == data;
        received := received + data;
    }
  }

  /** The direction from src to dst. */
  ghost function View(src: TcpConn, dst: TcpConn): Direction
    reads src, dst, src.rbuf
  {
    Direction(src.rbuf[..], src.rbufOff, dst.wbuf, dst.wbufLen, src.readArmed, dst.writeArmed,
              src.received, dst.sent)
  }

  /**
   Handles a readable source: reads once, writes once, and arms the write of dst or the read of src. The
   direction from dst to src, if it is another one, is not affected.
   */
  method TcpPipe(src: TcpConn, dst: TcpConn, input: ReadResult, accepted: int) returns (r: int)
    requires Consistent(View(src, dst)) && src.readArmed && (src != dst ==> src.rbuf != dst.rbuf)
    requires input.Bytes? ==> 0 < |input.data| <= src.rbuf.Length && TCP_ERR <= accepted <= |input.data|
    modifies src, src.rbuf, dst
    ensures dst.pipe == src && dst.isPipe
    ensures src != dst ==> View(dst, src) == old(View(dst, src)) && src.pipe == old(src.pipe)
    ensures match input
            case Bytes(data) => View(src, dst) == AfterRead(old(View(src, dst)), data, accepted)
                                && r == if accepted == TCP_ERR then TCP_ERR else |data|
            case Nothing => r == 0 && View(src, dst) == old(View(src, dst))
            case Failed => r == TCP_ERR && View(src, dst) == old(View(src, dst))
  {
    hide Overwrite;
    dst.pipe := src;
    dst.isPipe := true;
    var nread := src.Read(src.rbufOff, input);
    if nread <= 0 {
      return nread;
    }
    src.rbufOff := src.rbufOff + nread;
    if dst.wbuf == NULL {
      dst.wbuf := 0;
    }
    dst.wbufLen := src.rbufOff;
    var nwrite := accepted;
    if nwrite == TCP_ERR {
      return TCP_ERR;
    }
    dst.sent := dst.sent + src.rbuf[dst.wbuf..dst.wbuf + nwrite];
    dst.wbuf := dst.wbuf + nwrite;
    dst.wbufLen := dst.wbufLen - nwrite;
    if dst.wbufLen > 0 {
      dst.writeArmed := true;
      src.readArmed := false;
    } else {
      src.rbufOff := 0;
      dst.wbuf := NULL;
      dst.wbufLen := 0;
      dst.writeArmed := false;
      src.readArmed := true;
    }
    return nread;
  }

  /** Handles a writable destination of a pipe. */
  method TcpPipeWrite(c: TcpConn, src: TcpConn, accepted: int) returns (r: int)
    requires c.isPipe && c.pipe == src && Consistent(View(src, c)) && c.writeArmed
    requires TCP_ERR <= accepted <= c.wbufLen && (src != c ==> src.rbuf != c.rbuf)
    modifies c, src
    ensures c.pipe == src && c.isPipe && View(src, c) == AfterWrite(old(View(src, c)), accepted)
    ensures src != c ==> View(c, src) == old(View(c, src)) && src.pipe == old(src.pipe)
    ensures r == if old(c.wbufLen) == 0 then TCP_OK else accepted
  {
    if c.wbufLen == 0 {
      c.pipe.rbufOff := 0;
      c.wbuf := NULL;
      c.wbufLen := 0;
      c.pipe.readArmed := true;
      c.writeArmed := false;
      return TCP_OK;
    }
    var nwrite := accepted;
    if nwrite == TCP_ERR {
      return nwrite;
    }
    if nwrite > 0 {
      c.sent := c.sent + c.pipe.rbuf[c.wbuf..c.wbuf + nwrite];
      c.wbuf := c.wbuf + nwrite;
      c.wbufLen := c.wbufLen - nwrite;
    }
    c.writeArmed := true;
    return nwrite;
  }
}
