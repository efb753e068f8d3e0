/** The framing loops as they run on sockets: `_recv` and `_send` of the server, on a
    User's buffers, and the same loops of the bot (bot/Client.cpp). */
module Sockets {
  import opened Text
  import opened Messages
  import opened Framing
  import opened Entities

  /** The reading end of a connection: what is still to come, and how the kernel acts. */
  class Stream {
    var pending: string
    var script: seq<Kernel>

    constructor (pending: string, script: seq<Kernel>)
      ensures this.pending == pending && this.script == script
    {
      this.pending, this.script := pending, script;
    }

    method Recv(n: nat, peek: bool) returns (bytes: int, again: bool, data: string)
      modifies this
      ensures Got(bytes, again, data, pending, script) == RecvCall(old(pending), old(script), n, peek)
    {
      var g := RecvCall(pending, script, n, peek);
      bytes, again, data := g.bytes, g.again, g.data;
      pending, script := g.pending, g.script;
    }
  }

  /** The writing end: what has been put on the wire. */
  class Sink {
    var wire: string
    var script: seq<Kernel>

    constructor (script: seq<Kernel>)
      ensures wire == "" && this.script == script
    {
      wire, this.script := "", script;
    }

    /** send(): the number of bytes taken from data, or -1 with errno EAGAIN or another. */
    method Send(data: string) returns (bytes: int, again: bool)
      requires data != ""
      modifies this
      ensures bytes > 0 ==> bytes <= |data| && wire == old(wire) + data[..bytes] && |script| < |old(script)|
      ensures bytes <= 0 ==> bytes == -1 && wire == old(wire)
      ensures old(script) == [] ==> bytes < 0 && again && script == []
      ensures old(script) != [] ==> script == old(script)[1..]
      ensures old(script) != [] && old(script)[0].Bytes? ==> bytes == Clamp(old(script)[0].n, |data|)
      ensures old(script) != [] && !old(script)[0].Bytes? ==> bytes < 0 && (again <==> old(script)[0].Block?)
    {
      bytes, again := -1, script == [] || script[0].Block?;
      if script != [] {
        if script[0].Bytes? {
          bytes := Clamp(script[0].n, |data|);
          wire := wire + data[..bytes];
        }
        script := script[1..];
      }
    }
  }

  /** d is how the inner loop ends from here. */
  predicate DrainsTo(taken: string, left: nat, conn: Stream, d: Rx)
    reads conn
  {
    Drain(taken, left, conn.pending, conn.script) == d
  }

  /** One round of the inner loop. */
  method ConsumeSome(conn: Stream, buf: string, left: nat, ghost d: Rx)
    returns (bytes: int, again: bool, taken: string, bytesLeft: nat)
    requires left > 0 && DrainsTo(buf, left, conn, d)
    modifies conn
    ensures |conn.script| <= |old(conn.script)| && |taken| + bytesLeft <= |buf| + left
    ensures bytes > 0 ==> bytesLeft < left && DrainsTo(taken, bytesLeft, conn, d)
    ensures bytes <= 0 ==> d == Rx(if bytes < 0 && again then WouldBlock else Lost, taken, "", conn.pending, conn.script)
  {
    var data;
    bytes, again, data := conn.Recv(left, false);
    taken, bytesLeft := buf, left;
    if bytes > 0 {
      taken, bytesLeft := buf + CStr(data), left - bytes;
    }
  }

  /** The inner loop of `_recv`: consumes wanted bytes. */
  method Consume(conn: Stream, buf: string, wanted: nat) returns (end: End, taken: string)
    modifies conn
    ensures Rx(end, taken, "", conn.pending, conn.script) == Drain(buf, wanted, old(conn.pending), old(conn.script))
    ensures |conn.script| <= |old(conn.script)| && |taken| <= |buf| + wanted
  {
    taken := buf;
    var bytesLeft := wanted;
    ghost var d := Drain(buf, wanted, conn.pending, conn.script);
    while bytesLeft > 0
      invariant |taken| + bytesLeft <= |buf| + wanted && |conn.script| <= |old(conn.script)|
      invariant DrainsTo(taken, bytesLeft, conn, d)
    {
      var bytes, again;
      bytes, again, taken, bytesLeft := ConsumeSome(conn, taken, bytesLeft, d);
      if bytes <= 0 {
        return if bytes < 0 && again then WouldBlock else Lost, taken;
      }
    }
    end := Returned(false);
  }

  /** r is how the outer loop ends from here. */
  predicate ReceivesTo(held: string, buf: string, conn: Stream, r: Rx)
    reads conn
  {
    Receive(held, buf, conn.pending, conn.script) == r
  }

  /** One round of the outer loop: a peek, and what it shows consumed. */
  method ReceiveSome(held: string, buf: string, conn: Stream, ghost r: Rx) returns (end: End, taken: string, left: string)
    requires |held| + |buf| < BUFFER && Find(buf) < 0 && ReceivesTo(held, buf, conn, r)
    modifies conn
    ensures |held| + |taken| < BUFFER
    ensures end.Returned? ==> left == held && |conn.script| < |old(conn.script)| && ReceivesTo(held, taken, conn, r)
    ensures !end.Returned? ==> r == Rx(end, taken, left, conn.pending, conn.script)
  {
    taken, left := buf, held;
    var bytes, again, data := conn.Recv(BUFFER - 1 - (|held| + |buf|), true);
    if bytes < 0 && again {
      return WouldBlock, buf, held + buf;
    }
    if bytes <= 0 {
      return if |held| + |buf| == BUFFER - 1 then TooLong else Lost, buf, held;
    }
    var f := Find(CStr(data));
    var bytesLeft := if f == -1 then bytes else f + |CRLF|;
    end, taken := Consume(conn, buf, bytesLeft);
    if end == WouldBlock {
      left := held + taken;
    } else if !end.Returned? {
      end := Lost;
    }
  }

  /** The loops of `_recv`, on the bytes held from earlier calls. */
  method ReceiveLine(held: string, conn: Stream) returns (end: End, buf: string, left: string)
    requires |held| < BUFFER
    modifies conn
    ensures Rx(end, buf, left, conn.pending, conn.script) == Receive(held, "", old(conn.pending), old(conn.script))
  {
    buf, left := "", held;
    ghost var r := Receive(held, buf, conn.pending, conn.script);
    while Find(buf) < 0 && |held| + |buf| < BUFFER
      invariant |held| + |buf| < BUFFER && left == held && ReceivesTo(held, buf, conn, r)
      decreases |conn.script|
    {
      end, buf, left := ReceiveSome(held, buf, conn, r);
      if !end.Returned? {
        return;
      }
    }
    end := Returned(Find(buf) >= 0);
    buf := held + buf;
    buf := buf[..Cut(|buf|)];
    left := "";
  }

  /** `_recv` of the server: the bytes held are the user's buffer. */
  method ReceiveFrom(user: User, conn: Stream) returns (end: End, buf: string)
    requires |user.buffer| < BUFFER
    modifies user`buffer, conn
    ensures Rx(end, buf, user.buffer, conn.pending, conn.script)
         == Receive(old(user.buffer), "", old(conn.pending), old(conn.script))
  {
    var left;
    end, buf, left := ReceiveLine(user.buffer, conn);
    user.buffer := left;
  }

  /** The loop of `_send`. */
  method SendFramed(framed: string, sink: Sink) returns (end: SendEnd)
    modifies sink
    ensures Tx(end, sink.wire, sink.script) == SendFrom(framed, 0, old(sink.wire), old(sink.script))
  {
    var total := 0;
    while total < |framed|
      invariant total <= |framed|
      invariant SendFrom(framed, total, sink.wire, sink.script) == SendFrom(framed, 0, old(sink.wire), old(sink.script))
      decreases |framed| - total
    {
      var bytes, again := sink.Send(framed[total..]);
      if bytes < 0 {
        return if again then Stored(CStr(framed[total..])) else Broken;
      }
      assert framed[total..][..bytes] == framed[total..total + bytes];
      total := total + bytes;
    }
    end := Sent;
  }

  /** `_send` to a user: on EAGAIN the rest goes into the user's send buffer. */
  method SendTo(user: User, buf: string, sink: Sink) returns (ok: bool)
    modifies user`sendBuffer, sink
    ensures var x := SendFrom(Frame(buf), 0, old(sink.wire), old(sink.script));
            && sink.wire == x.wire && sink.script == x.script
            && (ok <==> x.end.Sent?)
            && user.sendBuffer == if x.end.Stored? then x.end.rest else old(user.sendBuffer)
  {
    var end := SendFramed(Frame(buf), sink);
    match end
    case Sent => ok := true;
    case Stored(rest) =>
      user.sendBuffer := rest;
      ok := false;
    case Broken => ok := false;
  }

  /** The bot: the same loop on its own buffer, then the parser. */
  class Client {
    const nick: string := "bot"
    var recvBuffer: string

    constructor ()
      ensures recvBuffer == ""
    {
      recvBuffer := "";
    }

    /** One round of run(): a line, and its message when it has one. */
    method Read(conn: Stream) returns (end: End, buf: string, m: Option<Msg>)
      requires |recvBuffer| < BUFFER
      modifies this, conn
      ensures Rx(end, buf, recvBuffer, conn.pending, conn.script)
           == Receive(old(recvBuffer), "", old(conn.pending), old(conn.script))
      ensures m == if end.Returned? && Parsable(buf) then Some(Parse(buf, nick)) else None
    {
      end, buf, recvBuffer := ReceiveLine(recvBuffer, conn);
      m := None;
      if end.Returned? && Parsable(buf) {
        var msg := new Message(buf, nick);
        m := Some(Msg(msg.prefix, msg.command, msg.parameters));
      }
    }
  }
}
