/** Line framing: the peek-then-consume loop of `_recv` and the loop of `_send`, as
    functions of a kernel script that decides how many bytes every call handles. */
module Framing {
  import opened Text
  import opened Messages

  const CRLF := "\r\n"
  const BUFFER := 512                    // sizeof(c_buf)
  const NPOS := 0xFFFF_FFFF_FFFF_FFFF    // std::string::npos

  /** What the kernel does on one call. */
  datatype Kernel = Bytes(n: nat) | Block | Fail | Hangup

  /** Index of the first CR LF, or -1. */
  function Find(s: string): (f: int)
    ensures -1 <= f && (f >= 0 ==> f + |CRLF| <= |s|)
  {
    if |s| < 2 then -1
    else if s[0] == '\r' && s[1] == '\n' then 0
    else
      var f := Find(s[1..]);
      if f < 0 then -1 else f + 1
  }

  predicate At(s: string, i: int) {
    0 <= i < |s| - 1 && s[i] == '\r' && s[i + 1] == '\n'
  }

  lemma {:induction false} FindIsFirst(s: string)
    ensures Find(s) < 0 ==> forall i :: !At(s, i)
    ensures Find(s) >= 0 ==> At(s, Find(s)) && forall i :: i < Find(s) ==> !At(s, i)
  {
    if |s| >= 2 && !At(s, 0) {
      FindIsFirst(s[1..]);
      forall i ensures At(s, i) <==> i > 0 && At(s[1..], i - 1) {}
    }
  }

  lemma FindIs(s: string, f: int)
    requires At(s, f) && forall i :: i < f ==> !At(s, i)
    ensures Find(s) == f
  {
    FindIsFirst(s);
  }

  /** What a C string function sees of a byte buffer. */
  function CStr(s: string): string {
    s[..IndexOf(s, NUL)]
  }

  lemma CStrWhole(s: string)
    requires NUL !in s
    ensures CStr(s) == s
  {
    IndexOfIs(s, NUL, |s|);
  }

  function Clamp(n: nat, hi: nat): (k: nat)
    requires hi >= 1
    ensures 1 <= k <= hi
  {
    if n < 1 then 1 else if n > hi then hi else n
  }

  // ---- recv -------------------------------------------------------------------

  /** Result of one recv call; bytes is its return value. */
  datatype Got = Got(bytes: int, again: bool, data: string, pending: string, script: seq<Kernel>)

  function Min(a: nat, b: nat): nat {
    if a < b then a else b
  }

  /** recv(fd, buf, n, peek ? MSG_PEEK : 0); a zero-length recv returns 0. */
  function RecvCall(pending: string, script: seq<Kernel>, n: nat, peek: bool): (g: Got)
    ensures g.bytes > 0 ==>
              && g.bytes <= Min(n, |pending|) && g.data == pending[..g.bytes]
              && g.pending == (if peek then pending else pending[g.bytes..])
    ensures g.bytes <= 0 ==> g.pending == pending
    ensures |g.script| <= |script| && (g.bytes > 0 ==> |g.script| < |script|)
  {
    if n == 0 then Got(0, false, "", pending, script)
    else if script == [] then Got(-1, true, "", pending, [])
    else
      match script[0]
      case Block => Got(-1, true, "", pending, script[1..])
      case Fail => Got(-1, false, "", pending, script[1..])
      case Hangup => Got(0, false, "", pending, script[1..])
      case Bytes(m) =>
        if pending == "" then Got(-1, true, "", pending, script[1..])
        else
          var k := Clamp(m, Min(n, |pending|));
          Got(k, false, pending[..k], if peek then pending else pending[k..], script[1..])
  }

  /** How `_recv` ends: a return value, EAGAIN, or the exception and what caused it. */
  datatype End = Returned(found: bool) | WouldBlock | TooLong | Lost

  /** State after `_recv`: buf is the out-parameter, held the user's leftover buffer. */
  datatype Rx = Rx(end: End, buf: string, held: string, pending: string, script: seq<Kernel>)

  /** The inner loop: consume left bytes into buf. Its end is Returned when it got all. */
  function Drain(buf: string, left: nat, pending: string, script: seq<Kernel>): (d: Rx)
    ensures |d.script| <= |script|
    decreases left
  {
    if left == 0 then Rx(Returned(false), buf, "", pending, script)
    else
      var g := RecvCall(pending, script, left, false);
      if g.bytes > 0 then Drain(buf + CStr(g.data), left - g.bytes, g.pending, g.script)
      else Rx(if g.bytes < 0 && g.again then WouldBlock else Lost, buf, "", g.pending, g.script)
  }

  /** Bytes the inner loop is told to consume after a peek. */
  function Wanted(g: Got): nat
    requires g.bytes > 0
  {
    var f := Find(CStr(g.data));
    if f < 0 then g.bytes else f + |CRLF|
  }

  function Peek(held: string, buf: string, pending: string, script: seq<Kernel>): Got
    requires |held| + |buf| < BUFFER
  {
    RecvCall(pending, script, BUFFER - 1 - (|held| + |buf|), true)
  }

  /** The outer loop of `_recv`, from the state it has at its head. */
  function Receive(held: string, buf: string, pending: string, script: seq<Kernel>): Rx
    decreases |script|
  {
    if Find(buf) >= 0 || |held| + |buf| >= BUFFER then
      var all := held + buf;
      Rx(Returned(Find(buf) >= 0), all[..Cut(|all|)], "", pending, script)
    else
      var g := Peek(held, buf, pending, script);
      if g.bytes < 0 && g.again then Rx(WouldBlock, buf, held + buf, g.pending, g.script)
      else if g.bytes <= 0 then
        Rx(if |held| + |buf| == BUFFER - 1 then TooLong else Lost, buf, held, g.pending, g.script)
      else
        var d := Drain(buf, Wanted(g), g.pending, g.script);
        match d.end
        case Returned(_) => Receive(held, d.buf, d.pending, d.script)
        case WouldBlock => Rx(WouldBlock, d.buf, held + d.buf, d.pending, d.script)
        case _ => Rx(Lost, d.buf, held, d.pending, d.script)
  }

  /** Length left after the last two bytes are erased. */
  function Cut(n: nat): nat {
    if n < |CRLF| then 0 else n - |CRLF|
  }

  // ---- send -------------------------------------------------------------------

  /** buf_delim: the framed buffer. The comparison is between size_t values, so the
      subtraction wraps for buffers shorter than the delimiter. */
  function Frame(buf: string): string {
    var f := if Find(buf) < 0 then NPOS else Find(buf);
    if f != LessDelimiter(|buf|) then buf + CRLF else buf
  }

  /** n - 2 as a 64-bit size_t. */
  function LessDelimiter(n: nat): nat {
    if n >= |CRLF| then n - |CRLF| else NPOS + 1 + n - |CRLF|
  }

  datatype SendEnd = Sent | Stored(rest: string) | Broken

  datatype Tx = Tx(end: SendEnd, wire: string, script: seq<Kernel>)

  /** The loop of `_send` from offset total of the framed buffer. */
  function SendFrom(framed: string, total: nat, wire: string, script: seq<Kernel>): Tx
    requires total <= |framed|
    decreases |framed| - total
  {
    if total == |framed| then Tx(Sent, wire, script)
    else if script == [] || script[0].Block? then
      Tx(Stored(CStr(framed[total..])), wire, if script == [] then [] else script[1..])
    else
      match script[0]
      case Bytes(m) =>
        var k := Clamp(m, |framed| - total);
        SendFrom(framed, total + k, wire + framed[total..total + k], script[1..])
      case _ => Tx(Broken, wire, script[1..])
  }

  // ---- What _send puts on the wire --------------------------------------------

  /** Every call handles some bytes. */
  predicate AllBytes(script: seq<Kernel>) {
    forall i :: 0 <= i < |script| ==> script[i].Bytes?
  }

  /** Some call reports an error or the end of the connection. */
  predicate Fails(script: seq<Kernel>) {
    Fail in script || Hangup in script
  }

  /** Sent: the whole framed buffer is on the wire, in order, each byte once. On EAGAIN
      the wire followed by the stored remainder is. A kernel that takes some bytes on
      every call sees it sent; only one that fails breaks the connection. */
  lemma {:induction false} SendConserves(framed: string, total: nat, wire: string, script: seq<Kernel>)
    requires total <= |framed| && NUL !in framed
    ensures var x := SendFrom(framed, total, wire, script);
            match x.end
            case Sent => x.wire == wire + framed[total..]
            case Stored(rest) => x.wire + rest == wire + framed[total..]
            case Broken => x.wire <= wire + framed[total..] && Fails(script)
    ensures AllBytes(script) && |script| >= |framed| - total ==> SendFrom(framed, total, wire, script).end.Sent?
    decreases |framed| - total
  {
    if total < |framed| {
      CStrWhole(framed[total..]);
      if script != [] && script[0].Bytes? {
        var k := Clamp(script[0].n, |framed| - total);
        SendConserves(framed, total + k, wire + framed[total..total + k], script[1..]);
        SliceOff(wire, framed, total, k);
      }
    }
  }

  lemma SliceOff(wire: string, framed: string, total: nat, k: nat)
    requires total + k <= |framed|
    ensures wire + framed[total..] == wire + framed[total..total + k] + framed[total + k..]
  {
    assert framed[total..] == framed[total..total + k] + framed[total + k..];
  }

  /** The framed buffer ends in CR LF for every input length except 1, where the wrapped
      subtraction equals npos and nothing is appended. */
  lemma FrameEndsInCrlf(buf: string)
    requires |buf| < NPOS
    ensures At(Frame(buf), |Frame(buf)| - 2) <==> |buf| != 1
  {
    FindIsFirst(buf);
  }

  lemma FrameOfLine(line: string)
    requires |line| < NPOS && |line| != 1 && Find(line) < 0
    ensures Frame(line) == line + CRLF
  {
  }

  // ---- What _recv delivers ----------------------------------------------------

  /** The next byte is the LF of a CR that has already been consumed. */
  predicate Torn(taken: string, pending: string) {
    taken != "" && taken[|taken| - 1] == '\r' && pending != "" && pending[0] == '\n'
  }

  /** No CR LF pair is torn harmfully while the call runs: when bytes are taken by a peek
      that starts between a CR and its LF, the CR was taken by this call, too, and the peek
      saw the LF alone. */
  predicate Whole(held: string, buf: string, pending: string, script: seq<Kernel>)
    decreases |script|
  {
    if Find(buf) >= 0 || |held| + |buf| >= BUFFER then true
    else
      var g := Peek(held, buf, pending, script);
      if g.bytes <= 0 then true
      else
        var d := Drain(buf, Wanted(g), g.pending, g.script);
        && (Torn(held + buf, pending) && |d.buf| > |buf| ==> buf != "" && g.bytes == 1)
        && (d.end.Returned? ==> Whole(held, d.buf, d.pending, d.script))
  }

  lemma Slices(s: string, a: nat, n: nat)
    requires a + n <= |s|
    ensures s[..a] + s[a..][..n] == s[..a + n] && s[a..][n..] == s[a + n..]
  {
  }

  /** n bytes have moved from pending to buf. */
  predicate Took(d: Rx, buf: string, pending: string, n: nat) {
    n <= |pending| && d.pending == pending[n..] && d.buf == buf + pending[..n]
  }

  /** The inner loop, told to take left bytes, took n; it ends well with all of them. */
  predicate Drained(d: Rx, buf: string, left: nat, pending: string, n: nat) {
    && n <= left && Took(d, buf, pending, n)
    && (d.end == Returned(false) || d.end == WouldBlock || d.end == Lost)
    && (d.end.Returned? <==> n == left)
  }

  lemma DrainedMore(d: Rx, buf: string, left: nat, pending: string, a: nat, n: nat)
    requires a <= |pending| && a <= left && Drained(d, buf + pending[..a], left - a, pending[a..], n)
    ensures Drained(d, buf, left, pending, a + n)
  {
    Slices(pending, a, n);
    RegroupThree(buf, pending[..a], pending[a..][..n]);
  }

  predicate Drains(buf: string, left: nat, pending: string, script: seq<Kernel>, n: nat) {
    Drained(Drain(buf, left, pending, script), buf, left, pending, n)
  }

  lemma {:induction false} DrainTakes(buf: string, left: nat, pending: string, script: seq<Kernel>) returns (n: nat)
    requires NUL !in pending && left <= |pending|
    ensures Drains(buf, left, pending, script, n)
    decreases left
  {
    var g := RecvCall(pending, script, left, false);
    if left > 0 && g.bytes > 0 {
      var more, rest := buf + pending[..g.bytes], pending[g.bytes..];
      n := DrainTakes(more, left - g.bytes, rest, g.script);
      DrainOnce(buf, left, pending, script, g, n, more, rest);
      n := g.bytes + n;
    } else {
      n := 0;
      DrainNothing(buf, left, pending, script);
    }
  }

  lemma DrainNothing(buf: string, left: nat, pending: string, script: seq<Kernel>)
    requires left == 0 || RecvCall(pending, script, left, false).bytes <= 0
    ensures Drains(buf, left, pending, script, 0)
  {
  }

  lemma DrainOnce(buf: string, left: nat, pending: string, script: seq<Kernel>, g: Got, n: nat, more: string, rest: string)
    requires NUL !in pending && left > 0 && g == RecvCall(pending, script, left, false) && g.bytes > 0
    requires more == buf + pending[..g.bytes] && rest == pending[g.bytes..]
    ensures Drains(more, left - g.bytes, rest, g.script, n) ==> Drains(buf, left, pending, script, g.bytes + n)
  {
    CStrWhole(g.data);
    if Drains(more, left - g.bytes, rest, g.script, n) {
      DrainedMore(Drain(buf, left, pending, script), buf, left, pending, g.bytes, n);
    }
  }

  // ---- First CR LF of a stream seen in pieces ---------------------------------

  lemma FindInPrefix(s: string, n: nat)
    requires n <= |s|
    ensures Find(s[..n]) == if Find(s) >= 0 && Find(s) + |CRLF| <= n then Find(s) else -1
  {
    FindIsFirst(s);
    FindIsFirst(s[..n]);
    forall i ensures At(s[..n], i) <==> At(s, i) && i + |CRLF| <= n {}
  }

  lemma FindAfter(taken: string, pending: string)
    requires Find(taken) < 0 && !Torn(taken, pending)
    ensures Find(taken + pending) == if Find(pending) < 0 then -1 else |taken| + Find(pending)
  {
    FindIsFirst(taken);
    FindIsFirst(pending);
    FindIsFirst(taken + pending);
    forall i ensures At(taken + pending, i) <==> i >= |taken| && At(pending, i - |taken|) {
      assert i < |taken| - 1 ==> (At(taken + pending, i) <==> At(taken, i));
    }
    if Find(pending) >= 0 {
      assert At(taken + pending, |taken| + Find(pending));
      FindIs(taken + pending, |taken| + Find(pending));
    }
  }

  lemma FindTorn(taken: string, pending: string)
    requires Find(taken) < 0 && Torn(taken, pending)
    ensures Find(taken + pending) == |taken| - 1
  {
    FindIsFirst(taken);
    assert At(taken + pending, |taken| - 1);
    forall i | i < |taken| - 1 ensures !At(taken + pending, i) {
      assert !At(taken, i);
    }
    FindIs(taken + pending, |taken| - 1);
  }

  /** What a peek of the next bytes shows of the first CR LF. */
  lemma FindInPeek(taken: string, pending: string, k: nat)
    requires Find(taken) < 0 && !Torn(taken, pending) && k <= |pending|
    ensures var f, f' := Find(taken + pending), Find(pending[..k]);
            if f' >= 0 then f == |taken| + f' else Find(taken + pending[..k]) < 0 && (f < 0 || f + |CRLF| > |taken| + k)
  {
    FindAfter(taken, pending);
    FindInPrefix(pending, k);
    FindInPrefix(taken + pending, |taken| + k);
    assert (taken + pending)[..|taken| + k] == taken + pending[..k];
  }

  // ---- One call ---------------------------------------------------------------

  /** What one call is to do with the stream s of held and arriving bytes: deliver the
      first line when it fits with its CR LF into 511 bytes, or keep what it took, or
      raise after exactly 511 bytes that show no line. */
  predicate Right(s: string, r: Rx) {
    var f := Find(s);
    match r.end
    case Returned(found) =>
      found && 0 <= f && f + |CRLF| < BUFFER && r.buf == s[..f] && r.held == "" && r.pending == s[f + |CRLF|..]
    case WouldBlock =>
      r.held + r.pending == s && |r.held| < BUFFER && Find(r.held) < 0
    case TooLong =>
      |s| - |r.pending| == BUFFER - 1 && (f < 0 || f + |CRLF| >= BUFFER)
    case Lost => true
  }

  /** The loop head with the whole line in buf. */
  lemma Finish(held: string, buf: string, pending: string, script: seq<Kernel>)
    requires Find(buf) >= 0 && Find(held + buf + pending) == |held| + |buf| - |CRLF| && |held| + |buf| < BUFFER
    ensures Right(held + buf + pending, Receive(held, buf, pending, script))
  {
    var s, f := held + buf + pending, |held| + |buf| - |CRLF|;
    assert s[..f] == (held + buf)[..f];
    assert s[f + |CRLF|..] == pending;
  }

  /** The inner loop stopped short, before the end of the first line. */
  lemma Keep(held: string, buf: string, pending: string, n: nat, d: Rx)
    requires Took(d, buf, pending, n) && |held| + |buf| + n < BUFFER
    requires Find(held + buf + pending) < 0 || |held| + |buf| + n < Find(held + buf + pending) + |CRLF|
    ensures Right(held + buf + pending, Rx(WouldBlock, d.buf, held + d.buf, d.pending, d.script))
  {
    var s := held + buf + pending;
    RegroupThree(held, buf, pending[..n]);
    assert s[..|held| + |buf| + n] == held + buf + pending[..n];
    assert pending == pending[..n] + pending[n..];
    FindInPrefix(s, |held| + |buf| + n);
  }

  lemma FindLast(buf: string)
    requires |buf| >= |CRLF| && At(buf, |buf| - |CRLF|)
    ensures Find(buf) >= 0
  {
    FindIsFirst(buf);
  }

  /** Nothing could be peeked. */
  lemma NothingPeeked(held: string, buf: string, pending: string, script: seq<Kernel>)
    requires |held| + |buf| < BUFFER && Find(held + buf) < 0 && Find(buf) < 0
    requires Peek(held, buf, pending, script).bytes <= 0
    ensures Right(held + buf + pending, Receive(held, buf, pending, script))
  {
    FindInPrefix(held + buf + pending, |held| + |buf|);
    assert (held + buf + pending)[..|held| + |buf|] == held + buf;
  }

  /** The state one round of the outer loop leaves, when the loop goes on from it. */
  predicate GoesOn(held: string, buf: string, pending: string, script: seq<Kernel>, d: Rx) {
    && held + d.buf + d.pending == held + buf + pending
    && |held| + |d.buf| < BUFFER && |d.script| < |script|
    && Find(held + d.buf) < 0 && Find(d.buf) < 0 && NUL !in d.pending
  }

  /** A round whose peek does not start between a CR and its LF. */
  lemma UntornRound(held: string, buf: string, pending: string, script: seq<Kernel>, g: Got, d: Rx, n: nat)
    requires |held| + |buf| < BUFFER && NUL !in pending && Find(held + buf) < 0
    requires g == Peek(held, buf, pending, script) && g.bytes > 0 && !Torn(held + buf, pending)
    requires d.end != TooLong && |d.script| <= |g.script|
    requires n <= Wanted(g) && Took(d, buf, pending, n) && (d.end.Returned? <==> n == Wanted(g))
    ensures d.end.Returned? && Find(g.data) < 0 ==> GoesOn(held, buf, pending, script, d)
    ensures d.end.Returned? && Find(g.data) >= 0 ==> Right(held + buf + pending, Receive(held, d.buf, d.pending, d.script))
    ensures d.end.WouldBlock? ==> Right(held + buf + pending, Rx(WouldBlock, d.buf, held + d.buf, d.pending, d.script))
  {
    CStrWhole(g.data);
    FindInPrefix(pending, g.bytes);
    FindInPeek(held + buf, pending, g.bytes);
    if n == Wanted(g) {
      if Find(g.data) >= 0 {
        FindIsFirst(pending);
        PeekedLine(held, buf, pending, script, d, n);
      } else {
        PeekedPart(held, buf, pending, d, n);
      }
    } else if d.end.WouldBlock? {
      Keep(held, buf, pending, n, d);
    }
  }

  /** A call over which no pair is torn harmfully does what it is to do. */
  lemma {:induction false} ReceiveWhole(held: string, buf: string, pending: string, script: seq<Kernel>)
    requires |held| + |buf| < BUFFER && NUL !in pending
    requires Find(held + buf) < 0 && Find(buf) < 0 && Whole(held, buf, pending, script)
    ensures Right(held + buf + pending, Receive(held, buf, pending, script))
    decreases |script|
  {
    var g := Peek(held, buf, pending, script);
    if g.bytes <= 0 {
      NothingPeeked(held, buf, pending, script);
    } else {
      CStrWhole(g.data);
      FindInPrefix(pending, g.bytes);
      var n := DrainTakes(buf, Wanted(g), pending, g.script);
      var d := Drain(buf, Wanted(g), pending, g.script);
      if Torn(held + buf, pending) {
        if n == 0 {
          FindTorn(held + buf, pending);
          Keep(held, buf, pending, 0, d);
        } else {
          TornPeek(held, buf, pending, script, n);
        }
      } else {
        UntornRound(held, buf, pending, script, g, d, n);
        if d.end.Returned? && Find(g.data) < 0 {
          ReceiveWhole(held, d.buf, d.pending, d.script);
        }
      }
    }
  }

  /** The peek saw the end of the line. */
  lemma PeekedLine(held: string, buf: string, pending: string, script: seq<Kernel>, d: Rx, w: nat)
    requires Took(d, buf, pending, w) && w >= |CRLF| && At(pending, w - |CRLF|) && |held| + |buf| + w < BUFFER
    requires Find(held + buf + pending) == |held| + |buf| + w - |CRLF|
    ensures Right(held + buf + pending, Receive(held, d.buf, d.pending, d.script))
  {
    LineEnds(buf, pending, d, w);
    Repack(held, buf, pending, d, w);
    Finish(held, d.buf, d.pending, d.script);
  }

  lemma LineEnds(buf: string, pending: string, d: Rx, w: nat)
    requires Took(d, buf, pending, w) && w >= |CRLF| && At(pending, w - |CRLF|)
    ensures |d.buf| == |buf| + w && Find(d.buf) >= 0
  {
    EndsAsTaken(buf, pending, d, w);
    FindLast(d.buf);
  }

  lemma EndsAsTaken(buf: string, pending: string, d: Rx, w: nat)
    requires Took(d, buf, pending, w) && w >= |CRLF| && At(pending, w - |CRLF|)
    ensures |d.buf| == |buf| + w && At(d.buf, |d.buf| - |CRLF|)
  {
  }

  lemma Repack(held: string, buf: string, pending: string, d: Rx, w: nat)
    requires Took(d, buf, pending, w)
    ensures held + d.buf + d.pending == held + buf + pending
    ensures held + d.buf == held + buf + pending[..w]
  {
    assert pending == pending[..w] + pending[w..];
  }

  /** The peek saw no end of line, and all of it was taken. */
  lemma PeekedPart(held: string, buf: string, pending: string, d: Rx, w: nat)
    requires Took(d, buf, pending, w) && Find(held + buf + pending[..w]) < 0 && NUL !in pending
    ensures held + d.buf + d.pending == held + buf + pending
    ensures Find(held + d.buf) < 0 && Find(d.buf) < 0 && NUL !in d.pending
  {
    Repack(held, buf, pending, d, w);
    FindInSuffix(held, d.buf);
  }

  lemma FindInSuffix(a: string, b: string)
    requires Find(a + b) < 0
    ensures Find(b) < 0
  {
    FindIsFirst(a + b);
    FindIsFirst(b);
    forall i ensures At(b, i) ==> At(a + b, |a| + i) {}
  }

  /** A peek between CR and LF that sees the LF alone. */
  lemma TornPeek(held: string, buf: string, pending: string, script: seq<Kernel>, n: nat)
    requires |held| + |buf| < BUFFER && NUL !in pending && Find(held + buf) < 0 && Find(buf) < 0
    requires Torn(held + buf, pending) && buf != "" && Peek(held, buf, pending, script).bytes == 1
    requires n <= 1 && Took(Drain(buf, 1, pending, Peek(held, buf, pending, script).script), buf, pending, n)
    requires Drain(buf, 1, pending, Peek(held, buf, pending, script).script).end.Returned? <==> n == 1
    requires Drain(buf, 1, pending, Peek(held, buf, pending, script).script).end != TooLong
    ensures Right(held + buf + pending, Receive(held, buf, pending, script))
  {
    var g := Peek(held, buf, pending, script);
    CStrWhole(g.data);
    assert Wanted(g) == 1;
    var d := Drain(buf, 1, g.pending, g.script);
    FindTorn(held + buf, pending);
    if n == 1 {
      assert At(d.buf, |d.buf| - |CRLF|);
      FindLast(d.buf);
      Repack(held, buf, pending, d, 1);
      Finish(held, d.buf, d.pending, d.script);
    } else if d.end.WouldBlock? {
      Keep(held, buf, pending, 0, d);
    }
  }

  lemma NoNulSuffix(s: string, n: nat)
    requires NUL !in s && n <= |s|
    ensures NUL !in s[n..]
  {
  }

  // ---- Exactly when a call is right -------------------------------------------

  /** A call that returns has erased two bytes of what it took, no more. */
  lemma {:induction false} ReturnsAllButTwo(held: string, buf: string, pending: string, script: seq<Kernel>)
    requires |held| + |buf| < BUFFER && NUL !in pending
    ensures var r := Receive(held, buf, pending, script);
            r.end.Returned? ==> |r.buf| + |CRLF| >= |held| + |buf| + if Find(buf) < 0 then 1 else 0
    decreases |script|
  {
    if Find(buf) < 0 {
      var g := Peek(held, buf, pending, script);
      if g.bytes > 0 {
        CStrWhole(g.data);
        var n := DrainTakes(buf, Wanted(g), pending, g.script);
        var d := Drain(buf, Wanted(g), pending, g.script);
        if d.end.Returned? {
          NoNulSuffix(pending, n);
          ReturnsAllButTwo(held, d.buf, d.pending, d.script);
        }
      }
    }
  }

  lemma {:induction false} ReceiveHolds(held: string, buf: string, pending: string, script: seq<Kernel>)
    requires |held| + |buf| < BUFFER && NUL !in pending
    ensures var r := Receive(held, buf, pending, script); r.end.WouldBlock? ==> held + buf <= r.held
    decreases |script|
  {
    if Find(buf) < 0 {
      var g := Peek(held, buf, pending, script);
      if g.bytes > 0 {
        CStrWhole(g.data);
        var n := DrainTakes(buf, Wanted(g), pending, g.script);
        var d := Drain(buf, Wanted(g), pending, g.script);
        if d.end.Returned? {
          NoNulSuffix(pending, n);
          ReceiveHolds(held, d.buf, d.pending, d.script);
        }
      }
    }
  }

  /** Once a CR LF is in what was taken, and not at its end in buf, the call goes wrong. */
  lemma Spoilt(held: string, buf: string, pending: string, script: seq<Kernel>)
    requires |held| + |buf| < BUFFER && NUL !in pending && Find(held + buf) >= 0
    requires Find(buf) < 0 || Find(held + buf) + |CRLF| < |held| + |buf|
    ensures var r := Receive(held, buf, pending, script); r.end != Lost ==> !Right(held + buf + pending, r)
  {
    var s, r := held + buf + pending, Receive(held, buf, pending, script);
    assert s[..|held| + |buf|] == held + buf;
    FindInPrefix(s, |held| + |buf|);
    ReturnsAllButTwo(held, buf, pending, script);
    ReceiveHolds(held, buf, pending, script);
    if r.end.WouldBlock? {
      FindInPrefix(r.held, |held| + |buf|);
      assert r.held[..|held| + |buf|] == held + buf;
    }
  }

  /** A peek between a CR and its LF, of which n bytes were taken. */
  lemma TornRound(held: string, buf: string, pending: string, script: seq<Kernel>, g: Got, d: Rx, n: nat)
    requires |held| + |buf| < BUFFER && NUL !in pending && Find(held + buf) < 0 && Find(buf) < 0
    requires g == Peek(held, buf, pending, script) && g.bytes > 0 && Torn(held + buf, pending)
    requires d == Drain(buf, Wanted(g), pending, g.script) && Drained(d, buf, Wanted(g), pending, n)
    requires n > 0 && (buf == "" || g.bytes > 1)
    ensures var r := Receive(held, buf, pending, script); r.end != Lost ==> !Right(held + buf + pending, r)
  {
    CStrWhole(g.data);
    Repack(held, buf, pending, d, n);
    FindTorn(held + buf, pending[..n]);
    RegroupThree(held, buf, pending[..n]);
    if d.end.Returned? {
      NoNulSuffix(pending, n);
      Spoilt(held, d.buf, d.pending, d.script);
    }
  }

  /** A pair torn harmfully spoils the call, whether it returns, stops or raises. */
  lemma {:induction false} TornSpoils(held: string, buf: string, pending: string, script: seq<Kernel>)
    requires |held| + |buf| < BUFFER && NUL !in pending
    requires Find(held + buf) < 0 && Find(buf) < 0 && !Whole(held, buf, pending, script)
    ensures var r := Receive(held, buf, pending, script); r.end != Lost ==> !Right(held + buf + pending, r)
    decreases |script|
  {
    var g := Peek(held, buf, pending, script);
    CStrWhole(g.data);
    FindInPrefix(pending, g.bytes);
    var n := DrainTakes(buf, Wanted(g), pending, g.script);
    var d := Drain(buf, Wanted(g), pending, g.script);
    if Torn(held + buf, pending) && n > 0 {
      if buf != "" && g.bytes == 1 {
        TornPeekEnds(buf, pending, d);
      } else {
        TornRound(held, buf, pending, script, g, d, n);
      }
    } else if !Torn(held + buf, pending) {
      UntornRound(held, buf, pending, script, g, d, n);
      if Find(g.data) >= 0 {
        FindIsFirst(pending);
        LineEnds(buf, pending, d, n);
      } else {
        TornSpoils(held, d.buf, d.pending, d.script);
      }
    }
  }

  lemma TornPeekEnds(buf: string, pending: string, d: Rx)
    requires buf != "" && Torn(buf, pending) && Took(d, buf, pending, 1)
    ensures Find(d.buf) >= 0
  {
    assert At(d.buf, |d.buf| - |CRLF|);
    FindLast(d.buf);
  }

  // ---- That a call gets on ----------------------------------------------------

  /** A kernel with bytes on every call, and calls enough for n of them: each round takes
      one peek and at most as many calls as bytes. */
  predicate Willing(script: seq<Kernel>, n: nat) {
    AllBytes(script) && |script| >= 2 * n
  }

  /** How a call is to end when everything of the stream s that is to come has come. */
  function Outcome(s: string): End {
    if 0 <= Find(s) && Find(s) + |CRLF| < BUFFER then Returned(true)
    else if |s| >= BUFFER - 1 then TooLong
    else WouldBlock
  }

  lemma {:induction false} WillingDrain(buf: string, left: nat, pending: string, script: seq<Kernel>)
    requires NUL !in pending && left <= |pending| && AllBytes(script) && |script| >= left
    ensures var d := Drain(buf, left, pending, script);
            d.end.Returned? && AllBytes(d.script) && |d.script| >= |script| - left
    decreases left
  {
    if left > 0 {
      var g := RecvCall(pending, script, left, false);
      NoNulSuffix(pending, g.bytes);
      WillingDrain(buf + CStr(g.data), left - g.bytes, g.pending, g.script);
    }
  }

  /** With a willing kernel a call stops only when nothing is left to take. */
  lemma {:induction false} WillingReceive(held: string, buf: string, pending: string, script: seq<Kernel>)
    requires |held| + |buf| < BUFFER && NUL !in pending && Willing(script, |pending|)
    ensures var r := Receive(held, buf, pending, script);
            && r.end != Lost && Willing(r.script, |r.pending|)
            && (r.end.WouldBlock? ==> r.pending == "" && |r.held| < BUFFER - 1)
    decreases |script|
  {
    if Find(buf) < 0 {
      var g := Peek(held, buf, pending, script);
      if g.bytes > 0 {
        CStrWhole(g.data);
        var w := Wanted(g);
        WillingDrain(buf, w, pending, g.script);
        var n := DrainTakes(buf, w, pending, g.script);
        var d := Drain(buf, w, pending, g.script);
        NoNulSuffix(pending, w);
        WillingReceive(held, d.buf, d.pending, d.script);
      }
    }
  }

  lemma RecvLost(pending: string, script: seq<Kernel>, n: nat, peek: bool)
    ensures var g := RecvCall(pending, script, n, peek);
            && (Fails(g.script) ==> Fails(script))
            && (n > 0 && g.bytes <= 0 && !(g.bytes < 0 && g.again) ==> Fails(script))
  {
    if script != [] {
      assert script == [script[0]] + script[1..];
    }
  }

  predicate LostOk(d: Rx, script: seq<Kernel>) {
    d.end == Lost || Fails(d.script) ==> Fails(script)
  }

  lemma {:induction false} DrainLost(buf: string, left: nat, pending: string, script: seq<Kernel>)
    ensures LostOk(Drain(buf, left, pending, script), script)
    decreases left
  {
    if left > 0 {
      var g := RecvCall(pending, script, left, false);
      RecvLost(pending, script, left, false);
      if g.bytes > 0 {
        DrainLost(buf + CStr(g.data), left - g.bytes, g.pending, g.script);
      }
    }
  }

  /** A call loses the connection only when the kernel says so. */
  lemma {:induction false} LostOnlyByFailure(held: string, buf: string, pending: string, script: seq<Kernel>)
    requires |held| + |buf| < BUFFER && NUL !in pending
    ensures Receive(held, buf, pending, script).end == Lost ==> Fails(script)
    decreases |script|
  {
    if Find(buf) < 0 {
      var g := Peek(held, buf, pending, script);
      if g.bytes > 0 {
        CStrWhole(g.data);
        DrainLost(buf, Wanted(g), pending, g.script);
        var n := DrainTakes(buf, Wanted(g), pending, g.script);
        var d := Drain(buf, Wanted(g), pending, g.script);
        if d.end.Returned? {
          NoNulSuffix(pending, n);
          LostOnlyByFailure(held, d.buf, d.pending, d.script);
        }
      }
    }
  }

  /** One call from its start, when no pair is torn harmfully: right, lost only if the
      kernel fails, and with a willing kernel the line is delivered if it fits, and a
      longer one raises. */
  lemma ReceiveDelivers(held: string, pending: string, script: seq<Kernel>)
    requires |held| < BUFFER && Find(held) < 0 && NUL !in pending && Whole(held, "", pending, script)
    ensures var s, r := held + pending, Receive(held, "", pending, script);
            && Right(s, r) && (r.end == Lost ==> Fails(script))
            && (Willing(script, |pending|) ==>
                  && r.end == Outcome(s) && Willing(r.script, |r.pending|)
                  && (r.end.WouldBlock? ==> r.pending == "" && r.held == s))
  {
    assert held + "" == held && held + pending == held + "" + pending;
    ReceiveWhole(held, "", pending, script);
    LostOnlyByFailure(held, "", pending, script);
    if Willing(script, |pending|) {
      WillingReceive(held, "", pending, script);
      EndsAsDue(held + pending, Receive(held, "", pending, script));
    }
  }

  lemma EndsAsDue(s: string, r: Rx)
    requires Right(s, r) && r.end != Lost && (r.end.WouldBlock? ==> r.pending == "" && |r.held| < BUFFER - 1)
    ensures r.end == Outcome(s) && (r.end.WouldBlock? ==> r.held == s)
  {
    assert r.held + "" == r.held;
  }

  /** For every kernel behaviour but a failure, a call delivers exactly the first line of
      the stream, or keeps what it took, or raises after 511 bytes without a line, if and
      only if no pair was torn harmfully on the way. */
  lemma DeliversIffWhole(held: string, pending: string, script: seq<Kernel>)
    requires |held| < BUFFER && Find(held) < 0 && NUL !in pending
    ensures var r := Receive(held, "", pending, script);
            && (r.end == Lost ==> Fails(script))
            && (r.end != Lost ==> (Whole(held, "", pending, script) <==> Right(held + pending, r)))
  {
    assert held + "" == held && held + pending == held + "" + pending;
    LostOnlyByFailure(held, "", pending, script);
    if Whole(held, "", pending, script) {
      ReceiveWhole(held, "", pending, script);
    } else {
      TornSpoils(held, "", pending, script);
    }
  }

  /** A tear that harms: the first peek ends between the CR and LF of line a, the second
      sees the rest. The two lines come out as one. */
  lemma TornLinesMerge(a: string, b: string, script: seq<Kernel>)
    requires Find(a) < 0 && Find(b) < 0 && NUL !in a && NUL !in b && |a| + |b| + 2 * |CRLF| < BUFFER
    requires script == [Bytes(|a| + 1), Bytes(|a| + 1), Bytes(|b| + 3), Bytes(|b| + 3)]
    ensures Receive("", "", a + CRLF + b + CRLF, script) == Rx(Returned(true), a + CRLF + b, "", "", [])
  {
    HalfLine(a);
    TornFirst(a, "\n" + b + CRLF, script);
    TornSecond(a + "\r", b, script[2..]);
    Halves(a, b);
    Merged(a, b, "", script[2..][2..]);
  }

  lemma Halves(a: string, b: string)
    ensures a + "\r" + ("\n" + b + CRLF) == a + CRLF + b + CRLF
  {
  }

  lemma TornFirst(a: string, two: string, script: seq<Kernel>)
    requires Find(a) < 0 && NUL !in a && |a| + 1 < BUFFER && |script| >= 2
    requires script[0] == Bytes(|a| + 1) == script[1]
    ensures Receive("", "", a + "\r" + two, script) == Receive("", a + "\r", two, script[2..])
  {
    var s, k := a + "\r" + two, |a| + 1;
    assert s[..k] == a + "\r" && s[k..] == two && "" + s[..k] == s[..k];
    HalfLine(a);
    OneGulp("", s, script, k, k);
  }

  lemma TornSecond(one: string, b: string, script: seq<Kernel>)
    requires Find(one) < 0 && Find(b) < 0 && NUL !in b && |one| + |b| + 3 < BUFFER && |script| >= 2
    requires script[0] == Bytes(|b| + 3) == script[1]
    ensures Receive("", one, "\n" + b + CRLF, script) == Receive("", one + ("\n" + b + CRLF), "", script[2..])
  {
    var two, w := "\n" + b + CRLF, |b| + 3;
    OtherHalf(b);
    assert two[..w] == two && two[w..] == "";
    OneGulp(one, two, script, w, w);
  }

  /** The loop head with both lines in buf. */
  lemma Merged(a: string, b: string, pending: string, script: seq<Kernel>)
    requires Find(a) < 0
    ensures Receive("", a + CRLF + b + CRLF, pending, script) == Rx(Returned(true), a + CRLF + b, "", pending, script)
  {
    var s := a + CRLF + b + CRLF;
    MergedEnds(a, b);
    assert "" + s == s;
    assert s[..|s| - |CRLF|] == a + CRLF + b;
  }

  lemma MergedEnds(a: string, b: string)
    requires Find(a) < 0
    ensures Find(a + CRLF + b + CRLF) >= 0
  {
    FirstLine(a, b + CRLF);
    assert a + CRLF + (b + CRLF) == a + CRLF + b + CRLF;
  }

  lemma HalfLine(a: string)
    requires Find(a) < 0
    ensures Find(a + "\r") < 0
  {
    FindIsFirst(a);
    FindIsFirst(a + "\r");
    forall i ensures At(a + "\r", i) ==> At(a, i) {}
  }

  lemma OtherHalf(b: string)
    requires Find(b) < 0
    ensures Find("\n" + b + CRLF) == |b| + 1
  {
    FindIsFirst(b);
    FindIsFirst("\n" + b);
    forall i ensures At("\n" + b, i) ==> At(b, i - 1) {}
    FirstLine("\n" + b, "");
    assert "\n" + b + CRLF + "" == "\n" + b + CRLF;
  }

  /** A peek of k bytes, and one recv of the w wanted ones. */
  lemma OneGulp(buf: string, pending: string, script: seq<Kernel>, k: nat, w: nat)
    requires |script| >= 2 && script[0] == Bytes(k) && script[1] == Bytes(w)
    requires 1 <= k <= |pending| && |buf| + k < BUFFER && Find(buf) < 0 && NUL !in pending[..k]
    requires w == if Find(pending[..k]) < 0 then k else Find(pending[..k]) + |CRLF|
    ensures Receive("", buf, pending, script) == Receive("", buf + pending[..w], pending[w..], script[2..])
  {
    var g := Peek("", buf, pending, script);
    assert g == Got(k, false, pending[..k], pending, script[1..]);
    CStrWhole(pending[..k]);
    assert Wanted(g) == w;
    GulpDrains(buf, pending, script[1..], w);
  }

  lemma GulpDrains(buf: string, pending: string, script: seq<Kernel>, w: nat)
    requires script != [] && script[0] == Bytes(w) && 1 <= w <= |pending| && NUL !in pending[..w]
    ensures Drain(buf, w, pending, script) == Rx(Returned(false), buf + pending[..w], "", pending[w..], script[1..])
  {
    var g := RecvCall(pending, script, w, false);
    assert g == Got(w, false, pending[..w], pending[w..], script[1..]);
    CStrWhole(pending[..w]);
    assert Drain(buf, w, pending, script) == Drain(buf + pending[..w], 0, pending[w..], script[1..]);
  }

  // ---- Whole sessions ---------------------------------------------------------

  /** Reference: the lines of a byte stream, each ended by CR LF, and what is left over. */
  function Lines(s: string): seq<string> {
    if Find(s) < 0 then [] else [s[..Find(s)]] + Lines(s[Find(s) + |CRLF|..])
  }

  function Rest(s: string): string {
    if Find(s) < 0 then s else Rest(s[Find(s) + |CRLF|..])
  }

  /** A connection after some calls of `_recv`: the lines they returned, the leftover
      buffer and the bytes still to come. */
  datatype Session = Session(open: bool, lines: seq<string>, held: string, pending: string, script: seq<Kernel>)

  function Call(c: Session): Session {
    if !c.open then c
    else
      var r := Receive(c.held, "", c.pending, c.script);
      match r.end
      case Returned(_) => Session(true, c.lines + [r.buf], r.held, r.pending, r.script)
      case WouldBlock => Session(true, c.lines, r.held, r.pending, r.script)
      case _ => Session(false, c.lines, r.held, r.pending, r.script)
  }

  function Calls(c: Session, n: nat): Session
    decreases n
  {
    if n == 0 then c else Calls(Call(c), n - 1)
  }

  /** No call of the session tears a pair harmfully. */
  predicate AllWhole(c: Session, n: nat)
    decreases n
  {
    n > 0 && c.open ==> Whole(c.held, "", c.pending, c.script) && AllWhole(Call(c), n - 1)
  }

  function Unsplit(lines: seq<string>): string {
    if lines == [] then "" else Unsplit(lines[..|lines| - 1]) + lines[|lines| - 1] + CRLF
  }

  /** What a session has kept of the bytes that came in. */
  predicate SessionOk(c: Session, stream: string) {
    && Unsplit(c.lines) <= stream
    && (forall i :: 0 <= i < |c.lines| ==> Find(c.lines[i]) < 0 && |c.lines[i]| + |CRLF| < BUFFER)
    && (c.open ==>
          && Unsplit(c.lines) + c.held + c.pending == stream
          && |c.held| < BUFFER && Find(c.held) < 0 && NUL !in c.pending)
  }

  lemma LineTaken(lines: seq<string>, held: string, pending: string, line: string, rest: string)
    requires held + pending == line + CRLF + rest
    ensures Unsplit(lines + [line]) + "" + rest == Unsplit(lines) + held + pending
  {
    assert (lines + [line])[..|lines|] == lines;
    assert Unsplit(lines + [line]) == Unsplit(lines) + line + CRLF;
    Regroup(Unsplit(lines), line, CRLF, rest);
    RegroupThree(Unsplit(lines), held, pending);
  }

  lemma CallKeepsSession(c: Session, stream: string)
    requires SessionOk(c, stream) && c.open && Whole(c.held, "", c.pending, c.script)
    ensures SessionOk(Call(c), stream)
  {
    var r, s := Receive(c.held, "", c.pending, c.script), c.held + c.pending;
    assert c.held + "" == c.held && c.held + "" + c.pending == s;
    ReceiveWhole(c.held, "", c.pending, c.script);
    ReceiveSuffix(c.held, "", c.pending, c.script);
    if r.end.Returned? {
      FirstLineOf(s);
      LineTaken(c.lines, c.held, c.pending, r.buf, r.pending);
    } else if r.end.WouldBlock? {
      RegroupThree(Unsplit(c.lines), c.held, c.pending);
      RegroupThree(Unsplit(c.lines), r.held, r.pending);
    }
  }

  lemma FirstLineOf(s: string)
    requires Find(s) >= 0
    ensures s == s[..Find(s)] + CRLF + s[Find(s) + |CRLF|..] && Find(s[..Find(s)]) < 0
  {
    FindIsFirst(s);
    FindInPrefix(s, Find(s));
  }

  lemma {:induction false} ReceiveSuffix(held: string, buf: string, pending: string, script: seq<Kernel>)
    requires |held| + |buf| < BUFFER && NUL !in pending
    ensures NUL !in Receive(held, buf, pending, script).pending
    decreases |script|
  {
    if Find(buf) < 0 {
      var g := Peek(held, buf, pending, script);
      if g.bytes > 0 {
        CStrWhole(g.data);
        var n := DrainTakes(buf, Wanted(g), pending, g.script);
        var d := Drain(buf, Wanted(g), pending, g.script);
        NoNulSuffix(pending, n);
        if d.end.Returned? {
          ReceiveSuffix(held, d.buf, d.pending, d.script);
        }
      }
    }
  }

  /** Over any number of calls the lines returned, each with its CR LF, then the leftover
      buffer, then the bytes not yet taken, are exactly the stream; every line is free of
      CR LF and fits the buffer. */
  lemma {:induction false} CallsKeepSession(c: Session, stream: string, n: nat)
    requires SessionOk(c, stream) && AllWhole(c, n)
    ensures SessionOk(Calls(c, n), stream)
    decreases n
  {
    if n > 0 {
      if c.open {
        CallKeepsSession(c, stream);
      }
      CallsKeepSession(Call(c), stream, n - 1);
    }
  }

  lemma {:induction false} LinesOfUnsplit(lines: seq<string>, tail: string)
    requires forall i :: 0 <= i < |lines| ==> Find(lines[i]) < 0
    ensures Lines(Unsplit(lines) + tail) == lines + Lines(tail)
    ensures Rest(Unsplit(lines) + tail) == Rest(tail)
  {
    if lines == [] {
      assert Unsplit(lines) + tail == tail;
    } else {
      var init, last := lines[..|lines| - 1], lines[|lines| - 1];
      LinesOfUnsplit(init, last + CRLF + tail);
      Regroup(Unsplit(init), last, CRLF, tail);
      FirstLine(last, tail);
      RegroupLast(lines, Lines(tail));
    }
  }

  lemma FirstLine(line: string, tail: string)
    requires Find(line) < 0
    ensures Find(line + CRLF + tail) == |line|
    ensures Lines(line + CRLF + tail) == [line] + Lines(tail) && Rest(line + CRLF + tail) == Rest(tail)
  {
    var s := line + CRLF + tail;
    assert At(s, |line|);
    FindIsFirst(line);
    forall i | i < |line| ensures !At(s, i) {
      assert i < |line| - 1 ==> (At(s, i) <==> At(line, i));
    }
    FindIs(s, |line|);
    assert s[..|line|] == line && s[|line| + |CRLF|..] == tail;
  }

  /** The lines a session has returned are the lines of the bytes it has consumed, and its
      leftover buffer is their remainder; after a closed session, too, they are the first
      lines of the stream. */
  lemma SessionReadsLines(stream: string, script: seq<Kernel>, n: nat)
    requires NUL !in stream && AllWhole(Session(true, [], "", stream, script), n)
    ensures var c := Calls(Session(true, [], "", stream, script), n);
            && c.lines <= Lines(stream)
            && (c.open ==>
                  && |c.pending| <= |stream|
                  && var consumed := stream[..|stream| - |c.pending|];
                     stream == consumed + c.pending && c.lines == Lines(consumed) && c.held == Rest(consumed))
  {
    var c0 := Session(true, [], "", stream, script);
    var c := Calls(c0, n);
    assert Unsplit([]) + "" + stream == stream;
    CallsKeepSession(c0, stream, n);
    SessionLines(c, stream);
  }

  lemma SessionLines(c: Session, stream: string)
    requires SessionOk(c, stream)
    ensures c.lines <= Lines(stream)
    ensures c.open ==>
              && |c.pending| <= |stream|
              && var consumed := stream[..|stream| - |c.pending|];
                 stream == consumed + c.pending && c.lines == Lines(consumed) && c.held == Rest(consumed)
  {
    var taken := Unsplit(c.lines);
    assert stream == taken + stream[|taken|..];
    LinesOfUnsplit(c.lines, stream[|taken|..]);
    if c.open {
      assert stream[..|stream| - |c.pending|] == taken + c.held;
      LinesOfUnsplit(c.lines, c.held);
      LastLines(c.lines, c.held);
    }
  }

  /** What is held has no line in it. */
  lemma LastLines(lines: seq<string>, held: string)
    requires Find(held) < 0
    ensures lines + Lines(held) == lines && Rest(held) == held
  {
  }

  /** Reference: the lines of a stream up to the first that does not fit, and the rest. */
  function Readable(s: string): seq<string> {
    if Outcome(s).Returned? then [s[..Find(s)]] + Readable(s[Find(s) + |CRLF|..]) else []
  }

  function Unread(s: string): string {
    if Outcome(s).Returned? then Unread(s[Find(s) + |CRLF|..]) else s
  }

  lemma {:induction false} ClosedStays(c: Session, n: nat)
    requires !c.open
    ensures Calls(c, n) == c
    decreases n
  {
    if n > 0 {
      ClosedStays(c, n - 1);
    }
  }

  /** The session has all readable lines of the stream s that was to come, and holds the
      rest of it, or has raised because the rest is too long. */
  predicate ReadAll(c: Session, lines: seq<string>, s: string) {
    && c.lines == lines + Readable(s)
    && (c.open <==> |Unread(s)| < BUFFER - 1)
    && (c.open ==> c.held == Unread(s) && c.pending == "")
  }

  /** An open session whose kernel is willing, with s to read. */
  predicate Reads(c: Session, s: string) {
    && c.open && c.held + c.pending == s
    && |c.held| < BUFFER && Find(c.held) < 0 && NUL !in c.pending && Willing(c.script, |c.pending|)
  }

  lemma CallReads(c: Session, s: string)
    requires Reads(c, s) && Whole(c.held, "", c.pending, c.script)
    ensures var c' := Call(c);
            match Outcome(s)
            case Returned(_) => c'.lines == c.lines + [s[..Find(s)]] && Reads(c', s[Find(s) + |CRLF|..])
            case WouldBlock => c'.lines == c.lines && Reads(c', s) && c'.held == s && c'.pending == ""
            case _ => c'.lines == c.lines && !c'.open
  {
    var r := Receive(c.held, "", c.pending, c.script);
    ReceiveDelivers(c.held, c.pending, c.script);
    ReceiveSuffix(c.held, "", c.pending, c.script);
    assert r.held == "" ==> r.held + r.pending == r.pending;
    assert r.held + "" == r.held;
  }

  lemma ReadAllMore(e: Session, lines: seq<string>, s: string)
    requires Outcome(s).Returned? && ReadAll(e, lines + [s[..Find(s)]], s[Find(s) + |CRLF|..])
    ensures ReadAll(e, lines, s)
  {
    RegroupThree(lines, [s[..Find(s)]], Readable(s[Find(s) + |CRLF|..]));
  }

  lemma ReadableMore(s: string)
    requires Outcome(s).Returned?
    ensures |Readable(s)| == 1 + |Readable(s[Find(s) + |CRLF|..])|
  {
  }

  lemma {:induction false} CallsReadAll(c: Session, s: string, n: nat)
    requires Reads(c, s) && AllWhole(c, n) && n > |Readable(s)|
    ensures ReadAll(Calls(c, n), c.lines, s)
    decreases n
  {
    var c' := Call(c);
    CallReads(c, s);
    if Outcome(s).Returned? {
      ReadableMore(s);
      CallsReadAll(c', s[Find(s) + |CRLF|..], n - 1);
      ReadAllMore(Calls(c', n - 1), c.lines, s);
    } else if Outcome(s) == TooLong {
      ClosedStays(c', n - 1);
      ReadEnds(c', c.lines, s);
    } else if n > 1 {
      CallsReadAll(c', s, n - 1);
    } else {
      ReadEnds(c', c.lines, s);
    }
  }

  /** A session that has come to the end of what it can read. */
  lemma ReadEnds(e: Session, lines: seq<string>, s: string)
    requires !Outcome(s).Returned? && e.lines == lines
    requires if Outcome(s) == TooLong then !e.open else e.open && e.held == s && e.pending == ""
    ensures ReadAll(e, lines, s)
  {
  }

  /** With a willing kernel enough calls return every line of the stream that comes before
      one that does not fit; then the session holds the unfinished rest, or has raised if
      that does not fit. */
  lemma SessionReadsAll(stream: string, script: seq<Kernel>, n: nat)
    requires NUL !in stream && AllWhole(Session(true, [], "", stream, script), n)
    requires Willing(script, |stream|) && n > |Readable(stream)|
    ensures ReadAll(Calls(Session(true, [], "", stream, script), n), [], stream)
  {
    assert "" + stream == stream;
    CallsReadAll(Session(true, [], "", stream, script), stream, n);
  }

  // ---- From _send to _recv ----------------------------------------------------

  /** The two kernels between `_send` of line and `_recv` of it, with later behind it: some
      bytes on every call, calls enough, and no pair torn harmfully. */
  predicate Carriers(line: string, sendScript: seq<Kernel>, later: string, recvScript: seq<Kernel>) {
    && AllBytes(sendScript) && |sendScript| >= |Frame(line)|
    && Willing(recvScript, |Frame(line) + later|)
    && NUL !in later && Whole("", "", Frame(line) + later, recvScript)
  }

  /** What `_recv` gets of what `_send` has put on the wire. */
  function Carry(line: string, sendScript: seq<Kernel>, later: string, recvScript: seq<Kernel>): Rx {
    Receive("", "", SendFrom(Frame(line), 0, "", sendScript).wire + later, recvScript)
  }

  lemma WireIsFrame(line: string, sendScript: seq<Kernel>)
    requires NUL !in line && AllBytes(sendScript) && |sendScript| >= |Frame(line)|
    ensures var x := SendFrom(Frame(line), 0, "", sendScript); x.end.Sent? && x.wire == Frame(line)
  {
    var framed := Frame(line);
    SendConserves(framed, 0, "", sendScript);
    assert framed[0..] == framed && "" + framed == framed;
  }

  /** A line without CR LF or NUL, of a length that fits and is not 1, is sent whole by
      `_send` and arrives by `_recv` as it was. */
  lemma SentLineIsReceived(line: string, sendScript: seq<Kernel>, later: string, recvScript: seq<Kernel>)
    requires Find(line) < 0 && NUL !in line && |line| != 1 && |line| + |CRLF| < BUFFER
    requires Carriers(line, sendScript, later, recvScript)
    ensures SendFrom(Frame(line), 0, "", sendScript).end.Sent?
    ensures var r := Carry(line, sendScript, later, recvScript);
            r.end == Returned(true) && r.buf == line && r.held == "" && r.pending == later
  {
    WireIsFrame(line, sendScript);
    FrameOfLine(line);
    LineArrives("", line, later, recvScript);
  }

  lemma LineArrives(held: string, line: string, later: string, script: seq<Kernel>)
    requires held == "" && Find(line) < 0 && NUL !in line && NUL !in later && |line| + |CRLF| < BUFFER
    requires Willing(script, |line + CRLF + later|) && Whole(held, "", line + CRLF + later, script)
    ensures var r := Receive(held, "", line + CRLF + later, script);
            r.end == Returned(true) && r.buf == line && r.held == "" && r.pending == later
  {
    var s := line + CRLF + later;
    FirstLine(line, later);
    NoNulJoin(line, later);
    assert held + s == s;
    ReceiveDelivers(held, s, script);
    TakesLine(line, later, Receive(held, "", s, script));
  }

  lemma NoNulJoin(line: string, later: string)
    requires NUL !in line && NUL !in later
    ensures NUL !in line + CRLF + later
  {
  }

  lemma TakesLine(line: string, later: string, r: Rx)
    requires var s := line + CRLF + later;
             Find(s) == |line| && |line| + |CRLF| < BUFFER && Right(s, r) && r.end == Outcome(s)
    ensures r.end == Returned(true) && r.buf == line && r.held == "" && r.pending == later
  {
    var s := line + CRLF + later;
    assert s[..|line|] == line && s[|line| + |CRLF|..] == later;
  }
}
