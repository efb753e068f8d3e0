/** From one client through the server to the bot: what PRIVMSG relays, how it looks on
    the wire, and what the bot's parser makes of it. */
module Relay {
  import opened Text
  import opened Messages
  import opened Model
  import opened Invariants
  import opened Steps
  import opened Deliveries
  import opened Framing

  // ---- The relayed line as a printed message ----------------------------------

  lemma RelayLineIsPrinted(prefix: string, target: string, text: string)
    ensures RelayLine(prefix, target, text) == PrintLine([prefix, "PRIVMSG"] + [target], text)
  {
    SpacedThree(prefix, "PRIVMSG", target);
    assert [prefix, "PRIVMSG"] + [target] == [prefix, "PRIVMSG", target];
    assert " PRIVMSG " == " " + "PRIVMSG" + " " && " :" == " " + ":";
  }

  /** Whoever reads a relayed line parses the sender's prefix, PRIVMSG, and exactly the
      target and the text. */
  lemma RelayParses(m: Msg, target: string, reader: string)
    requires Shaped(m) && m.prefix != "" && m.params != [] && MiddleParam(target)
    ensures var line, text := RelayLine(m.prefix, target, m.params[|m.params| - 1]), m.params[|m.params| - 1];
            Parsable(line) && Parse(line, reader) == Msg(m.prefix, "PRIVMSG", [target, text])
  {
    var text := m.params[|m.params| - 1];
    assert Bare("PRIVMSG") && AllMiddle([target]);
    RelayLineIsPrinted(m.prefix, target, text);
    ParsePrintedMessage(m.prefix, "PRIVMSG", [target], text, reader);
  }

  // ---- What PRIVMSG puts on the log -------------------------------------------

  predicate IsRelay(d: Delivery, m: Msg, target: string)
    requires m.params != []
  {
    d.reply == Line(RelayLine(m.prefix, target, m.params[|m.params| - 1]))
  }

  predicate AllRelays(ds: seq<Delivery>, prefix: string, targets: seq<string>, text: string) {
    forall i :: 0 <= i < |ds| ==> exists j :: 0 <= j < |targets| && ds[i].reply == Line(RelayLine(prefix, targets[j], text))
  }

  lemma {:induction false} BroadcastSays(members: map<string, int>, names: seq<string>, r: Reply, but: string)
    requires forall i :: 0 <= i < |names| ==> names[i] in members
    ensures forall i :: 0 <= i < |Broadcast(members, names, r, but)| ==> Broadcast(members, names, r, but)[i].reply == r
  {
    if names != [] {
      BroadcastSays(members, names[..|names| - 1], r, but);
    }
  }

  lemma {:induction false} DeliverAllRelays(s: Srv, prefix: string, targets: seq<string>, text: string)
    ensures AllRelays(DeliverAll(s, prefix, targets, text), prefix, targets, text)
  {
    if targets != [] {
      var n, rest := targets[0], targets[1..];
      var r := Line(RelayLine(prefix, n, text));
      DeliverAllRelays(s, prefix, rest, text);
      if n in s.channels {
        BroadcastSays(s.channels[n].members, Sorted(s.channels[n].members.Keys), r, prefix);
      }
      var first, later := Deliver(s, prefix, n, text), DeliverAll(s, prefix, rest, text);
      assert targets[0] == n;
      forall i | 0 <= i < |later|
        ensures exists j :: 0 <= j < |targets| && later[i].reply == Line(RelayLine(prefix, targets[j], text))
      {
        var j :| 0 <= j < |rest| && later[i].reply == Line(RelayLine(prefix, rest[j], text));
        assert targets[j + 1] == rest[j];
      }
    }
  }

  /** A text among what was sent is one of the deliveries, not the numeric reply after them. */
  lemma TextIsEarly(out: seq<Delivery>, ds: seq<Delivery>, loud: seq<Delivery>, i: nat)
    requires var sent := out + ds; sent <= loud && |loud| <= |sent| + 1 && (sent == loud || loud[|sent|].reply.Numeric?)
    requires |out| <= i < |loud| && loud[i].reply.Line?
    ensures i - |out| < |ds| && loud[i] == ds[i - |out|]
  {
    assert i < |out + ds| ==> loud[i] == (out + ds)[i];
  }

  lemma DeliveredIsRelay(s: Srv, m: Msg, i: nat)
    requires i < |Delivered(s, m)|
    ensures |m.params| > 1
    ensures exists j :: 0 <= j < |m.params| - 1 && IsRelay(Delivered(s, m)[i], m, m.params[j])
  {
    var targets, text := Reached(s, m), m.params[|m.params| - 1];
    DeliverAllRelays(s, m.prefix, targets, text);
    var j :| 0 <= j < |targets| && Delivered(s, m)[i].reply == Line(RelayLine(m.prefix, targets[j], text));
    assert targets[j] == m.params[j];
  }

  /** Every line a PRIVMSG sends is the relay of its text to one of its targets. */
  lemma PrivmsgRelays(s: Srv, t: int, m: Msg, i: nat)
    requires Inv(s) && t in s.users && Shaped(m)
    requires |s.out| <= i < |Privmsg(s, t, m).out| && Privmsg(s, t, m).out[i].reply.Line?
    ensures |m.params| > 1
    ensures exists j :: 0 <= j < |m.params| - 1 && IsRelay(Privmsg(s, t, m).out[i], m, m.params[j])
  {
    PrivmsgDelivers(s, t, m);
    TextIsRelay(s, m, Privmsg(s, t, m).out, i);
  }

  lemma TextIsRelay(s: Srv, m: Msg, loud: seq<Delivery>, i: nat)
    requires var sent := s.out + Delivered(s, m);
             sent <= loud && |loud| <= |sent| + 1 && (sent == loud || loud[|sent|].reply.Numeric?)
    requires |s.out| <= i < |loud| && loud[i].reply.Line?
    ensures |m.params| > 1
    ensures exists j :: 0 <= j < |m.params| - 1 && IsRelay(loud[i], m, m.params[j])
  {
    TextIsEarly(s.out, Delivered(s, m), loud, i);
    DeliveredIsRelay(s, m, i - |s.out|);
  }

  // ---- CR LF and NUL in what is relayed ---------------------------------------

  /** Fit for the wire: no CR LF, no NUL. */
  predicate Clean(s: string) {
    Find(s) < 0 && NUL !in s
  }

  predicate AllClean(ws: seq<string>) {
    forall i :: 0 <= i < |ws| ==> Clean(ws[i])
  }

  lemma {:induction false} SplitIsClean(s: string, d: char)
    requires Clean(s)
    ensures AllClean(Split(s, d))
  {
    if s != "" {
      var i := IndexOf(s, d);
      FindInPrefix(s, i);
      if i < |s| {
        assert s == s[..i + 1] + s[i + 1..];
        FindInSuffix(s[..i + 1], s[i + 1..]);
        SplitIsClean(s[i + 1..], d);
      }
    }
  }

  lemma {:induction false} FlattenIsClean(words: seq<string>)
    requires AllClean(words)
    ensures AllClean(Flatten(words))
  {
    if words != [] {
      FlattenIsClean(words[..|words| - 1]);
      SplitIsClean(words[|words| - 1], ',');
    }
  }

  /** CR and LF of s with nothing but colons between them. */
  ghost predicate JoinsCrlf(s: string) {
    exists i, j :: IsSeam(s, i, j)
  }

  predicate IsSeam(s: string, i: int, j: int) {
    0 <= i < j < |s| && s[i] == '\r' && s[j] == '\n' && forall k :: i < k < j ==> s[k] == ':'
  }

  function DropColons(s: string): string {
    if s == "" then ""
    else if s[0] == ':' then DropColons(s[1..])
    else [s[0]] + DropColons(s[1..])
  }

  /** The part of a line the parser makes the last parameter of: from the colon after the
      first piece on. */
  function TextPart(line: string): string {
    if line == "" then ""
    else if line[0] == ':' then TextPart(line[1..])
    else line[IndexOf(line, ':')..]
  }

  lemma {:induction false} ConcatFront(piece: string, rest: seq<string>)
    ensures Concat([piece] + rest) == piece + Concat(rest)
  {
    var all := [piece] + rest;
    if rest == [] {
      ConcatOneOf(piece);
      assert all == [piece];
    } else {
      ConcatFront(piece, rest[..|rest| - 1]);
      assert all[..|all| - 1] == [piece] + rest[..|rest| - 1];
      RegroupThree(piece, Concat(rest[..|rest| - 1]), rest[|rest| - 1]);
    }
  }

  lemma ConcatOneOf(piece: string)
    ensures Concat([piece]) == piece
  {
    assert [piece][..0] == [];
    assert Concat([piece]) == Concat([piece][..0]) + piece;
  }

  lemma {:induction false} DropNone(a: string, b: string)
    requires ':' !in a
    ensures DropColons(a + b) == a + DropColons(b)
  {
    if a == "" {
      assert a + b == b;
    } else {
      DropNone(a[1..], b);
      assert (a + b)[1..] == a[1..] + b;
    }
  }

  lemma ConcatPush(piece: string, rest: seq<string>)
    ensures Concat(Push(piece, rest)) == piece + Concat(rest)
  {
    if piece != "" {
      ConcatFront(piece, rest);
    }
  }

  lemma DropAt(s: string, i: nat)
    requires i < |s| && s[i] == ':' && ':' !in s[..i]
    ensures DropColons(s) == s[..i] + DropColons(s[i + 1..])
  {
    assert s == s[..i] + s[i..] && s[i..][1..] == s[i + 1..];
    DropNone(s[..i], s[i..]);
  }

  lemma DropFree(s: string)
    requires ':' !in s
    ensures DropColons(s) == s
  {
    DropNone(s, "");
    assert s + "" == s;
  }

  lemma {:induction false} ConcatSplitDrops(s: string)
    ensures Concat(Split(s, ':')) == DropColons(s)
  {
    if s != "" {
      var i := IndexOf(s, ':');
      if i < |s| {
        ConcatPush(s[..i], Split(s[i + 1..], ':'));
        ConcatSplitDrops(s[i + 1..]);
        DropAt(s, i);
      } else {
        assert s[..i] == s;
        ConcatFree(s);
      }
    }
  }

  lemma ConcatFree(s: string)
    requires ':' !in s && s != ""
    ensures Concat(Split(s, ':')) == DropColons(s)
  {
    DropFree(s);
    SplitOne(s, ':');
    ConcatOne(s);
  }

  lemma {:induction false} TextIsDropped(line: string)
    requires Split(line, ':') != []
    ensures Concat(Split(line, ':')[1..]) == DropColons(TextPart(line))
  {
    var i := IndexOf(line, ':');
    if i == 0 {
      TextIsDropped(line[1..]);
    } else if i < |line| {
      assert Split(line, ':')[1..] == Split(line[i + 1..], ':');
      ConcatSplitDrops(line[i + 1..]);
      assert line[i..][1..] == line[i + 1..];
    } else {
      assert Split(line, ':')[1..] == [];
      assert line[i..] == "";
    }
  }

  /** Dropping the colons brings a CR and an LF together exactly at a seam. */
  lemma {:induction false} DropJoins(s: string)
    ensures Find(DropColons(s)) >= 0 <==> JoinsCrlf(s)
  {
    FindIsFirst(DropColons(s));
    if s != "" {
      var rest := DropColons(s[1..]);
      DropJoins(s[1..]);
      FindIsFirst(rest);
      SeamOrLater(s);
      if s[0] != ':' {
        HeadSeam(s[1..]);
        FindCons(s[0], rest);
      }
    }
  }

  lemma FindCons(c: char, rest: string)
    ensures Find([c] + rest) >= 0 <==> Find(rest) >= 0 || (c == '\r' && rest != "" && rest[0] == '\n')
  {
    assert ([c] + rest)[1..] == rest;
  }

  predicate LfAt(s: string, j: int) {
    0 <= j < |s| && s[j] == '\n' && forall k :: 0 <= k < j ==> s[k] == ':'
  }

  /** The first byte of s that is not a colon is an LF. */
  ghost predicate LfNext(s: string) {
    exists j :: LfAt(s, j)
  }

  lemma {:induction false} HeadSeam(s: string)
    ensures LfNext(s) <==> DropColons(s) != "" && DropColons(s)[0] == '\n'
  {
    if s != "" {
      assert LfAt(s, 0) <==> s[0] == '\n';
      if s[0] == ':' {
        HeadSeam(s[1..]);
        LfShift(s);
      }
    }
  }

  lemma LfShift(s: string)
    requires s != "" && s[0] == ':'
    ensures LfNext(s) <==> LfNext(s[1..])
  {
    forall j ensures LfAt(s, j + 1) <==> LfAt(s[1..], j) {
      if LfAt(s[1..], j) {
        forall k | 0 < k < j + 1 ensures s[k] == ':' { assert s[1..][k - 1] == ':'; }
      }
    }
    if LfNext(s) {
      var j :| LfAt(s, j);
      assert LfAt(s, j - 1 + 1);
      assert LfAt(s[1..], j - 1);
    }
    if LfNext(s[1..]) {
      var j :| LfAt(s[1..], j);
      assert LfAt(s, j + 1);
    }
  }

  lemma SeamOrLater(s: string)
    requires s != ""
    ensures JoinsCrlf(s) <==> JoinsCrlf(s[1..]) || (s[0] == '\r' && LfNext(s[1..]))
  {
    if JoinsCrlf(s[1..]) {
      var i, j :| IsSeam(s[1..], i, j);
      forall k | i + 1 < k < j + 1 ensures s[k] == ':' { assert s[1..][k - 1] == ':'; }
      assert IsSeam(s, i + 1, j + 1);
    }
    if s[0] == '\r' && LfNext(s[1..]) {
      var j :| LfAt(s[1..], j);
      forall k | 0 < k < j + 1 ensures s[k] == ':' { assert s[1..][k - 1] == ':'; }
      assert IsSeam(s, 0, j + 1);
    }
    if JoinsCrlf(s) {
      var i, j :| IsSeam(s, i, j);
      if i > 0 {
        assert IsSeam(s[1..], i - 1, j - 1);
      } else {
        assert LfAt(s[1..], j - 1);
      }
    }
  }

  lemma CleanJoin(a: string, b: string)
    requires Clean(a) && NUL !in b && !Torn(a, b)
    ensures Find(a + b) < 0 <==> Find(b) < 0
    ensures Clean(b) ==> Clean(a + b)
  {
    FindAfter(a, b);
  }

  function RelayHead(prefix: string, target: string): string {
    ":" + prefix + " PRIVMSG " + target + " :"
  }

  lemma RelayHeadIsClean(prefix: string, target: string)
    requires Clean(prefix) && Clean(target)
    ensures Clean(RelayHead(prefix, target))
  {
    CleanJoin(":", prefix);
    CleanJoin(":" + prefix, " PRIVMSG ");
    CleanJoin(":" + prefix + " PRIVMSG ", target);
    CleanJoin(":" + prefix + " PRIVMSG " + target, " :");
  }

  lemma RelayLineClean(prefix: string, target: string, text: string)
    requires Clean(prefix) && Clean(target) && NUL !in text
    ensures Clean(RelayLine(prefix, target, text)) <==> Find(text) < 0
  {
    RelayHeadIsClean(prefix, target);
    CleanJoin(RelayHead(prefix, target), text);
    assert RelayLine(prefix, target, text) == RelayHead(prefix, target) + text;
  }

  lemma FromWordsClean(words: seq<string>, hasPrefix: bool, nick: string)
    requires AllClean(words) && Clean(nick)
    ensures var m := FromWords(words, hasPrefix, nick); Clean(m.prefix) && AllClean(m.params)
  {
    var k := if hasPrefix then 1 else 0;
    if |words| > k + 1 {
      FlattenIsClean(words[k + 1..]);
    }
  }

  /** Whether removing the colons of a client's line splices a CR LF into its text. */
  ghost predicate Splices(line: string) {
    ':' in line && JoinsCrlf(TextPart(line))
  }

  /** Prefix and targets of a clean line are clean; its text is, unless colons were all
      that kept a CR from an LF. */
  lemma ParseClean(line: string, nick: string)
    requires Clean(line) && Parsable(line) && Clean(nick) && Parse(line, nick).params != []
    ensures var m := Parse(line, nick);
            && Clean(m.prefix) && AllClean(m.params[..|m.params| - 1])
            && NUL !in m.params[|m.params| - 1]
            && (Find(m.params[|m.params| - 1]) < 0 <==> !Splices(line))
  {
    if ':' in line {
      var parts := Split(line, ':');
      SplitFindsPiece(line, ':');
      SplitIsClean(line, ':');
      SplitIsClean(parts[0], ' ');
      FromWordsClean(Split(parts[0], ' '), HasPrefix(line), nick);
      ConcatHasNone(parts[1..], NUL);
      TextIsDropped(line);
      DropJoins(TextPart(line));
      var m := FromWords(Split(parts[0], ' '), HasPrefix(line), nick);
      assert (m.params + [Concat(parts[1..])])[..|m.params|] == m.params;
    } else {
      SplitIsClean(line, ' ');
      FromWordsClean(Split(line, ' '), HasPrefix(line), nick);
    }
  }

  // ---- End to end -------------------------------------------------------------

  /** A clean line from a logged-in client, and what it parses to, is a PRIVMSG. */
  ghost predicate IsPrivmsg(s: Srv, t: int, line: string) {
    && Inv(s) && t in s.users && Present(s, t) && Clean(line) && Parsable(line)
    && ToUpper(MessageOf(s, t, line).command) == "PRIVMSG"
  }

  lemma PrivmsgStep(s: Srv, t: int, line: string)
    requires IsPrivmsg(s, t, line)
    ensures Enabled(s, Input(t, line)) && Step(s, Input(t, line)) == Privmsg(s, t, MessageOf(s, t, line))
  {
    assert s.users[t := s.users[t]] == s.users;
    PresentStep(s, t, line);
  }

  /** What the server relays of a client's PRIVMSG to one target, read by the bot. */
  predicate BotReads(m: Msg, target: string, line: string)
    requires m.params != []
  {
    Parsable(line) && Parse(line, "bot") == Msg(m.prefix, "PRIVMSG", [target, m.params[|m.params| - 1]])
  }

  lemma RelayedLine(s: Srv, t: int, line: string, i: nat) returns (j: nat)
    requires IsPrivmsg(s, t, line)
    requires var out := Step(s, Input(t, line)).out; |s.out| <= i < |out| && out[i].reply.Line?
    ensures var m, l := MessageOf(s, t, line), Step(s, Input(t, line)).out[i].reply.line;
            && j < |m.params| - 1
            && l == RelayLine(m.prefix, m.params[j], m.params[|m.params| - 1])
            && BotReads(m, m.params[j], l)
            && NUL !in l && |l| != 1
            && (Find(l) < 0 <==> !Splices(line))
  {
    var m := MessageOf(s, t, line);
    PrivmsgStep(s, t, line);
    InputIsShaped(s, t, line);
    PrivmsgRelays(s, t, m, i);
    j :| 0 <= j < |m.params| - 1 && IsRelay(Privmsg(s, t, m).out[i], m, m.params[j]);
    RelayOfInput(s, t, line, m.params[j], j);
  }

  lemma NickIsClean(s: Srv, t: int)
    requires Inv(s) && t in s.users
    ensures Clean(s.users[t].nick)
  {
    var nick := s.users[t].nick;
    assert UserOk(s.users[t]);
    FindIsFirst(nick);
    if nick != "" {
      forall k | 0 <= k < |nick| ensures IsNickChar(nick[k]) {
        assert IsLetter(nick[0]);
      }
    }
  }

  lemma RelayOfInput(s: Srv, t: int, line: string, target: string, j: nat)
    requires IsPrivmsg(s, t, line)
    requires var m := MessageOf(s, t, line); j < |m.params| - 1 && target == m.params[j]
    ensures var m := MessageOf(s, t, line);
            var l := RelayLine(m.prefix, target, m.params[|m.params| - 1]);
            BotReads(m, target, l) && NUL !in l && |l| != 1 && (Find(l) < 0 <==> !Splices(line))
  {
    var m := MessageOf(s, t, line);
    var n := |m.params| - 1;
    InputIsShaped(s, t, line);
    assert UserOk(s.users[t]);
    assert m.params[..n][j] == target;
    assert MiddleParam(target);
    RelayParses(m, target, "bot");
    NickIsClean(s, t);
    ParseClean(line, s.users[t].nick);
    assert Clean(target);
    RelayLineClean(m.prefix, target, m.params[n]);
    RelayHeadIsClean(m.prefix, target);
    assert RelayLine(m.prefix, target, m.params[n]) == RelayHead(m.prefix, target) + m.params[n];
  }

  /** A line with a CR LF inside does not come back whole: it is cut at the first one. */
  lemma SplicedLineIsCut(line: string, sendScript: seq<Kernel>, later: string, recvScript: seq<Kernel>)
    requires 0 <= Find(line) && Find(line) + |CRLF| < BUFFER && NUL !in line
    requires Carriers(line, sendScript, later, recvScript)
    ensures var r := Carry(line, sendScript, later, recvScript);
            r.end == Returned(true) && r.buf == line[..Find(line)]
  {
    WireIsFrame(line, sendScript);
    CutArrives("", line, Frame(line) + later, later, recvScript);
  }

  lemma CutArrives(held: string, line: string, s: string, later: string, script: seq<Kernel>)
    requires held == "" && 0 <= Find(line) && Find(line) + |CRLF| < BUFFER && NUL !in s
    requires s == Frame(line) + later && Willing(script, |s|) && Whole(held, "", s, script)
    ensures var r := Receive(held, "", s, script); r.end == Returned(true) && r.buf == line[..Find(line)]
  {
    FramedFirst(line, later);
    assert held + s == s;
    ReceiveDelivers(held, s, script);
  }

  lemma FramedFirst(line: string, later: string)
    requires Find(line) >= 0
    ensures var s := Frame(line) + later; Find(s) == Find(line) && s[..Find(line)] == line[..Find(line)]
  {
    var s := Frame(line) + later;
    assert s[..|line|] == line;
    FindInPrefix(s, |line|);
    assert line[..Find(line)] == s[..|line|][..Find(line)];
  }

  /** A relayed line of acceptable length is sent whole and arrives at the bot under every
      chunking that tears no pair; it arrives as the server sent it if and only if the
      client's line does not splice a CR LF into its text, and then the bot parses the
      sender's prefix, PRIVMSG and exactly target and text. */
  lemma RelayArrives(s: Srv, t: int, line: string, i: nat,
                     sendScript: seq<Kernel>, later: string, recvScript: seq<Kernel>) returns (j: nat)
    requires IsPrivmsg(s, t, line)
    requires var out := Step(s, Input(t, line)).out; |s.out| <= i < |out| && out[i].reply.Line?
    requires var l := Step(s, Input(t, line)).out[i].reply.line;
             |l| + |CRLF| < BUFFER && Carriers(l, sendScript, later, recvScript)
    ensures var m, l := MessageOf(s, t, line), Step(s, Input(t, line)).out[i].reply.line;
            var r := Carry(l, sendScript, later, recvScript);
            && SendFrom(Frame(l), 0, "", sendScript).end.Sent? && r.end == Returned(true)
            && (r.buf == l <==> !Splices(line))
            && j < |m.params| - 1
            && (!Splices(line) ==> r.pending == later && BotReads(m, m.params[j], r.buf))
  {
    j := RelayedLine(s, t, line, i);
    var l := Step(s, Input(t, line)).out[i].reply.line;
    if Splices(line) {
      SplicedLineIsCut(l, sendScript, later, recvScript);
      WireIsFrame(l, sendScript);
    } else {
      SentLineIsReceived(l, sendScript, later, recvScript);
    }
  }

  // ---- Lines that splice ------------------------------------------------------

  /** A clean line that is spliced when it is relayed: `a\r:\nb` to one target. */
  function SplicingLine(target: string, a: string, b: string): string {
    SplicingHead(target) + ":" + (a + "\r" + (":" + ("\n" + b)))
  }

  function SplicingHead(target: string): string {
    "PRIVMSG" + " " + target + " "
  }

  predicate MaySplice(target: string, a: string, b: string) {
    && Bare(target) && ',' !in target && Clean(target)
    && Clean(a) && ':' !in a && Clean(b) && ':' !in b
  }

  lemma SplicingIsClean(target: string, a: string, b: string)
    requires MaySplice(target, a, b)
    ensures Clean(SplicingLine(target, a, b))
  {
    var head := SplicingHead(target);
    NoCr("PRIVMSG" + " ");
    CleanJoin("PRIVMSG" + " ", target);
    CleanJoin("PRIVMSG" + " " + target, " ");
    CleanJoin(head, ":");
    CleanJoin(a, "\r");
    CleanJoin("\n", b);
    CleanJoin(":", "\n" + b);
    CleanJoin(a + "\r", ":" + ("\n" + b));
    CleanJoin(head + ":", a + "\r" + (":" + ("\n" + b)));
  }

  lemma NoCr(s: string)
    requires '\r' !in s
    ensures Find(s) < 0
  {
    FindIsFirst(s);
  }

  lemma HeadHasNoColon(target: string)
    requires Bare(target)
    ensures ':' !in SplicingHead(target) && SplicingHead(target) != ""
  {
  }

  lemma SplicingSplices(target: string, a: string, b: string)
    requires MaySplice(target, a, b)
    ensures Splices(SplicingLine(target, a, b))
  {
    var head, tail := SplicingHead(target), ":" + (a + "\r" + (":" + ("\n" + b)));
    HeadHasNoColon(target);
    TextFrom(head, tail);
    assert SplicingLine(target, a, b) == head + tail;
    SeamIn(tail, |a| + 1);
  }

  lemma TextFrom(head: string, tail: string)
    requires head != "" && ':' !in head && tail != "" && tail[0] == ':'
    ensures TextPart(head + tail) == tail && ':' in head + tail
  {
    IndexOfIs(head + tail, ':', |head|);
    assert (head + tail)[|head|] == ':' && (head + tail)[|head|] in head + tail;
  }

  lemma SeamIn(s: string, i: nat)
    requires i + 2 < |s| && s[i] == '\r' && s[i + 1] == ':' && s[i + 2] == '\n'
    ensures JoinsCrlf(s)
  {
    assert IsSeam(s, i, i + 2);
  }

  lemma SplicingSplits(target: string, a: string, b: string)
    requires MaySplice(target, a, b)
    ensures Split(SplicingLine(target, a, b), ':') == [SplicingHead(target)] + ([a + "\r"] + ["\n" + b])
  {
    var head, cr, lf := SplicingHead(target), a + "\r", "\n" + b;
    HeadHasNoColon(target);
    assert SplicingLine(target, a, b) == head + [':'] + (cr + [':'] + lf);
    SplitWord(head, ':', cr + [':'] + lf);
    SplitWord(cr, ':', lf);
    SplitOne(lf, ':');
  }

  lemma SplicingText(a: string, b: string)
    ensures Concat([a + "\r"] + ["\n" + b]) == a + CRLF + b
  {
    ConcatFront(a + "\r", ["\n" + b]);
    ConcatOneOf("\n" + b);
  }

  lemma SplicingWords(target: string, nick: string)
    requires Bare(target) && ',' !in target
    ensures FromWords(Split(SplicingHead(target), ' '), false, nick) == Msg(nick, "PRIVMSG", [target])
  {
    var words := ["PRIVMSG", target];
    SpacedTwo("PRIVMSG", target);
    assert Bare("PRIVMSG") && AllBare(words);
    SplitSpaced(words);
    FromTwoWords("PRIVMSG", target, nick);
  }

  /** The parser drops the colon, and the text it hands on has a CR LF. */
  lemma SplicingParses(target: string, a: string, b: string, nick: string)
    requires MaySplice(target, a, b)
    ensures Parsable(SplicingLine(target, a, b))
    ensures Parse(SplicingLine(target, a, b), nick) == Msg(nick, "PRIVMSG", [target, a + CRLF + b])
  {
    var line, texts := SplicingLine(target, a, b), [a + "\r"] + ["\n" + b];
    SplicingSplices(target, a, b);
    assert line[0] == 'P' && line[0] in line;
    SplicingSplits(target, a, b);
    SplicingWords(target, nick);
    SplicingText(a, b);
    HeadFirst(SplicingHead(target), texts);
  }

  lemma HeadFirst(head: string, texts: seq<string>)
    ensures ([head] + texts)[0] == head && ([head] + texts)[1..] == texts
  {
  }

  lemma CutAt(nick: string, target: string, a: string, b: string)
    requires Clean(nick) && Clean(target) && Clean(a)
    ensures var l := RelayLine(nick, target, a + CRLF + b); Find(l) >= 0 && l[..Find(l)] == RelayLine(nick, target, a)
  {
    var head := RelayHead(nick, target);
    RelayLineClean(nick, target, a);
    FirstLine(head + a, b);
    assert RelayLine(nick, target, a) == head + a;
    assert RelayLine(nick, target, a + CRLF + b) == head + (a + CRLF + b);
    Regroup(head, a, CRLF, b);
    assert (head + a + CRLF + b)[..|head + a|] == head + a;
  }

  /** Any logged-in user may send such a line: it is clean, it is a PRIVMSG, it splices. */
  lemma SplicingIsPrivmsg(s: Srv, t: int, target: string, a: string, b: string)
    requires Inv(s) && t in s.users && Present(s, t) && MaySplice(target, a, b)
    ensures var line := SplicingLine(target, a, b);
            && IsPrivmsg(s, t, line) && Splices(line)
            && MessageOf(s, t, line) == Msg(s.users[t].nick, "PRIVMSG", [target, a + CRLF + b])
  {
    SplicingIsClean(target, a, b);
    SplicingSplices(target, a, b);
    SplicingParses(target, a, b, s.users[t].nick);
    PrivmsgIsUpper();
    CommandDecides(s, t, SplicingLine(target, a, b));
  }

  lemma PrivmsgIsUpper()
    ensures ToUpper("PRIVMSG") == "PRIVMSG"
  {
  }

  lemma CommandDecides(s: Srv, t: int, line: string)
    requires Inv(s) && t in s.users && Present(s, t) && Clean(line) && Parsable(line)
    requires var command := MessageOf(s, t, line).command; ToUpper(command) == command == "PRIVMSG"
    ensures IsPrivmsg(s, t, line)
  {
  }

  /** What the bot gets of its relay is the relay of a alone: b has become another line. */
  lemma SplicingIsCut(nick: string, target: string, a: string, b: string,
                      sendScript: seq<Kernel>, later: string, recvScript: seq<Kernel>)
    requires Clean(nick) && MaySplice(target, a, b)
    requires var l := RelayLine(nick, target, a + CRLF + b);
             |l| + |CRLF| < BUFFER && Carriers(l, sendScript, later, recvScript)
    ensures var r := Carry(RelayLine(nick, target, a + CRLF + b), sendScript, later, recvScript);
            r.end == Returned(true) && r.buf == RelayLine(nick, target, a)
  {
    var l := RelayLine(nick, target, a + CRLF + b);
    CutAt(nick, target, a, b);
    assert l == RelayHead(nick, target) + (a + CRLF + b);
    RelayHeadIsClean(nick, target);
    SplicedLineIsCut(l, sendScript, later, recvScript);
  }

  lemma SplicingExample()
    ensures MaySplice("x", "a", "b") && SplicingLine("x", "a", "b") == "PRIVMSG x :a\r:\nb"
  {
  }
}
