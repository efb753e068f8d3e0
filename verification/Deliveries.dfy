/** Who gets what: rename notes exactly once, NOTICE against PRIVMSG, and the NAMES
    replies read back. */
module Deliveries {
  import opened Text
  import opened Messages
  import opened Model
  import opened Invariants
  import opened Steps
  import opened Refinement

  /** What socket t was sent, in order. */
  function Inbox(out: seq<Delivery>, t: int): seq<Reply> {
    if out == [] then []
    else
      var last := out[|out| - 1];
      Inbox(out[..|out| - 1], t) + if last.sock == t then [last.reply] else []
  }

  lemma {:induction false} InboxAdd(a: seq<Delivery>, b: seq<Delivery>, t: int)
    ensures Inbox(a + b, t) == Inbox(a, t) + Inbox(b, t)
  {
    if b == [] {
      assert a + b == a;
    } else {
      InboxAdd(a, b[..|b| - 1], t);
      assert (a + b)[..|a + b| - 1] == a + b[..|b| - 1];
    }
  }

  lemma InboxOne(d: Delivery, t: int)
    ensures Inbox([d], t) == if d.sock == t then [d.reply] else []
  {
    assert [d][..0] == [];
  }

  /** Between s and s' socket t was sent exactly rs. */
  predicate Hears(s: Srv, s': Srv, t: int, rs: seq<Reply>) {
    Inbox(s'.out, t) == Inbox(s.out, t) + rs
  }

  lemma HearsSent(s: Srv, s': Srv, ds: seq<Delivery>, t: int)
    requires s'.out == s.out + ds
    ensures Hears(s, s', t, Inbox(ds, t))
  {
    InboxAdd(s.out, ds, t);
  }

  lemma HearsThen(s: Srv, s': Srv, s'': Srv, t: int, a: seq<Reply>, b: seq<Reply>)
    requires Hears(s, s', t, a) && Hears(s', s'', t, b)
    ensures Hears(s, s'', t, a + b)
  {
    RegroupThree(Inbox(s.out, t), a, b);
  }

  // ---- _sendToJoinedChannels --------------------------------------------------

  predicate Distinct(ns: seq<string>) {
    forall i, j :: 0 <= i < j < |ns| ==> ns[i] != ns[j]
  }

  /** alreadySent lists the receivers, without repetition, in the order of sending. */
  predicate SpreadOk(users: map<int, UserV>, r: Reply, a: Spread) {
    && |a.sent| == |a.out| && Distinct(a.sent)
    && forall i :: 0 <= i < |a.sent| ==>
         a.out[i].reply == r && a.out[i].sock in users && users[a.out[i].sock].nick == a.sent[i]
  }

  lemma {:induction false} SpreadMembersExact(members: map<string, int>, users: map<int, UserV>,
                                              names: seq<string>, nick: string, r: Reply, a: Spread)
    requires MembersOk(members, users) && SpreadOk(users, r, a)
    requires forall i :: 0 <= i < |names| ==> names[i] in members
    ensures var b := SpreadMembers(members, names, nick, r, a);
            SpreadOk(users, r, b) && forall n :: n in b.sent <==> n in a.sent || (n in names && n != nick)
  {
    if names != [] {
      var init, last := names[..|names| - 1], names[|names| - 1];
      SpreadMembersExact(members, users, init, nick, r, a);
      assert names == init + [last];
    }
  }

  /** n shares one of the channels ks with nick. */
  predicate Shares(channels: map<string, ChannelV>, ks: seq<string>, nick: string, n: string) {
    exists i :: 0 <= i < |ks| && ks[i] in channels
             && nick in channels[ks[i]].members && n in channels[ks[i]].members
  }

  lemma {:induction false} SpreadChannelsExact(s: Srv, ks: seq<string>, nick: string, r: Reply)
    requires Inv(s) && forall i :: 0 <= i < |ks| ==> ks[i] in s.channels
    ensures var b := SpreadChannels(s.channels, ks, nick, r);
            SpreadOk(s.users, r, b) && forall n :: n in b.sent <==> n != nick && Shares(s.channels, ks, nick, n)
  {
    if ks != [] {
      var init, last := ks[..|ks| - 1], ks[|ks| - 1];
      SpreadChannelsExact(s, init, nick, r);
      var a, members := SpreadChannels(s.channels, init, nick, r), s.channels[last].members;
      assert ChannelOk(last, s.channels[last], s.users);
      if nick in members {
        SpreadMembersExact(members, s.users, Sorted(members.Keys), nick, r, a);
      }
      forall n ensures Shares(s.channels, ks, nick, n)
                  <==> Shares(s.channels, init, nick, n) || (nick in members && n in members) {
        SharesStep(s.channels, ks, nick, n);
      }
    }
  }

  predicate Both(members: map<string, int>, nick: string, n: string) {
    nick in members && n in members
  }

  lemma SharesStep(channels: map<string, ChannelV>, ks: seq<string>, nick: string, n: string)
    requires ks != [] && ks[|ks| - 1] in channels
    ensures Shares(channels, ks, nick, n)
       <==> Shares(channels, ks[..|ks| - 1], nick, n) || Both(channels[ks[|ks| - 1]].members, nick, n)
  {
    var init := ks[..|ks| - 1];
    if Shares(channels, init, nick, n) {
      var i :| 0 <= i < |init| && init[i] in channels && nick in channels[init[i]].members && n in channels[init[i]].members;
      assert ks[i] == init[i];
    }
    if Shares(channels, ks, nick, n) {
      var i :| 0 <= i < |ks| && ks[i] in channels && nick in channels[ks[i]].members && n in channels[ks[i]].members;
      assert i < |init| ==> init[i] == ks[i];
    }
  }

  lemma {:induction false} InboxOfSpread(users: map<int, UserV>, r: Reply, a: Spread, t: int)
    requires UsersOk(users) && SpreadOk(users, r, a) && t in users && users[t].nick != ""
    ensures Inbox(a.out, t) == if users[t].nick in a.sent then [r] else []
    decreases |a.out|
  {
    if a.out != [] {
      var n := |a.out| - 1;
      var init := Spread(a.sent[..n], a.out[..n]);
      InitOfSpread(users, r, a, init);
      InboxOfSpread(users, r, init, t);
      LastOfSpread(users, r, a, n, t);
    }
  }

  lemma InitOfSpread(users: map<int, UserV>, r: Reply, a: Spread, init: Spread)
    requires SpreadOk(users, r, a) && a.out != []
    requires init == Spread(a.sent[..|a.out| - 1], a.out[..|a.out| - 1])
    ensures SpreadOk(users, r, init)
  {
  }

  lemma LastOfSpread(users: map<int, UserV>, r: Reply, a: Spread, n: nat, t: int)
    requires UsersOk(users) && SpreadOk(users, r, a) && n == |a.out| - 1 && t in users && users[t].nick != ""
    ensures a.out[n].reply == r && (a.out[n].sock == t <==> a.sent[n] == users[t].nick)
    ensures users[t].nick in a.sent <==> users[t].nick in a.sent[..n] || a.sent[n] == users[t].nick
    ensures a.sent[n] !in a.sent[..n]
  {
    assert a.sent == a.sent[..n] + [a.sent[n]];
    assert a.out[n].sock in users && users[a.out[n].sock].nick == a.sent[n];
  }

  lemma {:induction false} NothingToStrangers(users: map<int, UserV>, r: Reply, a: Spread, t: int)
    requires SpreadOk(users, r, a) && (t !in users || users[t].nick !in a.sent)
    ensures Inbox(a.out, t) == []
    decreases |a.out|
  {
    if a.out != [] {
      var n := |a.out| - 1;
      var init := Spread(a.sent[..n], a.out[..n]);
      assert a.sent == init.sent + [a.sent[n]];
      NothingToStrangers(users, r, init, t);
      assert a.out[n].sock in users && users[a.out[n].sock].nick == a.sent[n];
    }
  }

  /** Two sockets share a channel. */
  predicate ShareChannel(s: Srv, t: int, t': int) {
    exists k :: k in s.channels && (t, k) in Rel(s) && (t', k) in Rel(s)
  }

  lemma SharesIsShareChannel(s: Srv, t: int, t': int)
    requires Inv(s) && t in s.users && t' in s.users
    ensures Shares(s.channels, Sorted(s.channels.Keys), s.users[t].nick, s.users[t'].nick) <==> ShareChannel(s, t, t')
  {
    var ks := Sorted(s.channels.Keys);
    if ShareChannel(s, t, t') {
      var k :| k in s.channels && (t, k) in Rel(s) && (t', k) in Rel(s);
      InRel(s, t, k);
      InRel(s, t', k);
      assert k in ks;
    }
    if Shares(s.channels, ks, s.users[t].nick, s.users[t'].nick) {
      var i :| 0 <= i < |ks| && ks[i] in s.channels && s.users[t].nick in s.channels[ks[i]].members
            && s.users[t'].nick in s.channels[ks[i]].members;
      InRel(s, t, ks[i]);
      InRel(s, t', ks[i]);
    }
  }

  /** One copy to every other user sharing a channel with t, none to t, none to anyone
      else, however many channels overlap. */
  lemma SentToJoinedOnce(s: Srv, t: int, r: Reply, t': int)
    requires Inv(s) && t in s.users
    ensures var ds := SpreadChannels(s.channels, Sorted(s.channels.Keys), s.users[t].nick, r).out;
            Inbox(ds, t') == if t' != t && ShareChannel(s, t, t') then [r] else []
  {
    var ks, nick := Sorted(s.channels.Keys), s.users[t].nick;
    var a := SpreadChannels(s.channels, ks, nick, r);
    SpreadChannelsExact(s, ks, nick, r);
    if t' in s.users {
      SharesIsShareChannel(s, t, t');
    }
    if t' in s.users && s.users[t'].nick in a.sent {
      assert s.users[t'].nick != "" by {
        var i :| 0 <= i < |ks| && ks[i] in s.channels && nick in s.channels[ks[i]].members
              && s.users[t'].nick in s.channels[ks[i]].members;
        MemberIsUser(s, ks[i], s.users[t'].nick);
      }
      InboxOfSpread(s.users, r, a, t');
    } else {
      NothingToStrangers(s.users, r, a, t');
      if ShareChannel(s, t, t') {
        var k :| k in s.channels && (t, k) in Rel(s) && (t', k) in Rel(s);
        InRel(s, t', k);
        MemberIsUser(s, k, s.users[t'].nick);
        assert UserOk(s.users[t]);
      }
    }
  }

  /** Every connection affected by a rename is told exactly once: the user itself, and
      those it shares a channel with. If it is its USER that came first, it is welcomed. */
  lemma RenameSeenOnce(s: Srv, t: int, m: Msg, t': int)
    requires Inv(s) && t in s.users && s.users[t].passworded && NickAccepted(s, m)
    ensures var u, nick := s.users[t], m.params[0];
            var note := if u.nick == "" then "NICK " + nick else ":" + u.nick + " NICK :" + nick;
            Hears(s, Nick(s, t, m), t', (if t' == t || ShareChannel(s, t, t') then [Line(note)] else [])
                                        + if t' == t && u.hasUser && !u.logged then [Welcome(nick)] else [])
  {
    var nick, s' := m.params[0], Nick(s, t, m);
    var note := Line(NickLine(s.users[t].nick, nick));
    var ds := SpreadChannels(s'.channels, Sorted(s'.channels.Keys), nick, note).out;
    NickSpreads(s, t, m, note, t');
    NickOut(s, t, m);
    InboxOfRename(s, s', ds, s.users[t], t, nick, note, t', ShareChannel(s, t, t'));
    NickText(s.users[t].nick, nick);
  }

  lemma NickText(old_: string, nick: string)
    ensures NickLine(old_, nick) == if old_ == "" then "NICK " + nick else ":" + old_ + " NICK :" + nick
  {
  }

  lemma NickSpreads(s: Srv, t: int, m: Msg, note: Reply, t': int)
    requires Inv(s) && t in s.users && s.users[t].passworded && NickAccepted(s, m)
    ensures var s' := Nick(s, t, m);
            var ds := SpreadChannels(s'.channels, Sorted(s'.channels.Keys), m.params[0], note).out;
            Inbox(ds, t') == if t' != t && ShareChannel(s, t, t') then [note] else []
  {
    var s' := Nick(s, t, m);
    NickResult(s, t, m);
    NickKeepsInv(s, t, m);
    RenameKeepsRel(s, t, m);
    SentToJoinedOnce(s', t, note, t');
    SameRelSameShare(s, s', t, t');
    SameRelSameShare(s', s, t, t');
  }

  lemma InboxOfRename(s: Srv, s': Srv, ds: seq<Delivery>, u: UserV, t: int, nick: string, note: Reply, t': int, shares: bool)
    requires s'.out == s.out + (ds + [Delivery(t, note)] + NickWelcome(u, t, nick))
    requires Inbox(ds, t') == if t' != t && shares then [note] else []
    ensures Hears(s, s', t', (if t' == t || shares then [note] else [])
                             + if t' == t && u.hasUser && !u.logged then [Welcome(nick)] else [])
  {
    HearsSent(s, s', ds + [Delivery(t, note)] + NickWelcome(u, t, nick), t');
    InboxAdd(ds + [Delivery(t, note)], NickWelcome(u, t, nick), t');
    InboxAdd(ds, [Delivery(t, note)], t');
    InboxOne(Delivery(t, note), t');
    InboxOne(Delivery(t, Welcome(nick)), t');
  }

  function NickWelcome(u: UserV, t: int, nick: string): seq<Delivery> {
    if u.hasUser && !u.logged then [Delivery(t, Welcome(nick))] else []
  }

  lemma SameRelSameShare(s: Srv, s': Srv, t: int, t': int)
    requires Rel(s) == Rel(s') && forall k :: k in s.channels ==> k in s'.channels
    ensures ShareChannel(s, t, t') ==> ShareChannel(s', t, t')
  {
  }

  /** What a successful NICK sends: notes to the channels, its own, and maybe a welcome. */
  lemma NickOut(s: Srv, t: int, m: Msg)
    requires t in s.users && NickAccepted(s, m)
    ensures var s', note := Nick(s, t, m), Line(NickLine(s.users[t].nick, m.params[0]));
            var ds := SpreadChannels(s'.channels, Sorted(s'.channels.Keys), m.params[0], note).out;
            s'.out == s.out + (ds + [Delivery(t, note)] + NickWelcome(s.users[t], t, m.params[0]))
  {
    NickResult(s, t, m);
    var r, note := Rename(s, t, m.params[0]), Line(NickLine(s.users[t].nick, m.params[0]));
    var ds := SpreadChannels(r.channels, Sorted(r.channels.Keys), m.params[0], note).out;
    RenameResult(s, t, m.params[0]);
    FlagNickOut(Say(SendToJoinedChannels(r, m.params[0], note), t, note), t);
    Regroup(s.out, ds, [Delivery(t, note)], NickWelcome(s.users[t], t, m.params[0]));
  }

  lemma FlagNickOut(s: Srv, t: int)
    requires t in s.users
    ensures var s', u := FlagNick(s, t), s.users[t];
            s'.channels == s.channels && s'.out == s.out + NickWelcome(u, t, u.nick)
  {
    assert s.out + [] == s.out;
  }

  // ---- NOTICE and PRIVMSG -----------------------------------------------------

  predicate Resolves(s: Srv, n: string) {
    Taken(s, n) || n in s.channels
  }

  /** How many leading targets name a user or a channel. */
  function Resolved(s: Srv, targets: seq<string>): (j: nat)
    ensures j <= |targets|
    ensures forall i :: 0 <= i < j ==> Resolves(s, targets[i])
    ensures j < |targets| ==> !Resolves(s, targets[j])
  {
    if targets == [] || !Resolves(s, targets[0]) then 0 else 1 + Resolved(s, targets[1..])
  }

  ghost function Deliver(s: Srv, prefix: string, n: string, text: string): seq<Delivery> {
    var r := Line(RelayLine(prefix, n, text));
    if Taken(s, n) then [Delivery(SockOf(s, n), r)]
    else if n in s.channels then ToMembers(s.channels[n], r, prefix)
    else []
  }

  ghost function DeliverAll(s: Srv, prefix: string, targets: seq<string>, text: string): seq<Delivery> {
    if targets == [] then [] else Deliver(s, prefix, targets[0], text) + DeliverAll(s, prefix, targets[1..], text)
  }

  /** States that differ only in what was sent resolve and deliver alike. */
  lemma SameSock(s: Srv, s': Srv, n: string)
    requires Inv(s) && OnlySends(s, s') && n != "" && Taken(s, n)
    ensures Taken(s', n) && SockOf(s', n) == SockOf(s, n)
  {
    var t := SockOf(s, n);
    assert UserOk(s.users[t]);
    SockIsUnique(s, t);
    SockIsUnique(s', t);
  }

  predicate NonEmpty(targets: seq<string>) {
    forall i :: 0 <= i < |targets| ==> targets[i] != ""
  }

  lemma {:induction false} SameDeliverAll(s: Srv, s': Srv, prefix: string, targets: seq<string>, text: string)
    requires Inv(s) && OnlySends(s, s') && NonEmpty(targets)
    ensures Resolved(s', targets) == Resolved(s, targets)
    ensures DeliverAll(s', prefix, targets, text) == DeliverAll(s, prefix, targets, text)
  {
    if targets != [] {
      SameDeliverAll(s, s', prefix, targets[1..], text);
      assert Taken(s', targets[0]) == Taken(s, targets[0]);
      if Taken(s, targets[0]) {
        SameSock(s, s', targets[0]);
      }
    }
  }

  lemma SameDeliverPrefix(s: Srv, s': Srv, prefix: string, targets: seq<string>, text: string)
    requires Inv(s) && OnlySends(s, s') && NonEmpty(targets)
    ensures Resolved(s', targets) == Resolved(s, targets)
    ensures DeliverAll(s', prefix, targets[..Resolved(s', targets)], text)
         == DeliverAll(s, prefix, targets[..Resolved(s, targets)], text)
  {
    SameDeliverAll(s, s', prefix, targets, text);
    SameDeliverAll(s, s', prefix, targets[..Resolved(s, targets)], text);
  }

  lemma DeliverPrefix(s: Srv, prefix: string, targets: seq<string>, text: string)
    requires targets != [] && Resolves(s, targets[0])
    ensures Resolved(s, targets) == 1 + Resolved(s, targets[1..])
    ensures DeliverAll(s, prefix, targets[..Resolved(s, targets)], text)
         == Deliver(s, prefix, targets[0], text)
            + DeliverAll(s, prefix, targets[1..][..Resolved(s, targets[1..])], text)
  {
    var j := Resolved(s, targets);
    assert targets[..j][1..] == targets[1..][..j - 1];
  }

  /** One target delivered, the rest to go. */
  lemma DeliverStep(s: Srv, s': Srv, prefix: string, targets: seq<string>, text: string)
    requires Inv(s) && NonEmpty(targets) && targets != [] && Resolves(s, targets[0])
    requires OnlySends(s, s') && s'.out == s.out + Deliver(s, prefix, targets[0], text)
    ensures s'.out + DeliverAll(s', prefix, targets[1..][..Resolved(s', targets[1..])], text)
         == s.out + DeliverAll(s, prefix, targets[..Resolved(s, targets)], text)
    ensures Resolved(s, targets) == 1 + Resolved(s', targets[1..])
  {
    DeliverPrefix(s, prefix, targets, text);
    SameDeliverPrefix(s, s', prefix, targets[1..], text);
    RegroupThree(s.out, Deliver(s, prefix, targets[0], text),
                 DeliverAll(s, prefix, targets[1..][..Resolved(s, targets[1..])], text));
  }

  lemma {:induction false} NoticeEachDelivers(s: Srv, prefix: string, targets: seq<string>, text: string)
    requires Inv(s) && NonEmpty(targets)
    ensures NoticeEach(s, prefix, targets, text).out
         == s.out + DeliverAll(s, prefix, targets[..Resolved(s, targets)], text)
    decreases |targets|
  {
    if targets != [] && Resolves(s, targets[0]) {
      var s' := s.(out := s.out + Deliver(s, prefix, targets[0], text));
      DeliverStep(s, s', prefix, targets, text);
      NoticeEachDelivers(s', prefix, targets[1..], text);
    }
  }

  /** The 401 for the first target that does not resolve. */
  function NoSuchNick(s: Srv, t: int, targets: seq<string>): seq<Delivery> {
    var j := Resolved(s, targets);
    if j < |targets| then [Delivery(t, Numeric(401, [targets[j]]))] else []
  }

  lemma {:induction false} PrivmsgEachDelivers(s: Srv, t: int, prefix: string, targets: seq<string>, text: string)
    requires Inv(s) && t in s.users && NonEmpty(targets)
    ensures PrivmsgEach(s, t, prefix, targets, text).out
         == s.out + DeliverAll(s, prefix, targets[..Resolved(s, targets)], text) + NoSuchNick(s, t, targets)
    decreases |targets|
  {
    if targets != [] && Resolves(s, targets[0]) {
      var s' := s.(out := s.out + Deliver(s, prefix, targets[0], text));
      DeliverStep(s, s', prefix, targets, text);
      PrivmsgEachDelivers(s', t, prefix, targets[1..], text);
    }
  }

  lemma TargetsNonEmpty(m: Msg)
    requires Shaped(m) && m.params != []
    ensures NonEmpty(m.params[..|m.params| - 1])
  {
    var targets := m.params[..|m.params| - 1];
    forall i | 0 <= i < |targets| ensures targets[i] != "" {
      assert MiddleParam(targets[i]);
    }
  }

  /** The targets a message reaches: none when it has no text or two targets coincide,
      else the longest prefix of targets that resolve. */
  function Reached(s: Srv, m: Msg): (targets: seq<string>)
    ensures m.params == [] ==> targets == []
    ensures m.params != [] ==> targets <= m.params[..|m.params| - 1]
  {
    if |m.params| <= 1 then []
    else
      var targets := m.params[..|m.params| - 1];
      if FirstRepeat(targets, 0) < |targets| then [] else targets[..Resolved(s, targets)]
  }

  ghost function Delivered(s: Srv, m: Msg): seq<Delivery> {
    if m.params == [] then [] else DeliverAll(s, m.prefix, Reached(s, m), m.params[|m.params| - 1])
  }

  lemma NoticeDelivers(s: Srv, m: Msg)
    requires Inv(s) && Shaped(m)
    ensures Notice(s, m).out == s.out + Delivered(s, m)
  {
    if |m.params| > 1 {
      TargetsNonEmpty(m);
      NoticeEachDelivers(s, m.prefix, m.params[..|m.params| - 1], m.params[|m.params| - 1]);
    }
  }

  lemma PrivmsgDelivers(s: Srv, t: int, m: Msg)
    requires Inv(s) && t in s.users && Shaped(m)
    ensures var sent, loud := s.out + Delivered(s, m), Privmsg(s, t, m).out;
            sent <= loud && |loud| <= |sent| + 1 && (sent == loud || loud[|sent|].reply.Numeric?)
  {
    if |m.params| > 1 {
      TargetsNonEmpty(m);
      PrivmsgEachDelivers(s, t, m.prefix, m.params[..|m.params| - 1], m.params[|m.params| - 1]);
    }
  }

  /** NOTICE sends exactly what PRIVMSG would, minus its numeric reply: the text to the
      targets reached. */
  lemma NoticeIsQuietPrivmsg(s: Srv, t: int, m: Msg)
    requires Inv(s) && t in s.users && Shaped(m)
    ensures var quiet, loud := Notice(s, m).out, Privmsg(s, t, m).out;
            && quiet == s.out + Delivered(s, m)
            && quiet <= loud && |loud| <= |quiet| + 1
            && (quiet == loud || loud[|quiet|].reply.Numeric?)
  {
    NoticeDelivers(s, m);
    PrivmsgDelivers(s, t, m);
  }

  // ---- JOIN of a full channel -------------------------------------------------

  lemma {:induction false} BroadcastToAll(members: map<string, int>, names: seq<string>, r: Reply, but: string)
    requires forall i :: 0 <= i < |names| ==> names[i] in members && names[i] != but
    ensures |Broadcast(members, names, r, but)| == |names|
    ensures forall i :: 0 <= i < |names| ==> Broadcast(members, names, r, but)[i] == Delivery(members[names[i]], r)
  {
    if names != [] {
      BroadcastToAll(members, names[..|names| - 1], r, but);
    }
  }

  /** s' is s after note has gone to each member of channel k once, in key order. */
  predicate Announced(s: Srv, k: string, note: Reply, s': Srv)
    requires k in s.channels
  {
    var names, members := Sorted(s.channels[k].members.Keys), s.channels[k].members;
    && s' == s.(out := s'.out) && |s'.out| == |s.out| + |names| && s.out <= s'.out
    && forall i :: 0 <= i < |names| ==>
         names[i] in members && s'.out[|s.out| + i] == Delivery(members[names[i]], note)
  }

  /** addUser silently keeps a twelfth member out, but JOIN goes on as if it had let it in:
      all 11 members are told, and the user is none of them. */
  lemma FullChannelAnnounces(s: Srv, t: int, k: string, key: Option<string>)
    requires Inv(s) && t in s.users && s.users[t].logged && IsChannelName(k)
    requires k in s.channels && JoinPasses(s, t, k, key) && !HasRoom(s, k)
    ensures var j := JoinOne(s, t, k, key);
            j.goOn && Announced(s, k, Line(JoinLine(s.users[t].nick, k)), j.s) && (t, k) !in Rel(j.s)
    ensures |s.channels[k].members| == LIMIT + 1
  {
    var names, note := Sorted(s.channels[k].members.Keys), Line(JoinLine(s.users[t].nick, k));
    JoinFull(s, t, k, key);
    forall i | 0 <= i < |names| ensures names[i] in s.channels[k].members && names[i] != "" {
      assert names[i] in names;
      MemberIsUser(s, k, names[i]);
    }
    BroadcastToAll(s.channels[k].members, names, note, "");
    InRel(s, t, k);
    SendingKeepsRel(s, SendToChannel(s, k, note, ""));
    SentIsAnnounced(s, k, note, Broadcast(s.channels[k].members, names, note, ""), names);
  }

  lemma JoinFull(s: Srv, t: int, k: string, key: Option<string>)
    requires Inv(s) && t in s.users && k in s.channels && JoinPasses(s, t, k, key) && !HasRoom(s, k)
    ensures JoinOne(s, t, k, key) == Joined(SendToChannel(s, k, Line(JoinLine(s.users[t].nick, k)), ""), true)
    ensures |s.channels[k].members| == LIMIT + 1
  {
    assert ChannelOk(k, s.channels[k], s.users);
    assert s.channels[k := s.channels[k]] == s.channels;
  }

  lemma SentIsAnnounced(s: Srv, k: string, note: Reply, ds: seq<Delivery>, names: seq<string>)
    requires k in s.channels && names == Sorted(s.channels[k].members.Keys) && |ds| == |names|
    requires var members := s.channels[k].members;
             forall i :: 0 <= i < |names| ==> names[i] in members && ds[i] == Delivery(members[names[i]], note)
    ensures Announced(s, k, note, s.(out := s.out + ds))
  {
    var out, members := s.out + ds, s.channels[k].members;
    forall i | 0 <= i < |names| ensures names[i] in members && out[|s.out| + i] == Delivery(members[names[i]], note) {
      assert out[|s.out| + i] == ds[i];
    }
  }

  // ---- NAMES ------------------------------------------------------------------

  predicate CommaFree(ks: seq<string>) {
    forall i :: 0 <= i < |ks| ==> ks[i] != "" && ',' !in ks[i]
  }

  lemma {:induction false} SplitCommaList(ks: seq<string>, tail: string)
    requires CommaFree(ks)
    ensures Split(CommaList(ks) + tail, ',') == ks + Split(tail, ',')
  {
    if ks == [] {
      assert CommaList(ks) + tail == tail;
    } else {
      var init, last := ks[..|ks| - 1], ks[|ks| - 1];
      SplitCommaList(init, last + [','] + tail);
      Regroup(CommaList(init), last, [','], tail);
      SplitWord(last, ',', tail);
      RegroupLast(ks, Split(tail, ','));
    }
  }

  lemma {:induction false} CommaListIsBare(ks: seq<string>)
    requires AllBare(ks)
    ensures ' ' !in CommaList(ks) && ':' !in CommaList(ks)
  {
    if ks != [] {
      CommaListIsBare(ks[..|ks| - 1]);
      assert Bare(ks[|ks| - 1]);
    }
  }

  lemma {:induction false} ChannelsOfChannels(ks: seq<string>)
    requires forall i :: 0 <= i < |ks| ==> IsChannelParam(ks[i])
    ensures Channels(ks) == ks
  {
    if ks != [] {
      ChannelsOfChannels(ks[..|ks| - 1]);
    }
  }

  /** The comma list, its last comma gone, is one word that splits into the channels. */
  lemma ChannelListSplits(ks: seq<string>)
    requires ks != [] && AllBare(ks) && CommaFree(ks)
    ensures var list := CommaList(ks[..|ks| - 1]) + ks[|ks| - 1];
            Bare(list) && Commas(list) == ks
  {
    var init, last := ks[..|ks| - 1], ks[|ks| - 1];
    CommaListIsBare(init);
    assert Bare(last);
    SplitCommaList(init, last);
    SplitOne(last, ',');
    assert ks == init + [last];
    if init == [] {
      assert CommaList(init) + last == last;
    } else {
      ListHasComma(init, last);
    }
  }

  lemma ListHasComma(init: seq<string>, last: string)
    requires init != []
    ensures ',' in CommaList(init) + last
  {
    var list := CommaList(init);
    assert (list + last)[|list| - 1] == ',';
  }

  lemma NamesLineWords(ks: seq<string>, list: string)
    requires ks != [] && list == CommaList(ks[..|ks| - 1]) + ks[|ks| - 1] && Bare(list)
    ensures Split(NamesLine(ks), ' ') == ["NAMES", list] && ':' !in NamesLine(ks) && !HasPrefix(NamesLine(ks))
  {
    assert NamesLine(ks) == "NAMES" + [' '] + list;
    assert Bare("NAMES");
    TwoWords("NAMES", list);
  }

  lemma TwoWords(command: string, word: string)
    requires Bare(command) && Bare(word)
    ensures var line := command + [' '] + word;
            Split(line, ' ') == [command, word] && ':' !in line && !HasPrefix(line)
  {
    SplitWord(command, ' ', word);
    SplitOne(word, ' ');
  }

  /** The "NAMES a,b,.." line JOIN builds parses back to NAMES and exactly its channels. */
  lemma NamesLineParses(ks: seq<string>, nick: string)
    requires ks != [] && forall i :: 0 <= i < |ks| ==> IsChannelName(ks[i])
    ensures Parse(NamesLine(ks), nick) == Msg(nick, "NAMES", ks) && Channels(ks) == ks
  {
    var init, last := ks[..|ks| - 1], ks[|ks| - 1];
    var list := CommaList(init) + last;
    assert AllBare(ks) && CommaFree(ks) by {
      forall i | 0 <= i < |ks| ensures Bare(ks[i]) && ',' !in ks[i] {
        ChannelNameIsBare(ks[i]);
      }
    }
    ChannelListSplits(ks);
    NamesLineWords(ks, list);
    FromTwoWords("NAMES", list, nick);
    assert forall i :: 0 <= i < |ks| ==> IsChannelName(ks[i]);
    ChannelsOfChannels(ks);
  }

  lemma ChannelNameIsBare(k: string)
    requires IsChannelName(k)
    ensures Bare(k) && ',' !in k
  {
    forall c | c in k ensures !IsBadByte(c) {
      var i :| 0 <= i < |k| && k[i] == c;
    }
  }

  /** A name of a 353 reply read back: the nick, and whether it was marked. */
  function Unmark(p: string): (string, bool) {
    if p != "" && p[0] == '@' then (p[1..], true) else (p, false)
  }

  function Marks(names: seq<string>, chops: seq<string>): seq<string> {
    seq(|names|, i requires 0 <= i < |names| => Mark(names[i], chops))
  }

  lemma {:induction false} SplitNamesBody(names: seq<string>, chops: seq<string>, tail: string)
    requires forall i :: 0 <= i < |names| ==> IsCorrectNick(names[i])
    ensures Split(NamesBody(names, chops) + tail, ' ') == Marks(names, chops) + Split(tail, ' ')
  {
    if names == [] {
      assert NamesBody(names, chops) + tail == tail;
    } else {
      var init, last := names[..|names| - 1], names[|names| - 1];
      var mark := Mark(last, chops);
      SplitNamesBody(init, chops, mark + [' '] + tail);
      Regroup(NamesBody(init, chops), mark, [' '], tail);
      CorrectNickIsBare(last);
      SplitWord(mark, ' ', tail);
      assert Marks(names, chops)[..|init|] == Marks(init, chops);
      RegroupLast(Marks(names, chops), Split(tail, ' '));
    }
  }

  /** Splitting a 353 body on spaces and stripping "@" recovers each member exactly once,
      in key order, with the right chop mark. */
  lemma NamesBodyReadsBack(s: Srv, k: string)
    requires Inv(s) && k in s.channels
    ensures var names, chops := Sorted(s.channels[k].members.Keys), s.channels[k].chops;
            var read := Split(NamesBody(names, chops), ' ');
            && |read| == |s.channels[k].members.Keys| && Ascending(names)
            && forall i :: 0 <= i < |read| ==> Unmark(read[i]) == (names[i], names[i] in chops)
  {
    var names, chops := Sorted(s.channels[k].members.Keys), s.channels[k].chops;
    forall i | 0 <= i < |names| ensures IsCorrectNick(names[i]) && names[i][0] != '@' {
      assert names[i] in names;
      MemberIsUser(s, k, names[i]);
    }
    SplitNamesBody(names, chops, "");
    assert NamesBody(names, chops) + "" == NamesBody(names, chops);
    assert Split("", ' ') == [];
    UnmarkMarks(names, chops);
    SortedAscends(s.channels[k].members.Keys);
  }

  lemma UnmarkMarks(names: seq<string>, chops: seq<string>)
    requires forall i :: 0 <= i < |names| ==> names[i] != "" && names[i][0] != '@'
    ensures forall i :: 0 <= i < |names| ==> Unmark(Marks(names, chops)[i]) == (names[i], names[i] in chops)
  {
    forall i | 0 <= i < |names| ensures Unmark(Mark(names[i], chops)) == (names[i], names[i] in chops) {
      assert ("@" + names[i])[1..] == names[i];
    }
  }
}
