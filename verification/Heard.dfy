/** What every connection hears of every event: for each command the lines and numerics due
    to each socket, in terms of who is in a channel with whom, and the proof that exactly
    these are sent. */
module Heard {
  import opened Text
  import opened Messages
  import opened Model
  import opened Invariants
  import opened Steps
  import opened Refinement
  import opened Deliveries

  // ---- One reply, one channel -------------------------------------------------

  /** A reply to socket t alone, as t' hears it. */
  function Only(t: int, t': int, r: Reply): seq<Reply> {
    if t' == t then [r] else []
  }

  lemma SayHeard(s: Srv, t: int, r: Reply, t': int)
    ensures Hears(s, Say(s, t, r), t', Only(t, t', r))
  {
    HearsSent(s, Say(s, t, r), [Delivery(t, r)], t');
    InboxOne(Delivery(t, r), t');
  }

  lemma SortedDistinct(keys: set<string>)
    ensures Distinct(Sorted(keys))
  {
    SortedAscends(keys);
    var ks := Sorted(keys);
    forall i, j | 0 <= i < j < |ks| ensures ks[i] != ks[j] {
      LessIsTotal(ks[i], ks[j]);
    }
  }

  /** t is in channel k, under another nickname than but. */
  predicate Listens(s: Srv, t: int, k: string, but: string) {
    t in s.users && (t, k) in Rel(s) && s.users[t].nick != but
  }

  predicate Named(members: map<string, int>, users: map<int, UserV>, names: seq<string>, t: int, but: string) {
    t in users && users[t].nick in names && users[t].nick in members && members[users[t].nick] == t && users[t].nick != but
  }

  lemma {:induction false} InboxOfBroadcast(members: map<string, int>, users: map<int, UserV>, names: seq<string>,
                                            r: Reply, but: string, t: int)
    requires MembersOk(members, users) && Distinct(names) && forall i :: 0 <= i < |names| ==> names[i] in members
    ensures Inbox(Broadcast(members, names, r, but), t) == if Named(members, users, names, t, but) then [r] else []
  {
    if names != [] {
      var init, last := names[..|names| - 1], names[|names| - 1];
      InboxOfBroadcast(members, users, init, r, but, t);
      InboxAdd(Broadcast(members, init, r, but), if last == but then [] else [Delivery(members[last], r)], t);
      InboxOne(Delivery(members[last], r), t);
      NamedStep(members, users, names, t, but);
    }
  }

  lemma NamedStep(members: map<string, int>, users: map<int, UserV>, names: seq<string>, t: int, but: string)
    requires MembersOk(members, users) && Distinct(names) && names != [] && names[|names| - 1] in members
    ensures var init, last := names[..|names| - 1], names[|names| - 1];
            && (Named(members, users, names, t, but) <==>
                  Named(members, users, init, t, but) || (last != but && members[last] == t))
            && (members[last] == t ==> !Named(members, users, init, t, but))
  {
    var init, last := names[..|names| - 1], names[|names| - 1];
    assert names == init + [last];
    LastIsNew(names);
  }

  lemma LastIsNew(names: seq<string>)
    requires names != [] && Distinct(names)
    ensures names[|names| - 1] !in names[..|names| - 1]
  {
  }

  /** A message to a channel reaches each of its members but one exactly once, and nobody else. */
  lemma ChannelHears(s: Srv, k: string, r: Reply, but: string, t: int)
    requires Inv(s) && k in s.channels
    ensures Inbox(ToMembers(s.channels[k], r, but), t) == if Listens(s, t, k, but) then [r] else []
    ensures Hears(s, SendToChannel(s, k, r, but), t, if Listens(s, t, k, but) then [r] else [])
  {
    var members := s.channels[k].members;
    assert ChannelOk(k, s.channels[k], s.users);
    SortedDistinct(members.Keys);
    InboxOfBroadcast(members, s.users, Sorted(members.Keys), r, but, t);
    InRel(s, t, k);
    if t in s.users {
      MemberIsNick(s, k, t);
    }
    HearsSent(s, SendToChannel(s, k, r, but), ToMembers(s.channels[k], r, but), t);
  }

  // ---- PASS, NICK, USER, OPER -------------------------------------------------

  function PassDue(s: Srv, t: int, m: Msg, t': int): seq<Reply>
    requires t in s.users
  {
    if s.users[t].passworded then Only(t, t', Numeric(462, []))
    else if m.params == [] then Only(t, t', Numeric(461, ["PASS"]))
    else if m.params[0] == s.password then []
    else Only(t, t', Numeric(464, [if s.users[t].nick == "" then "*" else s.users[t].nick]))
  }

  lemma PassIsHeard(s: Srv, t: int, m: Msg, t': int)
    requires t in s.users
    ensures Hears(s, Pass(s, t, m), t', PassDue(s, t, m, t'))
  {
    SayHeard(s, t, Numeric(462, []), t');
    SayHeard(s, t, Numeric(461, ["PASS"]), t');
    SayHeard(s, t, Numeric(464, [if s.users[t].nick == "" then "*" else s.users[t].nick]), t');
  }

  /** The refusals of NICK, or its note to the user and to all who share a channel with it. */
  function NickDue(s: Srv, t: int, m: Msg, t': int): seq<Reply>
    requires t in s.users
  {
    var u := s.users[t];
    if !u.passworded then []
    else if m.params == [] then Only(t, t', Numeric(431, []))
    else if !IsCorrectNick(m.params[0]) then Only(t, t', Numeric(432, [m.params[0]]))
    else if Taken(s, m.params[0]) then Only(t, t', Numeric(433, [m.params[0]]))
    else
      var note := if u.nick == "" then "NICK " + m.params[0] else ":" + u.nick + " NICK :" + m.params[0];
      (if t' == t || ShareChannel(s, t, t') then [Line(note)] else [])
      + if t' == t && u.hasUser && !u.logged then [Welcome(m.params[0])] else []
  }

  lemma NickIsHeard(s: Srv, t: int, m: Msg, t': int)
    requires Inv(s) && t in s.users && s.users[t].passworded
    ensures Hears(s, Nick(s, t, m), t', NickDue(s, t, m, t'))
  {
    if NickAccepted(s, m) {
      RenameSeenOnce(s, t, m, t');
    } else {
      SayHeard(s, t, Numeric(431, []), t');
      if m.params != [] {
        SayHeard(s, t, Numeric(432, [m.params[0]]), t');
        SayHeard(s, t, Numeric(433, [m.params[0]]), t');
      }
    }
  }

  function UserDue(s: Srv, t: int, m: Msg, t': int): seq<Reply>
    requires t in s.users
  {
    var u := s.users[t];
    if !u.passworded then []
    else if |m.params| < 4 then Only(t, t', Numeric(461, ["NICK"]))
    else if u.hasUser then Only(t, t', Numeric(462, []))
    else if u.nick != "" then Only(t, t', Welcome(u.nick))
    else []
  }

  lemma UserIsHeard(s: Srv, t: int, m: Msg, t': int)
    requires Inv(s) && t in s.users && s.users[t].passworded
    ensures Hears(s, User(s, t, m), t', UserDue(s, t, m, t'))
  {
    var u := s.users[t];
    assert UserOk(u);
    SayHeard(s, t, Numeric(461, ["NICK"]), t');
    SayHeard(s, t, Numeric(462, []), t');
    SayHeard(s.(users := s.users[t := u.(hasUser := true, logged := true)]), t, Welcome(u.nick), t');
  }

  function OperDue(s: Srv, t: int, m: Msg, t': int): seq<Reply>
    requires t in s.users
  {
    var nick := s.users[t].nick;
    if |m.params| < 2 then Only(t, t', Numeric(461, [nick, "OPER"]))
    else if m.params[0] != nick then Only(t, t', Numeric(491, [nick]))
    else if m.params[1] != s.password then Only(t, t', Numeric(464, [nick]))
    else Only(t, t', Numeric(381, [nick]))
  }

  lemma OperIsHeard(s: Srv, t: int, m: Msg, t': int)
    requires t in s.users
    ensures Hears(s, Oper(s, t, m), t', OperDue(s, t, m, t'))
  {
    var nick := s.users[t].nick;
    SayHeard(s, t, Numeric(461, [nick, "OPER"]), t');
    SayHeard(s, t, Numeric(491, [nick]), t');
    SayHeard(s, t, Numeric(464, [nick]), t');
    SayHeard(s.(operators := s.operators + {nick}), t, Numeric(381, [nick]), t');
  }

  // ---- QUIT, KILL and a lost connection ---------------------------------------

  function Repeat(r: Reply, n: nat): seq<Reply> {
    seq(n, i => r)
  }

  /** The channels among ks that both sockets are in. */
  function CommonAmong(s: Srv, t: int, t': int, ks: seq<string>): set<string> {
    set k | k in ks && (t, k) in Rel(s) && (t', k) in Rel(s)
  }

  function Common(s: Srv, t: int, t': int): set<string> {
    set k | k in s.channels && (t, k) in Rel(s) && (t', k) in Rel(s)
  }

  lemma CommonGrows(s: Srv, t: int, t': int, ks: seq<string>)
    requires ks != [] && Distinct(ks)
    ensures var init, last := |CommonAmong(s, t, t', ks[..|ks| - 1])|, ks[|ks| - 1];
            |CommonAmong(s, t, t', ks)| == init + if (t, last) in Rel(s) && (t', last) in Rel(s) then 1 else 0
  {
    var init, last := ks[..|ks| - 1], ks[|ks| - 1];
    LastIsNew(ks);
    assert ks == init + [last];
    var more := if (t, last) in Rel(s) && (t', last) in Rel(s) then {last} else {};
    assert CommonAmong(s, t, t', ks) == CommonAmong(s, t, t', init) + more;
  }

  /** The QUIT line of t reaches every other socket once for each channel it shares with t. */
  lemma {:induction false} InboxOfQuitNotes(s: Srv, t: int, ks: seq<string>, r: Reply, t': int)
    requires Inv(s) && t in s.users && Distinct(ks) && forall i :: 0 <= i < |ks| ==> ks[i] in s.channels
    ensures Inbox(QuitNotes(s.channels, ks, s.users[t].nick, r), t')
         == if t' == t then [] else Repeat(r, |CommonAmong(s, t, t', ks)|)
  {
    var nick := s.users[t].nick;
    if ks == [] {
      assert CommonAmong(s, t, t', ks) == {};
    } else {
      var init, k := ks[..|ks| - 1], ks[|ks| - 1];
      var notes := if nick in s.channels[k].members then ToMembers(s.channels[k], r, nick) else [];
      InboxOfQuitNotes(s, t, init, r, t');
      InboxAdd(QuitNotes(s.channels, init, nick, r), notes, t');
      CommonGrows(s, t, t', ks);
      LastNotes(s, t, k, r, t');
      RepeatMore(r, |CommonAmong(s, t, t', init)|);
    }
  }

  lemma RepeatMore(r: Reply, n: nat)
    ensures Repeat(r, n) + [r] == Repeat(r, n + 1) && Repeat(r, n) + [] == Repeat(r, n)
  {
  }

  lemma LastNotes(s: Srv, t: int, k: string, r: Reply, t': int)
    requires Inv(s) && t in s.users && k in s.channels
    ensures var nick := s.users[t].nick;
            var notes := if nick in s.channels[k].members then ToMembers(s.channels[k], r, nick) else [];
            Inbox(notes, t') == if t' != t && (t, k) in Rel(s) && (t', k) in Rel(s) then [r] else []
  {
    var nick := s.users[t].nick;
    ChannelHears(s, k, r, nick, t');
    InRel(s, t, k);
    InRel(s, t', k);
    if t' in s.users && (t', k) in Rel(s) {
      MemberIsUser(s, k, s.users[t'].nick);
      assert t' != t ==> s.users[t'].nick != nick;
    }
  }

  /** What is due when t leaves with this text. */
  function LeaveDue(s: Srv, t: int, text: string, t': int): seq<Reply>
    requires t in s.users
  {
    if t' == t then [Line("ERROR :Closing Link")]
    else Repeat(Line(":" + s.users[t].nick + " QUIT :Quit: " + text), |Common(s, t, t')|)
  }

  lemma LeavingIsHeard(s: Srv, t: int, params: seq<string>, found: set<int>, t': int)
    requires Inv(s) && t in s.users
    ensures Hears(s, QuitFinding(s, t, params, found), t',
                  LeaveDue(s, t, if params == [] then s.users[t].nick else params[0], t'))
  {
    var nick := s.users[t].nick;
    var r := Line(QuitLine(nick, params));
    var notes, error := QuitNotes(s.channels, Sorted(s.channels.Keys), nick, r), Delivery(t, Line("ERROR :Closing Link"));
    AllQuitNotes(s, t, r, t');
    RegroupThree(s.out, notes, [error]);
    HearsSent(s, QuitFinding(s, t, params, found), notes + [error], t');
    InboxAdd(notes, [error], t');
    InboxOne(error, t');
    QuitText(nick, params);
  }

  lemma AllQuitNotes(s: Srv, t: int, r: Reply, t': int)
    requires Inv(s) && t in s.users
    ensures Inbox(QuitNotes(s.channels, Sorted(s.channels.Keys), s.users[t].nick, r), t')
         == if t' == t then [] else Repeat(r, |Common(s, t, t')|)
  {
    var ks := Sorted(s.channels.Keys);
    SortedDistinct(s.channels.Keys);
    forall i | 0 <= i < |ks| ensures ks[i] in s.channels { assert ks[i] in ks; }
    InboxOfQuitNotes(s, t, ks, r, t');
    assert CommonAmong(s, t, t', ks) == Common(s, t, t');
  }

  lemma QuitText(nick: string, params: seq<string>)
    ensures QuitLine(nick, params) == ":" + nick + " QUIT :Quit: " + (if params == [] then nick else params[0])
  {
  }

  /** KILL's refusals, or the killer's note and the victim's leaving. */
  ghost function KillDue(s: Srv, t: int, m: Msg, t': int): seq<Reply>
    requires t in s.users
  {
    var nick := s.users[t].nick;
    if |m.params| < 2 then Only(t, t', Numeric(461, ["KILL"]))
    else if nick !in s.operators then Only(t, t', Numeric(481, [nick]))
    else if !Taken(s, m.params[0]) then Only(t, t', Numeric(401, [m.params[0]]))
    else Only(t, t', Line(":" + nick + " KILL " + m.params[0] + " :" + m.params[1]))
         + LeaveDue(s, SockOf(s, m.params[0]), "Killed (" + nick + " (" + m.params[1] + "))", t')
  }

  lemma KillIsHeard(s: Srv, t: int, m: Msg, t': int)
    requires Inv(s) && t in s.users && Present(s, t) && Shaped(m)
    ensures Hears(s, Kill(s, t, m), t', KillDue(s, t, m, t'))
  {
    var nick := s.users[t].nick;
    if KillAllowed(s, t, m) {
      KilledIsHeard(s, t, m, t');
    } else {
      SayHeard(s, t, Numeric(461, ["KILL"]), t');
      SayHeard(s, t, Numeric(481, [nick]), t');
      if m.params != [] {
        SayHeard(s, t, Numeric(401, [m.params[0]]), t');
      }
    }
  }

  lemma KilledIsHeard(s: Srv, t: int, m: Msg, t': int)
    requires Inv(s) && t in s.users && Present(s, t) && Shaped(m) && KillAllowed(s, t, m)
    ensures Hears(s, Kill(s, t, m), t', KillDue(s, t, m, t'))
  {
    assert UserOk(s.users[t]);
    assert ':' !in m.params[1] && MiddleParam(m.params[..|m.params| - 1][0]);
    KillIsQuit(s, t, m);
    var nick, v := s.users[t].nick, SockOf(s, m.params[0]);
    var note := Line(":" + nick + " KILL " + m.params[0] + " :" + m.params[1]);
    var s' := Say(s, t, note);
    var params := [KillText(nick, m.params[1])];
    assert UserOk(s.users[v]);
    SayHeard(s, t, note, t');
    QuitKeepsInv(s', v, params);
    LeavingIsHeard(s', v, params, {v}, t');
    SameLeaveDue(s, s', v, params[0], t');
    HearsThen(s, s', Kill(s, t, m), t', Only(t, t', note), LeaveDue(s, v, params[0], t'));
  }

  lemma SameLeaveDue(s: Srv, s': Srv, t: int, text: string, t': int)
    requires OnlySends(s, s') && t in s.users
    ensures LeaveDue(s', t, text, t') == LeaveDue(s, t, text, t')
  {
    SendingKeepsRel(s, s');
  }

  // ---- PRIVMSG and NOTICE -----------------------------------------------------

  /** t is the user called n, or else in channel n and not the sender. */
  predicate Addressed(s: Srv, prefix: string, n: string, t: int) {
    t in s.users && if Taken(s, n) then s.users[t].nick == n else Listens(s, t, n, prefix)
  }

  /** The relays of a text to targets, as t hears them. */
  function RelaysDue(s: Srv, prefix: string, targets: seq<string>, text: string, t: int): seq<Reply> {
    if targets == [] then []
    else
      (if Addressed(s, prefix, targets[0], t) then [Line(":" + prefix + " PRIVMSG " + targets[0] + " :" + text)] else [])
      + RelaysDue(s, prefix, targets[1..], text, t)
  }

  lemma DeliverIsHeard(s: Srv, prefix: string, n: string, text: string, t: int)
    requires Inv(s) && n != ""
    ensures Inbox(Deliver(s, prefix, n, text), t)
         == if Addressed(s, prefix, n, t) then [Line(":" + prefix + " PRIVMSG " + n + " :" + text)] else []
  {
    var r := Line(RelayLine(prefix, n, text));
    if Taken(s, n) {
      var v := SockOf(s, n);
      assert UserOk(s.users[v]);
      InboxOne(Delivery(v, r), t);
      if t in s.users && s.users[t].nick == n {
        SockIsUnique(s, t);
      }
    } else if n in s.channels {
      ChannelHears(s, n, r, prefix, t);
    } else {
      InRel(s, t, n);
    }
  }

  lemma {:induction false} DeliverAllIsHeard(s: Srv, prefix: string, targets: seq<string>, text: string, t: int)
    requires Inv(s) && NonEmpty(targets)
    ensures Inbox(DeliverAll(s, prefix, targets, text), t) == RelaysDue(s, prefix, targets, text, t)
  {
    if targets != [] {
      DeliverIsHeard(s, prefix, targets[0], text, t);
      DeliverAllIsHeard(s, prefix, targets[1..], text, t);
      InboxAdd(Deliver(s, prefix, targets[0], text), DeliverAll(s, prefix, targets[1..], text), t);
    }
  }

  /** PRIVMSG: the text to the leading targets that exist, 401 for the first that does not;
      nothing but a 407, to its holder, when a target is repeated. */
  function PrivmsgDue(s: Srv, t: int, m: Msg, t': int): seq<Reply> {
    if m.params == [] then Only(t, t', Numeric(411, []))
    else if |m.params| == 1 then Only(t, t', Numeric(412, []))
    else
      var n := |m.params| - 1;
      var targets := m.params[..n];
      var i, j := FirstRepeat(targets, 0), Resolved(s, targets);
      if i < n then
        if t' in s.users && s.users[t'].nick == targets[i] then [Numeric(407, [targets[i]])] else []
      else
        RelaysDue(s, m.prefix, targets[..j], m.params[n], t')
        + if j < n then Only(t, t', Numeric(401, [targets[j]])) else []
  }

  lemma PrivmsgIsHeard(s: Srv, t: int, m: Msg, t': int)
    requires Inv(s) && t in s.users && Shaped(m)
    ensures Hears(s, Privmsg(s, t, m), t', PrivmsgDue(s, t, m, t'))
  {
    SayHeard(s, t, Numeric(411, []), t');
    SayHeard(s, t, Numeric(412, []), t');
    if |m.params| > 1 {
      var n := |m.params| - 1;
      var targets := m.params[..n];
      var i := FirstRepeat(targets, 0);
      TargetsNonEmpty(m);
      if i < n {
        RepeatedIsHeard(s, targets[i], t');
      } else {
        RelayedIsHeard(s, t, m.prefix, targets, m.params[n], t');
      }
    }
  }

  lemma RepeatedIsHeard(s: Srv, n: string, t: int)
    requires Inv(s) && n != ""
    ensures Hears(s, if Taken(s, n) then Say(s, SockOf(s, n), Numeric(407, [n])) else s, t,
                  if t in s.users && s.users[t].nick == n then [Numeric(407, [n])] else [])
  {
    if t in s.users {
      assert UserOk(s.users[t]);
    }
    if Taken(s, n) {
      var v := SockOf(s, n);
      assert UserOk(s.users[v]);
      SayHeard(s, v, Numeric(407, [n]), t);
    }
  }

  lemma RelayedIsHeard(s: Srv, t: int, prefix: string, targets: seq<string>, text: string, t': int)
    requires Inv(s) && t in s.users && NonEmpty(targets)
    ensures var j := Resolved(s, targets);
            Hears(s, PrivmsgEach(s, t, prefix, targets, text), t',
                  RelaysDue(s, prefix, targets[..j], text, t')
                  + if j < |targets| then Only(t, t', Numeric(401, [targets[j]])) else [])
  {
    var j := Resolved(s, targets);
    var ds, no := DeliverAll(s, prefix, targets[..j], text), NoSuchNick(s, t, targets);
    PrivmsgEachDelivers(s, t, prefix, targets, text);
    RegroupThree(s.out, ds, no);
    HearsSent(s, PrivmsgEach(s, t, prefix, targets, text), ds + no, t');
    InboxAdd(ds, no, t');
    DeliverAllIsHeard(s, prefix, targets[..j], text, t');
    if j < |targets| {
      InboxOne(no[0], t');
    }
  }

  /** NOTICE: the same without a word to anybody else. */
  function NoticeDue(s: Srv, m: Msg, t': int): seq<Reply> {
    if |m.params| <= 1 then []
    else
      var n := |m.params| - 1;
      var targets := m.params[..n];
      if FirstRepeat(targets, 0) < n then []
      else RelaysDue(s, m.prefix, targets[..Resolved(s, targets)], m.params[n], t')
  }

  lemma NoticeIsHeard(s: Srv, m: Msg, t': int)
    requires Inv(s) && Shaped(m)
    ensures Hears(s, Notice(s, m), t', NoticeDue(s, m, t'))
  {
    NoticeDelivers(s, m);
    HearsSent(s, Notice(s, m), Delivered(s, m), t');
    if |m.params| > 1 {
      var n := |m.params| - 1;
      var targets := m.params[..n];
      TargetsNonEmpty(m);
      DeliverAllIsHeard(s, m.prefix, Reached(s, m), m.params[n], t');
    }
  }

  // ---- NAMES ------------------------------------------------------------------

  /** For each channel a 353 with its names, if it exists, and a 366. */
  function NamesDue(s: Srv, nick: string, ks: seq<string>): seq<Reply> {
    if ks == [] then []
    else
      var k := ks[|ks| - 1];
      NamesDue(s, nick, ks[..|ks| - 1])
      + (if k in s.channels
         then [Numeric(353, [nick, k, NamesBody(Sorted(s.channels[k].members.Keys), s.channels[k].chops)])] else [])
      + [Numeric(366, [nick, k])]
  }

  lemma NamesOfIsHeard(s: Srv, t: int, k: string, t': int)
    requires t in s.users
    ensures Inbox(NamesOf(s, t, k), t')
         == if t' != t then []
            else (if k in s.channels
                  then [Numeric(353, [s.users[t].nick, k, NamesBody(Sorted(s.channels[k].members.Keys), s.channels[k].chops)])]
                  else [])
                 + [Numeric(366, [s.users[t].nick, k])]
  {
    var list, end := NamesList(s, t, k), Delivery(t, Numeric(366, [s.users[t].nick, k]));
    InboxAdd(list, [end], t');
    InboxOne(end, t');
    if k in s.channels {
      InboxOne(list[0], t');
    }
  }

  lemma {:induction false} NamesOfAllIsHeard(s: Srv, t: int, ks: seq<string>, t': int)
    requires t in s.users
    ensures Inbox(NamesOfAll(s, t, ks), t') == if t' == t then NamesDue(s, s.users[t].nick, ks) else []
  {
    if ks != [] {
      var init, k := ks[..|ks| - 1], ks[|ks| - 1];
      NamesOfAllIsHeard(s, t, init, t');
      NamesOfIsHeard(s, t, k, t');
      InboxAdd(NamesOfAll(s, t, init), NamesOf(s, t, k), t');
    }
  }

  lemma NamesIsHeard(s: Srv, t: int, m: Msg, t': int)
    requires t in s.users
    ensures Hears(s, Names(s, t, m), t', if t' == t then NamesDue(s, s.users[t].nick, Channels(m.params)) else [])
  {
    HearsSent(s, Names(s, t, m), NamesOfAll(s, t, Channels(m.params)), t');
    NamesOfAllIsHeard(s, t, Channels(m.params), t');
  }

  // ---- JOIN -------------------------------------------------------------------

  /** One channel of JOIN: the line to everybody who is in the channel afterwards, the user
      among them, or the refusal. */
  function JoinOneDue(s: Srv, t: int, k: string, key: Option<string>, t': int): seq<Reply>
    requires t in s.users
  {
    var nick := s.users[t].nick;
    if JoinPasses(s, t, k, key) then
      if (t', k) in Rel(JoinOne(s, t, k, key).s) then [Line(":" + nick + " JOIN :" + k)] else []
    else if k in s.channels then
      if !KeyOpens(s.channels[k], key) then Only(t, t', Numeric(475, [nick, k]))
      else if nick in s.channels[k].members then []
      else Only(t, t', Numeric(405, [nick, k]))
    else if |JoinedBy(s.channels, nick)| > LIMIT then Only(t, t', Numeric(405, [nick]))
    else []
  }

  lemma JoinOneIsHeard(s: Srv, t: int, k: string, key: Option<string>, t': int)
    requires Inv(s) && t in s.users && s.users[t].logged && IsChannelName(k)
    ensures Hears(s, JoinOne(s, t, k, key).s, t', JoinOneDue(s, t, k, key, t'))
  {
    var nick := s.users[t].nick;
    if JoinPasses(s, t, k, key) {
      if k in s.channels {
        EnteringIsHeard(s, t, k, key, t');
      } else {
        CreatingIsHeard(s, t, k, key, t');
      }
    } else {
      JoinRefusalIsHeard(s, t, k, key, t');
    }
  }

  lemma JoinRefusalIsHeard(s: Srv, t: int, k: string, key: Option<string>, t': int)
    requires t in s.users && !JoinPasses(s, t, k, key)
    ensures Hears(s, JoinOne(s, t, k, key).s, t', JoinOneDue(s, t, k, key, t'))
  {
    var nick := s.users[t].nick;
    SayHeard(s, t, Numeric(475, [nick, k]), t');
    SayHeard(s, t, Numeric(405, [nick, k]), t');
    SayHeard(s, t, Numeric(405, [nick]), t');
  }

  lemma EnteringIsHeard(s: Srv, t: int, k: string, key: Option<string>, t': int)
    requires Inv(s) && t in s.users && s.users[t].logged && IsChannelName(k)
    requires JoinPasses(s, t, k, key) && k in s.channels
    ensures Hears(s, JoinOne(s, t, k, key).s, t', JoinOneDue(s, t, k, key, t'))
  {
    var nick, s2 := s.users[t].nick, JoinOne(s, t, k, key).s;
    var s1 := s.(channels := s.channels[k := AddUser(s.channels[k], nick, t)]);
    AddMemberKeepsOk(s.users, s.channels, t, k);
    ChannelHears(s1, k, Line(JoinLine(nick, k)), "", t');
    SendingKeepsRel(s1, s2);
    InRel(s1, t', k);
    if In(s1, t', k) {
      MemberIsUser(s1, k, s1.users[t'].nick);
    }
  }

  lemma CreatingIsHeard(s: Srv, t: int, k: string, key: Option<string>, t': int)
    requires Inv(s) && t in s.users && s.users[t].logged && IsChannelName(k)
    requires JoinPasses(s, t, k, key) && k !in s.channels
    ensures Hears(s, JoinOne(s, t, k, key).s, t', JoinOneDue(s, t, k, key, t'))
  {
    var nick := s.users[t].nick;
    var s1 := s.(channels := s.channels[k := NewChannel(k, key, nick, t)]);
    SayHeard(s1, t, Line(JoinLine(nick, k)), t');
    JoinOneRel(s, t, k, key);
    InRel(s, t', k);
  }

  /** The channels of JOIN from position i on, up to the first refusal. */
  function JoinFromDue(s: Srv, t: int, ks: seq<string>, keys: seq<string>, i: nat, t': int): seq<Reply>
    requires t in s.users && i <= |ks|
    decreases |ks| - i
  {
    if i == |ks| then []
    else
      var key := KeyAt(keys, i);
      JoinOneEffect(s, t, ks[i], key);
      JoinOneDue(s, t, ks[i], key, t')
      + if JoinPasses(s, t, ks[i], key) then JoinFromDue(JoinOne(s, t, ks[i], key).s, t, ks, keys, i + 1, t') else []
  }

  lemma {:induction false} JoinFromIsHeard(s: Srv, t: int, ks: seq<string>, keys: seq<string>, i: nat, t': int)
    requires Inv(s) && t in s.users && s.users[t].logged && i <= |ks|
    requires forall j :: 0 <= j < |ks| ==> IsChannelName(ks[j])
    ensures Hears(s, JoinFrom(s, t, ks, keys, i).s, t', JoinFromDue(s, t, ks, keys, i, t'))
    decreases |ks| - i
  {
    if i < |ks| {
      var key := KeyAt(keys, i);
      var j := JoinOne(s, t, ks[i], key);
      JoinOneIsHeard(s, t, ks[i], key, t');
      JoinOneGoesOn(s, t, ks[i], key);
      JoinOneKeepsInv(s, t, ks[i], key);
      if j.goOn {
        JoinFromIsHeard(j.s, t, ks, keys, i + 1, t');
        HearsThen(s, j.s, JoinFrom(s, t, ks, keys, i).s, t', JoinOneDue(s, t, ks[i], key, t'),
                  JoinFromDue(j.s, t, ks, keys, i + 1, t'));
      }
    }
  }

  /** JOIN: refused as a whole, or what its channels bring, and the names of all of them for
      the user when none was refused. */
  function JoinDue(s: Srv, t: int, m: Msg, t': int): seq<Reply>
    requires t in s.users
  {
    var nick := s.users[t].nick;
    if m.params == [] then Only(t, t', Numeric(461, [nick, "JOIN"]))
    else if !IsChannelParam(m.params[0]) || exists i :: 0 <= i < |m.params| && !IsCleanParam(m.params[i]) then
      Only(t, t', Numeric(400, [nick, "JOIN"]))
    else
      var ks, keys := Channels(m.params), Keys(m.params);
      if |keys| > |ks| then []
      else
        var j := JoinFrom(s, t, ks, keys, 0);
        JoinFromDue(s, t, ks, keys, 0, t') + if j.goOn && t' == t then NamesDue(j.s, nick, ks) else []
  }

  lemma JoinIsHeard(s: Srv, t: int, m: Msg, t': int)
    requires Inv(s) && t in s.users && s.users[t].logged && ColonFree(m.params)
    ensures Hears(s, Join(s, t, m), t', JoinDue(s, t, m, t'))
  {
    var nick := s.users[t].nick;
    if JoinReads(m) {
      JoinReadIsHeard(s, t, m, t');
    } else {
      SayHeard(s, t, Numeric(461, [nick, "JOIN"]), t');
      SayHeard(s, t, Numeric(400, [nick, "JOIN"]), t');
    }
  }

  lemma JoinReadIsHeard(s: Srv, t: int, m: Msg, t': int)
    requires Inv(s) && t in s.users && s.users[t].logged && ColonFree(m.params) && JoinReads(m)
    ensures Hears(s, Join(s, t, m), t', JoinDue(s, t, m, t'))
  {
    var nick, ks, keys := s.users[t].nick, Channels(m.params), Keys(m.params);
    var j := JoinFrom(s, t, ks, keys, 0);
    JoinedNamesAreNames(m.params);
    ParamsAreChannels(m.params, m.params[0]);
    JoinFromIsHeard(s, t, ks, keys, 0, t');
    JoinFromKeepsInv(s, t, ks, keys, 0);
    if j.goOn {
      var names := Parse(NamesLine(ks), nick);
      NamesLineParses(ks, nick);
      NamesIsUpper();
      NamesIsHeard(j.s, t, names, t');
      HearsThen(s, j.s, Join(s, t, m), t', JoinFromDue(s, t, ks, keys, 0, t'), if t' == t then NamesDue(j.s, nick, ks) else []);
    }
  }

  lemma NamesIsUpper()
    ensures ToUpper("NAMES") == "NAMES"
  {
  }

  // ---- PART and KICK ----------------------------------------------------------

  /** One channel of PART: the line to everybody in it, the user among them. */
  function PartOneDue(s: Srv, t: int, k: string, t': int): seq<Reply>
    requires t in s.users
  {
    var nick := s.users[t].nick;
    if k !in s.channels then Only(t, t', Numeric(403, [nick, k]))
    else if (t, k) !in Rel(s) then Only(t, t', Numeric(442, [nick, k]))
    else if (t', k) in Rel(s) then [Line(":" + nick + " PART :" + k)]
    else []
  }

  lemma PartOneIsHeard(s: Srv, t: int, k: string, t': int)
    requires Inv(s) && t in s.users
    ensures Hears(s, PartOne(s, t, s.users[t].nick, k), t', PartOneDue(s, t, k, t'))
  {
    var nick := s.users[t].nick;
    InRel(s, t, k);
    SayHeard(s, t, Numeric(403, [nick, k]), t');
    SayHeard(s, t, Numeric(442, [nick, k]), t');
    if k in s.channels {
      ChannelHears(s, k, Line(PartLine(nick, k)), "", t');
      InRel(s, t', k);
      if In(s, t', k) {
        MemberIsUser(s, k, s.users[t'].nick);
      }
    }
  }

  function PartEachDue(s: Srv, t: int, ks: seq<string>, t': int): seq<Reply>
    requires Inv(s) && t in s.users
  {
    if ks == [] then []
    else
      var init := ks[..|ks| - 1];
      PartEachKeepsInv(s, t, s.users[t].nick, init);
      PartEachDue(s, t, init, t') + PartOneDue(PartEach(s, t, s.users[t].nick, init), t, ks[|ks| - 1], t')
  }

  lemma {:induction false} PartEachIsHeard(s: Srv, t: int, ks: seq<string>, t': int)
    requires Inv(s) && t in s.users
    ensures Hears(s, PartEach(s, t, s.users[t].nick, ks), t', PartEachDue(s, t, ks, t'))
  {
    var nick := s.users[t].nick;
    if ks != [] {
      var init, k := ks[..|ks| - 1], ks[|ks| - 1];
      var s' := PartEach(s, t, nick, init);
      PartEachIsHeard(s, t, init, t');
      PartEachKeepsInv(s, t, nick, init);
      PartOneIsHeard(s', t, k, t');
      HearsThen(s, s', PartEach(s, t, nick, ks), t', PartEachDue(s, t, init, t'), PartOneDue(s', t, k, t'));
    }
  }

  /** PART: a 400 for each parameter that is no channel, then its channels in order. */
  function PartDue(s: Srv, t: int, m: Msg, t': int): seq<Reply>
    requires Inv(s) && t in s.users
  {
    var nick := s.users[t].nick;
    if m.params == [] then Only(t, t', Numeric(461, [nick, "PART"]))
    else
      (if t' == t then Repeat(Numeric(400, [nick, "PART"]), |Keys(m.params)|) else [])
      + PartEachDue(s, t, Channels(m.params), t')
  }

  lemma {:induction false} RefuseIsHeard(t: int, nick: string, ps: seq<string>, t': int)
    ensures Inbox(Refuse(t, nick, ps), t') == if t' == t then Repeat(Numeric(400, [nick, "PART"]), |ps|) else []
  {
    if ps != [] {
      var init, r := ps[..|ps| - 1], Numeric(400, [nick, "PART"]);
      RefuseIsHeard(t, nick, init, t');
      InboxAdd(Refuse(t, nick, init), [Delivery(t, r)], t');
      InboxOne(Delivery(t, r), t');
      RepeatMore(r, |init|);
    }
  }

  lemma PartIsHeard(s: Srv, t: int, m: Msg, t': int)
    requires Inv(s) && t in s.users
    ensures Hears(s, Part(s, t, m), t', PartDue(s, t, m, t'))
  {
    var nick := s.users[t].nick;
    if m.params == [] {
      SayHeard(s, t, Numeric(461, [nick, "PART"]), t');
    } else {
      var no, ks := Refuse(t, nick, Keys(m.params)), Channels(m.params);
      var s' := s.(out := s.out + no);
      HearsSent(s, s', no, t');
      RefuseIsHeard(t, nick, Keys(m.params), t');
      PartEachIsHeard(s', t, ks, t');
      SamePartDue(s, s', t, ks, t');
      HearsThen(s, s', Part(s, t, m), t', Inbox(no, t'), PartEachDue(s, t, ks, t'));
    }
  }

  lemma {:induction false} SamePartDue(s: Srv, s': Srv, t: int, ks: seq<string>, t': int)
    requires Inv(s) && OnlySends(s, s') && t in s.users
    ensures PartEachDue(s', t, ks, t') == PartEachDue(s, t, ks, t')
    ensures OnlySends(PartEach(s, t, s.users[t].nick, ks), PartEach(s', t, s.users[t].nick, ks))
  {
    if ks != [] {
      var init, nick := ks[..|ks| - 1], s.users[t].nick;
      SamePartDue(s, s', t, init, t');
      PartEachKeepsInv(s, t, nick, init);
      SamePartOneDue(PartEach(s, t, nick, init), PartEach(s', t, nick, init), t, ks[|ks| - 1], t');
    }
  }

  lemma SamePartOneDue(s: Srv, s': Srv, t: int, k: string, t': int)
    requires OnlySends(s, s') && t in s.users
    ensures PartOneDue(s', t, k, t') == PartOneDue(s, t, k, t')
    ensures OnlySends(PartOne(s, t, s.users[t].nick, k), PartOne(s', t, s.users[t].nick, k))
  {
    SendingKeepsRel(s, s');
  }

  /** KICK's refusals, or its line to everybody in the channel, the target among them. */
  function KickDue(s: Srv, t: int, m: Msg, t': int): seq<Reply>
    requires t in s.users
  {
    var nick := s.users[t].nick;
    if |m.params| < 2 then Only(t, t', Numeric(461, ["KILL"]))
    else
      var k, n := m.params[0], m.params[1];
      if k !in s.channels then Only(t, t', Numeric(403, [nick, k]))
      else if (t, k) !in Rel(s) then Only(t, t', Numeric(442, [k]))
      else if nick !in s.channels[k].chops then Only(t, t', Numeric(482, [nick, k]))
      else if n !in s.channels[k].members then Only(t, t', Numeric(441, [n, k]))
      else if (t', k) in Rel(s) then [Line(":" + nick + " KICK " + k + " " + n)]
      else []
  }

  lemma KickIsHeard(s: Srv, t: int, m: Msg, t': int)
    requires Inv(s) && t in s.users
    ensures Hears(s, Kick(s, t, m), t', KickDue(s, t, m, t'))
  {
    var nick := s.users[t].nick;
    if KickAllowed(s, t, m) {
      KickedIsHeard(s, t, m, t');
    } else {
      SayHeard(s, t, Numeric(461, ["KILL"]), t');
      if |m.params| >= 2 {
        var k, n := m.params[0], m.params[1];
        InRel(s, t, k);
        SayHeard(s, t, Numeric(403, [nick, k]), t');
        SayHeard(s, t, Numeric(442, [k]), t');
        SayHeard(s, t, Numeric(482, [nick, k]), t');
        SayHeard(s, t, Numeric(441, [n, k]), t');
      }
    }
  }

  lemma KickedIsHeard(s: Srv, t: int, m: Msg, t': int)
    requires Inv(s) && t in s.users && KickAllowed(s, t, m)
    ensures Hears(s, Kick(s, t, m), t', KickDue(s, t, m, t'))
  {
    var nick, k, n := s.users[t].nick, m.params[0], m.params[1];
    var v, note := s.channels[k].members[n], Line(KickLine(nick, k, n));
    var s1 := Say(s, v, note);
    var s2 := RemoveMember(s1, k, n);
    SayHeard(s, v, note, t');
    RemoveMemberKeepsInv(s1, k, n);
    MemberIsUser(s, k, n);
    SendingKeepsRel(s, s1);
    RemoveMemberRel(s1, k, n);
    InRel(s, t, k);
    InRel(s, t', k);
    InRel(s, v, k);
    RestHears(s2, k, note, n, t');
    HearsThen(s, s2, Kick(s, t, m), t', Only(v, t', note), if Listens(s2, t', k, n) then [note] else []);
    if In(s, t', k) && t' != v {
      MemberIsUser(s, k, s.users[t'].nick);
    }
  }

  /** The same when the channel may be gone. */
  lemma RestHears(s: Srv, k: string, r: Reply, but: string, t: int)
    requires Inv(s)
    ensures Hears(s, SendToChannel(s, k, r, but), t, if Listens(s, t, k, but) then [r] else [])
  {
    InRel(s, t, k);
    if k in s.channels {
      ChannelHears(s, k, r, but, t);
    }
  }

  // ---- Every event ------------------------------------------------------------

  predicate IsRemoval(command: string) {
    command == "QUIT" || command == "KILL" || command == "PART" || command == "KICK"
  }

  ghost function RemovalDue(s: Srv, t: int, m: Msg, command: string, t': int): seq<Reply>
    requires Inv(s) && t in s.users
  {
    if command == "QUIT" then LeaveDue(s, t, if m.params == [] then s.users[t].nick else m.params[0], t')
    else if command == "KILL" then KillDue(s, t, m, t')
    else if command == "PART" then PartDue(s, t, m, t')
    else KickDue(s, t, m, t')
  }

  /** What is due to t' when t, once let in, sends m. */
  ghost function MessageDue(s: Srv, t: int, m: Msg, t': int): seq<Reply>
    requires Inv(s) && t in s.users
  {
    var command := ToUpper(m.command);
    if command == "PASS" then PassDue(s, t, m, t')
    else if command == "NICK" then NickDue(s, t, m, t')
    else if command == "USER" then UserDue(s, t, m, t')
    else if !s.users[t].logged then []
    else if IsRemoval(command) then RemovalDue(s, t, m, command, t')
    else if command == "PRIVMSG" then PrivmsgDue(s, t, m, t')
    else if command == "NOTICE" then NoticeDue(s, m, t')
    else if command == "JOIN" then JoinDue(s, t, m, t')
    else if command == "NAMES" then if t' == t then NamesDue(s, s.users[t].nick, Channels(m.params)) else []
    else if command == "OPER" then OperDue(s, t, m, t')
    else []
  }

  lemma RegistrationIsHeard(s: Srv, t: int, m: Msg, t': int)
    requires Inv(s) && t in s.users
    requires var command := ToUpper(m.command); command == "PASS" || command == "NICK" || command == "USER"
    ensures Hears(s, Dispatch(s, t, m), t', MessageDue(s, t, m, t'))
  {
    if ToUpper(m.command) == "PASS" {
      PassIsHeard(s, t, m, t');
    } else if s.users[t].passworded {
      if ToUpper(m.command) == "NICK" {
        NickIsHeard(s, t, m, t');
      } else {
        UserIsHeard(s, t, m, t');
      }
    }
  }

  lemma RemovalIsHeard(s: Srv, t: int, m: Msg, t': int)
    requires Inv(s) && t in s.users && Present(s, t) && Shaped(m) && IsRemoval(ToUpper(m.command))
    ensures Hears(s, Dispatch(s, t, m), t', MessageDue(s, t, m, t'))
  {
    DispatchRemoves(s, t, m);
    RemovesIsHeard(s, t, m, ToUpper(m.command), t');
  }

  lemma RemovesIsHeard(s: Srv, t: int, m: Msg, command: string, t': int)
    requires Inv(s) && t in s.users && Present(s, t) && Shaped(m)
    ensures Hears(s, Removes(s, t, m, command), t', RemovalDue(s, t, m, command, t'))
  {
    if command == "QUIT" {
      QuitIsHeard(s, t, m, t');
    } else if command == "KILL" {
      KillIsHeard(s, t, m, t');
    } else if command == "PART" {
      PartIsHeard(s, t, m, t');
    } else {
      KickIsHeard(s, t, m, t');
    }
  }

  lemma QuitIsHeard(s: Srv, t: int, m: Msg, t': int)
    requires Inv(s) && t in s.users && Present(s, t)
    ensures Hears(s, Quit(s, t, m.params), t', LeaveDue(s, t, if m.params == [] then s.users[t].nick else m.params[0], t'))
  {
    assert UserOk(s.users[t]);
    QuitKeepsInv(s, t, m.params);
    LeavingIsHeard(s, t, m.params, {t}, t');
  }

  lemma DispatchIsHeard(s: Srv, t: int, m: Msg, t': int)
    requires Inv(s) && t in s.users && Shaped(m) && Defined(s, t, m)
    ensures Hears(s, Dispatch(s, t, m), t', MessageDue(s, t, m, t'))
  {
    var command := ToUpper(m.command);
    assert UserOk(s.users[t]);
    if command == "PASS" || command == "NICK" || command == "USER" {
      RegistrationIsHeard(s, t, m, t');
    } else if Present(s, t) {
      if IsRemoval(command) {
        RemovalIsHeard(s, t, m, t');
      } else if command == "PRIVMSG" {
        PrivmsgIsHeard(s, t, m, t');
      } else if command == "NOTICE" {
        NoticeIsHeard(s, m, t');
      } else if command == "JOIN" {
        JoinIsHeard(s, t, m, t');
      } else if command == "NAMES" {
        NamesIsHeard(s, t, m, t');
      } else if command == "OPER" {
        OperIsHeard(s, t, m, t');
      }
    }
  }

  /** What is due to t of event e. */
  ghost function Due(s: Srv, e: Event, t: int): seq<Reply>
    requires Inv(s) && Enabled(s, e)
  {
    match e
    case Connect(_) => []
    case Input(t', line) =>
      AdmitKeepsInv(s, t');
      MessageDue(Admit(s, t'), t', MessageOf(s, t', line), t)
    case Hangup(t', _) => LeaveDue(s, t', "Remote host closed the connection", t)
  }

  /** Of every event every socket hears exactly what is due to it, in order. */
  lemma StepIsHeard(s: Srv, e: Event, t: int)
    requires Inv(s) && Enabled(s, e)
    ensures Hears(s, Step(s, e), t, Due(s, e, t))
  {
    match e
    case Connect(_) =>
    case Input(t', line) =>
      InputIsShaped(s, t', line);
      AdmitKeepsInv(s, t');
      DispatchIsHeard(Admit(s, t'), t', MessageOf(s, t', line), t);
    case Hangup(t', v) =>
      LeavingIsHeard(s, t', [HANGUP_TEXT], {v}, t);
  }

  // ---- Leaving and KILL, event by event ---------------------------------------

  lemma PresentIsHeard(s: Srv, t: int, line: string, t': int)
    requires Inv(s) && t in s.users && Present(s, t) && Enabled(s, Input(t, line))
    ensures Hears(s, Step(s, Input(t, line)), t', MessageDue(s, t, MessageOf(s, t, line), t'))
  {
    PresentStep(s, t, line);
    StepIsHeard(s, Input(t, line), t');
  }

  /** QUIT: each other connection gets the line once for each channel it shares with the
      leaver, the leaver its ERROR, and nobody else anything. */
  lemma QuitTold(s: Srv, t: int, line: string, t': int)
    requires Inv(s) && t in s.users && Present(s, t) && Enabled(s, Input(t, line))
    requires ToUpper(MessageOf(s, t, line).command) == "QUIT"
    ensures var nick, p := s.users[t].nick, MessageOf(s, t, line).params;
            var quit := Line(":" + nick + " QUIT :Quit: " + if p == [] then nick else p[0]);
            Hears(s, Step(s, Input(t, line)), t',
                  if t' == t then [Line("ERROR :Closing Link")] else Repeat(quit, |Common(s, t, t')|))
  {
    PresentIsHeard(s, t, line, t');
  }

  /** The same of a lost connection, whichever node is taken out. */
  lemma LostTold(s: Srv, t: int, v: int, t': int)
    requires Inv(s) && Enabled(s, Hangup(t, v))
    ensures var quit := Line(":" + s.users[t].nick + " QUIT :Quit: " + "Remote host closed the connection");
            Hears(s, Step(s, Hangup(t, v)), t',
                  if t' == t then [Line("ERROR :Closing Link")] else Repeat(quit, |Common(s, t, t')|))
  {
    StepIsHeard(s, Hangup(t, v), t');
  }

  /** KILL by an operator: its own note, and for the victim and its channels a QUIT. */
  lemma KillTold(s: Srv, t: int, line: string, t': int)
    requires Inv(s) && t in s.users && Present(s, t) && Enabled(s, Input(t, line))
    requires ToUpper(MessageOf(s, t, line).command) == "KILL" && KillAllowed(s, t, MessageOf(s, t, line))
    ensures var nick, p := s.users[t].nick, MessageOf(s, t, line).params;
            var v, note := SockOf(s, p[0]), Line(":" + nick + " KILL " + p[0] + " :" + p[1]);
            var quit := Line(":" + s.users[v].nick + " QUIT :Quit: " + ("Killed (" + nick + " (" + p[1] + "))"));
            Hears(s, Step(s, Input(t, line)), t',
                  (if t' == t then [note] else [])
                  + if t' == v then [Line("ERROR :Closing Link")] else Repeat(quit, |Common(s, v, t')|))
  {
    PresentIsHeard(s, t, line, t');
    KillIsDue(s, t, MessageOf(s, t, line), t');
  }

  lemma KillIsDue(s: Srv, t: int, m: Msg, t': int)
    requires Inv(s) && t in s.users && s.users[t].logged && ToUpper(m.command) == "KILL" && KillAllowed(s, t, m)
    ensures var nick, v := s.users[t].nick, SockOf(s, m.params[0]);
            MessageDue(s, t, m, t') == Only(t, t', Line(":" + nick + " KILL " + m.params[0] + " :" + m.params[1]))
                                       + LeaveDue(s, v, "Killed (" + nick + " (" + m.params[1] + "))", t')
  {
  }

  /** A KILL whose guards fail, above all one by somebody who is no operator, changes
      nothing, and only the caller hears of it. */
  lemma KillRefused(s: Srv, t: int, line: string, t': int)
    requires Inv(s) && t in s.users && Present(s, t) && Enabled(s, Input(t, line))
    requires var m := MessageOf(s, t, line);
             && ToUpper(m.command) == "KILL"
             && (|m.params| < 2 || s.users[t].nick !in s.operators || !Taken(s, m.params[0]))
    ensures var nick, p, s' := s.users[t].nick, MessageOf(s, t, line).params, Step(s, Input(t, line));
            var no := if |p| < 2 then Numeric(461, ["KILL"])
                      else if nick !in s.operators then Numeric(481, [nick])
                      else Numeric(401, [p[0]]);
            s' == s.(out := s'.out) && Hears(s, s', t', if t' == t then [no] else [])
  {
    PresentIsHeard(s, t, line, t');
    PresentStep(s, t, line);
    DispatchKill(s, t, MessageOf(s, t, line));
  }
}
