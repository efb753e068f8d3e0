/** Registration over whole runs: flags never revert, and every connection that logs in
    is welcomed exactly once, whichever of NICK and USER comes first. */
module Registration {
  import opened Text
  import opened Messages
  import opened Model
  import opened Invariants
  import opened Steps
  import opened Refinement

  /** How many 001 welcomes t was sent. */
  function Welcomes(out: seq<Delivery>, t: int): nat {
    if out == [] then 0
    else
      var last := out[|out| - 1];
      Welcomes(out[..|out| - 1], t) + if last.sock == t && last.reply.Welcome? then 1 else 0
  }

  predicate Plain(out: seq<Delivery>) {
    forall i :: 0 <= i < |out| ==> !out[i].reply.Welcome?
  }

  /** s' has sent what s had, and then no welcome. */
  predicate Adds(s: Srv, s': Srv) {
    s.out <= s'.out && Plain(s'.out[|s.out|..])
  }

  lemma AddsAppended(s: Srv, s': Srv, ds: seq<Delivery>)
    requires s'.out == s.out + ds && Plain(ds)
    ensures Adds(s, s')
  {
    assert s'.out[|s.out|..] == ds;
  }

  lemma AddsTransitive(s: Srv, s': Srv, s'': Srv)
    requires Adds(s, s') && Adds(s', s'')
    ensures Adds(s, s'')
  {
    assert s''.out[|s.out|..] == s'.out[|s.out|..] + s''.out[|s'.out|..];
  }

  lemma {:induction false} PlainIsNoWelcome(out: seq<Delivery>, ds: seq<Delivery>, t: int)
    requires Plain(ds)
    ensures Welcomes(out + ds, t) == Welcomes(out, t)
  {
    if ds == [] {
      assert out + ds == out;
    } else {
      PlainIsNoWelcome(out, ds[..|ds| - 1], t);
      assert (out + ds)[..|out + ds| - 1] == out + ds[..|ds| - 1];
    }
  }

  lemma AddsNoWelcome(s: Srv, s': Srv, t: int)
    requires Adds(s, s')
    ensures Welcomes(s'.out, t) == Welcomes(s.out, t)
  {
    PlainIsNoWelcome(s.out, s'.out[|s.out|..], t);
    assert s'.out == s.out + s'.out[|s.out|..];
  }

  // ---- What the other handlers send is plain ----------------------------------

  lemma SayAdds(s: Srv, t: int, r: Reply)
    requires !r.Welcome?
    ensures Adds(s, Say(s, t, r))
  {
    AddsAppended(s, Say(s, t, r), [Delivery(t, r)]);
  }

  lemma {:induction false} BroadcastIsPlain(members: map<string, int>, names: seq<string>, r: Reply, but: string)
    requires !r.Welcome? && forall i :: 0 <= i < |names| ==> names[i] in members
    ensures Plain(Broadcast(members, names, r, but))
  {
    if names != [] {
      BroadcastIsPlain(members, names[..|names| - 1], r, but);
    }
  }

  lemma SendToChannelAdds(s: Srv, k: string, r: Reply, but: string)
    requires !r.Welcome?
    ensures Adds(s, SendToChannel(s, k, r, but))
  {
    if k in s.channels {
      BroadcastIsPlain(s.channels[k].members, Sorted(s.channels[k].members.Keys), r, but);
      AddsAppended(s, SendToChannel(s, k, r, but), ToMembers(s.channels[k], r, but));
    }
  }

  lemma {:induction false} SpreadMembersIsPlain(members: map<string, int>, names: seq<string>, nick: string, r: Reply, a: Spread)
    requires !r.Welcome? && Plain(a.out) && forall i :: 0 <= i < |names| ==> names[i] in members
    ensures Plain(SpreadMembers(members, names, nick, r, a).out)
  {
    if names != [] {
      SpreadMembersIsPlain(members, names[..|names| - 1], nick, r, a);
    }
  }

  lemma {:induction false} SpreadChannelsIsPlain(channels: map<string, ChannelV>, ks: seq<string>, nick: string, r: Reply)
    requires !r.Welcome? && forall i :: 0 <= i < |ks| ==> ks[i] in channels
    ensures Plain(SpreadChannels(channels, ks, nick, r).out)
  {
    if ks != [] {
      SpreadChannelsIsPlain(channels, ks[..|ks| - 1], nick, r);
      var a := SpreadChannels(channels, ks[..|ks| - 1], nick, r);
      var members := channels[ks[|ks| - 1]].members;
      SpreadMembersIsPlain(members, Sorted(members.Keys), nick, r, a);
    }
  }

  lemma {:induction false} QuitNotesArePlain(channels: map<string, ChannelV>, ks: seq<string>, nick: string, r: Reply)
    requires !r.Welcome? && forall i :: 0 <= i < |ks| ==> ks[i] in channels
    ensures Plain(QuitNotes(channels, ks, nick, r))
  {
    if ks != [] {
      var c := channels[ks[|ks| - 1]];
      QuitNotesArePlain(channels, ks[..|ks| - 1], nick, r);
      BroadcastIsPlain(c.members, Sorted(c.members.Keys), r, nick);
    }
  }

  lemma {:induction false} NamesArePlain(s: Srv, t: int, ks: seq<string>)
    requires t in s.users
    ensures Plain(NamesOfAll(s, t, ks))
  {
    if ks != [] {
      NamesArePlain(s, t, ks[..|ks| - 1]);
    }
  }

  lemma NamesAdds(s: Srv, t: int, m: Msg)
    requires t in s.users
    ensures Adds(s, Names(s, t, m))
  {
    NamesArePlain(s, t, Channels(m.params));
    AddsAppended(s, Names(s, t, m), NamesOfAll(s, t, Channels(m.params)));
  }

  lemma QuitAdds(s: Srv, t: int, params: seq<string>)
    requires t in s.users
    ensures Adds(s, Quit(s, t, params))
  {
    var nick := s.users[t].nick;
    QuitFindingAdds(s, t, params, if Taken(s, nick) then {SockOf(s, nick)} else {});
  }

  lemma QuitFindingAdds(s: Srv, t: int, params: seq<string>, found: set<int>)
    requires t in s.users
    ensures Adds(s, QuitFinding(s, t, params, found))
  {
    var nick := s.users[t].nick;
    var notes := QuitNotes(s.channels, Sorted(s.channels.Keys), nick, Line(QuitLine(nick, params)));
    QuitNotesArePlain(s.channels, Sorted(s.channels.Keys), nick, Line(QuitLine(nick, params)));
    AddsAppended(s, QuitFinding(s, t, params, found), notes + [Delivery(t, Line("ERROR :Closing Link"))]);
  }

  lemma KillVictimAdds(s: Srv, t: int, m: Msg, v: int)
    requires t in s.users && v in s.users && |m.params| >= 2
    ensures Adds(s, KillVictim(s, t, m, v))
  {
    var note := Line(":" + s.users[t].nick + " KILL " + m.params[0] + " :" + m.params[1]);
    var quit := Parse(KillLine(s.users[t].nick, m.params[1]), s.hostname);
    SayAdds(s, t, note);
    QuitAdds(Say(s, t, note), v, quit.params);
    AddsTransitive(s, Say(s, t, note), Quit(Say(s, t, note), v, quit.params));
  }

  lemma KillAdds(s: Srv, t: int, m: Msg)
    requires t in s.users
    ensures Adds(s, Kill(s, t, m))
  {
    var nick := s.users[t].nick;
    SayAdds(s, t, Numeric(461, ["KILL"]));
    SayAdds(s, t, Numeric(481, [nick]));
    if |m.params| >= 2 {
      SayAdds(s, t, Numeric(401, [m.params[0]]));
      if Taken(s, m.params[0]) {
        KillVictimAdds(s, t, m, SockOf(s, m.params[0]));
      }
    }
  }

  lemma {:induction false} PrivmsgEachAdds(s: Srv, t: int, prefix: string, targets: seq<string>, text: string)
    requires t in s.users
    ensures Adds(s, PrivmsgEach(s, t, prefix, targets, text))
    decreases |targets|
  {
    if targets == [] {
      AddsAppended(s, s, []);
    } else {
      var n := targets[0];
      var r := Line(RelayLine(prefix, n, text));
      if Taken(s, n) {
        SayAdds(s, SockOf(s, n), r);
        PrivmsgEachAdds(Say(s, SockOf(s, n), r), t, prefix, targets[1..], text);
        AddsTransitive(s, Say(s, SockOf(s, n), r), PrivmsgEach(s, t, prefix, targets, text));
      } else if n in s.channels {
        SendToChannelAdds(s, n, r, prefix);
        PrivmsgEachAdds(SendToChannel(s, n, r, prefix), t, prefix, targets[1..], text);
        AddsTransitive(s, SendToChannel(s, n, r, prefix), PrivmsgEach(s, t, prefix, targets, text));
      } else {
        SayAdds(s, t, Numeric(401, [n]));
      }
    }
  }

  lemma {:induction false} NoticeEachAdds(s: Srv, prefix: string, targets: seq<string>, text: string)
    ensures Adds(s, NoticeEach(s, prefix, targets, text))
    decreases |targets|
  {
    AddsAppended(s, s, []);
    if targets != [] {
      var n := targets[0];
      var r := Line(RelayLine(prefix, n, text));
      if Taken(s, n) {
        SayAdds(s, SockOf(s, n), r);
        NoticeEachAdds(Say(s, SockOf(s, n), r), prefix, targets[1..], text);
        AddsTransitive(s, Say(s, SockOf(s, n), r), NoticeEach(s, prefix, targets, text));
      } else if n in s.channels {
        SendToChannelAdds(s, n, r, prefix);
        NoticeEachAdds(SendToChannel(s, n, r, prefix), prefix, targets[1..], text);
        AddsTransitive(s, SendToChannel(s, n, r, prefix), NoticeEach(s, prefix, targets, text));
      }
    }
  }

  lemma PrivmsgAdds(s: Srv, t: int, m: Msg)
    requires t in s.users
    ensures Adds(s, Privmsg(s, t, m))
  {
    AddsAppended(s, s, []);
    if |m.params| > 1 {
      var n := |m.params| - 1;
      PrivmsgEachAdds(s, t, m.prefix, m.params[..n], m.params[n]);
      var i := FirstRepeat(m.params[..n], 0);
      if i < n && Taken(s, m.params[..n][i]) {
        SayAdds(s, SockOf(s, m.params[..n][i]), Numeric(407, [m.params[..n][i]]));
      }
    } else {
      SayAdds(s, t, Numeric(411, []));
      SayAdds(s, t, Numeric(412, []));
    }
  }

  lemma NoticeAdds(s: Srv, m: Msg)
    ensures Adds(s, Notice(s, m))
  {
    AddsAppended(s, s, []);
    if |m.params| > 1 {
      NoticeEachAdds(s, m.prefix, m.params[..|m.params| - 1], m.params[|m.params| - 1]);
    }
  }

  lemma JoinOneAdds(s: Srv, t: int, k: string, key: Option<string>)
    requires t in s.users
    ensures Adds(s, JoinOne(s, t, k, key).s)
  {
    var nick := s.users[t].nick;
    var note := Line(JoinLine(nick, k));
    AddsAppended(s, s, []);
    SayAdds(s, t, Numeric(475, [nick, k]));
    SayAdds(s, t, Numeric(405, [nick, k]));
    SayAdds(s, t, Numeric(405, [nick]));
    SayAdds(s, t, note);
    if k in s.channels {
      var s' := s.(channels := s.channels[k := AddUser(s.channels[k], nick, t)]);
      SendToChannelAdds(s', k, note, "");
    }
  }

  lemma {:induction false} JoinFromAdds(s: Srv, t: int, ks: seq<string>, keys: seq<string>, i: nat)
    requires t in s.users && i <= |ks|
    ensures Adds(s, JoinFrom(s, t, ks, keys, i).s)
    decreases |ks| - i
  {
    if i == |ks| {
      AddsAppended(s, s, []);
    } else {
      var j := JoinOne(s, t, ks[i], KeyAt(keys, i));
      JoinOneAdds(s, t, ks[i], KeyAt(keys, i));
      if j.goOn {
        JoinFromAdds(j.s, t, ks, keys, i + 1);
        AddsTransitive(s, j.s, JoinFrom(s, t, ks, keys, i).s);
      }
    }
  }

  lemma JoinAdds(s: Srv, t: int, m: Msg)
    requires t in s.users
    ensures Adds(s, Join(s, t, m))
  {
    var nick, ks, keys := s.users[t].nick, Channels(m.params), Keys(m.params);
    AddsAppended(s, s, []);
    SayAdds(s, t, Numeric(461, [nick, "JOIN"]));
    SayAdds(s, t, Numeric(400, [nick, "JOIN"]));
    var j := JoinFrom(s, t, ks, keys, 0);
    JoinFromAdds(s, t, ks, keys, 0);
    if t in j.s.users {
      NamesAdds(j.s, t, Parse(NamesLine(ks), nick));
      AddsTransitive(s, j.s, Names(j.s, t, Parse(NamesLine(ks), nick)));
      AddsAppended(j.s, j.s, []);
    }
  }

  lemma PartOneAdds(s: Srv, t: int, nick: string, k: string)
    ensures Adds(s, PartOne(s, t, nick, k))
  {
    SayAdds(s, t, Numeric(403, [nick, k]));
    SayAdds(s, t, Numeric(442, [nick, k]));
    SendToChannelAdds(s, k, Line(PartLine(nick, k)), "");
  }

  lemma {:induction false} PartEachAdds(s: Srv, t: int, nick: string, ks: seq<string>)
    ensures Adds(s, PartEach(s, t, nick, ks))
  {
    if ks == [] {
      AddsAppended(s, s, []);
    } else {
      var s' := PartEach(s, t, nick, ks[..|ks| - 1]);
      PartEachAdds(s, t, nick, ks[..|ks| - 1]);
      PartOneAdds(s', t, nick, ks[|ks| - 1]);
      AddsTransitive(s, s', PartEach(s, t, nick, ks));
    }
  }

  lemma {:induction false} RefuseIsPlain(t: int, nick: string, ps: seq<string>)
    ensures Plain(Refuse(t, nick, ps))
  {
    if ps != [] {
      RefuseIsPlain(t, nick, ps[..|ps| - 1]);
    }
  }

  lemma PartAdds(s: Srv, t: int, m: Msg)
    requires t in s.users
    ensures Adds(s, Part(s, t, m))
  {
    var nick := s.users[t].nick;
    if m.params == [] {
      SayAdds(s, t, Numeric(461, [nick, "PART"]));
    } else {
      var s' := s.(out := s.out + Refuse(t, nick, Keys(m.params)));
      RefuseIsPlain(t, nick, Keys(m.params));
      AddsAppended(s, s', Refuse(t, nick, Keys(m.params)));
      PartEachAdds(s', t, nick, Channels(m.params));
      AddsTransitive(s, s', Part(s, t, m));
    }
  }

  lemma KickAdds(s: Srv, t: int, m: Msg)
    requires t in s.users
    ensures Adds(s, Kick(s, t, m))
  {
    if KickAllowed(s, t, m) {
      var k, n := m.params[0], m.params[1];
      var note := Line(KickLine(s.users[t].nick, k, n));
      var s1 := Say(s, s.channels[k].members[n], note);
      var s2 := RemoveMember(s1, k, n);
      SayAdds(s, s.channels[k].members[n], note);
      SendToChannelAdds(s2, k, note, n);
      AddsTransitive(s, s1, SendToChannel(s2, k, note, n));
    } else {
      SayAdds(s, t, Kick(s, t, m).out[|s.out|].reply);
    }
  }

  // ---- One welcome per login --------------------------------------------------

  /** Whether t's login happens between the two states. */
  predicate LogsIn(s: Srv, s': Srv, t: int) {
    t in s.users && !s.users[t].logged && t in s'.users && s'.users[t].logged
  }

  ghost predicate WelcomedOnLogin(s: Srv, s': Srv, t: int) {
    Welcomes(s'.out, t) == Welcomes(s.out, t) + if LogsIn(s, s', t) then 1 else 0
  }

  lemma LogInWelcomes(s: Srv, t: int, t': int)
    requires t in s.users
    ensures WelcomedOnLogin(s, LogIn(s, t), t')
  {
    assert (s.out + [Delivery(t, Welcome(s.users[t].nick))])[..|s.out|] == s.out;
  }

  /** The rename note goes out before any welcome does. */
  lemma NickNoteAdds(s: Srv, r: Srv, t: int, nick: string, note: Reply)
    requires r.out == s.out && !note.Welcome?
    ensures Adds(s, Say(SendToJoinedChannels(r, nick, note), t, note))
  {
    var s1 := SendToJoinedChannels(r, nick, note);
    SpreadChannelsIsPlain(r.channels, Sorted(r.channels.Keys), nick, note);
    AddsAppended(s, s1, SpreadChannels(r.channels, Sorted(r.channels.Keys), nick, note).out);
    SayAdds(s1, t, note);
    AddsTransitive(s, s1, Say(s1, t, note));
  }

  lemma FlagNickWelcomes(s: Srv, t: int, t': int)
    requires t in s.users
    ensures WelcomedOnLogin(s, FlagNick(s, t), t')
  {
    LogInWelcomes(s.(users := s.users[t := s.users[t].(hasNick := true)]), t, t');
  }

  lemma NickWelcomes(s: Srv, t: int, m: Msg, t': int)
    requires Inv(s) && t in s.users
    ensures WelcomedOnLogin(s, Nick(s, t, m), t')
  {
    if NickAccepted(s, m) {
      TakenNickWelcomes(s, t, m, t');
    } else {
      var r := Nick(s, t, m).out[|s.out|].reply;
      SayAdds(s, t, r);
      AddsNoWelcome(s, Say(s, t, r), t');
    }
  }

  lemma TakenNickWelcomes(s: Srv, t: int, m: Msg, t': int)
    requires Inv(s) && t in s.users && NickAccepted(s, m)
    ensures WelcomedOnLogin(s, Nick(s, t, m), t')
  {
    var note, r := Line(NickLine(s.users[t].nick, m.params[0])), Rename(s, t, m.params[0]);
    var s2 := Say(SendToJoinedChannels(r, m.params[0], note), t, note);
    NickNoteAdds(s, r, t, m.params[0], note);
    AddsNoWelcome(s, s2, t');
    NickFlagsNoted(s, t, m, s2, note);
    FlagNickWelcomes(s2, t, t');
    WelcomedSince(s, s2, FlagNick(s2, t), t, t');
  }

  lemma NickFlagsNoted(s: Srv, t: int, m: Msg, s2: Srv, note: Reply)
    requires t in s.users && NickAccepted(s, m) && note == Line(NickLine(s.users[t].nick, m.params[0]))
    requires s2 == Say(SendToJoinedChannels(Rename(s, t, m.params[0]), m.params[0], note), t, note)
    ensures Nick(s, t, m) == FlagNick(s2, t)
    ensures s2.users == s.users[t := s.users[t].(key := m.params[0], nick := m.params[0])]
  {
    RenameResult(s, t, m.params[0]);
  }

  lemma WelcomedSince(s: Srv, s2: Srv, s': Srv, t: int, t': int)
    requires Welcomes(s2.out, t') == Welcomes(s.out, t') && WelcomedOnLogin(s2, s', t')
    requires t in s.users && t in s2.users && s2.users == s.users[t := s2.users[t]]
    requires s2.users[t].logged == s.users[t].logged
    ensures WelcomedOnLogin(s, s', t')
  {
  }

  lemma UserWelcomes(s: Srv, t: int, m: Msg, t': int)
    requires t in s.users
    ensures WelcomedOnLogin(s, User(s, t, m), t')
  {
    if |m.params| >= 4 && !s.users[t].hasUser {
      LogInWelcomes(s.(users := s.users[t := s.users[t].(hasUser := true)]), t, t');
    } else {
      var r := User(s, t, m).out[|s.out|].reply;
      SayAdds(s, t, r);
      AddsNoWelcome(s, Say(s, t, r), t');
    }
  }

  lemma DispatchAdds(s: Srv, t: int, m: Msg)
    requires t in s.users && ToUpper(m.command) != "NICK" && ToUpper(m.command) != "USER"
    ensures Adds(s, Dispatch(s, t, m))
  {
    var command, nick := ToUpper(m.command), s.users[t].nick;
    AddsAppended(s, s, []);
    if command == "PASS" {
      SayAdds(s, t, Numeric(462, []));
      SayAdds(s, t, Numeric(461, ["PASS"]));
      SayAdds(s, t, Numeric(464, [if nick == "" then "*" else nick]));
    } else if command == "QUIT" {
      QuitAdds(s, t, m.params);
    } else if command == "KILL" {
      KillAdds(s, t, m);
    } else if command == "PRIVMSG" {
      PrivmsgAdds(s, t, m);
    } else if command == "NOTICE" {
      NoticeAdds(s, m);
    } else if command == "JOIN" {
      JoinAdds(s, t, m);
    } else if command == "PART" {
      PartAdds(s, t, m);
    } else if command == "OPER" {
      SayAdds(s, t, Numeric(461, [nick, "OPER"]));
      SayAdds(s, t, Numeric(491, [nick]));
      SayAdds(s, t, Numeric(464, [nick]));
      SayAdds(s, t, Numeric(381, [nick]));
    } else if command == "KICK" {
      KickAdds(s, t, m);
    } else if command == "NAMES" {
      NamesAdds(s, t, m);
    }
  }

  lemma DispatchWelcomes(s: Srv, t: int, m: Msg, t': int)
    requires Inv(s) && t in s.users && Shaped(m) && Defined(s, t, m)
    ensures WelcomedOnLogin(s, Dispatch(s, t, m), t')
  {
    var command, s' := ToUpper(m.command), Dispatch(s, t, m);
    if command == "NICK" {
      if s.users[t].passworded { NickWelcomes(s, t, m, t'); }
    } else if command == "USER" {
      if s.users[t].passworded { UserWelcomes(s, t, m, t'); }
    } else {
      DispatchAdds(s, t, m);
      AddsNoWelcome(s, s', t');
      DispatchLogsNobodyIn(s, t, m, t');
    }
  }

  lemma DispatchLogsNobodyIn(s: Srv, t: int, m: Msg, t': int)
    requires Inv(s) && t in s.users && Shaped(m) && Defined(s, t, m)
    requires ToUpper(m.command) != "NICK" && ToUpper(m.command) != "USER"
    ensures !LogsIn(s, Dispatch(s, t, m), t')
  {
    DispatchSimulates(s, t, m);
    var a, b := Abs(s), Abs(Dispatch(s, t, m));
    assert t' in b.users && b.users[t'].logged ==> t' in a.users && a.users[t'].logged;
  }

  lemma StepWelcomes(s: Srv, e: Event, t: int)
    requires Inv(s) && Enabled(s, e)
    ensures WelcomedOnLogin(s, Step(s, e), t)
  {
    match e
    case Connect(t') =>
    case Hangup(t', v) =>
      QuitFindingAdds(s, t', [HANGUP_TEXT], {v});
      QuitFindingKeepsInv(s, t', [HANGUP_TEXT], v);
      AddsNoWelcome(s, Step(s, e), t);
    case Input(t', line) =>
      InputIsShaped(s, t', line);
      AdmitKeepsInv(s, t');
      DispatchWelcomes(Admit(s, t'), t', MessageOf(s, t', line), t);
  }

  // ---- Flags ------------------------------------------------------------------

  predicate FlagsGrow(u: UserV, u': UserV) {
    && (u.passworded ==> u'.passworded)
    && (u.hasNick ==> u'.hasNick)
    && (u.hasUser ==> u'.hasUser)
    && (u.logged ==> u'.logged)
    && (u.nick != "" ==> u'.nick != "")
  }

  lemma NickFlags(s: Srv, t: int, m: Msg, t': int)
    requires t in s.users && t' in s.users
    ensures t' in Nick(s, t, m).users && FlagsGrow(s.users[t'], Nick(s, t, m).users[t'])
  {
    if NickAccepted(s, m) { NickResult(s, t, m); }
  }

  lemma DispatchFlags(s: Srv, t: int, m: Msg, t': int)
    requires Inv(s) && t in s.users && Shaped(m) && t' in s.users && t' in Dispatch(s, t, m).users
    ensures FlagsGrow(s.users[t'], Dispatch(s, t, m).users[t'])
  {
    var command := ToUpper(m.command);
    if command == "QUIT" || command == "KILL" || command == "PART" || command == "KICK" {
      if Present(s, t) {
        DispatchRemoves(s, t, m);
        RemovesFlags(s, t, m, command, t');
      }
    } else if command == "JOIN" {
      if Present(s, t) {
        DispatchJoin(s, t, m);
        assert UserOk(s.users[t]);
        JoinKeepsInv(s, t, m);
      }
    } else {
      OtherFlags(s, t, m, t');
    }
  }

  lemma RemovesFlags(s: Srv, t: int, m: Msg, command: string, t': int)
    requires Inv(s) && t in s.users && Present(s, t) && Shaped(m) && t' in s.users && t' in Removes(s, t, m, command).users
    ensures Removes(s, t, m, command).users[t'] == s.users[t']
  {
    assert UserOk(s.users[t]);
    if command == "QUIT" {
      QuitKeepsInv(s, t, m.params);
    } else if command == "KILL" {
      KillFlags(s, t, m, t');
    } else if command == "PART" {
      PartEachKeepsInv(s.(out := s.out + Refuse(t, s.users[t].nick, Keys(m.params))), t, s.users[t].nick, Channels(m.params));
    } else {
      KickKeepsInv(s, t, m);
    }
  }

  lemma OtherFlags(s: Srv, t: int, m: Msg, t': int)
    requires t in s.users && t' in s.users
    requires var command := ToUpper(m.command);
             && command != "QUIT" && command != "KILL" && command != "JOIN" && command != "PART" && command != "KICK"
    ensures t' in Dispatch(s, t, m).users && FlagsGrow(s.users[t'], Dispatch(s, t, m).users[t'])
  {
    if ToUpper(m.command) == "NICK" {
      NickFlags(s, t, m, t');
    } else if Present(s, t) {
      MessagesOnlySend(s, t, m);
    }
  }

  lemma KillFlags(s: Srv, t: int, m: Msg, t': int)
    requires Inv(s) && t in s.users && Present(s, t) && Shaped(m) && t' in s.users && t' in Kill(s, t, m).users
    ensures Kill(s, t, m).users[t'] == s.users[t']
  {
    if KillAllowed(s, t, m) {
      assert UserOk(s.users[t]);
      assert ':' !in m.params[1] && MiddleParam(m.params[..|m.params| - 1][0]);
      KillIsQuit(s, t, m);
      var v := SockOf(s, m.params[0]);
      assert UserOk(s.users[v]);
      var s' := Say(s, t, Line(":" + s.users[t].nick + " KILL " + m.params[0] + " :" + m.params[1]));
      QuitKeepsInv(s', v, [KillText(s.users[t].nick, m.params[1])]);
    }
  }

  /** Flags never revert, not even across the copy NICK makes of its user. */
  lemma StepFlags(s: Srv, e: Event, t: int)
    requires Inv(s) && Enabled(s, e) && t in s.users && t in Step(s, e).users
    ensures FlagsGrow(s.users[t], Step(s, e).users[t])
  {
    match e
    case Connect(t') =>
    case Hangup(t', v) =>
      QuitFindingKeepsInv(s, t', [HANGUP_TEXT], v);
    case Input(t', line) =>
      InputIsShaped(s, t', line);
      AdmitKeepsInv(s, t');
      DispatchFlags(Admit(s, t'), t', MessageOf(s, t', line), t);
  }

  // ---- Whole connections ------------------------------------------------------

  /** Connection t was accepted by step j and is open in all states up to i. */
  ghost predicate Connected(states: seq<Srv>, events: seq<Event>, j: nat, i: nat, t: int)
    requires |states| == |events| + 1 && i < |states|
  {
    j < i && events[j] == Connect(t) && forall l :: j < l <= i ==> t in states[l].users
  }

  lemma RunWelcomes(states: seq<Srv>, events: seq<Event>, i: nat, t: int)
    requires IsRun(states, events) && i < |events| && t in states[i].users && t in states[i + 1].users
    ensures WelcomedOnLogin(states[i], states[i + 1], t) && FlagsGrow(states[i].users[t], states[i + 1].users[t])
  {
    RunStep(states, events, i);
    StepWelcomes(states[i], events[i], t);
    StepFlags(states[i], events[i], t);
  }

  lemma RunConnects(states: seq<Srv>, events: seq<Event>, j: nat, t: int)
    requires IsRun(states, events) && j < |events| && events[j] == Connect(t)
    ensures states[j + 1].out == states[j].out && t in states[j + 1].users && states[j + 1].users[t] == Fresh()
  {
    RunStep(states, events, j);
  }

  /** From its connect on, a connection has been sent one welcome if it has logged in,
      and none if it has not. */
  lemma {:induction false} WelcomedExactlyOnce(states: seq<Srv>, events: seq<Event>, j: nat, i: nat, t: int)
    requires IsRun(states, events) && i < |states| && Connected(states, events, j, i, t)
    ensures Welcomes(states[i].out, t) - Welcomes(states[j].out, t) == if states[i].users[t].logged then 1 else 0
    decreases i
  {
    if i == j + 1 {
      RunConnects(states, events, j, t);
    } else {
      WelcomedExactlyOnce(states, events, j, i - 1, t);
      RunWelcomes(states, events, i - 1, t);
    }
  }
}
