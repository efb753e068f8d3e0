/** Every event the server handles keeps the invariant, so every reachable state has it. */
module Steps {
  import opened Text
  import opened Messages
  import opened Model
  import opened Invariants

  // ---- Leaving: QUIT, KILL and a lost connection ------------------------------

  /** `_users.find(nick)` is bound to return the leaving user's own node exactly when
      the user has a nickname or is the only one without. */
  lemma RemovableExactly(s: Srv, t: int)
    requires Inv(s) && t in s.users
    ensures Removable(s, t) <==> forall v :: v in s.users && s.users[v].key == s.users[t].nick ==> v == t
  {
    forall v | v in s.users ensures s.users[v].key == s.users[v].nick {
      assert UserOk(s.users[v]);
    }
  }

  lemma RemovesItself(s: Srv, t: int)
    requires Inv(s) && t in s.users && Removable(s, t)
    ensures Taken(s, s.users[t].nick) && SockOf(s, s.users[t].nick) == t
  {
    RemovableExactly(s, t);
    assert UserOk(s.users[t]);
  }

  lemma StripKeeps(s: Srv, t: int, k: string)
    requires Inv(s) && t in s.users && k in s.channels
    ensures ChannelOk(k, Strip(s.channels, s.users[t].nick)[k], s.users - {t})
  {
    var nick, c := s.users[t].nick, s.channels[k];
    assert ChannelOk(k, c, s.users);
    SubsetSize((c.members - {nick}).Keys, c.members.Keys);
    forall n | n in c.members && n != nick ensures c.members[n] != t {
      MemberIsUser(s, k, n);
    }
  }

  lemma RemoveNickKeepsInv(s: Srv, t: int)
    requires Inv(s) && t in s.users
    ensures Inv(RemoveNick(s, s.users[t].nick, {t}))
  {
    var nick := s.users[t].nick;
    var stripped, s' := Strip(s.channels, nick), RemoveNick(s, nick, {t});
    forall k | k in s'.channels
      ensures ChannelOk(k, s'.channels[k], s'.users) && s'.channels[k].members.Keys <= s.channels[k].members.Keys
    {
      StripKeeps(s, t, k);
    }
    JoinedShrinks(s.channels, s'.channels);
  }

  /** QUIT takes out the node found, whichever of that nickname it is. */
  lemma QuitFindingKeepsInv(s: Srv, t: int, params: seq<string>, v: int)
    requires Inv(s) && t in s.users && v in s.users && s.users[v].key == s.users[t].nick
    ensures var s' := QuitFinding(s, t, params, {v});
            && s' == RemoveNick(s, s.users[v].nick, {v}).(out := s'.out)
            && Inv(s')
  {
    assert UserOk(s.users[v]);
    RemoveNickKeepsInv(s, v);
  }

  lemma QuitKeepsInv(s: Srv, t: int, params: seq<string>)
    requires Inv(s) && t in s.users && Removable(s, t)
    ensures var s' := Quit(s, t, params);
            && s' == QuitFinding(s, t, params, {t})
            && s' == RemoveNick(s, s.users[t].nick, {t}).(out := s'.out)
            && Inv(s')
  {
    RemovesItself(s, t);
    QuitFindingKeepsInv(s, t, params, t);
  }

  lemma KillTextHasNoColon(killer: string, reason: string)
    requires ':' !in killer && ':' !in reason
    ensures ':' !in KillText(killer, reason)
  {
  }

  /** The line KILL synthesizes parses to QUIT whatever the reason says, and hands the
      whole text on when neither killer nor reason has a colon. */
  lemma KillLineIsQuit(killer: string, reason: string, host: string)
    ensures Parse(KillLine(killer, reason), host).command == "QUIT"
    ensures ':' !in killer && ':' !in reason ==>
              Parse(KillLine(killer, reason), host) == Msg("localhost", "QUIT", [KillText(killer, reason)])
  {
    var words, text := ["localhost", "QUIT"], KillText(killer, reason);
    SpacedTwo("localhost", "QUIT");
    assert ":" + ("localhost" + " " + "QUIT" + " ") + ":" == ":localhost QUIT :";
    assert KillLine(killer, reason) == PrintLine(words, text);
    assert Bare("localhost") && Bare("QUIT");
    ParsePrinted(words, text, host);
    if ':' !in killer && ':' !in reason {
      KillTextHasNoColon(killer, reason);
      assert words[2..] == [];
      ParsePrintedText(words, text, host);
    }
  }

  /** A KILL that passes its guards is a QUIT of the victim, after a note to the killer. */
  lemma KillIsQuit(s: Srv, t: int, m: Msg)
    requires Inv(s) && t in s.users && KillAllowed(s, t, m) && s.users[t].nick != ""
    requires ':' !in m.params[1] && m.params[0] != ""
    ensures var v := SockOf(s, m.params[0]);
            var s' := Say(s, t, Line(":" + s.users[t].nick + " KILL " + m.params[0] + " :" + m.params[1]));
            Kill(s, t, m) == Quit(s', v, [KillText(s.users[t].nick, m.params[1])])
  {
    var nick := s.users[t].nick;
    KillLineIsQuit(nick, m.params[1], s.hostname);
    assert UserOk(s.users[t]);
    CorrectNickIsBare(nick);
    var s' := Say(s, t, Line(":" + nick + " KILL " + m.params[0] + " :" + m.params[1]));
    QuitIsUpper();
    var v := SockOf(s, m.params[0]);
    assert UserOk(s.users[v]);
    SockIsUnique(s, v);
    SockIsUnique(s', v);
  }

  lemma QuitIsUpper()
    ensures ToUpper("QUIT") == "QUIT"
  {
  }

  lemma CorrectNickIsBare(nick: string)
    requires IsCorrectNick(nick)
    ensures Bare(nick) && ',' !in nick && '@' !in nick
  {
    forall c | c in nick ensures IsNickChar(c) {
      var i :| 0 <= i < |nick| && nick[i] == c;
      assert IsLetter(nick[0]);
    }
  }

  // ---- NICK and USER ----------------------------------------------------------

  function Renamed(u: UserV, nick: string): UserV {
    u.(key := nick, nick := nick, hasNick := true, logged := u.logged || u.hasUser)
  }

  lemma FlagNickResult(s: Srv, t: int)
    requires t in s.users
    ensures var u, s' := s.users[t], FlagNick(s, t);
            s' == s.(users := s.users[t := u.(hasNick := true, logged := u.logged || u.hasUser)], out := s'.out)
  {
  }

  lemma NickResult(s: Srv, t: int, m: Msg)
    requires t in s.users && NickAccepted(s, m)
    ensures var s' := Nick(s, t, m);
            s' == Rename(s, t, m.params[0]).(users := s.users[t := Renamed(s.users[t], m.params[0])], out := s'.out)
  {
    var r := Rename(s, t, m.params[0]);
    var note := Line(NickLine(s.users[t].nick, m.params[0]));
    var s1 := Say(SendToJoinedChannels(r, m.params[0], note), t, note);
    RenameResult(s, t, m.params[0]);
    FlagNickResult(s1, t);
    UpdateTwice(s.users, t, r.users[t], Renamed(s.users[t], m.params[0]));
  }

  lemma RenameResult(s: Srv, t: int, nick: string)
    requires t in s.users
    ensures Rename(s, t, nick).users == s.users[t := s.users[t].(key := nick, nick := nick)]
  {
  }

  lemma UpdateTwice<K, V>(m: map<K, V>, t: K, a: V, b: V)
    ensures m[t := a][t := b] == m[t := b]
  {
  }

  lemma NickKeepsInv(s: Srv, t: int, m: Msg)
    requires Inv(s) && t in s.users && s.users[t].passworded
    ensures Inv(Nick(s, t, m))
  {
    if NickAccepted(s, m) {
      NickResult(s, t, m);
      assert UserOk(s.users[t]);
      RenameKeepsOk(s, t, m.params[0], Renamed(s.users[t], m.params[0]));
    }
  }

  lemma UserKeepsInv(s: Srv, t: int, m: Msg)
    requires Inv(s) && t in s.users && s.users[t].passworded
    ensures Inv(User(s, t, m))
  {
    var u := s.users[t];
    assert UserOk(u);
    var u' := u.(hasUser := true, logged := u.logged || u.hasNick);
    FlagsKeepOk(s.users, s.channels, t, u');
    if |m.params| >= 4 && !u.hasUser {
      assert User(s, t, m).users == s.users[t := u'];
    }
  }

  lemma PassKeepsInv(s: Srv, t: int, m: Msg)
    requires Inv(s) && t in s.users
    ensures Inv(Pass(s, t, m))
  {
    assert UserOk(s.users[t]);
    FlagsKeepOk(s.users, s.channels, t, s.users[t].(passworded := true));
  }

  lemma AdmitKeepsInv(s: Srv, t: int)
    requires Inv(s) && t in s.users
    ensures Inv(Admit(s, t))
  {
    assert UserOk(s.users[t]);
    FlagsKeepOk(s.users, s.channels, t, s.users[t].(passworded := true));
  }

  // ---- JOIN, PART, KICK -------------------------------------------------------

  /** What one round of JOIN may do: nothing, enter channel k, or create it. */
  predicate JoinEffect(s: Srv, t: int, k: string, key: Option<string>, s': Srv) {
    && t in s.users && s'.users == s.users
    && (|| s'.channels == s.channels
        || (&& |JoinedBy(s.channels, s.users[t].nick)| <= LIMIT
            && if k in s.channels
               then KeyOpens(s.channels[k], key)
                 && s'.channels == s.channels[k := AddUser(s.channels[k], s.users[t].nick, t)]
               else s'.channels == s.channels[k := NewChannel(k, key, s.users[t].nick, t)]))
  }

  lemma JoinOneEffect(s: Srv, t: int, k: string, key: Option<string>)
    requires t in s.users
    ensures JoinEffect(s, t, k, key, JoinOne(s, t, k, key).s)
  {
  }

  lemma EffectKeepsInv(s: Srv, t: int, k: string, key: Option<string>, s': Srv)
    requires Inv(s) && JoinEffect(s, t, k, key, s') && s.users[t].logged && IsChannelName(k)
    ensures Inv(s')
  {
    if s'.channels != s.channels {
      if k in s.channels {
        AddMemberKeepsOk(s.users, s.channels, t, k);
      } else {
        CreateKeepsOk(s.users, s.channels, t, k, key);
      }
    }
  }

  ghost predicate Keeps(s: Srv, s': Srv) {
    Inv(s') && s'.users == s.users
  }

  lemma JoinOneKeepsInv(s: Srv, t: int, k: string, key: Option<string>)
    requires Inv(s) && t in s.users && s.users[t].logged && IsChannelName(k)
    ensures Keeps(s, JoinOne(s, t, k, key).s)
  {
    JoinOneEffect(s, t, k, key);
    EffectKeepsInv(s, t, k, key, JoinOne(s, t, k, key).s);
  }

  lemma {:induction false} JoinFromKeepsInv(s: Srv, t: int, ks: seq<string>, keys: seq<string>, i: nat)
    requires Inv(s) && t in s.users && s.users[t].logged && i <= |ks|
    requires forall j :: 0 <= j < |ks| ==> IsChannelName(ks[j])
    ensures Keeps(s, JoinFrom(s, t, ks, keys, i).s)
    decreases |ks| - i
  {
    if i < |ks| {
      JoinOneKeepsInv(s, t, ks[i], KeyAt(keys, i));
      var j := JoinOne(s, t, ks[i], KeyAt(keys, i));
      if j.goOn {
        JoinFromKeepsInv(j.s, t, ks, keys, i + 1);
      }
    }
  }

  lemma {:induction false} ChannelsAreParams(params: seq<string>)
    ensures forall i :: 0 <= i < |Channels(params)| ==> Channels(params)[i] in params && IsChannelParam(Channels(params)[i])
  {
    if params != [] {
      ChannelsAreParams(params[..|params| - 1]);
    }
  }

  lemma JoinedNamesAreNames(params: seq<string>)
    requires ColonFree(params) && forall i :: 0 <= i < |params| ==> IsCleanParam(params[i])
    ensures forall i :: 0 <= i < |Channels(params)| ==> IsChannelName(Channels(params)[i])
  {
    ChannelsAreParams(params);
  }

  lemma JoinKeepsInv(s: Srv, t: int, m: Msg)
    requires Inv(s) && t in s.users && s.users[t].logged && ColonFree(m.params)
    ensures Inv(Join(s, t, m)) && Join(s, t, m).users == s.users
  {
    if forall i :: 0 <= i < |m.params| ==> IsCleanParam(m.params[i]) {
      JoinedNamesAreNames(m.params);
      JoinFromKeepsInv(s, t, Channels(m.params), Keys(m.params), 0);
    }
  }

  lemma PartOneKeepsInv(s: Srv, t: int, nick: string, k: string)
    requires Inv(s)
    ensures Inv(PartOne(s, t, nick, k)) && PartOne(s, t, nick, k).users == s.users
  {
    if k in s.channels && nick in s.channels[k].members {
      RemoveMemberKeepsInv(s, k, nick);
    }
  }

  lemma {:induction false} PartEachKeepsInv(s: Srv, t: int, nick: string, ks: seq<string>)
    requires Inv(s)
    ensures Inv(PartEach(s, t, nick, ks)) && PartEach(s, t, nick, ks).users == s.users
  {
    if ks != [] {
      PartEachKeepsInv(s, t, nick, ks[..|ks| - 1]);
      PartOneKeepsInv(PartEach(s, t, nick, ks[..|ks| - 1]), t, nick, ks[|ks| - 1]);
    }
  }

  lemma KickKeepsInv(s: Srv, t: int, m: Msg)
    requires Inv(s) && t in s.users
    ensures Inv(Kick(s, t, m)) && Kick(s, t, m).users == s.users
  {
    if KickAllowed(s, t, m) {
      var k, n := m.params[0], m.params[1];
      var note := Line(KickLine(s.users[t].nick, k, n));
      var s' := Say(s, s.channels[k].members[n], note);
      RemoveMemberKeepsInv(s', k, n);
      assert Kick(s, t, m) == SendToChannel(RemoveMember(s', k, n), k, note, n);
    }
  }

  // ---- PRIVMSG and NOTICE -----------------------------------------------------

  predicate OnlySends(s: Srv, s': Srv) {
    s' == s.(out := s'.out)
  }

  lemma {:induction false} PrivmsgEachOnlySends(s: Srv, t: int, prefix: string, targets: seq<string>, text: string)
    requires t in s.users
    ensures OnlySends(s, PrivmsgEach(s, t, prefix, targets, text))
    decreases |targets|
  {
    if targets != [] {
      var n := targets[0];
      var r := Line(RelayLine(prefix, n, text));
      if Taken(s, n) {
        PrivmsgEachOnlySends(Say(s, SockOf(s, n), r), t, prefix, targets[1..], text);
      } else if n in s.channels {
        PrivmsgEachOnlySends(SendToChannel(s, n, r, prefix), t, prefix, targets[1..], text);
      }
    }
  }

  lemma {:induction false} NoticeEachOnlySends(s: Srv, prefix: string, targets: seq<string>, text: string)
    ensures OnlySends(s, NoticeEach(s, prefix, targets, text))
    decreases |targets|
  {
    if targets != [] {
      var n := targets[0];
      var r := Line(RelayLine(prefix, n, text));
      if Taken(s, n) {
        NoticeEachOnlySends(Say(s, SockOf(s, n), r), prefix, targets[1..], text);
      } else if n in s.channels {
        NoticeEachOnlySends(SendToChannel(s, n, r, prefix), prefix, targets[1..], text);
      }
    }
  }

  lemma MessagesOnlySend(s: Srv, t: int, m: Msg)
    requires t in s.users
    ensures OnlySends(s, Privmsg(s, t, m)) && OnlySends(s, Notice(s, m))
  {
    if |m.params| > 1 {
      var n := |m.params| - 1;
      PrivmsgEachOnlySends(s, t, m.prefix, m.params[..n], m.params[n]);
      NoticeEachOnlySends(s, m.prefix, m.params[..n], m.params[n]);
    }
  }

  // ---- All of them ------------------------------------------------------------

  /** What the parser guarantees of the messages the dispatcher sees. */
  lemma InputIsShaped(s: Srv, t: int, line: string)
    requires Inv(s) && t in s.users && Parsable(line)
    ensures Shaped(MessageOf(s, t, line))
    ensures s.users[t].nick != "" ==> MessageOf(s, t, line).prefix != ""
  {
    assert UserOk(s.users[t]);
    if s.users[t].nick != "" {
      CorrectNickIsBare(s.users[t].nick);
    }
    ParseShape(line, s.users[t].nick);
  }

  /** The commands that take members out. */
  ghost function Removes(s: Srv, t: int, m: Msg, command: string): Srv
    requires t in s.users
  {
    if command == "QUIT" then Quit(s, t, m.params)
    else if command == "KILL" then Kill(s, t, m)
    else if command == "PART" then Part(s, t, m)
    else Kick(s, t, m)
  }

  lemma DispatchRemoves(s: Srv, t: int, m: Msg)
    requires t in s.users && Present(s, t)
    requires var command := ToUpper(m.command);
             command == "QUIT" || command == "KILL" || command == "PART" || command == "KICK"
    ensures Dispatch(s, t, m) == Removes(s, t, m, ToUpper(m.command))
  {
    if ToUpper(m.command) == "QUIT" {
      DispatchQuit(s, t, m);
    } else if ToUpper(m.command) == "KILL" {
      DispatchKill(s, t, m);
    } else if ToUpper(m.command) == "PART" {
      DispatchPart(s, t, m);
    } else {
      DispatchKick(s, t, m);
    }
  }

  lemma DispatchQuit(s: Srv, t: int, m: Msg)
    requires t in s.users && Present(s, t) && ToUpper(m.command) == "QUIT"
    ensures Dispatch(s, t, m) == Quit(s, t, m.params)
  {
  }

  lemma DispatchPart(s: Srv, t: int, m: Msg)
    requires t in s.users && Present(s, t) && ToUpper(m.command) == "PART"
    ensures Dispatch(s, t, m) == Part(s, t, m)
  {
  }

  lemma DispatchKick(s: Srv, t: int, m: Msg)
    requires t in s.users && Present(s, t) && ToUpper(m.command) == "KICK"
    ensures Dispatch(s, t, m) == Kick(s, t, m)
  {
  }

  lemma DispatchJoin(s: Srv, t: int, m: Msg)
    requires t in s.users && Present(s, t) && ToUpper(m.command) == "JOIN"
    ensures Dispatch(s, t, m) == Join(s, t, m)
  {
  }

  lemma DispatchKill(s: Srv, t: int, m: Msg)
    requires t in s.users && Present(s, t) && ToUpper(m.command) == "KILL"
    ensures Dispatch(s, t, m) == Kill(s, t, m)
  {
  }

  lemma KillKeepsInv(s: Srv, t: int, m: Msg)
    requires Inv(s) && t in s.users && Present(s, t) && Shaped(m)
    ensures Inv(Kill(s, t, m))
  {
    if KillAllowed(s, t, m) {
      assert UserOk(s.users[t]);
      assert ':' !in m.params[1] && MiddleParam(m.params[..|m.params| - 1][0]);
      KillIsQuit(s, t, m);
      var v := SockOf(s, m.params[0]);
      assert UserOk(s.users[v]);
      var s' := Say(s, t, Line(":" + s.users[t].nick + " KILL " + m.params[0] + " :" + m.params[1]));
      QuitKeepsInv(s', v, [KillText(s.users[t].nick, m.params[1])]);
    }
  }

  lemma DispatchKeepsInv(s: Srv, t: int, m: Msg)
    requires Inv(s) && t in s.users && Shaped(m)
    ensures Inv(Dispatch(s, t, m))
  {
    var command := ToUpper(m.command);
    assert UserOk(s.users[t]);
    if command == "PASS" {
      PassKeepsInv(s, t, m);
    } else if command == "NICK" {
      if s.users[t].passworded { NickKeepsInv(s, t, m); }
    } else if command == "USER" {
      if s.users[t].passworded { UserKeepsInv(s, t, m); }
    } else if Present(s, t) {
      if command == "QUIT" {
        QuitKeepsInv(s, t, m.params);
      } else if command == "KILL" {
        KillKeepsInv(s, t, m);
      } else if command == "PRIVMSG" || command == "NOTICE" {
        MessagesOnlySend(s, t, m);
      } else if command == "JOIN" {
        JoinKeepsInv(s, t, m);
      } else if command == "PART" {
        PartEachKeepsInv(s.(out := s.out + Refuse(t, s.users[t].nick, Keys(m.params))), t, s.users[t].nick, Channels(m.params));
      } else if command == "KICK" {
        KickKeepsInv(s, t, m);
      }
    }
  }

  lemma StepKeepsInv(s: Srv, e: Event)
    requires Inv(s) && Enabled(s, e)
    ensures Inv(Step(s, e))
  {
    match e
    case Connect(t) =>
      ConnectKeepsOk(s.users, s.channels, t);
    case Input(t, line) =>
      InputIsShaped(s, t, line);
      AdmitKeepsInv(s, t);
      DispatchKeepsInv(Admit(s, t), t, MessageOf(s, t, line));
    case Hangup(t, v) =>
      QuitFindingKeepsInv(s, t, [HANGUP_TEXT], v);
  }

  /** A line of a logged-in user goes straight to the dispatch. */
  lemma PresentStep(s: Srv, t: int, line: string)
    requires t in s.users && Present(s, t) && Enabled(s, Input(t, line))
    ensures Admit(s, t) == s && Defined(s, t, MessageOf(s, t, line))
    ensures Step(s, Input(t, line)) == Dispatch(s, t, MessageOf(s, t, line))
  {
    assert s.users[t := s.users[t]] == s.users;
  }

  lemma InitialInv(s: Srv)
    requires IsInitial(s)
    ensures Inv(s)
  {
    forall n: string ensures JoinedBy(s.channels, n) == {} {}
  }

  lemma NextInv(states: seq<Srv>, events: seq<Event>, i: nat)
    requires IsRun(states, events) && i < |events| && Inv(states[i])
    ensures Inv(states[i + 1])
  {
    assert StepAt(states, events, i);
    StepKeepsInv(states[i], events[i]);
  }

  /** Every reachable state satisfies the invariant. */
  lemma {:induction false} RunKeepsInv(states: seq<Srv>, events: seq<Event>, i: nat)
    requires IsRun(states, events) && i < |states|
    ensures Inv(states[i])
  {
    if i == 0 {
      InitialInv(states[0]);
    } else {
      RunKeepsInv(states, events, i - 1);
      NextInv(states, events, i - 1);
    }
  }

  lemma RunStep(states: seq<Srv>, events: seq<Event>, i: nat)
    requires IsRun(states, events) && i < |events|
    ensures Enabled(states[i], events[i]) && states[i + 1] == Step(states[i], events[i])
    ensures Inv(states[i]) && Inv(states[i + 1])
  {
    RunKeepsInv(states, events, i);
    RunKeepsInv(states, events, i + 1);
    RunTakesStep(states, events, i);
  }

  lemma RunTakesStep(states: seq<Srv>, events: seq<Event>, i: nat)
    requires IsRun(states, events) && i < |events|
    ensures Enabled(states[i], events[i]) && states[i + 1] == Step(states[i], events[i])
  {
    assert StepAt(states, events, i);
  }
}
