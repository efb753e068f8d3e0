/** What is left after QUIT, KILL and a lost connection. */
module Leaving {
  import opened Text
  import opened Messages
  import opened Model
  import opened Invariants
  import opened Steps
  import opened Refinement

  /** User t is gone: no longer in the table, its nickname free and in no channel, every
      other user as it was, and every membership but t's too. */
  predicate Gone(s: Srv, t: int, s': Srv)
    requires t in s.users
  {
    && s'.users == s.users - {t}
    && (s.users[t].nick != "" ==> !Taken(s', s.users[t].nick))
    && (forall k :: k in s'.channels ==> s.users[t].nick !in s'.channels[k].members)
    && Rel(s') == Leave(Abs(s), t).rel
  }

  lemma LeftIsGone(s: Srv, t: int, s': Srv)
    requires Inv(s) && Inv(s') && Left(s, t, s')
    ensures Gone(s, t, s')
  {
    LeaveRel(s, t, s');
    if s.users[t].nick != "" {
      forall t' | t' in s'.users ensures s'.users[t'].key != s.users[t].nick {
        assert UserOk(s.users[t']);
      }
    }
  }

  lemma QuitterIsGone(s: Srv, t: int, line: string)
    requires Inv(s) && t in s.users && Present(s, t) && Enabled(s, Input(t, line))
    requires ToUpper(MessageOf(s, t, line).command) == "QUIT"
    ensures Gone(s, t, Step(s, Input(t, line)))
  {
    PresentStep(s, t, line);
    assert UserOk(s.users[t]);
    QuitKeepsInv(s, t, MessageOf(s, t, line).params);
    LeftIsGone(s, t, Step(s, Input(t, line)));
  }

  /** What goes with a lost connection is the node found under its nickname: its own,
      unless it has no nickname and is not the only one without. */
  lemma LostIsGone(s: Srv, t: int, v: int)
    requires Inv(s) && Enabled(s, Hangup(t, v))
    ensures Gone(s, v, Step(s, Hangup(t, v))) && (Removable(s, t) ==> v == t)
  {
    QuitFindingKeepsInv(s, t, [HANGUP_TEXT], v);
    LeftIsGone(s, v, Step(s, Hangup(t, v)));
    RemovableExactly(s, t);
  }

  /** A KILL by an operator of somebody else who is there: the victim is gone, and nobody
      else is touched. */
  lemma KilledIsGone(s: Srv, t: int, line: string)
    requires Inv(s) && t in s.users && Present(s, t) && Enabled(s, Input(t, line))
    requires ToUpper(MessageOf(s, t, line).command) == "KILL" && KillAllowed(s, t, MessageOf(s, t, line))
    ensures var v := SockOf(s, MessageOf(s, t, line).params[0]);
            v != t && s.users[v].nick == MessageOf(s, t, line).params[0] && Gone(s, v, Step(s, Input(t, line)))
  {
    var m := MessageOf(s, t, line);
    InputIsShaped(s, t, line);
    KillStep(s, t, line);
    VictimGone(s, t, m);
  }

  lemma KillStep(s: Srv, t: int, line: string)
    requires t in s.users && Present(s, t) && Enabled(s, Input(t, line))
    requires ToUpper(MessageOf(s, t, line).command) == "KILL" && KillAllowed(s, t, MessageOf(s, t, line))
    ensures Step(s, Input(t, line)) == Kill(s, t, MessageOf(s, t, line))
    ensures MessageOf(s, t, line).params[0] != s.users[t].nick
  {
    PresentStep(s, t, line);
    DispatchKill(s, t, MessageOf(s, t, line));
  }

  lemma VictimGone(s: Srv, t: int, m: Msg)
    requires Inv(s) && t in s.users && Present(s, t) && Shaped(m) && KillAllowed(s, t, m) && m.params[0] != s.users[t].nick
    ensures var v := SockOf(s, m.params[0]);
            v != t && s.users[v].nick == m.params[0] && Gone(s, v, Kill(s, t, m))
  {
    assert UserOk(s.users[t]);
    assert ':' !in m.params[1] && MiddleParam(m.params[..|m.params| - 1][0]);
    KillIsQuit(s, t, m);
    var v := SockOf(s, m.params[0]);
    assert UserOk(s.users[v]);
    var s' := Say(s, t, Line(":" + s.users[t].nick + " KILL " + m.params[0] + " :" + m.params[1]));
    QuitKeepsInv(s', v, [KillText(s.users[t].nick, m.params[1])]);
    LeftIsGone(s, v, Kill(s, t, m));
  }

  /** An empty channel can stay behind: a user alone in the only two channels loses its
      connection, the first is erased and the sweep passes over the second. */
  lemma EmptyChannelStays(s: Srv, t: int, a: string, b: string)
    requires Inv(s) && t in s.users && s.users[t].nick != "" && Less(a, b) && s.channels.Keys == {a, b}
    requires s.channels[a].members == map[s.users[t].nick := t] == s.channels[b].members
    ensures var s' := Step(s, Hangup(t, t));
            s'.channels.Keys == {b} && s'.channels[b].members == map[]
  {
    QuitSweeps(s, t);
    SecondStays(s.channels, s.users[t].nick, t, a, b);
  }

  lemma QuitSweeps(s: Srv, t: int)
    requires Inv(s) && t in s.users && s.users[t].nick != ""
    ensures Enabled(s, Hangup(t, t)) && Step(s, Hangup(t, t)).channels == Sweep(Strip(s.channels, s.users[t].nick))
  {
    assert UserOk(s.users[t]);
    QuitFindingKeepsInv(s, t, [HANGUP_TEXT], t);
  }

  lemma SecondStays(channels: map<string, ChannelV>, nick: string, t: int, a: string, b: string)
    requires Less(a, b) && channels.Keys == {a, b}
    requires channels[a].members == map[nick := t] == channels[b].members
    ensures var swept := Sweep(Strip(channels, nick)); swept.Keys == {b} && swept[b].members == map[]
  {
    var stripped := Strip(channels, nick);
    LessIsTotal(a, b);
    LeastOfTwo(a, b);
    assert stripped.Keys == {a, b};
    assert stripped[a].members.Keys == {} && stripped[b].members.Keys == {};
    assert SweepMisses(stripped, b) && !SweepMisses(stripped, a);
  }

  lemma LeastOfTwo(a: string, b: string)
    requires Less(a, b) && a != b
    ensures |{a, b}| == 2 && Least({a, b}) == a && {a, b} - {a} == {b} && Least({b}) == b
  {
    assert IsLeast(a, {a, b});
    LeastIsUnique(a, Least({a, b}), {a, b});
  }
}
