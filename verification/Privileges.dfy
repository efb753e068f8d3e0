/** Who may do what: the server password, and the operators. Everything here is about whole
    steps and runs, and follows from the abstract server. */
module Privileges {
  import opened Text
  import opened Messages
  import opened Model
  import opened Invariants
  import opened Steps
  import opened Refinement

  // ---- The server password ----------------------------------------------------

  /** The line is a PASS with the server's password. */
  predicate GivesPassword(s: Srv, m: Msg) {
    ToUpper(m.command) == "PASS" && m.params != [] && m.params[0] == s.password
  }

  lemma NotPassedNotLogged(s: Srv, t: int)
    requires Inv(s) && t in s.users && !s.users[t].passworded
    ensures !s.users[t].logged
  {
    assert UserOk(s.users[t]);
  }

  /** A connection passes by giving the password, and by nothing else it sends. */
  lemma PasswordAdmits(s: Srv, t: int, line: string)
    requires Inv(s) && t in s.users && !s.users[t].passworded && s.password != "" && Enabled(s, Input(t, line))
    ensures var s' := Step(s, Input(t, line));
            t in s'.users && (s'.users[t].passworded <==> GivesPassword(s, MessageOf(s, t, line)))
  {
    StepSimulates(s, Input(t, line));
    NotPassedNotLogged(s, t);
    PassesByCommand(Abs(s), t, MessageOf(s, t, line), Abs(Step(s, Input(t, line))));
  }

  lemma PassesByCommand(a: Abstract, t: int, m: Msg, b: Abstract)
    requires t in a.users && !a.users[t].passed && !a.users[t].logged && Command(a, t, m, b)
    ensures t in b.users
    ensures b.users[t].passed <==> ToUpper(m.command) == "PASS" && m.params != [] && m.params[0] == a.password
  {
  }

  /** Without a server password the first line admits its sender, whatever it says. */
  lemma NoPasswordAdmitsAll(s: Srv, t: int, line: string)
    requires Inv(s) && s.password == "" && Enabled(s, Input(t, line)) && t in Step(s, Input(t, line)).users
    ensures Step(s, Input(t, line)).users[t].passworded
  {
    StepSimulates(s, Input(t, line));
    PassedStays(LetIn(Abs(s), t), t, MessageOf(s, t, line), Abs(Step(s, Input(t, line))));
  }

  lemma PassedStays(a: Abstract, t: int, m: Msg, b: Abstract)
    requires t in a.users && a.users[t].passed && Command(a, t, m, b) && t in b.users
    ensures b.users[t].passed
  {
  }

  /** No event changes what anybody but its own connection is: nickname and flags stay. */
  lemma OthersKeepAttributes(s: Srv, e: Event, t: int)
    requires Inv(s) && Enabled(s, e) && t in Step(s, e).users && t != e.sock
    ensures t in s.users && AttributesOf(Step(s, e).users[t]) == AttributesOf(s.users[t])
  {
    StepSimulates(s, e);
    var a, b := Abs(s), Abs(Step(s, e));
    if e.Input? {
      CommandKeepsOthers(LetIn(a, e.sock), e.sock, MessageOf(s, e.sock, e.line), b, t);
    }
    assert t in b.users && t in a.users && b.users[t] == a.users[t];
  }

  lemma CommandKeepsOthers(a: Abstract, t: int, m: Msg, b: Abstract, t': int)
    requires t in a.users && Command(a, t, m, b) && t' in b.users && t' != t
    ensures t' in a.users && b.users[t'] == a.users[t']
  {
  }

  lemma StepKeepsPassword(s: Srv, e: Event)
    requires Inv(s) && Enabled(s, e)
    ensures Step(s, e).password == s.password
  {
    StepSimulates(s, e);
    AbstractKeepsPassword(Abs(s), e, Abs(Step(s, e)));
  }

  lemma AbstractKeepsPassword(a: Abstract, e: Event, b: Abstract)
    requires AbstractStep(a, e, b)
    ensures b.password == a.password
  {
    if e.Input? {
      CommandKeepsPassword(LetIn(a, e.sock), e.sock, Parse(e.line, a.users[e.sock].nick), b);
    }
  }

  lemma CommandKeepsPassword(a: Abstract, t: int, m: Msg, b: Abstract)
    requires t in a.users && Command(a, t, m, b)
    ensures b.password == a.password
  {
  }

  lemma NextPassword(states: seq<Srv>, events: seq<Event>, i: nat)
    requires IsRun(states, events) && i < |events|
    ensures states[i + 1].password == states[i].password
  {
    RunStep(states, events, i);
    StepKeepsPassword(states[i], events[i]);
  }

  /** Event j was a PASS of t with the password, and t has been connected since. */
  ghost predicate GaveAt(states: seq<Srv>, events: seq<Event>, j: nat, i: nat, t: int)
    requires |states| == |events| + 1 && i < |states|
  {
    j < i && SentPassword(states[0].password, states[j], events[j], t) && StaysOpen(states, j, i, t)
  }

  predicate SentPassword(password: string, s: Srv, e: Event, t: int) {
    && e.Input? && e.sock == t && t in s.users && Parsable(e.line)
    && var m := MessageOf(s, t, e.line);
       ToUpper(m.command) == "PASS" && m.params != [] && m.params[0] == password
  }

  predicate StaysOpen(states: seq<Srv>, j: nat, i: nat, t: int)
    requires i < |states|
  {
    forall l :: j < l <= i ==> t in states[l].users
  }

  lemma {:induction false} RunKeepsPassword(states: seq<Srv>, events: seq<Event>, i: nat)
    requires IsRun(states, events) && i < |states|
    ensures states[i].password == states[0].password
  {
    if i > 0 {
      RunKeepsPassword(states, events, i - 1);
      NextPassword(states, events, i - 1);
    }
  }

  lemma PassingStep(states: seq<Srv>, events: seq<Event>, i: nat, t: int)
    requires IsRun(states, events) && i < |events| && states[0].password != ""
    requires t in states[i + 1].users && states[i + 1].users[t].passworded
    requires !(t in states[i].users && states[i].users[t].passworded)
    ensures Gave(states, events, i + 1, t)
  {
    var s, e := states[i], events[i];
    RunStep(states, events, i);
    RunKeepsPassword(states, events, i);
    if e.sock != t {
      OthersKeepAttributes(s, e, t);
    }
    match e
    case Connect(_) =>
    case Hangup(_, v) =>
      QuitFindingKeepsInv(s, t, [HANGUP_TEXT], v);
    case Input(_, line) =>
      PasswordAdmits(s, t, line);
      assert GaveAt(states, events, i, i + 1, t);
  }

  ghost predicate Gave(states: seq<Srv>, events: seq<Event>, i: nat, t: int)
    requires |states| == |events| + 1 && i < |states|
  {
    exists j :: GaveAt(states, events, j, i, t)
  }

  lemma StillGave(states: seq<Srv>, events: seq<Event>, i: nat, t: int)
    requires |states| == |events| + 1 && i + 1 < |states| && Gave(states, events, i, t) && t in states[i + 1].users
    ensures Gave(states, events, i + 1, t)
  {
    var j :| GaveAt(states, events, j, i, t);
    StillOpen(states, j, i, t);
    assert GaveAt(states, events, j, i + 1, t);
  }

  lemma StillOpen(states: seq<Srv>, j: nat, i: nat, t: int)
    requires i + 1 < |states| && StaysOpen(states, j, i, t) && t in states[i + 1].users
    ensures StaysOpen(states, j, i + 1, t)
  {
  }

  /** When the server has a password, every connection that has passed, and so every one
      that is logged in, has sent it itself since it connected. */
  lemma {:induction false} EveryoneGavePassword(states: seq<Srv>, events: seq<Event>, i: nat, t: int)
    requires IsRun(states, events) && i < |states| && states[0].password != ""
    requires t in states[i].users && (states[i].users[t].passworded || states[i].users[t].logged)
    ensures Gave(states, events, i, t)
  {
    RunKeepsInv(states, events, i);
    assert UserOk(states[i].users[t]);
    if i > 0 {
      if t in states[i - 1].users && states[i - 1].users[t].passworded {
        EveryoneGavePassword(states, events, i - 1, t);
        StillGave(states, events, i - 1, t);
      } else {
        PassingStep(states, events, i - 1, t);
      }
    }
  }

  // ---- Operators --------------------------------------------------------------

  /** NICK goes through on this message. */
  predicate TakesNick(s: Srv, t: int, m: Msg)
    requires t in s.users
  {
    && (s.users[t].passworded || s.password == "")
    && m.params != [] && IsCorrectNick(m.params[0]) && !Taken(s, m.params[0])
  }

  /** A rename takes operator rights along, from the old nickname to the new. */
  lemma OperatorsFollowNick(s: Srv, t: int, line: string)
    requires Inv(s) && t in s.users && Enabled(s, Input(t, line)) && ToUpper(MessageOf(s, t, line).command) == "NICK"
    ensures var o, m, s' := s.users[t].nick, MessageOf(s, t, line), Step(s, Input(t, line));
            s'.operators == if TakesNick(s, t, m) && o != "" && o in s.operators then s.operators - {o} + {m.params[0]}
                            else s.operators
  {
    var m := MessageOf(s, t, line);
    StepSimulates(s, Input(t, line));
    if m.params != [] {
      UsedIsTaken(s, m.params[0]);
      LetInUses(Abs(s), t, m.params[0]);
    }
    assert Abs(Step(s, Input(t, line))).ops == Step(s, Input(t, line)).operators;
  }

  lemma LetInUses(a: Abstract, t: int, nick: string)
    requires t in a.users
    ensures Used(LetIn(a, t), nick) <==> Used(a, nick)
  {
    var b := LetIn(a, t);
    assert forall t' :: t' in a.users ==> t' in b.users && b.users[t'].nick == a.users[t'].nick;
    if Used(a, nick) {
      var t' :| t' in a.users && a.users[t'].nick == nick;
      assert b.users[t'].nick == nick;
    }
  }

  /** A logged-in user becomes an operator by naming itself and giving the password, and by
      nothing else. */
  lemma OperatorsGainCaller(s: Srv, t: int, line: string)
    requires Inv(s) && t in s.users && Enabled(s, Input(t, line)) && ToUpper(MessageOf(s, t, line).command) == "OPER"
    ensures var m, u, s' := MessageOf(s, t, line), s.users[t], Step(s, Input(t, line));
            s'.operators == if u.logged && |m.params| >= 2 && m.params[0] == u.nick && m.params[1] == s.password
                            then s.operators + {u.nick} else s.operators
  {
    StepSimulates(s, Input(t, line));
    CommandGainsOps(LetIn(Abs(s), t), t, MessageOf(s, t, line), Abs(Step(s, Input(t, line))));
  }

  lemma CommandGainsOps(a: Abstract, t: int, m: Msg, b: Abstract)
    requires t in a.users && Command(a, t, m, b) && ToUpper(m.command) == "OPER"
    ensures var u, p := a.users[t], m.params;
            b.ops == if u.logged && |p| >= 2 && p[0] == u.nick && p[1] == a.password then a.ops + {u.nick} else a.ops
  {
  }

  /** No other event touches the operators, not even their own leaving. */
  lemma OperatorsStay(s: Srv, e: Event)
    requires Inv(s) && Enabled(s, e)
    requires e.Input? ==> var command := ToUpper(MessageOf(s, e.sock, e.line).command); command != "NICK" && command != "OPER"
    ensures Step(s, e).operators == s.operators
  {
    StepSimulates(s, e);
    if e.Input? {
      CommandKeepsOps(LetIn(Abs(s), e.sock), e.sock, MessageOf(s, e.sock, e.line), Abs(Step(s, e)));
    }
  }

  lemma CommandKeepsOps(a: Abstract, t: int, m: Msg, b: Abstract)
    requires t in a.users && Command(a, t, m, b) && ToUpper(m.command) != "NICK" && ToUpper(m.command) != "OPER"
    ensures b.ops == a.ops
  {
  }

  // ---- Logging in -------------------------------------------------------------

  /** USER goes through on this message. */
  predicate Signs(s: Srv, t: int, m: Msg)
    requires t in s.users
  {
    ToUpper(m.command) == "USER" && (s.users[t].passworded || s.password == "") && |m.params| >= 4
  }

  /** The user flag is set by such a USER, the login by whichever of NICK and USER comes
      second, and by nothing else. */
  lemma LoginExactly(s: Srv, t: int, line: string)
    requires Inv(s) && t in s.users && Enabled(s, Input(t, line)) && t in Step(s, Input(t, line)).users
    ensures var m, u, u' := MessageOf(s, t, line), s.users[t], Step(s, Input(t, line)).users[t];
            && (u'.hasUser <==> u.hasUser || Signs(s, t, m))
            && (u'.logged <==>
                  || u.logged
                  || (u.nick != "" && Signs(s, t, m))
                  || (u.hasUser && ToUpper(m.command) == "NICK" && TakesNick(s, t, m)))
  {
    var m, a := MessageOf(s, t, line), LetIn(Abs(s), t);
    StepSimulates(s, Input(t, line));
    if m.params != [] {
      UsedIsTaken(s, m.params[0]);
      LetInUses(Abs(s), t, m.params[0]);
    }
    assert UserOk(s.users[t]);
    CommandLogsIn(a, t, m, Abs(Step(s, Input(t, line))));
  }

  lemma CommandLogsIn(a: Abstract, t: int, m: Msg, b: Abstract)
    requires t in a.users && Command(a, t, m, b) && t in b.users
    requires a.users[t].logged ==> a.users[t].signed && a.users[t].nick != ""
    ensures var command, u, u', p := ToUpper(m.command), a.users[t], b.users[t], m.params;
            var signs := command == "USER" && u.passed && |p| >= 4;
            var takes := command == "NICK" && u.passed && p != [] && IsCorrectNick(p[0]) && !Used(a, p[0]);
            && (u'.signed <==> u.signed || signs)
            && (u'.logged <==> u.logged || (u.nick != "" && signs && !u.signed) || (u.signed && takes))
  {
  }
}
