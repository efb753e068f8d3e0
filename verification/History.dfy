/** Facts about whole runs: who holds the chop entry of a channel, that its key never
    changes, and how each member got in. */
module History {
  import opened Text
  import opened Messages
  import opened Model
  import opened Invariants
  import opened Steps
  import opened Refinement

  /** What no command but NICK changes in a channel. */
  predicate Fate(c: ChannelV, c': ChannelV) {
    c'.pass == c.pass && c'.chops == c.chops
  }

  predicate Grows(s: Srv, s': Srv) {
    forall k :: k in s.channels ==> k in s'.channels && Fate(s.channels[k], s'.channels[k])
  }

  predicate Shrinks(s: Srv, s': Srv) {
    forall k :: k in s'.channels ==> k in s.channels && Fate(s.channels[k], s'.channels[k])
  }

  // ---- JOIN: what it splits, creates and opens --------------------------------

  /** The split of JOIN's parameters is a stable partition: a parameter goes to the list
      of its kind, at the position given by how many of its kind came before it. */
  lemma {:induction false} StablePartition(params: seq<string>, i: nat)
    requires i < |params|
    ensures IsChannelParam(params[i]) ==> IsAt(Channels(params), |Channels(params[..i])|, params[i])
    ensures !IsChannelParam(params[i]) ==> IsAt(Keys(params), |Keys(params[..i])|, params[i])
    ensures |Channels(params)| + |Keys(params)| == |params|
    decreases |params|
  {
    ChannelsAndKeys(params);
    var init := params[..|params| - 1];
    if i < |init| {
      StablePartition(init, i);
      assert init[..i] == params[..i];
    }
  }

  predicate IsAt(list: seq<string>, i: nat, p: string) {
    i < |list| && list[i] == p
  }

  /** The new channels of a JOIN hold their creator as the only chop. */
  predicate CreatedBy(s: Srv, s': Srv, nick: string) {
    forall k :: k in s'.channels && k !in s.channels ==> s'.channels[k].chops == [nick]
  }

  /** Channel k is named at a position whose key, or none, is the channel's key. */
  predicate Opened(s: Srv, k: string, ks: seq<string>, keys: seq<string>) {
    k in s.channels && exists i :: 0 <= i < |ks| && ks[i] == k && s.channels[k].pass == if i < |keys| then keys[i] else ""
  }

  /** Somebody has come into channel k, or created it. */
  predicate Entered(s: Srv, s': Srv, k: string) {
    k in s'.channels && (k in s.channels ==> s'.channels[k].members != s.channels[k].members)
  }

  lemma EffectHistory(s: Srv, t: int, k: string, key: Option<string>, s': Srv)
    requires JoinEffect(s, t, k, key, s')
    ensures Grows(s, s') && CreatedBy(s, s', s.users[t].nick)
    ensures forall k' :: Entered(s, s', k') ==> k' == k && KeyOpens(s'.channels[k], key)
  {
  }

  lemma JoinOneHistory(s: Srv, t: int, k: string, key: Option<string>)
    requires t in s.users
    ensures var s' := JoinOne(s, t, k, key).s;
            && s'.users == s.users
            && Grows(s, s') && CreatedBy(s, s', s.users[t].nick)
            && forall k' :: Entered(s, s', k') ==> k' == k && KeyOpens(s'.channels[k], key)
  {
    JoinOneEffect(s, t, k, key);
    EffectHistory(s, t, k, key, JoinOne(s, t, k, key).s);
  }

  lemma {:induction false} JoinFromHistory(s: Srv, t: int, ks: seq<string>, keys: seq<string>, i: nat)
    requires t in s.users && i <= |ks|
    ensures var s' := JoinFrom(s, t, ks, keys, i).s;
            && s'.users == s.users
            && Grows(s, s') && CreatedBy(s, s', s.users[t].nick)
            && forall k :: Entered(s, s', k) ==> Opened(s', k, ks, keys)
    decreases |ks| - i
  {
    if i < |ks| {
      JoinOneHistory(s, t, ks[i], KeyAt(keys, i));
      var j := JoinOne(s, t, ks[i], KeyAt(keys, i));
      if j.goOn {
        JoinFromHistory(j.s, t, ks, keys, i + 1);
        var s' := JoinFrom(j.s, t, ks, keys, i + 1).s;
        forall k | Entered(s, s', k) ensures Opened(s', k, ks, keys) {
          assert Entered(s, j.s, k) || Entered(j.s, s', k);
        }
      }
    }
  }

  lemma JoinHistory(s: Srv, t: int, m: Msg)
    requires t in s.users
    ensures var s' := Join(s, t, m);
            && Grows(s, s') && CreatedBy(s, s', s.users[t].nick)
            && forall k :: Entered(s, s', k) ==> Opened(s', k, Channels(m.params), Keys(m.params))
  {
    var ks, keys := Channels(m.params), Keys(m.params);
    JoinFromHistory(s, t, ks, keys, 0);
    JoinChannels(s, t, m);
    var s', j := Join(s, t, m), JoinFrom(s, t, ks, keys, 0).s;
    forall k | Entered(s, s', k) ensures Opened(s', k, ks, keys) {
      assert JoinReads(m) && s'.channels == j.channels && Entered(s, j, k);
    }
  }

  // ---- The other commands -----------------------------------------------------

  lemma {:induction false} PartEachShrinks(s: Srv, t: int, nick: string, ks: seq<string>)
    ensures Shrinks(s, PartEach(s, t, nick, ks))
  {
    if ks != [] {
      PartEachShrinks(s, t, nick, ks[..|ks| - 1]);
    }
  }

  lemma PartShrinks(s: Srv, t: int, m: Msg)
    requires t in s.users
    ensures Shrinks(s, Part(s, t, m))
  {
    var s' := s.(out := s.out + Refuse(t, s.users[t].nick, Keys(m.params)));
    PartEachShrinks(s', t, s.users[t].nick, Channels(m.params));
  }

  lemma KickShrinks(s: Srv, t: int, m: Msg)
    requires t in s.users
    ensures Shrinks(s, Kick(s, t, m))
  {
  }

  lemma QuitShrinks(s: Srv, t: int, params: seq<string>)
    requires Inv(s) && t in s.users && Removable(s, t)
    ensures Shrinks(s, Quit(s, t, params))
  {
    QuitKeepsInv(s, t, params);
  }

  lemma KillShrinks(s: Srv, t: int, m: Msg)
    requires Inv(s) && t in s.users && Present(s, t) && Shaped(m)
    ensures Shrinks(s, Kill(s, t, m))
  {
    if KillAllowed(s, t, m) {
      assert UserOk(s.users[t]);
      assert ':' !in m.params[1] && MiddleParam(m.params[..|m.params| - 1][0]);
      KillIsQuit(s, t, m);
      var v := SockOf(s, m.params[0]);
      assert UserOk(s.users[v]);
      var s' := Say(s, t, Line(":" + s.users[t].nick + " KILL " + m.params[0] + " :" + m.params[1]));
      QuitShrinks(s', v, [KillText(s.users[t].nick, m.params[1])]);
    }
  }

  /** Commands that touch no channel. */
  predicate IsElsewhere(command: string) {
    && command != "NICK" && command != "QUIT" && command != "KILL"
    && command != "JOIN" && command != "PART" && command != "KICK"
  }

  lemma DispatchElsewhere(s: Srv, t: int, m: Msg)
    requires t in s.users && (IsElsewhere(ToUpper(m.command)) || (!Present(s, t) && ToUpper(m.command) != "NICK"))
    ensures Dispatch(s, t, m).channels == s.channels
  {
    if Present(s, t) {
      MessagesOnlySend(s, t, m);
    }
  }

  lemma DispatchFate(s: Srv, t: int, m: Msg)
    requires Inv(s) && t in s.users && Shaped(m) && ToUpper(m.command) != "NICK"
    ensures var s' := Dispatch(s, t, m);
            if ToUpper(m.command) == "JOIN" then Grows(s, s') && CreatedBy(s, s', s.users[t].nick) else Shrinks(s, s')
  {
    if ToUpper(m.command) != "JOIN" {
      DispatchShrinks(s, t, m);
    } else if Present(s, t) {
      DispatchJoin(s, t, m);
      JoinHistory(s, t, m);
    } else {
      DispatchElsewhere(s, t, m);
      assert Dispatch(s, t, m).channels == s.channels;
    }
  }

  lemma DispatchShrinks(s: Srv, t: int, m: Msg)
    requires Inv(s) && t in s.users && Shaped(m) && ToUpper(m.command) != "NICK" && ToUpper(m.command) != "JOIN"
    ensures Shrinks(s, Dispatch(s, t, m))
  {
    if IsElsewhere(ToUpper(m.command)) || !Present(s, t) {
      DispatchElsewhere(s, t, m);
    } else {
      DispatchRemoves(s, t, m);
      RemovesShrinks(s, t, m, ToUpper(m.command));
    }
  }

  lemma RemovesShrinks(s: Srv, t: int, m: Msg, command: string)
    requires Inv(s) && t in s.users && Present(s, t) && Shaped(m)
    ensures Shrinks(s, Removes(s, t, m, command))
  {
    assert UserOk(s.users[t]);
    if command == "QUIT" {
      QuitShrinks(s, t, m.params);
    } else if command == "KILL" {
      KillShrinks(s, t, m);
    } else if command == "PART" {
      PartShrinks(s, t, m);
    } else {
      KickShrinks(s, t, m);
    }
  }

  lemma NickFate(s: Srv, t: int, m: Msg)
    requires Inv(s) && t in s.users
    ensures var s' := Nick(s, t, m);
            && s'.channels.Keys == s.channels.Keys
            && forall k :: k in s.channels ==>
                 && s'.channels[k].pass == s.channels[k].pass
                 && s'.channels[k].chops == if NickAccepted(s, m) && s.users[t].nick != "" && s.channels[k].chops == [s.users[t].nick]
                                            then [m.params[0]] else s.channels[k].chops
  {
    if NickAccepted(s, m) {
      NickResult(s, t, m);
      FreshNickIsNoMember(s, m.params[0]);
      forall k | k in s.channels ensures ChannelOk(k, s.channels[k], s.users) {}
      forall k | k in s.channels && s.users[t].nick != "" {
        RenameKeepsMember(s.channels[k], s.users[t].nick, m.params[0], t);
      }
    }
  }

  // ---- The chop entry ---------------------------------------------------------

  /** The only chop entry of channel k is the present nickname of user t. */
  predicate Holds(s: Srv, k: string, t: int) {
    k in s.channels && t in s.users && s.users[t].nick != "" && s.channels[k].chops == [s.users[t].nick]
  }

  lemma DispatchKeepsNick(s: Srv, t: int, m: Msg, t': int)
    requires Inv(s) && t in s.users && Shaped(m) && Defined(s, t, m)
    requires t' in s.users && t' in Dispatch(s, t, m).users
    ensures t' != t || ToUpper(m.command) != "NICK" ==> Dispatch(s, t, m).users[t'].nick == s.users[t'].nick
  {
    DispatchSimulates(s, t, m);
    var a, b := Abs(s), Abs(Dispatch(s, t, m));
    assert t' in b.users && t' in a.users;
  }

  lemma RenamedHolds(s: Srv, s': Srv, t: int, nick: string, k: string, t': int)
    requires Inv(s) && t in s.users && Holds(s, k, t') && nick != "" && k in s'.channels
    requires s'.users == s.users[t := Renamed(s.users[t], nick)]
    requires s'.channels[k].chops == if s.users[t].nick != "" && s.channels[k].chops == [s.users[t].nick]
                                     then [nick] else s.channels[k].chops
    ensures Holds(s', k, t')
  {
    if s.users[t].nick == s.users[t'].nick {
      SameNickSameUser(s, t, t');
    }
  }

  lemma NickKeepsHolds(s: Srv, t: int, m: Msg, k: string, t': int)
    requires Inv(s) && t in s.users && s.users[t].passworded && Holds(s, k, t')
    ensures Holds(Nick(s, t, m), k, t')
  {
    NickFate(s, t, m);
    if NickAccepted(s, m) {
      NickResult(s, t, m);
      RenamedHolds(s, Nick(s, t, m), t, m.params[0], k, t');
    }
  }

  lemma SameNickSameUser(s: Srv, t: int, t': int)
    requires Inv(s) && t in s.users && t' in s.users && s.users[t].nick == s.users[t'].nick != ""
    ensures t == t'
  {
  }

  lemma StepKeepsHolds(s: Srv, e: Event, k: string, t': int)
    requires Inv(s) && Enabled(s, e) && Holds(s, k, t')
    requires var s' := Step(s, e); k in s'.channels && t' in s'.users
    ensures Holds(Step(s, e), k, t')
  {
    match e
    case Connect(t) =>
    case Hangup(t, v) =>
      QuitFindingKeepsInv(s, t, [HANGUP_TEXT], v);
    case Input(t, line) =>
      var m, s0 := MessageOf(s, t, line), Admit(s, t);
      InputIsShaped(s, t, line);
      AdmitKeepsInv(s, t);
      DispatchKeepsHolds(s0, t, m, k, t');
  }

  lemma DispatchKeepsHolds(s: Srv, t: int, m: Msg, k: string, t': int)
    requires Inv(s) && t in s.users && Shaped(m) && Defined(s, t, m) && Holds(s, k, t')
    requires var s' := Dispatch(s, t, m); k in s'.channels && t' in s'.users
    ensures Holds(Dispatch(s, t, m), k, t')
  {
    if ToUpper(m.command) == "NICK" {
      if s.users[t].passworded {
        NickKeepsHolds(s, t, m, k, t');
      }
    } else {
      DispatchFate(s, t, m);
      DispatchKeepsNick(s, t, m, t');
    }
  }

  /** Step j created channel k, on behalf of socket t. */
  ghost predicate Creates(states: seq<Srv>, events: seq<Event>, j: nat, k: string, t: int)
    requires |states| == |events| + 1
  {
    j < |events| && k !in states[j].channels && k in states[j + 1].channels && events[j].sock == t
  }

  lemma StepCreates(s: Srv, e: Event, k: string)
    requires Inv(s) && Enabled(s, e) && k !in s.channels && k in Step(s, e).channels
    ensures Holds(Step(s, e), k, e.sock)
  {
    match e
    case Connect(t) =>
    case Hangup(t, v) =>
      QuitFindingKeepsInv(s, t, [HANGUP_TEXT], v);
    case Input(t, line) =>
      var m, s0 := MessageOf(s, t, line), Admit(s, t);
      InputIsShaped(s, t, line);
      AdmitKeepsInv(s, t);
      DispatchCreates(s0, t, m, k);
  }

  lemma DispatchCreates(s: Srv, t: int, m: Msg, k: string)
    requires Inv(s) && t in s.users && Shaped(m) && Defined(s, t, m)
    requires k !in s.channels && k in Dispatch(s, t, m).channels
    ensures Holds(Dispatch(s, t, m), k, t)
  {
    if ToUpper(m.command) == "NICK" {
      NickFate(s, t, m);
    } else {
      DispatchFate(s, t, m);
      assert UserOk(s.users[t]);
      if ToUpper(m.command) == "JOIN" && Present(s, t) {
        JoinKeepsInv(s, t, m);
      }
    }
  }

  /** Channel k and connection t are there in all states after j, up to i. */
  ghost predicate Stay(states: seq<Srv>, j: nat, i: nat, k: string, t: int)
    requires i < |states|
  {
    forall l :: j < l <= i ==> k in states[l].channels && t in states[l].users
  }

  lemma FirstHolds(states: seq<Srv>, events: seq<Event>, j: nat, k: string, t: int)
    requires IsRun(states, events) && Creates(states, events, j, k, t)
    ensures Holds(states[j + 1], k, t)
  {
    RunStep(states, events, j);
    StepCreates(states[j], events[j], k);
  }

  lemma NextHolds(states: seq<Srv>, events: seq<Event>, i: nat, k: string, t: int)
    requires IsRun(states, events) && i < |events| && Holds(states[i], k, t)
    requires k in states[i + 1].channels && t in states[i + 1].users
    ensures Holds(states[i + 1], k, t)
  {
    RunStep(states, events, i);
    StepKeepsHolds(states[i], events[i], k, t);
  }

  /** While the connection that created a channel stays open, and the channel exists,
      the channel's one chop entry is the creator's present nickname: across all
      renames, and even after its own PART. */
  lemma {:induction false} ChopIsCreator(states: seq<Srv>, events: seq<Event>, j: nat, i: nat, k: string, t: int)
    requires IsRun(states, events) && Creates(states, events, j, k, t) && j < i < |states| && Stay(states, j, i, k, t)
    ensures Holds(states[i], k, t)
    decreases i
  {
    if i == j + 1 {
      FirstHolds(states, events, j, k, t);
    } else {
      ChopIsCreator(states, events, j, i - 1, k, t);
      NextHolds(states, events, i - 1, k, t);
    }
  }

  /** In that time only the creator can kick. */
  lemma OnlyCreatorKicks(states: seq<Srv>, events: seq<Event>, j: nat, i: nat, k: string, t: int, t': int, m: Msg)
    requires IsRun(states, events) && Creates(states, events, j, k, t) && j < i < |states| && Stay(states, j, i, k, t)
    requires t' in states[i].users && KickAllowed(states[i], t', m) && m.params[0] == k
    ensures t' == t
  {
    ChopIsCreator(states, events, j, i, k, t);
    RunKeepsInv(states, events, i);
    assert UserOk(states[i].users[t]) && UserOk(states[i].users[t']);
  }

  // ---- Keys -------------------------------------------------------------------

  /** A channel's key never changes while the channel exists. */
  lemma StepKeepsKey(s: Srv, e: Event, k: string)
    requires Inv(s) && Enabled(s, e) && k in s.channels && k in Step(s, e).channels
    ensures Step(s, e).channels[k].pass == s.channels[k].pass
  {
    match e
    case Connect(t) =>
    case Hangup(t, v) =>
      QuitFindingKeepsInv(s, t, [HANGUP_TEXT], v);
    case Input(t, line) =>
      var m, s0 := MessageOf(s, t, line), Admit(s, t);
      InputIsShaped(s, t, line);
      AdmitKeepsInv(s, t);
      if ToUpper(m.command) == "NICK" {
        NickFate(s0, t, m);
      } else {
        DispatchFate(s0, t, m);
      }
  }

  /** And so it is the same in any two states of a run between which the channel existed. */
  lemma {:induction false} KeyIsFixed(states: seq<Srv>, events: seq<Event>, j: nat, i: nat, k: string)
    requires IsRun(states, events) && j <= i < |states| && Exists(states, j, i, k)
    ensures states[i].channels[k].pass == states[j].channels[k].pass
    decreases i
  {
    if j < i {
      KeyIsFixed(states, events, j, i - 1, k);
      NextKey(states, events, i - 1, k);
    }
  }

  predicate Exists(states: seq<Srv>, j: nat, i: nat, k: string)
    requires i < |states|
  {
    forall l :: j <= l <= i ==> k in states[l].channels
  }

  lemma NextKey(states: seq<Srv>, events: seq<Event>, i: nat, k: string)
    requires IsRun(states, events) && i < |events| && k in states[i].channels && k in states[i + 1].channels
    ensures states[i + 1].channels[k].pass == states[i].channels[k].pass
  {
    RunStep(states, events, i);
    StepKeepsKey(states[i], events[i], k);
  }

  /** A JOIN by t that named channel k at a position whose key is the channel's key in s',
      the state after it (no key for the empty one); that holds of who created it, too. */
  ghost predicate Admits(s: Srv, e: Event, t: int, k: string, s': Srv) {
    && e.Input? && e.sock == t && t in s.users && Parsable(e.line)
    && var m := MessageOf(s, t, e.line);
       ToUpper(m.command) == "JOIN" && Opened(s', k, Channels(m.params), Keys(m.params))
  }

  /** Only a JOIN of its own puts a socket into a channel. */
  lemma EntryIsJoin(s: Srv, e: Event, t: int, k: string)
    requires Inv(s) && Enabled(s, e) && (t, k) !in Rel(s) && (t, k) in Rel(Step(s, e))
    ensures e.Input? && e.sock == t && t in s.users && ToUpper(MessageOf(s, t, e.line).command) == "JOIN"
    ensures Present(Admit(s, t), t)
  {
    StepSimulates(s, e);
    AbstractEntry(Abs(s), e, Abs(Step(s, e)), t, k);
    assert UserOk(s.users[t]);
  }

  lemma AbstractEntry(a: Abstract, e: Event, b: Abstract, t: int, k: string)
    requires AbstractStep(a, e, b) && (t, k) !in a.rel && (t, k) in b.rel
    ensures e.Input? && e.sock == t && t in a.users && LetIn(a, t).users[t].logged
    ensures Parsable(e.line) && ToUpper(Parse(e.line, a.users[t].nick).command) == "JOIN"
  {
    if e.Input? {
      CommandEntry(LetIn(a, e.sock), e.sock, Parse(e.line, a.users[e.sock].nick), b, t, k);
    }
  }

  lemma CommandEntry(a: Abstract, t': int, m: Msg, b: Abstract, t: int, k: string)
    requires t' in a.users && Command(a, t', m, b) && (t, k) !in a.rel && (t, k) in b.rel
    ensures t == t' && a.users[t'].logged && ToUpper(m.command) == "JOIN"
  {
  }

  lemma JoinStep(s: Srv, t: int, line: string)
    requires Enabled(s, Input(t, line)) && Present(Admit(s, t), t) && ToUpper(MessageOf(s, t, line).command) == "JOIN"
    ensures Step(s, Input(t, line)) == Join(Admit(s, t), t, MessageOf(s, t, line))
  {
    DispatchJoin(Admit(s, t), t, MessageOf(s, t, line));
  }

  lemma EntryIsAdmitted(s: Srv, e: Event, t: int, k: string)
    requires Inv(s) && Enabled(s, e) && (t, k) !in Rel(s) && (t, k) in Rel(Step(s, e))
    ensures Admits(s, e, t, k, Step(s, e))
  {
    EntryIsJoin(s, e, t, k);
    StepKeepsInv(s, e);
    InRel(s, t, k);
    InRel(Step(s, e), t, k);
    JoinStep(s, t, e.line);
    AdmitKeepsInv(s, t);
    InputIsShaped(s, t, e.line);
    EntryOpened(Admit(s, t), t, MessageOf(s, t, e.line), k);
  }

  lemma EntryOpened(s: Srv, t: int, m: Msg, k: string)
    requires Inv(s) && t in s.users && s.users[t].logged && ColonFree(m.params)
    requires !In(s, t, k) && In(Join(s, t, m), t, k)
    ensures Opened(Join(s, t, m), k, Channels(m.params), Keys(m.params))
  {
    JoinKeepsInv(s, t, m);
    JoinHistory(s, t, m);
    assert Entered(s, Join(s, t, m), k);
  }

  /** Step j admitted t to channel k, and t has been in it ever since, under one key. */
  ghost predicate AdmittedAt(states: seq<Srv>, events: seq<Event>, j: nat, i: nat, t: int, k: string)
    requires |states| == |events| + 1 && i < |states|
  {
    j < i && Admits(states[j], events[j], t, k, states[j + 1]) && StaysIn(states, j, i, t, k)
  }

  predicate StaysIn(states: seq<Srv>, j: nat, i: nat, t: int, k: string)
    requires i < |states|
  {
    forall l :: j < l <= i ==>
      && (t, k) in Rel(states[l])
      && k in states[l].channels && k in states[i].channels
      && states[l].channels[k].pass == states[i].channels[k].pass
  }

  lemma RunEntry(states: seq<Srv>, events: seq<Event>, i: nat, t: int, k: string)
    requires IsRun(states, events) && i < |events| && (t, k) !in Rel(states[i]) && (t, k) in Rel(states[i + 1])
    ensures AdmittedAt(states, events, i, i + 1, t, k)
  {
    RunStep(states, events, i);
    EntryIsAdmitted(states[i], events[i], t, k);
    InRel(states[i + 1], t, k);
  }

  lemma RunKey(states: seq<Srv>, events: seq<Event>, i: nat, t: int, k: string)
    requires IsRun(states, events) && i < |events| && (t, k) in Rel(states[i]) && (t, k) in Rel(states[i + 1])
    ensures k in states[i].channels && k in states[i + 1].channels
    ensures states[i + 1].channels[k].pass == states[i].channels[k].pass
  {
    RunStep(states, events, i);
    InRel(states[i], t, k);
    InRel(states[i + 1], t, k);
    NextKey(states, events, i, k);
  }

  lemma StillAdmitted(states: seq<Srv>, events: seq<Event>, j: nat, i: nat, t: int, k: string)
    requires IsRun(states, events) && i < |events| && AdmittedAt(states, events, j, i, t, k) && (t, k) in Rel(states[i + 1])
    ensures AdmittedAt(states, events, j, i + 1, t, k)
  {
    assert (t, k) in Rel(states[i]);
    RunKey(states, events, i, t, k);
    StaysOn(states, j, i, t, k);
  }

  lemma StaysOn(states: seq<Srv>, j: nat, i: nat, t: int, k: string)
    requires j < i < |states| - 1 && StaysIn(states, j, i, t, k) && (t, k) in Rel(states[i + 1])
    requires k in states[i].channels && k in states[i + 1].channels
    requires states[i + 1].channels[k].pass == states[i].channels[k].pass
    ensures StaysIn(states, j, i + 1, t, k)
  {
  }

  /** Every member of every channel in a reachable state came in through a JOIN of its own
      that gave the channel's key at the channel's position, and the key is still the same. */
  lemma {:induction false} EveryMemberWasAdmitted(states: seq<Srv>, events: seq<Event>, i: nat, t: int, k: string)
    requires IsRun(states, events) && i < |states| && (t, k) in Rel(states[i])
    ensures exists j :: AdmittedAt(states, events, j, i, t, k)
  {
    if i == 0 {
      assert false;
    } else if (t, k) in Rel(states[i - 1]) {
      EveryMemberWasAdmitted(states, events, i - 1, t, k);
      var j :| AdmittedAt(states, events, j, i - 1, t, k);
      StillAdmitted(states, events, j, i - 1, t, k);
    } else {
      RunEntry(states, events, i - 1, t, k);
    }
  }
}
