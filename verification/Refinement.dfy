/** The server refines an abstract one in which membership is a relation between
    sockets and channels, and the nickname is only an attribute of a socket. */
module Refinement {
  import opened Text
  import opened Messages
  import opened Model
  import opened Invariants
  import opened Steps

  /** What the abstract server knows of a connection. */
  datatype Attributes = Attributes(nick: string, passed: bool, signed: bool, logged: bool)

  datatype Abstract = Abstract(password: string, users: map<int, Attributes>, ops: set<string>, rel: set<(int, string)>)

  /** Who is in which channel, read off the member pointers. */
  function Rel(s: Srv): set<(int, string)> {
    set k, n | k in s.channels && n in s.channels[k].members :: (s.channels[k].members[n], k)
  }

  function AttributesOf(u: UserV): Attributes {
    Attributes(u.nick, u.passworded, u.hasUser, u.logged)
  }

  function Views(users: map<int, UserV>): map<int, Attributes> {
    map t | t in users :: AttributesOf(users[t])
  }

  function Abs(s: Srv): Abstract {
    Abstract(s.password, Views(s.users), s.operators, Rel(s))
  }

  function Leave(a: Abstract, t: int): Abstract {
    a.(users := a.users - {t}, rel := (set p | p in a.rel && p.0 != t))
  }

  predicate Used(a: Abstract, nick: string) {
    exists t :: t in a.users && a.users[t].nick == nick
  }

  /** An empty server password lets everyone in. */
  function LetIn(a: Abstract, t: int): Abstract
    requires t in a.users
  {
    if a.password == "" then a.(users := a.users[t := a.users[t].(passed := true)]) else a
  }

  /** t takes a nickname: it is logged in if it has signed, and is an operator under the new
      nickname if it was under the old. */
  function TakeNick(a: Abstract, t: int, nick: string): Abstract
    requires t in a.users
  {
    var u := a.users[t];
    a.(users := a.users[t := u.(nick := nick, logged := u.logged || u.signed)],
       ops := if u.nick != "" && u.nick in a.ops then a.ops - {u.nick} + {nick} else a.ops)
  }

  function Sign(a: Abstract, t: int): Abstract
    requires t in a.users
  {
    var u := a.users[t];
    a.(users := a.users[t := u.(signed := true, logged := u.logged || u.nick != "")])
  }

  function Asked(t: int, m: Msg): set<(int, string)> {
    set k | k in m.params && IsChannelParam(k) :: (t, k)
  }

  ghost predicate Kicks(a: Abstract, t: int, m: Msg, b: Abstract) {
    |m.params| >= 2 && (t, m.params[0]) in a.rel &&
    exists v :: v in a.users && a.users[v].nick == m.params[1] && (v, m.params[0]) in a.rel
             && b == a.(rel := a.rel - {(v, m.params[0])})
  }

  ghost predicate Kills(a: Abstract, t: int, m: Msg, b: Abstract) {
    m.params != [] && exists v :: v in a.users && v != t && a.users[v].nick == m.params[0] && b == Leave(a, v)
  }

  /** What a command does to the abstract server: all but JOIN and KICK exactly. */
  ghost predicate Command(a: Abstract, t: int, m: Msg, b: Abstract)
    requires t in a.users
  {
    var command, u, p := ToUpper(m.command), a.users[t], m.params;
    if command == "PASS" then
      b == if !u.passed && p != [] && p[0] == a.password then a.(users := a.users[t := u.(passed := true)]) else a
    else if command == "NICK" then
      b == if u.passed && p != [] && IsCorrectNick(p[0]) && !Used(a, p[0]) then TakeNick(a, t, p[0]) else a
    else if command == "USER" then
      b == if u.passed && |p| >= 4 && !u.signed then Sign(a, t) else a
    else if !u.logged then b == a
    else if command == "QUIT" then b == Leave(a, t)
    else if command == "KILL" then
      if |p| >= 2 && u.nick in a.ops && Used(a, p[0]) then Kills(a, t, m, b) else b == a
    else if command == "JOIN" then b == a.(rel := b.rel) && a.rel <= b.rel <= a.rel + Asked(t, m)
    else if command == "PART" then b == a.(rel := a.rel - Asked(t, m))
    else if command == "OPER" then
      b == if |p| >= 2 && p[0] == u.nick && p[1] == a.password then a.(ops := a.ops + {u.nick}) else a
    else if command == "KICK" then b == a || Kicks(a, t, m, b)
    else b == a
  }

  ghost predicate AbstractStep(a: Abstract, e: Event, b: Abstract) {
    match e
    case Connect(t) => t !in a.users && b == a.(users := a.users[t := Attributes("", false, false, false)])
    case Hangup(t, v) => t in a.users && v in a.users && a.users[v].nick == a.users[t].nick && b == Leave(a, v)
    case Input(t, line) => t in a.users && Parsable(line) && Command(LetIn(a, t), t, Parse(line, a.users[t].nick), b)
  }

  // ---- The relation through each edit -----------------------------------------

  /** Membership by name: t's nickname is in channel k's map. */
  predicate In(s: Srv, t: int, k: string) {
    k in s.channels && t in s.users && s.users[t].nick in s.channels[k].members
  }

  lemma InRel(s: Srv, t: int, k: string)
    requires Inv(s)
    ensures (t, k) in Rel(s) <==> In(s, t, k)
  {
    if k in s.channels && t in s.users {
      MemberIsNick(s, k, t);
    }
    forall n | k in s.channels && n in s.channels[k].members && s.channels[k].members[n] == t ensures t in s.users {
      MemberIsUser(s, k, n);
    }
  }

  /** Two states that differ in membership by name by the pairs in gone. */
  lemma RelLoses(s: Srv, s': Srv, gone: set<(int, string)>)
    requires Inv(s) && Inv(s')
    requires forall t, k :: In(s', t, k) <==> In(s, t, k) && (t, k) !in gone
    ensures Rel(s') == Rel(s) - gone
  {
    forall p: (int, string) ensures p in Rel(s') <==> p in Rel(s) - gone {
      var (t, k) := p;
      InRel(s, t, k);
      InRel(s', t, k);
    }
  }

  /** A successful NICK leaves the relation exactly unchanged, although it erases the
      user node, inserts a copy of it and re-keys every channel. */
  lemma RenameKeepsRel(s: Srv, t: int, m: Msg)
    requires Inv(s) && t in s.users && s.users[t].passworded && NickAccepted(s, m)
    ensures Rel(Nick(s, t, m)) == Rel(s)
  {
    var s' := Nick(s, t, m);
    NickResult(s, t, m);
    NickKeepsInv(s, t, m);
    forall t', k ensures In(s', t', k) <==> In(s, t', k) {
      if k in s.channels && t' in s.users {
        RenameKeepsPair(s, t, m.params[0], t', k);
      }
    }
    RelLoses(s, s', {});
  }

  lemma RenameKeepsPair(s: Srv, t: int, nick: string, t': int, k: string)
    requires Inv(s) && t in s.users && !Taken(s, nick) && nick != "" && k in s.channels && t' in s.users
    ensures s.users[t'].nick in s.channels[k].members
       <==> (if t' == t then nick else s.users[t'].nick) in Rename(s, t, nick).channels[k].members
  {
    var old_, c := s.users[t].nick, s.channels[k];
    assert ChannelOk(k, c, s.users);
    FreshNickIsNoMember(s, nick);
    RenameKeepsMember(c, old_, nick, t);
    assert UserOk(s.users[t']);
    assert "" !in c.members by {
      forall n | n in c.members ensures n != "" { MemberIsUser(s, k, n); }
    }
  }

  lemma SendingKeepsRel(s: Srv, s': Srv)
    requires s'.channels == s.channels
    ensures Rel(s') == Rel(s)
  {
  }

  /** The guards of one round of JOIN: the channel count, and for an existing channel the
      key and that the user is not in it, for a new one a nickname. */
  predicate JoinPasses(s: Srv, t: int, k: string, key: Option<string>)
    requires t in s.users
  {
    var nick := s.users[t].nick;
    |JoinedBy(s.channels, nick)| <= 10 &&
    if k in s.channels
    then s.channels[k].pass == (if key.Some? then key.value else "") && nick !in s.channels[k].members
    else nick != ""
  }

  /** The silent limit of addUser, which no guard of JOIN looks at. */
  predicate HasRoom(s: Srv, k: string) {
    k in s.channels ==> |s.channels[k].members| <= 10
  }

  /** Whom one round of JOIN lets in. */
  function Entering(s: Srv, t: int, k: string, key: Option<string>): set<(int, string)>
    requires t in s.users
  {
    if JoinPasses(s, t, k, key) && HasRoom(s, k) then {(t, k)} else {}
  }

  lemma JoinOneGoesOn(s: Srv, t: int, k: string, key: Option<string>)
    requires t in s.users
    ensures JoinOne(s, t, k, key).goOn <==> JoinPasses(s, t, k, key)
  {
  }

  lemma JoinOneIn(s: Srv, t: int, k: string, key: Option<string>, s': Srv, t': int, k': string)
    requires Inv(s) && t in s.users && s.users[t].logged && JoinEffect(s, t, k, key, s')
    requires s'.channels == s.channels <==> Entering(s, t, k, key) == {}
    ensures In(s', t', k') <==> In(s, t', k') || (t', k') in Entering(s, t, k, key)
  {
    assert UserOk(s.users[t]);
  }

  lemma JoinOneChanges(s: Srv, t: int, k: string, key: Option<string>)
    requires t in s.users
    ensures JoinOne(s, t, k, key).s.channels == s.channels <==> Entering(s, t, k, key) == {}
  {
    var s' := JoinOne(s, t, k, key).s;
    if Entering(s, t, k, key) != {} {
      assert s.users[t].nick in s'.channels[k].members;
    }
  }

  /** One round of JOIN lets the user in if and only if it passes the guards and the
      channel, if it exists, has at most 10 members; it changes no other membership. */
  lemma JoinOneRel(s: Srv, t: int, k: string, key: Option<string>)
    requires Inv(s) && t in s.users && s.users[t].logged && IsChannelName(k)
    ensures Rel(JoinOne(s, t, k, key).s) == Rel(s) + Entering(s, t, k, key)
  {
    var s' := JoinOne(s, t, k, key).s;
    JoinOneEffect(s, t, k, key);
    JoinOneKeepsInv(s, t, k, key);
    JoinOneChanges(s, t, k, key);
    forall p: (int, string) ensures p in Rel(s') <==> p in Rel(s) + Entering(s, t, k, key) {
      var (t', k') := p;
      JoinOneIn(s, t, k, key, s', t', k');
      InRel(s, t', k');
      InRel(s', t', k');
    }
  }

  /** Whom JOIN's loop lets in from position i on; it ends at the first failing guard. */
  function Admitted(s: Srv, t: int, ks: seq<string>, keys: seq<string>, i: nat): set<(int, string)>
    requires t in s.users && i <= |ks|
    decreases |ks| - i
  {
    if i == |ks| || !JoinPasses(s, t, ks[i], KeyAt(keys, i)) then {}
    else
      JoinOneEffect(s, t, ks[i], KeyAt(keys, i));
      Entering(s, t, ks[i], KeyAt(keys, i)) + Admitted(JoinOne(s, t, ks[i], KeyAt(keys, i)).s, t, ks, keys, i + 1)
  }

  lemma {:induction false} JoinFromRel(s: Srv, t: int, ks: seq<string>, keys: seq<string>, i: nat)
    requires Inv(s) && t in s.users && s.users[t].logged && i <= |ks|
    requires forall j :: 0 <= j < |ks| ==> IsChannelName(ks[j])
    ensures Rel(JoinFrom(s, t, ks, keys, i).s) == Rel(s) + Admitted(s, t, ks, keys, i)
    decreases |ks| - i
  {
    if i < |ks| {
      var j := JoinOne(s, t, ks[i], KeyAt(keys, i));
      JoinOneGoesOn(s, t, ks[i], KeyAt(keys, i));
      JoinOneKeepsInv(s, t, ks[i], KeyAt(keys, i));
      JoinOneRel(s, t, ks[i], KeyAt(keys, i));
      if j.goOn {
        JoinFromRel(j.s, t, ks, keys, i + 1);
      }
      AdmittedStep(s, t, ks, keys, i, j);
    }
  }

  lemma AdmittedStep(s: Srv, t: int, ks: seq<string>, keys: seq<string>, i: nat, j: Joined)
    requires t in s.users && i < |ks| && j == JoinOne(s, t, ks[i], KeyAt(keys, i)) && t in j.s.users
    requires j.goOn <==> JoinPasses(s, t, ks[i], KeyAt(keys, i))
    ensures Admitted(s, t, ks, keys, i)
         == Entering(s, t, ks[i], KeyAt(keys, i)) + if j.goOn then Admitted(j.s, t, ks, keys, i + 1) else {}
    ensures JoinFrom(s, t, ks, keys, i) == if j.goOn then JoinFrom(j.s, t, ks, keys, i + 1) else j
  {
  }

  lemma {:induction false} AdmittedAsked(s: Srv, t: int, ks: seq<string>, keys: seq<string>, i: nat, asked: set<(int, string)>)
    requires t in s.users && i <= |ks| && forall j :: 0 <= j < |ks| ==> (t, ks[j]) in asked
    ensures Admitted(s, t, ks, keys, i) <= asked
    decreases |ks| - i
  {
    if i < |ks| && JoinPasses(s, t, ks[i], KeyAt(keys, i)) {
      JoinOneEffect(s, t, ks[i], KeyAt(keys, i));
      AdmittedAsked(JoinOne(s, t, ks[i], KeyAt(keys, i)).s, t, ks, keys, i + 1, asked);
    }
  }

  /** The tests JOIN makes of its parameters before it looks at any channel. */
  predicate JoinReads(m: Msg) {
    && m.params != [] && IsChannelParam(m.params[0])
    && (forall i :: 0 <= i < |m.params| ==> IsCleanParam(m.params[i]))
    && |Keys(m.params)| <= |Channels(m.params)|
  }

  /** In plain bytes: the first parameter begins with # or &, none holds a space, a comma, a
      BEL, a NUL, a CR or an LF, and those that begin with neither are not the majority. */
  lemma JoinReadsPlainly(m: Msg)
    ensures JoinReads(m) <==>
              && m.params != [] && m.params[0] != "" && m.params[0][0] in "#&"
              && (forall i, j :: 0 <= i < |m.params| && 0 <= j < |m.params[i]| ==> m.params[i][j] !in " ,\U{7}\0\r\n")
              && 2 * |Keys(m.params)| <= |m.params|
    ensures forall p: string :: IsChannelParam(p) <==> p != "" && p[0] in "#&"
  {
    ChannelsAndKeys(m.params);
    forall i, j | 0 <= i < |m.params| && 0 <= j < |m.params[i]|
      ensures IsBadByte(m.params[i][j]) <==> m.params[i][j] in " ,\U{7}\0\r\n"
    {}
  }

  lemma {:induction false} ChannelsAndKeys(params: seq<string>)
    ensures |Channels(params)| + |Keys(params)| == |params|
  {
    if params != [] {
      ChannelsAndKeys(params[..|params| - 1]);
    }
  }

  /** JOIN adds exactly the pairs its rounds let in, all of them asked for, and removes none. */
  lemma JoinRel(s: Srv, t: int, m: Msg)
    requires Inv(s) && t in s.users && s.users[t].logged && ColonFree(m.params)
    ensures Rel(Join(s, t, m))
         == Rel(s) + if JoinReads(m) then Admitted(s, t, Channels(m.params), Keys(m.params), 0) else {}
    ensures Rel(s) <= Rel(Join(s, t, m)) <= Rel(s) + Asked(t, m)
  {
    var ks, keys := Channels(m.params), Keys(m.params);
    JoinChannels(s, t, m);
    if JoinReads(m) {
      ChannelsAreParams(m.params);
      JoinedNamesAreNames(m.params);
      JoinFromRel(s, t, ks, keys, 0);
      AdmittedAsked(s, t, ks, keys, 0, Asked(t, m));
      SendingKeepsRel(JoinFrom(s, t, ks, keys, 0).s, Join(s, t, m));
    } else {
      SendingKeepsRel(s, Join(s, t, m));
    }
  }

  lemma JoinChannels(s: Srv, t: int, m: Msg)
    requires t in s.users
    ensures Join(s, t, m).channels
         == if JoinReads(m) then JoinFrom(s, t, Channels(m.params), Keys(m.params), 0).s.channels else s.channels
  {
  }

  lemma RemoveMemberRel(s: Srv, k: string, n: string)
    requires Inv(s) && k in s.channels && n in s.channels[k].members
    ensures Rel(RemoveMember(s, k, n)) == Rel(s) - {(s.channels[k].members[n], k)}
  {
    var s', t := RemoveMember(s, k, n), s.channels[k].members[n];
    RemoveMemberKeepsInv(s, k, n);
    MemberIsUser(s, k, n);
    forall t', k' ensures In(s', t', k') <==> In(s, t', k') && (t', k') !in {(t, k)} {
      RemoveMemberIn(s, k, n, t', k');
    }
    RelLoses(s, s', {(t, k)});
  }

  lemma RemoveMemberIn(s: Srv, k: string, n: string, t': int, k': string)
    requires Inv(s) && k in s.channels && n in s.channels[k].members
    ensures In(RemoveMember(s, k, n), t', k') <==> In(s, t', k') && (t', k') != (s.channels[k].members[n], k)
  {
    MemberIsUser(s, k, n);
    var left := RemoveUser(s.channels[k], n);
    if In(s, t', k) {
      MemberIsNick(s, k, t');
      assert s.users[t'].nick != n ==> s.users[t'].nick in left.members && left.members != map[];
    }
  }

  lemma PartOneRel(s: Srv, t: int, k: string)
    requires Inv(s) && t in s.users
    ensures Rel(PartOne(s, t, s.users[t].nick, k)) == Rel(s) - {(t, k)}
  {
    var nick := s.users[t].nick;
    InRel(s, t, k);
    if k in s.channels && nick in s.channels[k].members {
      MemberIsNick(s, k, t);
      var s' := SendToChannel(s, k, Line(PartLine(nick, k)), "");
      SendingKeepsRel(s, s');
      RemoveMemberRel(s', k, nick);
    }
  }

  function Pairs(t: int, ks: seq<string>): set<(int, string)> {
    set i | 0 <= i < |ks| :: (t, ks[i])
  }

  lemma {:induction false} PartEachRel(s: Srv, t: int, ks: seq<string>)
    requires Inv(s) && t in s.users
    ensures Rel(PartEach(s, t, s.users[t].nick, ks)) == Rel(s) - Pairs(t, ks)
  {
    if ks != [] {
      var init, k := ks[..|ks| - 1], ks[|ks| - 1];
      var nick := s.users[t].nick;
      PartEachKeepsInv(s, t, nick, init);
      PartEachRel(s, t, init);
      PartOneRel(PartEach(s, t, nick, init), t, k);
      assert Pairs(t, ks) == Pairs(t, init) + {(t, k)} by {
        forall i | 0 <= i < |ks| ensures (t, ks[i]) in Pairs(t, init) + {(t, k)} {
          assert i < |init| ==> init[i] == ks[i];
        }
        forall i | 0 <= i < |init| ensures (t, init[i]) in Pairs(t, ks) {
          assert init[i] == ks[i];
        }
        assert k == ks[|ks| - 1];
      }
    }
  }

  lemma {:induction false} ParamsAreChannels(params: seq<string>, k: string)
    ensures k in Channels(params) <==> k in params && IsChannelParam(k)
  {
    if params != [] {
      ParamsAreChannels(params[..|params| - 1], k);
      assert params == params[..|params| - 1] + [params[|params| - 1]];
    }
  }

  lemma AskedIsPairs(t: int, m: Msg)
    ensures Asked(t, m) == Pairs(t, Channels(m.params))
  {
    var ks := Channels(m.params);
    forall k ensures k in ks <==> k in m.params && IsChannelParam(k) {
      ParamsAreChannels(m.params, k);
    }
  }

  lemma PartRel(s: Srv, t: int, m: Msg)
    requires Inv(s) && t in s.users
    ensures Rel(Part(s, t, m)) == Rel(s) - Asked(t, m)
  {
    if m.params != [] {
      AskedIsPairs(t, m);
      var s' := s.(out := s.out + Refuse(t, s.users[t].nick, Keys(m.params)));
      SendingKeepsRel(s, s');
      PartEachRel(s', t, Channels(m.params));
    }
  }

  /** s' is s after user t has been removed by nickname. */
  predicate Left(s: Srv, t: int, s': Srv) {
    && t in s.users && s'.users == s.users - {t} && s'.channels == Sweep(Strip(s.channels, s.users[t].nick))
    && s'.operators == s.operators && s'.password == s.password
  }

  lemma LeaveIn(s: Srv, t: int, s': Srv, t': int, k: string)
    requires Inv(s) && Left(s, t, s')
    ensures In(s', t', k) <==> In(s, t', k) && t' != t
  {
    if k in s.channels && t' in s.users {
      StripSweep(s.channels, s.users[t].nick, k, s.users[t'].nick);
      MemberIsNick(s, k, t');
      MemberIsNick(s, k, t);
    }
  }

  lemma StripSweep(channels: map<string, ChannelV>, nick: string, k: string, n: string)
    ensures var swept := Sweep(Strip(channels, nick));
            k in swept && n in swept[k].members <==> k in channels && n in channels[k].members && n != nick
  {
    var stripped := Strip(channels, nick);
    if k in channels && n in stripped[k].members {
      assert stripped[k].members != map[];
      assert Survives(stripped, k);
    }
  }

  lemma LeaveRel(s: Srv, t: int, s': Srv)
    requires Inv(s) && Inv(s') && Left(s, t, s')
    ensures Abs(s') == Leave(Abs(s), t)
  {
    LeaveAttributes(s, t, s');
    forall p: (int, string) ensures p in Rel(s') <==> p in Rel(s) && p.0 != t {
      var (t', k) := p;
      LeaveIn(s, t, s', t', k);
      InRel(s, t', k);
      InRel(s', t', k);
    }
    assert Rel(s') == Leave(Abs(s), t).rel;
  }

  lemma LeaveAttributes(s: Srv, t: int, s': Srv)
    requires t in s.users && s'.users == s.users - {t}
    ensures Abs(s').users == Abs(s).users - {t}
  {
  }

  lemma QuitRel(s: Srv, t: int, params: seq<string>)
    requires Inv(s) && t in s.users && Removable(s, t)
    ensures Abs(Quit(s, t, params)) == Leave(Abs(s), t)
  {
    QuitKeepsInv(s, t, params);
    LeaveRel(s, t, Quit(s, t, params));
  }

  // ---- Simulation -------------------------------------------------------------

  /** Only the attributes of user t change. */
  lemma OneUser(s: Srv, s': Srv, t: int, u: UserV)
    requires t in s.users && s'.users == s.users[t := u] && s'.channels == s.channels
    requires s'.password == s.password && s'.operators == s.operators
    ensures Abs(s') == Abs(s).(users := Abs(s).users[t := AttributesOf(u)])
  {
    SendingKeepsRel(s, s');
    NewAttributes(s.users, t, u);
  }

  lemma SameUsers(s: Srv, s': Srv)
    requires s'.users == s.users && s'.operators == s.operators && s'.password == s.password
    ensures Abs(s') == Abs(s).(rel := Rel(s'))
  {
  }

  lemma Quiet(s: Srv, s': Srv)
    requires s' == s.(out := s'.out)
    ensures Abs(s') == Abs(s)
  {
    SendingKeepsRel(s, s');
    SameUsers(s, s');
  }

  lemma UsedIsTaken(s: Srv, nick: string)
    requires Inv(s)
    ensures Used(Abs(s), nick) <==> Taken(s, nick)
  {
    var a := Abs(s);
    forall t | t in s.users ensures a.users[t].nick == s.users[t].key {
      assert UserOk(s.users[t]);
    }
    if Taken(s, nick) {
      var t :| t in s.users && s.users[t].key == nick;
      assert t in a.users && a.users[t].nick == nick;
    }
    if Used(a, nick) {
      var t :| t in a.users && a.users[t].nick == nick;
      assert t in s.users && s.users[t].key == nick;
    }
  }

  /** One user's attributes change. */
  lemma NewAttributes(users: map<int, UserV>, t: int, u: UserV)
    requires t in users
    ensures Views(users[t := u]) == Views(users)[t := AttributesOf(u)]
  {
  }

  lemma PassSimulates(s: Srv, t: int, m: Msg)
    requires Inv(s) && t in s.users && ToUpper(m.command) == "PASS"
    ensures Command(Abs(s), t, m, Abs(Pass(s, t, m)))
  {
    var s' := Pass(s, t, m);
    if s'.users == s.users {
      Quiet(s, s');
    } else {
      OneUser(s, s', t, s.users[t].(passworded := true));
    }
  }

  lemma NickSimulates(s: Srv, t: int, m: Msg)
    requires Inv(s) && t in s.users && s.users[t].passworded && ToUpper(m.command) == "NICK"
    ensures Command(Abs(s), t, m, Abs(Nick(s, t, m)))
  {
    var s' := Nick(s, t, m);
    if m.params != [] {
      UsedIsTaken(s, m.params[0]);
    }
    if NickAccepted(s, m) {
      NickResult(s, t, m);
      RenameKeepsRel(s, t, m);
      NewAttributes(s.users, t, Renamed(s.users[t], m.params[0]));
      RenameOperators(s, t, m.params[0]);
      assert UserOk(s.users[t]);
      assert Abs(s') == TakeNick(Abs(s), t, m.params[0]);
    } else {
      Quiet(s, s');
    }
  }

  lemma RenameOperators(s: Srv, t: int, nick: string)
    requires t in s.users
    ensures var o, s' := s.users[t].nick, Rename(s, t, nick);
            && s'.password == s.password
            && s'.operators == if o != "" && o in s.operators then s.operators - {o} + {nick} else s.operators
  {
  }

  lemma UserSimulates(s: Srv, t: int, m: Msg)
    requires Inv(s) && t in s.users && s.users[t].passworded && ToUpper(m.command) == "USER"
    ensures Command(Abs(s), t, m, Abs(User(s, t, m)))
  {
    var s', u := User(s, t, m), s.users[t];
    assert UserOk(u);
    if |m.params| >= 4 && !u.hasUser {
      OneUser(s, s', t, u.(hasUser := true, logged := u.logged || u.hasNick));
    } else {
      Quiet(s, s');
    }
  }

  lemma OperSimulates(s: Srv, t: int, m: Msg)
    requires Inv(s) && t in s.users && s.users[t].logged && ToUpper(m.command) == "OPER"
    ensures Command(Abs(s), t, m, Abs(Oper(s, t, m)))
  {
    SendingKeepsRel(s, Oper(s, t, m));
  }

  lemma KillLeaves(s: Srv, t: int, m: Msg, v: int)
    requires Inv(s) && t in s.users && Present(s, t) && Shaped(m) && KillAllowed(s, t, m) && v == SockOf(s, m.params[0])
    ensures s.users[v].nick == m.params[0] && Abs(Kill(s, t, m)) == Leave(Abs(s), v)
  {
    assert UserOk(s.users[t]) && UserOk(s.users[v]);
    assert ':' !in m.params[1] && MiddleParam(m.params[..|m.params| - 1][0]);
    KillIsQuit(s, t, m);
    var s' := Say(s, t, Line(":" + s.users[t].nick + " KILL " + m.params[0] + " :" + m.params[1]));
    Quiet(s, s');
    QuitRel(s', v, [KillText(s.users[t].nick, m.params[1])]);
  }

  lemma LeaveIsKill(a: Abstract, t: int, m: Msg, v: int, b: Abstract)
    requires t in a.users && a.users[t].logged && ToUpper(m.command) == "KILL" && |m.params| >= 2
    requires a.users[t].nick in a.ops
    requires v in a.users && v != t && a.users[v].nick == m.params[0] && b == Leave(a, v)
    ensures Command(a, t, m, b)
  {
  }

  lemma KillSimulates(s: Srv, t: int, m: Msg)
    requires Inv(s) && t in s.users && Present(s, t) && Shaped(m) && ToUpper(m.command) == "KILL" && Defined(s, t, m)
    ensures Command(Abs(s), t, m, Abs(Kill(s, t, m)))
  {
    if |m.params| >= 2 {
      UsedIsTaken(s, m.params[0]);
    }
    if KillAllowed(s, t, m) {
      var v := SockOf(s, m.params[0]);
      KillLeaves(s, t, m, v);
      LeaveIsKill(Abs(s), t, m, v, Abs(Kill(s, t, m)));
    } else {
      Quiet(s, Kill(s, t, m));
    }
  }

  lemma KickSimulates(s: Srv, t: int, m: Msg)
    requires Inv(s) && t in s.users && ToUpper(m.command) == "KICK" && s.users[t].logged
    ensures Command(Abs(s), t, m, Abs(Kick(s, t, m)))
  {
    if KickAllowed(s, t, m) {
      KickRemoves(s, t, m);
    } else {
      Quiet(s, Kick(s, t, m));
    }
  }

  /** KICK removes its target from the channel if and only if its guards pass, and changes
      no other membership. */
  lemma KickRel(s: Srv, t: int, m: Msg)
    requires Inv(s) && t in s.users
    ensures Rel(Kick(s, t, m))
         == Rel(s) - if KickAllowed(s, t, m) then {(s.channels[m.params[0]].members[m.params[1]], m.params[0])} else {}
  {
    if KickAllowed(s, t, m) {
      var k, n := m.params[0], m.params[1];
      var s' := Say(s, s.channels[k].members[n], Line(KickLine(s.users[t].nick, k, n)));
      SendingKeepsRel(s, s');
      RemoveMemberRel(s', k, n);
      KickChannels(s, t, m);
      SendingKeepsRel(RemoveMember(s', k, n), Kick(s, t, m));
    } else {
      SendingKeepsRel(s, Kick(s, t, m));
    }
  }

  lemma KickChannels(s: Srv, t: int, m: Msg)
    requires t in s.users && KickAllowed(s, t, m)
    ensures var k, n := m.params[0], m.params[1];
            var s' := Say(s, s.channels[k].members[n], Line(KickLine(s.users[t].nick, k, n)));
            Kick(s, t, m).channels == RemoveMember(s', k, n).channels
  {
  }

  lemma KickRemoves(s: Srv, t: int, m: Msg)
    requires Inv(s) && t in s.users && KickAllowed(s, t, m)
    ensures Kicks(Abs(s), t, m, Abs(Kick(s, t, m)))
  {
    var k, n := m.params[0], m.params[1];
    KickKeepsInv(s, t, m);
    KickRel(s, t, m);
    MemberIsUser(s, k, n);
    InRel(s, t, k);
    InRel(s, s.channels[k].members[n], k);
    SameUsers(s, Kick(s, t, m));
  }

  lemma DispatchSimulates(s: Srv, t: int, m: Msg)
    requires Inv(s) && t in s.users && Shaped(m) && Defined(s, t, m)
    ensures Command(Abs(s), t, m, Abs(Dispatch(s, t, m)))
  {
    var command, s' := ToUpper(m.command), Dispatch(s, t, m);
    assert UserOk(s.users[t]);
    if command == "PASS" {
      PassSimulates(s, t, m);
    } else if command == "NICK" {
      if s.users[t].passworded { NickSimulates(s, t, m); }
    } else if command == "USER" {
      if s.users[t].passworded { UserSimulates(s, t, m); }
    } else if Present(s, t) {
      if command == "QUIT" {
        QuitRel(s, t, m.params);
      } else if command == "KILL" {
        KillSimulates(s, t, m);
      } else if command == "PRIVMSG" || command == "NOTICE" {
        MessagesOnlySend(s, t, m);
        Quiet(s, s');
      } else if command == "JOIN" {
        JoinKeepsInv(s, t, m);
        JoinRel(s, t, m);
        JoinKeepsRest(s, t, m);
        SameUsers(s, s');
      } else if command == "PART" {
        PartSimulates(s, t, m);
      } else if command == "OPER" {
        OperSimulates(s, t, m);
      } else if command == "KICK" {
        KickSimulates(s, t, m);
      } else {
        Quiet(s, s');
      }
    }
  }

  lemma {:induction false} JoinFromKeepsRest(s: Srv, t: int, ks: seq<string>, keys: seq<string>, i: nat)
    requires t in s.users && i <= |ks|
    ensures KeepsRest(s, JoinFrom(s, t, ks, keys, i).s)
    decreases |ks| - i
  {
    if i < |ks| {
      var j := JoinOne(s, t, ks[i], KeyAt(keys, i));
      assert KeepsRest(s, j.s);
      JoinOneEffect(s, t, ks[i], KeyAt(keys, i));
      if j.goOn {
        JoinFromKeepsRest(j.s, t, ks, keys, i + 1);
      }
    }
  }

  /** Neither the operators nor the password change. */
  predicate KeepsRest(s: Srv, s': Srv) {
    s'.operators == s.operators && s'.password == s.password
  }

  lemma JoinKeepsRest(s: Srv, t: int, m: Msg)
    requires t in s.users
    ensures KeepsRest(s, Join(s, t, m))
  {
    JoinFromKeepsRest(s, t, Channels(m.params), Keys(m.params), 0);
  }

  lemma {:induction false} PartEachKeepsRest(s: Srv, t: int, nick: string, ks: seq<string>)
    ensures KeepsRest(s, PartEach(s, t, nick, ks))
  {
    if ks != [] {
      PartEachKeepsRest(s, t, nick, ks[..|ks| - 1]);
    }
  }

  lemma PartSimulates(s: Srv, t: int, m: Msg)
    requires Inv(s) && t in s.users && s.users[t].logged && ToUpper(m.command) == "PART"
    ensures Command(Abs(s), t, m, Abs(Part(s, t, m)))
  {
    var s0, nick := s.(out := s.out + Refuse(t, s.users[t].nick, Keys(m.params))), s.users[t].nick;
    PartEachKeepsInv(s0, t, nick, Channels(m.params));
    PartEachKeepsRest(s0, t, nick, Channels(m.params));
    PartRel(s, t, m);
    SameUsers(s, Part(s, t, m));
  }

  /** Every event is a step of the abstract server. */
  lemma StepSimulates(s: Srv, e: Event)
    requires Inv(s) && Enabled(s, e)
    ensures AbstractStep(Abs(s), e, Abs(Step(s, e)))
  {
    match e
    case Connect(t) =>
      var s' := Step(s, e);
      SendingKeepsRel(s, s');
      assert Views(s'.users) == Views(s.users)[t := Attributes("", false, false, false)];
    case Input(t, line) =>
      InputIsShaped(s, t, line);
      AdmitKeepsInv(s, t);
      AdmitSimulates(s, t);
      DispatchSimulates(Admit(s, t), t, MessageOf(s, t, line));
    case Hangup(t, v) =>
      QuitFindingKeepsInv(s, t, [HANGUP_TEXT], v);
      LeaveRel(s, v, Step(s, e));
      assert UserOk(s.users[v]);
  }

  lemma AdmitSimulates(s: Srv, t: int)
    requires t in s.users
    ensures Abs(Admit(s, t)) == LetIn(Abs(s), t)
  {
    if s.password == "" {
      OneUser(s, Admit(s, t), t, s.users[t].(passworded := true));
    }
  }

  /** The channels a socket is in. */
  function ChannelsOf(s: Srv, t: int): set<string> {
    set k | k in s.channels && (t, k) in Rel(s)
  }

  lemma ChannelsOfIsJoinedBy(s: Srv, t: int)
    requires Inv(s) && t in s.users
    ensures ChannelsOf(s, t) == JoinedBy(s.channels, s.users[t].nick)
  {
    forall k ensures k in ChannelsOf(s, t) <==> k in JoinedBy(s.channels, s.users[t].nick) {
      InRel(s, t, k);
    }
  }

  /** In every reachable state nobody is in more than 11 channels, nobody more than 11 are in
      a channel, and nicknames have at most 9 bytes. */
  lemma RunBounds(states: seq<Srv>, events: seq<Event>, i: nat)
    requires IsRun(states, events) && i < |states|
    ensures forall t :: t in states[i].users ==> |ChannelsOf(states[i], t)| <= 11 && |states[i].users[t].nick| <= 9
    ensures forall k :: k in states[i].channels ==> |states[i].channels[k].members| <= 11
  {
    var s := states[i];
    RunKeepsInv(states, events, i);
    forall t | t in s.users ensures |ChannelsOf(s, t)| <= 11 && |s.users[t].nick| <= 9 {
      ChannelsOfIsJoinedBy(s, t);
      assert UserOk(s.users[t]);
    }
    forall k | k in s.channels ensures |s.channels[k].members| <= 11 {
      assert ChannelOk(k, s.channels[k], s.users);
    }
  }

  /** Every run of the server is a run of the abstract server. */
  lemma RunRefines(states: seq<Srv>, events: seq<Event>)
    requires IsRun(states, events)
    ensures Abs(states[0]) == Abstract(states[0].password, map[], {}, {})
    ensures forall i :: 0 <= i < |events| ==> AbstractStep(Abs(states[i]), events[i], Abs(states[i + 1]))
  {
    forall i | 0 <= i < |events| ensures AbstractStep(Abs(states[i]), events[i], Abs(states[i + 1])) {
      RunStep(states, events, i);
      StepSimulates(states[i], events[i]);
    }
  }
}
