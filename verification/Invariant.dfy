/** What every reachable state of the server satisfies, and the proof that every
    handler keeps it. */
module Invariants {
  import opened Text
  import opened Model

  predicate IsChannelName(k: string) {
    IsChannelParam(k) && IsCleanParam(k) && ':' !in k
  }

  /** A letter, looked up in the alphabet. */
  predicate IsListed(c: char) {
    c in "abcdefghijklmnopqrstuvwxyz" || c in "ABCDEFGHIJKLMNOPQRSTUVWXYZ"
  }

  lemma ListedIsLetter(c: char)
    requires IsListed(c)
    ensures IsLetter(c)
  {
  }

  lemma SmallIsListed(c: char)
    requires 'a' <= c <= 'z'
    ensures c in "abcdefghijklmnopqrstuvwxyz"
  {
    assert "abcdefghijklmnopqrstuvwxyz"[c as int - 'a' as int] == c;
  }

  lemma CapitalIsListed(c: char)
    requires 'A' <= c <= 'Z'
    ensures c in "ABCDEFGHIJKLMNOPQRSTUVWXYZ"
  {
    assert "ABCDEFGHIJKLMNOPQRSTUVWXYZ"[c as int - 'A' as int] == c;
  }

  lemma LetterIsListed(c: char)
    ensures IsLetter(c) <==> IsListed(c)
  {
    if 'a' <= c <= 'z' {
      SmallIsListed(c);
    } else if 'A' <= c <= 'Z' {
      CapitalIsListed(c);
    } else if IsListed(c) {
      ListedIsLetter(c);
    }
  }

  lemma DigitIsListed(c: char)
    ensures '0' <= c <= '9' <==> c in "0123456789"
  {
    if '0' <= c <= '9' {
      assert "0123456789"[c as int - '0' as int] == c;
    }
  }

  /** The nickname grammar, byte by byte: at most 9, a letter first, then letters, digits
      and eight signs. */
  lemma NickGrammar(nick: string)
    ensures IsCorrectNick(nick) <==>
              && 1 <= |nick| <= 9 && IsListed(nick[0])
              && forall i :: 1 <= i < |nick| ==> IsListed(nick[i]) || nick[i] in "0123456789" || nick[i] in "-[]\\'^{}"
  {
    if nick != "" {
      LetterIsListed(nick[0]);
      forall i | 0 <= i < |nick|
        ensures IsNickChar(nick[i]) <==> IsListed(nick[i]) || nick[i] in "0123456789" || nick[i] in "-[]\\'^{}"
      {
        LetterIsListed(nick[i]);
        DigitIsListed(nick[i]);
      }
    }
  }

  /** The registration flags agree with each other and with the nickname. */
  predicate Registered(u: UserV) {
    && (u.logged <==> u.hasNick && u.hasUser)
    && (u.hasNick || u.hasUser ==> u.passworded)
    && (u.hasNick <==> u.nick != "")
  }

  predicate UserOk(u: UserV) {
    && u.key == u.nick
    && (u.nick == "" || IsCorrectNick(u.nick))
    && Registered(u)
  }

  predicate UsersOk(users: map<int, UserV>) {
    && (forall t :: t in users ==> UserOk(users[t]))
    && (forall t, t' :: t in users && t' in users && users[t].nick == users[t'].nick && users[t].nick != "" ==> t == t')
  }

  /** Each member entry n points at the live, logged-in node whose nickname is n. */
  predicate MembersOk(members: map<string, int>, users: map<int, UserV>) {
    forall n :: n in members ==>
      && members[n] in users
      && users[members[n]].nick == n
      && users[members[n]].logged
  }

  predicate ChannelOk(k: string, c: ChannelV, users: map<int, UserV>) {
    && c.name == k
    && IsChannelName(k)
    && |c.members| <= LIMIT + 1
    && |c.chops| == 1
    && MembersOk(c.members, users)
  }

  predicate ChannelsOk(channels: map<string, ChannelV>, users: map<int, UserV>) {
    forall k :: k in channels ==> ChannelOk(k, channels[k], users)
  }

  ghost predicate FewChannels(channels: map<string, ChannelV>) {
    forall n: string :: |JoinedBy(channels, n)| <= LIMIT + 1
  }

  predicate OneEmpty(channels: map<string, ChannelV>) {
    forall k, k' :: k in channels && k' in channels && channels[k].members == map[] == channels[k'].members ==> k == k'
  }

  ghost predicate Ok(users: map<int, UserV>, channels: map<string, ChannelV>) {
    && UsersOk(users)
    && ChannelsOk(channels, users)
    && FewChannels(channels)
    && OneEmpty(channels)
  }

  ghost predicate Inv(s: Srv) {
    Ok(s.users, s.channels)
  }

  // ---- Consequences -----------------------------------------------------------

  lemma {:induction false} SubsetSize<T>(a: set<T>, b: set<T>)
    requires a <= b
    ensures |a| <= |b|
  {
    if a != {} {
      var x :| x in a;
      SubsetSize(a - {x}, b - {x});
    }
  }

  /** A nickname that is in use is the nickname of one user. */
  lemma SockIsUnique(s: Srv, t: int)
    requires UsersOk(s.users) && t in s.users && s.users[t].nick != ""
    ensures Taken(s, s.users[t].nick) && SockOf(s, s.users[t].nick) == t
  {
    assert s.users[t].key == s.users[t].nick;
  }

  lemma MemberIsUser(s: Srv, k: string, n: string)
    requires Inv(s) && k in s.channels && n in s.channels[k].members
    ensures var t := s.channels[k].members[n];
            t in s.users && UserOk(s.users[t]) && s.users[t].nick == n != "" && s.users[t].logged
  {
    assert ChannelOk(k, s.channels[k], s.users);
    var t := s.channels[k].members[n];
    assert t in s.users;
    assert UserOk(s.users[t]);
  }

  /** Among the members of a channel a user is found under its nickname only. */
  lemma MemberIsNick(s: Srv, k: string, t: int)
    requires Inv(s) && k in s.channels && t in s.users
    ensures (exists n :: n in s.channels[k].members && s.channels[k].members[n] == t)
       <==> s.users[t].nick in s.channels[k].members
    ensures s.users[t].nick in s.channels[k].members ==> s.channels[k].members[s.users[t].nick] == t
  {
    forall n | n in s.channels[k].members
      ensures s.channels[k].members[n] == t <==> n == s.users[t].nick
    {
      MemberIsUser(s, k, n);
    }
  }

  lemma FreshNickIsNoMember(s: Srv, nick: string)
    requires Inv(s) && !Taken(s, nick)
    ensures forall k :: k in s.channels ==> nick !in s.channels[k].members
  {
    forall k, n | k in s.channels && n in s.channels[k].members ensures n != nick {
      MemberIsUser(s, k, n);
    }
  }

  // ---- Edits of the state that keep it ---------------------------------------

  /** New flags for one user. */
  lemma FlagsKeepOk(users: map<int, UserV>, channels: map<string, ChannelV>, t: int, u: UserV)
    requires Ok(users, channels) && t in users
    requires u.nick == users[t].nick && UserOk(u) && (users[t].logged ==> u.logged)
    ensures Ok(users[t := u], channels)
  {
    forall k | k in channels ensures ChannelOk(k, channels[k], users[t := u]) {
      assert ChannelOk(k, channels[k], users);
    }
  }

  lemma ConnectKeepsOk(users: map<int, UserV>, channels: map<string, ChannelV>, t: int)
    requires Ok(users, channels) && t !in users
    ensures Ok(users[t := Fresh()], channels)
  {
    forall k | k in channels ensures ChannelOk(k, channels[k], users[t := Fresh()]) {
      assert ChannelOk(k, channels[k], users);
    }
  }

  /** Why the silent limit check of addUser never drops a member during a rename: the
      member map has at most 11 entries and the old nick has just left it. */
  lemma RenameKeepsMember(c: ChannelV, old_: string, nick: string, t: int)
    requires |c.members| <= LIMIT + 1 && nick !in c.members && |c.chops| == 1
    ensures var c' := RenameIn(c, old_, nick, t);
            && c'.name == c.name && c'.pass == c.pass
            && c'.members == (if old_ in c.members then (c.members - {old_})[nick := t] else c.members)
            && c'.chops == (if c.chops == [old_] then [nick] else c.chops)
            && |c'.members| == |c.members|
  {
    var rest := c.members - {old_};
    if old_ in c.members {
      assert c.members.Keys == rest.Keys + {old_};
      assert |rest.Keys| == |c.members.Keys| - 1;
      assert rest[nick := t].Keys == rest.Keys + {nick};
    }
    assert c.chops == [c.chops[0]];
    assert RemoveFirst(c.chops, c.chops[0]) == [];
  }

  /** The table after a successful NICK, its flags already in place. */
  lemma RenameKeepsOk(s: Srv, t: int, nick: string, u: UserV)
    requires Inv(s) && t in s.users && !Taken(s, nick) && IsCorrectNick(nick)
    requires u.nick == nick && UserOk(u) && (s.users[t].logged ==> u.logged)
    ensures Ok(s.users[t := u], Rename(s, t, nick).channels)
  {
    var old_, users, channels := s.users[t].nick, s.users[t := u], Rename(s, t, nick).channels;
    FreshNickIsNoMember(s, nick);
    forall t' | t' in s.users ensures s.users[t'].nick != nick {
      assert UserOk(s.users[t']);
    }
    forall k | k in channels
      ensures ChannelOk(k, channels[k], users)
      ensures channels[k].members == map[] <==> s.channels[k].members == map[]
    {
      RenameKeepsChannel(s, t, nick, u, k);
    }
    forall n: string ensures |JoinedBy(channels, n)| <= LIMIT + 1 {
      RenameKeepsJoined(s, t, nick, n);
    }
  }

  lemma RenameKeepsChannel(s: Srv, t: int, nick: string, u: UserV, k: string)
    requires Inv(s) && t in s.users && k in s.channels && nick !in s.channels[k].members
    requires u.nick == nick && (s.users[t].logged ==> u.logged)
    ensures k in Rename(s, t, nick).channels
    ensures var c' := Rename(s, t, nick).channels[k];
            && ChannelOk(k, c', s.users[t := u])
            && |c'.members| == |s.channels[k].members|
  {
    var c, old_ := s.channels[k], s.users[t].nick;
    assert ChannelOk(k, c, s.users);
    MemberIsNick(s, k, t);
    RenameInOk(s.users, k, c, t, u, nick);
    RenamedChannel(s, t, nick, k);
    if "" in c.members {
      MemberIsUser(s, k, "");
    }
  }

  lemma RenamedChannel(s: Srv, t: int, nick: string, k: string)
    requires t in s.users && k in s.channels
    ensures var old_ := s.users[t].nick;
            && k in Rename(s, t, nick).channels
            && Rename(s, t, nick).channels[k] == if old_ == "" then s.channels[k] else RenameIn(s.channels[k], old_, nick, t)
  {
  }

  /** One channel, when user t, u after the rename, is no longer called users[t].nick. */
  lemma RenameInOk(users: map<int, UserV>, k: string, c: ChannelV, t: int, u: UserV, nick: string)
    requires ChannelOk(k, c, users) && t in users && nick !in c.members
    requires u.nick == nick && (users[t].logged ==> u.logged)
    requires forall n :: n in c.members ==> (c.members[n] == t <==> n == users[t].nick)
    ensures var c' := RenameIn(c, users[t].nick, nick, t);
            |c'.members| == |c.members| && ChannelOk(k, c', users[t := u])
    ensures users[t].nick !in c.members ==> ChannelOk(k, c, users[t := u])
  {
    RenameKeepsMember(c, users[t].nick, nick, t);
  }

  lemma RenameKeepsJoined(s: Srv, t: int, nick: string, n: string)
    requires Inv(s) && t in s.users && !Taken(s, nick)
    ensures |JoinedBy(Rename(s, t, nick).channels, n)| <= LIMIT + 1
  {
    var old_, channels := s.users[t].nick, Rename(s, t, nick).channels;
    FreshNickIsNoMember(s, nick);
    forall k | k in s.channels ensures n in channels[k].members ==> (if n == nick then old_ else n) in s.channels[k].members {
      assert ChannelOk(k, s.channels[k], s.users);
      RenameKeepsMember(s.channels[k], old_, nick, t);
    }
    var was := if n == nick then old_ else n;
    assert JoinedBy(channels, n) <= JoinedBy(s.channels, was);
    SubsetSize(JoinedBy(channels, n), JoinedBy(s.channels, was));
  }

  /** A user joins an existing channel. */
  lemma AddMemberKeepsOk(users: map<int, UserV>, channels: map<string, ChannelV>, t: int, k: string)
    requires Ok(users, channels) && t in users && users[t].logged && k in channels
    requires |JoinedBy(channels, users[t].nick)| <= LIMIT
    ensures Ok(users, channels[k := AddUser(channels[k], users[t].nick, t)])
  {
    var n, c := users[t].nick, channels[k];
    var c' := AddUser(c, n, t);
    var channels' := channels[k := c'];
    assert ChannelOk(k, c, users);
    assert |c.members.Keys| > 0 || n in c'.members;
    assert n !in c.members ==> c.members[n := t].Keys == c.members.Keys + {n};
    forall k' | k' in channels' ensures ChannelOk(k', channels'[k'], users) {
      assert k' != k ==> ChannelOk(k', channels[k'], users);
    }
    JoinedGrows(channels, k, c', n);
  }

  lemma JoinedGrows(channels: map<string, ChannelV>, k: string, c: ChannelV, n: string)
    requires FewChannels(channels) && |JoinedBy(channels, n)| <= LIMIT
    requires forall n' :: n' in c.members && n' != n ==> k in channels && n' in channels[k].members
    ensures FewChannels(channels[k := c])
  {
    var channels' := channels[k := c];
    forall n': string ensures |JoinedBy(channels', n')| <= LIMIT + 1 {
      var extra := if n' == n then {k} else {};
      assert JoinedBy(channels', n') <= JoinedBy(channels, n') + extra;
      SubsetSize(JoinedBy(channels', n'), JoinedBy(channels, n') + extra);
    }
  }

  /** A user creates a channel. */
  lemma CreateKeepsOk(users: map<int, UserV>, channels: map<string, ChannelV>, t: int, k: string, key: Option<string>)
    requires Ok(users, channels) && t in users && users[t].logged && k !in channels && IsChannelName(k)
    requires |JoinedBy(channels, users[t].nick)| <= LIMIT
    ensures Ok(users, channels[k := NewChannel(k, key, users[t].nick, t)])
  {
    var n := users[t].nick;
    var c := NewChannel(k, key, n, t);
    assert n in c.members;
    forall k' | k' in channels ensures ChannelOk(k', channels[k'], users) {}
    JoinedGrows(channels, k, c, n);
  }

  /** Memberships and channels only leave. */
  lemma JoinedShrinks(channels: map<string, ChannelV>, channels': map<string, ChannelV>)
    requires FewChannels(channels)
    requires forall k :: k in channels' ==> k in channels && channels'[k].members.Keys <= channels[k].members.Keys
    ensures FewChannels(channels')
  {
    forall n: string ensures |JoinedBy(channels', n)| <= LIMIT + 1 {
      assert JoinedBy(channels', n) <= JoinedBy(channels, n);
      SubsetSize(JoinedBy(channels', n), JoinedBy(channels, n));
    }
  }

  lemma RemoveMemberKeepsInv(s: Srv, k: string, n: string)
    requires Inv(s) && k in s.channels && n in s.channels[k].members
    ensures Inv(RemoveMember(s, k, n))
  {
    var channels := RemoveMember(s, k, n).channels;
    assert ChannelOk(k, s.channels[k], s.users);
    SubsetSize((s.channels[k].members - {n}).Keys, s.channels[k].members.Keys);
    forall k' | k' in channels
      ensures ChannelOk(k', channels[k'], s.users) && channels[k'].members.Keys <= s.channels[k'].members.Keys
    {
      assert ChannelOk(k', s.channels[k'], s.users);
    }
    JoinedShrinks(s.channels, channels);
  }
}
