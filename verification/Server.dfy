/** The server object: the tables of server/includes/IRCServer.hpp, updated in place by
    the handlers, each proved against its function of the state machine. */
module Server {
  import opened Text
  import opened Messages
  import opened Entities
  import opened Invariants
  import opened Steps
  import opened Refinement
  import opened Sweeping
  import opened Deliveries
  import M = Model

  /** Node u, filed under key, is what the state machine has for socket t. */
  ghost predicate NodeStands(u: User, t: int, key: string, v: M.UserV)
    reads u
  {
    u.socket == t && v == u.View(key)
  }

  /** Channel c, filed under k, is v, and its member pointers lead to nodes in live. */
  ghost predicate ChannelStands(c: Channel, k: string, v: M.ChannelV, live: set<User>)
    reads c
  {
    c.name == k && c.Shows(v) && c.PointsInto(live)
  }

  /** The nodes and the view of them agree, one node a socket. */
  ghost predicate TableStands(users: map<User, string>, node: map<int, User>, view: map<int, M.UserV>)
    reads users.Keys
  {
    && node.Keys == view.Keys
    && (forall t :: t in node ==> node[t] in users && NodeStands(node[t], t, users[node[t]], view[t]))
    && (forall u :: u in users ==> u.socket in node && node[u.socket] == u)
  }

  /** Erasing a node and filing another for the same socket under a new key. */
  lemma ReplacedStands(users: map<User, string>, node: map<int, User>, view: map<int, M.UserV>,
                       user: User, newUser: User, newNick: string, v: M.UserV)
    requires TableStands(users, node, view) && user in users && newUser !in users
    requires NodeStands(newUser, user.socket, newNick, v)
    ensures TableStands((users - {user})[newUser := newNick], node[user.socket := newUser], view[user.socket := v])
  {
  }

  /** Filing a node just constructed. */
  lemma AddedStands(users: map<User, string>, node: map<int, User>, view: map<int, M.UserV>, newUser: User)
    requires TableStands(users, node, view) && newUser !in users && newUser.socket !in view
    ensures TableStands(users[newUser := ""], node[newUser.socket := newUser], view[newUser.socket := newUser.View("")])
  {
  }

  /** Erasing a node. */
  lemma RemovedStands(users: map<User, string>, node: map<int, User>, view: map<int, M.UserV>, user: User)
    requires TableStands(users, node, view) && user in users
    ensures TableStands(users - {user}, node - {user.socket}, view - {user.socket})
  {
  }

  /** A map of channels that has only lost some. */
  predicate Within(now: map<string, Channel>, at: map<string, Channel>) {
    forall k :: k in now ==> k in at && now[k] == at[k]
  }

  /** A table of users that has only lost some. */
  predicate Among(now: map<User, string>, at: map<User, string>) {
    forall u :: u in now ==> u in at
  }

  lemma WithinValues(now: map<string, Channel>, at: map<string, Channel>)
    requires Within(now, at)
    ensures now.Values <= at.Values
  {
  }

  class IRCServer {
    const hostname: string
    const password: string
    /** The multimap `_users`: its nodes, each with the key it is filed under. */
    var users: map<User, string>
    var channels: map<string, Channel>
    var operators: set<string>
    var out: seq<M.Delivery>

    /** The state the tables stand for, and the live node of each socket. */
    ghost var st: M.Srv
    ghost var node: map<int, User>

    ghost predicate TableValid(view: map<int, M.UserV>)
      reads this`users, this`node, users.Keys
    {
      TableStands(users, node, view)
    }

    /** Every member pointer points at a live node. */
    ghost predicate ChannelsValid(view: map<string, M.ChannelV>)
      reads this`users, this`channels, channels.Values
    {
      && channels.Keys == view.Keys
      && forall k :: k in channels ==> ChannelStands(channels[k], k, view[k], users.Keys)
    }

    ghost predicate Valid()
      reads this, users.Keys, channels.Values
    {
      && TableValid(st.users) && ChannelsValid(st.channels)
      && out == st.out && operators == st.operators
      && hostname == st.hostname && password == st.password
    }

    /** Valid, and ds is all that has been done since state s. */
    ghost predicate ValidAfter(s: M.Srv, ds: seq<M.Delivery>)
      reads this, users.Keys, channels.Values
    {
      Valid() && st == s.(out := s.out + ds)
    }

    constructor (hostname: string, password: string)
      ensures Valid() && M.IsInitial(st) && Inv(st) && st.hostname == hostname && st.password == password
    {
      this.hostname, this.password := hostname, password;
      users, channels, operators, out := map[], map[], {}, [];
      st := M.Srv(hostname, password, map[], map[], {}, []);
      node := map[];
      new;
      InitialInv(st);
    }

    /** The tables have become s: say so. */
    ghost method Settle(s: M.Srv)
      requires TableValid(s.users) && ChannelsValid(s.channels)
      requires out == s.out && operators == s.operators && hostname == s.hostname && password == s.password
      modifies this`st
      ensures Valid() && st == s
    {
      st := s;
    }

    // ---- Lookups --------------------------------------------------------------

    method GetUser(sockfd: int) returns (u: User?)
      requires TableValid(st.users)
      ensures if sockfd in st.users then u == node[sockfd] else u == null
    {
      var rest := users.Keys;
      while rest != {}
        invariant rest <= users.Keys && forall v :: v in users && v !in rest ==> v.socket != sockfd
        decreases |rest|
      {
        var v :| v in rest;
        if v.socket == sockfd {
          return v;
        }
        rest := rest - {v};
      }
      return null;
    }

    /** `_users.find(nick)`: any node filed under nick. */
    method Find(nick: string) returns (u: User?)
      requires TableValid(st.users)
      ensures u == null <==> !M.Taken(st, nick)
      ensures u != null ==> u in users && users[u] == nick && st.users[u.socket].key == nick
    {
      var rest := users.Keys;
      while rest != {}
        invariant rest <= users.Keys && forall v :: v in users && v !in rest ==> users[v] != nick
        decreases |rest|
      {
        var v :| v in rest;
        if users[v] == nick {
          assert st.users[v.socket].key == nick;
          return v;
        }
        rest := rest - {v};
      }
      assert !M.Taken(st, nick) by {
        forall t | t in st.users ensures st.users[t].key != nick {
          assert node[t] in users;
        }
      }
      return null;
    }

    // ---- Sending --------------------------------------------------------------

    method Send(sockfd: int, r: M.Reply)
      requires Valid()
      modifies this`out, this`st
      ensures Valid() && st == if sockfd in old(st).users then M.Say(old(st), sockfd, r) else old(st)
    {
      var u := GetUser(sockfd);
      if u == null {
        return;
      }
      out := out + [M.Delivery(sockfd, r)];
      st := M.Say(st, sockfd, r);
    }

    method SendToChannel(channel: string, r: M.Reply, nick: string)
      requires Valid()
      modifies this`out, this`st
      ensures Valid() && st == M.SendToChannel(old(st), channel, r, nick)
    {
      if channel !in channels {
        return;
      }
      var c := channels[channel];
      ghost var members := st.channels[channel].members;
      assert c.users.Keys == members.Keys;
      var names := Sorted(c.users.Keys);
      ghost var s := st;
      for i := 0 to |names|
        invariant Valid() && st == Sending(s, members, names[..i], r, nick)
      {
        SendNext(c, channel, names, i, r, nick, s);
      }
      WholeSlice(names);
    }

    /** One round of it, which began in state s. */
    method SendNext(c: Channel, ghost k: string, names: seq<string>, i: nat, r: M.Reply, nick: string, ghost s: M.Srv)
      requires Valid() && k in channels && channels[k] == c && k in s.channels && s.channels == st.channels
      requires i < |names| && names == Sorted(c.users.Keys) && st == Sending(s, s.channels[k].members, names[..i], r, nick)
      modifies this`out, this`st
      ensures Valid() && st == Sending(s, s.channels[k].members, names[..i + 1], r, nick)
    {
      assert names[i] in names;
      assert ChannelStands(c, k, st.channels[k], users.Keys);
      SendingStep(s, s.channels[k].members, names, i, r, nick);
      if names[i] != nick {
        SendToMember(c, names[i], r, k);
      }
    }

    method SendToMember(c: Channel, n: string, r: M.Reply, ghost k: string)
      requires Valid() && k in channels && channels[k] == c && n in c.users
      modifies this`out, this`st
      ensures Valid() && st == M.Say(old(st), old(st).channels[k].members[n], r)
    {
      assert c.users[n] in users;
      Send(c.users[n].socket, r);
    }

    method SendToJoinedChannels(nick: string, r: M.Reply)
      requires Valid() && NamesAreKeys(st)
      modifies this`out, this`st
      ensures Valid() && st == M.SendToJoinedChannels(old(st), nick, r)
    {
      var alreadySent := [];
      var ks := Sorted(channels.Keys);
      ghost var a := M.Spread([], []);
      for i := 0 to |ks|
        invariant ValidAfter(old(st), a.out)
        invariant a == M.SpreadChannels(old(st).channels, ks[..i], nick, r) && a.sent == alreadySent
      {
        assert ks[i] in ks;
        SpreadStep(old(st).channels, ks, i, nick, r);
        alreadySent, a := SpreadOver(ks[i], nick, r, alreadySent, old(st), a);
      }
      WholeSlice(ks);
    }

    /** The inner loop: one channel's members. */
    method SpreadOver(k: string, nick: string, r: M.Reply, sent: seq<string>, ghost s: M.Srv, ghost a: M.Spread)
      returns (alreadySent: seq<string>, ghost b: M.Spread)
      requires ValidAfter(s, a.out) && NamesAreKeys(s) && k in channels && a.sent == sent
      modifies this`out, this`st
      ensures ValidAfter(s, b.out) && b.sent == alreadySent
      ensures b == M.SpreadChannel(s.channels[k], nick, r, a)
    {
      alreadySent, b := sent, a;
      if nick in channels[k].users {
        alreadySent, b := SpreadMembers(channels[k], k, nick, r, sent, s, a);
      }
    }

    method SpreadMembers(c: Channel, ghost k: string, nick: string, r: M.Reply, sent: seq<string>,
                         ghost s: M.Srv, ghost a: M.Spread)
      returns (alreadySent: seq<string>, ghost b: M.Spread)
      requires ValidAfter(s, a.out) && NamesAreKeys(s) && k in channels && channels[k] == c && a.sent == sent
      modifies this`out, this`st
      ensures ValidAfter(s, b.out) && b.sent == alreadySent && k in s.channels
      ensures b == M.SpreadMembers(s.channels[k].members, Sorted(s.channels[k].members.Keys), nick, r, a)
    {
      alreadySent, b := sent, a;
      ghost var members := s.channels[k].members;
      var names := Sorted(c.users.Keys);
      assert c.users.Keys == members.Keys;
      for i := 0 to |names|
        invariant ValidAfter(s, b.out)
        invariant b == M.SpreadMembers(members, names[..i], nick, r, a) && b.sent == alreadySent
      {
        assert names[i] in names;
        alreadySent, b := SpreadNext(c, k, names, i, nick, r, alreadySent, s, a, b);
      }
      WholeSlice(names);
    }

    /** One round of it, when the rounds before have made b of a. */
    method SpreadNext(c: Channel, ghost k: string, names: seq<string>, i: nat, nick: string, r: M.Reply, sent: seq<string>,
                      ghost s: M.Srv, ghost a: M.Spread, ghost b: M.Spread)
      returns (alreadySent: seq<string>, ghost b': M.Spread)
      requires ValidAfter(s, b.out) && NamesAreKeys(s) && k in channels && channels[k] == c && b.sent == sent
      requires i < |names| && names[i] in c.users && b == M.SpreadMembers(s.channels[k].members, names[..i], nick, r, a)
      modifies this`out, this`st
      ensures ValidAfter(s, b'.out) && b'.sent == alreadySent && k in s.channels
      ensures b' == M.SpreadMembers(s.channels[k].members, names[..i + 1], nick, r, a)
    {
      MemberStep(s.channels[k].members, names, i, nick, r, a);
      alreadySent, b' := SpreadTo(c, k, names[i], nick, r, sent, s, b);
    }

    method SpreadTo(c: Channel, ghost k: string, n: string, nick: string, r: M.Reply, sent: seq<string>,
                    ghost s: M.Srv, ghost a: M.Spread)
      returns (alreadySent: seq<string>, ghost b: M.Spread)
      requires ValidAfter(s, a.out) && NamesAreKeys(s) && k in channels && channels[k] == c && n in c.users
      requires a.sent == sent
      modifies this`out, this`st
      ensures ValidAfter(s, b.out) && b.sent == alreadySent
      ensures b == M.SpreadMember(n, s.channels[k].members[n], nick, r, a)
    {
      var user := c.users[n];
      MemberNick(s, k, n);
      alreadySent, b := sent, a;
      if user.nickname !in alreadySent && user.nickname != nick {
        alreadySent := alreadySent + [user.nickname];
        ghost var d := M.Delivery(s.channels[k].members[n], r);
        b := M.Spread(b.sent + [n], b.out + [d]);
        RegroupThree(s.out, a.out, [d]);
        SendToMember(c, n, r, k);
      }
    }

    /** A member entry and the user it points at agree on the nickname. */
    lemma MemberNick(s: M.Srv, k: string, n: string)
      requires Valid() && st.users == s.users && st.channels == s.channels && NamesAreKeys(s)
      requires k in channels && n in channels[k].users
      ensures channels[k].users[n].nickname == n
    {
      assert channels[k].users[n] in users;
    }

    // ---- Registration ---------------------------------------------------------

    /** The table once one live user's fields have changed. */
    lemma UserUpdated(u: User, s: M.Srv)
      requires u in users && node.Keys == s.users.Keys && u.socket in node && node[u.socket] == u
      requires forall t :: t in node ==> node[t] in users && node[t].socket == t
      requires forall t :: t in node ==> (node[t] == u || NodeStands(node[t], t, users[node[t]], s.users[t]))
      requires forall v :: v in users ==> v.socket in node && node[v.socket] == v
      ensures TableValid(s.users[u.socket := u.View(users[u])])
    {
    }

    method MarkPassword(user: User)
      requires Valid() && user in users
      modifies user`password, this`st
      ensures Valid() && user.password
      ensures st == old(st).(users := old(st).users[user.socket := old(st).users[user.socket].(passworded := true)])
    {
      user.UnablePassword();
      UserUpdated(user, st);
      Settle(st.(users := st.users[user.socket := user.View(users[user])]));
    }

    method MarkNick(user: User)
      requires Valid() && user in users
      modifies user`nick, this`st
      ensures Valid()
      ensures st == old(st).(users := old(st).users[user.socket := old(st).users[user.socket].(hasNick := true)])
    {
      user.UnableNick();
      UserUpdated(user, st);
      Settle(st.(users := st.users[user.socket := user.View(users[user])]));
    }

    method MarkUser(user: User)
      requires Valid() && user in users
      modifies user`user, this`st
      ensures Valid()
      ensures st == old(st).(users := old(st).users[user.socket := old(st).users[user.socket].(hasUser := true)])
    {
      user.UnableUser();
      UserUpdated(user, st);
      Settle(st.(users := st.users[user.socket := user.View(users[user])]));
    }

    method MarkLogged(user: User)
      requires Valid() && user in users
      modifies user`logged, this`st
      ensures Valid()
      ensures st == old(st).(users := old(st).users[user.socket := old(st).users[user.socket].(logged := true)])
    {
      user.UnableLogged();
      UserUpdated(user, st);
      Settle(st.(users := st.users[user.socket := user.View(users[user])]));
    }

    /** The end of NICK and USER. */
    method LogIn(user: User)
      requires Valid() && user in users
      modifies user`logged, this`out, this`st
      ensures Valid() && st == M.LogIn(old(st), user.socket)
    {
      assert st.users[user.socket] == user.View(users[user]);
      if user.nick && user.user && !user.logged {
        MarkLogged(user);
        Send(user.socket, M.Welcome(user.nickname));
      }
    }

    method Pass(m: Msg, user: User)
      requires Valid() && user in users
      modifies user`password, this`out, this`st
      ensures Valid() && st == M.Pass(old(st), user.socket, m)
    {
      assert st.users[user.socket] == user.View(users[user]);
      if user.password {
        Send(user.socket, M.Numeric(462, []));
      } else if |m.params| == 0 {
        Send(user.socket, M.Numeric(461, ["PASS"]));
      } else if m.params[0] == password {
        MarkPassword(user);
      } else {
        Send(user.socket, M.Numeric(464, [if user.nickname == "" then "*" else user.nickname]));
      }
    }

    method UserCommand(m: Msg, user: User)
      requires Valid() && user in users
      modifies user`user, user`logged, this`out, this`st
      ensures Valid() && st == M.User(old(st), user.socket, m)
    {
      assert st.users[user.socket] == user.View(users[user]);
      if |m.params| < 4 {
        Send(user.socket, M.Numeric(461, ["NICK"]));
      } else if user.user {
        Send(user.socket, M.Numeric(462, []));
      } else {
        MarkUser(user);
        LogIn(user);
      }
    }

    // ---- NICK -----------------------------------------------------------------

    /** `_removeUser(int)`: erases the node of a socket, nothing else. */
    method RemoveNode(sockfd: int)
      requires TableValid(st.users)
      modifies this`users
      ensures users == if sockfd in st.users then old(users) - {node[sockfd]} else old(users)
    {
      var rest := users.Keys;
      while rest != {}
        invariant users == old(users) && TableValid(st.users)
        invariant rest <= users.Keys && forall v :: v in users && v !in rest ==> v.socket != sockfd
        decreases |rest|
      {
        var v :| v in rest;
        if v.socket == sockfd {
          users := users - {v};
          return;
        }
        rest := rest - {v};
      }
    }

    /** `_addUser(const User&)`: inserts a copy of the user under its nickname. */
    method AddNode(user: User) returns (ghost added: User)
      modifies this`users
      ensures fresh(added) && users == old(users)[added := user.nickname]
      ensures added.socket == user.socket && added.nickname == user.nickname
      ensures forall key :: added.View(key) == user.View(key)
    {
      var n := new User.Copy(user);
      users := users[n := user.nickname];
      added := n;
    }

    /** NICK's three steps on the table: copy the user, erase its node, insert the copy. */
    method ReplaceNode(user: User, newNick: string) returns (newUser: User)
      requires TableValid(st.users) && user in users && !M.Taken(st, newNick)
      modifies this`users, this`node
      ensures fresh(newUser) && newUser.socket == user.socket && newUser.nickname == newNick
      ensures users == (old(users) - {user})[newUser := newNick]
      ensures TableValid(st.users[user.socket := st.users[user.socket].(key := newNick, nick := newNick)])
    {
      ghost var table, nodes, view := users, node, st.users[user.socket];
      assert view == user.View(users[user]);
      newUser := SwapNode(user, newNick);
      node := node[user.socket := newUser];
      ReplacedStands(table, nodes, st.users, user, newUser, newNick, view.(key := newNick, nick := newNick));
    }

    method SwapNode(user: User, newNick: string) returns (newUser: User)
      requires TableValid(st.users) && user in users && !M.Taken(st, newNick)
      modifies this`users
      ensures fresh(newUser) && newUser.socket == user.socket && newUser.nickname == newNick
      ensures newUser.View(newNick) == user.View(newNick).(nick := newNick)
      ensures users == (old(users) - {user})[newUser := newNick]
    {
      var copy := new User.Copy(user);
      copy.SetNickname(newNick);
      NoNodeHasKey(newNick);
      RemoveNode(user.socket);
      ghost var added := AddNode(copy);
      newUser := FindNode(newNick, added);
    }

    lemma NoNodeHasKey(nick: string)
      requires TableValid(st.users) && !M.Taken(st, nick)
      ensures forall v :: v in users ==> users[v] != nick
    {
      forall v | v in users ensures users[v] != nick {
        assert st.users[v.socket].key == users[v];
      }
    }

    /** `_users.find` for a nickname only one node has. */
    method FindNode(nick: string, ghost only: User) returns (u: User)
      requires only in users && users[only] == nick && forall v :: v in users && users[v] == nick ==> v == only
      ensures u == only
    {
      var rest := users.Keys;
      assert only in rest;
      u :| u in rest;
      while users[u] != nick
        invariant rest <= users.Keys && only in rest && u in rest
        decreases |rest|
      {
        rest := rest - {u};
        assert only in rest;
        u :| u in rest;
      }
    }

    /** One channel of the rename loop. */
    static method RenameInChannel(c: Channel, oldNick: string, newUser: User, ghost v: M.ChannelV)
      requires c.Shows(v)
      modifies c`chops, c`users
      ensures c.Shows(M.RenameIn(v, oldNick, newUser.nickname, newUser.socket))
      ensures forall n :: n in c.users ==>
                c.users[n] == newUser || (n != oldNick && n in old(c.users) && c.users[n] == old(c.users)[n])
    {
      ghost var v' := v;
      var wasChop := c.RemoveChop(oldNick);
      if wasChop {
        c.AddChop(newUser);
        v' := v.(chops := M.RemoveFirst(v.chops, oldNick) + [newUser.nickname]);
      }
      var wasUser := c.RemoveUser(oldNick, v');
      if wasUser {
        c.AddUser(newUser, M.RemoveUser(v', oldNick));
      } else {
        assert M.RemoveUser(v', oldNick).members == v'.members;
      }
    }

    /** The loop over the channels: every chop entry and member entry of the old nickname
        becomes one of the new, and points at the new node. */
    method RenameChannels(oldNick: string, newUser: User, ghost view: map<string, M.ChannelV>,
                          ghost before: set<User>, ghost after: set<User>)
      requires channels.Keys == view.Keys && newUser in after
      requires forall u :: u in before && u !in after ==> u.socket == newUser.socket
      requires forall k :: k in channels ==>
                 RenameTurn(channels[k], k, false, view[k], oldNick, newUser.nickname, newUser.socket, before, after)
      modifies channels.Values
      ensures forall k :: k in channels ==>
                RenameTurn(channels[k], k, true, view[k], oldNick, newUser.nickname, newUser.socket, before, after)
    {
      var rest := channels.Keys;
      while rest != {}
        invariant rest <= channels.Keys
        invariant forall k :: k in channels ==>
                    RenameTurn(channels[k], k, k !in rest, view[k], oldNick, newUser.nickname, newUser.socket, before, after)
        decreases |rest|
      {
        var chit := Least(rest);
        rest := rest - {chit};
        RenameAt(channels[chit], chit, view[chit], oldNick, newUser, before, after);
      }
    }

    /** NICK on the tables: the node replaced, every channel re-keyed, operators too. */
    method Rename(user: User, newNick: string) returns (newUser: User)
      requires Valid() && user in users && !M.Taken(st, newNick) && OwnEntries(st, st.users[user.socket].nick, {user.socket})
      modifies this`users, this`node, this`operators, this`st, channels.Values
      ensures Valid() && st == M.Rename(old(st), user.socket, newNick)
      ensures newUser in users && newUser.socket == user.socket && newUser.nickname == newNick
      ensures fresh(newUser) && users == (old(users) - {user})[newUser := newNick]
    {
      ghost var s' := M.Rename(st, user.socket, newNick);
      var oldNick := user.nickname;
      assert NodeStands(user, user.socket, users[user], st.users[user.socket]);
      RenameResult(st, user.socket, newNick);
      newUser := RenameInTables(user, newNick, s');
      RenameEnds(oldNick, newNick, newUser.socket);
    }

    /** The operators, after which the tables are those of the state after the rename. */
    method RenameEnds(oldNick: string, newNick: string, ghost t: int)
      requires t in st.users && st.users[t].nick == oldNick
      requires var s' := M.Rename(st, t, newNick); TableValid(s'.users) && ChannelsValid(s'.channels)
      requires out == st.out && operators == st.operators && hostname == st.hostname && password == st.password
      modifies this`operators, this`st
      ensures Valid() && st == M.Rename(old(st), t, newNick)
    {
      ghost var s' := M.Rename(st, t, newNick);
      RenameOperator(oldNick, newNick);
      Settle(s');
    }

    /** The node replaced and every channel re-keyed: the tables of s'. */
    method RenameInTables(user: User, newNick: string, ghost s': M.Srv) returns (newUser: User)
      requires Valid() && user in users && !M.Taken(st, newNick) && OwnEntries(st, st.users[user.socket].nick, {user.socket})
      requires s'.users == st.users[user.socket := st.users[user.socket].(key := newNick, nick := newNick)]
      requires s'.channels == M.Rename(st, user.socket, newNick).channels
      modifies this`users, this`node, channels.Values
      ensures TableValid(s'.users) && ChannelsValid(s'.channels)
      ensures newUser in users && newUser.socket == user.socket && newUser.nickname == newNick
      ensures fresh(newUser) && users == (old(users) - {user})[newUser := newNick]
    {
      ghost var before := users.Keys;
      var oldNick := user.nickname;
      assert NodeStands(user, user.socket, users[user], st.users[user.socket]);
      newUser := ReplaceNode(user, newNick);
      Rekey(oldNick, newUser, st, before);
    }

    method RenameOperator(oldNick: string, newNick: string)
      modifies this`operators
      ensures operators == if oldNick != "" && oldNick in old(operators) then old(operators) - {oldNick} + {newNick}
                           else old(operators)
    {
      if oldNick != "" && oldNick in operators {
        operators := operators - {oldNick} + {newNick};
      }
    }

    method Rekey(oldNick: string, newUser: User, ghost s: M.Srv, ghost before: set<User>)
      requires newUser.socket in s.users && s.users[newUser.socket].nick == oldNick && newUser in users
      requires OwnEntries(s, oldNick, {newUser.socket})
      requires channels.Keys == s.channels.Keys
      requires forall k :: k in channels ==> ChannelStands(channels[k], k, s.channels[k], before)
      requires forall u :: u in before && u !in users ==> u.socket == newUser.socket
      modifies channels.Values
      ensures ChannelsValid(M.Rename(s, newUser.socket, newUser.nickname).channels)
    {
      RenameStarts(s, newUser, oldNick, before);
      if oldNick != "" {
        RenameChannels(oldNick, newUser, s.channels, before, users.Keys);
      }
    }

    lemma RenameStarts(s: M.Srv, newUser: User, oldNick: string, before: set<User>)
      requires newUser.socket in s.users && s.users[newUser.socket].nick == oldNick
      requires OwnEntries(s, oldNick, {newUser.socket})
      requires channels.Keys == s.channels.Keys
      requires forall k :: k in channels ==> ChannelStands(channels[k], k, s.channels[k], before)
      requires forall u :: u in before && u !in users ==> u.socket == newUser.socket
      ensures forall k :: k in channels ==>
                RenameTurn(channels[k], k, false, s.channels[k], oldNick, newUser.nickname, newUser.socket, before, users.Keys)
      ensures oldNick == "" ==> forall k :: k in channels ==> ChannelStands(channels[k], k, s.channels[k], users.Keys)
    {
      forall k | k in channels
        ensures RenameTurn(channels[k], k, false, s.channels[k], oldNick, newUser.nickname, newUser.socket, before, users.Keys)
        ensures oldNick == "" ==> ChannelStands(channels[k], k, s.channels[k], users.Keys)
      {
        assert OwnEntry(s.channels[k], oldNick, {newUser.socket});
      }
    }

    // ---- Removing a user ------------------------------------------------------

    /** The first loop of `_removeUser(nick)`: out of every channel. */
    method StripChannels(nick: string, ghost view: map<string, M.ChannelV>, ghost ts: set<int>, ghost live: set<User>)
      requires channels.Keys == view.Keys
      requires forall k :: k in channels ==> StripTurn(channels[k], k, false, view[k], nick, ts, live)
      modifies channels.Values
      ensures forall k :: k in channels ==> StripTurn(channels[k], k, true, view[k], nick, ts, live)
    {
      var rest := channels.Keys;
      while rest != {}
        invariant rest <= channels.Keys
        invariant forall k :: k in channels ==> StripTurn(channels[k], k, k !in rest, view[k], nick, ts, live)
        decreases |rest|
      {
        var chit := Least(rest);
        rest := rest - {chit};
        StripAt(channels[chit], chit, view[chit], nick, ts, live);
      }
    }

    /** The last loop: erases the empty channels, and goes back to begin() after each. */
    method SweepChannels(ghost view: map<string, M.ChannelV>)
      requires ChannelsValid(view)
      modifies this`channels
      ensures ChannelsValid(M.Sweep(view)) && Within(channels, old(channels))
    {
      var chit, done := 0, channels == map[];
      ghost var c, restarted := view, false;
      while !done
        invariant Sweeps(view, c, chit, restarted, done) && Within(channels, old(channels))
        decreases !done, |channels|, |channels| - chit
      {
        chit, done, c, restarted := SweepStep(chit, view, c, restarted);
      }
    }

    /** The sweep at the head of its loop, or done with it. */
    ghost predicate Sweeps(view: map<string, M.ChannelV>, c: map<string, M.ChannelV>, chit: nat, restarted: bool, done: bool)
      reads this`users, this`channels, channels.Values
    {
      ChannelsValid(c) && if done then c == M.Sweep(view) else SweepAt(view, c, chit, restarted) && chit < |c.Keys|
    }

    /** One round of the sweep. */
    method SweepStep(i: nat, ghost view: map<string, M.ChannelV>, ghost c: map<string, M.ChannelV>, ghost restarted: bool)
      returns (chit: nat, done: bool, ghost c': map<string, M.ChannelV>, ghost restarted': bool)
      requires Sweeps(view, c, i, restarted, false)
      modifies this`channels
      ensures Sweeps(view, c', chit, restarted', done) && Within(channels, old(channels))
      ensures !done ==> |channels| < old(|channels|) || (|channels| == old(|channels|) && chit > i)
    {
      var ks := Sorted(channels.Keys);
      c', restarted' := c, restarted;
      var empty := IsEmpty(ks[i], c);
      if empty {
        chit, done, c' := SweepEmpty(ks[i], i, view, c, restarted);
        restarted' := true;
      } else {
        SweepPasses(view, c, i, restarted);
        chit, done := Next(i, view, c, restarted);
      }
    }

    /** An empty channel erased, and on from begin(), if anything is left. */
    method SweepEmpty(k: string, i: nat, ghost view: map<string, M.ChannelV>, ghost c: map<string, M.ChannelV>, ghost restarted: bool)
      returns (chit: nat, done: bool, ghost left: map<string, M.ChannelV>)
      requires ChannelsValid(c) && SweepAt(view, c, i, restarted) && i < |c.Keys| && k == Sorted(c.Keys)[i]
      requires c[k].members == map[]
      modifies this`channels
      ensures Sweeps(view, left, chit, true, done) && Within(channels, old(channels)) && |channels| < old(|channels|)
    {
      left := EraseEmpty(k, i, view, c, restarted);
      chit, done := 0, channels == map[];
      if !done {
        chit, done := Next(0, view, left, true);
      }
    }

    /** The sweep at an empty channel. */
    method EraseEmpty(k: string, i: nat, ghost view: map<string, M.ChannelV>, ghost c: map<string, M.ChannelV>, ghost restarted: bool)
      returns (ghost left: map<string, M.ChannelV>)
      requires ChannelsValid(c) && SweepAt(view, c, i, restarted) && i < |c.Keys| && k == Sorted(c.Keys)[i]
      requires c[k].members == map[]
      modifies this`channels
      ensures ChannelsValid(left) && |channels| == old(|channels|) - 1 && Within(channels, old(channels))
      ensures if left == map[] then left == M.Sweep(view) else SweepAt(view, left, 1, true)
    {
      SweepErasesOrEnds(view, c, i, restarted);
      left := c - {k};
      Erase(k, c);
    }

    /** The increment of the sweep's iterator, and its test for the end. */
    method Next(i: nat, ghost view: map<string, M.ChannelV>, ghost c: map<string, M.ChannelV>, ghost restarted: bool)
      returns (chit: nat, done: bool)
      requires ChannelsValid(c) && i < |c.Keys| && SweepAt(view, c, i + 1, restarted)
      ensures chit == i + 1 && Sweeps(view, c, chit, restarted, done)
    {
      chit := i + 1;
      assert |channels| == |channels.Keys|;
      done := chit == |channels|;
      if done {
        SweepEnds(view, c, restarted);
      }
    }

    method IsEmpty(k: string, ghost c: map<string, M.ChannelV>) returns (empty: bool)
      requires ChannelsValid(c) && k in Sorted(c.Keys)
      ensures k in channels && k in c && (empty <==> c[k].members == map[])
    {
      assert ChannelStands(channels[k], k, c[k], users.Keys);
      empty := channels[k].users == map[];
    }

    method Erase(k: string, ghost c: map<string, M.ChannelV>)
      requires ChannelsValid(c) && k in channels
      modifies this`channels
      ensures channels == old(channels) - {k} && ChannelsValid(c - {k})
      ensures |channels| == old(|channels|) - 1
    {
      SweepShrinks(channels, k);
      channels := channels - {k};
    }

    /** `_removeUser(nick)`: out of the channels, one node found under nick out of the
        table, then the sweep. */
    method RemoveUser(nick: string) returns (ghost found: int)
      requires Valid() && M.Taken(st, nick) && OwnEntries(st, nick, SocketsOf(st.users, nick))
      modifies this`users, this`node, this`channels, this`st, channels.Values
      ensures Valid() && found in SocketsOf(old(st).users, nick) && st == M.RemoveNick(old(st), nick, {found})
      ensures Among(users, old(users)) && Within(channels, old(channels))
    {
      ghost var s := st;
      found := StripAndErase(nick);
      SweepRest(M.RemoveNick(s, nick, {found}), M.Strip(s.channels, nick));
    }

    /** The sweep, after which the tables are those of s. */
    method SweepRest(ghost s: M.Srv, ghost view: map<string, M.ChannelV>)
      requires TableValid(s.users) && ChannelsValid(view) && s.channels == M.Sweep(view)
      requires out == s.out && operators == s.operators && hostname == s.hostname && password == s.password
      modifies this`channels, this`st
      ensures Valid() && st == s && Within(channels, old(channels))
    {
      SweepChannels(view);
      Settle(s);
    }

    /** The part of it before the sweep. */
    method StripAndErase(nick: string) returns (ghost found: int)
      requires TableValid(st.users) && ChannelsValid(st.channels)
      requires M.Taken(st, nick) && OwnEntries(st, nick, SocketsOf(st.users, nick))
      modifies this`users, this`node, channels.Values
      ensures found in SocketsOf(st.users, nick) && Among(users, old(users))
      ensures TableValid(st.users - {found}) && ChannelsValid(M.Strip(st.channels, nick))
    {
      ghost var live, ts := users.Keys, SocketsOf(st.users, nick);
      StripStarts(nick, ts);
      StripChannels(nick, st.channels, ts, live);
      found := EraseNode(nick);
      StripEnds(st.channels, nick, ts, live);
    }

    lemma StripStarts(nick: string, ts: set<int>)
      requires ChannelsValid(st.channels) && OwnEntries(st, nick, ts)
      ensures forall k :: k in channels ==> StripTurn(channels[k], k, false, st.channels[k], nick, ts, users.Keys)
    {
      forall k | k in channels ensures StripTurn(channels[k], k, false, st.channels[k], nick, ts, users.Keys) {
        assert ChannelStands(channels[k], k, st.channels[k], users.Keys) && OwnEntry(st.channels[k], nick, ts);
      }
    }

    lemma StripEnds(view: map<string, M.ChannelV>, nick: string, ts: set<int>, live: set<User>)
      requires channels.Keys == view.Keys
      requires forall k :: k in channels ==> StripTurn(channels[k], k, true, view[k], nick, ts, live)
      requires forall u :: u in live && u.socket !in ts ==> u in users
      ensures ChannelsValid(M.Strip(view, nick))
    {
      forall k | k in channels ensures ChannelStands(channels[k], k, M.Strip(view, nick)[k], users.Keys) {
        assert StripTurn(channels[k], k, true, view[k], nick, ts, live);
      }
    }

    method EraseNode(nick: string) returns (ghost found: int)
      requires TableValid(st.users) && M.Taken(st, nick)
      modifies this`users, this`node
      ensures found in SocketsOf(st.users, nick) && TableValid(st.users - {found})
      ensures Among(users, old(users))
      ensures forall u :: u in old(users) && u.socket !in SocketsOf(st.users, nick) ==> u in users
    {
      var uit := Find(nick);
      found := uit.socket;
      RemovedStands(users, node, st.users, uit);
      users := users - {uit};
      node := node - {found};
    }

    // ---- Handlers that change the tables --------------------------------------

    static method IsCorrectNick(nick: string) returns (correct: bool)
      ensures correct <==> M.IsCorrectNick(nick)
    {
      if |nick| > M.NICKLEN || |nick| == 0 || !M.IsLetter(nick[0]) {
        return false;
      }
      for i := 1 to |nick|
        invariant forall j :: 1 <= j < i ==> M.IsNickChar(nick[j])
      {
        if !M.IsNickChar(nick[i]) {
          return false;
        }
      }
      return true;
    }

    method Nick(m: Msg, user: User) returns (current: User)
      requires Valid() && Inv(st) && user in users
      modifies this`users, this`node, this`operators, this`out, this`st, channels.Values
      ensures Valid() && st == M.Nick(old(st), user.socket, m)
      ensures current in users && current.socket == user.socket
      ensures (forall u :: u in users ==> u in old(users) || u == current) && (current == user || fresh(current))
    {
      current := user;
      if |m.params| == 0 {
        Send(user.socket, M.Numeric(431, []));
        return;
      }
      var correct := IsCorrectNick(m.params[0]);
      if !correct {
        Send(user.socket, M.Numeric(432, [m.params[0]]));
        return;
      }
      var holder := Find(m.params[0]);
      if holder != null {
        Send(user.socket, M.Numeric(433, [m.params[0]]));
        return;
      }
      InvOwnEntries(st, user.socket);
      RenameKeepsNames(st, user.socket, m.params[0]);
      current := TakeNick(m.params[0], user);
    }

    /** The main part of NICK. */
    method TakeNick(newNick: string, user: User) returns (current: User)
      requires Valid() && user in users && !M.Taken(st, newNick) && OwnEntries(st, st.users[user.socket].nick, {user.socket})
      requires NamesAreKeys(M.Rename(st, user.socket, newNick))
      modifies this`users, this`node, this`operators, this`out, this`st, channels.Values
      ensures Valid()
      ensures st == M.FlagNick(Noted(old(st), user.socket, newNick), user.socket)
      ensures current in users && current.socket == user.socket && fresh(current)
      ensures (forall u :: u in users ==> u in old(users) || u == current)
    {
      current := RenameAndTell(newNick, user);
      FlagNick(current);
    }

    method FlagNick(user: User)
      requires Valid() && user in users
      modifies user`nick, user`logged, this`out, this`st
      ensures Valid() && st == M.FlagNick(old(st), user.socket)
    {
      MarkNick(user);
      LogIn(user);
    }

    /** The rename, and the note to everybody it concerns. */
    method RenameAndTell(newNick: string, user: User) returns (current: User)
      requires Valid() && user in users && !M.Taken(st, newNick) && OwnEntries(st, st.users[user.socket].nick, {user.socket})
      requires NamesAreKeys(M.Rename(st, user.socket, newNick))
      modifies this`users, this`node, this`operators, this`out, this`st, channels.Values
      ensures Valid() && user.socket in old(st).users && st == Noted(old(st), user.socket, newNick)
      ensures current in users && current.socket == user.socket && fresh(current)
      ensures (forall u :: u in users ==> u in old(users) || u == current)
    {
      assert NodeStands(user, user.socket, users[user], st.users[user.socket]);
      var note := M.Line(M.NickLine(user.nickname, newNick));
      current := Rename(user, newNick);
      SendToJoinedChannels(newNick, note);
      Send(current.socket, note);
    }

    // ---- PRIVMSG, NOTICE, NAMES -----------------------------------------------

    /** The double loop that looks for a target given twice; |targets| if there is none. */
    static method FirstDuplicate(targets: seq<string>) returns (i: nat)
      ensures i == M.FirstRepeat(targets, 0)
    {
      i := 0;
      while i < |targets|
        invariant i <= |targets| && M.FirstRepeat(targets, 0) == M.FirstRepeat(targets, i)
      {
        var j := 0;
        while j < |targets|
          invariant j <= |targets| && forall k :: 0 <= k < j ==> k == i || targets[k] != targets[i]
        {
          if i != j && targets[i] == targets[j] {
            return;
          }
          j := j + 1;
        }
        i := i + 1;
      }
    }

    /** One target: false when it names neither a user nor a channel. */
    method Relay(prefix: string, target: string, text: string) returns (found: bool)
      requires Valid() && Inv(st) && target != ""
      modifies this`out, this`st
      ensures Valid() && (found <==> M.Taken(old(st), target) || target in old(st).channels)
      ensures var r := M.Line(M.RelayLine(prefix, target, text));
              st == if M.Taken(old(st), target) then M.Say(old(st), M.SockOf(old(st), target), r)
                    else M.SendToChannel(old(st), target, r, prefix)
    {
      var user := Find(target);
      var r := M.Line(M.RelayLine(prefix, target, text));
      if user != null {
        KeyIsNick(st, user.socket);
        SockIsUnique(st, user.socket);
        Send(user.socket, r);
        return true;
      }
      found := target in channels;
      SendToChannel(target, r, prefix);
    }

    method Privmsg(m: Msg, user: User)
      requires Valid() && Inv(st) && user in users && Shaped(m)
      modifies this`out, this`st
      ensures Valid() && st == M.Privmsg(old(st), user.socket, m)
    {
      if |m.params| == 0 {
        Send(user.socket, M.Numeric(411, []));
        return;
      }
      if |m.params| == 1 {
        Send(user.socket, M.Numeric(412, []));
        return;
      }
      var n := |m.params| - 1;
      var targets, text := m.params[..n], m.params[n];
      TargetsNonEmpty(m);
      var dup := FirstDuplicate(targets);
      if dup < n {
        var holder := Find(targets[dup]);
        if holder != null {
          KeyIsNick(st, holder.socket);
          SockIsUnique(st, holder.socket);
          Send(holder.socket, M.Numeric(407, [targets[dup]]));
        }
        return;
      }
      PrivmsgLoop(m.prefix, targets, text, user);
    }

    method PrivmsgLoop(prefix: string, targets: seq<string>, text: string, user: User)
      requires Valid() && Inv(st) && user in users && NonEmpty(targets)
      modifies this`out, this`st
      ensures Valid() && st == M.PrivmsgEach(old(st), user.socket, prefix, targets, text)
    {
      ghost var t := user.socket;
      for i := 0 to |targets|
        invariant Valid() && OnlySends(old(st), st)
        invariant M.PrivmsgEach(st, t, prefix, targets[i..], text) == M.PrivmsgEach(old(st), t, prefix, targets, text)
      {
        assert targets[i..][1..] == targets[i + 1..];
        var found := Relay(prefix, targets[i], text);
        if !found {
          Send(user.socket, M.Numeric(401, [targets[i]]));
          return;
        }
      }
    }

    method Notice(m: Msg)
      requires Valid() && Inv(st) && Shaped(m)
      modifies this`out, this`st
      ensures Valid() && st == M.Notice(old(st), m)
    {
      if |m.params| <= 1 {
        return;
      }
      var n := |m.params| - 1;
      TargetsNonEmpty(m);
      var dup := FirstDuplicate(m.params[..n]);
      if dup < n {
        return;
      }
      NoticeLoop(m.prefix, m.params[..n], m.params[n]);
    }

    method NoticeLoop(prefix: string, targets: seq<string>, text: string)
      requires Valid() && Inv(st) && NonEmpty(targets)
      modifies this`out, this`st
      ensures Valid() && st == M.NoticeEach(old(st), prefix, targets, text)
    {
      for i := 0 to |targets|
        invariant Valid() && OnlySends(old(st), st)
        invariant M.NoticeEach(st, prefix, targets[i..], text) == M.NoticeEach(old(st), prefix, targets, text)
      {
        assert targets[i..][1..] == targets[i + 1..];
        var found := Relay(prefix, targets[i], text);
        if !found {
          return;
        }
      }
    }

    method Names(m: Msg, user: User)
      requires Valid() && user in users && NamesAreKeys(st)
      requires forall i :: 0 <= i < |m.params| - 1 ==> M.IsChannelParam(m.params[i])
      modifies this`out, this`st
      ensures Valid() && st == M.Names(old(st), user.socket, m)
    {
      var ks := ChannelList(m.params);
      for i := 0 to |ks|
        invariant ValidAfter(old(st), M.NamesOfAll(old(st), user.socket, ks[..i]))
      {
        assert ks[..i + 1][..i] == ks[..i];
        NamesReply(ks[i], user, old(st), M.NamesOfAll(old(st), user.socket, ks[..i]));
      }
      WholeSlice(ks);
    }

    /** The first loop of NAMES: pushes each parameter and pops it again if it is no
        channel, looking at index i of a list that then has i entries. */
    static method ChannelList(params: seq<string>) returns (ks: seq<string>)
      requires forall i :: 0 <= i < |params| - 1 ==> M.IsChannelParam(params[i])
      ensures ks == M.Channels(params)
    {
      ks := [];
      for i := 0 to |params|
        invariant ks == M.Channels(params[..i]) && |ks| == i - (if i == |params| && i > 0 && !M.IsChannelParam(params[i - 1]) then 1 else 0)
      {
        assert params[..i + 1][..i] == params[..i];
        ks := ks + [params[i]];
        if !M.IsChannelParam(ks[i]) {
          ks := ks[..|ks| - 1];
        }
      }
      WholeSlice(params);
    }

    method NamesReply(k: string, user: User, ghost s: M.Srv, ghost ds: seq<M.Delivery>)
      requires ValidAfter(s, ds) && user in users && NamesAreKeys(s)
      modifies this`out, this`st
      ensures user.socket in s.users && ValidAfter(s, ds + M.NamesOf(s, user.socket, k))
    {
      assert NodeStands(user, user.socket, users[user], s.users[user.socket]);
      ListNames(k, user, s, ds);
      ghost var list, end := M.NamesList(s, user.socket, k), [M.Delivery(user.socket, M.Numeric(366, [user.nickname, k]))];
      Send(user.socket, M.Numeric(366, [user.nickname, k]));
      RegroupThree(s.out, ds + list, end);
      RegroupThree(ds, list, end);
    }

    /** The 353 reply, if there is such a channel. */
    method ListNames(k: string, user: User, ghost s: M.Srv, ghost ds: seq<M.Delivery>)
      requires ValidAfter(s, ds) && user in users && NamesAreKeys(s)
      modifies this`out, this`st
      ensures user.socket in s.users && ValidAfter(s, ds + M.NamesList(s, user.socket, k))
    {
      assert NodeStands(user, user.socket, users[user], s.users[user.socket]);
      assert ds + [] == ds;
      if k in channels {
        var body := NamesBody(k, s);
        RegroupThree(s.out, ds, M.NamesList(s, user.socket, k));
        Send(user.socket, M.Numeric(353, [user.nickname, k, body]));
      }
    }

    method NamesBody(k: string, ghost s: M.Srv) returns (buf: string)
      requires Valid() && st.users == s.users && st.channels == s.channels && NamesAreKeys(s) && k in channels
      ensures k in s.channels && buf == M.NamesBody(Sorted(s.channels[k].members.Keys), s.channels[k].chops)
    {
      var c := channels[k];
      assert ChannelStands(c, k, s.channels[k], users.Keys);
      var names := Sorted(c.users.Keys);
      buf := "";
      for i := 0 to |names|
        invariant buf == M.NamesBody(names[..i], c.chops)
      {
        assert names[i] in names;
        NamesBodyStep(names, i, c.chops);
        var mark := MarkOf(c, k, names[i], s);
        buf := buf + mark + " ";
      }
      WholeSlice(names);
    }

    method MarkOf(c: Channel, ghost k: string, n: string, ghost s: M.Srv) returns (mark: string)
      requires Valid() && st.users == s.users && st.channels == s.channels && NamesAreKeys(s)
      requires k in channels && channels[k] == c && n in c.users
      ensures mark == M.Mark(n, c.chops)
    {
      MemberNick(s, k, n);
      var nick := c.users[n].nickname;
      var isChop := c.HasChop(nick);
      mark := if isChop then "@" + nick else nick;
    }

    // ---- JOIN -----------------------------------------------------------------

    /** JOIN's first loop: false at the first bad byte, else the channels and the keys. */
    static method SplitParams(params: seq<string>) returns (ok: bool, ks: seq<string>, keys: seq<string>)
      ensures ok <==> forall i :: 0 <= i < |params| ==> M.IsCleanParam(params[i])
      ensures ok ==> ks == M.Channels(params) && keys == M.Keys(params)
    {
      ks, keys := [], [];
      for i := 0 to |params|
        invariant forall j :: 0 <= j < i ==> M.IsCleanParam(params[j])
        invariant ks == M.Channels(params[..i]) && keys == M.Keys(params[..i])
      {
        assert params[..i + 1][..i] == params[..i];
        for k := 0 to |params[i]|
          invariant forall j :: 0 <= j < k ==> !M.IsBadByte(params[i][j])
        {
          if M.IsBadByte(params[i][k]) {
            return false, ks, keys;
          }
        }
        if M.IsChannelParam(params[i]) {
          ks := ks + [params[i]];
        } else {
          keys := keys + [params[i]];
        }
      }
      WholeSlice(params);
      ok := true;
    }

    /** The loop that counts the channels a nick is in. */
    method CountJoined(nick: string) returns (count: nat)
      requires ChannelsValid(st.channels)
      ensures count == |M.JoinedBy(st.channels, nick)|
    {
      count := 0;
      ghost var seen := {};
      var rest := channels.Keys;
      while rest != {}
        invariant rest <= channels.Keys && count == |seen|
        invariant forall k :: k in seen <==> k in channels && k !in rest && nick in channels[k].users
        decreases |rest|
      {
        var chit := Least(rest);
        if nick in channels[chit].users {
          count := count + 1;
          seen := seen + {chit};
        }
        rest := rest - {chit};
      }
      assert seen == M.JoinedBy(st.channels, nick) by {
        forall k ensures k in seen <==> k in M.JoinedBy(st.channels, nick) {
          assert k in channels ==> ChannelStands(channels[k], k, st.channels[k], users.Keys);
        }
      }
    }

    /** The channel map once channel c, filed under k, has become v. */
    lemma ChannelUpdated(c: Channel, k: string, v: M.ChannelV)
      requires channels.Keys == st.channels.Keys && k in channels && channels[k] == c
      requires ChannelStands(c, k, v, users.Keys)
      requires forall k' :: k' in channels && channels[k'] != c ==> ChannelStands(channels[k'], k', st.channels[k'], users.Keys)
      requires forall k' :: k' in channels && channels[k'] == c ==> k' == k
      ensures ChannelsValid(st.channels[k := v])
    {
    }

    /** The user enters an existing channel. */
    method Enter(c: Channel, ghost k: string, user: User)
      requires Valid() && user in users && k in channels && channels[k] == c
      modifies this`st, c`users
      ensures Valid() && st == old(st).(channels := old(st).channels[k := M.AddUser(old(st).channels[k], user.nickname, user.socket)])
    {
      assert ChannelStands(c, k, st.channels[k], users.Keys);
      c.AddUser(user, st.channels[k]);
      ChannelUpdated(c, k, M.AddUser(st.channels[k], user.nickname, user.socket));
      Settle(st.(channels := st.channels[k := M.AddUser(st.channels[k], user.nickname, user.socket)]));
    }

    static method MakeChannel(k: string, key: Option<string>, user: User) returns (c: Channel)
      ensures fresh(c) && ChannelStands(c, k, M.NewChannel(k, key, user.nickname, user.socket), {user})
    {
      c := new Channel(k);
      c.AddUser(user, M.ChannelV(k, map[], [], ""));
      c.AddChop(user);
      if key.Some? {
        c.SetPass(key.value);
      }
    }

    /** The user creates a channel. */
    method Create(k: string, key: Option<string>, user: User) returns (c: Channel)
      requires Valid() && user in users && k !in channels
      modifies this`channels, this`st
      ensures Valid() && fresh(c) && channels == old(channels)[k := c] && channels.Values == old(channels).Values + {c}
      ensures st == old(st).(channels := old(st).channels[k := M.NewChannel(k, key, user.nickname, user.socket)])
    {
      c := MakeChannel(k, key, user);
      ghost var v := M.NewChannel(k, key, user.nickname, user.socket);
      assert ChannelStands(c, k, v, users.Keys);
      NewValue(channels, k, c);
      channels := channels[k := c];
      Settle(st.(channels := st.channels[k := v]));
    }

    /** One channel of JOIN; own is the channel objects so far. */
    method JoinOne(k: string, key: Option<string>, user: User, ghost own: set<Channel>)
      returns (goOn: bool, ghost own': set<Channel>)
      requires Valid() && user in users && channels.Values <= own
      modifies this`channels, this`out, this`st, own
      ensures Valid() && channels.Values <= own' && fresh(own' - own)
      ensures M.JoinOne(old(st), user.socket, k, key) == M.Joined(st, goOn)
    {
      assert NodeStands(user, user.socket, users[user], st.users[user.socket]);
      own' := own;
      var count := CountJoined(user.nickname);
      if k in channels {
        goOn := JoinExisting(channels[k], k, key, user, count);
      } else if count > M.LIMIT {
        Send(user.socket, M.Numeric(405, [user.nickname]));
        goOn := false;
      } else if user.nickname == "" {
        goOn := false;
      } else {
        own' := JoinNew(k, key, user, own);
        goOn := true;
      }
    }

    /** The user creates a channel and is told so. */
    method JoinNew(k: string, key: Option<string>, user: User, ghost own: set<Channel>) returns (ghost own': set<Channel>)
      requires Valid() && user in users && k !in channels && channels.Values <= own
      modifies this`channels, this`out, this`st
      ensures Valid() && channels.Values <= own' && fresh(own' - own)
      ensures var c := M.NewChannel(k, key, user.nickname, user.socket);
              st == M.Say(old(st).(channels := old(st).channels[k := c]), user.socket, M.Line(M.JoinLine(user.nickname, k)))
    {
      var c := Create(k, key, user);
      own' := own + {c};
      Send(user.socket, M.Line(M.JoinLine(user.nickname, k)));
    }

    method JoinExisting(c: Channel, k: string, key: Option<string>, user: User, count: nat) returns (goOn: bool)
      requires Valid() && user in users && k in channels && channels[k] == c && count == |M.JoinedBy(st.channels, user.nickname)|
      modifies this`out, this`st, c`users
      ensures Valid() && M.JoinOne(old(st), user.socket, k, key) == M.Joined(st, goOn)
    {
      assert NodeStands(user, user.socket, users[user], st.users[user.socket]);
      assert ChannelStands(c, k, st.channels[k], users.Keys);
      if c.pass != (match key case Some(p) => p case None => "") {
        Send(user.socket, M.Numeric(475, [user.nickname, k]));
        return false;
      }
      if user.nickname in c.users {
        return false;
      }
      if count > M.LIMIT {
        Send(user.socket, M.Numeric(405, [user.nickname, k]));
        return false;
      }
      Enter(c, k, user);
      SendToChannel(k, M.Line(M.JoinLine(user.nickname, k)), "");
      return true;
    }

    method JoinLoop(ks: seq<string>, keys: seq<string>, user: User, ghost own: set<Channel>)
      returns (goOn: bool, ghost own': set<Channel>)
      requires Valid() && user in users && channels.Values <= own
      modifies this`channels, this`out, this`st, own
      ensures Valid() && channels.Values <= own' && fresh(own' - own)
      ensures M.JoinFrom(old(st), user.socket, ks, keys, 0) == M.Joined(st, goOn)
    {
      own' := own;
      for i := 0 to |ks|
        invariant Valid() && channels.Values <= own' && fresh(own' - own)
        invariant M.JoinFrom(st, user.socket, ks, keys, i) == M.JoinFrom(old(st), user.socket, ks, keys, 0)
      {
        var key := if i < |keys| then Some(keys[i]) else None;
        goOn, own' := JoinOne(ks[i], key, user, own');
        if !goOn {
          return;
        }
      }
      goOn := true;
    }

    method Join(m: Msg, user: User, ghost own: set<Channel>) returns (ghost own': set<Channel>)
      requires Valid() && Inv(st) && user in users && user.logged && ColonFree(m.params) && channels.Values <= own
      modifies this`channels, this`out, this`st, own
      ensures Valid() && channels.Values <= own' && fresh(own' - own)
      ensures st == M.Join(old(st), user.socket, m)
    {
      own' := own;
      var ok, ks, keys := ReadJoin(m, user);
      if ok {
        own' := JoinAll(m, ks, keys, user, own);
      }
    }

    /** The channels, and their names. */
    method JoinAll(m: Msg, ks: seq<string>, keys: seq<string>, user: User, ghost own: set<Channel>)
      returns (ghost own': set<Channel>)
      requires Valid() && Inv(st) && user in users && user.logged && ColonFree(m.params) && channels.Values <= own
      requires JoinReads(m) && ks == M.Channels(m.params) && keys == M.Keys(m.params)
      modifies this`channels, this`out, this`st, own
      ensures Valid() && channels.Values <= own' && fresh(own' - own)
      ensures st == M.Join(old(st), user.socket, m)
    {
      assert NodeStands(user, user.socket, users[user], st.users[user.socket]);
      JoinIsRounds(st, user.socket, m);
      own' := JoinThenNames(ks, keys, user, own);
    }

    /** The tests JOIN makes of its parameters, which it splits on the way. */
    method ReadJoin(m: Msg, user: User) returns (ok: bool, ks: seq<string>, keys: seq<string>)
      requires Valid() && user in users
      modifies this`out, this`st
      ensures Valid() && (ok <==> JoinReads(m))
      ensures if ok then st == old(st) && ks == M.Channels(m.params) && keys == M.Keys(m.params)
              else st == M.Join(old(st), user.socket, m)
    {
      assert NodeStands(user, user.socket, users[user], st.users[user.socket]);
      ok, ks, keys := false, [], [];
      if |m.params| == 0 {
        Send(user.socket, M.Numeric(461, [user.nickname, "JOIN"]));
        return;
      }
      if !M.IsChannelParam(m.params[0]) {
        Send(user.socket, M.Numeric(400, [user.nickname, "JOIN"]));
        return;
      }
      ok, ks, keys := SplitParams(m.params);
      if !ok {
        Send(user.socket, M.Numeric(400, [user.nickname, "JOIN"]));
        return;
      }
      ok := |keys| <= |ks|;
    }

    /** The main part of JOIN. */
    method JoinThenNames(ks: seq<string>, keys: seq<string>, user: User, ghost own: set<Channel>)
      returns (ghost own': set<Channel>)
      requires channels.Values <= own
      requires Valid() && user in users && ks != [] && forall i :: 0 <= i < |ks| ==> IsChannelName(ks[i])
      requires var j := M.JoinFrom(st, user.socket, ks, keys, 0); user.socket in j.s.users && NamesAreKeys(j.s)
      modifies this`channels, this`out, this`st, own
      ensures Valid() && channels.Values <= own' && fresh(own' - own)
      ensures var j := M.JoinFrom(old(st), user.socket, ks, keys, 0);
              st == if j.goOn then M.NamesCommand(j.s, user.socket, Parse(M.NamesLine(ks), user.nickname)) else j.s
    {
      var goOn;
      goOn, own' := JoinLoop(ks, keys, user, own);
      if goOn {
        NamesAfterJoin(ks, user);
      }
    }

    /** The NAMES line JOIN builds, parsed and executed. */
    method NamesAfterJoin(ks: seq<string>, user: User)
      requires Valid() && user in users && NamesAreKeys(st)
      requires ks != [] && forall i :: 0 <= i < |ks| ==> IsChannelName(ks[i])
      modifies this`out, this`st
      ensures Valid() && st == M.NamesCommand(old(st), user.socket, Parse(M.NamesLine(ks), user.nickname))
    {
      NamesLineParses(ks, user.nickname);
      var namesMsg := BuildNamesLine(ks);
      var m := ParseMessage(namesMsg, user.nickname);
      if ToUpper(m.command) == "NAMES" {
        Names(m, user);
      }
    }

    static method BuildNamesLine(ks: seq<string>) returns (namesMsg: string)
      ensures namesMsg == M.NamesLine(ks)
    {
      namesMsg := "NAMES ";
      for i := 0 to |ks|
        invariant namesMsg == "NAMES " + M.CommaList(ks[..i])
      {
        CommaListStep(ks, i);
        namesMsg := namesMsg + ks[i] + ",";
      }
      WholeSlice(ks);
      namesMsg := namesMsg[..|namesMsg| - 1];
    }

    /** A Message is built, parses its line, and from then on is only read. */
    static method ParseMessage(line: string, nick: string) returns (m: Msg)
      requires Parsable(line)
      ensures m == Parse(line, nick)
    {
      var msg := new Message(line, nick);
      m := Msg(msg.prefix, msg.command, msg.parameters);
    }

    // ---- PART, KICK, OPER -----------------------------------------------------

    /** Takes a member out of a channel, and the channel out when that empties it. */
    method TakeOut(k: string, n: string)
      requires Valid() && k in channels
      modifies this`channels, this`st, channels.Values
      ensures Valid() && st == M.RemoveMember(old(st), k, n) && Within(channels, old(channels))
    {
      ghost var s := st;
      DropMember(channels[k], k, n);
      if channels[k].users == map[] {
        EraseDropped(s, k, n);
        EraseChannel(k);
      }
    }

    /** An empty channel leaves the map. */
    method EraseChannel(k: string)
      requires Valid() && k in channels
      modifies this`channels, this`st
      ensures Valid() && st == old(st).(channels := old(st).channels - {k}) && Within(channels, old(channels))
    {
      Erase(k, st.channels);
      Settle(st.(channels := st.channels - {k}));
    }

    /** An emptied channel is erased as if it had never been updated. */
    lemma EraseDropped(s: M.Srv, k: string, n: string)
      requires k in s.channels
      ensures s.channels[k := M.RemoveUser(s.channels[k], n)] - {k} == s.channels - {k}
    {
    }

    method DropMember(c: Channel, ghost k: string, n: string)
      requires Valid() && k in channels && channels[k] == c
      modifies this`st, c`users
      ensures Valid() && st == old(st).(channels := old(st).channels[k := M.RemoveUser(old(st).channels[k], n)])
      ensures c.users == map[] <==> st.channels[k].members == map[]
    {
      assert ChannelStands(c, k, st.channels[k], users.Keys);
      var removed := c.RemoveUser(n, st.channels[k]);
      ChannelUpdated(c, k, M.RemoveUser(st.channels[k], n));
      Settle(st.(channels := st.channels[k := M.RemoveUser(st.channels[k], n)]));
    }

    method PartOne(k: string, user: User)
      requires Valid() && user in users
      modifies this`channels, this`out, this`st, channels.Values
      ensures Valid() && st == M.PartOne(old(st), user.socket, user.nickname, k) && Within(channels, old(channels))
    {
      if k !in channels {
        Send(user.socket, M.Numeric(403, [user.nickname, k]));
        return;
      }
      assert ChannelStands(channels[k], k, st.channels[k], users.Keys);
      if user.nickname !in channels[k].users {
        Send(user.socket, M.Numeric(442, [user.nickname, k]));
        return;
      }
      TakeLeave(k, user.nickname);
    }

    /** PART of one channel once its guards have passed. */
    method TakeLeave(k: string, nick: string)
      requires Valid() && k in channels
      modifies this`channels, this`out, this`st, channels.Values
      ensures Valid() && Within(channels, old(channels))
      ensures st == M.RemoveMember(M.SendToChannel(old(st), k, M.Line(M.PartLine(nick, k)), ""), k, nick)
    {
      SendToChannel(k, M.Line(M.PartLine(nick, k)), "");
      TakeOut(k, nick);
    }

    /** PART's first loop: refuses the parameters that are no channels. */
    method SortOut(params: seq<string>, user: User) returns (ks: seq<string>)
      requires Valid() && user in users
      modifies this`out, this`st
      ensures ValidAfter(old(st), M.Refuse(user.socket, user.nickname, M.Keys(params))) && ks == M.Channels(params)
    {
      ks := [];
      for i := 0 to |params|
        invariant ValidAfter(old(st), M.Refuse(user.socket, user.nickname, M.Keys(params[..i])))
        invariant ks == M.Channels(params[..i])
      {
        assert params[..i + 1][..i] == params[..i];
        if M.IsChannelParam(params[i]) {
          ks := ks + [params[i]];
          assert M.Keys(params[..i]) + [] == M.Keys(params[..i]);
        } else {
          RefuseStep(old(st).out, user.socket, user.nickname, M.Keys(params[..i]), params[i]);
          Send(user.socket, M.Numeric(400, [user.nickname, "PART"]));
        }
      }
      WholeSlice(params);
    }

    method PartLoop(ks: seq<string>, user: User)
      requires Valid() && user in users
      modifies this`channels, this`out, this`st, channels.Values
      ensures Valid() && st == M.PartEach(old(st), user.socket, user.nickname, ks) && Within(channels, old(channels))
    {
      ghost var s, at, t, nick := st, channels, user.socket, user.nickname;
      for i := 0 to |ks|
        invariant Valid() && Within(channels, at)
        invariant st == M.PartEach(s, t, nick, ks[..i])
      {
        WithinValues(channels, at);
        PartNext(ks, i, user, s, t, nick);
      }
      WholeSlice(ks);
    }

    /** One round of PART's second loop, which began in state s. */
    method PartNext(ks: seq<string>, i: nat, user: User, ghost s: M.Srv, ghost t: int, ghost nick: string)
      requires Valid() && user in users && i < |ks| && t == user.socket && nick == user.nickname
      requires st == M.PartEach(s, t, nick, ks[..i])
      modifies this`channels, this`out, this`st, channels.Values
      ensures Valid() && Within(channels, old(channels)) && st == M.PartEach(s, t, nick, ks[..i + 1])
    {
      ghost var before := st;
      PartOne(ks[i], user);
      PartEachStep(s, t, nick, ks, i, before, st);
    }

    method Part(m: Msg, user: User)
      requires Valid() && user in users
      modifies this`channels, this`out, this`st, channels.Values
      ensures Valid() && st == M.Part(old(st), user.socket, m) && Within(channels, old(channels))
    {
      assert NodeStands(user, user.socket, users[user], st.users[user.socket]);
      if |m.params| == 0 {
        Send(user.socket, M.Numeric(461, [user.nickname, "PART"]));
        return;
      }
      PartFrom(m.params, user);
    }

    /** PART's two loops. */
    method PartFrom(params: seq<string>, user: User)
      requires Valid() && user in users
      modifies this`channels, this`out, this`st, channels.Values
      ensures Valid() && Within(channels, old(channels))
      ensures var s := old(st).(out := old(st).out + M.Refuse(user.socket, user.nickname, M.Keys(params)));
              st == M.PartEach(s, user.socket, user.nickname, M.Channels(params))
    {
      var ks := SortOut(params, user);
      PartLoop(ks, user);
    }

    method Kick(m: Msg, user: User)
      requires Valid() && user in users
      modifies this`channels, this`out, this`st, channels.Values
      ensures Valid() && st == M.Kick(old(st), user.socket, m) && Within(channels, old(channels))
    {
      assert NodeStands(user, user.socket, users[user], st.users[user.socket]);
      if |m.params| < 2 {
        Send(user.socket, M.Numeric(461, ["KILL"]));
        return;
      }
      var k, n := m.params[0], m.params[1];
      if k !in channels {
        Send(user.socket, M.Numeric(403, [user.nickname, k]));
        return;
      }
      assert ChannelStands(channels[k], k, st.channels[k], users.Keys);
      if user.nickname !in channels[k].users {
        Send(user.socket, M.Numeric(442, [k]));
        return;
      }
      var isChop := channels[k].HasChop(user.nickname);
      if !isChop {
        Send(user.socket, M.Numeric(482, [user.nickname, k]));
        return;
      }
      if n !in channels[k].users {
        Send(user.socket, M.Numeric(441, [n, k]));
        return;
      }
      KickOut(k, n, M.Line(M.KickLine(user.nickname, k, n)));
    }

    method KickOut(k: string, n: string, note: M.Reply)
      requires Valid() && k in channels && n in channels[k].users
      modifies this`channels, this`out, this`st, channels.Values
      ensures Valid() && n in old(st).channels[k].members && Within(channels, old(channels))
      ensures st == M.SendToChannel(M.RemoveMember(M.Say(old(st), old(st).channels[k].members[n], note), k, n), k, note, n)
    {
      assert ChannelStands(channels[k], k, st.channels[k], users.Keys);
      SendToMember(channels[k], n, note, k);
      TakeOut(k, n);
      SendToChannel(k, note, n);
    }

    method Oper(m: Msg, user: User)
      requires Valid() && user in users
      modifies this`operators, this`out, this`st
      ensures Valid() && st == M.Oper(old(st), user.socket, m)
    {
      assert NodeStands(user, user.socket, users[user], st.users[user.socket]);
      if |m.params| < 2 {
        Send(user.socket, M.Numeric(461, [user.nickname, "OPER"]));
      } else if m.params[0] != user.nickname {
        Send(user.socket, M.Numeric(491, [user.nickname]));
      } else if m.params[1] != password {
        Send(user.socket, M.Numeric(464, [user.nickname]));
      } else {
        operators := operators + {user.nickname};
        st := st.(operators := st.operators + {user.nickname});
        Send(user.socket, M.Numeric(381, [user.nickname]));
      }
    }

    // ---- QUIT and KILL --------------------------------------------------------

    /** The loop of QUIT over the channels the user is in. */
    method SendQuit(nick: string, r: M.Reply)
      requires Valid()
      modifies this`out, this`st
      ensures ValidAfter(old(st), M.QuitNotes(old(st).channels, Sorted(old(st).channels.Keys), nick, r))
    {
      var ks := Sorted(channels.Keys);
      ghost var s := st;
      for i := 0 to |ks|
        invariant ValidAfter(s, M.QuitNotes(s.channels, ks[..i], nick, r))
      {
        SendQuitTo(ks, i, nick, r, s);
      }
      WholeSlice(ks);
    }

    method SendQuitTo(ks: seq<string>, i: nat, nick: string, r: M.Reply, ghost s: M.Srv)
      requires i < |ks| && ks == Sorted(channels.Keys) && ValidAfter(s, M.QuitNotes(s.channels, ks[..i], nick, r))
      modifies this`out, this`st
      ensures ValidAfter(s, M.QuitNotes(s.channels, ks[..i + 1], nick, r))
    {
      assert ks[i] in ks;
      assert ChannelStands(channels[ks[i]], ks[i], s.channels[ks[i]], users.Keys);
      QuitStep(s, ks, i, nick, r);
      if nick in channels[ks[i]].users {
        SendToChannel(ks[i], r, nick);
      }
    }

    method QuitFinding(params: seq<string>, user: User) returns (ghost found: int)
      requires Valid() && user in users
      requires var nick := st.users[user.socket].nick; M.Taken(st, nick) && OwnEntries(st, nick, SocketsOf(st.users, nick))
      modifies this`users, this`node, this`channels, this`out, this`st, channels.Values
      ensures Valid() && user.socket in old(st).users
      ensures found in SocketsOf(old(st).users, old(st).users[user.socket].nick)
      ensures st == M.QuitFinding(old(st), user.socket, params, {found})
      ensures Among(users, old(users)) && Within(channels, old(channels))
    {
      assert NodeStands(user, user.socket, users[user], st.users[user.socket]);
      TellQuit(params, user);
      found := RemoveUser(user.nickname);
    }

    method TellQuit(params: seq<string>, user: User)
      requires Valid() && user in users
      modifies this`out, this`st
      ensures Valid() && user.socket in old(st).users
      ensures var s, nick := old(st), user.nickname;
              var notes := M.QuitNotes(s.channels, Sorted(s.channels.Keys), nick, M.Line(M.QuitLine(nick, params)));
              st == M.Say(s.(out := s.out + notes), user.socket, M.Line("ERROR :Closing Link"))
    {
      assert NodeStands(user, user.socket, users[user], st.users[user.socket]);
      SendQuit(user.nickname, M.Line(M.QuitLine(user.nickname, params)));
      Send(user.socket, M.Line("ERROR :Closing Link"));
    }

    /** QUIT of a user that is the only one of its nickname. */
    method Quit(params: seq<string>, user: User)
      requires Valid() && user in users && OnlyKey(st, st.users[user.socket].nick, user.socket)
      requires OwnEntries(st, st.users[user.socket].nick, {user.socket})
      modifies this`users, this`node, this`channels, this`out, this`st, channels.Values
      ensures Valid() && st == M.Quit(old(st), user.socket, params)
      ensures Among(users, old(users)) && Within(channels, old(channels))
    {
      QuitFindsIt(st, user.socket, params);
      ghost var found := QuitFinding(params, user);
    }

    method Kill(m: Msg, user: User)
      requires Valid() && user in users && (|m.params| >= 2 ==> AllVictims(st, m.params[0]))
      modifies this`users, this`node, this`channels, this`out, this`st, channels.Values
      ensures Valid() && st == M.Kill(old(st), user.socket, m)
      ensures Among(users, old(users)) && Within(channels, old(channels))
    {
      assert NodeStands(user, user.socket, users[user], st.users[user.socket]);
      if |m.params| < 2 {
        Send(user.socket, M.Numeric(461, ["KILL"]));
        return;
      }
      if user.nickname !in operators {
        Send(user.socket, M.Numeric(481, [user.nickname]));
        return;
      }
      KillNamed(m, user);
    }

    /** KILL of an operator. */
    method KillNamed(m: Msg, user: User)
      requires Valid() && user in users && |m.params| >= 2
      requires st.users[user.socket].nick in st.operators && AllVictims(st, m.params[0])
      modifies this`users, this`node, this`channels, this`out, this`st, channels.Values
      ensures Valid() && st == M.Kill(old(st), user.socket, m)
      ensures Among(users, old(users)) && Within(channels, old(channels))
    {
      var victim := Find(m.params[0]);
      if victim == null {
        Send(user.socket, M.Numeric(401, [m.params[0]]));
        return;
      }
      KillIsOfVictim(st, user.socket, m, victim.socket);
      KillUser(m, user, victim);
    }

    /** KILL once its guards have passed: the QUIT line built, parsed and executed. */
    method KillUser(m: Msg, user: User, victim: User)
      requires Valid() && user in users && victim in users && |m.params| >= 2
      requires Victim(st, m.params[0], victim.socket)
      modifies this`users, this`node, this`channels, this`out, this`st, channels.Values
      ensures Valid() && st == M.KillVictim(old(st), user.socket, m, victim.socket)
      ensures Among(users, old(users)) && Within(channels, old(channels))
    {
      assert NodeStands(user, user.socket, users[user], st.users[user.socket]);
      var note := M.Line(":" + user.nickname + " KILL " + m.params[0] + " :" + m.params[1]);
      var quit := ParseMessage(M.KillLine(user.nickname, m.params[1]), hostname);
      Send(user.socket, note);
      if ToUpper(quit.command) == "QUIT" {
        Quit(quit.params, victim);
      }
    }

    // ---- Events ---------------------------------------------------------------

    /** Beyond the objects they held, the tables hold only new ones. */
    twostate predicate OnlyNew()
      reads this
    {
      && (forall u :: u in users ==> u in old(users) || fresh(u))
      && (forall k :: k in channels ==> channels[k] in old(channels).Values || fresh(channels[k]))
    }

    /** `_accept`: a connection on a socket no user has. */
    method Accept(newFd: int)
      requires Valid() && Inv(st) && newFd !in st.users
      modifies this`users, this`node, this`st
      ensures Valid() && Inv(st) && st == M.Step(old(st), M.Connect(newFd))
      ensures OnlyNew()
    {
      StepKeepsInv(st, M.Connect(newFd));
      AddFresh(newFd);
    }

    /** `_addUser` of a user just constructed. */
    method AddFresh(newFd: int)
      requires Valid() && newFd !in st.users
      modifies this`users, this`node, this`st
      ensures Valid() && st == old(st).(users := old(st).users[newFd := M.Fresh()])
      ensures forall u :: u in users ==> u in old(users) || fresh(u)
    {
      var newUser := new User(newFd);
      Insert(newUser);
    }

    method Insert(newUser: User)
      requires Valid() && newUser !in users && newUser.socket !in st.users && newUser.View("") == M.Fresh()
      modifies this`users, this`node, this`st
      ensures Valid() && st == old(st).(users := old(st).users[newUser.socket := M.Fresh()])
      ensures users == old(users)[newUser := ""]
    {
      AddedStands(users, node, st.users, newUser);
      users := users[newUser := ""];
      node := node[newUser.socket := newUser];
      Settle(st.(users := st.users[newUser.socket := M.Fresh()]));
    }

    /** `_recv` has thrown: the user quits, and found is the node this takes out. `_execute`,
        called next, finds no such user, or a user without a nickname whose node stayed. */
    method Disconnect(sockfd: int) returns (ghost found: int)
      requires Valid() && Inv(st) && sockfd in st.users
      modifies this`users, this`node, this`channels, this`out, this`st, channels.Values
      ensures Valid() && Inv(st)
      ensures M.Enabled(old(st), M.Hangup(sockfd, found)) && st == M.Step(old(st), M.Hangup(sockfd, found))
      ensures Among(users, old(users)) && Within(channels, old(channels))
    {
      ghost var s := st;
      InvOwnNick(st, sockfd);
      found := QuitHungUp(sockfd);
      StepKeepsInv(s, M.Hangup(sockfd, found));
    }

    /** QUIT of a connection that was lost, its line built and parsed. */
    method QuitHungUp(sockfd: int) returns (ghost found: int)
      requires Valid() && sockfd in st.users
      requires var nick := st.users[sockfd].nick; M.Taken(st, nick) && OwnEntries(st, nick, SocketsOf(st.users, nick))
      modifies this`users, this`node, this`channels, this`out, this`st, channels.Values
      ensures Valid() && found in SocketsOf(old(st).users, old(st).users[sockfd].nick)
      ensures st == M.QuitFinding(old(st), sockfd, [M.HANGUP_TEXT], {found})
      ensures Among(users, old(users)) && Within(channels, old(channels))
    {
      var user := GetUser(sockfd);
      ParseUnprefixed("QUIT", M.HANGUP_TEXT, user.nickname);
      var m := ParseMessage("QUIT" + " " + ":" + M.HANGUP_TEXT, user.nickname);
      found := QuitFinding(m.params, user);
    }

    /** QUIT and KILL of a logged-in user, tried first; true when the user is gone. */
    method ExecuteLeaving(m: Msg, user: User) returns (gone: bool)
      requires Valid() && Inv(st) && user in users && Shaped(m) && M.Defined(st, user.socket, m)
      requires ToUpper(m.command) == "QUIT" || ToUpper(m.command) == "KILL"
      modifies this`users, this`node, this`channels, this`out, this`st, channels.Values
      ensures Valid() && st == M.Dispatch(old(st), user.socket, m)
      ensures OnlyNew() && (!gone ==> user in users)
    {
      ghost var at := channels;
      assert NodeStands(user, user.socket, users[user], st.users[user.socket]);
      gone := false;
      if user.password && user.logged {
        if ToUpper(m.command) == "QUIT" {
          InvLeaves(st, user.socket);
          Quit(m.params, user);
          WithinValues(channels, at);
          return true;
        }
        KillSparesKiller(st, user.socket, m);
        VictimsAreNamed(st, m);
        Kill(m, user);
        WithinValues(channels, at);
        StillThere(user, old(users));
      }
    }

    lemma StillThere(user: User, before: map<User, string>)
      requires Valid() && user.socket in st.users && Among(users, before)
      requires forall u :: u in before && u.socket == user.socket ==> u == user
      ensures user in users
    {
      assert node[user.socket] in users;
    }

    /** The registration commands. */
    method ExecuteRegistration(m: Msg, user: User) returns (current: User)
      requires Valid() && Inv(st) && user in users
      requires ToUpper(m.command) == "PASS" || ToUpper(m.command) == "NICK" || ToUpper(m.command) == "USER"
      modifies this`users, this`node, this`operators, this`out, this`st, channels.Values
      modifies user`password, user`user, user`logged
      ensures Valid() && st == M.Dispatch(old(st), user.socket, m)
      ensures current in users && current.socket == user.socket
      ensures OnlyNew()
    {
      assert NodeStands(user, user.socket, users[user], st.users[user.socket]);
      current := user;
      if ToUpper(m.command) == "PASS" {
        Pass(m, user);
      } else if user.password {
        current := Register(m, user);
      }
    }

    method Register(m: Msg, user: User) returns (current: User)
      requires Valid() && Inv(st) && user in users
      modifies this`users, this`node, this`operators, this`out, this`st, channels.Values
      modifies user`user, user`logged
      ensures Valid() && current in users && current.socket == user.socket
      ensures forall u :: u in users ==> u in old(users) || fresh(u)
      ensures st == if ToUpper(m.command) == "NICK" then M.Nick(old(st), user.socket, m) else M.User(old(st), user.socket, m)
    {
      assert NodeStands(user, user.socket, users[user], st.users[user.socket]);
      current := user;
      if ToUpper(m.command) == "NICK" {
        current := Nick(m, user);
      } else {
        UserCommand(m, user);
      }
    }

    /** The commands of a logged-in user that stays. */
    method ExecutePresent(m: Msg, user: User)
      requires Valid() && Inv(st) && user in users && Shaped(m) && M.Defined(st, user.socket, m)
      requires ToUpper(m.command) !in {"PASS", "NICK", "USER", "QUIT", "KILL"}
      modifies this`channels, this`operators, this`out, this`st, channels.Values
      ensures Valid() && st == M.Dispatch(old(st), user.socket, m) && OnlyNew()
    {
      assert NodeStands(user, user.socket, users[user], st.users[user.socket]);
      if user.password && user.logged {
        var command := ToUpper(m.command);
        if command == "PRIVMSG" {
          Privmsg(m, user);
        } else if command == "NOTICE" {
          Notice(m);
        } else if command == "OPER" {
          Oper(m, user);
        } else if command == "NAMES" {
          InvNamesAreKeys(st);
          Names(m, user);
        } else {
          ExecuteChannel(m, user);
        }
      }
    }

    method ExecuteChannel(m: Msg, user: User)
      requires Valid() && Inv(st) && user in users && Shaped(m) && user.logged
      modifies this`channels, this`out, this`st, channels.Values
      ensures Valid() && OnlyNew()
      ensures st == if ToUpper(m.command) == "JOIN" then M.Join(old(st), user.socket, m)
                    else if ToUpper(m.command) == "PART" then M.Part(old(st), user.socket, m)
                    else if ToUpper(m.command) == "KICK" then M.Kick(old(st), user.socket, m)
                    else old(st)
    {
      var command := ToUpper(m.command);
      if command == "JOIN" {
        JoinAlone(m, user);
      } else if command == "PART" || command == "KICK" {
        ghost var at := channels;
        PartOrKick(m, user, command);
        WithinValues(channels, at);
      }
    }

    method JoinAlone(m: Msg, user: User)
      requires Valid() && Inv(st) && user in users && user.logged && ColonFree(m.params)
      modifies this`channels, this`out, this`st, channels.Values
      ensures Valid() && OnlyNew() && st == M.Join(old(st), user.socket, m)
    {
      ghost var own := Join(m, user, channels.Values);
    }

    method PartOrKick(m: Msg, user: User, command: string)
      requires Valid() && user in users
      modifies this`channels, this`out, this`st, channels.Values
      ensures Valid() && Within(channels, old(channels))
      ensures st == if command == "PART" then M.Part(old(st), user.socket, m) else M.Kick(old(st), user.socket, m)
    {
      if command == "PART" {
        Part(m, user);
      } else {
        Kick(m, user);
      }
    }

    /** `_execute`: one line from a socket. At most one handler recognizes the command, so
        trying them in the source's order is choosing that one. */
    method Execute(sockfd: int, line: string)
      requires Valid() && Inv(st) && M.Enabled(st, M.Input(sockfd, line))
      modifies this, users.Keys, channels.Values
      ensures Valid() && Inv(st) && st == M.Step(old(st), M.Input(sockfd, line))
      ensures OnlyNew()
    {
      StepKeepsInv(st, M.Input(sockfd, line));
      InputIsDispatch(st, sockfd, line);
      var user := GetUser(sockfd);
      ExecuteLine(line, user);
    }

    /** The line parsed and, once the user is let in, executed. */
    method ExecuteLine(line: string, user: User)
      requires Valid() && user in users && Parsable(line)
      requires var s := M.Admit(st, user.socket);
               Inv(s) && Shaped(M.MessageOf(st, user.socket, line)) && M.Defined(s, user.socket, M.MessageOf(st, user.socket, line))
      modifies this, users.Keys, channels.Values
      ensures Valid()
      ensures st == M.Dispatch(M.Admit(old(st), user.socket), user.socket, M.MessageOf(old(st), user.socket, line))
      ensures OnlyNew()
    {
      assert NodeStands(user, user.socket, users[user], st.users[user.socket]);
      var m := ParseMessage(line, user.nickname);
      Admit(user);
      ExecuteMessage(m, user);
    }

    /** An empty server password lets everyone in. */
    method Admit(user: User)
      requires Valid() && user in users
      modifies user`password, this`st
      ensures Valid() && st == M.Admit(old(st), user.socket)
    {
      if user.password {
        AdmitTwice(st, user);
      } else if password == "" {
        MarkPassword(user);
      }
    }

    lemma AdmitTwice(s: M.Srv, user: User)
      requires TableValid(s.users) && user in users && user.password
      ensures M.Admit(s, user.socket) == s
    {
      assert NodeStands(user, user.socket, users[user], s.users[user.socket]);
      assert s.users[user.socket := s.users[user.socket]] == s.users;
    }

    /** The handlers, by command. */
    method ExecuteMessage(m: Msg, user: User)
      requires Valid() && Inv(st) && user in users && Shaped(m) && M.Defined(st, user.socket, m)
      modifies this, users.Keys, channels.Values
      ensures Valid() && st == M.Dispatch(old(st), user.socket, m)
      ensures OnlyNew()
    {
      var command := ToUpper(m.command);
      if command == "QUIT" || command == "KILL" {
        var gone := ExecuteLeaving(m, user);
      } else if command == "PASS" || command == "NICK" || command == "USER" {
        var current := ExecuteRegistration(m, user);
      } else {
        ExecutePresent(m, user);
      }
    }

    // ---- The server loop ------------------------------------------------------

    /** One round of `start`: an accept, a line or a lost connection; e is the event it was,
        x itself but for the node found when a connection is lost. */
    method Handle(x: M.Event) returns (ghost e: M.Event)
      requires Valid() && Inv(st) && Ready(st, x)
      modifies this, users.Keys, channels.Values
      ensures Valid() && Inv(st) && SameEvent(x, e) && M.Enabled(old(st), e) && st == M.Step(old(st), e)
      ensures OnlyNew()
    {
      e := x;
      match x
      case Connect(newFd) => Accept(newFd);
      case Input(sockfd, line) => Execute(sockfd, line);
      case Hangup(sockfd, _) =>
        ghost var at := channels;
        ghost var found := Disconnect(sockfd);
        e := M.Hangup(sockfd, found);
        WithinValues(channels, at);
    }

    /** The loop of `start`, from the first connection on: what it does to the objects is a
        run of the state machine. */
    method Serve(xs: seq<M.Event>) returns (ghost states: seq<M.Srv>, ghost events: seq<M.Event>)
      requires Valid() && Inv(st) && M.IsInitial(st) && Playable(st, xs)
      modifies this, users.Keys, channels.Values
      ensures Valid() && Inv(st) && |events| == |xs| && M.IsRun(states, events) && st == states[|events|]
      ensures forall i :: 0 <= i < |xs| ==> SameEvent(xs[i], events[i])
    {
      states, events := [st], [];
      ghost var us: set<User>, cs: set<Channel>, us0, cs0 := {}, {}, users.Keys, channels.Values;
      assert xs[0..] == xs;
      for i := 0 to |xs|
        invariant Valid() && Running(st, xs, i, states, events)
        invariant fresh(us) && users.Keys <= us0 + us && fresh(cs) && channels.Values <= cs0 + cs
      {
        ghost var us', cs' := users.Keys, channels.Values;
        states, events := Round(xs, i, states, events);
        us, cs := us + (users.Keys - us'), cs + (channels.Values - cs');
      }
      RunKeepsInv(states, events, |xs|);
    }

    /** Round i of the loop, which extends the run. */
    method Round(xs: seq<M.Event>, i: nat, ghost states: seq<M.Srv>, ghost events: seq<M.Event>)
      returns (ghost states': seq<M.Srv>, ghost events': seq<M.Event>)
      requires Valid() && i < |xs| && Running(st, xs, i, states, events)
      modifies this, users.Keys, channels.Values
      ensures Valid() && Running(st, xs, i + 1, states', events')
      ensures OnlyNew()
    {
      ghost var s := st;
      RunKeepsInv(states, events, i);
      PlayableHead(s, xs, i);
      ghost var e := Handle(xs[i]);
      states', events' := states + [st], events + [e];
      RunningOn(s, xs, i, states, events, e, st);
    }

    /** Invariant and objects together: every member entry of every channel is a reference to
        a live, logged-in node of the table whose nickname is the entry's key. */
    lemma MembersAreLive()
      requires Valid() && Inv(st)
      ensures forall u :: u in users ==> users[u] == u.nickname
      ensures forall u, v :: u in users && v in users && u.nickname == v.nickname != "" ==> u == v
      ensures forall k :: k in channels ==> channels[k].name == k && |channels[k].users| <= M.LIMIT + 1 && |channels[k].chops| == 1
      ensures forall k, n :: k in channels && n in channels[k].users ==>
                var u := channels[k].users[n]; u in users && u.nickname == n && u.logged
    {
      forall u | u in users ensures UserOk(st.users[u.socket]) && NodeStands(u, u.socket, users[u], st.users[u.socket]) {}
      forall k | k in channels
        ensures ChannelOk(k, st.channels[k], st.users) && ChannelStands(channels[k], k, st.channels[k], users.Keys)
        ensures |channels[k].users.Keys| == |st.channels[k].members.Keys|
      {}
    }
  }

  predicate SameEvent(x: M.Event, e: M.Event) {
    if x.Hangup? then e.Hangup? && e.sock == x.sock else e == x
  }

  /** The C++ is defined on x, whichever node is found when a connection is lost. */
  ghost predicate Ready(s: M.Srv, x: M.Event) {
    if x.Hangup? then x.sock in s.users else M.Enabled(s, x)
  }

  ghost predicate Playable(s: M.Srv, xs: seq<M.Event>)
    decreases |xs|
  {
    xs == [] ||
    (Ready(s, xs[0]) && forall e :: SameEvent(xs[0], e) && M.Enabled(s, e) ==> Playable(M.Step(s, e), xs[1..]))
  }

  lemma PlayableHead(s: M.Srv, xs: seq<M.Event>, i: nat)
    requires i < |xs| && Playable(s, xs[i..])
    ensures Ready(s, xs[i])
  {
  }

  lemma PlayableNext(s: M.Srv, xs: seq<M.Event>, i: nat, e: M.Event, s': M.Srv)
    requires i < |xs| && Playable(s, xs[i..]) && SameEvent(xs[i], e) && M.Enabled(s, e) && s' == M.Step(s, e)
    ensures Playable(s', xs[i + 1..])
  {
    assert xs[i..][0] == xs[i] && xs[i..][1..] == xs[i + 1..];
  }

  /** The server loop before round i: the run so far ends in s. */
  ghost predicate Running(s: M.Srv, xs: seq<M.Event>, i: nat, states: seq<M.Srv>, events: seq<M.Event>) {
    && i <= |xs| && Playable(s, xs[i..])
    && M.IsRun(states, events) && |events| == i && s == states[i]
    && forall j :: 0 <= j < i ==> SameEvent(xs[j], events[j])
  }

  lemma RunningOn(s: M.Srv, xs: seq<M.Event>, i: nat, states: seq<M.Srv>, events: seq<M.Event>, e: M.Event, s': M.Srv)
    requires i < |xs| && Running(s, xs, i, states, events)
    requires SameEvent(xs[i], e) && M.Enabled(s, e) && s' == M.Step(s, e)
    ensures Running(s', xs, i + 1, states + [s'], events + [e])
  {
    PlayableNext(s, xs, i, e, s');
    RunAppends(states, events, e, s');
  }

  lemma RunAppends(states: seq<M.Srv>, events: seq<M.Event>, e: M.Event, s': M.Srv)
    requires M.IsRun(states, events) && M.Enabled(states[|events|], e) && s' == M.Step(states[|events|], e)
    ensures M.IsRun(states + [s'], events + [e])
  {
    var n, states', events' := |events|, states + [s'], events + [e];
    StepIsAt(states', events', n, states[n], e, s');
    forall i | 0 <= i < n ensures M.StepAt(states', events', i) {
      assert M.StepAt(states, events, i);
      StepIsAt(states', events', i, states[i], events[i], states[i + 1]);
    }
  }

  lemma StepIsAt(states: seq<M.Srv>, events: seq<M.Event>, i: nat, a: M.Srv, e: M.Event, b: M.Srv)
    requires |states| == |events| + 1 && i < |events| && states[i] == a && events[i] == e && states[i + 1] == b
    requires M.Enabled(a, e) && b == M.Step(a, e)
    ensures M.StepAt(states, events, i)
  {
  }

  /** The member entries of v that lead to one of ts are filed under nick, and none is
      filed under the empty one. */
  predicate OwnEntry(v: M.ChannelV, nick: string, ts: set<int>) {
    "" !in v.members && forall n :: n in v.members && n != nick ==> v.members[n] !in ts
  }

  predicate OwnEntries(s: M.Srv, nick: string, ts: set<int>) {
    forall k :: k in s.channels ==> OwnEntry(s.channels[k], nick, ts)
  }

  /** Channel c, filed under k, before or after nick, the nickname of the sockets ts, has
      been taken out of it. */
  ghost predicate StripTurn(c: Channel, k: string, done: bool, v: M.ChannelV, nick: string, ts: set<int>, live: set<User>)
    reads c
  {
    c.name == k && OwnEntry(v, nick, ts) &&
    if done then c.Shows(M.RemoveUser(v, nick)) && c.PointsInto(set u | u in live && u.socket !in ts)
    else c.Shows(v) && c.PointsInto(live)
  }

  method StripAt(c: Channel, ghost k: string, ghost v: M.ChannelV, nick: string, ghost ts: set<int>, ghost live: set<User>)
    requires StripTurn(c, k, false, v, nick, ts, live)
    modifies c`users
    ensures StripTurn(c, k, true, v, nick, ts, live)
  {
    var removed := c.RemoveUser(nick, v);
  }

  lemma SweepShrinks(channels: map<string, Channel>, k: string)
    requires k in channels
    ensures (channels - {k}).Keys == channels.Keys - {k} && |channels - {k}| == |channels| - 1
    ensures (channels - {k}).Values <= channels.Values
  {
    assert |channels.Keys - {k}| == |channels.Keys| - 1;
    assert |channels| == |channels.Keys|;
  }

  /** t's node is the one node filed under nick. */
  predicate OnlyKey(s: M.Srv, nick: string, t: int) {
    t in s.users && s.users[t].key == nick && forall v :: v in s.users && s.users[v].key == nick ==> v == t
  }

  /** The sockets of the nodes filed under nick. */
  function SocketsOf(users: map<int, M.UserV>, nick: string): set<int> {
    set t | t in users && users[t].key == nick
  }

  lemma QuitFindsIt(s: M.Srv, t: int, params: seq<string>)
    requires t in s.users && OnlyKey(s, s.users[t].nick, t)
    ensures M.Taken(s, s.users[t].nick) && SocketsOf(s.users, s.users[t].nick) == {t}
    ensures M.Quit(s, t, params) == M.QuitFinding(s, t, params, {t})
  {
    var nick := s.users[t].nick;
    assert s.users[t].key == nick;
    forall v ensures v in SocketsOf(s.users, nick) <==> v == t {}
    assert M.SockOf(s, nick) in SocketsOf(s.users, nick);
  }

  lemma InvOnlyKey(s: M.Srv, t: int)
    requires Inv(s) && t in s.users && M.Removable(s, t)
    ensures OnlyKey(s, s.users[t].nick, t)
  {
    RemovableExactly(s, t);
    assert UserOk(s.users[t]);
  }

  /** After the rename and its notes. */
  function Noted(s: M.Srv, t: int, nick: string): M.Srv
    requires t in s.users
    ensures t in Noted(s, t, nick).users
  {
    var note := M.Line(M.NickLine(s.users[t].nick, nick));
    M.Say(M.SendToJoinedChannels(M.Rename(s, t, nick), nick, note), t, note)
  }

  lemma RenameKeepsNames(s: M.Srv, t: int, nick: string)
    requires Inv(s) && t in s.users && !M.Taken(s, nick) && M.IsCorrectNick(nick)
    ensures NamesAreKeys(M.Rename(s, t, nick))
  {
    var s' := M.Rename(s, t, nick);
    FreshNickIsNoMember(s, nick);
    forall k, n | k in s'.channels && n in s'.channels[k].members
      ensures s'.channels[k].members[n] in s'.users && s'.users[s'.channels[k].members[n]].nick == n
    {
      RenameKeepsChannel(s, t, nick, s'.users[t], k);
      assert ChannelOk(k, s'.channels[k], s.users[t := s'.users[t]]);
    }
  }

  lemma KeyIsNick(s: M.Srv, t: int)
    requires Inv(s) && t in s.users
    ensures s.users[t].key == s.users[t].nick
  {
    assert UserOk(s.users[t]);
  }

  lemma InvNamesAreKeys(s: M.Srv)
    requires Inv(s)
    ensures NamesAreKeys(s)
  {
    forall k, n | k in s.channels && n in s.channels[k].members
      ensures s.channels[k].members[n] in s.users && s.users[s.channels[k].members[n]].nick == n
    {
      MemberIsUser(s, k, n);
    }
  }

  lemma FirstIsChannel(params: seq<string>)
    requires params != [] && M.IsChannelParam(params[0])
    ensures M.Channels(params) != []
    decreases |params|
  {
    if |params| > 1 {
      FirstIsChannel(params[..|params| - 1]);
    }
  }

  lemma CommaListStep(ks: seq<string>, i: nat)
    requires i < |ks|
    ensures "NAMES " + M.CommaList(ks[..i + 1]) == "NAMES " + M.CommaList(ks[..i]) + ks[i] + ","
  {
    assert ks[..i + 1][..i] == ks[..i];
  }

  lemma RefuseStep(sent: seq<M.Delivery>, t: int, nick: string, ps: seq<string>, p: string)
    ensures sent + M.Refuse(t, nick, ps + [p]) == sent + M.Refuse(t, nick, ps) + [M.Delivery(t, M.Numeric(400, [nick, "PART"]))]
  {
    assert (ps + [p])[..|ps|] == ps;
  }

  lemma PartEachStep(s: M.Srv, t: int, nick: string, ks: seq<string>, i: nat, before: M.Srv, after: M.Srv)
    requires i < |ks| && before == M.PartEach(s, t, nick, ks[..i]) && after == M.PartOne(before, t, nick, ks[i])
    ensures after == M.PartEach(s, t, nick, ks[..i + 1])
  {
    assert ks[..i + 1][..i] == ks[..i];
  }

  function QuitSent(s: M.Srv, ks: seq<string>, nick: string, r: M.Reply): M.Srv {
    s.(out := s.out + M.QuitNotes(s.channels, ks, nick, r))
  }

  lemma QuitStep(s: M.Srv, ks: seq<string>, i: nat, nick: string, r: M.Reply)
    requires i < |ks| && ks[i] in s.channels
    ensures QuitSent(s, ks[..i + 1], nick, r)
         == if nick in s.channels[ks[i]].members then M.SendToChannel(QuitSent(s, ks[..i], nick, r), ks[i], r, nick)
            else QuitSent(s, ks[..i], nick, r)
  {
    QuitNotesStep(s.channels, ks, i, nick, r);
    RegroupThree(s.out, M.QuitNotes(s.channels, ks[..i], nick, r), M.ToMembers(s.channels[ks[i]], r, nick));
  }

  lemma QuitNotesStep(channels: map<string, M.ChannelV>, ks: seq<string>, i: nat, nick: string, r: M.Reply)
    requires i < |ks| && ks[i] in channels
    ensures M.QuitNotes(channels, ks[..i + 1], nick, r)
         == M.QuitNotes(channels, ks[..i], nick, r)
            + if nick in channels[ks[i]].members then M.ToMembers(channels[ks[i]], r, nick) else []
  {
    assert ks[..i + 1][..i] == ks[..i];
  }

  /** t is the one user called nick, and only its own entries lead to it. */
  predicate Victim(s: M.Srv, nick: string, t: int) {
    OnlyKey(s, nick, t) && s.users[t].nick == nick && OwnEntries(s, nick, {t})
  }

  predicate AllVictims(s: M.Srv, nick: string) {
    forall v :: v in s.users && s.users[v].key == nick ==> Victim(s, nick, v)
  }

  lemma VictimsAreNamed(s: M.Srv, m: Msg)
    requires Inv(s) && Shaped(m)
    ensures |m.params| >= 2 ==> AllVictims(s, m.params[0])
  {
    assert |m.params| >= 2 ==> MiddleParam(m.params[..|m.params| - 1][0]);
    forall v | |m.params| >= 2 && v in s.users && s.users[v].key == m.params[0] ensures Victim(s, m.params[0], v) {
      KeyIsNick(s, v);
      InvOwnEntries(s, v);
      InvOnlyKey(s, v);
    }
  }

  lemma KillIsOfVictim(s: M.Srv, t: int, m: Msg, v: int)
    requires t in s.users && |m.params| >= 2 && s.users[t].nick in s.operators && Victim(s, m.params[0], v)
    ensures M.Kill(s, t, m) == M.KillVictim(s, t, m, v)
  {
    assert s.users[v].key == m.params[0];
    assert M.SockOf(s, m.params[0]) == v;
  }

  lemma NamesBodyStep(names: seq<string>, i: nat, chops: seq<string>)
    requires i < |names|
    ensures M.NamesBody(names[..i + 1], chops) == M.NamesBody(names[..i], chops) + M.Mark(names[i], chops) + " "
  {
    assert names[..i + 1][..i] == names[..i];
  }

  /** A KILL on which the C++ is defined leaves the killer in the table. */
  lemma KillSparesKiller(s: M.Srv, t: int, m: Msg)
    requires Inv(s) && t in s.users && M.Present(s, t) && Shaped(m)
    requires ToUpper(m.command) == "KILL" && M.Defined(s, t, m)
    ensures t in M.Kill(s, t, m).users
  {
    if M.KillAllowed(s, t, m) {
      assert UserOk(s.users[t]);
      assert ':' !in m.params[1] && MiddleParam(m.params[..|m.params| - 1][0]);
      KillIsQuit(s, t, m);
      var v := M.SockOf(s, m.params[0]);
      assert UserOk(s.users[v]);
      var s' := M.Say(s, t, M.Line(":" + s.users[t].nick + " KILL " + m.params[0] + " :" + m.params[1]));
      QuitKeepsInv(s', v, [M.KillText(s.users[t].nick, m.params[1])]);
    }
  }

  lemma InvLeaves(s: M.Srv, t: int)
    requires Inv(s) && t in s.users && s.users[t].logged
    ensures OwnEntries(s, s.users[t].nick, {t}) && OnlyKey(s, s.users[t].nick, t)
  {
    assert UserOk(s.users[t]);
    InvOwnEntries(s, t);
    InvOnlyKey(s, t);
  }

  lemma InputIsDispatch(s: M.Srv, t: int, line: string)
    requires Inv(s) && M.Enabled(s, M.Input(t, line))
    ensures var s', m := M.Admit(s, t), M.MessageOf(s, t, line);
            && M.Step(s, M.Input(t, line)) == M.Dispatch(s', t, m)
            && Inv(s') && Shaped(m) && M.Defined(s', t, m)
  {
    InputIsShaped(s, t, line);
    AdmitKeepsInv(s, t);
  }

  /** What JOIN comes to once it has read its parameters. */
  lemma JoinIsRounds(s: M.Srv, t: int, m: Msg)
    requires Inv(s) && t in s.users && s.users[t].logged && ColonFree(m.params) && JoinReads(m)
    ensures var ks := M.Channels(m.params);
            var j := M.JoinFrom(s, t, ks, M.Keys(m.params), 0);
            && ks != [] && (forall i :: 0 <= i < |ks| ==> IsChannelName(ks[i]))
            && t in j.s.users && NamesAreKeys(j.s)
            && M.Join(s, t, m) == if j.goOn then M.NamesCommand(j.s, t, Parse(M.NamesLine(ks), s.users[t].nick)) else j.s
  {
    JoinedNamesAreNames(m.params);
    FirstIsChannel(m.params);
    JoinFromKeepsInv(s, t, M.Channels(m.params), M.Keys(m.params), 0);
    InvNamesAreKeys(M.JoinFrom(s, t, M.Channels(m.params), M.Keys(m.params), 0).s);
  }

  lemma NewValue(channels: map<string, Channel>, k: string, c: Channel)
    requires k !in channels
    ensures channels[k := c].Values == channels.Values + {c}
  {
    var after := channels[k := c];
    assert after[k] == c;
    forall k' | k' in channels ensures channels[k'] in after.Values {
      assert after[k'] == channels[k'];
    }
  }

  lemma InvOwnEntries(s: M.Srv, t: int)
    requires Inv(s) && t in s.users
    ensures OwnEntries(s, s.users[t].nick, {t})
  {
    forall k | k in s.channels ensures OwnEntry(s.channels[k], s.users[t].nick, {t}) {
      MemberIsNick(s, k, t);
      forall n | n in s.channels[k].members ensures n != "" {
        MemberIsUser(s, k, n);
      }
    }
  }

  lemma InvOwnNick(s: M.Srv, t: int)
    requires Inv(s) && t in s.users
    ensures M.Taken(s, s.users[t].nick) && OwnEntries(s, s.users[t].nick, SocketsOf(s.users, s.users[t].nick))
  {
    var nick := s.users[t].nick;
    assert UserOk(s.users[t]);
    forall k | k in s.channels ensures OwnEntry(s.channels[k], nick, SocketsOf(s.users, nick)) {
      forall n | n in s.channels[k].members ensures n != "" && s.users[s.channels[k].members[n]].key == n {
        MemberIsUser(s, k, n);
      }
    }
  }

  /** Channel c, filed under k, before or after its turn in the rename loop: before, only
      the entry of the old nickname leads to the renamed socket t. */
  ghost predicate RenameTurn(c: Channel, k: string, done: bool, v: M.ChannelV, oldNick: string, newNick: string, t: int,
                             before: set<User>, after: set<User>)
    reads c
  {
    c.name == k &&
    if done then c.Shows(M.RenameIn(v, oldNick, newNick, t)) && c.PointsInto(after)
    else c.Shows(v) && c.PointsInto(before) && forall n :: n in v.members && n != oldNick ==> v.members[n] != t
  }

  method RenameAt(c: Channel, ghost k: string, ghost v: M.ChannelV, oldNick: string, newUser: User,
                  ghost before: set<User>, ghost after: set<User>)
    requires RenameTurn(c, k, false, v, oldNick, newUser.nickname, newUser.socket, before, after) && newUser in after
    requires forall u :: u in before && u !in after ==> u.socket == newUser.socket
    modifies c`chops, c`users
    ensures RenameTurn(c, k, true, v, oldNick, newUser.nickname, newUser.socket, before, after)
  {
    IRCServer.RenameInChannel(c, oldNick, newUser, v);
  }

  lemma WholeSlice(ns: seq<string>)
    ensures ns[..|ns|] == ns
  {
  }

  /** Member entries are filed under the nickname of the user they point at. */
  predicate NamesAreKeys(s: M.Srv) {
    forall k, n :: k in s.channels && n in s.channels[k].members ==>
      s.channels[k].members[n] in s.users && s.users[s.channels[k].members[n]].nick == n
  }

  lemma SpreadStep(channels: map<string, M.ChannelV>, ks: seq<string>, i: nat, nick: string, r: M.Reply)
    requires i < |ks| && ks[i] in channels
    ensures M.SpreadChannels(channels, ks[..i + 1], nick, r)
         == M.SpreadChannel(channels[ks[i]], nick, r, M.SpreadChannels(channels, ks[..i], nick, r))
  {
    assert ks[..i + 1][..i] == ks[..i];
  }

  lemma MemberStep(members: map<string, int>, names: seq<string>, i: nat, nick: string, r: M.Reply, a: M.Spread)
    requires i < |names| && names[i] in members
    ensures M.SpreadMembers(members, names[..i + 1], nick, r, a)
         == M.SpreadMember(names[i], members[names[i]], nick, r, M.SpreadMembers(members, names[..i], nick, r, a))
  {
    assert names[..i + 1][..i] == names[..i];
  }

  /** s after a broadcast to names. */
  function Sending(s: M.Srv, members: map<string, int>, names: seq<string>, r: M.Reply, but: string): M.Srv
  {
    s.(out := s.out + M.Broadcast(members, names, r, but))
  }

  lemma SendingStep(s: M.Srv, members: map<string, int>, names: seq<string>, i: nat, r: M.Reply, but: string)
    requires i < |names| && names[i] in members
    ensures var now := Sending(s, members, names[..i], r, but);
            Sending(s, members, names[..i + 1], r, but) == if names[i] == but then now else M.Say(now, members[names[i]], r)
  {
    assert names[..i + 1][..i] == names[..i];
  }
}
