/** The User and Channel objects the server's tables hold
    (server/srcs/User.cpp, server/srcs/Channel.cpp). */
module Entities {
  import Model

  class User {
    const socket: int
    var nickname: string
    var password: bool
    var nick: bool
    var user: bool
    var logged: bool
    var buffer: string
    var sendBuffer: string

    /** What the state machine sees of a node filed under key. */
    ghost function View(key: string): Model.UserV
      reads this
    {
      Model.UserV(key, nickname, password, nick, user, logged)
    }

    constructor (socket: int)
      ensures this.socket == socket && View("") == Model.Fresh() && buffer == "" && sendBuffer == ""
    {
      this.socket := socket;
      nickname, password, nick, user, logged := "", false, false, false, false;
      buffer, sendBuffer := "", "";
    }

    /** The copy constructor: keeps flags, nickname and socket, drops both buffers. */
    constructor Copy(rhs: User)
      ensures socket == rhs.socket && nickname == rhs.nickname && forall key :: View(key) == rhs.View(key)
      ensures buffer == "" && sendBuffer == ""
    {
      socket := rhs.socket;
      nickname, password, nick, user, logged := rhs.nickname, rhs.password, rhs.nick, rhs.user, rhs.logged;
      buffer, sendBuffer := "", "";
    }

    method SetNickname(nick: string)
      modifies this`nickname
      ensures nickname == nick
    {
      nickname := nick;
    }

    method UnablePassword()
      modifies this`password
      ensures password
    {
      password := true;
    }

    method UnableNick()
      modifies this`nick
      ensures nick
    {
      nick := true;
    }

    method UnableUser()
      modifies this`user
      ensures user
    {
      user := true;
    }

    method UnableLogged()
      modifies this`logged
      ensures logged
    {
      logged := true;
    }
  }

  class Channel {
    const name: string
    var pass: string
    var users: map<string, User>
    /** The nicknames of the User copies in the chop list, the only field read of them. */
    var chops: seq<string>

    /** The channel as the state machine sees it. */
    ghost predicate Shows(v: Model.ChannelV)
      reads this
    {
      && name == v.name && pass == v.pass && chops == v.chops
      && users.Keys == v.members.Keys
      && forall n :: n in users ==> users[n].socket == v.members[n]
    }

    ghost predicate PointsInto(live: set<User>)
      reads this
    {
      forall n :: n in users ==> users[n] in live
    }

    constructor (name: string)
      ensures this.name == name && Shows(Model.ChannelV(name, map[], [], ""))
    {
      this.name := name;
      pass, users, chops := "", map[], [];
    }

    method SetPass(pass: string)
      modifies this`pass
      ensures this.pass == pass
    {
      this.pass := pass;
    }

    method AddUser(newUser: User, ghost v: Model.ChannelV)
      requires Shows(v)
      modifies this`users
      ensures Shows(Model.AddUser(v, newUser.nickname, newUser.socket))
      ensures forall n :: n in users ==> users[n] == newUser || (n in old(users) && users[n] == old(users)[n])
    {
      assert |users.Keys| == |v.members.Keys|;
      if |users| > Model.LIMIT {
        return;
      }
      if newUser.nickname !in users {
        users := users[newUser.nickname := newUser];
      }
    }

    method RemoveUser(remName: string, ghost v: Model.ChannelV) returns (removed: bool)
      requires Shows(v)
      modifies this`users
      ensures Shows(Model.RemoveUser(v, remName)) && users == old(users) - {remName}
      ensures removed <==> remName in v.members
    {
      removed := remName in users;
      users := users - {remName};
    }

    method AddChop(newChop: User)
      modifies this`chops
      ensures chops == old(chops) + [newChop.nickname]
    {
      chops := chops + [newChop.nickname];
    }

    method RemoveChop(nick: string) returns (removed: bool)
      modifies this`chops
      ensures removed <==> nick in old(chops)
      ensures chops == if removed then Model.RemoveFirst(old(chops), nick) else old(chops)
    {
      for i := 0 to |chops|
        invariant chops == old(chops) && nick !in chops[..i]
      {
        if chops[i] == nick {
          RemoveFirstAt(chops, nick, i);
          chops := chops[..i] + chops[i + 1..];
          return true;
        }
        assert chops[..i + 1] == chops[..i] + [chops[i]];
      }
      assert chops[..|chops|] == chops;
      return false;
    }

    method HasChop(nick: string) returns (found: bool)
      ensures found <==> nick in chops
    {
      for i := 0 to |chops|
        invariant nick !in chops[..i]
      {
        if chops[i] == nick {
          return true;
        }
        assert chops[..i + 1] == chops[..i] + [chops[i]];
      }
      assert chops[..|chops|] == chops;
      return false;
    }
  }

  lemma {:induction false} RemoveFirstAt(chops: seq<string>, nick: string, i: nat)
    requires i < |chops| && chops[i] == nick && nick !in chops[..i]
    ensures Model.RemoveFirst(chops, nick) == chops[..i] + chops[i + 1..]
  {
    if i > 0 {
      assert chops[0] in chops[..i];
      assert chops[..i][1..] == chops[1..][..i - 1];
      RemoveFirstAt(chops[1..], nick, i - 1);
      assert chops[1..][i..] == chops[i + 1..];
    }
  }
}
