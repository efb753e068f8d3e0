/** The server as a state machine over values: one function per handler of
    server/srcs/cmds.cpp, and the dispatch of server/srcs/IRCServer.cpp. A user is
    known by its socket, the nickname is an attribute; a member entry of a channel
    maps a nickname to the socket of the user node it points at. */
module Model {
  import opened Text
  import opened Messages

  datatype Reply =
    | Numeric(code: nat, args: seq<string>)
    | Welcome(nick: string)
    | Line(line: string)

  /** One message handed to `_send` for a live socket. */
  datatype Delivery = Delivery(sock: int, reply: Reply)

  /** A node of the `_users` multimap: its key and the fields of the User in it. */
  datatype UserV = UserV(key: string, nick: string, passworded: bool, hasNick: bool, hasUser: bool, logged: bool)

  datatype ChannelV = ChannelV(name: string, members: map<string, int>, chops: seq<string>, pass: string)

  datatype Srv = Srv(
    hostname: string, password: string,
    users: map<int, UserV>, channels: map<string, ChannelV>, operators: set<string>,
    out: seq<Delivery>)

  const NICKLEN := 9
  const LIMIT := 10

  // ---- Lookups and sending ----------------------------------------------------

  predicate IsLetter(c: char) { 'a' <= c <= 'z' || 'A' <= c <= 'Z' }

  predicate IsNickChar(c: char) {
    IsLetter(c) || '0' <= c <= '9' || c in "-[]\\'^{}"
  }

  predicate IsCorrectNick(nick: string) {
    && 0 < |nick| <= NICKLEN
    && IsLetter(nick[0])
    && forall i :: 1 <= i < |nick| ==> IsNickChar(nick[i])
  }

  predicate IsChannelParam(p: string) {
    p != "" && (p[0] == '#' || p[0] == '&')
  }

  predicate Taken(s: Srv, nick: string) {
    exists t :: t in s.users && s.users[t].key == nick
  }

  /** The socket of a node `_users.find(nick)` may return. */
  ghost function SockOf(s: Srv, nick: string): (t: int)
    requires Taken(s, nick)
    ensures t in s.users && s.users[t].key == nick
  {
    var t :| t in s.users && s.users[t].key == nick;
    t
  }

  function Say(s: Srv, t: int, r: Reply): Srv {
    s.(out := s.out + [Delivery(t, r)])
  }

  /** One copy to each of the names, keys of members, except one. */
  function Broadcast(members: map<string, int>, names: seq<string>, r: Reply, but: string): seq<Delivery> {
    if names == [] then []
    else
      var last := names[|names| - 1];
      Broadcast(members, names[..|names| - 1], r, but)
      + if last == but || last !in members then [] else [Delivery(members[last], r)]
  }

  function ToMembers(c: ChannelV, r: Reply, but: string): seq<Delivery> {
    Broadcast(c.members, Sorted(c.members.Keys), r, but)
  }

  function SendToChannel(s: Srv, k: string, r: Reply, but: string): Srv {
    if k in s.channels then s.(out := s.out + ToMembers(s.channels[k], r, but)) else s
  }

  /** State of `_sendToJoinedChannels`: the nicks in alreadySent and what was sent. */
  datatype Spread = Spread(sent: seq<string>, out: seq<Delivery>)

  function SpreadMember(n: string, t: int, nick: string, r: Reply, a: Spread): Spread {
    if n in a.sent || n == nick then a else Spread(a.sent + [n], a.out + [Delivery(t, r)])
  }

  function SpreadMembers(members: map<string, int>, names: seq<string>, nick: string, r: Reply, a: Spread): Spread {
    if names == [] then a
    else
      var last, b := names[|names| - 1], SpreadMembers(members, names[..|names| - 1], nick, r, a);
      if last in members then SpreadMember(last, members[last], nick, r, b) else b
  }

  function SpreadChannel(c: ChannelV, nick: string, r: Reply, a: Spread): Spread {
    if nick in c.members then SpreadMembers(c.members, Sorted(c.members.Keys), nick, r, a) else a
  }

  function SpreadChannels(channels: map<string, ChannelV>, ks: seq<string>, nick: string, r: Reply): Spread {
    if ks == [] then Spread([], [])
    else
      var k, a := ks[|ks| - 1], SpreadChannels(channels, ks[..|ks| - 1], nick, r);
      if k in channels then SpreadChannel(channels[k], nick, r, a) else a
  }

  function SendToJoinedChannels(s: Srv, nick: string, r: Reply): Srv {
    s.(out := s.out + SpreadChannels(s.channels, Sorted(s.channels.Keys), nick, r).out)
  }

  // ---- Channels ---------------------------------------------------------------

  /** Channel::addUser: silently nothing once the map holds more than the limit, and
      std::map::insert never overwrites. */
  function AddUser(c: ChannelV, nick: string, t: int): ChannelV {
    if |c.members| > LIMIT || nick in c.members then c else c.(members := c.members[nick := t])
  }

  function RemoveUser(c: ChannelV, nick: string): ChannelV {
    c.(members := c.members - {nick})
  }

  function RemoveFirst(chops: seq<string>, nick: string): seq<string> {
    if chops == [] then []
    else if chops[0] == nick then chops[1..]
    else [chops[0]] + RemoveFirst(chops[1..], nick)
  }

  /** Takes member n out of channel k, and the channel out when that empties it. */
  function RemoveMember(s: Srv, k: string, n: string): Srv
    requires k in s.channels
  {
    var c := RemoveUser(s.channels[k], n);
    s.(channels := if c.members == map[] then s.channels - {k} else s.channels[k := c])
  }

  // ---- Removing a user --------------------------------------------------------

  function Strip(channels: map<string, ChannelV>, nick: string): map<string, ChannelV> {
    map k | k in channels :: RemoveUser(channels[k], nick)
  }

  /** The one empty channel the sweep misses: it erases the empty first channel, goes
      back to begin() and steps past the new first one without looking at it. */
  predicate SweepMisses(channels: map<string, ChannelV>, k: string) {
    |channels.Keys| >= 2 &&
    var first := Least(channels.Keys);
    && channels[first].members == map[]
    && channels.Keys - {first} != {}
    && k == Least(channels.Keys - {first})
  }

  predicate Survives(channels: map<string, ChannelV>, k: string)
    requires k in channels
  {
    channels[k].members != map[] || SweepMisses(channels, k)
  }

  function Sweep(channels: map<string, ChannelV>): map<string, ChannelV> {
    map k | k in channels && Survives(channels, k) :: channels[k]
  }

  /** found is the node `_users.find(nick)` has returned, if any. */
  function RemoveNick(s: Srv, nick: string, found: set<int>): Srv {
    s.(users := s.users - found, channels := Sweep(Strip(s.channels, nick)))
  }

  // ---- Registration -----------------------------------------------------------

  function Pass(s: Srv, t: int, m: Msg): Srv
    requires t in s.users
  {
    var u := s.users[t];
    if u.passworded then Say(s, t, Numeric(462, []))
    else if m.params == [] then Say(s, t, Numeric(461, ["PASS"]))
    else if m.params[0] == s.password then s.(users := s.users[t := u.(passworded := true)])
    else Say(s, t, Numeric(464, [if u.nick == "" then "*" else u.nick]))
  }

  /** The tail NICK and USER share: the welcome when both flags are there at last. */
  function LogIn(s: Srv, t: int): Srv
    requires t in s.users
  {
    var u := s.users[t];
    if u.hasNick && u.hasUser && !u.logged
    then Say(s.(users := s.users[t := u.(logged := true)]), t, Welcome(u.nick))
    else s
  }

  function User(s: Srv, t: int, m: Msg): Srv
    requires t in s.users
  {
    var u := s.users[t];
    if |m.params| < 4 then Say(s, t, Numeric(461, ["NICK"]))
    else if u.hasUser then Say(s, t, Numeric(462, []))
    else LogIn(s.(users := s.users[t := u.(hasUser := true)]), t)
  }

  /** What NICK does to one channel when old becomes nick. */
  function RenameIn(c: ChannelV, old_: string, nick: string, t: int): ChannelV {
    var c' := if old_ in c.chops then c.(chops := RemoveFirst(c.chops, old_) + [nick]) else c;
    if old_ in c.members then AddUser(RemoveUser(c', old_), nick, t) else c'
  }

  function Rename(s: Srv, t: int, nick: string): Srv
    requires t in s.users
  {
    var old_ := s.users[t].nick;
    var s' := s.(users := s.users[t := s.users[t].(key := nick, nick := nick)]);
    if old_ == "" then s'
    else s'.(channels := map k | k in s.channels :: RenameIn(s.channels[k], old_, nick, t),
             operators := if old_ in s.operators then s.operators - {old_} + {nick} else s.operators)
  }

  function NickLine(old_: string, nick: string): string {
    if old_ == "" then "NICK " + nick else ":" + old_ + " NICK :" + nick
  }

  predicate NickAccepted(s: Srv, m: Msg) {
    m.params != [] && IsCorrectNick(m.params[0]) && !Taken(s, m.params[0])
  }

  function Nick(s: Srv, t: int, m: Msg): Srv
    requires t in s.users
  {
    if m.params == [] then Say(s, t, Numeric(431, []))
    else if !IsCorrectNick(m.params[0]) then Say(s, t, Numeric(432, [m.params[0]]))
    else if Taken(s, m.params[0]) then Say(s, t, Numeric(433, [m.params[0]]))
    else
      var note := Line(NickLine(s.users[t].nick, m.params[0]));
      var s' := Rename(s, t, m.params[0]);
      FlagNick(Say(SendToJoinedChannels(s', m.params[0], note), t, note), t)
  }

  function FlagNick(s: Srv, t: int): Srv
    requires t in s.users
  {
    LogIn(s.(users := s.users[t := s.users[t].(hasNick := true)]), t)
  }

  // ---- Messages ---------------------------------------------------------------

  function RelayLine(prefix: string, target: string, text: string): string {
    ":" + prefix + " PRIVMSG " + target + " :" + text
  }

  predicate Repeats(targets: seq<string>, i: nat)
    requires i < |targets|
  {
    exists j :: 0 <= j < |targets| && i != j && targets[j] == targets[i]
  }

  /** The first target that occurs twice, counted from i, or |targets|. */
  function FirstRepeat(targets: seq<string>, i: nat): (j: nat)
    requires i <= |targets|
    ensures i <= j <= |targets|
    ensures forall k :: i <= k < j ==> !Repeats(targets, k)
    ensures j < |targets| ==> Repeats(targets, j)
    decreases |targets| - i
  {
    if i == |targets| || Repeats(targets, i) then i else FirstRepeat(targets, i + 1)
  }

  ghost function PrivmsgEach(s: Srv, t: int, prefix: string, targets: seq<string>, text: string): Srv
    requires t in s.users
    decreases |targets|
  {
    if targets == [] then s
    else
      var n := targets[0];
      var r := Line(RelayLine(prefix, n, text));
      if Taken(s, n) then PrivmsgEach(Say(s, SockOf(s, n), r), t, prefix, targets[1..], text)
      else if n in s.channels then PrivmsgEach(SendToChannel(s, n, r, prefix), t, prefix, targets[1..], text)
      else Say(s, t, Numeric(401, [n]))
  }

  ghost function Privmsg(s: Srv, t: int, m: Msg): Srv
    requires t in s.users
  {
    if m.params == [] then Say(s, t, Numeric(411, []))
    else if |m.params| == 1 then Say(s, t, Numeric(412, []))
    else
      var n := |m.params| - 1;
      var targets := m.params[..n];
      var i := FirstRepeat(targets, 0);
      if i < n then
        if Taken(s, targets[i]) then Say(s, SockOf(s, targets[i]), Numeric(407, [targets[i]])) else s
      else PrivmsgEach(s, t, m.prefix, targets, m.params[n])
  }

  ghost function NoticeEach(s: Srv, prefix: string, targets: seq<string>, text: string): Srv
    decreases |targets|
  {
    if targets == [] then s
    else
      var n := targets[0];
      var r := Line(RelayLine(prefix, n, text));
      if Taken(s, n) then NoticeEach(Say(s, SockOf(s, n), r), prefix, targets[1..], text)
      else if n in s.channels then NoticeEach(SendToChannel(s, n, r, prefix), prefix, targets[1..], text)
      else s
  }

  ghost function Notice(s: Srv, m: Msg): Srv {
    if |m.params| <= 1 then s
    else
      var n := |m.params| - 1;
      if FirstRepeat(m.params[..n], 0) < n then s
      else NoticeEach(s, m.prefix, m.params[..n], m.params[n])
  }

  // ---- NAMES ------------------------------------------------------------------

  function Channels(params: seq<string>): seq<string> {
    if params == [] then []
    else
      var last := params[|params| - 1];
      Channels(params[..|params| - 1]) + if IsChannelParam(last) then [last] else []
  }

  function Keys(params: seq<string>): seq<string> {
    if params == [] then []
    else
      var last := params[|params| - 1];
      Keys(params[..|params| - 1]) + if IsChannelParam(last) then [] else [last]
  }

  function Mark(n: string, chops: seq<string>): string {
    if n in chops then "@" + n else n
  }

  function NamesBody(names: seq<string>, chops: seq<string>): string {
    if names == [] then ""
    else
      var last := names[|names| - 1];
      NamesBody(names[..|names| - 1], chops) + Mark(last, chops) + " "
  }

  function NamesList(s: Srv, t: int, k: string): seq<Delivery>
    requires t in s.users
  {
    if k !in s.channels then []
    else
      var body := NamesBody(Sorted(s.channels[k].members.Keys), s.channels[k].chops);
      [Delivery(t, Numeric(353, [s.users[t].nick, k, body]))]
  }

  function NamesOf(s: Srv, t: int, k: string): seq<Delivery>
    requires t in s.users
  {
    NamesList(s, t, k) + [Delivery(t, Numeric(366, [s.users[t].nick, k]))]
  }

  function NamesOfAll(s: Srv, t: int, ks: seq<string>): seq<Delivery>
    requires t in s.users
  {
    if ks == [] then []
    else NamesOfAll(s, t, ks[..|ks| - 1]) + NamesOf(s, t, ks[|ks| - 1])
  }

  function Names(s: Srv, t: int, m: Msg): Srv
    requires t in s.users
  {
    s.(out := s.out + NamesOfAll(s, t, Channels(m.params)))
  }

  /** `_NAMES` with its own test of the command. */
  function NamesCommand(s: Srv, t: int, m: Msg): Srv
    requires t in s.users
  {
    if ToUpper(m.command) == "NAMES" then Names(s, t, m) else s
  }

  // ---- JOIN -------------------------------------------------------------------

  predicate IsBadByte(c: char) {
    c == ' ' || c == ',' || c == 7 as char || c == NUL || c == '\r' || c == '\n'
  }

  predicate IsCleanParam(p: string) {
    forall i :: 0 <= i < |p| ==> !IsBadByte(p[i])
  }

  function KeyAt(keys: seq<string>, i: nat): Option<string> {
    if i < |keys| then Some(keys[i]) else None
  }

  /** The key test of JOIN: the key at the channel's position, or none for no key. */
  predicate KeyOpens(c: ChannelV, key: Option<string>) {
    c.pass == match key case Some(k) => k case None => ""
  }

  function JoinedBy(channels: map<string, ChannelV>, nick: string): set<string> {
    set k | k in channels && nick in channels[k].members
  }

  function JoinLine(nick: string, k: string): string {
    ":" + nick + " JOIN :" + k
  }

  /** A channel just created: its creator the one member and the one chop. */
  function NewChannel(k: string, key: Option<string>, nick: string, t: int): ChannelV {
    ChannelV(k, map[nick := t], [nick], match key case Some(p) => p case None => "")
  }

  datatype Joined = Joined(s: Srv, goOn: bool)

  function JoinOne(s: Srv, t: int, k: string, key: Option<string>): Joined
    requires t in s.users
  {
    var nick := s.users[t].nick;
    var crowded := |JoinedBy(s.channels, nick)| > LIMIT;
    var note := Line(JoinLine(nick, k));
    if k in s.channels then
      var c := s.channels[k];
      if !KeyOpens(c, key) then Joined(Say(s, t, Numeric(475, [nick, k])), false)
      else if nick in c.members then Joined(s, false)
      else if crowded then Joined(Say(s, t, Numeric(405, [nick, k])), false)
      else
        var s' := s.(channels := s.channels[k := AddUser(c, nick, t)]);
        Joined(SendToChannel(s', k, note, ""), true)
    else if crowded then Joined(Say(s, t, Numeric(405, [nick])), false)
    else if nick == "" then Joined(s, false)
    else
      Joined(Say(s.(channels := s.channels[k := NewChannel(k, key, nick, t)]), t, note), true)
  }

  function JoinFrom(s: Srv, t: int, ks: seq<string>, keys: seq<string>, i: nat): Joined
    requires t in s.users && i <= |ks|
    decreases |ks| - i
  {
    if i == |ks| then Joined(s, true)
    else
      var j := JoinOne(s, t, ks[i], KeyAt(keys, i));
      if j.goOn then JoinFrom(j.s, t, ks, keys, i + 1) else j
  }

  function CommaList(ks: seq<string>): string {
    if ks == [] then "" else CommaList(ks[..|ks| - 1]) + ks[|ks| - 1] + ","
  }

  /** The line JOIN builds and hands to NAMES, its last comma erased. */
  function NamesLine(ks: seq<string>): (line: string)
    ensures Parsable(line)
  {
    var list := "NAMES " + CommaList(ks);
    var line := list[..|list| - 1];
    assert line[0] == 'N' && line[0] in line;
    line
  }

  function Join(s: Srv, t: int, m: Msg): Srv
    requires t in s.users
  {
    var nick := s.users[t].nick;
    if m.params == [] then Say(s, t, Numeric(461, [nick, "JOIN"]))
    else if !IsChannelParam(m.params[0]) then Say(s, t, Numeric(400, [nick, "JOIN"]))
    else if exists i :: 0 <= i < |m.params| && !IsCleanParam(m.params[i]) then Say(s, t, Numeric(400, [nick, "JOIN"]))
    else
      var ks, keys := Channels(m.params), Keys(m.params);
      if |keys| > |ks| then s
      else
        var j := JoinFrom(s, t, ks, keys, 0);
        if j.goOn && t in j.s.users then NamesCommand(j.s, t, Parse(NamesLine(ks), nick)) else j.s
  }

  // ---- PART and KICK ----------------------------------------------------------

  function PartLine(nick: string, k: string): string {
    ":" + nick + " PART :" + k
  }

  function PartOne(s: Srv, t: int, nick: string, k: string): Srv {
    if k !in s.channels then Say(s, t, Numeric(403, [nick, k]))
    else if nick !in s.channels[k].members then Say(s, t, Numeric(442, [nick, k]))
    else RemoveMember(SendToChannel(s, k, Line(PartLine(nick, k)), ""), k, nick)
  }

  function PartEach(s: Srv, t: int, nick: string, ks: seq<string>): Srv {
    if ks == [] then s
    else PartOne(PartEach(s, t, nick, ks[..|ks| - 1]), t, nick, ks[|ks| - 1])
  }

  function Refuse(t: int, nick: string, ps: seq<string>): seq<Delivery> {
    if ps == [] then [] else Refuse(t, nick, ps[..|ps| - 1]) + [Delivery(t, Numeric(400, [nick, "PART"]))]
  }

  function Part(s: Srv, t: int, m: Msg): Srv
    requires t in s.users
  {
    var nick := s.users[t].nick;
    if m.params == [] then Say(s, t, Numeric(461, [nick, "PART"]))
    else PartEach(s.(out := s.out + Refuse(t, nick, Keys(m.params))), t, nick, Channels(m.params))
  }

  function KickLine(nick: string, k: string, n: string): string {
    ":" + nick + " KICK " + k + " " + n
  }

  /** The guards KICK passes before it removes anyone. */
  predicate KickAllowed(s: Srv, t: int, m: Msg)
    requires t in s.users
  {
    && |m.params| >= 2
    && m.params[0] in s.channels
    && s.users[t].nick in s.channels[m.params[0]].members
    && s.users[t].nick in s.channels[m.params[0]].chops
    && m.params[1] in s.channels[m.params[0]].members
  }

  function Kick(s: Srv, t: int, m: Msg): Srv
    requires t in s.users
  {
    var nick := s.users[t].nick;
    if |m.params| < 2 then Say(s, t, Numeric(461, ["KILL"]))
    else
      var k, n := m.params[0], m.params[1];
      if k !in s.channels then Say(s, t, Numeric(403, [nick, k]))
      else if nick !in s.channels[k].members then Say(s, t, Numeric(442, [k]))
      else if nick !in s.channels[k].chops then Say(s, t, Numeric(482, [nick, k]))
      else if n !in s.channels[k].members then Say(s, t, Numeric(441, [n, k]))
      else
        var note := Line(KickLine(nick, k, n));
        var s' := RemoveMember(Say(s, s.channels[k].members[n], note), k, n);
        SendToChannel(s', k, note, n)
  }

  // ---- QUIT, KILL, OPER -------------------------------------------------------

  function QuitLine(nick: string, params: seq<string>): string {
    ":" + nick + " QUIT :Quit: " + if params == [] then nick else params[0]
  }

  function QuitNotes(channels: map<string, ChannelV>, ks: seq<string>, nick: string, r: Reply): seq<Delivery> {
    if ks == [] then []
    else
      var k := ks[|ks| - 1];
      QuitNotes(channels, ks[..|ks| - 1], nick, r)
      + if k in channels && nick in channels[k].members then ToMembers(channels[k], r, nick) else []
  }

  /** QUIT of user t, for which `_users.find` returns found. */
  function QuitFinding(s: Srv, t: int, params: seq<string>, found: set<int>): Srv
    requires t in s.users
  {
    var nick := s.users[t].nick;
    var notes := QuitNotes(s.channels, Sorted(s.channels.Keys), nick, Line(QuitLine(nick, params)));
    RemoveNick(Say(s.(out := s.out + notes), t, Line("ERROR :Closing Link")), nick, found)
  }

  ghost function Quit(s: Srv, t: int, params: seq<string>): Srv
    requires t in s.users
  {
    var nick := s.users[t].nick;
    QuitFinding(s, t, params, if Taken(s, nick) then {SockOf(s, nick)} else {})
  }

  function KillText(killer: string, reason: string): string {
    "Killed (" + killer + " (" + reason + "))"
  }

  /** The line KILL builds for its victim and parses again. */
  function KillLine(killer: string, reason: string): (line: string)
    ensures Parsable(line)
  {
    var line := ":localhost QUIT :" + KillText(killer, reason);
    assert line[1] == 'l' && line[1] in line;
    line
  }

  predicate KillAllowed(s: Srv, t: int, m: Msg)
    requires t in s.users
  {
    |m.params| >= 2 && s.users[t].nick in s.operators && Taken(s, m.params[0])
  }

  /** KILL of user v once its guards have passed. */
  ghost function KillVictim(s: Srv, t: int, m: Msg, v: int): Srv
    requires t in s.users && v in s.users && |m.params| >= 2
  {
    var nick := s.users[t].nick;
    var note := Line(":" + nick + " KILL " + m.params[0] + " :" + m.params[1]);
    var quit := Parse(KillLine(nick, m.params[1]), s.hostname);
    var s' := Say(s, t, note);
    if ToUpper(quit.command) == "QUIT" then Quit(s', v, quit.params) else s'
  }

  ghost function Kill(s: Srv, t: int, m: Msg): Srv
    requires t in s.users
  {
    var nick := s.users[t].nick;
    if |m.params| < 2 then Say(s, t, Numeric(461, ["KILL"]))
    else if nick !in s.operators then Say(s, t, Numeric(481, [nick]))
    else if !Taken(s, m.params[0]) then Say(s, t, Numeric(401, [m.params[0]]))
    else KillVictim(s, t, m, SockOf(s, m.params[0]))
  }

  function Oper(s: Srv, t: int, m: Msg): Srv
    requires t in s.users
  {
    var nick := s.users[t].nick;
    if |m.params| < 2 then Say(s, t, Numeric(461, [nick, "OPER"]))
    else if m.params[0] != nick then Say(s, t, Numeric(491, [nick]))
    else if m.params[1] != s.password then Say(s, t, Numeric(464, [nick]))
    else Say(s.(operators := s.operators + {nick}), t, Numeric(381, [nick]))
  }

  // ---- Dispatch and events ----------------------------------------------------

  /** An empty server password lets everyone in. */
  function Admit(s: Srv, t: int): Srv
    requires t in s.users
  {
    if s.password == "" then s.(users := s.users[t := s.users[t].(passworded := true)]) else s
  }

  predicate Present(s: Srv, t: int)
    requires t in s.users
  {
    s.users[t].passworded && s.users[t].logged
  }

  function MessageOf(s: Srv, t: int, line: string): Msg
    requires t in s.users && Parsable(line)
  {
    Parse(line, s.users[t].nick)
  }

  ghost function Dispatch(s: Srv, t: int, m: Msg): Srv
    requires t in s.users
  {
    var command := ToUpper(m.command);
    if command == "PASS" then Pass(s, t, m)
    else if command == "NICK" then if s.users[t].passworded then Nick(s, t, m) else s
    else if command == "USER" then if s.users[t].passworded then User(s, t, m) else s
    else if !Present(s, t) then s
    else if command == "QUIT" then Quit(s, t, m.params)
    else if command == "KILL" then Kill(s, t, m)
    else if command == "PRIVMSG" then Privmsg(s, t, m)
    else if command == "NOTICE" then Notice(s, m)
    else if command == "JOIN" then Join(s, t, m)
    else if command == "PART" then Part(s, t, m)
    else if command == "OPER" then Oper(s, t, m)
    else if command == "KICK" then Kick(s, t, m)
    else if command == "NAMES" then Names(s, t, m)
    else s
  }

  /** An accept, a line, or a lost connection, for which `_users.find` returns found. */
  datatype Event =
    | Connect(sock: int)
    | Input(sock: int, line: string)
    | Hangup(sock: int, found: int)

  const HANGUP_TEXT := "Remote host closed the connection"

  function Fresh(): UserV {
    UserV("", "", false, false, false, false)
  }

  /** Inputs on which the C++ is defined: NAMES indexes past its list when a
      non-channel is followed by another parameter, and an operator killing itself
      leaves the dispatcher with a dead pointer. */
  predicate Defined(s: Srv, t: int, m: Msg)
    requires t in s.users
  {
    Present(s, t) ==>
      && (ToUpper(m.command) == "NAMES" ==> forall i :: 0 <= i < |m.params| - 1 ==> IsChannelParam(m.params[i]))
      && (ToUpper(m.command) == "KILL" && KillAllowed(s, t, m) ==> m.params[0] != s.users[t].nick)
  }

  /** The only node with its key: then removing by nick is bound to remove this user. */
  predicate Removable(s: Srv, t: int)
    requires t in s.users
  {
    s.users[t].nick != "" || forall t' :: t' in s.users && s.users[t'].nick == "" ==> t' == t
  }

  ghost predicate Enabled(s: Srv, e: Event) {
    match e
    case Connect(t) => t !in s.users
    case Input(t, line) => t in s.users && Parsable(line) && Defined(Admit(s, t), t, MessageOf(s, t, line))
    case Hangup(t, v) => t in s.users && v in s.users && s.users[v].key == s.users[t].nick
  }

  ghost function Step(s: Srv, e: Event): Srv
    requires Enabled(s, e)
  {
    match e
    case Connect(t) => s.(users := s.users[t := Fresh()])
    case Input(t, line) => Dispatch(Admit(s, t), t, MessageOf(s, t, line))
    case Hangup(t, v) => QuitFinding(s, t, [HANGUP_TEXT], {v})
  }

  ghost predicate IsInitial(s: Srv) {
    s.users == map[] && s.channels == map[] && s.operators == {} && s.out == []
  }

  ghost predicate StepAt(states: seq<Srv>, events: seq<Event>, i: nat)
    requires |states| == |events| + 1 && i < |events|
  {
    Enabled(states[i], events[i]) && states[i + 1] == Step(states[i], events[i])
  }

  /** A run: the states it passes through, one event between each two. */
  ghost predicate IsRun(states: seq<Srv>, events: seq<Event>) {
    && |states| == |events| + 1
    && IsInitial(states[0])
    && forall i :: 0 <= i < |events| ==> StepAt(states, events, i)
  }
}
