# Verified model of the IRC server

A Dafny model of a small IRC server written in C++ (after RFC 1459): the user
and channel tables and the commands that rewrite them, the message parser shared by server
and bot, and the framing of lines on sockets. `dafny verify dfyconfig.toml` checks it all.

## What is modelled

- **Tables and commands.** `Server.dfy` holds the server object: the multimap of users (its
  nodes, real `User` objects, each with the key it is filed under), the map of `Channel`
  objects whose member entries are references to those nodes, the operators, and the log of
  messages handed to `_send`. Each command is a method that updates the tables in place with
  the source's loops. Each is proved against a function of `Model.dfy`, a state machine over
  values in which a user is known by its socket. `Valid` ties the objects to that state and
  says that every member reference leads to a live node; the three events (a connection, a
  line, a lost connection) are proved to be exactly `Model.Step` and to keep the invariant.
  `Serve`, the server loop, composes them: what it does to the objects is a run.
- **Facts about every run.** A run is a sequence of states of that machine, one event between
  each two. `Invariant.dfy` and `Steps.dfy` prove what every reachable state satisfies.
  `Refinement.dfy` proves that the server refines an abstract one that knows connections by
  socket, with their nickname, flags and operator rights, and whose membership is a relation
  between sockets and channels. `Privileges.dfy` draws from it who passes the password, who
  logs in and who is an operator. `Heard.dfy` says of every event what each socket hears of
  it, line by line, and proves that exactly this is sent. `History.dfy` is about chop entries,
  channel keys and how members got in; `Registration.dfy` about flags and the welcome;
  `Deliveries.dfy` about broadcasts and replies; `Leaving.dfy` and `Sweep.dfy` about QUIT,
  KILL and the sweep.
- **Parser.** `Message.dfy`: parsing as a function, the class that fills its fields in loops,
  and the theorem that parsing is a normal form of printing.
- **Framing.** `Framing.dfy` and `Sockets.dfy`: the loops of `_recv` and `_send`, for every way
  the kernel may cut the bytes. The kernel is a script, one entry a call, saying how many
  bytes that call handles or that it fails; quantifying over scripts quantifies over
  chunkings. `Relay.dfy` puts parser, state machine and framing together: a client's PRIVMSG
  from its line to what the bot parses.

## Where the code does less than it seems to promise

Each of these is stated exactly, for all inputs.

- *Empty channels.* The sweep of `_removeUser(nick)` steps past the new first channel after
  erasing the old one. `Sweeping.SweepExactly` says which channels are left,
  `Sweeping.SweepCleansUnless` when none of them is empty, and `Leaving.EmptyChannelStays`
  shows a state in which one stays. At most one is empty in any reachable state (part of
  `Invariants.Inv`).
- *CR LF torn between two peeks.* `_recv` looks for CR LF in each peek alone.
  `Framing.DeliversIffWhole`: a call that does not lose its connection does what it should if
  and only if, whenever bytes are taken by a peek that starts between a CR and its LF, the CR
  was taken by the same call and the peek sees the LF alone. `Framing.TornLinesMerge` is a
  failing family.
- *CR LF spliced by the parser.* The parser drops colons from the text, so `a\r:\nb` becomes
  two lines when it is relayed. `Relay.RelayArrives`: the relayed line arrives as sent if and
  only if no CR and LF of the text part are separated by colons alone.
  `Relay.SplicingIsPrivmsg` and `Relay.SplicingIsCut` are a failing family, from the client's
  line to the cut line the bot gets.
- *Lines of one byte.* `_send` compares `size_t` values, and for length 1 the subtraction wraps
  to `npos`: `Framing.FrameEndsInCrlf`. The longest line `_recv` delivers has 511 bytes with
  its CR LF, where section 2.3 of RFC 1459 allows 512: `Framing.Outcome`, used by
  `Framing.ReceiveDelivers`.
- *Nameless connections.* A lost connection is removed by nickname, so what goes is the node
  found under it: bound to be its own if and only if it has a nickname or is the only one
  without (`Steps.RemovableExactly`, `Leaving.LostIsGone`). The event of a lost connection
  carries the node found, and runs contain every choice of it.
- *The twelfth member.* `addUser` silently refuses a channel's twelfth member, and no guard of
  JOIN looks at that limit. `Refinement.JoinOneRel` says exactly who enters, and
  `Deliveries.FullChannelAnnounces` that a full channel is still told of the JOIN.

Inputs on which the C++ is undefined are excluded from runs (`Model.Defined`,
`Messages.Parsable`): a line of colons only, NAMES with a non-channel before
another parameter, an operator killing itself. Two replies whose text reads through `end()`
are logged without it: 405 for a new channel, and 407 when the repeated target is no user
(nothing is sent then). A repeated target that is a user is sent the 407 itself, as in the
code.

## Model

| member | source | states |
|---|---|---|
| Steps.RunKeepsInv | server/srcs/IRCServer.cpp:341-387 | in every reachable state: keys equal nicknames, non-empty nicknames are well-formed and unique, channel keys equal names, every member entry leads to the live logged-in node of that nickname, at most 11 members a channel and 11 channels a nickname, one chop entry a channel, at most one empty channel, flags agree |
| Steps.StepKeepsInv | server/srcs/IRCServer.cpp:341-387 | every event keeps that invariant |
| Invariants.RenameKeepsMember | server/srcs/Channel.cpp:10-20 | why the silent limit of addUser never drops a member in a rename: the re-keyed map has the new entry in place of the old and the same size |
| Invariants.RenameKeepsOk | server/srcs/cmds.cpp:151-181 | a successful NICK, which erases the node, inserts a copy and re-keys all channels, keeps the invariant |
| Invariants.AddMemberKeepsOk | server/srcs/cmds.cpp:398-415 | a JOIN that passes the channel count keeps both bounds of 11 |
| Invariants.NickGrammar | server/srcs/cmds.cpp:111-123 | which nicknames are accepted, byte by byte |
| Refinement.RenameKeepsRel | server/srcs/cmds.cpp:151-181 | a successful NICK leaves the relation of sockets and channels exactly unchanged |
| Refinement.JoinOneRel | server/srcs/cmds.cpp:356-450 | one channel of JOIN: the caller enters if and only if channel count, key and membership (for a new channel, nickname) pass and the channel, if it exists, has at most 10 members; nothing else changes |
| Refinement.JoinRel | server/srcs/cmds.cpp:295-470 | JOIN adds exactly the pairs its channels let in, in order up to the first failing guard, all of them asked for, and removes none |
| Refinement.JoinReadsPlainly | server/srcs/cmds.cpp:313-354 | which parameters JOIN goes on from, byte by byte |
| Deliveries.FullChannelAnnounces | server/srcs/cmds.cpp:415-419 | a JOIN that passes all guards of a channel with 11 members lets nobody in, sends the JOIN line to each of the 11 once, and goes on to the next channel |
| Refinement.PartRel | server/srcs/cmds.cpp:472-544 | PART removes exactly the caller's pairs with the channels it names |
| Refinement.QuitRel | server/srcs/cmds.cpp:785-814 | QUIT removes exactly the leaving socket, its attributes and its pairs |
| Refinement.KickRel | server/srcs/cmds.cpp:853-901 | KICK removes the one pair of its target if and only if its guards pass, and changes no other membership |
| Refinement.StepSimulates | server/srcs/IRCServer.cpp:341-387 | every event is a step of the abstract server, which is exact about password, nicknames, flags, operators, PASS, NICK, USER, OPER, QUIT, KILL (by an operator of somebody else, or nothing) and PART |
| Refinement.RunRefines | server/srcs/IRCServer.cpp:341-387 | every run is a run of the abstract server |
| Refinement.RunBounds | server/srcs/cmds.cpp:398-415 | in every reachable state no socket is in more than 11 channels, no channel has more than 11 members, no nickname more than 9 bytes |
| Privileges.PasswordAdmits | server/srcs/cmds.cpp:81-109 | with a server password, what a connection sends makes it pass if and only if it is a PASS with that password |
| Privileges.NoPasswordAdmitsAll | server/srcs/IRCServer.cpp:354-355 | without one the first line admits its sender |
| Privileges.OthersKeepAttributes | server/srcs/IRCServer.cpp:341-387 | no event changes nickname or flags of anybody but its own connection |
| Privileges.EveryoneGavePassword | server/srcs/cmds.cpp:99-108 | over all runs, with a server password, every connection that has passed or is logged in has itself sent a PASS with it since it connected |
| Privileges.LoginExactly | server/srcs/cmds.cpp:190-235 | the user flag is set by a USER of four parameters of a passed connection, the login by whichever of NICK and USER comes second, and by nothing else |
| Privileges.OperatorsFollowNick | server/srcs/cmds.cpp:178-181 | a NICK that goes through moves operator rights from the old nickname to the new; any other NICK, and that of a nameless user, leaves them |
| Privileges.OperatorsGainCaller | server/srcs/cmds.cpp:546-571 | OPER adds the caller's nickname if and only if it is logged in, names itself and gives the password |
| Privileges.OperatorsStay | server/srcs/IRCServer.cpp:341-387 | no other event touches the operators |
| Heard.StepIsHeard | server/srcs/IRCServer.cpp:341-387 | of every event every socket hears exactly what is due to it, in order: the lines written out, each refusal's code, to whom, under which guard |
| Heard.ChannelHears | server/srcs/IRCServer.cpp:319-339 | a message to a channel reaches each member but one exactly once and nobody else |
| Heard.JoinOneIsHeard | server/srcs/cmds.cpp:356-457 | one channel of JOIN: if the guards pass, everybody who is in the channel afterwards hears the JOIN line once, the newcomer too; otherwise the caller alone hears the refusal |
| Heard.JoinIsHeard | server/srcs/cmds.cpp:295-470 | JOIN: its channels in order up to the first refusal, then the names of all of them for the caller if none was refused |
| Heard.PartIsHeard | server/srcs/cmds.cpp:472-544 | PART: a 400 for each parameter that is no channel, then each channel's members, the caller too, hear the PART line |
| Heard.KickIsHeard | server/srcs/cmds.cpp:853-901 | KICK: the caller hears the refusal, or everybody in the channel, the target too, hears the KICK line once |
| Heard.QuitTold | server/srcs/cmds.cpp:785-814 | QUIT: each other connection hears the line, with the parameter or the nickname, once for each channel it shares with the leaver; the leaver hears its ERROR once |
| Heard.LostTold | server/srcs/IRCServer.cpp:91-99 | the same of a lost connection |
| Heard.KillTold | server/srcs/cmds.cpp:816-851 | a KILL that passes its guards: the note to the killer, the QUIT lines to those who share channels with the victim, the victim's ERROR |
| Heard.KillRefused | server/srcs/cmds.cpp:823-841 | a KILL whose guards fail, as by a user who is no operator, changes nothing but that the caller hears 461, 481 or 401 |
| Heard.NickIsHeard | server/srcs/cmds.cpp:125-203 | NICK: 431, 432 or 433 to the caller, or the note, as in RenameSeenOnce |
| Heard.PrivmsgIsHeard | server/srcs/cmds.cpp:3-66 | PRIVMSG: each leading target that exists, user or channel without the sender, hears the text; 401 for the first that does not; 411, 412 and 407 |
| Heard.NoticeIsHeard | server/srcs/cmds.cpp:248-293 | NOTICE: the same texts and no numeric |
| Heard.NamesIsHeard | server/srcs/cmds.cpp:674-724 | NAMES: a 353 for each channel that exists and a 366 for each, to the caller alone |
| Heard.OperIsHeard | server/srcs/cmds.cpp:546-571 | OPER: 461, 491, 464 or 381 to the caller alone |
| History.ChopIsCreator | server/srcs/cmds.cpp:444-446 | while the connection that created a channel stays open, the one chop entry is its present nickname, over all runs |
| History.OnlyCreatorKicks | server/srcs/cmds.cpp:872-883 | in that time whoever passes KICK's guards is the creator |
| History.StepKeepsKey | server/srcs/cmds.cpp:444-457 | no event changes a channel's key while the channel exists |
| History.KeyIsFixed | server/srcs/cmds.cpp:444-457 | over whole runs the key is the same in any two states between which the channel existed |
| History.EveryMemberWasAdmitted | server/srcs/cmds.cpp:356-415 | every member of a reachable state entered by its own JOIN, creating or not, which gave the channel's key at the channel's position (none for the empty key), and has been in since, under that key |
| History.StablePartition | server/srcs/cmds.cpp:320-348 | JOIN's split into channels and keys keeps order: each parameter is found at the number of its kind before it |
| Registration.WelcomedExactlyOnce | server/srcs/cmds.cpp:190-235 | from connecting on, a connection has been sent one 001 if it is logged in and none otherwise |
| Registration.StepFlags | server/srcs/User.cpp:11-21 | no flag of an open connection ever reverts, and a nickname is never given up |
| Deliveries.SentToJoinedOnce | server/srcs/IRCServer.cpp:289-317 | the one reply to each other user sharing a channel, nothing to the user itself or anyone else |
| Deliveries.RenameSeenOnce | server/srcs/cmds.cpp:183-203 | of a rename each connection it concerns hears the note, written out, exactly once, and the renamed one its welcome if it thereby logs in; nobody else hears anything |
| Deliveries.NoticeIsQuietPrivmsg | server/srcs/cmds.cpp:248-293 | NOTICE sends what PRIVMSG would without the numeric reply, nothing for a repeated target, else the text to the longest prefix of targets that resolve |
| Deliveries.NamesLineParses | server/srcs/cmds.cpp:463-469 | the NAMES line JOIN builds parses back to the command NAMES and exactly its channel list |
| Deliveries.NamesBodyReadsBack | server/srcs/cmds.cpp:702-712 | a 353 body split on spaces gives each member once, in ascending key order, with the right chop mark |
| Sweeping.SweepExactly | server/srcs/IRCServer.cpp:261-271 | which channels survive the sweep, in terms of the first two in key order |
| Sweeping.SweepCleansUnless | server/srcs/IRCServer.cpp:261-271 | the sweep leaves no empty channel if and only if the first two were not both empty |
| Leaving.EmptyChannelStays | server/srcs/IRCServer.cpp:261-271 | states from which a lost connection leaves an empty channel behind |
| Leaving.QuitterIsGone | server/srcs/cmds.cpp:785-814 | after QUIT the user is in no channel and not in the table, all others as before |
| Leaving.KilledIsGone | server/srcs/cmds.cpp:816-851 | the same of the target of a KILL that passes its guards |
| Leaving.LostIsGone | server/srcs/IRCServer.cpp:91-99 | the same of the node found when a connection is lost, which is its own if it has a nickname or is the only one without |
| Steps.KillLineIsQuit | server/srcs/cmds.cpp:844-850 | the line KILL builds parses to QUIT for every reason text |
| Steps.RemovableExactly | server/srcs/IRCServer.cpp:256-259 | when removing by nickname is bound to remove the user's own node |
| Messages.ParseIsNormalForm | server/srcs/Message.cpp:32-124 | printing a parsed message and parsing again gives the same message |
| Messages.ParseShape | server/srcs/Message.cpp:94-124 | no parameter has a colon; all but the last are non-empty and free of spaces and commas |
| Messages.Message.constructor | server/srcs/Message.cpp:15-58 | the class computes Parse |
| Messages.Message.ParseUtility | server/srcs/Message.cpp:94-124 | the word loop fills prefix, command and parameters as FromWords says |
| Messages.Message.SplitOn | server/srcs/Message.cpp:60-72 | the getline loop computes Split |
| Text.UpperIsCapital | server/srcs/utils.cpp:3-10 | upper-casing turns the 26 small letters into the capitals and leaves every other byte |
| Text.LessIsLexicographic | server/includes/IRCServer.hpp:58-60 | the key order of the maps is lexicographic by byte |
| Framing.ReceiveDelivers | server/srcs/IRCServer.cpp:131-198 | a call over which no CR LF is torn harmfully loses the connection only if the kernel fails; when the kernel keeps giving bytes it delivers the first line if that fits 511 bytes with its CR LF, raises after exactly 511 bytes without a line, and otherwise takes and keeps everything |
| Framing.DeliversIffWhole | server/srcs/IRCServer.cpp:131-198 | unless the kernel fails, a call that returns, stops on EAGAIN or raises is right if and only if no CR LF was torn harmfully |
| Framing.TornLinesMerge | server/srcs/IRCServer.cpp:159-163 | chunkings for which two lines come out as one |
| Framing.SessionReadsLines | server/srcs/IRCServer.cpp:131-198 | over any number of calls the lines returned are the CR LF lines of the bytes consumed and the leftover buffer is the rest; after a closed session they are still the first lines of the stream |
| Framing.SessionReadsAll | server/srcs/IRCServer.cpp:131-198 | when the kernel keeps giving bytes, enough calls return every line before the first that does not fit; then the rest is held, or the session has raised because it is too long |
| Framing.SendConserves | server/srcs/IRCServer.cpp:217-234 | the framed buffer goes out in order, each byte once; on EAGAIN wire and stored rest make it up; a kernel that takes bytes on every call sees all of it sent, and only a failing one breaks it off |
| Framing.FrameEndsInCrlf | server/srcs/IRCServer.cpp:215-216 | the framed buffer ends in CR LF for every length but 1 |
| Framing.SentLineIsReceived | bot/Client.cpp:154-216 | between two kernels that keep handling bytes and tear no CR LF, a line is sent whole by `_send` and `_recv` returns it as it was |
| Relay.RelayArrives | server/srcs/cmds.cpp:43-57 | a relayed PRIVMSG that fits is sent and received; it arrives as sent if and only if no CR LF was spliced into its text, and then parses to prefix, PRIVMSG, target and text |
| Relay.SplicingIsPrivmsg | server/srcs/Message.cpp:46-51 | lines any logged-in user may send that are clean and still splice a CR LF into the text |
| Relay.SplicingExample | server/srcs/Message.cpp:46-51 | the line `PRIVMSG x :a\r:\nb` is one of them |
| Relay.SplicingIsCut | server/srcs/cmds.cpp:43-57 | what the bot gets of such a line's relay is cut at the spliced CR LF |
| Relay.RelayedLine | bot/Client.cpp:77-87 | every line a PRIVMSG event sends is such a relay, and parses so at the bot |
| Relay.DropJoins | server/srcs/Message.cpp:46-51 | when joining the colon-separated pieces of a text makes a CR LF |
| Entities.User.Copy | server/srcs/User.cpp:11-21 | the copy keeps flags, nickname and socket, and drops the buffers |
| Entities.Channel.AddUser | server/srcs/Channel.cpp:10-20 | adds the member unless the limit is exceeded or the key is there |
| Entities.Channel.RemoveUser | server/srcs/Channel.cpp:58-63 | erases the member entry |
| Entities.Channel.RemoveChop | server/srcs/Channel.cpp:65-77 | erases the first chop entry of the nickname |
| Entities.Channel.HasChop | server/srcs/Channel.cpp:79-90 | finds a chop entry |
| Server.IRCServer.Execute | server/srcs/IRCServer.cpp:341-387 | a line from a socket changes the objects exactly as the state machine says, and whatever the tables hold beyond what they held is newly allocated |
| Server.IRCServer.Serve | server/srcs/IRCServer.cpp:68-110 | the loop over events: whatever it does to the objects is a run of the state machine from the initial state |
| Server.IRCServer.MembersAreLive | server/srcs/IRCServer.cpp:341-387 | with the invariant of runs: every member entry of every channel object is a reference to a live, logged-in node of the table whose nickname is the entry's key; keys are nicknames, unique when not empty; at most 11 members and one chop entry a channel |
| Server.IRCServer.Accept | server/srcs/IRCServer.cpp:274-281 | a connection adds a fresh node |
| Server.IRCServer.Disconnect | server/srcs/IRCServer.cpp:91-99 | a lost connection quits, and the tables only lose objects; who hears of it is Heard.LostTold, who goes Leaving.LostIsGone |
| Server.IRCServer.Rename | server/srcs/cmds.cpp:151-181 | the table, the channels and the operators after NICK; every member reference leads to a live node again; the function of Privileges.OperatorsFollowNick and Refinement.RenameKeepsRel |
| Server.IRCServer.ReplaceNode | server/srcs/cmds.cpp:154-159 | the node is replaced by a copy under the new key |
| Server.IRCServer.RenameChannels | server/srcs/cmds.cpp:163-177 | every channel re-keyed, its references to the old node replaced |
| Server.IRCServer.RemoveUser | server/srcs/IRCServer.cpp:248-272 | out of the channels and the table, then the sweep |
| Server.IRCServer.SweepChannels | server/srcs/IRCServer.cpp:261-271 | the erase-and-restart loop terminates and leaves exactly the survivors |
| Server.IRCServer.SendToJoinedChannels | server/srcs/IRCServer.cpp:289-317 | the two loops with alreadySent |
| Server.IRCServer.SendToChannel | server/srcs/IRCServer.cpp:319-339 | one copy to each member but one |
| Server.IRCServer.Join | server/srcs/cmds.cpp:295-470 | JOIN in place is Model.Join: the function of Refinement.JoinRel, Heard.JoinIsHeard and History.EveryMemberWasAdmitted |
| Server.IRCServer.Part | server/srcs/cmds.cpp:472-544 | PART in place is Model.Part: the function of Refinement.PartRel and Heard.PartIsHeard |
| Server.IRCServer.Kick | server/srcs/cmds.cpp:853-901 | KICK in place is Model.Kick: the function of Refinement.KickRel, Heard.KickIsHeard and History.OnlyCreatorKicks |
| Server.IRCServer.Quit | server/srcs/cmds.cpp:785-814 | QUIT in place is Model.Quit: the function of Refinement.QuitRel, Heard.QuitTold and Leaving.QuitterIsGone |
| Server.IRCServer.Kill | server/srcs/cmds.cpp:816-851 | KILL in place, its QUIT line parsed, is Model.Kill: the function of Heard.KillRefused, Heard.KillTold and Leaving.KilledIsGone |
| Server.IRCServer.Privmsg | server/srcs/cmds.cpp:3-66 | PRIVMSG in place is Model.Privmsg: the function of Heard.PrivmsgIsHeard and Relay.RelayedLine |
| Server.IRCServer.Notice | server/srcs/cmds.cpp:248-293 | NOTICE in place is Model.Notice: the function of Heard.NoticeIsHeard and Deliveries.NoticeIsQuietPrivmsg |
| Server.IRCServer.Names | server/srcs/cmds.cpp:674-724 | the loops of NAMES log Model.Names: the function of Heard.NamesIsHeard, its bodies read back by Deliveries.NamesBodyReadsBack |
| Server.IRCServer.Pass | server/srcs/cmds.cpp:81-109 | PASS in place is Model.Pass: the function of Privileges.PasswordAdmits and Privileges.EveryoneGavePassword |
| Server.IRCServer.Nick | server/srcs/cmds.cpp:125-203 | NICK in place is Model.Nick, every member reference leading to a live node again: the function of Refinement.RenameKeepsRel, Privileges.OperatorsFollowNick and Heard.NickIsHeard |
| Server.IRCServer.UserCommand | server/srcs/cmds.cpp:205-236 | USER in place is Model.User: the function of Privileges.LoginExactly and Registration.WelcomedExactlyOnce |
| Server.IRCServer.Oper | server/srcs/cmds.cpp:546-571 | OPER in place is Model.Oper: the function of Privileges.OperatorsGainCaller and Heard.OperIsHeard |
| Server.IRCServer.IsCorrectNick | server/srcs/cmds.cpp:111-123 | decides the nickname grammar |
| Sockets.ReceiveLine | server/srcs/IRCServer.cpp:131-198 | the loops of `_recv` compute Receive |
| Sockets.ReceiveFrom | server/srcs/IRCServer.cpp:188-198 | `_recv` of the server, the bytes held being the user's buffer |
| Sockets.SendTo | server/srcs/IRCServer.cpp:200-235 | the loop of `_send`, and what it stores on EAGAIN |
| Sockets.Client.Read | bot/Client.cpp:154-216 | the bot's receiving loop and parse |

## Left out

- Socket set-up, select, fd sets, signals and `_stop`: operating-system plumbing.
- Console output and the exact texts of numeric replies: logged as code and arguments; lines
  that are parsed again are literal strings.
- CAP, PING, LIST, TOPIC and INVITE: they only reply or set a topic; the model does nothing on
  them, and channels have no topic.
- The choice between nodes with equal keys: the users are a map from node to key, so the order
  of the multimap is not modelled; the proofs hold for every order of its loops.
- Steps.RunKeepsInv: runs have no accept on a socket number that a node still has, which can
  happen after a lost nameless connection took another's node with it; a user is known by its
  socket here, and two nodes of one socket have no place in the model.
- Server.IRCServer.Execute: chooses the handler by the command where the source tries each
  handler in turn and each tests the command itself; at most one test can succeed.
- Server.IRCServer.Send: logs a message for a live socket; the bytes on the wire are the
  framing part's, and the two are joined in `Relay.dfy`.
- Sending again from the send buffer in `start`: only a single call of `_send` is modelled.
- Calls of `_recv` that return false: the server executes their partial text, which is one of
  the lines the state machine is proved for.
- Sockets.Client.Read: the PONG the bot sends on reading PING, its keyword answers and pictures.
- client/Client.cpp: the terminal client.
