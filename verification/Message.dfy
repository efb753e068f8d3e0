/** The message parser (server/srcs/Message.cpp), shared by server and bot: what it
    computes as a function of the line, and the class that fills its fields in loops. */
module Messages {
  import opened Text

  /** What the getters of a parsed Message return. */
  datatype Msg = Msg(prefix: string, command: string, params: seq<string>)

  /** The non-empty pieces of s between occurrences of d. */
  function Split(s: string, d: char): seq<string> {
    if s == "" then []
    else
      var i := IndexOf(s, d);
      Push(s[..i], if i == |s| then [] else Split(s[i + 1..], d))
  }

  function Push(piece: string, rest: seq<string>): seq<string> {
    if piece == "" then rest else [piece] + rest
  }

  function Concat(pieces: seq<string>): string {
    if pieces == [] then "" else Concat(pieces[..|pieces| - 1]) + pieces[|pieces| - 1]
  }

  /** One word of the middle part: split on commas if it has any. */
  function Commas(word: string): seq<string> {
    if ',' in word then Split(word, ',') else [word]
  }

  function Flatten(words: seq<string>): seq<string> {
    if words == [] then [] else Flatten(words[..|words| - 1]) + Commas(words[|words| - 1])
  }

  /** Prefix, command and parameters from the words before the text. */
  function FromWords(words: seq<string>, hasPrefix: bool, nick: string): Msg {
    var k := if hasPrefix then 1 else 0;
    Msg(if hasPrefix && words != [] then words[0] else nick,
        if |words| > k then words[k] else "",
        if |words| > k + 1 then Flatten(words[k + 1..]) else [])
  }

  /** False exactly on the lines for which the parser reads past an empty vector:
      those made of colons only. */
  predicate Parsable(line: string) {
    line == "" || exists c :: c in line && c != ':'
  }

  predicate HasPrefix(line: string) {
    line != "" && line[0] == ':'
  }

  function Parse(line: string, nick: string): Msg
    requires Parsable(line)
  {
    if ':' in line then
      var parts := Split(line, ':');
      SplitFindsPiece(line, ':');
      var m := FromWords(Split(parts[0], ' '), HasPrefix(line), nick);
      m.(params := m.params + [Concat(parts[1..])])
    else
      FromWords(Split(line, ' '), HasPrefix(line), nick)
  }

  /** How the message grows when the word loop takes word number i. */
  function Extend(m: Msg, i: nat, hasPrefix: bool, word: string): Msg {
    var k := if hasPrefix then 1 else 0;
    if i < k then m.(prefix := word)
    else if i == k then m.(command := word)
    else m.(params := m.params + Commas(word))
  }

  lemma FromWordsStep(words: seq<string>, i: nat, hasPrefix: bool, nick: string)
    requires i < |words|
    ensures FromWords(words[..i + 1], hasPrefix, nick)
         == Extend(FromWords(words[..i], hasPrefix, nick), i, hasPrefix, words[i])
  {
    var k := if hasPrefix then 1 else 0;
    if i > k {
      assert words[..i + 1][k + 1..][..i - k - 1] == words[..i][k + 1..];
      assert i == k + 1 ==> Flatten(words[..i][k + 1..]) == [];
    }
  }

  // ---- Splitting --------------------------------------------------------------

  lemma IndexOfIs(s: string, d: char, i: nat)
    requires i <= |s| && (forall j :: 0 <= j < i ==> s[j] != d) && (i < |s| ==> s[i] == d)
    ensures IndexOf(s, d) == i
  {
  }

  lemma PushAssociates(done: seq<string>, piece: string, later: seq<string>)
    ensures done + Push(piece, later) == (if piece == "" then done else done + [piece]) + later
  {
  }

  /** A piece is never empty and takes its bytes from s, never d. */
  predicate IsPiece(p: string, s: string, d: char) {
    p != "" && d !in p && forall c :: c in p ==> c in s
  }

  predicate ArePieces(ps: seq<string>, s: string, d: char) {
    forall i :: 0 <= i < |ps| ==> IsPiece(ps[i], s, d)
  }

  lemma {:induction false} SplitPieces(s: string, d: char)
    ensures ArePieces(Split(s, d), s, d)
  {
    if s != "" {
      var i := IndexOf(s, d);
      if i < |s| {
        SplitPieces(s[i + 1..], d);
        PiecesOfRest(s, d, i, Split(s[i + 1..], d));
      }
      assert i > 0 ==> IsPiece(s[..i], s, d);
    }
  }

  lemma PiecesOfRest(s: string, d: char, i: nat, ps: seq<string>)
    requires i < |s| && ArePieces(ps, s[i + 1..], d)
    ensures ArePieces(ps, s, d)
  {
    forall j | 0 <= j < |ps| ensures IsPiece(ps[j], s, d) {
      assert IsPiece(ps[j], s[i + 1..], d);
    }
  }

  lemma {:induction false} SplitFindsPiece(s: string, d: char)
    requires exists c :: c in s && c != d
    ensures Split(s, d) != []
  {
    var i := IndexOf(s, d);
    if i == 0 {
      assert s == [s[0]] + s[1..];
      SplitFindsPiece(s[1..], d);
    }
  }

  lemma SplitOne(w: string, d: char)
    requires d !in w
    ensures Split(w, d) == if w == "" then [] else [w]
  {
    IndexOfIs(w, d, |w|);
    assert w[..|w|] == w;
  }

  /** Splitting distributes over concatenation at a separator. */
  lemma {:induction false} SplitAt(a: string, d: char, b: string)
    ensures Split(a + [d] + b, d) == Split(a, d) + Split(b, d)
  {
    var i := IndexOf(a, d);
    if i == |a| {
      SplitAfter(a, d, b);
    } else {
      SplitAt(a[i + 1..], d, b);
      SplitUnfold(a, d, i);
      JoinIndex(a, d, b);
      JoinSlices(a, d, b, i);
      SplitUnfold(a + [d] + b, d, i);
      PushFirst(a[..i], Split(a[i + 1..], d), Split(b, d));
    }
  }

  lemma SplitUnfold(s: string, d: char, i: nat)
    requires i < |s| && i == IndexOf(s, d)
    ensures Split(s, d) == Push(s[..i], Split(s[i + 1..], d))
  {
  }

  lemma PushFirst(piece: string, rest: seq<string>, more: seq<string>)
    ensures Push(piece, rest) + more == Push(piece, rest + more)
  {
  }

  lemma JoinSlices(a: string, d: char, b: string, i: nat)
    requires i < |a|
    ensures (a + [d] + b)[..i] == a[..i]
    ensures (a + [d] + b)[i + 1..] == a[i + 1..] + [d] + b
  {
  }

  lemma JoinIndex(a: string, d: char, b: string)
    ensures IndexOf(a + [d] + b, d) == IndexOf(a, d)
  {
    var i := IndexOf(a, d);
    assert (a + [d] + b)[..i] == a[..i];
    IndexOfIs(a + [d] + b, d, i);
  }

  lemma SplitAfter(a: string, d: char, b: string)
    requires IndexOf(a, d) == |a|
    ensures Split(a + [d] + b, d) == Split(a, d) + Split(b, d)
  {
    JoinIndex(a, d, b);
    assert (a + [d] + b)[..|a|] == a && (a + [d] + b)[|a| + 1..] == b && a[..|a|] == a;
    PushFirst(a, [], Split(b, d));
  }

  lemma SplitWord(w: string, d: char, tail: string)
    requires w != "" && d !in w
    ensures Split(w + [d] + tail, d) == [w] + Split(tail, d)
  {
    SplitAt(w, d, tail);
    SplitOne(w, d);
  }

  lemma Regroup<T>(a: seq<T>, b: seq<T>, c: seq<T>, d: seq<T>)
    ensures a + b + c + d == a + (b + c + d)
  {
  }

  lemma RegroupThree<T>(a: seq<T>, b: seq<T>, c: seq<T>)
    ensures a + b + c == a + (b + c)
  {
  }

  lemma RegroupLast<T>(s: seq<T>, d: seq<T>)
    requires s != []
    ensures s + d == s[..|s| - 1] + ([s[|s| - 1]] + d)
  {
  }

  lemma {:induction false} ConcatHasNone(pieces: seq<string>, d: char)
    requires forall i :: 0 <= i < |pieces| ==> d !in pieces[i]
    ensures d !in Concat(pieces)
  {
    if pieces != [] {
      ConcatHasNone(pieces[..|pieces| - 1], d);
    }
  }

  /** Dropping the empty pieces and the separators is all that splitting loses. */
  lemma {:induction false} ConcatOne(w: string)
    ensures Concat(if w == "" then [] else [w]) == w
  {
    if w != "" {
      assert [w][..0] == [];
      assert Concat([w]) == Concat([]) + w;
    }
  }

  // ---- What a parsed message looks like --------------------------------------

  /** A word the parser never breaks at a space or a colon. */
  predicate Bare(w: string) {
    w != "" && ' ' !in w && ':' !in w
  }

  predicate AllBare(words: seq<string>) {
    forall i :: 0 <= i < |words| ==> Bare(words[i])
  }

  predicate MiddleParam(w: string) {
    Bare(w) && ',' !in w
  }

  predicate AllMiddle(words: seq<string>) {
    forall i :: 0 <= i < |words| ==> MiddleParam(words[i])
  }

  predicate ColonFree(words: seq<string>) {
    forall i :: 0 <= i < |words| ==> ':' !in words[i]
  }

  predicate Shaped(m: Msg) {
    && (m.prefix == "" || Bare(m.prefix))
    && (m.command == "" || Bare(m.command))
    && ColonFree(m.params)
    && (m.params != [] ==> AllMiddle(m.params[..|m.params| - 1]))
  }

  lemma {:induction false} FlattenIsMiddle(words: seq<string>)
    requires AllBare(words)
    ensures AllMiddle(Flatten(words))
  {
    if words != [] {
      FlattenIsMiddle(words[..|words| - 1]);
      var last := words[|words| - 1];
      SplitPieces(last, ',');
      assert AllMiddle(Commas(last));
    }
  }

  lemma SplitIsBare(s: string)
    requires ':' !in s
    ensures AllBare(Split(s, ' '))
  {
    SplitPieces(s, ' ');
  }

  lemma SplitIsColonFree(s: string)
    ensures ColonFree(Split(s, ':'))
  {
    SplitPieces(s, ':');
  }

  lemma FromWordsShape(words: seq<string>, hasPrefix: bool, nick: string)
    requires AllBare(words)
    requires nick == "" || Bare(nick)
    ensures var m := FromWords(words, hasPrefix, nick);
            && (m.prefix == "" || Bare(m.prefix))
            && (m.command == "" || Bare(m.command))
            && (nick != "" || (hasPrefix && m.command != "") ==> m.prefix != "")
            && AllMiddle(m.params)
  {
    var k := if hasPrefix then 1 else 0;
    if |words| > k + 1 {
      FlattenIsMiddle(words[k + 1..]);
    }
  }

  /** No parameter of a parsed message contains a colon, and every parameter but the
      last is non-empty and free of spaces and commas; prefix and command are words. */
  lemma ParseShape(line: string, nick: string)
    requires Parsable(line)
    requires nick == "" || Bare(nick)
    ensures Shaped(Parse(line, nick))
    ensures nick != "" ==> Parse(line, nick).prefix != ""
  {
    if ':' in line {
      var parts := Split(line, ':');
      SplitFindsPiece(line, ':');
      SplitIsColonFree(line);
      SplitIsBare(parts[0]);
      var m := FromWords(Split(parts[0], ' '), HasPrefix(line), nick);
      FromWordsShape(Split(parts[0], ' '), HasPrefix(line), nick);
      ConcatHasNone(parts[1..], ':');
      assert (m.params + [Concat(parts[1..])])[..|m.params|] == m.params;
    } else {
      SplitIsBare(line);
      FromWordsShape(Split(line, ' '), HasPrefix(line), nick);
    }
  }

  // ---- Printing, and parsing what was printed --------------------------------

  function Spaced(words: seq<string>): string {
    if words == [] then "" else words[0] + " " + Spaced(words[1..])
  }

  /** ":w0 w1 .. :text" */
  function PrintLine(words: seq<string>, text: string): string {
    ":" + Spaced(words) + ":" + text
  }

  /** ":prefix command p0 .. :last" */
  function Print(m: Msg): string
    requires m.params != []
  {
    var n := |m.params| - 1;
    PrintLine([m.prefix, m.command] + m.params[..n], m.params[n])
  }

  lemma SpacedTwo(a: string, b: string)
    ensures Spaced([a, b]) == a + " " + b + " "
  {
    assert [a, b][1..] == [b] && [b][1..] == [];
    assert Spaced([b]) == b + " ";
  }

  lemma SpacedThree(a: string, b: string, c: string)
    ensures Spaced([a, b, c]) == a + " " + b + " " + c + " "
  {
    assert [a, b, c][1..] == [b, c];
    SpacedTwo(b, c);
  }

  lemma {:induction false} SpacedHasNoColon(words: seq<string>)
    requires AllBare(words)
    ensures ':' !in Spaced(words)
    ensures words != [] ==> Spaced(words) != ""
  {
    if words != [] {
      SpacedHasNoColon(words[1..]);
      assert ':' !in words[0] by { assert Bare(words[0]); }
    }
  }

  lemma {:induction false} SplitSpaced(words: seq<string>)
    requires AllBare(words)
    ensures Split(Spaced(words), ' ') == words
  {
    if words != [] {
      var rest := Spaced(words[1..]);
      SplitSpaced(words[1..]);
      assert Bare(words[0]);
      assert Spaced(words) == words[0] + [' '] + rest;
      SplitAt(words[0], ' ', rest);
      SplitOne(words[0], ' ');
      assert words == [words[0]] + words[1..];
    }
  }

  lemma SplitPrinted(words: seq<string>, text: string)
    requires words != [] && AllBare(words)
    ensures Split(PrintLine(words, text), ':') == [Spaced(words)] + Split(text, ':')
  {
    var head := Spaced(words);
    SpacedHasNoColon(words);
    assert PrintLine(words, text) == "" + [':'] + (head + [':'] + text);
    SplitAt("", ':', head + [':'] + text);
    SplitAt(head, ':', text);
    SplitOne(head, ':');
  }

  lemma PrintedIsParsable(words: seq<string>, text: string)
    requires words != [] && AllBare(words)
    ensures Parsable(PrintLine(words, text)) && HasPrefix(PrintLine(words, text))
  {
    var line := PrintLine(words, text);
    assert Bare(words[0]);
    assert line[1] == words[0][0] && words[0][0] in words[0] && line[1] in line;
  }

  /** Any line the server builds as prefix, command, bare words and a text parses back
      to those words, whatever the text is. */
  lemma ParsePrinted(words: seq<string>, text: string, nick: string)
    requires |words| >= 2 && AllBare(words)
    ensures Parsable(PrintLine(words, text))
    ensures Parse(PrintLine(words, text), nick)
         == Msg(words[0], words[1], Flatten(words[2..]) + [Concat(Split(text, ':'))])
  {
    var line, parts := PrintLine(words, text), Split(text, ':');
    PrintedIsParsable(words, text);
    SplitPrinted(words, text);
    SplitSpaced(words);
    assert ([Spaced(words)] + parts)[1..] == parts;
    assert line[0] == ':' && line[0] in line;
    assert |words| == 2 ==> Flatten(words[2..]) == [];
  }

  lemma ParsePrintedText(words: seq<string>, text: string, nick: string)
    requires |words| == 2 && AllBare(words) && ':' !in text
    ensures Parsable(PrintLine(words, text))
    ensures Parse(PrintLine(words, text), nick) == Msg(words[0], words[1], [text])
  {
    ParsePrinted(words, text, nick);
    SplitOne(text, ':');
    ConcatOne(text);
    assert words[2..] == [];
  }

  lemma FlattenOne(word: string)
    ensures Flatten([word]) == Commas(word)
  {
    assert [word][..0] == [];
    assert Flatten([word]) == Flatten([word][..0]) + Commas(word);
  }

  lemma FromTwoWords(command: string, word: string, nick: string)
    ensures FromWords([command, word], false, nick) == Msg(nick, command, Commas(word))
  {
    assert [command, word][1..] == [word];
    FlattenOne(word);
  }

  lemma {:induction false} FlattenMiddle(words: seq<string>)
    requires forall i :: 0 <= i < |words| ==> ',' !in words[i]
    ensures Flatten(words) == words
  {
    if words != [] {
      FlattenMiddle(words[..|words| - 1]);
    }
  }

  /** Parsing is a normal form: printing a parsed message and parsing again gives the
      same message, whoever the second reader is. */
  lemma ParseIsNormalForm(line: string, nick: string, reader: string)
    requires Parsable(line) && (nick == "" || Bare(nick))
    requires Printable(Parse(line, nick))
    ensures Parsable(Print(Parse(line, nick))) && Parse(Print(Parse(line, nick)), reader) == Parse(line, nick)
  {
    ParseShape(line, nick);
    ParsePrint(Parse(line, nick), reader);
  }

  predicate Printable(m: Msg) {
    m.prefix != "" && m.command != "" && m.params != []
  }

  lemma ParsePrint(m: Msg, reader: string)
    requires Shaped(m) && Printable(m)
    ensures Parsable(Print(m)) && Parse(Print(m), reader) == m
  {
    var n := |m.params| - 1;
    assert ':' !in m.params[n];
    ParsePrintedMessage(m.prefix, m.command, m.params[..n], m.params[n], reader);
    RegroupLast(m.params, []);
  }

  lemma ParsePrintedMessage(prefix: string, command: string, middle: seq<string>, text: string, reader: string)
    requires Bare(prefix) && Bare(command) && AllMiddle(middle) && ':' !in text
    ensures Parsable(PrintLine([prefix, command] + middle, text))
    ensures Parse(PrintLine([prefix, command] + middle, text), reader) == Msg(prefix, command, middle + [text])
  {
    var words := [prefix, command] + middle;
    assert AllBare(words) by {
      forall i | 0 <= i < |words| ensures Bare(words[i]) {
        if i >= 2 {
          assert MiddleParam(middle[i - 2]);
        }
      }
    }
    ParsePrinted(words, text, reader);
    assert words[2..] == middle;
    forall i | 0 <= i < |middle| ensures ',' !in middle[i] {
      assert MiddleParam(middle[i]);
    }
    FlattenMiddle(middle);
    SplitOne(text, ':');
    ConcatOne(text);
  }

  /** "command :text" without a prefix. */
  lemma ParseUnprefixed(command: string, text: string, nick: string)
    requires Bare(command) && ':' !in text
    ensures Parsable(command + " " + ":" + text)
    ensures Parse(command + " " + ":" + text, nick) == Msg(nick, command, [text])
  {
    var line, parts := command + " " + ":" + text, Split(text, ':');
    assert line[0] == command[0] && command[0] in command && line[0] in line;
    assert line[|command| + 1] == ':' && line[|command| + 1] in line;
    SplitUnprefixed(command, text);
    assert ([command + " "] + parts)[1..] == parts;
    SplitOne(text, ':');
    ConcatOne(text);
  }

  lemma SplitUnprefixed(command: string, text: string)
    requires Bare(command)
    ensures Split(command + " " + ":" + text, ':') == [command + " "] + Split(text, ':')
    ensures Split(command + " ", ' ') == [command]
  {
    assert command + " " + ":" + text == command + " " + [':'] + text;
    SplitWord(command + " ", ':', text);
    SplitSpace(command);
  }

  lemma SplitSpace(word: string)
    requires word != "" && ' ' !in word
    ensures Split(word + " ", ' ') == [word]
  {
    assert word + " " == word + [' '] + "";
    SplitWord(word, ' ', "");
    assert Split("", ' ') == [];
  }

  // ---- The class --------------------------------------------------------------

  class Message {
    var prefix: string
    var parameters: seq<string>
    var command: string
    var isPrefix: bool
    var isCommand: bool

    ghost function View(): Msg
      reads this
    {
      Msg(prefix, command, parameters)
    }

    constructor (line: string, nick: string)
      requires Parsable(line)
      ensures View() == Parse(line, nick)
    {
      prefix, parameters, command := "", [], "";
      isPrefix, isCommand := false, false;
      new;
      ParseText(line, nick);
    }

    static method SplitOn(str: string, delimiter: char) returns (result: seq<string>)
      ensures result == Split(str, delimiter)
    {
      result := [];
      var rest := str;
      while rest != ""
        invariant result + Split(rest, delimiter) == Split(str, delimiter)
        decreases |rest|
      {
        var i := IndexOf(rest, delimiter);
        var piece := rest[..i];
        ghost var later := if i == |rest| then [] else Split(rest[i + 1..], delimiter);
        PushAssociates(result, piece, later);
        rest := if i == |rest| then "" else rest[i + 1..];
        if piece != "" {
          result := result + [piece];
        }
      }
    }

    static method Check(str: string, c: char) returns (found: bool)
      ensures found <==> c in str
    {
      for i := 0 to |str|
        invariant c !in str[..i]
      {
        if str[i] == c {
          return true;
        }
        assert str[..i + 1] == str[..i] + [str[i]];
      }
      return false;
    }

    method ParseText(line: string, nick: string)
      requires Parsable(line)
      requires parameters == [] && command == "" && !isPrefix && !isCommand
      modifies this
      ensures View() == Parse(line, nick)
    {
      prefix := nick;
      if line != "" && line[0] == ':' {
        isPrefix := true;
      }
      var hasColon := Check(line, ':');
      if hasColon {
        var byColon := SplitOn(line, ':');
        SplitFindsPiece(line, ':');
        var text := "";
        for i := 1 to |byColon|
          invariant text == Concat(byColon[1..i])
          invariant unchanged(this) || prefix == nick
        {
          text := text + byColon[i];
          assert byColon[1..i + 1][..i - 1] == byColon[1..i];
        }
        assert byColon[1..|byColon|] == byColon[1..];
        var bySpace := SplitOn(byColon[0], ' ');
        ParseUtility(bySpace);
        parameters := parameters + [text];
      } else {
        var bySpace := SplitOn(line, ' ');
        ParseUtility(bySpace);
      }
    }

    method ParseUtility(words: seq<string>)
      requires parameters == [] && command == "" && !isCommand
      modifies this
      ensures View() == FromWords(words, old(isPrefix), old(prefix))
    {
      for i := 0 to |words|
        invariant isPrefix == old(isPrefix)
        invariant View() == FromWords(words[..i], isPrefix, old(prefix))
        invariant isCommand <==> i > if isPrefix then 1 else 0
      {
        FromWordsStep(words, i, isPrefix, old(prefix));
        if isPrefix && i == 0 {
          prefix := words[i];
        } else if !isCommand {
          command := words[i];
          isCommand := true;
        } else {
          PushParameter(words[i]);
        }
      }
      assert words[..|words|] == words;
    }

    /** The body of the word loop for a word after the command. */
    method PushParameter(word: string)
      modifies this`parameters
      ensures parameters == old(parameters) + Commas(word)
    {
      var hasComma := Check(word, ',');
      if hasComma {
        var byComma := SplitOn(word, ',');
        for j := 0 to |byComma|
          invariant parameters == old(parameters) + byComma[..j]
        {
          parameters := parameters + [byComma[j]];
        }
        assert byComma[..|byComma|] == byComma;
      } else {
        parameters := parameters + [word];
      }
    }
  }
}
