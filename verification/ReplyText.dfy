/** The text of a reply (src/common/ctrl_msg.hpp): an address, a port and a name, found again by a
    search for the regular expression `(?: )(\S+)`, a space and then a word. */
module ReplyText {
  import opened Types
  import opened Progressions
  import opened Search
  import opened Decimals
  import opened RexmitText

  const REPLY_KEY := "BOREWICZ_HERE "

  datatype Reply = Reply(name: string, addr: string, port: nat)

  predicate NoSpace(s: string) {
    AllFit(SpaceWord, s)
  }

  /** The length of the word a string starts with. */
  function WordRun(s: string): nat {
    Run(SpaceWord, s)
  }

  /** The next word, and the text after it. */
  function NextWord(s: string): (r: Option<(string, string)>)
    ensures r.Some? ==> |r.value.1| < |s|
  {
    Next(SpaceWord, s)
  }

  /** A name, and the words still to come, each after a space. */
  function ReadName(name: string, s: string): string
    decreases |s|
  {
    match NextWord(s)
    case None => name
    case Some((word, rest)) => ReadName(name + " " + word, rest)
  }

  predicate IsReply(text: string) {
    REPLY_KEY <= text
  }

  /** The name is the rest of the words. Where a word is missing the source reads past the last match. */
  function NameData(addr: string, port: nat, s: string): Result<Reply, CtrlError> {
    match NextWord(s)
    case None => Err(MissingWord)
    case Some((word, rest)) => Ok(Reply(ReadName(word, rest), addr, port))
  }

  /** The port is cut to 16 bits. */
  function PortData(addr: string, s: string): Result<Reply, CtrlError> {
    match NextWord(s)
    case None => Err(MissingWord)
    case Some((number, rest)) =>
      match Stoul(number)
      case None => Err(NotANumber)
      case Some(port) => NameData(addr, port % 0x1_0000, rest)
  }

  function ReplyData(text: string): Result<Reply, CtrlError> {
    if !IsReply(text) then Err(WrongKind)
    else
      match NextWord(text)
      case None => Err(MissingWord)
      case Some((addr, rest)) => PortData(addr, rest)
  }

  function ReplyTextOf(name: string, addr: string, port: nat): string {
    REPLY_KEY + addr + " " + Print(port) + (" " + name + "\n")
  }

  // ---------- Names ----------

  /** The characters the README allows in a message. */
  predicate Printable(s: string) {
    forall k :: 0 <= k < |s| ==> 32 as char <= s[k] <= 127 as char
  }

  predicate AllWords(words: seq<string>) {
    forall k :: 0 <= k < |words| ==> words[k] != [] && NoSpace(words[k])
  }

  /** The words of a name: its longest pieces without spaces. */
  function Words(name: string): (words: seq<string>)
    ensures AllWords(words)
    decreases |name|
  {
    if name == [] then []
    else if IsSpace(name[0]) then Words(name[1..])
    else [name[..WordRun(name)]] + Words(name[WordRun(name)..])
  }

  /** Words with one space between each two. */
  function Joined(words: seq<string>): string {
    if words == [] then "" else words[0] + SpaceEach(words[1..])
  }

  /** Words with a space before each. */
  function SpaceEach(words: seq<string>): string {
    if words == [] then "" else " " + words[0] + SpaceEach(words[1..])
  }

  /** Runs of spaces collapsed, and none at the ends. */
  function Normalised(name: string): string {
    Joined(Words(name))
  }

  /** No space at the ends, and never two together. */
  predicate SingleSpaced(name: string) {
    && (name != [] ==> name[0] != ' ' && name[|name| - 1] != ' ')
    && forall i :: 0 <= i < |name| - 1 ==> name[i] != ' ' || name[i + 1] != ' '
  }

  lemma SpaceEachOf(words: seq<string>)
    requires words != []
    ensures SpaceEach(words) == " " + Joined(words)
  {
    Assoc(" ", words[0], SpaceEach(words[1..]));
  }

  /** A name has no words exactly if it is all spaces. */
  lemma {:induction false} NoWords(name: string)
    ensures Words(name) == [] <==> forall c :: c in name ==> IsSpace(c)
  {
    if name != [] && IsSpace(name[0]) {
      NoWords(name[1..]);
      assert forall c :: c in name <==> c == name[0] || c in name[1..];
    }
  }

  lemma WordsOfWord(word: string, rest: string)
    requires word != [] && NoSpace(word) && (rest != [] ==> IsSpace(rest[0]))
    ensures Words(word + rest) == [word] + Words(rest)
  {
    RunOf(SpaceWord, word, rest);
    var s := word + rest;
    assert !IsSpace(s[0]) && s[..|word|] == word && s[|word|..] == rest;
  }

  lemma {:induction false} WordsOfSpaceEach(words: seq<string>)
    requires AllWords(words)
    ensures Words(SpaceEach(words)) == words
  {
    if words != [] {
      WordsOfSpaceEach(words[1..]);
      WordsOfNext(words[0], SpaceEach(words[1..]));
      assert [words[0]] + words[1..] == words;
    }
  }

  lemma WordsOfNext(word: string, rest: string)
    requires word != [] && NoSpace(word) && (rest != [] ==> IsSpace(rest[0]))
    ensures Words(" " + word + rest) == [word] + Words(rest)
  {
    assert (" " + word + rest)[1..] == word + rest;
    WordsOfWord(word, rest);
  }

  /** Normalising keeps the words, so it is idempotent. */
  lemma NormalisedIsIdempotent(name: string)
    ensures Words(Normalised(name)) == Words(name) && Normalised(Normalised(name)) == Normalised(name)
  {
    var words := Words(name);
    WordsOfSpaceEach(words);
    if words != [] {
      SpaceEachOf(words);
      assert SpaceEach(words)[1..] == Joined(words);
    }
  }

  lemma {:induction false} JoinedIsSingleSpaced(words: seq<string>)
    requires AllWords(words)
    ensures SingleSpaced(Joined(words)) && (words != [] ==> Joined(words) != [])
  {
    if words != [] {
      var rest := words[1..];
      if rest == [] {
        assert Joined(words) == words[0];
      } else {
        JoinedIsSingleSpaced(rest);
        SpaceEachOf(rest);
        assert Joined(words) == words[0] + " " + Joined(rest);
      }
    }
  }

  lemma OneWordIsNormalised(name: string)
    requires name != [] && NoSpace(name)
    ensures Normalised(name) == name
  {
    WordsOfWord(name, "");
    assert name + "" == name;
    assert Words(name) == [name] && [name][1..] == [];
  }

  lemma WordThenRest(name: string, word: string, rest: string)
    requires name == word + " " + rest
    requires word != [] && NoSpace(word) && rest != [] && Normalised(rest) == rest
    ensures Normalised(name) == name
  {
    var tail := " " + rest;
    assert name == word + tail;
    WordsOfTail(tail, rest);
    WordsOfWord(word, tail);
    JoinedAfter(word, Words(rest));
  }

  lemma WordsOfTail(tail: string, rest: string)
    requires tail == " " + rest
    ensures Words(tail) == Words(rest)
  {
    assert tail[1..] == rest;
  }

  lemma JoinedAfter(word: string, words: seq<string>)
    requires Joined(words) != []
    ensures Joined([word] + words) == word + " " + Joined(words)
  {
    SpaceEachOf(words);
    assert ([word] + words)[1..] == words;
  }

  /** A single-spaced name is its first word, or that, a space and a single-spaced name. */
  lemma FirstWordOf(name: string, n: nat)
    requires Printable(name) && SingleSpaced(name) && name != [] && n == WordRun(name)
    ensures 0 < n <= |name| && NoSpace(name[..n])
    ensures n == |name| ==> NoSpace(name)
    ensures n < |name| ==>
              && n + 1 < |name| && name == name[..n] + " " + name[n + 1..]
              && Printable(name[n + 1..]) && SingleSpaced(name[n + 1..])
  {
    assert name[0] != ' ' && !IsSpace(name[0]);
    if n == |name| {
      assert name[..n] == name;
    } else {
      assert name[n] == ' ';
      SingleSpacedTail(name, n + 1);
    }
  }

  lemma SingleSpacedTail(name: string, i: nat)
    requires SingleSpaced(name) && i < |name| && name[i] != ' '
    ensures SingleSpaced(name[i..])
  {
    var tail := name[i..];
    forall k | 0 <= k < |tail| - 1 ensures tail[k] != ' ' || tail[k + 1] != ' ' {
      assert tail[k] == name[i + k] && tail[k + 1] == name[i + k + 1];
    }
  }

  lemma {:induction false} SingleSpacedIsNormalised(name: string)
    requires Printable(name) && SingleSpaced(name)
    ensures Normalised(name) == name
    decreases |name|
  {
    if name != [] {
      var n := WordRun(name);
      FirstWordOf(name, n);
      if n == |name| {
        OneWordIsNormalised(name);
      } else {
        SingleSpacedIsNormalised(name[n + 1..]);
        WordThenRest(name, name[..n], name[n + 1..]);
      }
    }
  }

  /** Normalising leaves alone exactly the single-spaced names. */
  lemma NormalisedIffSingleSpaced(name: string)
    requires Printable(name)
    ensures Normalised(name) == name <==> SingleSpaced(name)
  {
    if SingleSpaced(name) {
      SingleSpacedIsNormalised(name);
    }
    var words := Words(name);
    JoinedIsSingleSpaced(words);
  }

  // ---------- A reply is read back ----------

  lemma WordAfterSpace(word: string, rest: string)
    requires word != [] && NoSpace(word) && (rest != [] ==> IsSpace(rest[0]))
    ensures NextWord(" " + word + rest) == Some((word, rest))
  {
    NextOf(SpaceWord, " " + word + rest, word, rest);
  }

  lemma {:induction false} SkipWord(word: string, rest: string)
    requires NoSpace(word)
    ensures NextWord(word + rest) == NextWord(rest)
  {
    if word == [] {
      assert word + rest == rest;
    } else {
      SkipWord(word[1..], rest);
      assert (word + rest)[1..] == word[1..] + rest;
    }
  }

  /** What is left of a name starts with a space, if anything is left. */
  predicate Trailing(s: string) {
    Printable(s) && (s != [] ==> s[0] == ' ')
  }

  function Ended(s: string): string {
    s + "\n"
  }

  /** A space before another, or before the end, is passed over. */
  lemma SpaceSkipped(s: string)
    requires Trailing(s) && s != [] && (|s| > 1 ==> s[1] == ' ')
    ensures Trailing(s[1..]) && NextWord(Ended(s)) == NextWord(Ended(s[1..])) && Words(s) == Words(s[1..])
  {
    assert Ended(s)[1..] == Ended(s[1..]);
    assert Ended(s)[1] == (if |s| > 1 then s[1] else '\n');
  }

  /** A word after a space is the next match. */
  lemma WordTaken(s: string, word: string, later: string)
    requires Trailing(s) && |s| > 1 && s[1] != ' '
    requires word == s[1..][..WordRun(s[1..])] && later == s[1..][WordRun(s[1..])..]
    ensures NextWord(Ended(s)) == Some((word, Ended(later)))
    ensures Words(s) == [word] + Words(later) && Trailing(later) && |later| < |s|
  {
    WordSplit(s, word, later);
    WordsOfNext(word, later);
    EndedWord(s, word, later);
  }

  lemma WordSplit(s: string, word: string, later: string)
    requires Trailing(s) && |s| > 1 && s[1] != ' '
    requires word == s[1..][..WordRun(s[1..])] && later == s[1..][WordRun(s[1..])..]
    ensures s == " " + word + later && word != [] && NoSpace(word) && Trailing(later) && |later| < |s|
  {
    assert !IsSpace(s[1]);
  }

  lemma EndedWord(s: string, word: string, later: string)
    requires s == " " + word + later && word != [] && NoSpace(word) && Trailing(later)
    ensures NextWord(Ended(s)) == Some((word, Ended(later)))
  {
    assert Ended(s) == " " + word + Ended(later);
    WordAfterSpace(word, Ended(later));
  }

  /** The next match in what is left of a name is its next word. */
  lemma {:induction false} NextOfName(s: string) returns (later: string)
    requires Trailing(s)
    ensures Words(s) == [] ==> NextWord(Ended(s)) == None
    ensures Words(s) != [] ==>
              && NextWord(Ended(s)) == Some((Words(s)[0], Ended(later)))
              && Trailing(later) && |later| < |s| && Words(later) == Words(s)[1..]
  {
    if s == [] {
      later := [];
    } else if |s| > 1 && s[1] != ' ' {
      later := s[1..][WordRun(s[1..])..];
      WordTaken(s, s[1..][..WordRun(s[1..])], later);
    } else {
      SpaceSkipped(s);
      later := NextOfName(s[1..]);
    }
  }

  lemma {:induction false} NameIsRead(name: string, s: string)
    requires Trailing(s)
    ensures ReadName(name, Ended(s)) == name + SpaceEach(Words(s))
    decreases |s|
  {
    var later := NextOfName(s);
    if Words(s) != [] {
      var name1 := name + " " + Words(s)[0];
      NameIsRead(name1, later);
      assert ReadName(name, Ended(s)) == ReadName(name1, Ended(later));
    } else {
      assert name + "" == name;
    }
  }

  /** The three parts of a reply, one match each. */
  lemma PartsAreRead(text: string, addr: string, number: string, rest: string)
    requires addr != [] && NoSpace(addr) && number != [] && NoSpace(number) && rest != [] && rest[0] == ' '
    requires text == REPLY_KEY + addr + " " + number + rest
    ensures IsReply(text)
    ensures exists text1 :: NextWord(text) == Some((addr, text1)) && NextWord(text1) == Some((number, rest))
  {
    var text1 := " " + number + rest;
    var key := "BOREWICZ_HERE";
    assert REPLY_KEY == key + " ";
    assert text == key + (" " + addr + text1);
    SkipWord(key, " " + addr + text1);
    WordAfterSpace(addr, text1);
    WordAfterSpace(number, rest);
  }

  /** A reply is read back with its address, its port cut to 16 bits, and its name normalised; a name without a
      word cannot be read, and neither can a port beyond 64 bits. */
  lemma ReplyIsRead(name: string, addr: string, port: nat)
    requires addr != [] && NoSpace(addr) && Printable(name)
    ensures ReplyData(ReplyTextOf(name, addr, port))
         == if port >= TWO_TO_THE_64 then Err(NotANumber)
            else if Words(name) == [] then Err(MissingWord)
            else Ok(Reply(Normalised(name), addr, port % 0x1_0000))
  {
    var text, rest := ReplyTextOf(name, addr, port), Ended(" " + name);
    var text1 :| NextWord(text) == Some((addr, text1)) && NextWord(text1) == Some((Print(port), rest)) by {
      PortIsRead(port);
      PartsAreRead(text, addr, Print(port), rest);
    }
    PortIsRead(port);
    NamePartIsRead(name);
    AssembledFrom(text, addr, text1, Print(port), rest);
  }

  lemma AssembledFrom(text: string, addr: string, text1: string, number: string, rest: string)
    requires IsReply(text) && NextWord(text) == Some((addr, text1)) && NextWord(text1) == Some((number, rest))
    ensures ReplyData(text) == match Stoul(number)
                               case None => Err(NotANumber)
                               case Some(port) => NameData(addr, port % 0x1_0000, rest)
  {
    assert ReplyData(text) == PortData(addr, text1);
  }

  lemma NoSpaceInNumber(s: string)
    requires AllDigits(s)
    ensures NoSpace(s)
  {
  }

  lemma PortIsRead(port: nat)
    ensures NoSpace(Print(port)) && Print(port) != []
    ensures Stoul(Print(port)) == if port >= TWO_TO_THE_64 then None else Some(port)
  {
    NoSpaceInNumber(Print(port));
    assert Print(port) + "" == Print(port);
    StoulUnsigned(port, Print(port), "");
  }

  lemma NamePartIsRead(name: string)
    requires Printable(name)
    ensures Words(name) == [] ==> NextWord(Ended(" " + name)) == None
    ensures Words(name) != [] ==>
              exists rest :: NextWord(Ended(" " + name)) == Some((Words(name)[0], rest))
                             && ReadName(Words(name)[0], rest) == Normalised(name)
  {
    var s := " " + name;
    assert s[1..] == name && Words(s) == Words(name);
    var later := NextOfName(s);
    if Words(name) != [] { NameIsRead(Words(name)[0], later); }
  }

  /** A text is refused as no reply exactly if it does not begin with the words of one. */
  lemma NoReplyIff(text: string)
    ensures ReplyData(text) == Err(WrongKind) <==> !("BOREWICZ_HERE " <= text)
  {
  }
}
