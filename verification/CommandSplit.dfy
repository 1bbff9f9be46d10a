/** Splitting a command into words by the quoting rules of the POSIX.1-2017 Shell Command
    Language, sections 2.2.1 to 2.2.3. A command is a sequence of code units; every character
    the splitter looks for is ASCII. */
module CommandSplit {
  import opened Common

  datatype Error = EmptyCommand | UnterminatedEscape | UnterminatedSingle | UnterminatedDouble

  /** What a call of split does; Diverges is the endless loop. */
  datatype Outcome = Words(words: seq<string>) | Failure(error: Error) | Diverges

  predicate Blank(c: char) {
    c == ' ' || c == '\n' || c == '\t'
  }

  /** The characters a backslash escapes between double quotes. */
  predicate EscapableInDouble(c: char) {
    c == '$' || c == '`' || c == '"' || c == '\n' || c == '\\'
  }

  // ---------------------------------------------------------------- the automaton

  /** A position inside a word. */
  datatype Mode = Bare | Single | Double

  /** Reads a word one character at a time from position i; escaped tells that the previous
      character was a backslash that is still to be dealt with. Gives the word and the position
      behind it. */
  function WordAt(input: string, i: nat, mode: Mode, escaped: bool, word: string): (r: Result<(string, nat), Error>)
    requires i <= |input|
    ensures r.Ok? ==> i <= r.value.1 <= |input|
    ensures r.Ok? && i < |input| ==> i < r.value.1
    decreases |input| - i
  {
    if i == |input| then
      if mode == Double then Err(UnterminatedDouble)
      else if mode == Single then Err(UnterminatedSingle)
      else if escaped then Err(UnterminatedEscape)
      else Ok((word, i))
    else
      var c := input[i];
      match mode
      case Bare =>
        if escaped then WordAt(input, i + 1, Bare, false, if c == '\n' then word else word + [c])
        else if Blank(c) then Ok((word, i + 1))
        else if c == '\\' then WordAt(input, i + 1, Bare, true, word)
        else if c == '"' then WordAt(input, i + 1, Double, false, word)
        else if c == '\'' then WordAt(input, i + 1, Single, false, word)
        else WordAt(input, i + 1, Bare, false, word + [c])
      case Single =>
        if c == '\'' then WordAt(input, i + 1, Bare, false, word)
        else WordAt(input, i + 1, Single, false, word + [c])
      case Double =>
        if escaped then
          var kept := if c == '\n' then [] else if EscapableInDouble(c) then [c] else ['\\', c];
          WordAt(input, i + 1, Double, false, word + kept)
        else if c == '"' then WordAt(input, i + 1, Bare, false, word)
        else if c == '\\' then WordAt(input, i + 1, Double, true, word)
        else WordAt(input, i + 1, Double, false, word + [c])
  }

  /** The automaton outside words; a word starts on a character that is neither blank nor a
      backslash, and a backslash may only escape a newline. */
  function Scan(input: string, i: nat, escaped: bool, words: seq<string>): Outcome
    requires i <= |input|
    decreases |input| - i
  {
    if i == |input| then
      if escaped then Failure(UnterminatedEscape) else Words(words)
    else if escaped then
      if input[i] == '\n' then Scan(input, i + 1, false, words) else Diverges
    else if Blank(input[i]) then
      Scan(input, i + 1, false, words)
    else if input[i] == '\\' then
      Scan(input, i + 1, true, words)
    else
      match WordAt(input, i, Bare, false, "")
      case Ok((word, next)) => Scan(input, next, false, words + [word])
      case Err(e) => Failure(e)
  }

  function Automaton(command: string): Outcome {
    if command == "" then Failure(EmptyCommand) else Scan(command, 0, false, [])
  }

  // ---------------------------------------------------------------- the code

  /** strings.IndexRune. */
  function IndexOf(s: string, c: char): (k: int)
    ensures -1 <= k < |s|
    ensures k == -1 ==> c !in s
    ensures k >= 0 ==> s[k] == c && c !in s[..k]
  {
    if s == "" then -1
    else if s[0] == c then 0
    else
      var k := IndexOf(s[1..], c);
      assert k >= 0 ==> s[..k + 1] == [s[0]] + s[1..][..k];
      if k == -1 then -1 else k + 1
  }

  method SplitWord(input: string, startIndex: nat, buffer: Buffer<char>)
    returns (r: Result<(string, nat), Error>)
    requires startIndex <= |input|
    modifies buffer
    ensures r == WordAt(input, startIndex, Bare, false, old(buffer.contents))
    decreases |input| - startIndex
  {
    var cursor := startIndex;
    assert buffer.contents + input[startIndex..cursor] == buffer.contents;
    while cursor < |input|
      invariant startIndex <= cursor <= |input|
      invariant buffer.contents == old(buffer.contents)
      invariant WordAt(input, startIndex, Bare, false, old(buffer.contents))
             == WordAt(input, cursor, Bare, false, old(buffer.contents) + input[startIndex..cursor])
    {
      var character := input[cursor];
      ghost var word := buffer.contents + input[startIndex..cursor];
      cursor := cursor + 1;
      if character == '"' || character == '\'' || character == '\\'
         || character == ' ' || character == '\n' || character == '\t' {
        buffer.Write(input[startIndex..cursor - 1]);
      }
      if Blank(character) {
        return Ok((buffer.contents, cursor));
      } else if character == '"' {
        r := HandleDoubleQuoted(input, cursor, buffer);
        return;
      } else if character == '\'' {
        r := HandleSingleQuoted(input, cursor, buffer);
        return;
      } else if character == '\\' {
        r := HandleEscaped(input, cursor, buffer);
        return;
      }
      assert buffer.contents + input[startIndex..cursor] == word + [character];
    }
    assert input[startIndex..cursor] == input[startIndex..];
    buffer.Write(input[startIndex..]);
    return Ok((buffer.contents, |input|));
  }

  method HandleDoubleQuoted(input: string, startIndex: nat, buffer: Buffer<char>)
    returns (r: Result<(string, nat), Error>)
    requires startIndex <= |input|
    modifies buffer
    ensures r == WordAt(input, startIndex, Double, false, old(buffer.contents))
    decreases |input| - startIndex
  {
    var cursor := startIndex;
    var start := startIndex;
    assert buffer.contents + input[start..cursor] == buffer.contents;
    while cursor < |input|
      invariant startIndex <= start <= cursor <= |input|
      invariant WordAt(input, startIndex, Double, false, old(buffer.contents))
             == WordAt(input, cursor, Double, false, buffer.contents + input[start..cursor])
    {
      var nextCharacter := input[cursor];
      ghost var word := buffer.contents + input[start..cursor];
      cursor := cursor + 1;
      if nextCharacter == '"' {
        buffer.Write(input[start..cursor - 1]);
        r := SplitWord(input, cursor, buffer);
        return;
      } else if nextCharacter == '\\' {
        assert WordAt(input, startIndex, Double, false, old(buffer.contents))
            == WordAt(input, cursor, Double, true, word);
        if cursor < |input| {
          var escapedCharacter := input[cursor];
          cursor := cursor + 1;
          if EscapableInDouble(escapedCharacter) {
            buffer.Write(input[start..cursor - 2]);
            if escapedCharacter != '\n' {
              buffer.Write([escapedCharacter]);
            }
            start := cursor;
            assert buffer.contents + input[start..cursor] == buffer.contents;
          } else {
            assert buffer.contents + input[start..cursor] == word + ['\\', escapedCharacter];
          }
        }
      } else {
        assert buffer.contents + input[start..cursor] == word + [nextCharacter];
      }
    }
    return Err(UnterminatedDouble);
  }

  method HandleSingleQuoted(input: string, startIndex: nat, buffer: Buffer<char>)
    returns (r: Result<(string, nat), Error>)
    requires startIndex <= |input|
    modifies buffer
    ensures r == WordAt(input, startIndex, Single, false, old(buffer.contents))
    decreases |input| - startIndex
  {
    var closingQuoteIndex := IndexOf(input[startIndex..], '\'');
    if closingQuoteIndex == -1 {
      SingleToEnd(input, startIndex, buffer.contents);
      return Err(UnterminatedSingle);
    }
    SingleToQuote(input, startIndex, startIndex + closingQuoteIndex, buffer.contents);
    buffer.Write(input[startIndex..startIndex + closingQuoteIndex]);
    r := SplitWord(input, startIndex + closingQuoteIndex + 1, buffer);
  }

  method HandleEscaped(input: string, startIndex: nat, buffer: Buffer<char>)
    returns (r: Result<(string, nat), Error>)
    requires startIndex <= |input|
    modifies buffer
    ensures r == WordAt(input, startIndex, Bare, true, old(buffer.contents))
    decreases |input| - startIndex
  {
    if startIndex == |input| {
      return Err(UnterminatedEscape);
    }
    assert input[startIndex..startIndex + 1] == [input[startIndex]];
    if input[startIndex] != '\n' {
      buffer.Write(input[startIndex..startIndex + 1]);
    }
    r := SplitWord(input, startIndex + 1, buffer);
  }

  lemma {:induction false} SingleToEnd(input: string, i: nat, word: string)
    requires i <= |input| && '\'' !in input[i..]
    ensures WordAt(input, i, Single, false, word) == Err(UnterminatedSingle)
    decreases |input| - i
  {
    if i < |input| {
      assert input[i] == input[i..][0];
      assert input[i + 1..] == input[i..][1..];
      SingleToEnd(input, i + 1, word + [input[i]]);
    }
  }

  lemma {:induction false} SingleToQuote(input: string, i: nat, j: nat, word: string)
    requires i <= j < |input| && input[j] == '\'' && '\'' !in input[i..j]
    ensures WordAt(input, i, Single, false, word) == WordAt(input, j + 1, Bare, false, word + input[i..j])
    decreases j - i
  {
    if i < j {
      assert input[i..j] == [input[i]] + input[i + 1..j];
      SingleToQuote(input, i + 1, j, word + [input[i]]);
      assert word + [input[i]] + input[i + 1..j] == word + input[i..j];
    } else {
      assert word + input[i..j] == word;
    }
  }

  /** split. In the branch of a backslash before another character than a newline the loop of
      the source changes nothing and so repeats for ever; see PassProgress. */
  method Split(command: string) returns (outcome: Outcome)
    ensures outcome == Automaton(command)
  {
    if command == "" {
      return Failure(EmptyCommand);
    }
    var words: seq<string> := [];
    var buffer := new Buffer<char>();
    var startIndex := 0;
    while startIndex < |command|
      invariant startIndex <= |command|
      invariant Automaton(command) == Scan(command, startIndex, false, words)
      decreases |command| - startIndex
    {
      var character := command[startIndex];
      if Blank(character) {
        startIndex := startIndex + 1;
      } else if character == '\\' {
        if startIndex + 1 == |command| {
          assert Automaton(command) == Scan(command, startIndex + 1, true, words);
          return Failure(UnterminatedEscape);
        }
        assert Automaton(command) == Scan(command, startIndex + 1, true, words);
        if command[startIndex + 1] == '\n' {
          startIndex := startIndex + 2;
        } else {
          return Diverges;
        }
      } else {
        buffer.Reset();
        var r := SplitWord(command, startIndex, buffer);
        if r.Err? {
          return Failure(r.error);
        }
        startIndex := r.value.1;
        words := words + [r.value.0];
      }
    }
    return Words(words);
  }

  // ---------------------------------------------------------------- the loop of split, pass by pass

  /** Before a test of the loop condition, or after the return of split. */
  datatype LoopState = At(startIndex: nat, words: seq<string>) | Returned(outcome: Outcome)

  ghost predicate InRange(command: string, st: LoopState) {
    st.At? ==> st.startIndex <= |command|
  }

  /** One test of the loop condition and one pass of the body, branch by branch. */
  ghost function Pass(command: string, st: LoopState): (next: LoopState)
    requires InRange(command, st)
    ensures InRange(command, next)
  {
    match st
    case Returned(_) => st
    case At(i, words) =>
      if i == |command| then
        Returned(Words(words))
      else if Blank(command[i]) then
        At(i + 1, words)
      else if command[i] == '\\' then
        if i + 1 == |command| then Returned(Failure(UnterminatedEscape))
        else if command[i + 1] == '\n' then At(i + 2, words)
        else At(i, words)
      else
        match WordAt(command, i, Bare, false, "")
        case Ok((word, next)) => At(next, words + [word])
        case Err(e) => Returned(Failure(e))
  }

  /** A word start on a backslash followed by another character than a newline. */
  ghost predicate Stuck(command: string, st: LoopState) {
    st.At? && st.startIndex + 1 < |command| && command[st.startIndex] == '\\' && command[st.startIndex + 1] != '\n'
  }

  ghost function Passes(command: string, n: nat): (st: LoopState)
    ensures InRange(command, st)
  {
    if n == 0 then At(0, []) else Pass(command, Passes(command, n - 1))
  }

  /** Every pass moves the index forward or returns, except at a stuck position, where nothing changes. */
  lemma PassProgress(command: string, st: LoopState)
    requires st.At? && st.startIndex <= |command|
    ensures var next := Pass(command, st);
      if Stuck(command, st) then next == st else next.Returned? || next.startIndex > st.startIndex
  {
  }

  /** The outcome the automaton predicts for a state of the loop. */
  ghost function Predicted(command: string, st: LoopState): Outcome
    requires InRange(command, st)
  {
    match st
    case Returned(outcome) => outcome
    case At(i, words) => Scan(command, i, false, words)
  }

  lemma PassKeepsPrediction(command: string, st: LoopState)
    requires InRange(command, st)
    ensures Predicted(command, Pass(command, st)) == Predicted(command, st)
    ensures Stuck(command, st) ==> Predicted(command, st) == Diverges
    ensures st.At? && Pass(command, st).Returned? ==> Pass(command, st).outcome != Diverges
  {
    if st.At? && st.startIndex < |command| && command[st.startIndex] == '\\' {
      var i, words := st.startIndex, st.words;
      assert Scan(command, i, false, words) == Scan(command, i + 1, true, words);
    }
  }

  lemma {:induction false} PassesFacts(command: string, n: nat)
    requires command != ""
    ensures var st := Passes(command, n);
      && Predicted(command, st) == Automaton(command)
      && (st.Returned? ==> st.outcome != Diverges)
      && (st.At? && !Stuck(command, st) ==> st.startIndex >= n)
  {
    if n > 0 {
      var before := Passes(command, n - 1);
      PassesFacts(command, n - 1);
      PassKeepsPrediction(command, before);
      if before.At? {
        PassProgress(command, before);
      }
    }
  }

  /** split returns exactly on the commands whose scan never meets a stuck position, and then
      it returns what the automaton says. */
  lemma TerminatesExactly(command: string)
    requires command != ""
    ensures (exists n :: Passes(command, n).Returned?) <==> Automaton(command) != Diverges
    ensures (exists n :: Stuck(command, Passes(command, n))) <==> Automaton(command) == Diverges
    ensures forall n :: Passes(command, n).Returned? ==> Passes(command, n).outcome == Automaton(command)
  {
    var last := |command| + 1;
    PassesFacts(command, last);
    PassKeepsPrediction(command, Passes(command, last));
    assert Passes(command, last).Returned? || Stuck(command, Passes(command, last));
    forall n
      ensures Passes(command, n).Returned? ==> Passes(command, n).outcome == Automaton(command) != Diverges
      ensures Stuck(command, Passes(command, n)) ==> Automaton(command) == Diverges
    {
      PassesFacts(command, n);
      PassKeepsPrediction(command, Passes(command, n));
    }
  }

  /** A command on which split does not return: a backslash before a letter. */
  lemma BackslashDiverges()
    ensures Stuck("\\a", Passes("\\a", 0)) && Automaton("\\a") == Diverges
    ensures forall n :: Passes("\\a", n) == At(0, [])
  {
    assert Automaton("\\a") == Scan("\\a", 1, true, []);
    forall n
      ensures Passes("\\a", n) == At(0, [])
    {
      StaysStuck("\\a", n);
    }
  }

  lemma {:induction false} StaysStuck(command: string, n: nat)
    requires Stuck(command, Passes(command, 0))
    ensures Passes(command, n) == Passes(command, 0)
  {
    if n > 0 {
      StaysStuck(command, n - 1);
      PassProgress(command, Passes(command, 0));
    }
  }

  // ---------------------------------------------------------------- printing and splitting back

  /** The text between single quotes: a quote closes, is escaped outside, and reopens. */
  function Quoted(word: string): string {
    if word == "" then "" else (if word[0] == '\'' then "'\\''" else [word[0]]) + Quoted(word[1..])
  }

  function Print(words: seq<string>): string
    requires words != []
  {
    "'" + Quoted(words[0]) + "'" + if |words| == 1 then "" else " " + Print(words[1..])
  }

  lemma EscapedQuoteAt(input: string, i: nat, before: string)
    requires i + 4 < |input| && input[i..i + 4] == "'\\''"
    ensures WordAt(input, i, Single, false, before) == WordAt(input, i + 4, Single, false, before + ['\''])
  {
    assert input[i] == input[i..i + 4][0] && input[i + 1] == input[i..i + 4][1];
    assert input[i + 2] == input[i..i + 4][2] && input[i + 3] == input[i..i + 4][3];
    assert WordAt(input, i + 1, Bare, false, before) == WordAt(input, i + 2, Bare, true, before);
    assert WordAt(input, i + 2, Bare, true, before) == WordAt(input, i + 3, Bare, false, before + ['\'']);
  }

  /** Reading the printed text of a word brings the automaton behind the closing quote. */
  lemma {:induction false} QuotedWordAt(input: string, i: nat, word: string, before: string)
    requires i + |Quoted(word)| < |input|
    requires input[i..i + |Quoted(word)|] == Quoted(word) && input[i + |Quoted(word)|] == '\''
    ensures WordAt(input, i, Single, false, before)
         == WordAt(input, i + |Quoted(word)| + 1, Bare, false, before + word)
    decreases |word|
  {
    if word == "" {
      assert before + word == before;
    } else {
      var c, rest := word[0], word[1..];
      var head := if c == '\'' then "'\\''" else [c];
      var j := i + |head|;
      assert Quoted(word) == head + Quoted(rest);
      assert input[i..j] == head by {
        assert input[i..j] == input[i..i + |Quoted(word)|][..|head|];
      }
      assert input[j..j + |Quoted(rest)|] == Quoted(rest) by {
        assert input[j..j + |Quoted(rest)|] == input[i..i + |Quoted(word)|][|head|..];
      }
      QuotedWordAt(input, j, rest, before + [c]);
      assert before + [c] + rest == before + word;
      if c == '\'' {
        EscapedQuoteAt(input, i, before);
      } else {
        assert input[i] == input[i..j][0];
      }
    }
  }

  /** The same from the opening quote, for the text at position i of the input. */
  lemma PrintedWordAt(input: string, i: nat, word: string, tail: string)
    requires i <= |input| && input[i..] == "'" + Quoted(word) + "'" + tail
    requires tail != "" ==> tail[0] == ' '
    ensures var j := i + |Quoted(word)| + 2;
      && input[i] == '\''
      && j <= |input| && input[j..] == tail
      && WordAt(input, i, Bare, false, "") == Ok((word, if tail == "" then j else j + 1))
  {
    var body, text := Quoted(word), input[i..];
    var close := i + 1 + |body|;
    assert input[i] == text[0];
    assert input[close] == text[1 + |body|];
    assert input[i + 1..close] == text[1..1 + |body|] == body;
    assert input[close + 1..] == text[2 + |body|..] == tail;
    QuotedWordAt(input, i + 1, word, "");
    assert "" + word == word;
    if tail != "" {
      assert input[close + 1] == tail[0];
    }
  }

  lemma {:induction false} PrintScan(input: string, i: nat, words: seq<string>, done: seq<string>)
    requires i <= |input| && words != [] && input[i..] == Print(words)
    ensures Scan(input, i, false, done) == Words(done + words)
    decreases |words|
  {
    hide WordAt, Quoted, Scan;
    var tail := if |words| == 1 then "" else " " + Print(words[1..]);
    PrintedWordAt(input, i, words[0], tail);
    var j := i + |Quoted(words[0])| + 2;
    var next := if tail == "" then j else j + 1;
    ScanWord(input, i, done, words[0], next);
    if |words| == 1 {
      assert words == [words[0]];
      ScanEnd(input, next, done + [words[0]]);
    } else {
      assert input[next..] == input[j..][1..] == Print(words[1..]);
      PrintScan(input, next, words[1..], done + [words[0]]);
      Reassociate(done, words);
    }
  }

  lemma ScanWord(input: string, i: nat, done: seq<string>, word: string, next: nat)
    requires i < |input| && !Blank(input[i]) && input[i] != '\\'
    requires WordAt(input, i, Bare, false, "") == Ok((word, next))
    ensures next <= |input| && Scan(input, i, false, done) == Scan(input, next, false, done + [word])
  {
  }

  lemma ScanEnd(input: string, i: nat, done: seq<string>)
    requires i == |input|
    ensures Scan(input, i, false, done) == Words(done)
  {
  }

  lemma Reassociate(done: seq<string>, words: seq<string>)
    requires words != []
    ensures done + [words[0]] + words[1..] == done + words
  {
  }

  /** Splitting the blank-joined single-quoted printing of any non-empty list of words gives the
      list back. */
  lemma SplitPrinted(words: seq<string>)
    requires words != []
    ensures Automaton(Print(words)) == Words(words)
  {
    PrintScan(Print(words), 0, words, []);
    assert [] + words == words;
  }
}