/** Commands written out: how words can be laid out by the quoting rules of the POSIX.1-2017 Shell
    Command Language, sections 2.2.1 to 2.2.3, and what splitting makes of each layout. Every
    character with a meaning is named here anew. */
module CommandLayout {
  import opened Common
  import opened CommandSplit

  /** A piece of text between double quotes. */
  datatype Inner =
    | Letter(c: char)      // not a double quote, not a backslash
    | Special(c: char)     // behind a backslash that escapes it
    | Backslashed(c: char) // behind a backslash that stays
    | InnerJoin            // backslash and newline

  /** A piece of a word. */
  datatype Segment =
    | Plain(c: char)                 // a character that means itself
    | Escaped(c: char)               // behind a backslash
    | Join                           // backslash and newline
    | InSingle(text: string)         // between single quotes
    | InDouble(inner: seq<Inner>)    // between double quotes

  /** What separates words. */
  datatype Gap = Space(c: char) | Fold   // a blank, or backslash and newline

  /** A word and the gaps behind it. */
  datatype Item = Item(word: seq<Segment>, gaps: seq<Gap>)

  predicate InnerOk(p: Inner) {
    match p
    case Letter(c) => c != '"' && c != '\\'
    case Special(c) => c == '$' || c == '`' || c == '"' || c == '\\'
    case Backslashed(c) => c != '$' && c != '`' && c != '"' && c != '\\' && c != '\n'
    case InnerJoin => true
  }

  predicate SegmentOk(p: Segment) {
    match p
    case Plain(c) => c != '\'' && c != '"' && c != '\\' && c != ' ' && c != '\t' && c != '\n'
    case Escaped(c) => c != '\n'
    case Join => true
    case InSingle(text) => '\'' !in text
    case InDouble(inner) => forall k :: 0 <= k < |inner| ==> InnerOk(inner[k])
  }

  predicate GapOk(p: Gap) {
    p.Space? ==> p.c == ' ' || p.c == '\t' || p.c == '\n'
  }

  function InnerText(p: Inner): string {
    match p
    case Letter(c) => [c]
    case Special(c) => ['\\', c]
    case Backslashed(c) => ['\\', c]
    case InnerJoin => ['\\', '\n']
  }

  function InnerValue(p: Inner): string {
    match p
    case Letter(c) => [c]
    case Special(c) => [c]
    case Backslashed(c) => ['\\', c]
    case InnerJoin => []
  }

  function InnersText(ps: seq<Inner>): string {
    if ps == [] then [] else InnerText(ps[0]) + InnersText(ps[1..])
  }

  function InnersValue(ps: seq<Inner>): string {
    if ps == [] then [] else InnerValue(ps[0]) + InnersValue(ps[1..])
  }

  function SegmentText(p: Segment): string {
    match p
    case Plain(c) => [c]
    case Escaped(c) => ['\\', c]
    case Join => ['\\', '\n']
    case InSingle(text) => ['\''] + text + ['\'']
    case InDouble(inner) => ['"'] + InnersText(inner) + ['"']
  }

  function SegmentValue(p: Segment): string {
    match p
    case Plain(c) => [c]
    case Escaped(c) => [c]
    case Join => []
    case InSingle(text) => text
    case InDouble(inner) => InnersValue(inner)
  }

  function WordText(ps: seq<Segment>): string {
    if ps == [] then [] else SegmentText(ps[0]) + WordText(ps[1..])
  }

  function WordValue(ps: seq<Segment>): string {
    if ps == [] then [] else SegmentValue(ps[0]) + WordValue(ps[1..])
  }

  function GapText(p: Gap): string {
    if p.Space? then [p.c] else ['\\', '\n']
  }

  function GapsText(ps: seq<Gap>): string {
    if ps == [] then [] else GapText(ps[0]) + GapsText(ps[1..])
  }

  function ItemsText(items: seq<Item>): string {
    if items == [] then [] else WordText(items[0].word) + GapsText(items[0].gaps) + ItemsText(items[1..])
  }

  function ItemsValue(items: seq<Item>): seq<string> {
    if items == [] then [] else [WordValue(items[0].word)] + ItemsValue(items[1..])
  }

  predicate SegmentsOk(ps: seq<Segment>) {
    forall k :: 0 <= k < |ps| ==> SegmentOk(ps[k])
  }

  /** A word does not start with a backslash. */
  predicate WordOk(ps: seq<Segment>) {
    SegmentsOk(ps) && ps != [] && !ps[0].Escaped? && !ps[0].Join?
  }

  predicate GapsOk(ps: seq<Gap>) {
    forall k :: 0 <= k < |ps| ==> GapOk(ps[k])
  }

  /** Behind a word a backslash would belong to it, so the first gap is a blank; only behind the last
      word there may be none. */
  predicate ItemsOk(items: seq<Item>, ended: bool) {
    items != [] ==>
      && WordOk(items[0].word) && GapsOk(items[0].gaps)
      && (if items[0].gaps == [] then ended && |items| == 1 else items[0].gaps[0].Space?)
      && ItemsOk(items[1..], ended)
  }

  // ---------------------------------------------------------------- reading a layout

  predicate Reads(input: string, i: nat, t: string) {
    i + |t| <= |input| && input[i..i + |t|] == t
  }

  lemma ReadsBoth(input: string, i: nat, s: string, t: string)
    requires Reads(input, i, s + t)
    ensures Reads(input, i, s) && Reads(input, i + |s|, t)
  {
    var u := input[i..i + |s + t|];
    assert input[i..i + |s|] == u[..|s|] == s;
    assert input[i + |s|..i + |s| + |t|] == u[|s|..] == t;
  }

  lemma ReadsOne(input: string, i: nat, t: string, k: nat)
    requires Reads(input, i, t) && k < |t|
    ensures i + k < |input| && input[i + k] == t[k]
  {
    assert input[i..i + |t|][k] == t[k];
  }

  lemma InnerAt(input: string, i: nat, p: Inner, word: string)
    requires InnerOk(p) && Reads(input, i, InnerText(p))
    ensures WordAt(input, i, Double, false, word)
         == WordAt(input, i + |InnerText(p)|, Double, false, word + InnerValue(p))
  {
    ReadsOne(input, i, InnerText(p), 0);
    if !p.Letter? {
      ReadsOne(input, i, InnerText(p), 1);
      assert WordAt(input, i, Double, false, word) == WordAt(input, i + 1, Double, true, word);
    }
  }

  lemma {:induction false} InnersAt(input: string, i: nat, ps: seq<Inner>, word: string)
    requires (forall k :: 0 <= k < |ps| ==> InnerOk(ps[k])) && Reads(input, i, InnersText(ps))
    ensures WordAt(input, i, Double, false, word)
         == WordAt(input, i + |InnersText(ps)|, Double, false, word + InnersValue(ps))
    decreases |ps|
  {
    hide WordAt, InnerText, InnerValue, InnerOk;
    if ps == [] {
      assert word + [] == word;
    } else {
      var t, v := InnerText(ps[0]), InnerValue(ps[0]);
      ReadsBoth(input, i, t, InnersText(ps[1..]));
      InnerAt(input, i, ps[0], word);
      InnersAt(input, i + |t|, ps[1..], word + v);
      assert (word + v) + InnersValue(ps[1..]) == word + (v + InnersValue(ps[1..]));
    }
  }

  lemma DoubleAt(input: string, i: nat, inner: seq<Inner>, word: string)
    requires (forall k :: 0 <= k < |inner| ==> InnerOk(inner[k]))
    requires Reads(input, i, ['"'] + InnersText(inner) + ['"'])
    ensures WordAt(input, i, Bare, false, word)
         == WordAt(input, i + |InnersText(inner)| + 2, Bare, false, word + InnersValue(inner))
  {
    var t := InnersText(inner);
    ReadsBoth(input, i, ['"'] + t, ['"']);
    ReadsBoth(input, i, ['"'], t);
    ReadsOne(input, i, ['"'], 0);
    ReadsOne(input, i + 1 + |t|, ['"'], 0);
    InnersAt(input, i + 1, inner, word);
  }

  lemma SingleAt(input: string, i: nat, text: string, word: string)
    requires '\'' !in text && Reads(input, i, ['\''] + text + ['\''])
    ensures WordAt(input, i, Bare, false, word) == WordAt(input, i + |text| + 2, Bare, false, word + text)
  {
    ReadsBoth(input, i, ['\''] + text, ['\'']);
    ReadsBoth(input, i, ['\''], text);
    ReadsOne(input, i, ['\''], 0);
    ReadsOne(input, i + 1 + |text|, ['\''], 0);
    SingleToQuote(input, i + 1, i + 1 + |text|, word);
  }

  lemma PlainAt(input: string, i: nat, c: char, word: string)
    requires SegmentOk(Plain(c)) && Reads(input, i, [c])
    ensures WordAt(input, i, Bare, false, word) == WordAt(input, i + 1, Bare, false, word + [c])
  {
    ReadsOne(input, i, [c], 0);
  }

  /** A bare backslash gives the character behind it, or nothing for a newline. */
  lemma BackslashAt(input: string, i: nat, c: char, word: string)
    requires Reads(input, i, ['\\', c])
    ensures WordAt(input, i, Bare, false, word)
         == WordAt(input, i + 2, Bare, false, word + if c == '\n' then [] else [c])
  {
    ReadsOne(input, i, ['\\', c], 0);
    ReadsOne(input, i, ['\\', c], 1);
    assert WordAt(input, i, Bare, false, word) == WordAt(input, i + 1, Bare, true, word);
    assert word + [] == word;
  }

  lemma SegmentAt(input: string, i: nat, p: Segment, word: string)
    requires SegmentOk(p) && Reads(input, i, SegmentText(p))
    ensures WordAt(input, i, Bare, false, word)
         == WordAt(input, i + |SegmentText(p)|, Bare, false, word + SegmentValue(p))
  {
    hide WordAt, Reads;
    match p
    case Plain(c) => PlainAt(input, i, c, word);
    case Escaped(c) => BackslashAt(input, i, c, word);
    case Join => BackslashAt(input, i, '\n', word);
    case InSingle(text) => SingleAt(input, i, text, word);
    case InDouble(inner) => DoubleAt(input, i, inner, word);
  }

  lemma {:induction false} SegmentsAt(input: string, i: nat, ps: seq<Segment>, word: string)
    requires SegmentsOk(ps) && Reads(input, i, WordText(ps))
    ensures WordAt(input, i, Bare, false, word)
         == WordAt(input, i + |WordText(ps)|, Bare, false, word + WordValue(ps))
    decreases |ps|
  {
    hide WordAt, SegmentText, SegmentValue, SegmentOk;
    if ps == [] {
      assert word + [] == word;
    } else {
      var t, v := SegmentText(ps[0]), SegmentValue(ps[0]);
      ReadsBoth(input, i, t, WordText(ps[1..]));
      SegmentAt(input, i, ps[0], word);
      SegmentsAt(input, i + |t|, ps[1..], word + v);
      assert (word + v) + WordValue(ps[1..]) == word + (v + WordValue(ps[1..]));
    }
  }

  /** Outside words a gap is skipped. */
  lemma {:induction false} GapsAt(input: string, i: nat, ps: seq<Gap>, words: seq<string>)
    requires GapsOk(ps) && Reads(input, i, GapsText(ps))
    ensures Scan(input, i, false, words) == Scan(input, i + |GapsText(ps)|, false, words)
    decreases |ps|
  {
    hide WordAt;
    if ps != [] {
      var t := GapText(ps[0]);
      ReadsBoth(input, i, t, GapsText(ps[1..]));
      ReadsOne(input, i, t, 0);
      if ps[0].Fold? {
        ReadsOne(input, i, t, 1);
        assert Scan(input, i, false, words) == Scan(input, i + 1, true, words);
      }
      GapsAt(input, i + |t|, ps[1..], words);
    }
  }

  /** The first character of a word starts it. */
  lemma WordStarts(input: string, i: nat, ps: seq<Segment>)
    requires WordOk(ps) && Reads(input, i, WordText(ps))
    ensures i < |input| && input[i] != ' ' && input[i] != '\t' && input[i] != '\n' && input[i] != '\\'
  {
    ReadsBoth(input, i, SegmentText(ps[0]), WordText(ps[1..]));
    assert SegmentOk(ps[0]);
    ReadsOne(input, i, SegmentText(ps[0]), 0);
  }

  /** The end of the command, or a blank, ends a word. */
  lemma WordEnds(input: string, j: nat, word: string)
    requires j < |input| ==> input[j] == ' ' || input[j] == '\t' || input[j] == '\n'
    requires j <= |input|
    ensures WordAt(input, j, Bare, false, word) == Ok((word, if j < |input| then j + 1 else j))
  {
  }

  lemma ItemAt(input: string, i: nat, item: Item, words: seq<string>)
    requires WordOk(item.word) && GapsOk(item.gaps)
    requires Reads(input, i, WordText(item.word) + GapsText(item.gaps))
    requires if item.gaps == [] then i + |WordText(item.word)| == |input| else item.gaps[0].Space?
    ensures var j := i + |WordText(item.word)| + |GapsText(item.gaps)|;
      Scan(input, i, false, words) == Scan(input, j, false, words + [WordValue(item.word)])
  {
    hide WordAt, Scan, WordText, WordValue, SegmentsOk, GapsOk;
    var ps, value := item.word, WordValue(item.word);
    var j := i + |WordText(ps)|;
    ReadsBoth(input, i, WordText(ps), GapsText(item.gaps));
    WordStarts(input, i, ps);
    SegmentsAt(input, i, ps, "");
    assert "" + value == value;
    if item.gaps == [] {
      WordEnds(input, j, value);
      ScanWord(input, i, words, value, j);
    } else {
      FirstGap(input, j, item.gaps);
      WordEnds(input, j, value);
      ScanWord(input, i, words, value, j + 1);
      GapsAt(input, j + 1, item.gaps[1..], words + [value]);
    }
  }

  lemma FirstGap(input: string, j: nat, gaps: seq<Gap>)
    requires gaps != [] && gaps[0].Space? && GapsOk(gaps) && Reads(input, j, GapsText(gaps))
    ensures j < |input| && (input[j] == ' ' || input[j] == '\t' || input[j] == '\n')
    ensures Reads(input, j + 1, GapsText(gaps[1..])) && |GapsText(gaps)| == 1 + |GapsText(gaps[1..])|
    ensures GapsOk(gaps[1..])
  {
    ReadsBoth(input, j, GapText(gaps[0]), GapsText(gaps[1..]));
    ReadsOne(input, j, GapText(gaps[0]), 0);
    assert GapOk(gaps[0]);
  }

  lemma {:induction false} ItemsAt(input: string, i: nat, items: seq<Item>, ended: bool, words: seq<string>)
    requires ItemsOk(items, ended) && Reads(input, i, ItemsText(items))
    requires ended ==> i + |ItemsText(items)| == |input|
    ensures Scan(input, i, false, words) == Scan(input, i + |ItemsText(items)|, false, words + ItemsValue(items))
    decreases |items|
  {
    hide Scan, WordText, WordValue, GapsText, WordOk, GapsOk;
    if items == [] {
      assert words + [] == words;
    } else {
      var t, value := WordText(items[0].word) + GapsText(items[0].gaps), WordValue(items[0].word);
      ReadsBoth(input, i, t, ItemsText(items[1..]));
      NoGapNoText(items);
      ItemAt(input, i, items[0], words);
      ItemsAt(input, i + |t|, items[1..], ended, words + [value]);
      assert (words + [value]) + ItemsValue(items[1..]) == words + ItemsValue(items);
    }
  }

  lemma NoGapNoText(items: seq<Item>)
    requires items != []
    ensures items[0].gaps == [] ==> GapsText(items[0].gaps) == []
    ensures |items| == 1 ==> ItemsText(items[1..]) == []
  {
  }

  // ---------------------------------------------------------------- main results

  /** Splitting a layout gives the words it lays out. */
  lemma SplitLayout(lead: seq<Gap>, items: seq<Item>)
    requires GapsOk(lead) && ItemsOk(items, true) && (lead != [] || items != [])
    ensures Automaton(GapsText(lead) + ItemsText(items)) == Words(ItemsValue(items))
  {
    var input := GapsText(lead) + ItemsText(items);
    hide Scan, WordText, WordValue, WordOk, GapsOk;
    LayoutAt(input, lead, items, true, "");
    NotEmpty(lead, items);
    ScanEnd(input, |input|, ItemsValue(items));
  }

  lemma NotEmpty(lead: seq<Gap>, items: seq<Item>)
    requires ItemsOk(items, true) && (lead != [] || items != [])
    ensures GapsText(lead) + ItemsText(items) != ""
  {
    if items != [] {
      assert |SegmentText(items[0].word[0])| > 0;
    }
  }

  /** Whatever follows, the scan of a layout comes to its end with its words. */
  lemma LayoutAt(input: string, lead: seq<Gap>, items: seq<Item>, ended: bool, tail: string)
    requires GapsOk(lead) && ItemsOk(items, ended) && input == GapsText(lead) + ItemsText(items) + tail
    requires ended ==> tail == ""
    ensures Scan(input, 0, false, []) == Scan(input, |GapsText(lead) + ItemsText(items)|, false, ItemsValue(items))
  {
    hide Scan, GapsText, ItemsText, GapsOk, ItemsOk;
    var t := GapsText(lead) + ItemsText(items);
    assert input[0..|t|] == t;
    ReadsBoth(input, 0, GapsText(lead), ItemsText(items));
    GapsAt(input, 0, lead, []);
    ItemsAt(input, |GapsText(lead)|, items, ended, []);
    assert [] + ItemsValue(items) == ItemsValue(items);
  }

  /** What can be wrong with the end of a command. */
  datatype Open =
    | OpenSingle(text: string)                        // an opening single quote that none follows
    | OpenDouble(inner: seq<Inner>, dangling: bool)   // an opening double quote that none follows
    | Dangling                                        // a last backslash

  predicate OpenOk(end: Open) {
    match end
    case OpenSingle(text) => '\'' !in text
    case OpenDouble(inner, _) => forall k :: 0 <= k < |inner| ==> InnerOk(inner[k])
    case Dangling => true
  }

  function OpenText(end: Open): string {
    match end
    case OpenSingle(text) => ['\''] + text
    case OpenDouble(inner, dangling) => ['"'] + (InnersText(inner) + if dangling then ['\\'] else [])
    case Dangling => ['\\']
  }

  function OpenError(end: Open): Error {
    match end
    case OpenSingle(_) => UnterminatedSingle
    case OpenDouble(_, _) => UnterminatedDouble
    case Dangling => UnterminatedEscape
  }

  lemma OpenDoubleAt(input: string, i: nat, inner: seq<Inner>, dangling: bool, word: string)
    requires forall k :: 0 <= k < |inner| ==> InnerOk(inner[k])
    requires Reads(input, i, OpenText(OpenDouble(inner, dangling)))
    requires i + |OpenText(OpenDouble(inner, dangling))| == |input|
    ensures WordAt(input, i, Bare, false, word) == Err(UnterminatedDouble)
  {
    var t, last := InnersText(inner), if dangling then ['\\'] else [];
    ReadsBoth(input, i, ['"'], t + last);
    ReadsBoth(input, i + 1, t, last);
    ReadsOne(input, i, ['"'], 0);
    hide InnersText, InnerOk;
    InnersAt(input, i + 1, inner, word);
    if dangling {
      ReadsOne(input, i + 1 + |t|, ['\\'], 0);
      var value := word + InnersValue(inner);
      assert WordAt(input, |input|, Double, true, value) == Err(UnterminatedDouble);
    }
  }

  lemma OpenAt(input: string, i: nat, end: Open, word: string)
    requires OpenOk(end) && Reads(input, i, OpenText(end)) && i + |OpenText(end)| == |input|
    ensures WordAt(input, i, Bare, false, word) == Err(OpenError(end))
  {
    ReadsOne(input, i, OpenText(end), 0);
    match end
    case OpenSingle(text) =>
      assert input[i + 1..] == input[i..i + |OpenText(end)|][1..] == text;
      SingleToEnd(input, i + 1, word);
    case OpenDouble(inner, dangling) =>
      OpenDoubleAt(input, i, inner, dangling, word);
    case Dangling =>
  }

  /** A command that ends before a quote closes or after a backslash fails, whatever is laid out in
      front of it, within a word or not. */
  lemma SplitOpenFails(lead: seq<Gap>, items: seq<Item>, word: seq<Segment>, end: Open)
    requires GapsOk(lead) && ItemsOk(items, false) && (word == [] || WordOk(word)) && OpenOk(end)
    ensures Automaton(GapsText(lead) + ItemsText(items) + (WordText(word) + OpenText(end))) == Failure(OpenError(end))
  {
    hide Scan, WordAt, GapsText, ItemsText, OpenText, OpenOk, OpenError, WordText, WordOk, GapsOk, ItemsOk;
    var before, tail := GapsText(lead) + ItemsText(items), WordText(word) + OpenText(end);
    var input := before + tail;
    LayoutAt(input, lead, items, false, tail);
    assert input[|before|..] == tail;
    OpenScan(input, |before|, word, end, ItemsValue(items));
  }

  lemma OpenScan(input: string, i: nat, word: seq<Segment>, end: Open, words: seq<string>)
    requires i <= |input| && input[i..] == WordText(word) + OpenText(end)
    requires (word == [] || WordOk(word)) && OpenOk(end)
    ensures input != "" && Scan(input, i, false, words) == Failure(OpenError(end))
  {
    hide WordAt, WordText, WordOk, OpenOk;
    if word == [] && end.Dangling? {
      NoText();
      assert input[i] == input[i..][0];
      assert Scan(input, i, false, words) == Scan(input, i + 1, true, words);
    } else {
      OpenStarts(end);
      UpToTail(input, i, word, OpenText(end));
      OpenAt(input, i + |WordText(word)|, end, WordValue(word));
      ScanFails(input, i, words, OpenError(end));
    }
  }

  lemma NoText()
    ensures WordText([]) == ""
  {
  }

  lemma OpenStarts(end: Open)
    ensures OpenText(end) != "" && (!end.Dangling? ==> OpenText(end)[0] == '\'' || OpenText(end)[0] == '"')
  {
  }

  /** The empty command. */
  lemma EmptyFails()
    ensures Automaton("") == Failure(EmptyCommand)
  {
  }

  /** A backslash in front of another character than a newline, where a word would start, is where
      split never returns, whatever is laid out in front of it. */
  lemma SplitDiverges(lead: seq<Gap>, items: seq<Item>, c: char, rest: string)
    requires GapsOk(lead) && ItemsOk(items, false) && c != '\n'
    ensures Automaton(GapsText(lead) + ItemsText(items) + (['\\', c] + rest)) == Diverges
  {
    hide WordAt, GapsText, ItemsText, GapsOk, ItemsOk;
    var before, tail := GapsText(lead) + ItemsText(items), ['\\', c] + rest;
    var input := before + tail;
    var i, words := |before|, ItemsValue(items);
    LayoutAt(input, lead, items, false, tail);
    assert input[i] == '\\' && input[i + 1] == c;
    assert Scan(input, i, false, words) == Scan(input, i + 1, true, words);
  }

  /** The part of a last word that is complete is read, up to what follows. */
  lemma UpToTail(input: string, i: nat, word: seq<Segment>, rest: string)
    requires i <= |input| && input[i..] == WordText(word) + rest && rest != ""
    requires if word == [] then rest[0] == '\'' || rest[0] == '"' else WordOk(word)
    ensures Reads(input, i + |WordText(word)|, rest) && i + |WordText(word)| + |rest| == |input|
    ensures input[i] != ' ' && input[i] != '\t' && input[i] != '\n' && input[i] != '\\'
    ensures WordAt(input, i, Bare, false, "")
         == WordAt(input, i + |WordText(word)|, Bare, false, WordValue(word))
  {
    hide WordAt, WordText, SegmentOk, WordValue;
    ReadsSuffix(input, i, WordText(word) + rest);
    ReadsBoth(input, i, WordText(word), rest);
    ReadsOne(input, i + |WordText(word)|, rest, 0);
    SegmentsAt(input, i, word, "");
    assert "" + WordValue(word) == WordValue(word);
    if word == [] {
      NoText();
    } else {
      WordStarts(input, i, word);
    }
  }

  lemma ReadsSuffix(input: string, i: nat, t: string)
    requires i <= |input| && input[i..] == t
    ensures Reads(input, i, t) && i + |t| == |input|
  {
    assert input[i..i + |t|] == t;
  }

  lemma ScanFails(input: string, i: nat, words: seq<string>, e: Error)
    requires i < |input| && input[i] != ' ' && input[i] != '\t' && input[i] != '\n' && input[i] != '\\'
    requires WordAt(input, i, Bare, false, "") == Err(e)
    ensures Scan(input, i, false, words) == Failure(e)
  {
  }

  // ---------------------------------------------------------------- every command is laid out

  /** A command: complete, ending in what is open, or with a backslash where a word would start. */
  datatype Command =
    | Complete(lead: seq<Gap>, items: seq<Item>)
    | Ends(lead: seq<Gap>, items: seq<Item>, word: seq<Segment>, end: Open)
    | Slashed(lead: seq<Gap>, items: seq<Item>, c: char, rest: string)

  function Tail(cmd: Command): string {
    match cmd
    case Complete(_, _) => ""
    case Ends(_, _, word, end) => WordText(word) + OpenText(end)
    case Slashed(_, _, c, rest) => ['\\', c] + rest
  }

  function CommandText(cmd: Command): string {
    GapsText(cmd.lead) + ItemsText(cmd.items) + Tail(cmd)
  }

  predicate CommandOk(cmd: Command) {
    && GapsOk(cmd.lead) && ItemsOk(cmd.items, cmd.Complete?)
    && match cmd
       case Complete(_, _) => true
       case Ends(_, _, word, end) => (word == [] || WordOk(word)) && OpenOk(end)
       case Slashed(_, _, c, _) => c != '\n'
  }

  function CommandOutcome(cmd: Command): Outcome {
    match cmd
    case Complete(_, items) => Words(ItemsValue(items))
    case Ends(_, _, _, end) => Failure(OpenError(end))
    case Slashed(_, _, _, _) => Diverges
  }

  /** What split makes of a command that is laid out. */
  lemma SplitExactly(cmd: Command)
    requires CommandOk(cmd) && CommandText(cmd) != ""
    ensures Automaton(CommandText(cmd)) == CommandOutcome(cmd)
  {
    hide Automaton, ItemsText, GapsText, WordText, OpenText, GapsOk, ItemsOk, WordOk, OpenOk;
    match cmd
    case Complete(lead, items) =>
      assert GapsText(lead) + ItemsText(items) + "" == GapsText(lead) + ItemsText(items);
      SomeText(lead, items);
      SplitLayout(lead, items);
    case Ends(lead, items, word, end) => SplitOpenFails(lead, items, word, end);
    case Slashed(lead, items, c, rest) => SplitDiverges(lead, items, c, rest);
  }

  lemma SomeText(lead: seq<Gap>, items: seq<Item>)
    ensures lead == [] && items == [] ==> GapsText(lead) + ItemsText(items) == ""
  {
  }

  lemma {:induction false} ReadSingle(t: string) returns (text: string, closed: bool, rest: string)
    ensures '\'' !in text && t == text + if closed then ['\''] + rest else []
  {
    if t == "" || t[0] == '\'' {
      text, closed, rest := "", t != "", if t == "" then "" else t[1..];
    } else {
      text, closed, rest := ReadSingle(t[1..]);
      text := [t[0]] + text;
    }
  }

  lemma {:induction false} ReadInner(t: string)
      returns (inner: seq<Inner>, closed: bool, dangling: bool, rest: string)
    ensures forall k :: 0 <= k < |inner| ==> InnerOk(inner[k])
    ensures t == InnersText(inner) + if closed then ['"'] + rest else if dangling then ['\\'] else []
    decreases |t|
  {
    inner, closed, dangling, rest := [], false, false, "";
    if t == "" {
    } else if t[0] == '"' {
      closed, rest := true, t[1..];
    } else if t == ['\\'] {
      dangling := true;
    } else {
      var p := Letter(t[0]);
      if t[0] == '\\' {
        var c := t[1];
        p := if c == '\n' then InnerJoin
             else if c == '$' || c == '`' || c == '"' || c == '\\' then Special(c)
             else Backslashed(c);
      }
      var n := |InnerText(p)|;
      assert t == InnerText(p) + t[n..];
      inner, closed, dangling, rest := ReadInner(t[n..]);
      assert InnersText([p] + inner) == InnerText(p) + InnersText(inner);
      inner := [p] + inner;
    }
  }

  /** The next segment of a word, or what is open there. */
  lemma ReadSegment(t: string) returns (p: Segment, end: Option<Open>, rest: string)
    requires t != "" && t[0] != ' ' && t[0] != '\t' && t[0] != '\n'
    ensures end.None? ==> SegmentOk(p) && t == SegmentText(p) + rest && |rest| < |t|
    ensures end.None? && t[0] != '\\' ==> !p.Escaped? && !p.Join?
    ensures end.Some? ==> OpenOk(end.value) && t == OpenText(end.value)
    ensures end.Some? && t[0] != '\\' ==> !end.value.Dangling?
  {
    p, end, rest := Plain(t[0]), None, t[1..];
    if t[0] == '\'' {
      var text, closed, more := ReadSingle(t[1..]);
      p, rest := InSingle(text), more;
      if !closed {
        end := Some(OpenSingle(text));
      }
    } else if t[0] == '"' {
      var inner, closed, dangling, more := ReadInner(t[1..]);
      p, rest := InDouble(inner), more;
      if !closed {
        end := Some(OpenDouble(inner, dangling));
      }
    } else if t == ['\\'] {
      end := Some(Dangling);
    } else if t[0] == '\\' {
      p, rest := if t[1] == '\n' then Join else Escaped(t[1]), t[2..];
    }
  }

  lemma {:induction false} ReadWord(t: string) returns (word: seq<Segment>, end: Option<Open>, rest: string)
    ensures SegmentsOk(word)
    ensures t == WordText(word) + if end.Some? then OpenText(end.value) else rest
    ensures end.Some? ==> OpenOk(end.value)
    ensures end.None? && rest != "" ==> rest[0] == ' ' || rest[0] == '\t' || rest[0] == '\n'
    ensures t != "" && t[0] != ' ' && t[0] != '\t' && t[0] != '\n' && t[0] != '\\' ==>
      if word == [] then end.Some? && !end.value.Dangling? else WordOk(word) && (end.None? ==> |rest| < |t|)
    ensures end.None? ==> |rest| <= |t|
    decreases |t|
  {
    hide SegmentText, SegmentOk, OpenText, OpenOk;
    if t == "" || t[0] == ' ' || t[0] == '\t' || t[0] == '\n' {
      word, end, rest := [], None, t;
    } else {
      var p;
      p, end, rest := ReadSegment(t);
      if end.Some? {
        word := [];
      } else {
        var more := rest;
        word, end, rest := ReadWord(more);
        assert WordText([p] + word) == SegmentText(p) + WordText(word);
        word := [p] + word;
      }
    }
  }

  /** Every command is one of these. */
  lemma {:induction false} EveryCommand(t: string) returns (cmd: Command)
    ensures CommandOk(cmd) && CommandText(cmd) == t
    ensures t != "" && (t[0] == ' ' || t[0] == '\t' || t[0] == '\n') ==> cmd.lead != [] && cmd.lead[0].Space?
    ensures t == "" ==> cmd == Complete([], [])
    decreases |t|
  {
    if t == "" {
      cmd := Complete([], []);
    } else if t == ['\\'] {
      cmd := Ends([], [], [], Dangling);
    } else if t[0] == '\\' && t[1] != '\n' {
      cmd := Slashed([], [], t[1], t[2..]);
    } else if t[0] == ' ' || t[0] == '\t' || t[0] == '\n' || t[0] == '\\' {
      var g := if t[0] == '\\' then Fold else Space(t[0]);
      assert t == GapText(g) + t[|GapText(g)|..];
      cmd := EveryCommand(t[|GapText(g)|..]);
      cmd := GapFirst(g, cmd);
    } else {
      var word, end, rest := ReadWord(t);
      if end.Some? {
        cmd := Ends([], [], word, end.value);
      } else {
        cmd := EveryCommand(rest);
        cmd := WordFirst(word, cmd);
      }
    }
  }

  lemma GapFirst(g: Gap, cmd: Command) returns (more: Command)
    requires GapOk(g) && CommandOk(cmd)
    ensures CommandOk(more) && CommandText(more) == GapText(g) + CommandText(cmd)
    ensures more.lead == [g] + cmd.lead
  {
    hide ItemsText, ItemsOk, Tail, GapOk;
    var lead := [g] + cmd.lead;
    assert lead[1..] == cmd.lead;
    more := match cmd
      case Complete(_, items) => Complete(lead, items)
      case Ends(_, items, word, end) => Ends(lead, items, word, end)
      case Slashed(_, items, c, rest) => Slashed(lead, items, c, rest);
    SameTail(cmd, more);
  }

  lemma SameTail(cmd: Command, more: Command)
    requires match cmd
      case Complete(_, _) => more.Complete?
      case Ends(_, _, word, end) => more.Ends? && more.word == word && more.end == end
      case Slashed(_, _, c, rest) => more.Slashed? && more.c == c && more.rest == rest
    ensures Tail(more) == Tail(cmd)
  {
  }

  /** A word in front takes the leading gaps as its own. */
  lemma WordFirst(word: seq<Segment>, cmd: Command) returns (more: Command)
    requires WordOk(word) && CommandOk(cmd)
    requires if cmd.lead == [] then cmd == Complete([], []) else cmd.lead[0].Space?
    ensures CommandOk(more) && CommandText(more) == WordText(word) + CommandText(cmd)
    ensures more.lead == []
  {
    hide WordText, GapsText, WordOk, GapsOk, Tail;
    var items := [Item(word, cmd.lead)] + cmd.items;
    assert items[1..] == cmd.items;
    more := match cmd
      case Complete(_, _) => Complete([], items)
      case Ends(_, _, last, end) => Ends([], items, last, end)
      case Slashed(_, _, c, rest) => Slashed([], items, c, rest);
    SameTail(cmd, more);
    NoGaps();
  }

  lemma NoGaps()
    ensures GapsText([]) == "" && GapsOk([])
  {
  }
}
