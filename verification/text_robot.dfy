/**
 * The text robot: it cleans the article text, splits it into sentences,
 * keeps the first ten and attaches the keywords the language service finds.
 * The article fetch, the sentence tokenizer and the keyword service are
 * passed in as values and functions.
 */
module TextRobot {
  import opened Wrappers
  import opened GoStrings
  import opened Robot

  /** How many sentences the robot keeps. */
  const MaxSentences := 10

  datatype TextError = TooFewSentences(count: nat)

  // ---------------------------------------------------------------------
  // Blank lines and markup

  /** blankLinesFilter: a line is kept unless it is blank or, trimmed, starts with '='. */
  predicate BlankLinesFilter(line: string) {
    var trimmedLine := TrimSpace(line);
    !(HasPrefix(trimmedLine, "=") || |trimmedLine| == 0)
  }

  /**
   * blankLinesFilter keeps a line exactly when the line holds a character
   * that is not white space and the first such character is not '='.
   */
  lemma BlankLinesFilterKeeps(line: string)
    ensures BlankLinesFilter(line) <==> exists i ::
      && 0 <= i < |line| && !IsSpace(line[i]) && line[i] != '='
      && forall k :: 0 <= k < i ==> IsSpace(line[k])
  {
    TrimLeftSlice(line);
    TrimLeftShape(line);
    var a :| 0 <= a <= |line| && TrimLeft(line) == line[a..] && forall k :: 0 <= k < a ==> IsSpace(line[k]);
    var t := line[a..];
    TrimRightSlice(t);
    var c :| 0 <= c <= |t| && TrimRight(t) == t[..c] && forall k :: c <= k < |t| ==> IsSpace(t[k]);
    var trimmed := TrimSpace(line);
    assert trimmed == t[..c];
    if a < |line| {
      assert t[0] == line[a] && !IsSpace(line[a]);
      assert trimmed[..1] == [line[a]];
      forall i | 0 <= i < |line| && !IsSpace(line[i]) && forall k :: 0 <= k < i ==> IsSpace(line[k])
        ensures i == a
      {
      }
    } else {
      assert trimmed == [];
      forall i | 0 <= i < |line| ensures IsSpace(line[i]) {
      }
    }
  }

  /** The items that pass `test`, each trimmed, in their original order. */
  function Filtered(items: seq<string>, test: string -> bool): seq<string> {
    if items == [] then []
    else
      var last := items[|items| - 1];
      Filtered(items[..|items| - 1], test) + (if test(last) then [TrimSpace(last)] else [])
  }

  /** filterStringArray: appends the trimmed form of every item that passes `test`. */
  method FilterStringArray(stringArray: seq<string>, test: string -> bool) returns (result: seq<string>)
    ensures result == Filtered(stringArray, test)
  {
    result := [];
    for i := 0 to |stringArray|
      invariant result == Filtered(stringArray[..i], test)
    {
      assert stringArray[..i + 1][..i] == stringArray[..i];
      if test(stringArray[i]) {
        result := result + [TrimSpace(stringArray[i])];
      }
    }
    assert stringArray[..|stringArray|] == stringArray;
  }

  /** The text with blank and '='-marked lines dropped and the other lines trimmed and joined by one space. */
  function WithoutBlankLinesAndMarkdown(text: string): string {
    Join(Filtered(Split(text, '\n'), BlankLinesFilter), " ")
  }

  /** removeBlankLinesAndMarkdown */
  method RemoveBlankLinesAndMarkdown(text: string) returns (r: string)
    ensures r == WithoutBlankLinesAndMarkdown(text)
  {
    var allLines := Split(text, '\n');
    var kept := FilterStringArray(allLines, BlankLinesFilter);
    r := Join(kept, " ");
  }

  /** Everything the filter keeps is the trimmed form of an item that passes. */
  lemma {:induction false} FilteredSound(items: seq<string>, test: string -> bool, x: string)
    requires x in Filtered(items, test)
    ensures exists i :: 0 <= i < |items| && test(items[i]) && x == TrimSpace(items[i])
  {
    var n := |items| - 1;
    var init := items[..n];
    var tail := if test(items[n]) then [TrimSpace(items[n])] else [];
    assert Filtered(items, test) == Filtered(init, test) + tail;
    if x in Filtered(init, test) {
      FilteredSound(init, test, x);
      var i :| 0 <= i < |init| && test(init[i]) && x == TrimSpace(init[i]);
      assert items[i] == init[i];
    } else {
      assert x in tail;
    }
  }

  /** The trimmed form of every item that passes is kept. */
  lemma {:induction false} FilteredComplete(items: seq<string>, test: string -> bool, i: nat)
    requires i < |items| && test(items[i])
    ensures TrimSpace(items[i]) in Filtered(items, test)
  {
    var n := |items| - 1;
    var init := items[..n];
    var tail := if test(items[n]) then [TrimSpace(items[n])] else [];
    assert Filtered(items, test) == Filtered(init, test) + tail;
    if i < n {
      FilteredComplete(init, test, i);
      assert init[i] == items[i];
    } else {
      assert TrimSpace(items[i]) in tail;
    }
  }

  /** A string is in the filtered list exactly when it is the trimmed form of an item that passes. */
  lemma FilteredMembership(items: seq<string>, test: string -> bool, x: string)
    ensures x in Filtered(items, test) <==> exists i :: 0 <= i < |items| && test(items[i]) && x == TrimSpace(items[i])
  {
    if x in Filtered(items, test) {
      FilteredSound(items, test, x);
    }
    if exists i :: 0 <= i < |items| && test(items[i]) && x == TrimSpace(items[i]) {
      var i :| 0 <= i < |items| && test(items[i]) && x == TrimSpace(items[i]);
      FilteredComplete(items, test, i);
    }
  }

  /** Every line the filter keeps is non-empty, trimmed, free of line breaks and does not start with '='. */
  lemma KeptLinesShape(text: string, x: string)
    requires x in Filtered(Split(text, '\n'), BlankLinesFilter)
    ensures x != [] && x[0] != '=' && IsTrimmed(x) && '\n' !in x
    ensures forall c :: c in x ==> c in text
  {
    var lines := Split(text, '\n');
    FilteredMembership(lines, BlankLinesFilter, x);
    var i :| 0 <= i < |lines| && BlankLinesFilter(lines[i]) && x == TrimSpace(lines[i]);
    TrimSpaceShape(lines[i]);
    assert !HasPrefix(x, "=");
    assert x[..1] == [x[0]];
  }

  /** The cleaned text is one trimmed line that does not start with '='; every character comes from the input or is the joining space. */
  lemma WithoutBlankLinesShape(text: string)
    ensures var r := WithoutBlankLinesAndMarkdown(text);
      && '\n' !in r
      && IsTrimmed(r)
      && (r != [] ==> r[0] != '=')
      && forall c :: c in r ==> c in text || c == ' '
  {
    var kept := Filtered(Split(text, '\n'), BlankLinesFilter);
    var r := WithoutBlankLinesAndMarkdown(text);
    forall i | 0 <= i < |kept| ensures kept[i] != [] && IsTrimmed(kept[i]) && kept[i][0] != '=' {
      KeptLinesShape(text, kept[i]);
    }
    if kept != [] {
      JoinTrimmed(kept);
    }
    forall c | c in r ensures c != '\n' && (c in text || c == ' ') {
      JoinChars(kept, " ", c);
      if c != ' ' {
        var i :| 0 <= i < |kept| && c in kept[i];
        KeptLinesShape(text, kept[i]);
      }
    }
  }

  /** A single trimmed line that does not start with '=' is left as it is. */
  lemma SingleLineKept(line: string)
    requires '\n' !in line && line != [] && IsTrimmed(line) && line[0] != '='
    ensures WithoutBlankLinesAndMarkdown(line) == line
  {
    TrimSpaceShape(line);
    assert line[..1] == [line[0]];
    assert BlankLinesFilter(line);
    assert Filtered([line], BlankLinesFilter) == Filtered([], BlankLinesFilter) + [line];
  }

  /** A second pass changes nothing: the cleaned text is a single kept line. */
  lemma WithoutBlankLinesIdempotent(text: string)
    ensures WithoutBlankLinesAndMarkdown(WithoutBlankLinesAndMarkdown(text)) == WithoutBlankLinesAndMarkdown(text)
  {
    var r := WithoutBlankLinesAndMarkdown(text);
    WithoutBlankLinesShape(text);
    if r != [] {
      SingleLineKept(r);
    } else {
      assert Split(r, '\n') == [r];
      assert Filtered([r], BlankLinesFilter) == [];
    }
  }

  lemma ExampleSplit(lines: seq<string>)
    requires lines == ["= Heading =", "Hello world", "", "  ", "Second line"]
    ensures Split(Join(lines, "\n"), '\n') == lines
  {
    forall i | 0 <= i < |lines| ensures '\n' !in lines[i] {
    }
    SplitJoin(lines, '\n');
  }

  lemma ExampleVerdicts(lines: seq<string>)
    requires lines == ["= Heading =", "Hello world", "", "  ", "Second line"]
    ensures !BlankLinesFilter(lines[0]) && !BlankLinesFilter(lines[2]) && !BlankLinesFilter(lines[3])
    ensures BlankLinesFilter(lines[1]) && TrimSpace(lines[1]) == lines[1]
    ensures BlankLinesFilter(lines[4]) && TrimSpace(lines[4]) == lines[4]
  {
    TrimSpaceShape(lines[0]);
    TrimSpaceShape(lines[1]);
    TrimSpaceShape(lines[4]);
    assert lines[0][..1] == "=";
    assert TrimLeft(lines[3][1..]) == [];
  }

  lemma ExampleFilter(lines: seq<string>)
    requires |lines| == 5
    requires !BlankLinesFilter(lines[0]) && !BlankLinesFilter(lines[2]) && !BlankLinesFilter(lines[3])
    requires BlankLinesFilter(lines[1]) && BlankLinesFilter(lines[4])
    ensures Filtered(lines, BlankLinesFilter) == [TrimSpace(lines[1]), TrimSpace(lines[4])]
  {
    var p1, p2, p3, p4 := lines[..1], lines[..2], lines[..3], lines[..4];
    assert p1[..0] == [] && p2[..1] == p1 && p3[..2] == p2 && p4[..3] == p3;
    assert Filtered(p1, BlankLinesFilter) == [];
    assert Filtered(p2, BlankLinesFilter) == [TrimSpace(lines[1])];
    assert Filtered(p4, BlankLinesFilter) == [TrimSpace(lines[1])];
  }

  /**
   * The article lines "= Heading =", "Hello world", "", "  " and "Second line":
   * the markup line, the empty line and the blank line go; the two text lines are joined.
   */
  lemma WithoutBlankLinesExample(lines: seq<string>)
    requires lines == ["= Heading =", "Hello world", "", "  ", "Second line"]
    ensures WithoutBlankLinesAndMarkdown(Join(lines, "\n")) == "Hello world" + " " + "Second line"
  {
    var text := Join(lines, "\n");
    ExampleSplit(lines);
    ExampleVerdicts(lines);
    ExampleFilter(lines);
    assert WithoutBlankLinesAndMarkdown(text) == Join(["Hello world", "Second line"], " ");
  }

  // ---------------------------------------------------------------------
  // Dates in parentheses, as the two regular expressions are written:
  // Go reads `/\((?:\([^()]*\)|[^()])*\)/gm` and `/  /g` with their slashes
  // and flag letters as literal characters.

  /** The first ')' at or after j, provided no '(' comes before it: the end of `[^()]*\)`. */
  function InnerClose(s: string, j: nat): (k: Option<nat>)
    ensures k.Some? ==> j <= k.value < |s| && s[k.value] == ')'
    decreases |s| - j
  {
    if j >= |s| then None
    else if s[j] == ')' then Some(j)
    else if s[j] == '(' then None
    else InnerClose(s, j + 1)
  }

  /** Where the greedy loop `(?:\([^()]*\)|[^()])*` starting at i stops. */
  function ItemsEnd(s: string, i: nat): (e: nat)
    requires i <= |s|
    ensures i <= e <= |s|
    decreases |s| - i
  {
    if i < |s| && s[i] != '(' && s[i] != ')' then ItemsEnd(s, i + 1)
    else if i < |s| && s[i] == '(' && InnerClose(s, i + 1).Some? then ItemsEnd(s, InnerClose(s, i + 1).value + 1)
    else i
  }

  /** The end of the first pattern's match at i, if it matches there. */
  function DatesMatchAt(s: string, i: nat): (e: Option<nat>)
    ensures e.Some? ==> i + 6 <= e.value <= |s| && s[i] == '/'
  {
    if i + 2 <= |s| && s[i] == '/' && s[i + 1] == '(' then
      var e := ItemsEnd(s, i + 2);
      if e + 4 <= |s| && s[e..e + 4] == ")/gm" then Some(e + 4) else None
    else None
  }

  /** ReplaceAllString with the first pattern and "", from position i on. */
  function ReplaceDatesFrom(s: string, i: nat): (r: string)
    requires i <= |s|
    ensures '/' !in s[i..] ==> r == s[i..]
    ensures forall c :: c in r ==> c in s[i..]
    decreases |s| - i
  {
    if i == |s| then []
    else
      assert s[i..] == [s[i]] + s[i + 1..];
      match DatesMatchAt(s, i)
      case Some(e) =>
        assert forall c :: c in s[e..] ==> c in s[i..] by {
          assert s[i..] == s[i..e] + s[e..];
        }
        ReplaceDatesFrom(s, e)
      case None => [s[i]] + ReplaceDatesFrom(s, i + 1)
  }

  /** Where the first pattern matches nowhere, the replacement leaves the text as it is. */
  lemma {:induction false} DatesUnmatchedUnchanged(s: string, i: nat)
    requires i <= |s|
    requires forall j :: i <= j < |s| ==> DatesMatchAt(s, j) == None
    ensures ReplaceDatesFrom(s, i) == s[i..]
    decreases |s| - i
  {
    if i < |s| {
      DatesUnmatchedUnchanged(s, i + 1);
      assert s[i..] == [s[i]] + s[i + 1..];
    }
  }

  /** Whether the second pattern, the five characters "/  /g", occurs at i. */
  predicate SpacesMatchAt(s: string, i: nat) {
    i + 5 <= |s| && s[i..i + 5] == "/  /g"
  }

  /** ReplaceAllString with the second pattern and " ", from position i on. */
  function ReplaceSpacesFrom(s: string, i: nat): (r: string)
    requires i <= |s|
    ensures '/' !in s[i..] ==> r == s[i..]
    ensures forall c :: c in r ==> c in s[i..] || c == ' '
    decreases |s| - i
  {
    if i == |s| then []
    else
      assert s[i..] == [s[i]] + s[i + 1..];
      if SpacesMatchAt(s, i) then
        assert s[i] == '/';
        assert forall c :: c in s[i + 5..] ==> c in s[i..] by {
          assert s[i..] == s[i..i + 5] + s[i + 5..];
        }
        " " + ReplaceSpacesFrom(s, i + 5)
      else [s[i]] + ReplaceSpacesFrom(s, i + 1)
  }

  /** removeDatesInParentheses: both patterns start with a literal '/', so text without '/' is returned unchanged. */
  function RemoveDatesInParentheses(text: string): (r: string)
    ensures '/' !in text ==> r == text
    ensures forall c :: c in r ==> c in text || c == ' '
  {
    assert text[0..] == text;
    var withoutDates := ReplaceDatesFrom(text, 0);
    assert withoutDates[0..] == withoutDates;
    ReplaceSpacesFrom(withoutDates, 0)
  }

  /** The first pattern matches a group written between "/(" and ")/gm". */
  lemma SlashedDateMatch(s: string)
    requires s == "a /(1990)/gm b"
    ensures DatesMatchAt(s, 2) == Some(12)
    ensures forall i :: 0 <= i < |s| && i != 2 ==> DatesMatchAt(s, i) == None
  {
    assert ItemsEnd(s, 8) == 8;
    assert ItemsEnd(s, 6) == 8;
    assert ItemsEnd(s, 4) == 8;
    assert s[8..12] == ")/gm";
  }

  /** What the first pattern does remove: a group written between "/(" and ")/gm". */
  lemma SlashedDatesRemoved()
    ensures RemoveDatesInParentheses("a /(1990)/gm b") == "a  b"
  {
    var s := "a /(1990)/gm b";
    SlashedDateMatch(s);
    assert ReplaceDatesFrom(s, 13) == "b";
    assert ReplaceDatesFrom(s, 12) == " b";
    assert ReplaceDatesFrom(s, 1) == "  b";
  }

  // ---------------------------------------------------------------------
  // Sanitising

  /** sanitizeContent: blank lines and markup removed, then the two replacements. */
  function SanitizeContent(originalContent: string): (r: string)
    ensures '\n' !in r
    ensures '/' !in originalContent ==> r == WithoutBlankLinesAndMarkdown(originalContent)
  {
    var withoutBlankLinesAndMarkdown := WithoutBlankLinesAndMarkdown(originalContent);
    WithoutBlankLinesShape(originalContent);
    RemoveDatesInParentheses(withoutBlankLinesAndMarkdown)
  }

  /** On text without '/', sanitising twice is sanitising once. */
  lemma SanitizeIdempotentWithoutSlash(text: string)
    requires '/' !in text
    ensures SanitizeContent(SanitizeContent(text)) == SanitizeContent(text)
  {
    var once := SanitizeContent(text);
    WithoutBlankLinesShape(text);
    assert '/' !in once;
    WithoutBlankLinesIdempotent(text);
  }

  lemma SanitizeStep(s: string, t: string)
    requires s == "//  /g /g" && t == "/  /g"
    ensures SanitizeContent(s) == t
  {
    TrimSpaceShape(s);
    SingleLineKept(s);
    assert '(' !in s;
    DatesUnmatchedUnchanged(s, 0);
    SpacesStep(s);
  }

  lemma SpacesStep(s: string)
    requires s == "//  /g /g"
    ensures ReplaceSpacesFrom(s, 0) == "/  /g"
  {
    assert ReplaceSpacesFrom(s, 6) == " /g";
    assert SpacesMatchAt(s, 1);
    assert s[0..5][1] == '/';
  }

  lemma SanitizeSecondStep(t: string)
    requires t == "/  /g"
    ensures SanitizeContent(t) == " "
  {
    TrimSpaceShape(t);
    SingleLineKept(t);
    assert '(' !in t;
    DatesUnmatchedUnchanged(t, 0);
    assert SpacesMatchAt(t, 0);
  }

  /** In general it is not: the literal "/  /g" replacement can make a new occurrence. */
  lemma SanitizeNotIdempotent(s: string)
    requires s == "//  /g /g"
    ensures SanitizeContent(s) == "/  /g"
    ensures SanitizeContent(SanitizeContent(s)) == " "
  {
    SanitizeStep(s, "/  /g");
    SanitizeSecondStep("/  /g");
  }

  // ---------------------------------------------------------------------
  // Sentences

  /** splitIntoSentences: one new record per token, in token order, with no keywords and no images. */
  method SplitIntoSentences(sourceContentSanitized: string, tokenize: string -> seq<string>) returns (sentences: seq<Sentence>)
    ensures var tokens := tokenize(sourceContentSanitized);
      && |sentences| == |tokens|
      && Distinct(sentences)
      && forall i :: 0 <= i < |sentences| ==>
           && fresh(sentences[i])
           && sentences[i].text == tokens[i] && sentences[i].keywords == [] && sentences[i].images == []
  {
    var tokenizedText := tokenize(sourceContentSanitized);
    sentences := [];
    for i := 0 to |tokenizedText|
      invariant |sentences| == i
      invariant Distinct(sentences)
      invariant forall k :: 0 <= k < i ==>
        && fresh(sentences[k])
        && sentences[k].text == tokenizedText[k] && sentences[k].keywords == [] && sentences[k].images == []
    {
      var sentence := new Sentence(tokenizedText[i]);
      sentences := sentences + [sentence];
    }
  }

  /** sentences[0:maxSentences]: the first ten, in order; fewer than ten is an error. */
  function FirstSentences<T>(sentences: seq<T>): (r: Result<seq<T>, TextError>)
    ensures r.Success? <==> |sentences| >= MaxSentences
    ensures r.Success? ==> |r.value| == MaxSentences && forall i :: 0 <= i < MaxSentences ==> r.value[i] == sentences[i]
    ensures r.Failure? ==> r.error == TooFewSentences(|sentences|)
  {
    if |sentences| < MaxSentences then Failure(TooFewSentences(|sentences|))
    else Success(sentences[0..MaxSentences])
  }

  /** Appends the keywords one by one to the sentence. */
  method AppendKeywords(sentence: Sentence, keywords: seq<string>)
    modifies sentence
    ensures sentence.keywords == old(sentence.keywords) + keywords
    ensures sentence.text == old(sentence.text) && sentence.images == old(sentence.images)
  {
    for j := 0 to |keywords|
      invariant sentence.keywords == old(sentence.keywords) + keywords[..j]
      invariant sentence.text == old(sentence.text) && sentence.images == old(sentence.images)
    {
      assert keywords[..j + 1] == keywords[..j] + [keywords[j]];
      sentence.keywords := sentence.keywords + [keywords[j]];
    }
    assert keywords[..|keywords|] == keywords;
  }

  /**
   * fetchWatsonAndReturnKeywords: each sentence's keywords grow by what the
   * service returns for its text, in that order; nothing else changes.
   */
  method FetchWatsonAndReturnKeywords(sentences: seq<Sentence>, analyze: string -> seq<string>) returns (r: seq<Sentence>)
    requires Distinct(sentences)
    modifies sentences
    ensures r == sentences
    ensures forall i :: 0 <= i < |sentences| ==>
      && sentences[i].text == old(sentences[i].text)
      && sentences[i].images == old(sentences[i].images)
      && sentences[i].keywords == old(sentences[i].keywords) + analyze(old(sentences[i].text))
  {
    for i := 0 to |sentences|
      invariant forall k :: 0 <= k < |sentences| ==>
        sentences[k].text == old(sentences[k].text) && sentences[k].images == old(sentences[k].images)
      invariant forall k :: 0 <= k < i ==>
        sentences[k].keywords == old(sentences[k].keywords) + analyze(old(sentences[k].text))
      invariant forall k :: i <= k < |sentences| ==> sentences[k].keywords == old(sentences[k].keywords)
    {
      var sentence := sentences[i];
      AppendKeywords(sentence, analyze(sentence.text));
    }
    r := sentences;
  }

  /**
   * Start, given the article text the content source returned: on success the
   * state holds the original and the sanitised text and ten new sentences
   * with their keywords; with fewer than ten sentences the state is untouched.
   */
  method Start(state: State, content: string, tokenize: string -> seq<string>, analyze: string -> seq<string>)
    returns (outcome: Outcome<TextError>)
    modifies state
    ensures var tokens := tokenize(SanitizeContent(content));
      && (outcome.Pass? <==> |tokens| >= MaxSentences)
      && (outcome.Fail? ==> outcome.error == TooFewSentences(|tokens|) && unchanged(state))
      && (outcome.Pass? ==>
           && state.searchTerm == old(state.searchTerm) && state.prefix == old(state.prefix)
           && state.sourceContentOriginal == content
           && state.sourceContentSanitized == SanitizeContent(content)
           && |state.sentences| == MaxSentences
           && Distinct(state.sentences)
           && forall i :: 0 <= i < MaxSentences ==>
                && fresh(state.sentences[i])
                && state.sentences[i].text == tokens[i]
                && state.sentences[i].keywords == analyze(tokens[i])
                && state.sentences[i].images == [])
  {
    var sanitizedContent := SanitizeContent(content);
    var sentences := SplitIntoSentences(sanitizedContent, tokenize);
    var sliced := FirstSentences(sentences);
    if sliced.Failure? {
      return Fail(sliced.error);
    }
    var sentencesSliced := sliced.value;
    var sentencesWithKeywords := FetchWatsonAndReturnKeywords(sentencesSliced, analyze);
    state.sourceContentOriginal := content;
    state.sourceContentSanitized := sanitizedContent;
    state.sentences := sentencesWithKeywords;
    outcome := Pass;
  }
}
