/**
 * The image robot: for every sentence it asks the image search for links and
 * appends them to the sentence. The first sentence is searched by the search
 * term alone, every later one by the term and the sentence's first keyword.
 * The search service is passed in as a function from query to links.
 */
module ImageRobot {
  import opened Wrappers
  import opened Robot

  /** The sentence at `index` has no keyword to search with (the source indexes Keywords[0] and panics). */
  datatype ImageError = MissingKeyword(index: nat)

  /**
   * The query for the sentence at `index`: the search term for the first
   * sentence, the term, a space and the first keyword for the others;
   * None where a later sentence has no keyword.
   */
  function SearchQuery(searchTerm: string, index: nat, keywords: seq<string>): (q: Option<string>)
    ensures q.None? <==> index > 0 && keywords == []
    ensures index == 0 ==> q == Some(searchTerm)
    ensures q.Some? && index > 0 ==>
      && |q.value| == |searchTerm| + 1 + |keywords[0]|
      && q.value[..|searchTerm|] == searchTerm
      && q.value[|searchTerm|] == ' '
      && q.value[|searchTerm| + 1..] == keywords[0]
  {
    if index == 0 then Some(searchTerm)
    else if keywords == [] then None
    else Some(searchTerm + " " + keywords[0])
  }

  /** The first index from `from` on whose keyword list is empty, or |keywords| if there is none. */
  function MissingFrom(keywords: seq<seq<string>>, from: nat): (k: nat)
    ensures k <= |keywords|
    ensures forall i :: from <= i < k ==> keywords[i] != []
    ensures k < |keywords| ==> from <= k && keywords[k] == []
    decreases |keywords| - from
  {
    if from >= |keywords| then |keywords|
    else if keywords[from] == [] then from
    else MissingFrom(keywords, from + 1)
  }

  /**
   * The first sentence, after the first one, that has no keyword; the
   * length of the list when every later sentence has one.
   */
  function FirstMissingKeyword(keywords: seq<seq<string>>): (k: nat)
    ensures k <= |keywords|
    ensures k == |keywords| <==> forall i :: 0 < i < |keywords| ==> keywords[i] != []
    ensures k < |keywords| ==> 0 < k && keywords[k] == [] && forall i :: 0 < i < k ==> keywords[i] != []
  {
    MissingFrom(keywords, 1)
  }

  /** The keyword lists of the sentences, in order. */
  function KeywordsOf(sentences: seq<Sentence>): seq<seq<string>>
    reads sentences
  {
    seq(|sentences|, i requires 0 <= i < |sentences| reads sentences => sentences[i].keywords)
  }

  /** Appends the links one by one to the sentence's images. */
  method AppendImages(sentence: Sentence, links: seq<string>)
    modifies sentence
    ensures sentence.images == old(sentence.images) + links
    ensures sentence.text == old(sentence.text) && sentence.keywords == old(sentence.keywords)
  {
    for j := 0 to |links|
      invariant sentence.images == old(sentence.images) + links[..j]
      invariant sentence.text == old(sentence.text) && sentence.keywords == old(sentence.keywords)
    {
      assert links[..j + 1] == links[..j] + [links[j]];
      sentence.images := sentence.images + [links[j]];
    }
    assert links[..|links|] == links;
  }

  /**
   * fetchImageOfAllSentences: up to the first later sentence without a
   * keyword, each sentence's images grow by what the search returns for its
   * query; that sentence stops the run with MissingKeyword and it and the
   * ones after it keep their images. Texts and keywords never change.
   */
  method FetchImageOfAllSentences(sentences: seq<Sentence>, searchTerm: string, search: string -> seq<string>)
    returns (outcome: Outcome<ImageError>)
    requires Distinct(sentences)
    modifies sentences
    ensures var k := FirstMissingKeyword(old(KeywordsOf(sentences)));
      && (outcome.Pass? <==> forall i :: 0 < i < |sentences| ==> old(sentences[i].keywords) != [])
      && (outcome.Fail? ==> outcome.error == MissingKeyword(k) && k < |sentences|)
      && forall i :: 0 <= i < |sentences| ==>
           && sentences[i].text == old(sentences[i].text)
           && sentences[i].keywords == old(sentences[i].keywords)
           && (i < k ==>
                 && SearchQuery(searchTerm, i, sentences[i].keywords).Some?
                 && sentences[i].images ==
                    old(sentences[i].images) + search(SearchQuery(searchTerm, i, sentences[i].keywords).value))
           && (k <= i ==> sentences[i].images == old(sentences[i].images))
  {
    ghost var before := KeywordsOf(sentences);
    for index := 0 to |sentences|
      invariant forall j :: 0 <= j < |sentences| ==>
        sentences[j].text == old(sentences[j].text) && sentences[j].keywords == before[j]
      invariant forall j :: 0 < j < index ==> before[j] != []
      invariant forall j :: 0 <= j < index ==>
        SearchQuery(searchTerm, j, sentences[j].keywords).Some? &&
        sentences[j].images == old(sentences[j].images) + search(SearchQuery(searchTerm, j, sentences[j].keywords).value)
      invariant forall j :: index <= j < |sentences| ==> sentences[j].images == old(sentences[j].images)
    {
      var sentence := sentences[index];
      var searchQuery := SearchQuery(searchTerm, index, sentence.keywords);
      if searchQuery.None? {
        assert before[index] == [];
        return Fail(MissingKeyword(index));
      }
      var links := search(searchQuery.value);
      AppendImages(sentence, links);
    }
    return Pass;
  }

  /** Start: runs the image search over the sentences the state holds. */
  method Start(state: State, search: string -> seq<string>) returns (outcome: Outcome<ImageError>)
    requires Distinct(state.sentences)
    modifies state.sentences
    ensures var k := FirstMissingKeyword(old(KeywordsOf(state.sentences)));
      && (outcome.Pass? <==> k == |state.sentences|)
      && (outcome.Fail? ==> outcome.error == MissingKeyword(k))
      && forall i :: 0 <= i < |state.sentences| ==>
           && state.sentences[i].text == old(state.sentences[i].text)
           && state.sentences[i].keywords == old(state.sentences[i].keywords)
           && (i < k ==>
                 && SearchQuery(state.searchTerm, i, state.sentences[i].keywords).Some?
                 && state.sentences[i].images ==
                    old(state.sentences[i].images) + search(SearchQuery(state.searchTerm, i, state.sentences[i].keywords).value))
           && (k <= i ==> state.sentences[i].images == old(state.sentences[i].images))
  {
    outcome := FetchImageOfAllSentences(state.sentences, state.searchTerm, search);
  }
}
