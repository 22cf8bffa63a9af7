/**
 * The state the robots share. The robots hold sentences through pointers and
 * update their keywords and images in place, so a sentence is an object.
 */
module Robot {

  /** One sentence of the article: its text, the keywords found for it and the image links found for it. */
  class Sentence {
    var text: string
    var keywords: seq<string>
    var images: seq<string>

    constructor (text: string)
      ensures this.text == text && keywords == [] && images == []
    {
      this.text := text;
      keywords := [];
      images := [];
    }
  }

  /** No sentence record appears twice in the list. */
  predicate Distinct(sentences: seq<Sentence>) {
    forall i, j :: 0 <= i < j < |sentences| ==> sentences[i] != sentences[j]
  }

  /** The state passed from robot to robot. */
  class State {
    var searchTerm: string
    var prefix: string
    var sourceContentOriginal: string
    var sourceContentSanitized: string
    var sentences: seq<Sentence>

    constructor (searchTerm: string, prefix: string)
      ensures this.searchTerm == searchTerm && this.prefix == prefix
      ensures sourceContentOriginal == [] && sourceContentSanitized == [] && sentences == []
    {
      this.searchTerm := searchTerm;
      this.prefix := prefix;
      sourceContentOriginal := [];
      sourceContentSanitized := [];
      sentences := [];
    }
  }
}
