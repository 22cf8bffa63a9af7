# Slide-maker robots, modelled in Dafny

This project models the core of a small Go program. The program turns a
search term into a Google Slides presentation, and it does so with three
"robots" that pass one shared `State` from hand to hand:

- The **text robot** (`pkg/robots/text.go`) takes the article text that the
  content source returned and sanitises it:
  - it removes blank lines and `=`-marked heading lines;
  - it trims the remaining lines and joins them with single spaces;
  - it applies the two "dates in parentheses" regular expressions.

  It then splits the text into sentences and keeps the first ten. The
  keywords the language service finds are attached to each kept sentence.
- The **image robot** (`pkg/robots/image.go`) asks the image search for
  links for every sentence and appends them to that sentence's images. The
  first sentence is searched by the search term alone. Every later sentence
  is searched by the term, a space and its first keyword.
- The **slides robot** (`pkg/robots/slides.go`) builds one batch-update
  request list for the deck. Each sentence gets five requests: a blank slide
  (carrying insertion index 0), a text box, the text, the text style, and the
  sentence's first image. Object ids are `S`, `T` or `I` followed by a
  suffix from the id generator.

Modules:

- `Wrappers`: `Option`, `Result` and `Outcome`.
- `GoStrings`: the parts of Go's `strings` package the robots use: `Split`,
  `TrimSpace` with Unicode white space, `Join` and `HasPrefix`.
- `Robot`: the `Sentence` and `State` objects.
- `TextRobot`, `ImageRobot` and `SlidesRobot`: the three robots.

How the model represents the program:

- **Sentences are objects.** The Go code holds sentences as `*Sentence`
  pointers and appends to their `Keywords` and `Images` in place, so
  `Sentence` is a class. The methods that update a list of sentences require
  the records to be distinct. `SplitIntoSentences` proves that the records
  it makes are fresh and distinct.
- **Panics are typed errors.** A panic in the source becomes an error value,
  and the state the source had already changed is stated in the contract:
  - `sentences[0:10]` with fewer than ten sentences becomes
    `TooFewSentences`.
  - `Keywords[0]` on a later sentence without keywords becomes
    `MissingKeyword(i)`. The images appended to the earlier sentences stay.
  - `Images[0]` on a sentence without images becomes `MissingImage(i)`. The
    generator has by then been called for that sentence's slide and text
    box, so it has advanced by `3i + 2` calls.
- **The truncation to ten sentences follows the code.** The name
  `maxSentences := 10` (`pkg/robots/text.go:38`) reads as an upper bound,
  but line 40 slices `sentences[0:maxSentences]` without a length check, and
  the model follows the code. Go checks that slice against the capacity of
  the backing array, not its length. When it does not panic, the extra
  entries are nil pointers, and the keyword loop dereferences the first of
  them. Either way the run stops before `State` is written, so the model
  returns `TooFewSentences` and leaves the state as it was.
- **The two regular expressions are taken as Go reads them.** They are
  written in JavaScript style, `/\((…)\)/gm` and `/  /g`, and Go treats the
  slashes and flag letters as literal characters.
  - The first pattern removes only groups written between `/(` and `)/gm`.
  - The second pattern replaces the five characters `/  /g` by one space.
  - Text without a `/` therefore passes through unchanged.

  The model proves that sanitising is idempotent on such text. It also
  proves, with a concrete input, that sanitising is not idempotent in
  general.
- **Slides are added at the end of the deck, in sentence order.** Every
  slide request carries insertion index 0 in the Go struct. The Slides
  client (`google.golang.org/api/slides/v1`) declares `insertionIndex` as
  `omitempty`, and the robot sets no `ForceSendFields`, so a zero index is
  left out of the request body. The service puts a slide sent without an
  index at the end of the deck. `ApplyToDeck` models the request as sent.
  The model proves that applying the batch keeps the slides already in the
  deck in front and adds the sentences' slides after them, in sentence
  order.
- **The id generator is an object with a counter.** `IdSupply` stands in for
  `betterguid.New()`: call number `n` returns `suffix(n)`. The model proves
  that the ids in a batch follow the calls one to one. That no two objects
  share an id is proved under the hypothesis `Injective(suffix)`, the
  distinctness the generator is relied on for.
- **Numbers.** The Go code passes sizes and offsets as `float64`. All the
  values involved are whole numbers, so the model uses `int`.

## Model

| member | source | states |
|---|---|---|
| GoStrings.Split | pkg/robots/text.go:99 | `strings.Split` on `'\n'` gives at least one piece; no piece holds the separator; a text without it is a single piece; every character of a piece comes from the text |
| GoStrings.JoinSplit | pkg/robots/text.go:99 | joining the pieces of a split with the separator gives back the text |
| GoStrings.SplitJoin | pkg/robots/text.go:99 | splitting a join of separator-free parts gives back the parts |
| GoStrings.TrimSpaceShape | pkg/robots/text.go:104 | `strings.TrimSpace` returns a string without leading or trailing white space, and leaves an already trimmed string unchanged |
| GoStrings.TrimSpaceSlice | pkg/robots/text.go:110 | `strings.TrimSpace` returns a slice `s[a..b]` of its input with only white space before `a` and after `b`; with `TrimSpaceShape` this determines the result |
| GoStrings.JoinTrimmed | pkg/robots/text.go:117 | joining non-empty trimmed lines with one space gives a non-empty trimmed string that starts with the first line's first character |
| TextRobot.FilterStringArray | pkg/robots/text.go:101-108 | returns, in order, the trimmed form of exactly the items that pass the test (the `Filtered` list) |
| TextRobot.FilteredMembership | pkg/robots/text.go:101-108 | a string is in the filtered list if and only if it is the trimmed form of an item that passes the test |
| TextRobot.FilteredSound | pkg/robots/text.go:102-105 | everything in the filtered list comes from an item that passes |
| TextRobot.FilteredComplete | pkg/robots/text.go:102-105 | every item that passes contributes its trimmed form |
| TextRobot.BlankLinesFilterKeeps | pkg/robots/text.go:109-115 | `blankLinesFilter` keeps a line if and only if the line holds a character that is not white space and the first such character is not '=' |
| TextRobot.KeptLinesShape | pkg/robots/text.go:109-115 | every kept line is non-empty and trimmed, holds no line break, and does not start with '=' |
| TextRobot.RemoveBlankLinesAndMarkdown | pkg/robots/text.go:98-118 | the result is the text split on '\n', filtered by the blank-line test, and joined with single spaces |
| TextRobot.WithoutBlankLinesShape | pkg/robots/text.go:98-118 | the cleaned text is one trimmed line that does not start with '='; every character comes from the input or is the joining space |
| TextRobot.SingleLineKept | pkg/robots/text.go:109-117 | a single trimmed line that does not start with '=' comes out as it went in |
| TextRobot.WithoutBlankLinesIdempotent | pkg/robots/text.go:98-118 | cleaning the cleaned text changes nothing |
| TextRobot.WithoutBlankLinesExample | pkg/robots/text.go:98-118 | for the lines "= Heading =", "Hello world", "", "  " and "Second line", the heading, empty and blank lines go and the result is "Hello world Second line" |
| TextRobot.ReplaceDatesFrom | pkg/robots/text.go:123 | `ReplaceAllString` with the first pattern and "", scanning from a position on: text without '/' comes back unchanged, and every character of the result comes from the scanned text |
| TextRobot.ReplaceSpacesFrom | pkg/robots/text.go:124 | `ReplaceAllString` with the second pattern and " ", scanning from a position on: text without '/' comes back unchanged, and every character of the result comes from the scanned text or is the replacement space |
| TextRobot.DatesUnmatchedUnchanged | pkg/robots/text.go:121-123 | where the first pattern matches nowhere, `ReplaceAllString` returns the text unchanged |
| TextRobot.RemoveDatesInParentheses | pkg/robots/text.go:120-126 | text without '/' is returned unchanged; the result holds only characters of the input and spaces |
| TextRobot.SlashedDateMatch | pkg/robots/text.go:121 | in "a /(1990)/gm b" the first pattern matches exactly once, from position 2 to position 12 |
| TextRobot.SlashedDatesRemoved | pkg/robots/text.go:121-124 | "a /(1990)/gm b" becomes "a  b": only a group between "/(" and ")/gm" is removed |
| TextRobot.SanitizeContent | pkg/robots/text.go:92-96 | the sanitised text holds no line break; on text without '/' it equals the blank-line-free text |
| TextRobot.SanitizeIdempotentWithoutSlash | pkg/robots/text.go:92-126 | on text without '/', sanitising twice gives the same as sanitising once |
| TextRobot.SanitizeNotIdempotent | pkg/robots/text.go:122-124 | "//  /g /g" sanitises to "/  /g" and that sanitises to " ": the literal replacement can create a new match |
| TextRobot.SplitIntoSentences | pkg/robots/text.go:128-139 | one fresh, distinct sentence per token, in token order, with the token's text and no keywords or images |
| TextRobot.FirstSentences | pkg/robots/text.go:38-40 | succeeds if and only if there are at least ten sentences, and then returns the first ten in order; otherwise the error is `TooFewSentences` with the count |
| TextRobot.AppendKeywords | pkg/robots/text.go:165-167 | the sentence's keywords grow by exactly the given keywords, in order; its text and images are untouched |
| TextRobot.FetchWatsonAndReturnKeywords | pkg/robots/text.go:155-172 | the same list is returned; each sentence's keywords grow by what the service returns for its text; texts and images are unchanged |
| TextRobot.Start | pkg/robots/text.go:32-48 | it passes if and only if the sanitised text has at least ten sentences. On a pass, the state holds the original text, the sanitised text and ten fresh, distinct sentences, with the first ten tokens as texts, their keywords, and no images. On a failure the state is unchanged |
| ImageRobot.SearchQuery | pkg/robots/image.go:30-35 | the first sentence's query is the search term; a later sentence's query is the term, a space and its first keyword; there is no query exactly when a later sentence has no keyword |
| ImageRobot.FirstMissingKeyword | pkg/robots/image.go:29-35 | the first sentence after the first one without a keyword, or the list length if every later sentence has one (in both directions) |
| ImageRobot.AppendImages | pkg/robots/image.go:43-45 | the sentence's images grow by exactly the links, in order; its text and keywords are untouched |
| ImageRobot.FetchImageOfAllSentences | pkg/robots/image.go:24-49 | it passes if and only if every later sentence has a keyword; otherwise the error names the first one that has none. The sentences before that one gain the links for their own query; that one and those after keep their images. Texts and keywords never change |
| ImageRobot.Start | pkg/robots/image.go:16-22 | it runs the image search over the state's sentences with the state's search term, with the same outcome and effects |
| SlidesRobot.IdSupply.New | pkg/robots/slides.go:52 | each call returns the suffix for the current call number and advances the counter by one |
| SlidesRobot.FirstMissingImage | pkg/robots/slides.go:51-56 | the first sentence without an image, or the list length exactly when every sentence has one; all sentences before it have one |
| SlidesRobot.Batch | pkg/robots/slides.go:48-63 | it fails if and only if some sentence has no image, and then names the first such sentence; on success it holds five requests per sentence |
| SlidesRobot.CreateRequestsForSlidePages | pkg/robots/slides.go:48-63 | it returns the batch for the sentences' texts and images as they were. The generator advances by three calls per sentence, or by 3i + 2 when sentence i is the first without an image |
| SlidesRobot.SlideBodyRequestCreatesSlide | pkg/robots/slides.go:65-75 | `createSlideBodyRequest` creates exactly the slide whose id it is given, with the blank layout and the given index, and depends on no other object |
| SlidesRobot.TextRequestsFillOwnBox | pkg/robots/slides.go:77-127 | `insertTextRequests` creates one object, the text box `"T" + suffix`: a square of `boxSize` pt at (translateX, translateY) pt on the given slide. Its other two requests insert the text at the start of that box and set `fontSize` pt Montserrat on it |
| SlidesRobot.ImageRequestPlacesImage | pkg/robots/slides.go:129-155 | `insertImageRequest` creates one object, the image `"I" + suffix` with the given link, on the given slide: a square of 4000000 EMU whose left edge is at translateX EMU |
| SlidesRobot.BlocksAt | pkg/robots/slides.go:50-61 | the i-th five requests of the batch are the block of the i-th sentence, built from generator calls start + 3i to start + 3i + 2 |
| SlidesRobot.BatchBlocks | pkg/robots/slides.go:54-155 | every block holds five requests: a blank slide at index 0; a text box on that slide; the sentence's text at index 0 of the box; the box's style; and the sentence's first image on the same slide. All blocks share the 350 pt box at (350, 100) pt, 16 pt Montserrat, and the 4000000 EMU image at (100000, 100000) EMU |
| SlidesRobot.ImageLeftOfTextBox | pkg/robots/slides.go:55-56 | on every slide the image's right edge lies to the left of the text box's left edge (4100000 < 4445000 EMU) |
| SlidesRobot.CreatedIdsFollowCalls | pkg/robots/slides.go:52-56 | the batch creates three objects per sentence; the m-th created id is one letter followed by the suffix of generator call start + m |
| SlidesRobot.CreatedIdsDistinct | pkg/robots/slides.go:52-56 | if the generator never repeats a suffix, no two objects of a batch share an id |
| SlidesRobot.BatchWellReferenced | pkg/robots/slides.go:48-155 | every slide or text box a request refers to is created by an earlier request of the same batch |
| SlidesRobot.BatchSlides | pkg/robots/slides.go:52-54 | the batch creates the sentences' slides in sentence order, each carrying insertion index 0, which the client does not send |
| SlidesRobot.DeckAppended | pkg/robots/slides.go:54 | requests whose slides all carry index 0, and so are sent without an index, add the slides they create after the deck's slides, in request order |
| SlidesRobot.DeckInSentenceOrder | pkg/robots/slides.go:48-63 | applying the batch to a deck gives the deck followed by the sentences' slides in sentence order |
| SlidesRobot.DeckOrder | pkg/robots/slides.go:48-63 | after the batch, the deck's earlier slides stay in front and the slide of sentence i follows them at offset i |

## Left out

- Fetching the article from the content search service and decoding its
  JSON (`pkg/robots/text.go:50-90`). These are network calls, so the
  article text is a parameter of `TextRobot.Start`.
- The sentence tokenizer and its training data (`pkg/robots/text.go:141-153`).
  The tokenizer is a function parameter of `TextRobot.SplitIntoSentences`.
- The keyword service (`pkg/robots/text.go:157-164`, `174-191`). Its client
  construction is left out, and it is modelled as a function from sentence
  text to keywords that always answers. In the source a failed call crashes
  the run: `pkg/robots/text.go:164` discards the error, and line 165 reads
  `Keywords` from the nil result. The model leaves this failure out.
- The image search client and its configuration
  (`pkg/robots/image.go:25-27`, `38-41`, `51-59`). This covers the
  environment variables, the `Num(2)` result cap and `log.Fatalf` on a
  failed search. The search is a function from query to links, and a cap on
  how many links come back is not modelled.
- The Slides service: authorisation, creating the presentation, and sending
  the batch (`pkg/robots/slides.go:20-46`, `157-199`). The slides robot's
  `Start` and `createPresentation` are these calls, so they are not
  modelled. The model stops at the request list and describes the batch's
  effect on slide order with `DeckAfter`, which covers only slide creation
  and the insertion index as the client sends it. The `presentationID` argument of
  `createRequestsForSlidePages` is unused in the source and is dropped.
- `betterguid`'s time-based, ordered suffixes. The suffixes are a function
  of the call number, and their distinctness is a hypothesis
  (`Injective`).
- Aliasing between sentence records. The list-updating methods require
  distinct records.
- `float64` values, which are modelled as `int`. Every value the robots use
  is a whole number.
- The `Sentence` type is not part of this model's sources. Its fields
  (`Text`, `Keywords`, `Images`) are taken from their uses. `State` in
  `pkg/robots/robot.go:4-10` declares `Sentences` as `[]string`, while the
  robots store and read `[]*Sentence`. The model follows the robots.
- The user prompts (`pkg/robots/user_input.go`), the program's entry point
  (`cmd/main.go`), the error helpers (`pkg/robots/errors.go`) and logging.
- Invalid UTF-8. Strings are sequences of characters.
