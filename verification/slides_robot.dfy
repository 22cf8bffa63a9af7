/**
 * The slides robot's request builder: for every sentence it lays out one
 * slide (the slide itself, a text box holding the sentence, the text, its
 * style, and the sentence's first image) as five Google Slides batch-update
 * requests. Object ids are a letter followed by a generated suffix; the
 * suffix generator is an object whose counter advances on every call, and
 * which suffix it hands out for each call is a parameter.
 */
module SlidesRobot {
  import opened Wrappers
  import opened Robot

  // ---------------------------------------------------------------------
  // The requests

  datatype Dimension = Dimension(magnitude: int, unit: string)
  datatype Size = Size(height: Dimension, width: Dimension)
  datatype AffineTransform = AffineTransform(scaleX: int, scaleY: int, translateX: int, translateY: int, unit: string)
  datatype PageElementProperties = PageElementProperties(pageObjectId: string, size: Size, transform: AffineTransform)
  datatype TextStyle = TextStyle(fontSize: Dimension, fontFamily: string)

  /** The five kinds of batch-update request the robot sends. */
  datatype Request =
    | CreateSlide(objectId: string, insertionIndex: int, predefinedLayout: string)
    | CreateShape(objectId: string, shapeType: string, elementProperties: PageElementProperties)
    | InsertText(objectId: string, insertionIndex: int, text: string)
    | UpdateTextStyle(objectId: string, style: TextStyle, fields: string)
    | CreateImage(objectId: string, url: string, elementProperties: PageElementProperties)

  /** The sentence at `index` has no image (the source indexes Images[0] and panics). */
  datatype SlidesError = MissingImage(index: nat)

  // The layout the robot passes for every sentence.
  const FontSize := 16
  const BoxSize := 350
  const TextTranslateX := 350
  const TextTranslateY := 100
  const ImageTranslate := 100000
  const ImageSide := 4000000

  /** English Metric Units per typographic point. */
  const EmuPerPoint := 12700

  /** The request creates an object of its own (a slide, a shape or an image). */
  predicate Creates(r: Request) {
    r.CreateSlide? || r.CreateShape? || r.CreateImage?
  }

  /** The object a request depends on: the page it is placed on, or the shape it edits. */
  function Reference(r: Request): Option<string> {
    match r
    case CreateSlide(_, _, _) => None
    case CreateShape(_, _, properties) => Some(properties.pageObjectId)
    case InsertText(id, _, _) => Some(id)
    case UpdateTextStyle(id, _, _) => Some(id)
    case CreateImage(_, _, properties) => Some(properties.pageObjectId)
  }

  /** createSlideBodyRequest: a blank slide with the given id and insertion index. */
  function CreateSlideBodyRequest(slideId: string, index: int): (r: Request)
  {
    CreateSlide(slideId, index, "BLANK")
  }

  /**
   * insertTextRequests, given the suffix it draws for the text box: a square
   * text box on the slide, then the text inserted at its start, then its
   * font size and family.
   */
  function InsertTextRequests(text: string, slideId: string, fontSize: int, boxSize: int,
                              translateX: int, translateY: int, guid: string): (rs: seq<Request>)
  {
    var textBoxId := "T" + guid;
    var boxSizeDimension := Dimension(boxSize, "PT");
    var fontSizeDimension := Dimension(fontSize, "PT");
    [ CreateShape(textBoxId, "TEXT_BOX",
        PageElementProperties(slideId, Size(boxSizeDimension, boxSizeDimension),
          AffineTransform(1, 1, translateX, translateY, "PT"))),
      InsertText(textBoxId, 0, text),
      UpdateTextStyle(textBoxId, TextStyle(fontSizeDimension, "Montserrat"), "fontSize, fontFamily") ]
  }

  /** insertImageRequest, given the suffix it draws: the image, 4000000 EMU square, placed on the slide. */
  function InsertImageRequest(imageUrl: string, slideId: string, translateX: int, translateY: int, guid: string): (r: Request)
  {
    var dimension := Dimension(ImageSide, "EMU");
    CreateImage("I" + guid, imageUrl,
      PageElementProperties(slideId, Size(dimension, dimension),
        AffineTransform(1, 1, translateX, translateY, "EMU")))
  }

  /** createSlideBodyRequest creates exactly the slide it is given, blank, at the given index, and depends on nothing. */
  lemma SlideBodyRequestCreatesSlide(slideId: string, index: int)
    ensures var r := CreateSlideBodyRequest(slideId, index);
      && CreatedIds([r]) == [slideId] && Reference(r) == None
      && r.CreateSlide? && r.insertionIndex == index && r.predefinedLayout == "BLANK"
  {
    var r := CreateSlideBodyRequest(slideId, index);
    assert [r][..0] == [];
  }

  /**
   * insertTextRequests creates one object, the text box "T" + guid, placed on
   * the slide as a square of `boxSize` points at (translateX, translateY)
   * points; the other two requests put the text at the start of that box and
   * set its font size and family.
   */
  lemma TextRequestsFillOwnBox(text: string, slideId: string, fontSize: int, boxSize: int,
                               translateX: int, translateY: int, guid: string)
    ensures var rs := InsertTextRequests(text, slideId, fontSize, boxSize, translateX, translateY, guid);
      && |rs| == 3 && CreatedIds(rs) == ["T" + guid]
      && Reference(rs[0]) == Some(slideId) && Reference(rs[1]) == Some("T" + guid) && Reference(rs[2]) == Some("T" + guid)
      && rs[0].CreateShape? && rs[0].shapeType == "TEXT_BOX"
      && rs[0].elementProperties.size == Size(Dimension(boxSize, "PT"), Dimension(boxSize, "PT"))
      && rs[0].elementProperties.transform == AffineTransform(1, 1, translateX, translateY, "PT")
      && rs[1].InsertText? && rs[1].insertionIndex == 0 && rs[1].text == text
      && rs[2].UpdateTextStyle? && rs[2].style == TextStyle(Dimension(fontSize, "PT"), "Montserrat")
      && rs[2].fields == "fontSize, fontFamily"
  {
    var rs := InsertTextRequests(text, slideId, fontSize, boxSize, translateX, translateY, guid);
    assert rs == [] + [rs[0]] + [rs[1]] + [rs[2]];
    CreatedIdsPush([], rs[0]);
    CreatedIdsPush([rs[0]], rs[1]);
    assert [rs[0]] + [rs[1]] == [rs[0], rs[1]];
    CreatedIdsPush([rs[0], rs[1]], rs[2]);
  }

  /**
   * insertImageRequest creates one object, the image "I" + guid with the
   * given link, on the slide: a square of ImageSide EMU whose left edge is at
   * translateX EMU.
   */
  lemma ImageRequestPlacesImage(imageUrl: string, slideId: string, translateX: int, translateY: int, guid: string)
    ensures var r := InsertImageRequest(imageUrl, slideId, translateX, translateY, guid);
      && CreatedIds([r]) == ["I" + guid] && Reference(r) == Some(slideId)
      && r.CreateImage? && r.url == imageUrl
      && r.elementProperties.size == Size(Dimension(ImageSide, "EMU"), Dimension(ImageSide, "EMU"))
      && r.elementProperties.transform == AffineTransform(1, 1, translateX, translateY, "EMU")
      && LeftEdge(r.elementProperties) == translateX
      && RightEdge(r.elementProperties) == translateX + ImageSide
  {
    var r := InsertImageRequest(imageUrl, slideId, translateX, translateY, guid);
    assert [r][..0] == [];
  }

  // ---------------------------------------------------------------------
  // Id suffixes

  /** The generator of id suffixes: call number `count` returns `suffix(count)`. */
  class IdSupply {
    const suffix: nat -> string
    var count: nat

    constructor (suffix: nat -> string)
      ensures this.suffix == suffix && count == 0
    {
      this.suffix := suffix;
      count := 0;
    }

    /** betterguid.New: the next suffix. */
    method New() returns (id: string)
      modifies this
      ensures id == suffix(old(count)) && count == old(count) + 1
    {
      id := suffix(count);
      count := count + 1;
    }
  }

  /** No two calls of the generator return the same suffix. */
  ghost predicate Injective(suffix: nat -> string) {
    forall i, j :: i != j ==> suffix(i) != suffix(j)
  }

  // ---------------------------------------------------------------------
  // The batch

  /** What the builder reads from a sentence. */
  datatype SlideContent = SlideContent(text: string, images: seq<string>)

  function ContentsOf(sentences: seq<Sentence>): (contents: seq<SlideContent>)
    reads sentences
    ensures |contents| == |sentences|
  {
    if sentences == [] then []
    else
      var last := sentences[|sentences| - 1];
      ContentsOf(sentences[..|sentences| - 1]) + [SlideContent(last.text, last.images)]
  }

  lemma {:induction false} ContentsAt(sentences: seq<Sentence>, i: nat)
    requires i < |sentences|
    ensures ContentsOf(sentences)[i] == SlideContent(sentences[i].text, sentences[i].images)
    decreases |sentences|
  {
    var n := |sentences| - 1;
    if i < n {
      ContentsAt(sentences[..n], i);
    }
  }

  predicate HasImages(contents: seq<SlideContent>) {
    forall i :: 0 <= i < |contents| ==> contents[i].images != []
  }

  /** The first sentence from `from` on without an image, or the length of the list. */
  function MissingImageFrom(contents: seq<SlideContent>, from: nat): (k: nat)
    ensures k <= |contents|
    ensures forall i :: from <= i < k ==> contents[i].images != []
    ensures k < |contents| ==> from <= k && contents[k].images == []
    decreases |contents| - from
  {
    if from >= |contents| then |contents|
    else if contents[from].images == [] then from
    else MissingImageFrom(contents, from + 1)
  }

  /** The first sentence without an image, or the length of the list when every one has one. */
  function FirstMissingImage(contents: seq<SlideContent>): (k: nat)
    ensures k <= |contents|
    ensures k == |contents| <==> HasImages(contents)
    ensures k < |contents| ==> contents[k].images == [] && HasImages(contents[..k])
  {
    MissingImageFrom(contents, 0)
  }

  /** A sentence without an image at `i`, after sentences that all have one, is the first one missing. */
  lemma FirstMissingImageAt(contents: seq<SlideContent>, i: nat)
    requires i < |contents| && HasImages(contents[..i]) && contents[i].images == []
    ensures FirstMissingImage(contents) == i
  {
  }

  /**
   * The five requests for one sentence with the given text and first image;
   * `base` is the generator call that yields the slide's suffix, the next two
   * yield the text box's and the image's.
   */
  function Block(text: string, imageUrl: string, next: nat -> string, base: nat): (b: seq<Request>)
    ensures |b| == 5
  {
    var slideId := "S" + next(base);
    [CreateSlideBodyRequest(slideId, 0)]
    + InsertTextRequests(text, slideId, FontSize, BoxSize, TextTranslateX, TextTranslateY, next(base + 1))
    + [InsertImageRequest(imageUrl, slideId, ImageTranslate, ImageTranslate, next(base + 2))]
  }

  /** The blocks of all sentences, in sentence order, with generator calls numbered from `start`. */
  function Blocks(contents: seq<SlideContent>, next: nat -> string, start: nat): (rs: seq<Request>)
    requires HasImages(contents)
    ensures |rs| == 5 * |contents|
    decreases |contents|
  {
    if contents == [] then []
    else
      var n := |contents| - 1;
      Blocks(contents[..n], next, start) + Block(contents[n].text, contents[n].images[0], next, start + 3 * n)
  }

  /** The requests built for one more sentence extend the batch by that sentence's block. */
  lemma BlocksSnoc(contents: seq<SlideContent>, next: nat -> string, start: nat, i: nat,
                   text: string, images: seq<string>, slideGuid: string, textGuid: string, imageGuid: string,
                   requests: seq<Request>, createSlideBody: Request, insertText: seq<Request>, insertImage: Request)
    requires i < |contents| && HasImages(contents[..i]) && contents[i] == SlideContent(text, images) && images != []
    requires slideGuid == next(start + 3 * i) && textGuid == next(start + 3 * i + 1) && imageGuid == next(start + 3 * i + 2)
    requires requests == Blocks(contents[..i], next, start)
    requires createSlideBody == CreateSlideBodyRequest("S" + slideGuid, 0)
    requires insertText == InsertTextRequests(text, "S" + slideGuid,
      FontSize, BoxSize, TextTranslateX, TextTranslateY, textGuid)
    requires insertImage == InsertImageRequest(images[0], "S" + slideGuid,
      ImageTranslate, ImageTranslate, imageGuid)
    ensures HasImages(contents[..i + 1])
    ensures requests + [createSlideBody] + insertText + [insertImage] == Blocks(contents[..i + 1], next, start)
  {
    assert contents[..i + 1][..i] == contents[..i];
    var block := Block(contents[i].text, contents[i].images[0], next, start + 3 * i);
    assert [createSlideBody] + insertText + [insertImage] == block;
    assert Blocks(contents[..i + 1], next, start) == requests + block;
  }

  lemma BlocksUnfold(contents: seq<SlideContent>, next: nat -> string, start: nat)
    requires HasImages(contents) && contents != []
    ensures HasImages(contents[..|contents| - 1])
    ensures var n := |contents| - 1;
      Blocks(contents, next, start) ==
        Blocks(contents[..n], next, start) + Block(contents[n].text, contents[n].images[0], next, start + 3 * n)
  {
  }

  /** The batch the builder returns, or the first sentence without an image. */
  function Batch(contents: seq<SlideContent>, next: nat -> string, start: nat): (r: Result<seq<Request>, SlidesError>)
    ensures r.Failure? <==> exists i :: 0 <= i < |contents| && contents[i].images == []
    ensures r.Failure? ==> r.error == MissingImage(FirstMissingImage(contents))
    ensures r.Success? ==> |r.value| == 5 * |contents|
  {
    var k := FirstMissingImage(contents);
    if k < |contents| then Failure(MissingImage(k))
    else Success(Blocks(contents, next, start))
  }

  /**
   * createRequestsForSlidePages: builds the batch sentence by sentence. The
   * generator is called for the slide, then for the text box, then the
   * image is looked up, then the generator is called for the image; a
   * sentence without an image stops the build after its first two calls.
   */
  method CreateRequestsForSlidePages(sentences: seq<Sentence>, ids: IdSupply)
    returns (r: Result<seq<Request>, SlidesError>)
    modifies ids
    ensures var contents := old(ContentsOf(sentences));
      && r == Batch(contents, ids.suffix, old(ids.count))
      && ids.count == old(ids.count) +
           (if r.Failure? then 3 * r.error.index + 2 else 3 * |contents|)
  {
    ghost var contents := ContentsOf(sentences);
    ghost var start := ids.count;
    var requests: seq<Request> := [];
    for i := 0 to |sentences|
      invariant ids.count == start + 3 * i
      invariant HasImages(contents[..i])
      invariant requests == Blocks(contents[..i], ids.suffix, start)
    {
      var sentence := sentences[i];
      var text, images := sentence.text, sentence.images;
      ContentsAt(sentences, i);
      var slideGuid := ids.New();
      var slideId := "S" + slideGuid;
      var createSlideBody := CreateSlideBodyRequest(slideId, 0);
      var textGuid := ids.New();
      var insertText := InsertTextRequests(text, slideId, FontSize, BoxSize, TextTranslateX, TextTranslateY, textGuid);
      if images == [] {
        FirstMissingImageAt(contents, i);
        return Failure(MissingImage(i));
      }
      var imageGuid := ids.New();
      var insertImage := InsertImageRequest(images[0], slideId, ImageTranslate, ImageTranslate, imageGuid);
      BlocksSnoc(contents, ids.suffix, start, i, text, images, slideGuid, textGuid, imageGuid,
        requests, createSlideBody, insertText, insertImage);
      requests := requests + [createSlideBody];
      requests := requests + insertText;
      requests := requests + [insertImage];
    }
    assert contents[..|sentences|] == contents;
    return Success(requests);
  }

  // ---------------------------------------------------------------------
  // Properties of the batch

  /** The five requests of the `i`-th block. */
  function BlockOf(rs: seq<Request>, i: nat): seq<Request>
    requires 5 * i + 5 <= |rs|
  {
    rs[5 * i .. 5 * i + 5]
  }

  /** The `i`-th block of the batch is the block of the `i`-th sentence, drawing generator calls 3i to 3i+2. */
  lemma {:induction false} BlocksAt(contents: seq<SlideContent>, next: nat -> string, start: nat, i: nat)
    requires HasImages(contents) && i < |contents|
    ensures BlockOf(Blocks(contents, next, start), i) ==
      Block(contents[i].text, contents[i].images[0], next, start + 3 * i)
    decreases |contents|
  {
    var n := |contents| - 1;
    BlocksUnfold(contents, next, start);
    var prefix := Blocks(contents[..n], next, start);
    var last := Block(contents[n].text, contents[n].images[0], next, start + 3 * n);
    if i < n {
      assert contents[..n][i] == contents[i];
      BlocksAt(contents[..n], next, start, i);
      BlockOfPrefix(prefix, last, i);
    } else {
      BlockOfLast(prefix, last, i);
    }
  }

  lemma BlockOfPrefix(a: seq<Request>, b: seq<Request>, i: nat)
    requires 5 * i + 5 <= |a|
    ensures BlockOf(a + b, i) == BlockOf(a, i)
  {
    assert (a + b)[5 * i .. 5 * i + 5] == a[5 * i .. 5 * i + 5];
  }

  lemma BlockOfLast(a: seq<Request>, b: seq<Request>, i: nat)
    requires |a| == 5 * i && |b| == 5
    ensures BlockOf(a + b, i) == b
  {
    assert (a + b)[5 * i .. 5 * i + 5] == b;
  }

  /**
   * One sentence's slide: a blank slide carrying index 0, a text box on it, the
   * sentence's text inserted at the start of that box, the box's style, and
   * the sentence's first image on the same slide.
   */
  predicate SlideBlock(b: seq<Request>, text: string, imageUrl: string) {
    && |b| == 5
    && b[0].CreateSlide? && b[0].insertionIndex == 0 && b[0].predefinedLayout == "BLANK"
    && b[1].CreateShape? && b[1].shapeType == "TEXT_BOX" && b[1].elementProperties.pageObjectId == b[0].objectId
    && b[2].InsertText? && b[2].objectId == b[1].objectId && b[2].insertionIndex == 0 && b[2].text == text
    && b[3].UpdateTextStyle? && b[3].objectId == b[1].objectId
    && b[4].CreateImage? && b[4].elementProperties.pageObjectId == b[0].objectId && b[4].url == imageUrl
  }

  /** The geometry and style every slide shares. */
  predicate UniformLayout(b: seq<Request>) {
    && |b| == 5 && b[1].CreateShape? && b[3].UpdateTextStyle? && b[4].CreateImage?
    && b[1].elementProperties.size == Size(Dimension(BoxSize, "PT"), Dimension(BoxSize, "PT"))
    && b[1].elementProperties.transform == AffineTransform(1, 1, TextTranslateX, TextTranslateY, "PT")
    && b[3].style == TextStyle(Dimension(FontSize, "PT"), "Montserrat")
    && b[3].fields == "fontSize, fontFamily"
    && b[4].elementProperties.size == Size(Dimension(ImageSide, "EMU"), Dimension(ImageSide, "EMU"))
    && b[4].elementProperties.transform == AffineTransform(1, 1, ImageTranslate, ImageTranslate, "EMU")
  }

  /** Every block of the batch lays out its own sentence's slide, with the shared geometry and style. */
  lemma BatchBlocks(contents: seq<SlideContent>, next: nat -> string, start: nat)
    requires HasImages(contents)
    ensures var rs := Blocks(contents, next, start);
      forall i :: 0 <= i < |contents| ==>
        SlideBlock(BlockOf(rs, i), contents[i].text, contents[i].images[0]) && UniformLayout(BlockOf(rs, i))
  {
    var rs := Blocks(contents, next, start);
    forall i | 0 <= i < |contents|
      ensures SlideBlock(BlockOf(rs, i), contents[i].text, contents[i].images[0]) && UniformLayout(BlockOf(rs, i))
    {
      BlocksAt(contents, next, start, i);
    }
  }

  /** A length in English Metric Units. */
  function ToEmu(magnitude: int, unit: string): int {
    if unit == "PT" then magnitude * EmuPerPoint else magnitude
  }

  /** The left edge of a placed element, in EMU. */
  function LeftEdge(p: PageElementProperties): int {
    ToEmu(p.transform.translateX, p.transform.unit)
  }

  /** The right edge of a placed element at scale 1, in EMU. */
  function RightEdge(p: PageElementProperties): int {
    LeftEdge(p) + ToEmu(p.size.width.magnitude, p.size.width.unit)
  }

  /** On every slide the image ends to the left of where the text box begins. */
  lemma ImageLeftOfTextBox(contents: seq<SlideContent>, next: nat -> string, start: nat)
    requires HasImages(contents)
    ensures var rs := Blocks(contents, next, start);
      forall i :: 0 <= i < |contents| ==>
        BlockOf(rs, i)[4].CreateImage? && BlockOf(rs, i)[1].CreateShape? &&
        RightEdge(BlockOf(rs, i)[4].elementProperties) < LeftEdge(BlockOf(rs, i)[1].elementProperties)
  {
    BatchBlocks(contents, next, start);
  }

  /** The ids the batch creates, in order. */
  function CreatedIds(rs: seq<Request>): seq<string> {
    if rs == [] then []
    else
      var last := rs[|rs| - 1];
      CreatedIds(rs[..|rs| - 1]) + (if Creates(last) then [last.objectId] else [])
  }

  lemma CreatedIdsPush(a: seq<Request>, r: Request)
    ensures CreatedIds(a + [r]) == CreatedIds(a) + (if Creates(r) then [r.objectId] else [])
  {
    assert (a + [r])[..|a|] == a;
  }

  lemma {:induction false} CreatedIdsAppend(a: seq<Request>, b: seq<Request>)
    ensures CreatedIds(a + b) == CreatedIds(a) + CreatedIds(b)
    decreases |b|
  {
    if b == [] {
      assert a + b == a;
    } else {
      var n := |b| - 1;
      assert a + b == (a + b[..n]) + [b[n]];
      assert b == b[..n] + [b[n]];
      CreatedIdsAppend(a, b[..n]);
      CreatedIdsPush(a + b[..n], b[n]);
      CreatedIdsPush(b[..n], b[n]);
    }
  }

  /** A block creates its slide, its text box and its image, with suffixes from calls base, base+1, base+2. */
  lemma BlockCreatedIds(text: string, imageUrl: string, next: nat -> string, base: nat)
    ensures CreatedIds(Block(text, imageUrl, next, base)) == ["S" + next(base), "T" + next(base + 1), "I" + next(base + 2)]
  {
    var b := Block(text, imageUrl, next, base);
    var b1: seq<Request> := [b[0]];
    var b2 := b1 + [b[1]];
    var b3 := b2 + [b[2]];
    var b4 := b3 + [b[3]];
    assert b == b4 + [b[4]];
    assert b1 == [] + [b[0]];
    CreatedIdsPush([], b[0]);
    CreatedIdsPush(b1, b[1]);
    CreatedIdsPush(b2, b[2]);
    CreatedIdsPush(b3, b[3]);
    CreatedIdsPush(b4, b[4]);
  }

  /**
   * The m-th id the batch creates is a one-letter prefix followed by the
   * suffix of generator call start + m: ids follow the calls one to one.
   */
  lemma {:induction false} CreatedIdsFollowCalls(contents: seq<SlideContent>, next: nat -> string, start: nat)
    requires HasImages(contents)
    ensures var ids := CreatedIds(Blocks(contents, next, start));
      && |ids| == 3 * |contents|
      && forall m :: 0 <= m < |ids| ==> 1 <= |ids[m]| && ids[m][1..] == next(start + m)
    decreases |contents|
  {
    if contents != [] {
      var n := |contents| - 1;
      var base := start + 3 * n;
      var prefix := Blocks(contents[..n], next, start);
      var last := Block(contents[n].text, contents[n].images[0], next, base);
      assert HasImages(contents[..n]);
      assert Blocks(contents, next, start) == prefix + last;
      CreatedIdsFollowCalls(contents[..n], next, start);
      CreatedIdsAppend(prefix, last);
      BlockCreatedIds(contents[n].text, contents[n].images[0], next, base);
      IdsFollowCallsStep(CreatedIds(prefix), next, start, n);
    }
  }

  lemma IdsFollowCallsStep(ids: seq<string>, next: nat -> string, start: nat, n: nat)
    requires |ids| == 3 * n
    requires forall m :: 0 <= m < |ids| ==> 1 <= |ids[m]| && ids[m][1..] == next(start + m)
    ensures var more := ids + ["S" + next(start + 3 * n), "T" + next(start + 3 * n + 1), "I" + next(start + 3 * n + 2)];
      forall m :: 0 <= m < |more| ==> 1 <= |more[m]| && more[m][1..] == next(start + m)
  {
    var base := start + 3 * n;
    var more := ids + ["S" + next(base), "T" + next(base + 1), "I" + next(base + 2)];
    forall m | 0 <= m < |more|
      ensures 1 <= |more[m]| && more[m][1..] == next(start + m)
    {
      if m < |ids| {
        assert more[m] == ids[m];
      } else if m == 3 * n {
        assert more[m] == "S" + next(base);
      } else if m == 3 * n + 1 {
        assert more[m] == "T" + next(base + 1);
      } else {
        assert more[m] == "I" + next(base + 2);
      }
    }
  }

  /** When the generator never repeats a suffix, no two objects of the batch share an id. */
  lemma CreatedIdsDistinct(contents: seq<SlideContent>, next: nat -> string, start: nat)
    requires HasImages(contents) && Injective(next)
    ensures var ids := CreatedIds(Blocks(contents, next, start));
      forall m, m' :: 0 <= m < m' < |ids| ==> ids[m] != ids[m']
  {
    var ids := CreatedIds(Blocks(contents, next, start));
    CreatedIdsFollowCalls(contents, next, start);
    forall m, m' | 0 <= m < m' < |ids|
      ensures ids[m] != ids[m']
    {
      assert next(start + m) != next(start + m');
    }
  }

  /** Every reference in the batch names an object created by an earlier request. */
  ghost predicate WellReferenced(rs: seq<Request>) {
    forall p :: 0 <= p < |rs| && Reference(rs[p]).Some? ==>
      exists q :: 0 <= q < p && Creates(rs[q]) && rs[q].objectId == Reference(rs[p]).value
  }

  lemma WellReferencedAppend(a: seq<Request>, b: seq<Request>)
    requires WellReferenced(a) && WellReferenced(b)
    ensures WellReferenced(a + b)
  {
    var ab := a + b;
    forall p | 0 <= p < |ab| && Reference(ab[p]).Some?
      ensures exists q :: 0 <= q < p && Creates(ab[q]) && ab[q].objectId == Reference(ab[p]).value
    {
      if p < |a| {
        assert ab[p] == a[p];
        var q :| 0 <= q < p && Creates(a[q]) && a[q].objectId == Reference(a[p]).value;
        assert ab[q] == a[q];
      } else {
        assert ab[p] == b[p - |a|];
        var q :| 0 <= q < p - |a| && Creates(b[q]) && b[q].objectId == Reference(b[p - |a|]).value;
        assert ab[q + |a|] == b[q];
      }
    }
  }

  lemma BlockWellReferenced(text: string, imageUrl: string, next: nat -> string, base: nat)
    ensures WellReferenced(Block(text, imageUrl, next, base))
  {
    var b := Block(text, imageUrl, next, base);
    forall p | 0 <= p < |b| && Reference(b[p]).Some?
      ensures exists q :: 0 <= q < p && Creates(b[q]) && b[q].objectId == Reference(b[p]).value
    {
      if p == 1 || p == 4 {
        assert Creates(b[0]) && b[0].objectId == Reference(b[p]).value;
      } else {
        assert Creates(b[1]) && b[1].objectId == Reference(b[p]).value;
      }
    }
  }

  /** Every page and shape the batch refers to is created earlier in the same batch. */
  lemma {:induction false} BatchWellReferenced(contents: seq<SlideContent>, next: nat -> string, start: nat)
    requires HasImages(contents)
    ensures WellReferenced(Blocks(contents, next, start))
    decreases |contents|
  {
    if contents != [] {
      var n := |contents| - 1;
      var last := Block(contents[n].text, contents[n].images[0], next, start + 3 * n);
      assert HasImages(contents[..n]);
      BatchWellReferenced(contents[..n], next, start);
      BlockWellReferenced(contents[n].text, contents[n].images[0], next, start + 3 * n);
      WellReferencedAppend(Blocks(contents[..n], next, start), last);
    }
  }

  // ---------------------------------------------------------------------
  // Slide order

  /**
   * The slide order after one request, as the Slides service receives it. The
   * Go client leaves an insertion index of 0 out of the request body (the
   * field is `omitempty`), and the service puts a slide without an index at
   * the end of the deck; any other index must be in range and is where the
   * slide is inserted.
   */
  function ApplyToDeck(deck: seq<string>, r: Request): Option<seq<string>> {
    if !r.CreateSlide? then Some(deck)
    else if r.insertionIndex == 0 then Some(deck + [r.objectId])
    else if 0 < r.insertionIndex <= |deck| then
      Some(deck[..r.insertionIndex] + [r.objectId] + deck[r.insertionIndex..])
    else None
  }

  /** The slide order after the requests, applied in order. */
  function DeckAfter(deck: seq<string>, rs: seq<Request>): Option<seq<string>>
    decreases |rs|
  {
    if rs == [] then Some(deck)
    else
      match ApplyToDeck(deck, rs[0])
      case None => None
      case Some(d) => DeckAfter(d, rs[1..])
  }

  /** The ids of the slides the requests create, in request order. */
  function SlideIdsOf(rs: seq<Request>): seq<string> {
    if rs == [] then []
    else (if rs[0].CreateSlide? then [rs[0].objectId] else []) + SlideIdsOf(rs[1..])
  }

  /** Every slide the requests create carries index 0, so none is sent with an index. */
  ghost predicate UnindexedInsertions(rs: seq<Request>) {
    forall p :: 0 <= p < |rs| && rs[p].CreateSlide? ==> rs[p].insertionIndex == 0
  }

  /**
   * Requests that send no insertion index add the slides they create after
   * the slides already there, in request order.
   */
  lemma {:induction false} DeckAppended(deck: seq<string>, rs: seq<Request>)
    requires UnindexedInsertions(rs)
    ensures DeckAfter(deck, rs) == Some(deck + SlideIdsOf(rs))
    decreases |rs|
  {
    if rs == [] {
      assert deck + [] == deck;
    } else {
      var ids := SlideIdsOf(rs[1..]);
      assert UnindexedInsertions(rs[1..]) by {
        forall p | 0 <= p < |rs[1..]| && rs[1..][p].CreateSlide?
          ensures rs[1..][p].insertionIndex == 0
        {
          assert rs[1..][p] == rs[p + 1];
        }
      }
      if rs[0].CreateSlide? {
        var d := deck + [rs[0].objectId];
        assert rs[0].insertionIndex == 0;
        assert SlideIdsOf(rs) == [rs[0].objectId] + ids;
        DeckAppended(d, rs[1..]);
        assert d + ids == deck + ([rs[0].objectId] + ids);
      } else {
        assert ApplyToDeck(deck, rs[0]) == Some(deck);
        DeckAppended(deck, rs[1..]);
        assert SlideIdsOf(rs) == [] + ids == ids;
      }
    }
  }

  lemma {:induction false} SlideIdsOfAppend(a: seq<Request>, b: seq<Request>)
    ensures SlideIdsOf(a + b) == SlideIdsOf(a) + SlideIdsOf(b)
    decreases |a|
  {
    if a == [] {
      assert a + b == b;
    } else {
      assert (a + b)[0] == a[0];
      assert (a + b)[1..] == a[1..] + b;
      SlideIdsOfAppend(a[1..], b);
    }
  }

  lemma {:induction false} UnindexedInsertionsAppend(a: seq<Request>, b: seq<Request>)
    requires UnindexedInsertions(a) && UnindexedInsertions(b)
    ensures UnindexedInsertions(a + b)
  {
    forall p | 0 <= p < |a + b| && (a + b)[p].CreateSlide?
      ensures (a + b)[p].insertionIndex == 0
    {
      if p < |a| {
        assert (a + b)[p] == a[p];
      } else {
        assert (a + b)[p] == b[p - |a|];
      }
    }
  }

  /** A block creates one slide, with index 0. */
  lemma BlockSlide(text: string, imageUrl: string, next: nat -> string, base: nat)
    ensures var b := Block(text, imageUrl, next, base);
      UnindexedInsertions(b) && SlideIdsOf(b) == ["S" + next(base)]
  {
    var b := Block(text, imageUrl, next, base);
    var rest := b[1..];
    assert rest[1..][1..][1..][1..] == [];
    assert SlideIdsOf(rest[1..][1..][1..]) == [];
    assert SlideIdsOf(rest[1..][1..]) == [];
    assert SlideIdsOf(rest[1..]) == [];
    assert SlideIdsOf(rest) == [];
    assert SlideIdsOf(b) == ["S" + next(base)] + [];
  }

  /** The slide ids of the batch, in sentence order. */
  function SlideIds(contents: seq<SlideContent>, next: nat -> string, start: nat): seq<string> {
    if contents == [] then []
    else
      var n := |contents| - 1;
      SlideIds(contents[..n], next, start) + ["S" + next(start + 3 * n)]
  }

  lemma {:induction false} SlideIdsAt(contents: seq<SlideContent>, next: nat -> string, start: nat)
    ensures var ids := SlideIds(contents, next, start);
      |ids| == |contents| && forall i :: 0 <= i < |contents| ==> ids[i] == "S" + next(start + 3 * i)
    decreases |contents|
  {
    if contents != [] {
      SlideIdsAt(contents[..|contents| - 1], next, start);
    }
  }

  /** The batch creates the sentences' slides in sentence order, each with index 0. */
  lemma {:induction false} BatchSlides(contents: seq<SlideContent>, next: nat -> string, start: nat)
    requires HasImages(contents)
    ensures var rs := Blocks(contents, next, start);
      UnindexedInsertions(rs) && SlideIdsOf(rs) == SlideIds(contents, next, start)
    decreases |contents|
  {
    if contents != [] {
      var n := |contents| - 1;
      var prefix := Blocks(contents[..n], next, start);
      var last := Block(contents[n].text, contents[n].images[0], next, start + 3 * n);
      BlocksUnfold(contents, next, start);
      BatchSlides(contents[..n], next, start);
      BlockSlide(contents[n].text, contents[n].images[0], next, start + 3 * n);
      SlideIdsOfAppend(prefix, last);
      UnindexedInsertionsAppend(prefix, last);
    }
  }

  /**
   * No slide of the batch is sent with an index, so after the batch the
   * sentences' slides follow whatever the deck held, in sentence order.
   */
  lemma DeckInSentenceOrder(deck: seq<string>, contents: seq<SlideContent>, next: nat -> string, start: nat)
    requires HasImages(contents)
    ensures DeckAfter(deck, Blocks(contents, next, start)) == Some(deck + SlideIds(contents, next, start))
  {
    BatchSlides(contents, next, start);
    DeckAppended(deck, Blocks(contents, next, start));
  }

  /** The slides already in the deck stay in front, and the slide of sentence i follows them at offset i. */
  lemma DeckOrder(deck: seq<string>, contents: seq<SlideContent>, next: nat -> string, start: nat)
    requires HasImages(contents)
    ensures var after := DeckAfter(deck, Blocks(contents, next, start));
      && after.Some? && |after.value| == |deck| + |contents|
      && after.value[..|deck|] == deck
      && forall i :: 0 <= i < |contents| ==> after.value[|deck| + i] == "S" + next(start + 3 * i)
  {
    DeckInSentenceOrder(deck, contents, next, start);
    SlideIdsAt(contents, next, start);
  }
}
