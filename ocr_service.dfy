/** Text recognition: cleaning easyocr's blocks into one paragraph, and the choice between
    easyocr, the vision API and the error result. The recognisers themselves are outside
    the model; what they return for an image is an input. */
module OcrService {
  import opened Outcomes
  import opened PyText

  /** A recognised block: easyocr's `(bbox, text, confidence)` triple (the box plays no
      part), or a bare string, which the cleaner treats as fully confident. */
  datatype Block = Scored(text: string, conf: real) | Bare(text: string)

  /** Blocks scored below this are dropped. */
  const MinConfidence: real := 0.3

  /** easyocr's cleaned text must be at least this long to be used. */
  const MinTextLen: nat := 10

  /** A bare string of length three passes the `len(item) == 3` test and is unpacked
      character by character; its "confidence" is then a one-character string, and
      comparing it with 0.3 raises `TypeError`. */
  predicate Raises(b: Block) {
    b.Bare? && |b.text| == 3
  }

  function Confidence(b: Block): real {
    match b
    case Scored(_, c) => c
    case Bare(_) => 1.0
  }

  /** The block's stripped text is kept iff it is non-empty and confident enough. */
  predicate Survives(b: Block) {
    Confidence(b) >= MinConfidence && Strip(b.text) != []
  }

  predicate NoneRaises(blocks: seq<Block>) {
    forall i :: 0 <= i < |blocks| ==> !Raises(blocks[i])
  }

  /** The list `texts` that the loop of `_clean_text` has built after `blocks`, or the
      exception it stopped with. */
  function Kept(blocks: seq<Block>): (r: Outcome<seq<string>>)
    ensures r.Returned? ==> |r.value| <= |blocks|
    ensures r.Returned? ==> forall k :: 0 <= k < |r.value| ==> r.value[k] != [] && NoEdgeSpace(r.value[k])
    decreases |blocks|
  {
    if blocks == [] then Returned([])
    else
      var init := Kept(blocks[..|blocks| - 1]);
      var b := blocks[|blocks| - 1];
      if init.Raised? || Raises(b) then Raised
      else if Survives(b) then Returned(init.value + [Strip(b.text)])
      else init
  }

  /** What one block contributes: its stripped text if it survives, else nothing. */
  function Piece(b: Block): seq<string> {
    if Survives(b) then [Strip(b.text)] else []
  }

  /** Reference definition: the stripped texts of the surviving blocks, front to back. */
  function Survivors(blocks: seq<Block>): seq<string> {
    if blocks == [] then [] else Piece(blocks[0]) + Survivors(blocks[1..])
  }

  /** The cleaned paragraph, or the exception `_clean_text` raised. */
  function CleanedText(blocks: seq<Block>): Outcome<string> {
    match Kept(blocks)
    case Raised => Raised
    case Returned(texts) => Returned(Normalize(Join(" ", texts)))
  }

  /** `_clean_text`: filter the blocks in a loop, then join with spaces, collapse
      whitespace runs and strip. */
  method CleanText(blocks: seq<Block>) returns (r: Outcome<string>)
    ensures r == CleanedText(blocks)
  {
    var texts: seq<string> := [];
    for i := 0 to |blocks|
      invariant Kept(blocks[..i]) == Returned(texts)
    {
      ghost var next := texts + Piece(blocks[i]);
      var text: string;
      var conf: real;
      match blocks[i] {
        case Scored(t, c) =>
          text, conf := t, c;
        case Bare(t) =>
          if |t| == 3 {
            KeptRaisedPersists(blocks, i + 1);
            return Raised;
          }
          text, conf := t, 1.0;
      }
      assert text == blocks[i].text && conf == Confidence(blocks[i]) && !Raises(blocks[i]);
      KeptAppend(blocks, i, texts);
      text := Strip(text);
      if conf >= MinConfidence && text != [] {
        texts := texts + [text];
      }
      assert texts == next;
    }
    assert blocks[..|blocks|] == blocks;
    r := Returned(Normalize(Join(" ", texts)));
  }

  // ---------------------------------------------------------------------------
  // Properties of the cleaner
  // ---------------------------------------------------------------------------

  /** One more turn of the loop. */
  lemma KeptStep(blocks: seq<Block>, i: int)
    requires 0 <= i < |blocks|
    ensures Kept(blocks[..i + 1]) ==
      if Kept(blocks[..i]).Raised? || Raises(blocks[i]) then Raised
      else if Survives(blocks[i]) then Returned(Kept(blocks[..i]).value + [Strip(blocks[i].text)])
      else Kept(blocks[..i])
  {
    assert blocks[..i + 1][..i] == blocks[..i];
  }

  /** One more turn of the loop over a block that does not raise adds its piece. */
  lemma KeptAppend(blocks: seq<Block>, i: int, texts: seq<string>)
    requires 0 <= i < |blocks| && !Raises(blocks[i])
    requires Kept(blocks[..i]) == Returned(texts)
    ensures Kept(blocks[..i + 1]) == Returned(texts + Piece(blocks[i]))
  {
    KeptStep(blocks, i);
    assert texts + [] == texts;
  }

  /** Once a block raised, the whole loop has raised. */
  lemma {:induction false} KeptRaisedPersists(blocks: seq<Block>, j: int)
    requires 0 <= j <= |blocks|
    requires Kept(blocks[..j]).Raised?
    ensures Kept(blocks).Raised?
    decreases |blocks| - j
  {
    if j < |blocks| {
      assert blocks[..j + 1][..j] == blocks[..j];
      KeptRaisedPersists(blocks, j + 1);
    } else {
      assert blocks[..j] == blocks;
    }
  }

  lemma {:induction false} SurvivorsAppend(a: seq<Block>, b: Block)
    ensures Survivors(a + [b]) == Survivors(a) + Piece(b)
  {
    if a != [] {
      assert (a + [b])[1..] == a[1..] + [b];
      SurvivorsAppend(a[1..], b);
    } else {
      assert [b][1..] == [];
    }
  }

  /** The loop raises exactly when some block is a three-character bare string; otherwise
      it keeps exactly the surviving blocks' stripped texts, in their original order. */
  lemma {:induction false} KeptCharacterized(blocks: seq<Block>)
    ensures Kept(blocks).Returned? <==> NoneRaises(blocks)
    ensures Kept(blocks).Returned? ==> Kept(blocks).value == Survivors(blocks)
    decreases |blocks|
  {
    if blocks != [] {
      var init := blocks[..|blocks| - 1];
      var b := blocks[|blocks| - 1];
      KeptCharacterized(init);
      assert blocks == init + [b];
      SurvivorsAppend(init, b);
      assert NoneRaises(blocks) <==> NoneRaises(init) && !Raises(b) by {
        assert forall i :: 0 <= i < |init| ==> init[i] == blocks[i];
      }
    }
  }

  /** Non-empty strings without edge whitespace have a non-whitespace character each, so
      their concatenation has one exactly when there is at least one of them. */
  lemma {:induction false} FlattenHasNonSpace(xs: seq<string>)
    requires AllTrimmed(xs)
    ensures NonSpace(Flatten(xs)) == [] <==> xs == []
  {
    if xs != [] {
      NonSpaceAppend(xs[0], Flatten(xs[1..]));
      NonSpaceEmpty(xs[0]);
      assert !IsSpace(xs[0][0]);
    }
  }

  /** The cleaned text is a paragraph: no edge whitespace, and single plain spaces only. */
  lemma CleanedTextIsParagraph(blocks: seq<Block>)
    requires CleanedText(blocks).Returned?
    ensures Normalized(CleanedText(blocks).value)
  {
    NormalizeIsNormalized(Join(" ", Kept(blocks).value));
  }

  /** The cleaned text holds the surviving texts' non-whitespace characters in their order,
      and it is empty exactly when no block survives. */
  lemma CleanedTextContents(blocks: seq<Block>)
    requires CleanedText(blocks).Returned?
    ensures NonSpace(CleanedText(blocks).value) == NonSpace(Flatten(Survivors(blocks)))
    ensures CleanedText(blocks).value == [] <==> Survivors(blocks) == []
  {
    KeptCharacterized(blocks);
    var texts := Kept(blocks).value;
    var joined := Join(" ", texts);
    NormalizeKeepsNonSpace(joined);
    JoinKeepsNonSpace(texts);
    FlattenHasNonSpace(texts);
    NormalizeEmpty(joined);
  }

  /** For any blocks, the cleaned text is the surviving texts, each with its own whitespace
      runs collapsed, joined by exactly one space: the texts never run together. */
  lemma CleanedTextJoinsSurvivors(blocks: seq<Block>)
    requires CleanedText(blocks).Returned?
    ensures CleanedText(blocks).value == Join(" ", NormalizeEach(Survivors(blocks)))
  {
    KeptCharacterized(blocks);
    NormalizeJoin(Kept(blocks).value);
  }

  /** When every surviving text is already a paragraph, the cleaned text is exactly
      `" ".join(texts)`. */
  lemma CleanedTextIsJoin(blocks: seq<Block>)
    requires CleanedText(blocks).Returned?
    requires forall k :: 0 <= k < |Survivors(blocks)| ==> Normalized(Survivors(blocks)[k])
    ensures CleanedText(blocks).value == Join(" ", Survivors(blocks))
  {
    KeptCharacterized(blocks);
    var texts := Kept(blocks).value;
    JoinNormalized(texts);
    NormalizeIdentity(Join(" ", texts));
  }

  // ---------------------------------------------------------------------------
  // Source selection
  // ---------------------------------------------------------------------------

  datatype Source = EasyOcr | VisionApi | ErrorSource

  /** The `source` string of the result. */
  function SourceName(s: Source): (n: string)
    ensures s != ErrorSource ==> n != "error"
  {
    match s
    case EasyOcr => "easyocr"
    case VisionApi => "vision_api"
    case ErrorSource => "error"
  }

  datatype OcrResult = OcrResult(text: string, source: Source)

  /** The vision API reply as `_extract_via_vision_api` post-processes it: strip it, collapse
      whitespace runs, strip again (a missing reply is the empty string). */
  function VisionText(raw: string): (t: string)
    ensures Normalized(t)
    ensures NonSpace(t) == NonSpace(raw)
  {
    NormalizeIsNormalized(Strip(raw));
    NormalizeKeepsNonSpace(Strip(raw));
    StripKeepsNonSpace(raw);
    Normalize(Strip(raw))
  }

  /** easyocr's attempt: the engine's failure and the cleaner's exception both end it. */
  function EasyText(easy: Outcome<seq<Block>>): Outcome<string> {
    match easy
    case Raised => Raised
    case Returned(blocks) => CleanedText(blocks)
  }

  predicate EasySucceeds(easy: Outcome<seq<Block>>) {
    EasyText(easy).Returned? && |EasyText(easy).value| >= MinTextLen
  }

  /** `extract_text_from_image`, given what easyocr and the vision API return for the image. */
  function ExtractText(easy: Outcome<seq<Block>>, vision: Outcome<string>): (r: OcrResult)
    ensures r.source == EasyOcr <==> EasySucceeds(easy)
    ensures r.source == EasyOcr ==> r.text == EasyText(easy).value && |r.text| >= MinTextLen
    ensures r.source == VisionApi <==> !EasySucceeds(easy) && vision.Returned?
    ensures r.source == VisionApi ==> r.text == VisionText(vision.value)
    ensures r.source == ErrorSource <==> !EasySucceeds(easy) && vision.Raised?
    ensures r.source == ErrorSource ==> r.text == ""
  {
    if EasySucceeds(easy) then OcrResult(EasyText(easy).value, EasyOcr)
    else match vision
      case Returned(raw) => OcrResult(VisionText(raw), VisionApi)
      case Raised => OcrResult("", ErrorSource)
  }

  /** Whatever the source, the text is a paragraph. */
  lemma ExtractedTextIsParagraph(easy: Outcome<seq<Block>>, vision: Outcome<string>)
    ensures Normalized(ExtractText(easy, vision).text)
  {
    if EasySucceeds(easy) {
      CleanedTextIsParagraph(easy.value);
    }
  }

  /** When easyocr's text is long enough the vision API is never consulted: its reply,
      or its failure, makes no difference. */
  lemma VisionUnusedAfterEasySuccess(easy: Outcome<seq<Block>>, v1: Outcome<string>, v2: Outcome<string>)
    requires EasySucceeds(easy)
    ensures ExtractText(easy, v1) == ExtractText(easy, v2)
  {
  }

  /** An empty result happens only when both recognisers fail or return no text. */
  lemma EmptyResultMeansNoText(easy: Outcome<seq<Block>>, vision: Outcome<string>)
    requires ExtractText(easy, vision).text == ""
    ensures ExtractText(easy, vision).source != EasyOcr
    ensures vision.Returned? ==> NonSpace(vision.value) == []
  {
    if vision.Returned? && !EasySucceeds(easy) {
      NonSpaceEmpty(VisionText(vision.value));
    }
  }
}
