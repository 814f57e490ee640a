/** The `/api/ocr` upload endpoint: the content-type check, the size cap, text
    extraction and the empty-text rejection, in that order. */
module OcrRoute {
  import opened Outcomes
  import opened PyText
  import OcrService

  type Byte = bv8

  /** `_ALLOWED_TYPES`. */
  const AllowedTypes: set<string> := {"image/jpeg", "image/png", "image/webp", "image/gif"}

  /** `_MAX_SIZE_MB`, and the byte limit it gives. */
  const MaxSizeMb: nat := 10
  const MaxSizeBytes: nat := MaxSizeMb * 1024 * 1024

  /** The endpoint's answer: the OCR response, or an `HTTPException`. */
  datatype Response = Ok(text: string, source: string) | HttpError(status: int, detail: string)

  predicate TypeAllowed(contentType: Option<string>) {
    contentType.Some? && contentType.value in AllowedTypes
  }

  /** The 400 message names the type as Python formats it (`None` when absent). */
  function UnsupportedTypeDetail(contentType: Option<string>): string {
    "Unsupported file type: " + (match contentType case Some(t) => t case None => "None")
    + ". Use JPEG, PNG, or WEBP."
  }

  const TooLargeDetail: string := "Image too large. Maximum allowed size is 10 MB."

  const NoTextDetail: string := "Could not extract any text from the image."

  /** `ocr_endpoint`. `body` is what `file.read()` returns; `easy` and `vision` give what
      easyocr and the vision API return for an image. */
  function Endpoint(contentType: Option<string>, body: seq<Byte>,
                    easy: seq<Byte> -> Outcome<seq<OcrService.Block>>,
                    vision: seq<Byte> -> Outcome<string>): (r: Response)
    ensures !TypeAllowed(contentType) <==> r == HttpError(400, UnsupportedTypeDetail(contentType))
    ensures r == HttpError(400, TooLargeDetail) <==> TypeAllowed(contentType) && |body| > MaxSizeBytes
    ensures r.HttpError? && r.status == 422 <==>
      TypeAllowed(contentType) && |body| <= MaxSizeBytes && OcrService.ExtractText(easy(body), vision(body)).text == ""
    ensures r.HttpError? ==> r.status == 400 || r == HttpError(422, NoTextDetail)
    ensures r.Ok? ==> var x := OcrService.ExtractText(easy(body), vision(body));
      r.text == x.text && r.source == OcrService.SourceName(x.source) && r.text != ""
  {
    if !TypeAllowed(contentType) then HttpError(400, UnsupportedTypeDetail(contentType))
    else if |body| > MaxSizeBytes then HttpError(400, TooLargeDetail)
    else
      var result := OcrService.ExtractText(easy(body), vision(body));
      if result.text == "" then HttpError(422, NoTextDetail)
      else Ok(result.text, OcrService.SourceName(result.source))
  }

  /** The type is checked before the body is read: a refused type gives the same answer
      whatever the body and the recognisers. */
  lemma TypeCheckedBeforeRead(contentType: Option<string>, b1: seq<Byte>, b2: seq<Byte>,
                              e1: seq<Byte> -> Outcome<seq<OcrService.Block>>, e2: seq<Byte> -> Outcome<seq<OcrService.Block>>,
                              v1: seq<Byte> -> Outcome<string>, v2: seq<Byte> -> Outcome<string>)
    requires !TypeAllowed(contentType)
    ensures Endpoint(contentType, b1, e1, v1) == Endpoint(contentType, b2, e2, v2)
  {
  }

  /** The size is checked before any recogniser runs. */
  lemma SizeCheckedBeforeExtraction(contentType: Option<string>, body: seq<Byte>,
                                    e1: seq<Byte> -> Outcome<seq<OcrService.Block>>, e2: seq<Byte> -> Outcome<seq<OcrService.Block>>,
                                    v1: seq<Byte> -> Outcome<string>, v2: seq<Byte> -> Outcome<string>)
    requires |body| > MaxSizeBytes
    ensures Endpoint(contentType, body, e1, v1) == Endpoint(contentType, body, e2, v2)
  {
  }

  /** The cap is strict: an image of exactly 10 MiB still goes to recognition. */
  lemma ExactlyAtCapAccepted(contentType: Option<string>, body: seq<Byte>,
                             easy: seq<Byte> -> Outcome<seq<OcrService.Block>>, vision: seq<Byte> -> Outcome<string>)
    requires TypeAllowed(contentType) && |body| == 10 * 1024 * 1024
    ensures Endpoint(contentType, body, easy, vision).Ok?
         || Endpoint(contentType, body, easy, vision) == HttpError(422, NoTextDetail)
  {
  }

  /** A successful answer never reports the error source, and its text is a paragraph. */
  lemma OkCarriesRecognisedText(contentType: Option<string>, body: seq<Byte>,
                                easy: seq<Byte> -> Outcome<seq<OcrService.Block>>, vision: seq<Byte> -> Outcome<string>)
    requires Endpoint(contentType, body, easy, vision).Ok?
    ensures Endpoint(contentType, body, easy, vision).source in {"easyocr", "vision_api"}
    ensures Normalized(Endpoint(contentType, body, easy, vision).text)
  {
    OcrService.ExtractedTextIsParagraph(easy(body), vision(body));
  }
}
