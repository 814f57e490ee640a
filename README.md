# Engagement predictor backend — a Dafny model

The backend predicts engagement for a social-media post: likes, comments, shares,
clicks and a timing quality score. It does this in four parts:

- **Prediction service** (`app/services/predictor.py`, `app/config.py`). A `Predictor`
  singleton loads its artifacts once: a Transformer network, a tokenizer and a target
  scaler. The weights are restored with `load_weights`; only if that fails does it load
  the full model through a compatibility layer. Each prediction then:
  - encodes caption and content as 80 token ids, padded and truncated at the end;
  - encodes six numeric features: platform id, hour, weekday, weekend flag,
    `log1p(followers)` and ad boost. Malformed times give hour 12 and malformed dates
    give weekday 0;
  - runs the network and undoes the scaling;
  - undoes `log1p` on the four count targets and clamps and rounds every target.
- **Text recognition** (`app/services/ocr_service.py`). easyocr's blocks are filtered by
  confidence and joined into one paragraph. If that paragraph is shorter than 10
  characters, or easyocr fails, the vision API is asked instead. If that fails too, the
  result is an empty text with source `error`.
- **Explanation** (`app/services/explainability.py`). The predictions fill a prompt
  template. The model's reply has an optional Markdown code fence removed and is then
  parsed. If the call or the parse fails, a fixed fallback is returned.
- **OCR endpoint** (`app/routes/ocr.py`). It refuses unknown content types (400), then
  bodies over 10 MiB (400), then images with no text (422). Otherwise it returns the
  text and its source.

Modules:

- `Outcomes`: `Option`, and `Outcome` (a value, or an exception).
- `PyText`: Python's `str.strip`, `re.sub(r"\s+", " ", …)` and `" ".join`.
- `Config`: the model constants and `PLATFORM_MAP`.
- `Calendar`: the proleptic Gregorian calendar behind `dayofweek`.
- `Predictor`, `OcrService`, `Explainability`, `OcrRoute`: one module per core file.

The network, tokenizer, scaler, recognisers, LLM client and JSON parser are foreign code.
They appear as function-valued parameters. The `Predictor` object becomes a Dafny class
whose `Load` and `Predict` methods change its fields in place. Those methods are proved
against the functions `LoadStep` and `PredictOutcome`, and the properties are proved as
lemmas about those functions. `_clean_text`'s loop and `predict`'s post-processing loop
are methods with loop invariants, proved equal to their reference functions.

## Model

| member | source | states |
|---|---|---|
| Config.TargetsShape | app/config.py:29 | five distinct targets: the four counts first, `timing_quality_score` last |
| Config.PlatformMapShape | app/config.py:32-38 | the map has exactly the five platform names as keys, ids 0–4, each name's id is its position, and distinct names get distinct ids |
| Config.PlatformIdsFollowNameOrder | app/config.py:31-38 | ids increase with Python's string order of the names, as pandas category codes do |
| PyText.Strip | app/services/ocr_service.py:40 | the result has no whitespace at either end and is a slice of the input with only whitespace cut off on both sides |
| PyText.StripKeepsNonSpace | app/services/ocr_service.py:40 | stripping removes only whitespace: the non-whitespace characters stay the same, in order |
| PyText.StripIdempotent | app/services/explainability.py:101-108 | stripping twice is stripping once |
| PyText.Collapse | app/services/ocr_service.py:46 | the result is empty iff the input is, and it starts and ends with whitespace iff the input does |
| PyText.CollapseSpacing | app/services/ocr_service.py:46 | after collapsing, no two whitespace characters are adjacent and the only whitespace is `' '` |
| PyText.CollapseAppend | app/services/ocr_service.py:46 | collapsing distributes over a concatenation that does not glue two whitespace runs together |
| PyText.CollapseRun | app/services/ocr_service.py:46 | a non-empty whitespace run between non-whitespace (or the ends) becomes exactly one `' '`: `Collapse(a + w + b) == Collapse(a) + " " + Collapse(b)` |
| PyText.CollapseKeepsNonSpace | app/services/ocr_service.py:46 | collapsing keeps the non-whitespace characters in order |
| PyText.CollapseIdentity | app/services/ocr_service.py:46 | collapsing does nothing to text whose only whitespace is single plain spaces |
| PyText.NormalizeIsNormalized | app/services/ocr_service.py:46 | collapse-then-strip gives a paragraph: no edge whitespace, single plain spaces only |
| PyText.NormalizeKeepsNonSpace | app/services/ocr_service.py:46 | collapse-then-strip keeps the non-whitespace characters in order |
| PyText.NormalizeEmpty | app/services/ocr_service.py:46 | the result is empty exactly when the input is all whitespace |
| PyText.NormalizeIdentity | app/services/ocr_service.py:46 | a paragraph is left unchanged |
| PyText.JoinNormalized | app/services/ocr_service.py:44 | joining non-empty paragraphs with `" "` gives a paragraph |
| PyText.JoinKeepsNonSpace | app/services/ocr_service.py:44 | the join's non-whitespace characters are those of the parts, concatenated in order |
| PyText.CollapseJoin | app/services/ocr_service.py:44-46 | collapsing the space-join of non-empty, stripped texts gives the space-join of each text collapsed: the joining spaces stay single and separate the parts |
| PyText.NormalizeJoin | app/services/ocr_service.py:44-46 | collapse-then-strip of the space-join of non-empty, stripped texts is the space-join of each text normalised |
| Calendar.DaysBeforeYearCounts | app/services/predictor.py:139-140 | the closed-form day count before a year equals the year-by-year sum of year lengths |
| Calendar.NextDay | app/services/predictor.py:139-140 | the next day of a valid date is a valid date |
| Calendar.NextDayNumber | app/services/predictor.py:139-140 | the next day's serial number is one more |
| Calendar.WeekdayAdvances | app/services/predictor.py:140 | the weekday (Monday = 0) of the next day is the weekday plus one, mod 7 |
| Calendar.KnownWeekdays | app/services/predictor.py:140 | 0001-01-01 and 2024-06-10 are Mondays; 2024-06-15 is a Saturday |
| Predictor.PadOrTruncate | app/services/predictor.py:118 | post-padding and post-truncation to length n: position i holds the i-th id if there is one, else 0 |
| Predictor.EncodeText | app/services/predictor.py:115-119 | the encoded text is always 80 long and holds the tokenizer's ids for the stripped `caption content`, cut or zero-padded at the end |
| Predictor.EncodedTextMasksPadding | app/services/predictor.py:115-119 | given ids in 1..MaxVocab-1, every position is a valid id, and a position is 0 exactly when it is padding |
| Predictor.PlatformId | app/services/predictor.py:132 | the platform id is always one of the five ids 0–4 |
| Predictor.PlatformIdTable | app/services/predictor.py:132 | known names get their map id, unknown names get 0, and a non-zero id means a known name |
| Predictor.DecimalOfPadDigits | app/services/predictor.py:135 | reading back a zero-padded decimal gives the number |
| Predictor.PadDigitsOfDecimal | app/services/predictor.py:135 | zero-padding a digit string's value to its length gives the string back |
| Predictor.ParseClock | app/services/predictor.py:135 | `%H:%M` parsing yields only hours 0–23 and minutes 0–59 |
| Predictor.ClockRoundTrip | app/services/predictor.py:135 | every valid time written with one or two digits for the hour and one or two for the minute (`HH:MM`, `H:MM`, `HH:M`, `H:M`) parses back to itself |
| Predictor.ClockParsesOnlyWrittenTimes | app/services/predictor.py:135 | a string that parses has one or two hour digits, a colon and one or two minute digits, and is exactly its hour and minute written with those widths |
| Predictor.HourFeature | app/services/predictor.py:135-137 | the hour feature lies in 0–23; it is the parsed hour, or 12 when the time does not parse |
| Predictor.ParseIsoDate | app/services/predictor.py:139 | a parsed date is a valid Gregorian date within pandas' timestamp range |
| Predictor.IsoDateRoundTrip | app/services/predictor.py:139 | every valid in-range date written `YYYY-MM-DD` parses back to itself |
| Predictor.IsoDateParsesOnlyFormatted | app/services/predictor.py:139 | a string that parses is exactly the `YYYY-MM-DD` spelling of its date |
| Predictor.DayOfWeekFeature | app/services/predictor.py:139-140 | the weekday lies in 0–6; it is the parsed date's weekday (Monday = 0), or 0 for an unparsable date |
| Predictor.WeekendFlag | app/services/predictor.py:141 | the flag is 0 or 1, and 1 exactly for weekdays 5 and 6 |
| Predictor.EncodeNumeric | app/services/predictor.py:121-153 | six features, in order: platform id, hour (the parsed hour of `post_time`, 12 if malformed), weekday (the calendar weekday of the parsed `post_date`, 0 if malformed), weekend flag (1 iff weekday 5 or 6), `log1p(max(followers, 0))` (non-negative), ad boost |
| Predictor.NegativeFollowersEncodeAsZero | app/services/predictor.py:143 | negative follower counts encode the same as zero followers |
| Predictor.InstagramMondayExample | app/services/predictor.py:121-153 | Instagram, 2024-06-10, 09:30, 1000 followers, no boost encodes to `[1, 9, 0, 0, log1p(1000), 0]` |
| Predictor.MalformedScheduleDefaults | app/services/predictor.py:135-141 | an unparsable date and time give hour 12, weekday 0 and no weekend flag |
| Predictor.TargetMap | app/services/predictor.py:175-181 | the result's keys are exactly the targets |
| Predictor.TargetMapByPosition | app/services/predictor.py:176-181 | for distinct targets, each target's value is computed from the scaler output at its own position |
| Predictor.Postprocess | app/services/predictor.py:175-183 | the loop builds exactly the reference result: an `IndexError` when the row is shorter than five, otherwise the target map |
| Predictor.PostprocessedShape | app/services/predictor.py:175-183 | raises iff the row has fewer than five values; otherwise the keys are exactly the five targets and, with the library facts, every value is non-negative |
| Predictor.PostprocessedValues | app/services/predictor.py:176-181 | count targets are `round(max(expm1(max(v,0)),0),2)`; the timing score is `round(max(v,0),2)` |
| Predictor.CountTargetsArePrefix | app/services/predictor.py:178 | the first four targets are the count targets and the fifth is not |
| Predictor.LoadIdempotent | app/services/predictor.py:69-71 | `load()` on a loaded predictor changes nothing and returns normally |
| Predictor.LoadOutcome | app/services/predictor.py:69-111 | `load()` returns normally iff the predictor ends up loaded, which happens iff it already was or every step succeeds; a loaded predictor holds all three artifacts |
| Predictor.FallbackOnlyAfterWeightFailure | app/services/predictor.py:82-100 | when `load_weights` succeeds, the full-model path has no influence, and the restored weights become the model |
| Predictor.FallbackModelKept | app/services/predictor.py:85-100 | when `load_weights` raises and loading completes, the model is the full-model load |
| Predictor.PredictionIgnoresLaterLoads | app/services/predictor.py:157-183 | once loaded, a prediction does not depend on the environment load would use; it is the pipeline's result |
| Predictor.LoadTwicePredictsAsOnce | app/services/predictor.py:167 | after a successful load, a second load changes nothing that a prediction can see |
| Predictor.PredictionShape | app/services/predictor.py:157-183 | a successful prediction has exactly the five targets as keys, and every value is non-negative |
| Predictor.Predictor.constructor | app/services/predictor.py:63-67 | a fresh instance is not loaded and holds no artifacts |
| Predictor.Predictor.Load | app/services/predictor.py:69-111 | the new fields and the return are those of `LoadStep` applied to the old fields |
| Predictor.Predictor.Predict | app/services/predictor.py:157-183 | `predict` first performs `load()` on the fields, and its result is `PredictOutcome` of the old fields |
| Predictor.PredictorClass.New | app/services/predictor.py:63-67 | `Predictor()` returns the cached instance unchanged; the first call creates, caches and returns a fresh unloaded one |
| Predictor.NewTwice | app/services/predictor.py:63-67 | two constructions yield the same object, which is the cached instance |
| OcrService.Kept | app/services/ocr_service.py:33-43 | the kept list is no longer than the block list, and each kept text is non-empty with no edge whitespace |
| OcrService.KeptCharacterized | app/services/ocr_service.py:34-43 | the loop raises iff some block is a three-character bare string; otherwise it keeps exactly the stripped texts of the confident, non-blank blocks, in order |
| OcrService.CleanText | app/services/ocr_service.py:27-47 | the loop-and-join method returns exactly the reference cleaned text, or the raised exception |
| OcrService.CleanedTextIsParagraph | app/services/ocr_service.py:44-47 | the cleaned text is a single paragraph |
| OcrService.CleanedTextContents | app/services/ocr_service.py:33-47 | the cleaned text's non-whitespace characters are those of the surviving blocks, in order; it is empty iff no block survives |
| OcrService.CleanedTextJoinsSurvivors | app/services/ocr_service.py:33-47 | for every input, the cleaned text is the surviving texts, each normalised, joined by exactly one space |
| OcrService.CleanedTextIsJoin | app/services/ocr_service.py:44-47 | when every surviving text is already a paragraph, the result is exactly their space-join |
| OcrService.SourceName | app/services/ocr_service.py:98-114 | only the error source is named `error` |
| OcrService.VisionText | app/services/ocr_service.py:71-73 | the vision reply becomes a paragraph with the same non-whitespace characters |
| OcrService.ExtractText | app/services/ocr_service.py:81-114 | the source is easyocr iff its cleaned text has at least 10 characters, and the text is then that cleaned text; vision_api iff easyocr did not succeed and the API answered, with the post-processed reply; error, with empty text, iff both failed |
| OcrService.ExtractedTextIsParagraph | app/services/ocr_service.py:81-114 | whatever the source, the text is a paragraph |
| OcrService.VisionUnusedAfterEasySuccess | app/services/ocr_service.py:98-100 | when easyocr succeeds, the vision API's answer or failure has no influence |
| OcrService.EmptyResultMeansNoText | app/services/ocr_service.py:98-114 | an empty text never comes from easyocr, and if the API answered, its reply was all whitespace |
| Explainability.FenceIndex | app/services/explainability.py:105 | the position of the first fence, or the length when there is none |
| Explainability.BeforeFence | app/services/explainability.py:105 | `raw.split("```")[1]`, taken on the text after the opening fence: that text up to its first fence, which itself contains no fence |
| Explainability.StripReply | app/services/explainability.py:101-108 | the cleaned reply has no edge whitespace |
| Explainability.UnfencedReplyOnlyTrimmed | app/services/explainability.py:101-108 | a reply that does not start with a fence is only stripped |
| Explainability.FencedReplyTakesFirstBlock | app/services/explainability.py:104-108 | a fenced reply yields the stripped first block, without a leading `json` tag |
| Explainability.UnclosedFenceTakesRest | app/services/explainability.py:104-108 | with no closing fence, the whole rest is used, without a leading `json` tag |
| Explainability.FencedResultHasNoFence | app/services/explainability.py:104-108 | the text handed to the parser after a fence contains no fence |
| Explainability.FallbackTips | app/services/explainability.py:116-124 | one tip per metric, in order, with the metric's predicted value (default 0), the fixed suggestion and no hashtags |
| Explainability.MetricsAreTargets | app/services/explainability.py:123 | the fallback covers exactly the predicted targets, in order |
| Explainability.FallbackCarriesPredictions | app/services/explainability.py:119 | when the template accepts the predictions, the fallback carries each predicted value, never the default 0 |
| Explainability.PredictionsFillTemplate | app/services/explainability.py:79-88 | the predictor's output fills the template: every metric present, no clash with the explicit keywords |
| Explainability.GenerateExplainability | app/services/explainability.py:77-124 | raises iff no client or the template fails; returns the parsed cleaned reply iff the call and the parse succeed; otherwise returns the fallback |
| Explainability.GenerateInsights | app/services/explainability.py:188-233 | raises iff no client or the template fails; builds insights only from a parsed cleaned reply |
| Explainability.InsightsMirrorExplainability | app/services/explainability.py:212-219 | given the same reply and parser, insights raise, default and succeed exactly when explanations do, with the same value |
| Explainability.ExplainabilityAfterPrediction | app/services/explainability.py:79-124 | with the predictor's output and a client, explanation never raises, and a fallback carries the predicted values |
| OcrRoute.Endpoint | app/routes/ocr.py:17-40 | 400 iff the type is not allowed; 400 "too large" iff allowed and over 10 MiB; 422 iff allowed, small enough and without text; otherwise the recognised text and source |
| OcrRoute.TypeCheckedBeforeRead | app/routes/ocr.py:18-24 | a refused type gives the same answer whatever the body and the recognisers |
| OcrRoute.SizeCheckedBeforeExtraction | app/routes/ocr.py:26-32 | an oversized body gives an answer that does not depend on the recognisers |
| OcrRoute.ExactlyAtCapAccepted | app/routes/ocr.py:13-26 | the size cap is strict: exactly 10 MiB goes on to recognition |
| OcrRoute.OkCarriesRecognisedText | app/routes/ocr.py:34-40 | a successful answer's source is `easyocr` or `vision_api` and its text is a paragraph |

## Left out

- The network architecture (`_build_transformer`) and the numerics of `model.predict`: the network is an opaque function.
- Floating point: values are `real`, so there is no NaN, rounding error or `float32` cast. `log1p`, `expm1` and `round(x, 2)` are opaque functions. Only the facts the code relies on are assumed for them: `log1p`/`expm1` are non-negative on non-negative arguments, and rounding keeps non-negative values non-negative.
- Predictor.ParseIsoDate: models `pd.to_datetime` only on strict `YYYY-MM-DD` strings. pandas' other accepted spellings (other separators, month names, times, "now"/"today", non-ASCII digits) are treated as unparsable.
- Predictor.ParseClock: `%H:%M` is modelled with ASCII digits only. Non-ASCII digits are treated as unparsable.
- Predictor.EncodedTextMasksPadding: requires the tokenizer to return ids in 1..MaxVocab-1, as a fitted tokenizer with `num_words` does. Tokenizer internals are not modelled.
- File I/O in `load()`: model files, JSON and pickle. Each step is an input that returns its artifact or raises.
- Logging calls, thread safety of the singleton and concurrent `load()` calls.
- The Groq client, the prompts' wording and the network call: the reply is an input. `Groq(...)` construction is a boolean input.
- Explainability.GenerateExplainability: `json.loads` and the `GroqInsights(...)` construction are a parser parameter. A reply whose `content` is `None` (`.strip()` raises) is part of the `Raised` reply.
- easyocr, the Gemini model and PIL image decoding: their results for an image are inputs. A bare-string block's text is taken to be a string.
- OcrRoute.Endpoint: `file.read()` is the body parameter. FastAPI's response serialisation is not modelled.
- app/services/database.py, app/main.py, run.py, app/routes/history.py, app/routes/predict.py and app/models/schemas.py are not part of this model.
- `image/gif` is in the allowed set although the 400 message names only JPEG, PNG and WEBP. The model keeps both as written.
