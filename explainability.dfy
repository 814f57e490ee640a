/** The text handling around the language-model calls: stripping a Markdown code fence
    (and a `json` tag) off a reply before it is parsed, the fixed fallback tip list, and
    the two generation paths (tips and insights) with the model's reply and the JSON
    parser as inputs. */
module Explainability {
  import opened Outcomes
  import opened PyText
  import Config
  import Predictor

  const Fence: string := "```"

  /** A fence (three backticks) starts at index `i` of `s`. */
  predicate FenceAt(s: string, i: int) {
    0 <= i && i + 3 <= |s| && s[i] == '`' && s[i + 1] == '`' && s[i + 2] == '`'
  }

  predicate NoFence(s: string) {
    forall i :: 0 <= i < |s| ==> !FenceAt(s, i)
  }

  /** Where the leftmost fence of `s` starts, or `|s|` when there is none. */
  function FenceIndex(s: string): (k: nat)
    ensures k <= |s|
    ensures k < |s| ==> FenceAt(s, k)
    ensures forall i :: 0 <= i < k ==> !FenceAt(s, i)
  {
    if |s| < 3 then |s|
    else if FenceAt(s, 0) then 0
    else
      var k := FenceIndex(s[1..]);
      assert forall i :: 1 <= i ==> (FenceAt(s, i) <==> FenceAt(s[1..], i - 1));
      1 + k
  }

  /** The text of `s` before its first fence: `s.split("```")[0]`. */
  function BeforeFence(s: string): (r: string)
    ensures r == s[..FenceIndex(s)]
    ensures NoFence(r)
  {
    var k := FenceIndex(s);
    assert forall i :: FenceAt(s[..k], i) ==> FenceAt(s, i);
    s[..k]
  }

  /** A `json` language tag right at the start is dropped (`raw[4:]`). */
  function Untag(s: string): string {
    if StartsWith(s, "json") then s[4..] else s
  }

  /** The clean-up applied to a reply before `json.loads`: strip it; if it opens with a
      fence, keep what lies between that fence and the next one (`split("```")[1]`),
      dropping a `json` tag that follows the fence immediately; strip again. */
  function StripReply(content: string): (r: string)
    ensures NoEdgeSpace(r)
  {
    var raw := Strip(content);
    if StartsWith(raw, Fence) then Strip(Untag(BeforeFence(raw[3..])))
    else Strip(raw)
  }

  /** A reply that does not open with a fence is only trimmed. */
  lemma UnfencedReplyOnlyTrimmed(content: string)
    requires !StartsWith(Strip(content), Fence)
    ensures StripReply(content) == Strip(content)
  {
    StripIdempotent(content);
  }

  /** The first fence found in `x + Fence + y` is the one after `x` when no fence starts
      inside `x`, counting ones that run into the closing fence. */
  lemma FenceAfter(x: string, y: string)
    requires forall i :: 0 <= i < |x| ==> !FenceAt(x + Fence, i)
    ensures BeforeFence(x + Fence + y) == x
  {
    var s := x + Fence + y;
    forall i | 0 <= i < |x|
      ensures !FenceAt(s, i)
    {
      assert FenceAt(s, i) ==> FenceAt(x + Fence, i) by {
        if FenceAt(s, i) {
          assert s[i] == (x + Fence)[i] && s[i + 1] == (x + Fence)[i + 1] && s[i + 2] == (x + Fence)[i + 2];
        }
      }
    }
    assert FenceAt(s, |x|);
    assert FenceIndex(s) == |x|;
    assert s[..|x|] == x;
  }

  /** A fenced reply is reduced to the text between its first two fences; a `json` tag is
      removed only when it follows the opening fence immediately. */
  lemma FencedReplyTakesFirstBlock(content: string, x: string, y: string)
    requires Strip(content) == Fence + x + Fence + y
    requires forall i :: 0 <= i < |x| ==> !FenceAt(x + Fence, i)
    ensures StartsWith(x, "json") ==> StripReply(content) == Strip(x[4..])
    ensures !StartsWith(x, "json") ==> StripReply(content) == Strip(x)
  {
    var raw := Strip(content);
    assert raw[..3] == Fence;
    assert raw[3..] == x + Fence + y;
    FenceAfter(x, y);
  }

  /** Without a closing fence, everything after the opening fence is kept. */
  lemma UnclosedFenceTakesRest(content: string, x: string)
    requires Strip(content) == Fence + x
    requires NoFence(x)
    ensures StartsWith(x, "json") ==> StripReply(content) == Strip(x[4..])
    ensures !StartsWith(x, "json") ==> StripReply(content) == Strip(x)
  {
    var raw := Strip(content);
    assert raw[..3] == Fence;
    assert raw[3..] == x;
    assert FenceIndex(x) == |x|;
    assert x[..|x|] == x;
  }

  /** A piece of a fence-free string is fence-free. */
  lemma NoFenceSlice(s: string, i: int, j: int)
    requires 0 <= i <= j <= |s| && NoFence(s)
    ensures NoFence(s[i..j])
  {
    assert forall k :: FenceAt(s[i..j], k) ==> FenceAt(s, k + i);
  }

  lemma UntagKeepsNoFence(s: string)
    requires NoFence(s)
    ensures NoFence(Untag(s))
  {
    NoFenceSlice(s, if StartsWith(s, "json") then 4 else 0, |s|);
    assert s[0..|s|] == s;
  }

  lemma StripKeepsNoFence(s: string)
    requires NoFence(s)
    ensures NoFence(Strip(s))
  {
    var i, j :| 0 <= i <= j <= |s| && Strip(s) == s[i..j] && AllSpace(s[..i]) && AllSpace(s[j..]);
    NoFenceSlice(s, i, j);
  }

  /** What is handed to the parser never holds a fence, unless the reply carried no
      opening fence at all. */
  lemma FencedResultHasNoFence(content: string)
    requires StartsWith(Strip(content), Fence)
    ensures NoFence(StripReply(content))
  {
    var b := BeforeFence(Strip(content)[3..]);
    UntagKeepsNoFence(b);
    StripKeepsNoFence(Untag(b));
  }

  // ---------------------------------------------------------------------------
  // The fallback tips and the prompt template
  // ---------------------------------------------------------------------------

  /** A tip object: metric name, predicted value, suggestions and hashtags. */
  datatype Tip = Tip(metric: string, currentValue: real, suggestions: seq<string>, hashtags: seq<string>)

  /** The metrics the fallback list covers, in order. */
  const Metrics: seq<string> := ["likes", "comments", "shares", "clicks", "timing_quality_score"]

  const FallbackSuggestion: string := "Could not generate suggestions at this time."

  /** `predictions.get(m, 0)`. */
  function ValueOrZero(predictions: map<string, real>, m: string): real {
    if m in predictions then predictions[m] else 0.0
  }

  /** The list returned when the model call or the parse fails: one tip per metric. */
  function FallbackTips(predictions: map<string, real>): (tips: seq<Tip>)
    ensures |tips| == |Metrics|
    ensures forall i :: 0 <= i < |tips| ==>
      tips[i].metric == Metrics[i] && tips[i].currentValue == ValueOrZero(predictions, Metrics[i])
      && tips[i].suggestions == [FallbackSuggestion] && tips[i].hashtags == []
  {
    seq(|Metrics|, i requires 0 <= i < |Metrics| =>
      Tip(Metrics[i], ValueOrZero(predictions, Metrics[i]), [FallbackSuggestion], []))
  }

  /** The fallback covers exactly the predicted targets, in the same order. */
  lemma MetricsAreTargets()
    ensures Metrics == Config.Targets
  {
  }

  /** The keyword arguments both prompts pass besides `**predictions`. */
  const ExplicitFields: seq<string> := ["platform", "caption", "content", "post_date", "post_time", "followers", "ad_boost"]

  /** `template.format(platform=..., ..., **predictions)` succeeds: every metric the
      template names is present (else `KeyError`), and no prediction key repeats an
      explicit keyword (else `TypeError`). Values are numbers, so each `:.1f` applies. */
  predicate TemplateAccepts(predictions: map<string, real>) {
    (forall i :: 0 <= i < |Metrics| ==> Metrics[i] in predictions)
    && (forall i :: 0 <= i < |ExplicitFields| ==> ExplicitFields[i] !in predictions)
  }

  /** Under an accepted template every metric is present, so the fallback's default of 0
      is never used. */
  lemma FallbackCarriesPredictions(predictions: map<string, real>)
    requires TemplateAccepts(predictions)
    ensures forall i :: 0 <= i < |Metrics| ==>
      FallbackTips(predictions)[i].currentValue == predictions[Metrics[i]]
  {
  }

  /** The predictor's output always fills the template. */
  lemma PredictionsFillTemplate(num: Predictor.Numerics, inverse: seq<real>)
    requires Predictor.Postprocessed(num, inverse).Returned?
    ensures TemplateAccepts(Predictor.Postprocessed(num, inverse).value)
  {
    var m := Predictor.Postprocessed(num, inverse).value;
    assert forall t :: t in m <==> t in Config.Targets;
    forall i | 0 <= i < |ExplicitFields|
      ensures ExplicitFields[i] !in m
    {
      assert ExplicitFields[i] !in Config.Targets by {
        PlaceholdersAreNotTargets(i);
      }
    }
  }

  lemma PlaceholdersAreNotTargets(i: int)
    requires 0 <= i < |ExplicitFields|
    ensures ExplicitFields[i] !in Config.Targets
  {
  }

  // ---------------------------------------------------------------------------
  // The two generation paths
  // ---------------------------------------------------------------------------

  /** The outcome of `generate_explainability`: the prompt could not be built (raised
      before the `try`), the parsed reply, or the fallback list. */
  datatype Explanation<T> = ExplainRaised | Parsed(tips: T) | Fallback(fallback: seq<Tip>)

  /** `clientCreated`: whether `Groq(api_key=...)` succeeded; `reply`: the reply text, or
      `Raised` when the call, or reading the reply's content, fails; `parse`: `json.loads`. */
  function GenerateExplainability<T>(predictions: map<string, real>, clientCreated: bool,
                                     reply: Outcome<string>, parse: string -> Option<T>): (r: Explanation<T>)
    ensures r.ExplainRaised? <==> !clientCreated || !TemplateAccepts(predictions)
    ensures r.Parsed? <==> clientCreated && TemplateAccepts(predictions) && reply.Returned?
                           && parse(StripReply(reply.value)).Some?
    ensures r.Parsed? ==> parse(StripReply(reply.value)) == Some(r.tips)
    ensures r.Fallback? ==> r.fallback == FallbackTips(predictions)
  {
    if !clientCreated || !TemplateAccepts(predictions) then ExplainRaised
    else match reply
      case Raised => Fallback(FallbackTips(predictions))
      case Returned(content) =>
        match parse(StripReply(content))
        case Some(tips) => Parsed(tips)
        case None => Fallback(FallbackTips(predictions))
  }

  /** The outcome of `generate_groq_insights`: raised before the `try`, the insights built
      from the parsed reply, or the default (empty) insights. */
  datatype Insights<T> = InsightsRaised | Built(insights: T) | DefaultInsights

  /** `build`: `json.loads` followed by the `GroqInsights(...)` construction; `None` when
      either raises. */
  function GenerateInsights<T>(predictions: map<string, real>, clientCreated: bool,
                               reply: Outcome<string>, build: string -> Option<T>): (r: Insights<T>)
    ensures r.InsightsRaised? <==> !clientCreated || !TemplateAccepts(predictions)
    ensures r.Built? ==> reply.Returned? && build(StripReply(reply.value)) == Some(r.insights)
  {
    if !clientCreated || !TemplateAccepts(predictions) then InsightsRaised
    else match reply
      case Raised => DefaultInsights
      case Returned(content) =>
        match build(StripReply(content))
        case Some(v) => Built(v)
        case None => DefaultInsights
  }

  /** Both paths clean the reply the same way and fail in the same cases: given the same
      reply and parser, insights are built exactly when tips are parsed, to the same value. */
  lemma InsightsMirrorExplainability<T>(predictions: map<string, real>, clientCreated: bool,
                                        reply: Outcome<string>, parse: string -> Option<T>)
    ensures var e, g := GenerateExplainability(predictions, clientCreated, reply, parse),
                        GenerateInsights(predictions, clientCreated, reply, parse);
      (e.ExplainRaised? <==> g.InsightsRaised?) && (e.Fallback? <==> g.DefaultInsights?)
      && (e.Parsed? <==> g.Built?) && (e.Parsed? ==> e.tips == g.insights)
  {
  }

  /** With the predictor's output and a client, explanation never raises: it returns the
      parsed reply or the fallback filled with the predicted values. */
  lemma ExplainabilityAfterPrediction<T>(num: Predictor.Numerics, inverse: seq<real>,
                                         reply: Outcome<string>, parse: string -> Option<T>)
    requires Predictor.Postprocessed(num, inverse).Returned?
    ensures var p := Predictor.Postprocessed(num, inverse).value;
      var e := GenerateExplainability(p, true, reply, parse);
      !e.ExplainRaised? && (e.Fallback? ==> forall i :: 0 <= i < |Metrics| ==> e.fallback[i].currentValue == p[Metrics[i]])
  {
    PredictionsFillTemplate(num, inverse);
    FallbackCarriesPredictions(Predictor.Postprocessed(num, inverse).value);
  }
}
