/** The prediction service of app/services/predictor.py: feature encoding, the
    post-processing of the network's outputs, and the `Predictor` singleton with its
    one-shot `load()`.

    The network, the fitted tokenizer and the fitted target scaler are foreign
    artifacts; they appear here as function values. `log1p`, `expm1` and
    `round(x, 2)` are floating-point library functions; they appear as the fields of a
    `Numerics` value, of which only the facts the code relies on are assumed. */
module Predictor {
  import opened Outcomes
  import opened PyText
  import Config
  import Calendar

  /** Width of the numeric feature vector. */
  const NumFeatures: nat := 6

  /** The targets trained on `log1p` of their values. */
  const CountTargets: seq<string> := ["likes", "comments", "shares", "clicks"]

  /** `tokenizer.texts_to_sequences([text])[0]`: the ids of one text. */
  type Tokenizer = string -> seq<int>

  /** `model.predict` on one example: the raw output row, or an exception. */
  type Network = (seq<int>, seq<real>) -> Outcome<seq<real>>

  /** `y_scaler.inverse_transform` on one row, or an exception. */
  type Scaler = seq<real> -> Outcome<seq<real>>

  /** The floating-point functions the code calls; `Valid` holds the only facts it relies on. */
  datatype Numerics = Numerics(log1p: real -> real, expm1: real -> real, round2: real -> real) {
    ghost predicate Valid() {
      && (forall x: real :: x >= 0.0 ==> log1p(x) >= 0.0)
      && (forall x: real :: x >= 0.0 ==> expm1(x) >= 0.0)
      && (forall x: real :: x >= 0.0 ==> round2(x) >= 0.0)
    }
  }

  function MaxInt(a: int, b: int): int { if a >= b then a else b }

  function MaxReal(a: real, b: real): real { if a >= b then a else b }

  function Zeros(n: nat): (r: seq<int>)
    ensures |r| == n && forall i :: 0 <= i < n ==> r[i] == 0
  {
    seq(n, _ => 0)
  }

  function ZeroReals(n: nat): (r: seq<real>)
    ensures |r| == n && forall i :: 0 <= i < n ==> r[i] == 0.0
  {
    seq(n, _ => 0.0)
  }

  /** Position of the first occurrence of `x` in `s`. */
  function IndexOf<T(==)>(s: seq<T>, x: T): (i: nat)
    requires x in s
    ensures i < |s| && s[i] == x
    ensures forall j :: 0 <= j < i ==> s[j] != x
  {
    if s[0] == x then 0 else 1 + IndexOf(s[1..], x)
  }

  lemma IndexOfDistinct<T>(s: seq<T>, i: int)
    requires 0 <= i < |s|
    requires forall j, k :: 0 <= j < k < |s| ==> s[j] != s[k]
    ensures IndexOf(s, s[i]) == i
  {
  }

  // ---------------------------------------------------------------------------
  // Text features (_encode_text)
  // ---------------------------------------------------------------------------

  /** The text handed to the tokenizer: caption and content joined by one space, stripped. */
  function TokenizerInput(caption: string, content: string): string {
    Strip(caption + " " + content)
  }

  /** `pad_sequences(..., maxlen=n, padding="post", truncating="post")` on one row. */
  function PadOrTruncate(ids: seq<int>, n: nat): (r: seq<int>)
    ensures |r| == n
    ensures forall i :: 0 <= i < n ==> r[i] == (if i < |ids| then ids[i] else 0)
  {
    if |ids| >= n then ids[..n] else ids + Zeros(n - |ids|)
  }

  /** The token-sequence input of the network. */
  function EncodeText(tokenize: Tokenizer, caption: string, content: string): (r: seq<int>)
    ensures |r| == Config.MaxLen
    ensures var ids := tokenize(TokenizerInput(caption, content));
      && (|ids| >= Config.MaxLen ==> r == ids[..Config.MaxLen])
      && (|ids| < Config.MaxLen ==> r[..|ids|] == ids && forall i :: |ids| <= i < Config.MaxLen ==> r[i] == 0)
  {
    var ids := tokenize(TokenizerInput(caption, content));
    var r := PadOrTruncate(ids, Config.MaxLen);
    assert |ids| < Config.MaxLen ==> r[..|ids|] == ids;
    r
  }

  /** The tokenizer's ids are 1 .. MaxVocab-1 (0 is reserved for padding). */
  predicate TokenIdsInVocabulary(ids: seq<int>) {
    forall i :: 0 <= i < |ids| ==> 1 <= ids[i] < Config.MaxVocab
  }

  /** With a tokenizer that keeps to the vocabulary, every encoded id is a valid embedding
      index, and the padding id 0 occurs exactly at the positions after the text's tokens. */
  lemma EncodedTextMasksPadding(tokenize: Tokenizer, caption: string, content: string)
    requires TokenIdsInVocabulary(tokenize(TokenizerInput(caption, content)))
    ensures var r, ids := EncodeText(tokenize, caption, content), tokenize(TokenizerInput(caption, content));
      forall i :: 0 <= i < |r| ==> 0 <= r[i] < Config.MaxVocab && (r[i] == 0 <==> i >= |ids|)
  {
    var r, ids := EncodeText(tokenize, caption, content), tokenize(TokenizerInput(caption, content));
    forall i | 0 <= i < |r|
      ensures 0 <= r[i] < Config.MaxVocab && (r[i] == 0 <==> i >= |ids|)
    {
      assert r[i] == PadOrTruncate(ids, Config.MaxLen)[i];
    }
  }

  // ---------------------------------------------------------------------------
  // Numeric features (_encode_numeric)
  // ---------------------------------------------------------------------------

  /** `PLATFORM_MAP.get(platform, 0)`. */
  function PlatformId(platform: string): (id: int)
    ensures 0 <= id < |Config.PlatformNames|
  {
    Config.PlatformMapShape();
    if platform in Config.PlatformMap then Config.PlatformMap[platform] else 0
  }

  /** The id of each of the five names is its position in the name list; every other
      string, `Facebook`'s id included, maps to 0. */
  lemma PlatformIdTable(platform: string)
    ensures forall i :: 0 <= i < |Config.PlatformNames| ==> PlatformId(Config.PlatformNames[i]) == i
    ensures platform !in Config.PlatformNames ==> PlatformId(platform) == 0
    ensures PlatformId(platform) != 0 ==> platform in Config.PlatformNames
  {
    Config.PlatformMapShape();
  }

  predicate IsDigit(c: char) { '0' <= c <= '9' }

  predicate AllDigits(s: string) {
    forall i :: 0 <= i < |s| ==> IsDigit(s[i])
  }

  /** The value of a string of ASCII decimal digits. */
  function DecimalValue(s: string): nat
    requires AllDigits(s)
  {
    if s == [] then 0
    else DecimalValue(s[..|s| - 1]) * 10 + ((s[|s| - 1] as int) - ('0' as int))
  }

  function Pow10(n: nat): nat {
    if n == 0 then 1 else 10 * Pow10(n - 1)
  }

  /** `n` written with exactly `width` decimal digits, leading zeros included. */
  function PadDigits(n: nat, width: nat): (r: string)
    ensures |r| == width && AllDigits(r)
  {
    if width == 0 then ""
    else PadDigits(n / 10, width - 1) + [(('0' as int) + n % 10) as char]
  }

  /** Reading back a padded number gives the number. */
  lemma {:induction false} DecimalOfPadDigits(n: nat, width: nat)
    requires n < Pow10(width)
    ensures DecimalValue(PadDigits(n, width)) == n
  {
    if width > 0 {
      DecimalOfPadDigits(n / 10, width - 1);
      var p := PadDigits(n, width);
      assert p[..|p| - 1] == PadDigits(n / 10, width - 1);
    }
  }

  /** Writing out a digit string's value at its own width gives the string back. */
  lemma {:induction false} PadDigitsOfDecimal(s: string)
    requires AllDigits(s)
    ensures PadDigits(DecimalValue(s), |s|) == s
  {
    if s != [] {
      var init := s[..|s| - 1];
      PadDigitsOfDecimal(init);
      var v := DecimalValue(s);
      var d := (s[|s| - 1] as int) - ('0' as int);
      assert v / 10 == DecimalValue(init) && v % 10 == d;
      assert s == init + [s[|s| - 1]];
    }
  }

  /** Where the colon of an `H:MM` or `HH:MM` string must be. */
  function ColonIndex(t: string): nat {
    if |t| >= 2 && t[1] == ':' then 1 else 2
  }

  /** The shape `pd.to_datetime(t, format="%H:%M")` accepts: one or two digits, a colon,
      one or two digits, nothing else. */
  predicate ClockShaped(t: string) {
    var k := ColonIndex(t);
    k < |t| && t[k] == ':' && 1 <= |t| - k - 1 <= 2 && AllDigits(t[..k]) && AllDigits(t[k + 1..])
  }

  /** The clock time parsed by `pd.to_datetime(t, format="%H:%M")`: hour at most 23,
      minute at most 59. */
  function ParseClock(t: string): (r: Option<(int, int)>)
    ensures r.Some? ==> 0 <= r.value.0 <= 23 && 0 <= r.value.1 <= 59
  {
    if ClockShaped(t) then
      var k := ColonIndex(t);
      var h, m := DecimalValue(t[..k]), DecimalValue(t[k + 1..]);
      if h <= 23 && m <= 59 then Some((h, m)) else None
    else None
  }

  /** Every time of day written with one or two digits for the hour and one or two for
      the minute (leading zeros allowed) parses to itself, as `%H:%M` accepts all four. */
  lemma ClockRoundTrip(h: nat, m: nat, hw: nat, mw: nat)
    requires h <= 23 && m <= 59
    requires 1 <= hw <= 2 && 1 <= mw <= 2 && h < Pow10(hw) && m < Pow10(mw)
    ensures ParseClock(PadDigits(h, hw) + ":" + PadDigits(m, mw)) == Some((h, m))
  {
    DecimalOfPadDigits(h, hw);
    DecimalOfPadDigits(m, mw);
    ClockOfDigits(PadDigits(h, hw), PadDigits(m, mw));
  }

  /** One or two digits, a colon, one or two digits: the time they spell when in range. */
  lemma ClockOfDigits(a: string, b: string)
    requires 1 <= |a| <= 2 && 1 <= |b| <= 2 && AllDigits(a) && AllDigits(b)
    requires DecimalValue(a) <= 23 && DecimalValue(b) <= 59
    ensures ParseClock(a + ":" + b) == Some((DecimalValue(a), DecimalValue(b)))
  {
    var t := a + ":" + b;
    assert t[..|a|] == a && t[|a| + 1..] == b && t[|a|] == ':';
    assert |a| == 2 ==> t[1] == a[1];
    assert ColonIndex(t) == |a|;
  }

  /** A parsed time is the decimal value of the digits either side of the colon. */
  lemma ClockValue(t: string)
    requires ParseClock(t).Some?
    ensures ClockShaped(t)
    ensures ParseClock(t).value == (DecimalValue(t[..ColonIndex(t)]), DecimalValue(t[ColonIndex(t) + 1..]))
  {
  }

  lemma SplitAt(t: string, k: int)
    requires 0 <= k < |t|
    ensures t == t[..k] + [t[k]] + t[k + 1..]
  {
  }

  /** Conversely, a parsed time is exactly its hour and minute written out at the widths
      the string used. */
  lemma ClockParsesOnlyWrittenTimes(t: string)
    requires ParseClock(t).Some?
    ensures 1 <= ColonIndex(t) <= 2 && 1 <= |t| - ColonIndex(t) - 1 <= 2
    ensures t == PadDigits(ParseClock(t).value.0, ColonIndex(t)) + ":"
               + PadDigits(ParseClock(t).value.1, |t| - ColonIndex(t) - 1)
  {
    ClockValue(t);
    var k := ColonIndex(t);
    var a, b := t[..k], t[k + 1..];
    PadDigitsOfDecimal(a);
    PadDigitsOfDecimal(b);
    SplitAt(t, k);
  }

  /** `hour` of `_encode_numeric`: the parsed hour, or noon. */
  function HourFeature(postTime: string): (h: int)
    ensures 0 <= h <= 23
    ensures ParseClock(postTime).None? ==> h == 12
    ensures ParseClock(postTime).Some? ==> h == ParseClock(postTime).value.0
  {
    match ParseClock(postTime)
    case Some(hm) => hm.0
    case None => 12
  }

  /** Lexicographic order of (year, month, day). */
  predicate DateLeq(a: (int, int, int), b: (int, int, int)) {
    a.0 < b.0 || (a.0 == b.0 && (a.1 < b.1 || (a.1 == b.1 && a.2 <= b.2)))
  }

  /** Dates whose midnight pandas can represent as a nanosecond Timestamp; outside this
      range `errors="coerce"` yields NaT. */
  predicate InTimestampRange(y: int, m: int, d: int) {
    DateLeq((1677, 9, 22), (y, m, d)) && DateLeq((y, m, d), (2262, 4, 11))
  }

  /** A `YYYY-MM-DD` date, the format the request schema declares. */
  function ParseIsoDate(s: string): (r: Option<(int, int, int)>)
    ensures r.Some? ==> Calendar.ValidDate(r.value.0, r.value.1, r.value.2)
    ensures r.Some? ==> InTimestampRange(r.value.0, r.value.1, r.value.2)
  {
    if |s| == 10 && s[4] == '-' && s[7] == '-' && AllDigits(s[..4]) && AllDigits(s[5..7]) && AllDigits(s[8..]) then
      var y, m, d := DecimalValue(s[..4]), DecimalValue(s[5..7]), DecimalValue(s[8..]);
      if Calendar.ValidDate(y, m, d) && InTimestampRange(y, m, d) then Some((y, m, d)) else None
    else None
  }

  function FormatIsoDate(y: nat, m: nat, d: nat): string {
    PadDigits(y, 4) + "-" + PadDigits(m, 2) + "-" + PadDigits(d, 2)
  }

  /** Every representable calendar date, written as `YYYY-MM-DD`, parses back to itself ... */
  lemma IsoDateRoundTrip(y: nat, m: nat, d: nat)
    requires Calendar.ValidDate(y, m, d) && InTimestampRange(y, m, d)
    ensures ParseIsoDate(FormatIsoDate(y, m, d)) == Some((y, m, d))
  {
    var s := FormatIsoDate(y, m, d);
    assert s[..4] == PadDigits(y, 4) && s[5..7] == PadDigits(m, 2) && s[8..] == PadDigits(d, 2);
    assert s[4] == '-' && s[7] == '-';
    assert Pow10(2) == 100 && Pow10(4) == 10000;
    DecimalOfPadDigits(y, 4);
    DecimalOfPadDigits(m, 2);
    DecimalOfPadDigits(d, 2);
  }

  /** ... and nothing else parses: a parsed string is the formatted form of its date. */
  lemma IsoDateParsesOnlyFormatted(s: string)
    requires ParseIsoDate(s).Some?
    ensures var r := ParseIsoDate(s).value; r.0 >= 0 && r.1 >= 0 && r.2 >= 0 && FormatIsoDate(r.0, r.1, r.2) == s
  {
    PadDigitsOfDecimal(s[..4]);
    PadDigitsOfDecimal(s[5..7]);
    PadDigitsOfDecimal(s[8..]);
    assert s == s[..4] + "-" + s[5..7] + "-" + s[8..];
  }

  /** `day_of_week` of `_encode_numeric`: the Gregorian weekday (Monday = 0), or 0. */
  function DayOfWeekFeature(postDate: string): (w: int)
    ensures 0 <= w <= 6
    ensures ParseIsoDate(postDate).None? ==> w == 0
    ensures ParseIsoDate(postDate).Some? ==>
      var r := ParseIsoDate(postDate).value; w == Calendar.Weekday(r.0, r.1, r.2)
  {
    match ParseIsoDate(postDate)
    case Some(r) => Calendar.Weekday(r.0, r.1, r.2)
    case None => 0
  }

  /** `int(day_of_week in [5, 6])`. */
  function WeekendFlag(dayOfWeek: int): (f: int)
    ensures f == 0 || f == 1
    ensures f == 1 <==> dayOfWeek == 5 || dayOfWeek == 6
  {
    if dayOfWeek == 5 || dayOfWeek == 6 then 1 else 0
  }

  /** `log1p(max(followers, 0))`. */
  function FollowersLog(num: Numerics, followers: int): real {
    num.log1p(MaxInt(followers, 0) as real)
  }

  /** The numeric input of the network, in the order the network was trained on:
      platform id, hour, weekday, weekend flag, log followers, ad boost. */
  function EncodeNumeric(num: Numerics, platform: string, postDate: string, postTime: string,
                         followers: int, adBoost: int): (v: seq<real>)
    ensures |v| == NumFeatures
    ensures v[0] == PlatformId(platform) as real
    ensures 0.0 <= v[1] <= 23.0 && (ParseClock(postTime).None? ==> v[1] == 12.0)
    ensures ParseClock(postTime).Some? ==> v[1] == ParseClock(postTime).value.0 as real
    ensures 0.0 <= v[2] <= 6.0 && (ParseIsoDate(postDate).None? ==> v[2] == 0.0)
    ensures ParseIsoDate(postDate).Some? ==>
      var d := ParseIsoDate(postDate).value; v[2] == Calendar.Weekday(d.0, d.1, d.2) as real
    ensures v[3] == 1.0 <==> v[2] == 5.0 || v[2] == 6.0
    ensures v[3] == 0.0 || v[3] == 1.0
    ensures v[4] == num.log1p(if followers > 0 then followers as real else 0.0)
    ensures num.Valid() ==> v[4] >= 0.0
    ensures v[5] == adBoost as real
  {
    var dayOfWeek := DayOfWeekFeature(postDate);
    [PlatformId(platform) as real, HourFeature(postTime) as real, dayOfWeek as real,
     WeekendFlag(dayOfWeek) as real, FollowersLog(num, followers), adBoost as real]
  }

  /** A negative follower count is encoded exactly as zero followers. */
  lemma NegativeFollowersEncodeAsZero(num: Numerics, platform: string, postDate: string, postTime: string,
                                      followers: int, adBoost: int)
    requires followers < 0
    ensures EncodeNumeric(num, platform, postDate, postTime, followers, adBoost)
         == EncodeNumeric(num, platform, postDate, postTime, 0, adBoost)
  {
    var a := EncodeNumeric(num, platform, postDate, postTime, followers, adBoost);
    var b := EncodeNumeric(num, platform, postDate, postTime, 0, adBoost);
    assert forall i :: 0 <= i < |a| ==> a[i] == b[i];
  }

  /** A Monday morning post on Instagram: [1, 9, 0, 0, log1p(1000), 0]. */
  lemma InstagramMondayExample(num: Numerics)
    ensures EncodeNumeric(num, "Instagram", "2024-06-10", "09:30", 1000, 0)
         == [1.0, 9.0, 0.0, 0.0, num.log1p(1000.0), 0.0]
  {
    InstagramId();
    NineThirty();
    JuneTenth();
    var v := EncodeNumeric(num, "Instagram", "2024-06-10", "09:30", 1000, 0);
    assert v[0] == 1.0 && v[1] == 9.0 && v[2] == 0.0 && v[3] == 0.0;
  }

  lemma InstagramId()
    ensures PlatformId("Instagram") == 1
  {
    Config.PlatformMapShape();
    assert Config.PlatformNames[1] == "Instagram";
  }

  lemma NineThirty()
    ensures HourFeature("09:30") == 9
  {
    assert DecimalValue("09") == 9 by { assert "09"[..1] == "0" && "0"[..0] == ""; }
    assert DecimalValue("30") == 30 by { assert "30"[..1] == "3" && "3"[..0] == ""; }
    ClockOfDigits("09", "30");
    assert "09" + ":" + "30" == "09:30";
  }

  lemma JuneTenth()
    ensures DayOfWeekFeature("2024-06-10") == 0
  {
    JuneTenthParses();
    Calendar.KnownWeekdays();
  }

  lemma JuneTenthParses()
    ensures ParseIsoDate("2024-06-10") == Some((2024, 6, 10))
  {
    IsoDateRoundTrip(2024, 6, 10);
    assert PadDigits(2024, 4) == "2024";
    assert PadDigits(6, 2) == "06";
    assert PadDigits(10, 2) == "10";
    assert FormatIsoDate(2024, 6, 10) == "2024-06-10";
  }

  /** Unparseable time and date fall back to noon and Monday, not an error. */
  lemma MalformedScheduleDefaults(num: Numerics, platform: string, followers: int, adBoost: int)
    ensures var v := EncodeNumeric(num, platform, "not-a-date", "bad-time", followers, adBoost);
      v[1] == 12.0 && v[2] == 0.0 && v[3] == 0.0
  {
    assert "bad-time"[2] != ':';
    assert "not-a-date"[4] != '-';
  }

  // ---------------------------------------------------------------------------
  // Output post-processing (the loop of predict)
  // ---------------------------------------------------------------------------

  /** The final value of one target from its scaler-inverted value: counts are un-logged
      with `expm1(max(v, 0))`, then every value is clamped at 0 and rounded. */
  function TargetValue(num: Numerics, target: string, v: real): real {
    var x := if target in CountTargets then num.expm1(MaxReal(v, 0.0)) else v;
    num.round2(MaxReal(x, 0.0))
  }

  /** The dictionary `{t: TargetValue(t, inverse[position of t])}` over the names `ts`. */
  function TargetMap(num: Numerics, ts: seq<string>, inverse: seq<real>): (m: map<string, real>)
    requires |inverse| >= |ts|
    ensures forall t :: t in m <==> t in ts
  {
    map t | t in ts :: TargetValue(num, t, inverse[IndexOf(ts, t)])
  }

  /** Over distinct names, the dictionary holds exactly the names, each with the value at its position. */
  lemma TargetMapByPosition(num: Numerics, ts: seq<string>, inverse: seq<real>)
    requires |inverse| >= |ts|
    requires forall j, k :: 0 <= j < k < |ts| ==> ts[j] != ts[k]
    ensures TargetMap(num, ts, inverse).Keys == set j | 0 <= j < |ts| :: ts[j]
    ensures forall j :: 0 <= j < |ts| ==> TargetMap(num, ts, inverse)[ts[j]] == TargetValue(num, ts[j], inverse[j])
  {
    var m := TargetMap(num, ts, inverse);
    forall t | t in m.Keys ensures t in set j | 0 <= j < |ts| :: ts[j] {
      var j := IndexOf(ts, t);
    }
    forall j | 0 <= j < |ts| ensures m[ts[j]] == TargetValue(num, ts[j], inverse[j]) {
      IndexOfDistinct(ts, j);
    }
  }

  /** The result dictionary for a scaler-inverted row; a row shorter than the target list
      raises IndexError. */
  function Postprocessed(num: Numerics, inverse: seq<real>): Outcome<map<string, real>> {
    if |inverse| < |Config.Targets| then Raised
    else Returned(TargetMap(num, Config.Targets, inverse))
  }

  /** The `for i, target in enumerate(TARGETS)` loop that fills `result`. */
  method Postprocess(num: Numerics, inverse: seq<real>) returns (r: Outcome<map<string, real>>)
    ensures r == Postprocessed(num, inverse)
  {
    Config.TargetsShape();
    var result: map<string, real> := map[];
    for i := 0 to |Config.Targets|
      invariant i <= |inverse|
      invariant forall t :: t in result <==> t in Config.Targets[..i]
      invariant forall j :: 0 <= j < i ==> result[Config.Targets[j]] == TargetValue(num, Config.Targets[j], inverse[j])
    {
      if i >= |inverse| {
        return Raised;
      }
      var target := Config.Targets[i];
      var val := inverse[i];
      if target in CountTargets {
        val := num.expm1(MaxReal(val, 0.0));
      }
      val := num.round2(MaxReal(val, 0.0));
      result := result[target := val];
      assert Config.Targets[..i + 1] == Config.Targets[..i] + [target];
    }
    assert Config.Targets[..|Config.Targets|] == Config.Targets;
    TargetMapEquals(num, Config.Targets, inverse, result);
    r := Returned(result);
  }

  /** Over distinct names, a dictionary with exactly those keys that maps each name to the
      value at its position is the target dictionary. */
  lemma TargetMapEquals(num: Numerics, ts: seq<string>, inverse: seq<real>, m: map<string, real>)
    requires |inverse| >= |ts|
    requires forall j, k :: 0 <= j < k < |ts| ==> ts[j] != ts[k]
    requires forall t :: t in m <==> t in ts
    requires forall j :: 0 <= j < |ts| ==> m[ts[j]] == TargetValue(num, ts[j], inverse[j])
    ensures m == TargetMap(num, ts, inverse)
  {
    var p := TargetMap(num, ts, inverse);
    forall t | t in m ensures m[t] == p[t] {
      var j := IndexOf(ts, t);
      IndexOfDistinct(ts, j);
    }
  }

  /** The result has exactly the target names as keys; with the documented numeric facts
      every value is non-negative, for any raw output whatsoever. */
  lemma PostprocessedShape(num: Numerics, inverse: seq<real>)
    ensures Postprocessed(num, inverse).Raised? <==> |inverse| < |Config.Targets|
    ensures Postprocessed(num, inverse).Returned? ==>
      Postprocessed(num, inverse).value.Keys == set t | t in Config.Targets
    ensures Postprocessed(num, inverse).Returned? && num.Valid() ==>
      forall t :: t in Postprocessed(num, inverse).value ==> Postprocessed(num, inverse).value[t] >= 0.0
  {
  }

  /** The i-th target takes the i-th scaler-inverted value; `expm1` is applied to the four
      counts only, the timing score is only clamped and rounded. */
  lemma PostprocessedValues(num: Numerics, inverse: seq<real>)
    requires |inverse| >= |Config.Targets|
    ensures var m := Postprocessed(num, inverse).value;
      && (forall i :: 0 <= i < 4 ==> m[Config.Targets[i]] == num.round2(MaxReal(num.expm1(MaxReal(inverse[i], 0.0)), 0.0)))
      && m[Config.Targets[4]] == num.round2(MaxReal(inverse[4], 0.0))
  {
    Config.TargetsShape();
    TargetMapByPosition(num, Config.Targets, inverse);
    CountTargetsArePrefix();
    var m := Postprocessed(num, inverse).value;
    assert m == TargetMap(num, Config.Targets, inverse);
    forall i | 0 <= i < 4
      ensures m[Config.Targets[i]] == num.round2(MaxReal(num.expm1(MaxReal(inverse[i], 0.0)), 0.0))
    {
      assert m[Config.Targets[i]] == TargetValue(num, Config.Targets[i], inverse[i]);
    }
    assert m[Config.Targets[4]] == TargetValue(num, Config.Targets[4], inverse[4]);
  }

  /** The count targets are the first four targets, the timing score is not one of them. */
  lemma CountTargetsArePrefix()
    ensures forall i :: 0 <= i < 4 ==> Config.Targets[i] in CountTargets
    ensures Config.Targets[4] !in CountTargets
  {
    Config.TargetsShape();
    assert CountTargets == Config.Targets[..4];
    assert forall i :: 0 <= i < 4 ==> Config.Targets[i] == CountTargets[i];
  }

  // ---------------------------------------------------------------------------
  // The Predictor singleton and its load() lifecycle
  // ---------------------------------------------------------------------------

  /** The fields of a `Predictor` instance. `None` stands for an attribute not yet set. */
  datatype State = State(loaded: bool, model: Option<Network>, tokenizer: Option<Tokenizer>, yScaler: Option<Scaler>)

  /** A loaded predictor holds all three artifacts. */
  predicate Consistent(s: State) {
    s.loaded ==> s.model.Some? && s.tokenizer.Some? && s.yScaler.Some?
  }

  /** What each step of `load()` does when it runs: build the architecture, restore the
      weights with `load_weights`, load the full model with the compatibility layer, read
      the tokenizer, unpickle the scaler. */
  datatype Environment = Environment(build: Outcome<Network>, weights: Outcome<Network>,
                                     fullModel: Outcome<Network>, tokenizerFile: Outcome<Tokenizer>,
                                     scalerFile: Outcome<Scaler>)

  /** The dummy forward pass with zero inputs that materialises the weight shapes. */
  predicate WarmupSucceeds(built: Network) {
    built(Zeros(Config.MaxLen), ZeroReals(NumFeatures)).Returned?
  }

  /** The network after weight restoration: the `load_weights` result, or, only when that
      raised, the full-model load; `None` when both raised. */
  function RestoredNetwork(env: Environment): Option<Network> {
    match env.weights
    case Returned(w) => Some(w)
    case Raised =>
      match env.fullModel
      case Returned(f) => Some(f)
      case Raised => None
  }

  /** Every step of a first `load()` would finish. */
  predicate LoadCanComplete(env: Environment) {
    && env.build.Returned? && WarmupSucceeds(env.build.value)
    && RestoredNetwork(env).Some?
    && env.tokenizerFile.Returned? && env.scalerFile.Returned?
  }

  /** The state after `load()` and whether it returned normally (otherwise it raised). */
  function LoadStep(s: State, env: Environment): (State, bool) {
    if s.loaded then (s, true)
    else match env.build
      case Raised => (s, false)
      case Returned(built) =>
        var s1 := s.(model := Some(built));
        if !WarmupSucceeds(built) then (s1, false)
        else match RestoredNetwork(env)
          case None => (s1, false)
          case Some(net) =>
            var s2 := s1.(model := Some(net));
            match env.tokenizerFile
            case Raised => (s2, false)
            case Returned(tok) =>
              var s3 := s2.(tokenizer := Some(tok));
              match env.scalerFile
              case Raised => (s3, false)
              case Returned(sc) => (s3.(yScaler := Some(sc), loaded := true), true)
  }

  /** `load()` is a no-op on a loaded predictor. */
  lemma LoadIdempotent(s: State, env: Environment)
    requires s.loaded
    ensures LoadStep(s, env) == (s, true)
  {
  }

  /** `load()` returns normally exactly when the predictor ends up loaded, and that happens
      exactly when it was loaded already or every step finished; an exception leaves
      `_loaded` false. The state stays consistent either way. */
  lemma LoadOutcome(s: State, env: Environment)
    requires Consistent(s)
    ensures LoadStep(s, env).1 == LoadStep(s, env).0.loaded
    ensures LoadStep(s, env).0.loaded <==> s.loaded || LoadCanComplete(env)
    ensures Consistent(LoadStep(s, env).0)
  {
  }

  /** The full-model fallback runs only when `load_weights` raised: otherwise its outcome
      does not matter, and a successful first load holds the `load_weights` network. */
  lemma FallbackOnlyAfterWeightFailure(s: State, env: Environment, other: Outcome<Network>)
    requires env.weights.Returned?
    ensures LoadStep(s, env) == LoadStep(s, env.(fullModel := other))
    ensures !s.loaded && LoadStep(s, env).1 ==> LoadStep(s, env).0.model == Some(env.weights.value)
  {
  }

  /** A successful fallback load holds the fully loaded model. */
  lemma FallbackModelKept(s: State, env: Environment)
    requires !s.loaded && env.weights.Raised?
    ensures LoadStep(s, env).1 ==> env.fullModel.Returned? && LoadStep(s, env).0.model == Some(env.fullModel.value)
  {
  }

  /** `predict` for a loaded predictor: encode, run the network, invert the scaler,
      post-process. */
  function Predicted(s: State, num: Numerics, x: PredictionInput): Outcome<map<string, real>>
    requires Consistent(s) && s.loaded
  {
    var xText := EncodeText(s.tokenizer.value, x.caption, x.content);
    var xNum := EncodeNumeric(num, x.platform, x.postDate, x.postTime, x.followers, x.adBoost);
    match s.model.value(xText, xNum)
    case Raised => Raised
    case Returned(raw) =>
      match s.yScaler.value(raw)
      case Raised => Raised
      case Returned(inverse) => Postprocessed(num, inverse)
  }

  /** `predict`: `load()` first, then the pipeline; an exception from `load()` propagates. */
  function PredictOutcome(s: State, env: Environment, num: Numerics, x: PredictionInput): Outcome<map<string, real>>
    requires Consistent(s)
  {
    LoadOutcome(s, env);
    var (s', ok) := LoadStep(s, env);
    if ok then Predicted(s', num, x) else Raised
  }

  /** The fields of one prediction request. */
  datatype PredictionInput = PredictionInput(caption: string, content: string, platform: string,
                                             postDate: string, postTime: string, followers: int, adBoost: int)

  /** Once loaded, a prediction depends on the request and the loaded artifacts only: the
      environment of a later `load()` call plays no part. */
  lemma PredictionIgnoresLaterLoads(s: State, e1: Environment, e2: Environment, num: Numerics, x: PredictionInput)
    requires Consistent(s) && s.loaded
    ensures PredictOutcome(s, e1, num, x) == PredictOutcome(s, e2, num, x) == Predicted(s, num, x)
  {
  }

  /** Loading twice predicts as loading once. */
  lemma LoadTwicePredictsAsOnce(s: State, e1: Environment, e2: Environment, e3: Environment,
                                num: Numerics, x: PredictionInput)
    requires Consistent(s)
    requires LoadStep(s, e1).1
    ensures Consistent(LoadStep(s, e1).0) && Consistent(LoadStep(LoadStep(s, e1).0, e2).0)
    ensures PredictOutcome(LoadStep(LoadStep(s, e1).0, e2).0, e3, num, x) == PredictOutcome(LoadStep(s, e1).0, e3, num, x)
  {
    LoadOutcome(s, e1);
    LoadOutcome(LoadStep(s, e1).0, e2);
  }

  /** A successful prediction maps exactly the five targets, each to a non-negative value. */
  lemma PredictionShape(s: State, env: Environment, num: Numerics, x: PredictionInput)
    requires Consistent(s) && num.Valid()
    requires PredictOutcome(s, env, num, x).Returned?
    ensures PredictOutcome(s, env, num, x).value.Keys == set t | t in Config.Targets
    ensures forall t :: t in PredictOutcome(s, env, num, x).value ==> PredictOutcome(s, env, num, x).value[t] >= 0.0
  {
    LoadOutcome(s, env);
    var s' := LoadStep(s, env).0;
    var xText := EncodeText(s'.tokenizer.value, x.caption, x.content);
    var xNum := EncodeNumeric(num, x.platform, x.postDate, x.postTime, x.followers, x.adBoost);
    var raw := s'.model.value(xText, xNum).value;
    PostprocessedShape(num, s'.yScaler.value(raw).value);
  }

  /** A `Predictor` instance. */
  class Predictor {
    var loaded: bool
    var model: Option<Network>
    var tokenizer: Option<Tokenizer>
    var yScaler: Option<Scaler>

    function Snapshot(): State
      reads this
    {
      State(loaded, model, tokenizer, yScaler)
    }

    predicate Valid()
      reads this
    {
      Consistent(Snapshot())
    }

    /** `object.__new__` followed by `_loaded = False`. */
    constructor ()
      ensures Valid() && Snapshot() == State(false, None, None, None)
    {
      loaded := false;
      model := None;
      tokenizer := None;
      yScaler := None;
    }

    /** `load()`; `ok` is false when it raised. */
    method Load(env: Environment) returns (ok: bool)
      requires Valid()
      modifies this
      ensures Valid()
      ensures (Snapshot(), ok) == LoadStep(old(Snapshot()), env)
    {
      if loaded {
        return true;
      }
      if env.build.Raised? {
        return false;
      }
      model := Some(env.build.value);
      if !WarmupSucceeds(env.build.value) {
        return false;
      }
      if env.weights.Returned? {
        model := Some(env.weights.value);
      } else {
        if env.fullModel.Raised? {
          return false;
        }
        model := Some(env.fullModel.value);
      }
      if env.tokenizerFile.Raised? {
        return false;
      }
      tokenizer := Some(env.tokenizerFile.value);
      if env.scalerFile.Raised? {
        return false;
      }
      yScaler := Some(env.scalerFile.value);
      loaded := true;
      ok := true;
    }

    /** `predict(...)`. */
    method Predict(env: Environment, num: Numerics, x: PredictionInput) returns (r: Outcome<map<string, real>>)
      requires Valid()
      modifies this
      ensures Valid()
      ensures Snapshot() == LoadStep(old(Snapshot()), env).0
      ensures r == PredictOutcome(old(Snapshot()), env, num, x)
    {
      var ok := Load(env);
      if !ok {
        return Raised;
      }
      assert Snapshot() == LoadStep(old(Snapshot()), env).0 && loaded;
      var xText := EncodeText(tokenizer.value, x.caption, x.content);
      var xNum := EncodeNumeric(num, x.platform, x.postDate, x.postTime, x.followers, x.adBoost);
      var raw := model.value(xText, xNum);
      if raw.Raised? {
        return Raised;
      }
      var inverse := yScaler.value(raw.value);
      if inverse.Raised? {
        return Raised;
      }
      r := Postprocess(num, inverse.value);
    }
  }

  /** The `Predictor` class object, which holds the class attribute `_instance`. */
  class PredictorClass {
    var instance: Predictor?

    predicate Valid()
      reads this, instance
    {
      instance != null ==> instance.Valid()
    }

    constructor ()
      ensures Valid() && instance == null
    {
      instance := null;
    }

    /** `Predictor()`: the first call creates the instance with `_loaded = False`, every
        later call returns that same instance untouched. */
    method New() returns (p: Predictor)
      requires Valid()
      modifies this
      ensures Valid() && instance == p && p.Valid()
      ensures old(instance) != null ==> p == old(instance) && unchanged(p)
      ensures old(instance) == null ==> fresh(p) && p.Snapshot() == State(false, None, None, None)
    {
      if instance == null {
        instance := new Predictor();
      }
      p := instance;
    }
  }

  /** Two `Predictor()` calls give one object. */
  method NewTwice(cls: PredictorClass) returns (p: Predictor, q: Predictor)
    requires cls.Valid()
    modifies cls
    ensures p == q && cls.instance == p
  {
    p := cls.New();
    q := cls.New();
  }
}
