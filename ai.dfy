/**
 * The suggestion generator's post-processing: after the text backend has
 * answered and JSON.parse has read its reply, every element of the parsed
 * array is turned into a bounded suggestion record. No element can fail
 * the batch; only a reply that is not an array does.
 */
module Ai {
  import opened Wrappers
  import opened Json
  import Text
  import Schema

  const MaxTitleLength: nat := 120
  const MaxDescriptionLength: nat := 500
  const MinEstimate: int := 15
  const MaxEstimate: int := 240

  datatype TaskSuggestion = TaskSuggestion(title: string, description: Option<string>, estimatedMinutes: Option<int>)

  /** The router hands the generator a car row, which has every field CarInfo asks for. */
  type CarInfo = Schema.Car

  /**
   * Why no suggestions came back: the backend call or JSON.parse failed
   * (ReplyUnusable), or the parsed reply has no `map` because it is not an array.
   */
  datatype AiError = ReplyUnusable | NotAnArray

  /** The bounds every sanitised suggestion keeps. */
  predicate IsSanitised(s: TaskSuggestion) {
    && |s.title| <= MaxTitleLength
    && (s.description.Some? ==> |s.description.value| <= MaxDescriptionLength)
    && (s.estimatedMinutes.Some? ==> MinEstimate <= s.estimatedMinutes.value <= MaxEstimate)
  }

  /** Math.round: the nearest integer, halves rounded up. */
  function RoundHalfUp(x: real): (n: int)
    ensures n as real - 0.5 <= x < n as real + 0.5
  {
    (x + 0.5).Floor
  }

  /** Only one integer lies in that half-open window, so the rounding is determined. */
  lemma RoundHalfUpUnique(x: real, m: int)
    requires m as real - 0.5 <= x < m as real + 0.5
    ensures m == RoundHalfUp(x)
  {
  }

  /** The placeholder for an element without a title: its 1-based position. */
  function DefaultTitle(index: nat): string {
    "Vedlikeholdsoppgave " + Text.NatToString(index + 1)
  }

  /** `String(item?.title ?? default).slice(0, 120)`. */
  function SanitiseTitle(raw: Option<Json>, index: nat): (t: string)
    ensures |t| <= MaxTitleLength
  {
    var rawTitle := if Nullish(raw) then DefaultTitle(index) else ToJsString(raw.value);
    Text.Prefix(rawTitle, MaxTitleLength)
  }

  /** `rawDescription ? String(rawDescription).slice(0, 500) : null`, with `?? null` before it. */
  function SanitiseDescription(raw: Option<Json>): (d: Option<string>)
    ensures d.None? <==> !Truthy(raw)
    ensures d.Some? ==> |d.value| <= MaxDescriptionLength && d.value <= ToJsString(raw.value)
    ensures d.Some? ==> |d.value| == if |ToJsString(raw.value)| <= MaxDescriptionLength then |ToJsString(raw.value)| else MaxDescriptionLength
  {
    if Truthy(raw) then Some(Text.Prefix(ToJsString(raw.value), MaxDescriptionLength)) else None
  }

  /** A number is rounded and kept only when the result lies in [15, 240]; anything else is dropped. */
  function SanitiseEstimate(raw: Option<Json>): (e: Option<int>)
    ensures e.Some? <==> (raw.Some? && raw.value.JNumber? && MinEstimate <= RoundHalfUp(raw.value.n) <= MaxEstimate)
    ensures e.Some? ==> e.value == RoundHalfUp(raw.value.n)
  {
    if raw.Some? && raw.value.JNumber? then
      var n := RoundHalfUp(raw.value.n);
      if MinEstimate <= n <= MaxEstimate then Some(n) else None
    else None
  }

  /** The callback of the `.map` over the parsed reply, for the element at position index. */
  function SanitiseItem(item: Json, index: nat): (s: TaskSuggestion)
    ensures IsSanitised(s)
  {
    TaskSuggestion(
      SanitiseTitle(Get(item, "title"), index),
      SanitiseDescription(Get(item, "description")),
      SanitiseEstimate(Get(item, "estimatedMinutes")))
  }

  /** `(parsed as any[]).map(...)`: one suggestion per element, in order, however many there are. */
  function SanitiseReply(parsed: Json): (r: Result<seq<TaskSuggestion>, AiError>)
    ensures r.Success? <==> parsed.JArray?
    ensures r.Failure? ==> r.error == NotAnArray
    ensures r.Success? ==> |r.value| == |parsed.items|
                           && forall i :: 0 <= i < |r.value| ==> r.value[i] == SanitiseItem(parsed.items[i], i)
    ensures r.Success? ==> forall s :: s in r.value ==> IsSanitised(s)
  {
    if parsed.JArray? then
      Success(seq(|parsed.items|, i requires 0 <= i < |parsed.items| => SanitiseItem(parsed.items[i], i)))
    else Failure(NotAnArray)
  }

  /**
   * generateTaskSuggestions. The backend call and JSON.parse are the
   * parameter `generate`, applied to the car: None when either of them throws.
   */
  function GenerateTaskSuggestions(car: CarInfo, generate: CarInfo -> Option<Json>): (r: Result<seq<TaskSuggestion>, AiError>)
    ensures generate(car).None? ==> r == Failure(ReplyUnusable)
    ensures generate(car).Some? ==> r == SanitiseReply(generate(car).value)
    ensures r.Success? ==> forall s :: s in r.value ==> IsSanitised(s)
  {
    match generate(car)
    case None => Failure(ReplyUnusable)
    case Some(parsed) => SanitiseReply(parsed)
  }

  // Properties of the sanitiser

  /** A missing or null title becomes the numbered placeholder; for fewer than 100 elements it fits whole. */
  lemma MissingTitleDefaults(raw: Option<Json>, index: nat)
    requires Nullish(raw)
    ensures SanitiseTitle(raw, index) == Text.Prefix(DefaultTitle(index), MaxTitleLength)
    ensures index < 100 ==> SanitiseTitle(raw, index) == DefaultTitle(index)
  {
    assert index < 100 ==> |Text.NatToString(index + 1)| <= 100;
  }

  /** `??` keeps the empty string, so an empty title stays empty. */
  lemma EmptyTitleKept(index: nat)
    ensures SanitiseTitle(Some(JString("")), index) == ""
  {
  }

  /** A present title is the first 120 characters of its string form; a short string title is kept as it is. */
  lemma PresentTitleTruncated(raw: Option<Json>, index: nat)
    requires !Nullish(raw)
    ensures SanitiseTitle(raw, index) <= ToJsString(raw.value)
    ensures |SanitiseTitle(raw, index)| == if |ToJsString(raw.value)| <= MaxTitleLength then |ToJsString(raw.value)| else MaxTitleLength
    ensures raw.value.JString? && |raw.value.s| <= MaxTitleLength ==> SanitiseTitle(raw, index) == raw.value.s
  {
  }

  /** A non-number estimate (a numeric string, say) becomes null. */
  lemma NonNumberEstimateDropped(raw: Option<Json>)
    requires raw.None? || !raw.value.JNumber?
    ensures SanitiseEstimate(raw) == None
  {
  }

  /** Out-of-range estimates are dropped, not clamped: the stored value is never 15 or 240 unless the rounding gave it. */
  lemma OutOfRangeEstimateDropped(x: real)
    requires RoundHalfUp(x) < MinEstimate || MaxEstimate < RoundHalfUp(x)
    ensures SanitiseEstimate(Some(JNumber(x))) == None
  {
  }

  lemma EstimateExamples()
    ensures SanitiseEstimate(Some(JNumber(45.6))) == Some(46)
    ensures SanitiseEstimate(Some(JNumber(14.5))) == Some(15)
    ensures SanitiseEstimate(Some(JNumber(240.5))) == None
    ensures SanitiseEstimate(Some(JNumber(500.0))) == None
    ensures SanitiseEstimate(Some(JString("30"))) == None
  {
  }

  /** An element that is not an object gets the placeholder title and nothing else. */
  lemma NonObjectItem(item: Json, index: nat)
    requires !item.JObject?
    ensures SanitiseItem(item, index) == TaskSuggestion(Text.Prefix(DefaultTitle(index), MaxTitleLength), None, None)
  {
  }
}
