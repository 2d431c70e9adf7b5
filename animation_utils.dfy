/** Helpers around animation scripts: pulling the JSON object out of a model's
    reply, estimating narration length, the fixed four-section fallback script,
    intensity clamping and script sanitising. */
module AnimationUtils {
  import opened Json
  import opened AnimationConstants
  import opened AnimationValidator

  // ---------------------------------------------------------------------------
  // Extracting the JSON object from a reply

  /** `s.find(c)`: the first index holding `c`, or -1. */
  function Find(s: string, c: char): (r: int)
    ensures -1 <= r < |s|
    ensures r >= 0 ==> s[r] == c
    ensures forall i :: 0 <= i < |s| && (r < 0 || i < r) ==> s[i] != c
    decreases |s|
  {
    if s == [] then -1
    else if s[0] == c then 0
    else
      var k := Find(s[1..], c);
      if k < 0 then -1 else k + 1
  }

  /** `s.rfind(c)`: the last index holding `c`, or -1. */
  function RFind(s: string, c: char): (r: int)
    ensures -1 <= r < |s|
    ensures r >= 0 ==> s[r] == c
    ensures forall i :: r < i < |s| ==> s[i] != c
    decreases |s|
  {
    if s == [] then -1
    else if s[|s| - 1] == c then |s| - 1
    else RFind(s[..|s| - 1], c)
  }

  /** No `}` occurs at or after any `{`: the reply holds no candidate object. */
  predicate NoObjectSpan(text: string) {
    forall i, j :: 0 <= i <= j < |text| && text[i] == '{' ==> text[j] != '}'
  }

  datatype ParseError = NoJsonObject | InvalidJson(detail: string)

  /** The slice handed to the JSON decoder: from the first `{` through the last `}`. */
  function ObjectSpan(text: string): (span: (nat, nat))
    requires !NoObjectSpan(text)
    ensures span.0 < span.1 <= |text|
    ensures text[span.0] == '{' && forall i :: 0 <= i < span.0 ==> text[i] != '{'
    ensures text[span.1 - 1] == '}' && forall i :: span.1 <= i < |text| ==> text[i] != '}'
  {
    (Find(text, '{'), RFind(text, '}') + 1)
  }

  /** `parse_animation_response`, with `json.loads` passed in as `loads`. */
  function ParseAnimationResponse(text: string, loads: string -> Result<Value, string>): (r: Result<Value, ParseError>)
    ensures r == Err(NoJsonObject) <==> NoObjectSpan(text)
    ensures !NoObjectSpan(text) ==>
      var span := ObjectSpan(text);
      match loads(text[span.0..span.1])
      case Ok(v) => r == Ok(v)
      case Err(detail) => r == Err(InvalidJson(detail))
  {
    var start := Find(text, '{');
    var end := RFind(text, '}') + 1;
    if start < 0 || end <= start then
      Err(NoJsonObject)
    else
      match loads(text[start..end])
      case Ok(v) => Ok(v)
      case Err(detail) => Err(InvalidJson(detail))
  }

  // ---------------------------------------------------------------------------
  // Estimating the narration's duration

  /** The characters Python's `str.split()` treats as whitespace. */
  predicate IsSpace(c: char) {
    || c == ' ' || c == '\t' || c == '\n' || c == '\r' || c == '\U{0B}' || c == '\U{0C}'
    || ('\U{1C}' <= c <= '\U{1F}') || c == '\U{85}' || c == '\U{A0}' || c == '\U{1680}'
    || ('\U{2000}' <= c <= '\U{200A}') || c == '\U{2028}' || c == '\U{2029}'
    || c == '\U{202F}' || c == '\U{205F}' || c == '\U{3000}'
  }

  /** `len(text.split())`: the number of maximal runs of non-whitespace. Words
      are separated by whitespace, so n words need at least 2n - 1 characters,
      and 2n when the text ends in whitespace. */
  function WordCount(text: string): (n: nat)
    ensures 2 * n <= |text| + 1
    ensures text != [] && IsSpace(text[|text| - 1]) ==> 2 * n <= |text|
    decreases |text|
  {
    if text == [] then 0
    else
      var n := |text|;
      WordCount(text[..n - 1])
      + (if !IsSpace(text[n - 1]) && (n == 1 || IsSpace(text[n - 2])) then 1 else 0)
  }

  /** A text with no word has word count zero, and only such a text. */
  lemma {:induction false} WordCountZero(text: string)
    ensures WordCount(text) == 0 <==> forall k :: 0 <= k < |text| ==> IsSpace(text[k])
    decreases |text|
  {
    if text != [] {
      var n := |text|;
      var init := text[..n - 1];
      WordCountZero(init);
      assert forall k :: 0 <= k < n - 1 ==> init[k] == text[k];
    }
  }

  /** Joining two texts with a space adds their word counts. */
  lemma {:induction false} WordCountJoin(a: string, b: string)
    ensures WordCount(a + [' '] + b) == WordCount(a) + WordCount(b)
    decreases |b|
  {
    var s := a + [' '] + b;
    if b == [] {
      assert s[..|s| - 1] == a;
    } else {
      var init := b[..|b| - 1];
      WordCountJoin(a, init);
      assert s[..|s| - 1] == a + [' '] + init;
      assert |b| > 1 ==> s[|s| - 2] == b[|b| - 2];
    }
  }

  /** `max(3, min(120, words * 0.4))`, with Python's `min`/`max` tie rules. */
  function DurationForWords(words: nat): (seconds: real)
    ensures 3.0 <= seconds <= 120.0
    ensures 3.0 <= 0.4 * words as real <= 120.0 ==> seconds == 0.4 * words as real
    ensures 0.4 * words as real < 3.0 ==> seconds == 3.0
    ensures 0.4 * words as real > 120.0 ==> seconds == 120.0
  {
    var estimated := words as real * 0.4;
    var capped := if estimated < 120.0 then estimated else 120.0;
    if capped > 3.0 then capped else 3.0
  }

  /** More words never give a shorter estimate. */
  lemma DurationMonotone(m: nat, n: nat)
    requires m <= n
    ensures DurationForWords(m) <= DurationForWords(n)
  {
    assert 0.4 * m as real <= 0.4 * n as real;
  }

  /** `estimate_audio_duration`: 0.4 s per word, kept within [3, 120]. */
  function EstimateAudioDuration(text: string): (seconds: real)
    ensures 3.0 <= seconds <= 120.0
    ensures 3.0 <= 0.4 * WordCount(text) as real <= 120.0 ==> seconds == 0.4 * WordCount(text) as real
  {
    DurationForWords(WordCount(text))
  }

  /** Appending words to a narration never shortens its estimated duration. */
  lemma EstimateGrowsWithText(a: string, b: string)
    ensures EstimateAudioDuration(a) <= EstimateAudioDuration(a + [' '] + b)
  {
    WordCountJoin(a, b);
    DurationMonotone(WordCount(a), WordCount(a + [' '] + b));
  }

  // ---------------------------------------------------------------------------
  // The fallback script

  /** The metadata transcript: at most 100 characters, marked with "..." when cut. */
  function TranscriptSummary(transcript: string): (summary: string)
    ensures |transcript| <= 100 ==> summary == transcript
    ensures |transcript| > 100 ==> |summary| == 103 && summary[..100] == transcript[..100] && summary[100..] == "..."
    ensures summary == "" <==> transcript == ""
  {
    if |transcript| > 100 then transcript[..100] + "..." else transcript
  }

  /** One keyframe literal of the fallback script. */
  function Keyframe(start: real, end: real, animation: string, expression: string, intensity: real, notes: string): (frame: Value)
    ensures frame.Obj? && HasNumericTimes(frame) && KeyframeComparable(frame)
    ensures StartOf(frame) == start && EndOf(frame) == end
    ensures Get(frame.fields, "animation", Null) == Str(animation)
    ensures Get(frame.fields, "expression", Null) == Str(expression)
  {
    Obj(map[
      "startTime" := Num(start),
      "endTime" := Num(end),
      "animation" := Str(animation),
      "expression" := Str(expression),
      "intensity" := Num(intensity),
      "notes" := Str(notes)])
  }

  /** A keyframe literal with known names and an intensity in [0, 1] is accepted
      exactly when its times are ordered and within the expected duration. */
  lemma KeyframeLiteralAccepted(start: real, end: real, animation: string, expression: string,
                                intensity: real, notes: string, expected: real)
    requires animation in Animations && expression in Expressions && 0.0 <= intensity <= 1.0
    ensures KeyframeAccepted(Keyframe(start, end, animation, expression, intensity, notes), expected)
      <==> 0.0 <= start < end <= expected + 1.0
  {
    var frame := Keyframe(start, end, animation, expression, intensity, notes);
    assert forall name :: name in RequiredFields ==> name in frame.fields;
  }

  // The four fallback sections, column by column.
  const FallbackAnimations: seq<string> := ["idle", "sitTalk", "spellcast", "relax"]
  const FallbackExpressions: seq<string> := ["neutral", "smile", "laugh", "smile"]
  const FallbackIntensities: seq<real> := [0.5, 0.7, 0.9, 0.6]
  const FallbackNotes: seq<string> := [
    "Opening - neutral stance, setting up",
    "Building - friendly, conversational tone",
    "Climax - high energy, emphasizing humor",
    "Closing - settling down, satisfied expression"]

  /** Section boundaries: 0, a quarter, a half, three quarters, the whole duration. */
  function SectionBound(duration: real, k: nat): real
    requires k <= 4
  {
    [0.0, duration * 0.25, duration * 0.5, duration * 0.75, duration][k]
  }

  lemma FallbackColumns()
    ensures |FallbackAnimations| == |FallbackExpressions| == |FallbackIntensities| == |FallbackNotes| == 4
    ensures forall k :: 0 <= k < 4 ==>
      FallbackAnimations[k] in Animations && FallbackExpressions[k] in Expressions
      && 0.0 <= FallbackIntensities[k] <= 1.0
  {
  }

  /** Section `k` of the fallback spans the `k`-th quarter of the duration. */
  function SectionFrame(duration: real, k: nat): (frame: Value)
    requires k < 4
    ensures HasNumericTimes(frame) && KeyframeComparable(frame)
    ensures StartOf(frame) == duration * k as real / 4.0
    ensures EndOf(frame) == duration * (k + 1) as real / 4.0
  {
    FallbackColumns();
    Keyframe(SectionBound(duration, k), SectionBound(duration, k + 1),
      FallbackAnimations[k], FallbackExpressions[k], FallbackIntensities[k], FallbackNotes[k])
  }

  /** The fallback's four keyframes. */
  function FallbackTimeline(duration: real): (frames: seq<Value>)
    ensures |frames| == 4
    ensures forall k :: 0 <= k < 4 ==> frames[k] == SectionFrame(duration, k)
    ensures forall k :: 0 <= k < |frames| ==> HasNumericTimes(frames[k]) && KeyframeComparable(frames[k])
  {
    seq(4, k requires 0 <= k < 4 => SectionFrame(duration, k))
  }

  /** The fallback's metadata section. */
  function FallbackMetadata(duration: real, transcript: string): (metadata: Value)
    ensures metadata.Obj?
    ensures Get(metadata.fields, "duration", Null) == Num(duration)
    ensures Get(metadata.fields, "transcript", Null) == Str(TranscriptSummary(transcript))
    ensures Get(metadata.fields, "intensity", Null) == Str("medium")
    ensures Get(metadata.fields, "fallback", Null) == Bool(true)
  {
    Obj(map[
      "duration" := Num(duration),
      "transcript" := Str(TranscriptSummary(transcript)),
      "intensity" := Str("medium"),
      "style" := Str("comedic"),
      "notes" := Str("Generated using fallback pattern"),
      "fallback" := Bool(true)])
  }

  /** `generate_default_animation_script`. */
  function DefaultAnimationScript(duration: real, transcript: string): (script: Value)
    ensures script.Obj?
    ensures Get(script.fields, "metadata", Null) == FallbackMetadata(duration, transcript)
    ensures CheckedFrames(script) == Some(FallbackTimeline(duration))
  {
    Obj(map[
      "metadata" := FallbackMetadata(duration, transcript),
      "timeline" := Arr(FallbackTimeline(duration))])
  }

  /** The fallback metadata is accepted exactly when the duration is positive and
      the transcript is not empty. */
  lemma FallbackMetadataAccepted(duration: real, transcript: string)
    ensures MetadataAccepted(FallbackMetadata(duration, transcript), duration) <==> duration > 0.0 && transcript != ""
  {
  }

  /** The fallback timeline has four keyframes covering [0, duration] end to end,
      animated idle, sitTalk, spellcast, relax, with known expressions. */
  lemma FallbackTimelineShape(duration: real)
    ensures var frames := FallbackTimeline(duration);
      && StartOf(frames[0]) == 0.0
      && EndOf(frames[3]) == duration
      && (forall k :: 0 <= k < 3 ==> EndOf(frames[k]) == StartOf(frames[k + 1]))
      && (forall k :: 0 <= k < 4 ==> Get(frames[k].fields, "animation", Null) == Str(["idle", "sitTalk", "spellcast", "relax"][k]))
      && (forall k :: 0 <= k < 4 ==> IsNameIn(Get(frames[k].fields, "expression", Null), Expressions))
  {
    FallbackColumns();
  }

  /** The fallback keyframes are accepted exactly when the duration is positive. */
  lemma FallbackTimelineAccepted(duration: real)
    ensures TimelineAccepted(FallbackTimeline(duration), duration) <==> duration > 0.0
  {
    var frames := FallbackTimeline(duration);
    FallbackColumns();
    forall k | 0 <= k < 4
      ensures KeyframeAccepted(frames[k], duration)
        <==> 0.0 <= SectionBound(duration, k) < SectionBound(duration, k + 1) <= duration + 1.0
    {
      KeyframeLiteralAccepted(SectionBound(duration, k), SectionBound(duration, k + 1),
        FallbackAnimations[k], FallbackExpressions[k], FallbackIntensities[k], FallbackNotes[k], duration);
    }
    FallbackTimelineShape(duration);
    if duration <= 0.0 {
      assert !KeyframeAccepted(frames[0], duration);
    }
  }

  /** The fallback passes the validator against its own duration exactly when
      that duration is positive and the transcript is not empty: the promise that
      the fallback is valid needs both. */
  lemma FallbackValidIff(duration: real, transcript: string)
    ensures ScriptComparable(DefaultAnimationScript(duration, transcript))
    ensures IsValidScript(DefaultAnimationScript(duration, transcript), duration)
      <==> duration > 0.0 && transcript != ""
  {
    var script := DefaultAnimationScript(duration, transcript);
    FallbackTimelineAccepted(duration);
    FallbackMetadataAccepted(duration, transcript);
    ValidIffAccepted(script, duration);
  }

  // ---------------------------------------------------------------------------
  // Keyframe integrity and intensity clamping

  /** `sub in s` for strings. */
  predicate Contains(s: string, sub: string)
    decreases |s|
  {
    |sub| <= |s| && (s[..|sub|] == sub || Contains(s[1..], sub))
  }

  /** `sub` occurs in `s` starting at index `i`. */
  predicate OccursAt(s: string, sub: string, i: nat) {
    i + |sub| <= |s| && s[i..i + |sub|] == sub
  }

  /** The substring test agrees with the index-based definition: `sub in s`
      exactly when `sub` occurs at some index of `s`. */
  lemma {:induction false} ContainsIffOccurs(s: string, sub: string)
    ensures Contains(s, sub) <==> exists i: nat :: OccursAt(s, sub, i)
    decreases |s|
  {
    if |sub| <= |s| {
      if s[..|sub|] == sub {
        assert OccursAt(s, sub, 0);
      } else {
        ContainsIffOccurs(s[1..], sub);
        if i: nat :| OccursAt(s[1..], sub, i) {
          assert s[i + 1..i + 1 + |sub|] == s[1..][i..i + |sub|];
          assert OccursAt(s, sub, i + 1);
        }
        if i: nat :| OccursAt(s, sub, i) {
          assert i != 0;
          assert s[1..][i - 1..i - 1 + |sub|] == s[i..i + |sub|];
          assert OccursAt(s[1..], sub, i - 1);
        }
      }
    } else {
      if i: nat :| OccursAt(s, sub, i) {
        assert false;
      }
    }
  }

  /** `validate_keyframe_integrity`: every required name is `in` the keyframe.
      `in` means a key for a dict, an element for a list and a substring for a
      string; any other value makes Python raise. */
  predicate KeyframeIntegrity(keyframe: Value)
    requires keyframe.Obj? || keyframe.Arr? || keyframe.Str?
    ensures keyframe.Str? ==> (KeyframeIntegrity(keyframe) <==>
      forall name :: name in RequiredFields ==> exists i: nat :: OccursAt(keyframe.s, name, i))
    ensures keyframe.Arr? ==> (KeyframeIntegrity(keyframe) <==>
      forall name :: name in RequiredFields ==> exists i :: 0 <= i < |keyframe.items| && keyframe.items[i] == Str(name))
  {
    match keyframe
    case Obj(fields) => forall name :: name in RequiredFields ==> name in fields
    case Arr(items) => forall name :: name in RequiredFields ==> Str(name) in items
    case Str(s) =>
      forall name | name in RequiredFields ensures Contains(s, name) <==> exists i: nat :: OccursAt(s, name, i) {
        ContainsIffOccurs(s, name);
      }
      forall name :: name in RequiredFields ==> Contains(s, name)
  }

  /** On a dict, integrity holds exactly when the validator reports no missing field. */
  lemma IntegrityIffNoMissingField(fields: map<string, Value>, index: nat)
    ensures KeyframeIntegrity(Obj(fields)) <==> MissingFieldIssues(fields, index, RequiredFields) == []
  {
    MissingFieldIssuesEmpty(fields, index, RequiredFields);
  }

  /** `clamp_intensity`. */
  function ClampIntensity(value: Value): (r: real)
    ensures 0.0 <= r <= 1.0
    ensures !IsNumber(value) ==> r == DefaultIntensity
    ensures IsNumber(value) && 0.0 <= NumValue(value) <= 1.0 ==> r == NumValue(value)
    ensures IsNumber(value) && NumValue(value) < 0.0 ==> r == 0.0
    ensures IsNumber(value) && NumValue(value) > 1.0 ==> r == 1.0
  {
    if !IsNumber(value) then DefaultIntensity
    else
      var capped := if NumValue(value) < 1.0 then NumValue(value) else 1.0;
      if capped > 0.0 then capped else 0.0
  }

  /** Clamping a clamped intensity changes nothing. */
  lemma ClampIdempotent(value: Value)
    ensures ClampIntensity(Num(ClampIntensity(value))) == ClampIntensity(value)
  {
  }

  // ---------------------------------------------------------------------------
  // Sanitising

  /** The rebuilt keyframe: defaults for missing entries, a clamped intensity. */
  function SanitizeFrame(frame: map<string, Value>): (r: Value)
    ensures r.Obj? && KeyframeIntegrity(r)
    ensures "intensity" in r.fields && r.fields["intensity"].Num? && 0.0 <= r.fields["intensity"].n <= 1.0
  {
    Obj(map[
      "startTime" := Get(frame, "startTime", Num(0.0)),
      "endTime" := Get(frame, "endTime", Num(0.0)),
      "animation" := Get(frame, "animation", Str(DefaultAnimation)),
      "expression" := Get(frame, "expression", Str(DefaultExpression)),
      "intensity" := Num(ClampIntensity(Get(frame, "intensity", Num(DefaultIntensity)))),
      "notes" := Get(frame, "notes", Str(""))])
  }

  /** A rebuilt keyframe has exactly the six keys, all required fields, the
      frame's entries or their defaults, and an intensity clamped into [0, 1]. */
  lemma SanitizeFrameFields(frame: map<string, Value>)
    ensures var r := SanitizeFrame(frame);
      && r.fields.Keys == {"startTime", "endTime", "animation", "expression", "intensity", "notes"}
      && r.fields["startTime"] == Get(frame, "startTime", Num(0.0))
      && r.fields["endTime"] == Get(frame, "endTime", Num(0.0))
      && r.fields["animation"] == Get(frame, "animation", Str(DefaultAnimation))
      && r.fields["expression"] == Get(frame, "expression", Str(DefaultExpression))
      && r.fields["intensity"] == Num(ClampIntensity(Get(frame, "intensity", Num(DefaultIntensity))))
      && r.fields["notes"] == Get(frame, "notes", Str(""))
  {
  }

  /** The dict frames of a timeline, in their original order. */
  function DictFrames(frames: seq<Value>): (r: seq<map<string, Value>>)
    ensures |r| <= |frames|
    ensures forall f :: f in r ==> Obj(f) in frames
    decreases |frames|
  {
    if frames == [] then []
    else
      var init := frames[..|frames| - 1];
      var last := frames[|frames| - 1];
      assert forall v :: v in init ==> v in frames;
      DictFrames(init) + (if last.Obj? then [last.fields] else [])
  }

  /** Filtering dict frames distributes over concatenation, so relative order is kept. */
  lemma {:induction false} DictFramesAppend(a: seq<Value>, b: seq<Value>)
    ensures DictFrames(a + b) == DictFrames(a) + DictFrames(b)
    decreases |b|
  {
    if b == [] {
      assert a + b == a;
    } else {
      var init := b[..|b| - 1];
      DictFramesAppend(a, init);
      assert (a + b)[..|a + b| - 1] == a + init;
      assert (a + b)[|a + b| - 1] == b[|b| - 1];
    }
  }

  /** Every dict frame of the input survives, and a timeline of dicts keeps its length. */
  lemma {:induction false} DictFramesKeepDicts(frames: seq<Value>)
    ensures forall f :: Obj(f) in frames ==> f in DictFrames(frames)
    ensures (forall k :: 0 <= k < |frames| ==> frames[k].Obj?) ==>
      |DictFrames(frames)| == |frames| && forall k :: 0 <= k < |frames| ==> DictFrames(frames)[k] == frames[k].fields
    decreases |frames|
  {
    if frames != [] {
      var init := frames[..|frames| - 1];
      DictFramesKeepDicts(init);
      assert frames == init + [frames[|frames| - 1]];
      assert forall v :: v in frames ==> v in init || v == frames[|frames| - 1];
    }
  }

  /** The sanitised timeline: one rebuilt keyframe per dict frame. */
  function SanitizeTimeline(frames: seq<Value>): (r: seq<Value>)
    ensures |r| == |DictFrames(frames)|
    ensures forall k :: 0 <= k < |r| ==> r[k] == SanitizeFrame(DictFrames(frames)[k])
    decreases |frames|
  {
    if frames == [] then []
    else
      var last := frames[|frames| - 1];
      SanitizeTimeline(frames[..|frames| - 1]) + (if last.Obj? then [SanitizeFrame(last.fields)] else [])
  }

  /** `sanitize_animation_script` as a value. */
  function SanitizedScript(script: Value): (r: Option<Value>)
    ensures r.None? <==> !script.Obj? || !Get(script.fields, "timeline", Arr([])).Arr?
    ensures r.Some? ==> r.value.Obj? && r.value.fields.Keys == {"metadata", "timeline"}
  {
    if !script.Obj? then None
    else
      var metadata := Get(script.fields, "metadata", Obj(map[]));
      var timeline := Get(script.fields, "timeline", Arr([]));
      if !timeline.Arr? then None
      else Some(Obj(map["metadata" := metadata, "timeline" := Arr(SanitizeTimeline(timeline.items))]))
  }

  method SanitizeAnimationScript(script: Value) returns (r: Option<Value>)
    ensures r == SanitizedScript(script)
  {
    if !script.Obj? {
      return None;
    }
    var metadata := Get(script.fields, "metadata", Obj(map[]));
    var timeline := Get(script.fields, "timeline", Arr([]));
    if !timeline.Arr? {
      return None;
    }
    var frames := timeline.items;
    var sanitized: seq<Value> := [];
    var i := 0;
    while i < |frames|
      invariant 0 <= i <= |frames|
      invariant sanitized == SanitizeTimeline(frames[..i])
    {
      var frame := frames[i];
      assert frames[..i + 1][..i] == frames[..i];
      if frame.Obj? {
        sanitized := sanitized + [SanitizeFrame(frame.fields)];
      }
      i := i + 1;
    }
    assert frames[..i] == frames;
    return Some(Obj(map["metadata" := metadata, "timeline" := Arr(sanitized)]));
  }

  /** A sanitised script passes its metadata through, and every keyframe it
      emits has all required fields and an intensity in [0, 1]. */
  lemma SanitizedScriptShape(script: Value)
    ensures SanitizedScript(script).Some? ==>
      var out := SanitizedScript(script).value;
      && out.fields["metadata"] == Get(script.fields, "metadata", Obj(map[]))
      && out.fields["timeline"].Arr?
      && var frames := out.fields["timeline"].items;
         forall k :: 0 <= k < |frames| ==>
           && frames[k].Obj? && KeyframeIntegrity(frames[k])
           && frames[k].fields["intensity"].Num?
           && 0.0 <= frames[k].fields["intensity"].n <= 1.0
  {
    if SanitizedScript(script).Some? {
      var frames := SanitizeTimeline(Get(script.fields, "timeline", Arr([])).items);
      forall k | 0 <= k < |frames|
        ensures frames[k].Obj? && KeyframeIntegrity(frames[k])
        ensures frames[k].fields["intensity"].Num? && 0.0 <= frames[k].fields["intensity"].n <= 1.0
      {
        SanitizeFrameFields(DictFrames(Get(script.fields, "timeline", Arr([])).items)[k]);
      }
    }
  }

  /** A sanitised keyframe of an accepted keyframe is accepted, with the same times. */
  lemma SanitizeFrameAccepted(frame: Value, expected: real)
    requires HasNumericTimes(frame) && KeyframeComparable(frame) && KeyframeAccepted(frame, expected)
    ensures HasNumericTimes(SanitizeFrame(frame.fields)) && KeyframeComparable(SanitizeFrame(frame.fields))
    ensures KeyframeAccepted(SanitizeFrame(frame.fields), expected)
    ensures StartOf(SanitizeFrame(frame.fields)) == StartOf(frame)
    ensures EndOf(SanitizeFrame(frame.fields)) == EndOf(frame)
  {
    assert "startTime" in RequiredFields && "endTime" in RequiredFields;
    SanitizeFrameFields(frame.fields);
  }

  /** A timeline of dicts sanitises frame by frame. */
  lemma SanitizeDictTimeline(frames: seq<Value>)
    requires forall k :: 0 <= k < |frames| ==> frames[k].Obj?
    ensures |SanitizeTimeline(frames)| == |frames|
    ensures forall k :: 0 <= k < |frames| ==> SanitizeTimeline(frames)[k] == SanitizeFrame(frames[k].fields)
  {
    DictFramesKeepDicts(frames);
  }

  /** Replacing each keyframe of an accepted timeline by an accepted keyframe with
      the same times keeps the timeline accepted. */
  lemma TimelineAcceptedTransfer(a: seq<Value>, b: seq<Value>, expected: real)
    requires a != [] && |a| == |b| && TimelineComparable(a) && TimelineComparable(b)
    requires TimelineAccepted(a, expected)
    requires forall k :: 0 <= k < |b| ==>
      KeyframeAccepted(b[k], expected) && StartOf(b[k]) == StartOf(a[k]) && EndOf(b[k]) == EndOf(a[k])
    ensures TimelineAccepted(b, expected)
  {
  }

  /** An accepted timeline sanitises to an accepted timeline with the same times. */
  lemma SanitizeTimelineAccepted(frames: seq<Value>, expected: real)
    requires frames != [] && TimelineComparable(frames) && TimelineAccepted(frames, expected)
    ensures SanitizeTimeline(frames) != [] && TimelineComparable(SanitizeTimeline(frames))
    ensures TimelineAccepted(SanitizeTimeline(frames), expected)
  {
    SanitizeDictTimeline(frames);
    var sanitized := SanitizeTimeline(frames);
    forall k | 0 <= k < |frames|
      ensures HasNumericTimes(sanitized[k]) && KeyframeComparable(sanitized[k])
      ensures KeyframeAccepted(sanitized[k], expected)
      ensures StartOf(sanitized[k]) == StartOf(frames[k]) && EndOf(sanitized[k]) == EndOf(frames[k])
    {
      SanitizeFrameAccepted(frames[k], expected);
    }
    TimelineAcceptedTransfer(frames, sanitized, expected);
  }

  lemma SanitizedScriptParts(script: Value)
    requires script.Obj? && Get(script.fields, "timeline", Arr([])).Arr?
    ensures var out := SanitizedScript(script);
      && out.Some? && out.value.Obj?
      && Get(out.value.fields, "metadata", Null) == Get(script.fields, "metadata", Obj(map[]))
      && Get(out.value.fields, "timeline", Arr([])) == Arr(SanitizeTimeline(Get(script.fields, "timeline", Arr([])).items))
  {
  }

  lemma SanitizeScriptAccepted(script: Value, expected: real)
    requires ScriptComparable(script) && ScriptAccepted(script, expected)
    ensures SanitizedScript(script).Some?
    ensures ScriptComparable(SanitizedScript(script).value)
    ensures ScriptAccepted(SanitizedScript(script).value, expected)
  {
    var frames := CheckedFrames(script).value;
    assert Get(script.fields, "timeline", Arr([])) == Arr(frames);
    var metadata := Get(script.fields, "metadata", Null);
    assert "metadata" in script.fields;
    SanitizeTimelineAccepted(frames, expected);
    var sanitized := SanitizeTimeline(frames);
    SanitizedScriptParts(script);
    var out := SanitizedScript(script).value;
    assert Get(out.fields, "metadata", Null) == metadata;
    assert Get(out.fields, "timeline", Arr([])) == Arr(sanitized);
    assert Truthy(Arr(sanitized));
    assert CheckedFrames(out) == Some(sanitized);
  }

  /** Sanitising a script the validator accepts yields a script it accepts too. */
  lemma SanitizePreservesValidity(script: Value, expected: real)
    requires ScriptComparable(script) && IsValidScript(script, expected)
    ensures SanitizedScript(script).Some?
    ensures ScriptComparable(SanitizedScript(script).value)
    ensures IsValidScript(SanitizedScript(script).value, expected)
  {
    ValidIffAccepted(script, expected);
    SanitizeScriptAccepted(script, expected);
    ValidIffAccepted(SanitizedScript(script).value, expected);
  }
}
