/** The animation-script validator: a script is a JSON object with a `metadata`
    section and a `timeline` of keyframes; validation collects every problem it
    finds as an issue and calls the script valid exactly when it found none.

    Each validator routine is a method that appends to a local issue list, as the
    source does; each is proved equal to a specification function below, and the
    properties of the validator are lemmas about those functions. */
module AnimationValidator {
  import opened Json
  import opened AnimationConstants

  /** One constructor per message the validator can report, carrying the values
      the message interpolates. */
  datatype Issue =
    | ScriptNotDict
    | MissingMetadata
    | MetadataNotDict
    | MetadataMissingDuration
    | DurationNotNumber(duration: Value)
    | DurationNotPositive(got: real)
    | DurationMismatch(expected: real, got: real)
    | MissingTranscript
    | TranscriptNotString
    | BadMetadataIntensity(intensity: Value)
    | TimelineEmpty
    | TimelineNotList
    | TooManyKeyframes(count: nat)
    | TooFewKeyframes
    | KeyframeNotDict(index: nat)
    | MissingField(index: nat, field: string)
    | StartNotNumeric(index: nat)
    | EndNotNumeric(index: nat)
    | NegativeStart(index: nat)
    | EndNotAfterStart(index: nat)
    | EndExceedsDuration(index: nat)
    | InvalidAnimation(index: nat, animation: Value)
    | InvalidExpression(index: nat, expression: Value)
    | IntensityNotNumeric(index: nat)
    | IntensityOutOfRange(index: nat, value: real)
    | StartNotNearZero
    | EndsEarly(lastEnd: real, expected: real)
    | Gap(index: nat)

  predicate IsDurationIssue(i: Issue) {
    i.MetadataMissingDuration? || i.DurationNotNumber? || i.DurationNotPositive? || i.DurationMismatch?
  }

  /** Issues reported by the per-keyframe check; all of them carry the keyframe's index. */
  predicate IsKeyframeIssue(i: Issue) {
    i.KeyframeNotDict? || i.MissingField? || i.StartNotNumeric? || i.EndNotNumeric?
    || i.NegativeStart? || i.EndNotAfterStart? || i.EndExceedsDuration?
    || i.InvalidAnimation? || i.InvalidExpression? || i.IntensityNotNumeric?
    || i.IntensityOutOfRange?
  }

  predicate IsContinuityIssue(i: Issue) {
    i.StartNotNearZero? || i.EndsEarly? || i.Gap?
  }

  function Abs(x: real): real {
    if x < 0.0 then -x else x
  }

  // ---------------------------------------------------------------------------
  // Metadata

  function DurationIssues(duration: Value, expected: real): seq<Issue> {
    if duration == Null then [MetadataMissingDuration]
    else if !IsNumber(duration) then [DurationNotNumber(duration)]
    else if NumValue(duration) <= 0.0 then [DurationNotPositive(NumValue(duration))]
    else if Abs(NumValue(duration) - expected) > 2.0 then [DurationMismatch(expected, NumValue(duration))]
    else []
  }

  function TranscriptIssues(transcript: Value): seq<Issue> {
    if !Truthy(transcript) then [MissingTranscript]
    else if !transcript.Str? then [TranscriptNotString]
    else []
  }

  function MetadataIntensityIssues(intensity: Value): seq<Issue> {
    if Truthy(intensity) && !IsNameIn(intensity, MetadataIntensities) then [BadMetadataIntensity(intensity)]
    else []
  }

  /** Issues of a truthy `metadata` section. */
  function MetadataIssues(metadata: Value, expected: real): seq<Issue> {
    if !metadata.Obj? then [MetadataNotDict]
    else
      var f := metadata.fields;
      DurationIssues(Get(f, "duration", Null), expected)
      + TranscriptIssues(Get(f, "transcript", Null))
      + MetadataIntensityIssues(Get(f, "intensity", Null))
  }

  /** `_validate_metadata`, statement by statement: the checks append to a local
      list as the source does, and the result is proved equal to `MetadataIssues`,
      the function the lemmas speak about. */
  method ValidateMetadata(metadata: Value, expected: real) returns (issues: seq<Issue>)
    ensures issues == MetadataIssues(metadata, expected)
  {
    if !metadata.Obj? {
      return [MetadataNotDict];
    }
    issues := [];
    var duration := Get(metadata.fields, "duration", Null);
    if duration == Null {
      issues := issues + [MetadataMissingDuration];
    } else if !IsNumber(duration) {
      issues := issues + [DurationNotNumber(duration)];
    } else if NumValue(duration) <= 0.0 {
      issues := issues + [DurationNotPositive(NumValue(duration))];
    } else if Abs(NumValue(duration) - expected) > 2.0 {
      issues := issues + [DurationMismatch(expected, NumValue(duration))];
    }
    assert issues == DurationIssues(duration, expected);
    var transcript := Get(metadata.fields, "transcript", Null);
    if !Truthy(transcript) {
      issues := issues + [MissingTranscript];
    } else if !transcript.Str? {
      issues := issues + [TranscriptNotString];
    }
    assert issues == DurationIssues(duration, expected) + TranscriptIssues(transcript);
    var intensity := Get(metadata.fields, "intensity", Null);
    if Truthy(intensity) && !IsNameIn(intensity, MetadataIntensities) {
      issues := issues + [BadMetadataIntensity(intensity)];
    }
  }

  /** Metadata never reports more than one duration problem, and reports none for
      a positive number within two seconds of the expected duration. */
  lemma DurationIssueAtMostOnce(metadata: Value, expected: real)
    ensures forall i, j :: 0 <= i < j < |MetadataIssues(metadata, expected)| ==>
      !(IsDurationIssue(MetadataIssues(metadata, expected)[i]) && IsDurationIssue(MetadataIssues(metadata, expected)[j]))
    ensures metadata.Obj? && "duration" in metadata.fields && IsNumber(metadata.fields["duration"])
            && NumValue(metadata.fields["duration"]) > 0.0
            && Abs(NumValue(metadata.fields["duration"]) - expected) <= 2.0
            ==> forall x :: x in MetadataIssues(metadata, expected) ==> !IsDurationIssue(x)
  {
    if metadata.Obj? {
      var f := metadata.fields;
      var d := DurationIssues(Get(f, "duration", Null), expected);
      var rest := TranscriptIssues(Get(f, "transcript", Null)) + MetadataIntensityIssues(Get(f, "intensity", Null));
      assert MetadataIssues(metadata, expected) == d + rest;
      assert forall x :: x in rest ==> !IsDurationIssue(x);
    }
  }

  // ---------------------------------------------------------------------------
  // One keyframe

  /** What `_validate_keyframe` needs not to raise: when both times are set they
      are numbers (else `<` compares unlike types), and a truthy animation or
      expression name is hashable (else the lookup in the name table raises). */
  predicate KeyframeComparable(frame: Value) {
    frame.Obj? ==>
      var f := frame.fields;
      (Get(f, "startTime", Null) != Null && Get(f, "endTime", Null) != Null ==>
         IsNumber(Get(f, "startTime", Null)) && IsNumber(Get(f, "endTime", Null)))
      && (Truthy(Get(f, "animation", Null)) ==> Hashable(Get(f, "animation", Null)))
      && (Truthy(Get(f, "expression", Null)) ==> Hashable(Get(f, "expression", Null)))
  }

  /** One issue per name of `names` that is not a key of `fields`, in order. */
  function MissingFieldIssues(fields: map<string, Value>, index: nat, names: seq<string>): seq<Issue>
    decreases |names|
  {
    if names == [] then []
    else
      var last := names[|names| - 1];
      MissingFieldIssues(fields, index, names[..|names| - 1])
      + (if last in fields then [] else [MissingField(index, last)])
  }

  function TypeIssues(start: Value, end: Value, index: nat): seq<Issue> {
    (if start != Null && !IsNumber(start) then [StartNotNumeric(index)] else [])
    + (if end != Null && !IsNumber(end) then [EndNotNumeric(index)] else [])
  }

  function OrderIssues(start: real, end: real, index: nat, expected: real): seq<Issue> {
    (if start < 0.0 then [NegativeStart(index)] else [])
    + (if end <= start then [EndNotAfterStart(index)] else [])
    + (if end > expected + 1.0 then [EndExceedsDuration(index)] else [])
  }

  function TimingIssues(start: Value, end: Value, index: nat, expected: real): seq<Issue>
    requires start != Null && end != Null ==> IsNumber(start) && IsNumber(end)
  {
    TypeIssues(start, end, index)
    + (if start != Null && end != Null then OrderIssues(NumValue(start), NumValue(end), index, expected) else [])
  }

  function AnimationIssues(animation: Value, index: nat): seq<Issue> {
    if Truthy(animation) && !IsNameIn(animation, Animations) then [InvalidAnimation(index, animation)] else []
  }

  function ExpressionIssues(expression: Value, index: nat): seq<Issue> {
    if Truthy(expression) && !IsNameIn(expression, Expressions) then [InvalidExpression(index, expression)] else []
  }

  function IntensityIssues(intensity: Value, index: nat): seq<Issue> {
    if intensity == Null then []
    else if !IsNumber(intensity) then [IntensityNotNumeric(index)]
    else if !(0.0 <= NumValue(intensity) <= 1.0) then [IntensityOutOfRange(index, NumValue(intensity))]
    else []
  }

  function ContentIssues(f: map<string, Value>, index: nat): seq<Issue> {
    AnimationIssues(Get(f, "animation", Null), index)
    + ExpressionIssues(Get(f, "expression", Null), index)
    + IntensityIssues(Get(f, "intensity", Null), index)
  }

  function KeyframeIssues(frame: Value, index: nat, expected: real): seq<Issue>
    requires KeyframeComparable(frame)
  {
    if !frame.Obj? then [KeyframeNotDict(index)]
    else
      var f := frame.fields;
      MissingFieldIssues(f, index, RequiredFields)
      + TimingIssues(Get(f, "startTime", Null), Get(f, "endTime", Null), index, expected)
      + ContentIssues(f, index)
  }

  /** The loop over the required field names. */
  method CheckRequiredFields(f: map<string, Value>, index: nat) returns (issues: seq<Issue>)
    ensures issues == MissingFieldIssues(f, index, RequiredFields)
  {
    issues := [];
    var k := 0;
    while k < |RequiredFields|
      invariant 0 <= k <= |RequiredFields|
      invariant issues == MissingFieldIssues(f, index, RequiredFields[..k])
    {
      var field := RequiredFields[k];
      if field !in f {
        issues := issues + [MissingField(index, field)];
      }
      assert RequiredFields[..k + 1][..k] == RequiredFields[..k];
      k := k + 1;
    }
    assert RequiredFields[..k] == RequiredFields;
  }

  /** The type and ordering checks on `startTime` and `endTime`, appended one by
      one as in the source and proved equal to the issue functions the lemmas
      use. */
  method CheckTiming(start: Value, end: Value, index: nat, expected: real) returns (issues: seq<Issue>)
    requires start != Null && end != Null ==> IsNumber(start) && IsNumber(end)
    ensures issues == TimingIssues(start, end, index, expected)
  {
    issues := [];
    if start != Null && !IsNumber(start) {
      issues := issues + [StartNotNumeric(index)];
    }
    if end != Null && !IsNumber(end) {
      issues := issues + [EndNotNumeric(index)];
    }
    assert issues == TypeIssues(start, end, index);
    ghost var typed := issues;
    if start != Null && end != Null {
      var startTime, endTime := NumValue(start), NumValue(end);
      if startTime < 0.0 {
        issues := issues + [NegativeStart(index)];
      }
      if endTime <= startTime {
        issues := issues + [EndNotAfterStart(index)];
      }
      if endTime > expected + 1.0 {
        issues := issues + [EndExceedsDuration(index)];
      }
      assert issues == typed + OrderIssues(startTime, endTime, index, expected);
    }
  }

  /** The checks on the animation name, the expression name and the intensity,
      appended one by one as in the source and proved equal to `ContentIssues`,
      the function the lemmas use. */
  method CheckContent(f: map<string, Value>, index: nat) returns (issues: seq<Issue>)
    ensures issues == ContentIssues(f, index)
  {
    issues := [];
    var animation := Get(f, "animation", Null);
    if Truthy(animation) && !IsNameIn(animation, Animations) {
      issues := issues + [InvalidAnimation(index, animation)];
    }
    var expression := Get(f, "expression", Null);
    if Truthy(expression) && !IsNameIn(expression, Expressions) {
      issues := issues + [InvalidExpression(index, expression)];
    }
    assert issues == AnimationIssues(animation, index) + ExpressionIssues(expression, index);
    ghost var named := issues;
    var intensity := Get(f, "intensity", Null);
    if intensity != Null {
      if !IsNumber(intensity) {
        issues := issues + [IntensityNotNumeric(index)];
      } else if !(0.0 <= NumValue(intensity) <= 1.0) {
        issues := issues + [IntensityOutOfRange(index, NumValue(intensity))];
      }
    }
    assert issues == named + IntensityIssues(intensity, index);
  }

  method ValidateKeyframe(frame: Value, index: nat, expected: real) returns (issues: seq<Issue>)
    requires KeyframeComparable(frame)
    ensures issues == KeyframeIssues(frame, index, expected)
  {
    if !frame.Obj? {
      return [KeyframeNotDict(index)];
    }
    var f := frame.fields;
    issues := CheckRequiredFields(f, index);
    var timing := CheckTiming(Get(f, "startTime", Null), Get(f, "endTime", Null), index, expected);
    issues := issues + timing;
    var content := CheckContent(f, index);
    issues := issues + content;
  }

  lemma {:induction false} MissingFieldIssuesShape(fields: map<string, Value>, index: nat, names: seq<string>)
    ensures forall x :: x in MissingFieldIssues(fields, index, names) ==>
      x.MissingField? && x.index == index && x.field in names && x.field !in fields
    ensures forall name :: name !in names ==> multiset(MissingFieldIssues(fields, index, names))[MissingField(index, name)] == 0
    decreases |names|
  {
    if names != [] {
      MissingFieldIssuesShape(fields, index, names[..|names| - 1]);
    }
  }

  lemma CountConcat(x: Issue, a: seq<Issue>, b: seq<Issue>)
    ensures multiset(a + b)[x] == multiset(a)[x] + multiset(b)[x]
  {
    assert multiset(a + b) == multiset(a) + multiset(b);
  }

  /** With distinct names, each absent name is reported exactly once. */
  lemma {:induction false} MissingFieldIssuesCount(fields: map<string, Value>, index: nat, names: seq<string>, name: string)
    requires forall i, j :: 0 <= i < j < |names| ==> names[i] != names[j]
    ensures multiset(MissingFieldIssues(fields, index, names))[MissingField(index, name)]
            == if name in names && name !in fields then 1 else 0
    decreases |names|
  {
    if names != [] {
      var x := MissingField(index, name);
      var init := names[..|names| - 1];
      var last := names[|names| - 1];
      var tail := if last in fields then [] else [MissingField(index, last)];
      assert forall i :: 0 <= i < |init| ==> init[i] == names[i];
      MissingFieldIssuesCount(fields, index, init, name);
      CountConcat(x, MissingFieldIssues(fields, index, init), tail);
      assert multiset(tail)[x] == if name == last && last !in fields then 1 else 0;
      if name == last {
        assert name !in init by {
          forall i | 0 <= i < |init| ensures init[i] != name {
            assert names[i] != names[|names| - 1];
          }
        }
      } else {
        assert name in names <==> name in init;
      }
    }
  }

  lemma TimingIssuesShape(start: Value, end: Value, index: nat, expected: real)
    requires start != Null && end != Null ==> IsNumber(start) && IsNumber(end)
    ensures forall x :: x in TimingIssues(start, end, index, expected) ==>
      x.index == index
      && (x.StartNotNumeric? || x.EndNotNumeric? || x.NegativeStart? || x.EndNotAfterStart? || x.EndExceedsDuration?)
  {
  }

  lemma ContentIssuesShape(f: map<string, Value>, index: nat)
    ensures forall x :: x in ContentIssues(f, index) ==>
      x.index == index
      && (x.InvalidAnimation? || x.InvalidExpression? || x.IntensityNotNumeric? || x.IntensityOutOfRange?)
  {
  }

  /** Every issue of a keyframe is a keyframe issue about that keyframe. */
  lemma KeyframeIssuesShape(frame: Value, index: nat, expected: real)
    requires KeyframeComparable(frame)
    ensures forall x :: x in KeyframeIssues(frame, index, expected) ==> IsKeyframeIssue(x) && x.index == index
  {
    if frame.Obj? {
      var f := frame.fields;
      MissingFieldIssuesShape(f, index, RequiredFields);
      TimingIssuesShape(Get(f, "startTime", Null), Get(f, "endTime", Null), index, expected);
      ContentIssuesShape(f, index);
    }
  }

  lemma KeyframeIssuesSplit(f: map<string, Value>, index: nat, expected: real)
    requires KeyframeComparable(Obj(f))
    ensures KeyframeIssues(Obj(f), index, expected)
      == MissingFieldIssues(f, index, RequiredFields)
         + TimingIssues(Get(f, "startTime", Null), Get(f, "endTime", Null), index, expected)
         + ContentIssues(f, index)
  {
  }

  lemma InMiddle(x: Issue, a: seq<Issue>, b: seq<Issue>, c: seq<Issue>)
    requires x !in a && x !in c
    ensures x in a + b + c <==> x in b
  {
  }

  lemma NoMissingFieldAfterRequired(f: map<string, Value>, index: nat, expected: real, name: string)
    requires KeyframeComparable(Obj(f))
    ensures MissingField(index, name) !in
      TimingIssues(Get(f, "startTime", Null), Get(f, "endTime", Null), index, expected) + ContentIssues(f, index)
  {
    TimingIssuesShape(Get(f, "startTime", Null), Get(f, "endTime", Null), index, expected);
    ContentIssuesShape(f, index);
  }

  /** Each of the five required fields a keyframe lacks is reported exactly once,
      and no other name is ever reported missing. */
  lemma MissingFieldReportedOnce(frame: Value, index: nat, expected: real, name: string)
    requires KeyframeComparable(frame)
    ensures multiset(KeyframeIssues(frame, index, expected))[MissingField(index, name)]
            == if frame.Obj? && name in RequiredFields && name !in frame.fields then 1 else 0
  {
    if frame.Obj? {
      var f := frame.fields;
      var missing := MissingFieldIssues(f, index, RequiredFields);
      var rest := TimingIssues(Get(f, "startTime", Null), Get(f, "endTime", Null), index, expected) + ContentIssues(f, index);
      KeyframeIssuesSplit(f, index, expected);
      assert KeyframeIssues(frame, index, expected) == missing + rest;
      MissingFieldIssuesCount(f, index, RequiredFields, name);
      NoMissingFieldAfterRequired(f, index, expected, name);
      assert multiset(rest)[MissingField(index, name)] == 0;
    }
  }

  /** Timing is flagged exactly when the start is negative, the end is not after
      the start, or the end overshoots the expected duration by more than a second. */
  lemma InTimingPart(f: map<string, Value>, index: nat, expected: real, x: Issue)
    requires KeyframeComparable(Obj(f))
    requires !x.MissingField?
    requires !(x.InvalidAnimation? || x.InvalidExpression? || x.IntensityNotNumeric? || x.IntensityOutOfRange?)
    ensures x in KeyframeIssues(Obj(f), index, expected)
      <==> x in TimingIssues(Get(f, "startTime", Null), Get(f, "endTime", Null), index, expected)
  {
    KeyframeIssuesSplit(f, index, expected);
    MissingFieldIssuesShape(f, index, RequiredFields);
    ContentIssuesShape(f, index);
    InMiddle(x, MissingFieldIssues(f, index, RequiredFields),
      TimingIssues(Get(f, "startTime", Null), Get(f, "endTime", Null), index, expected), ContentIssues(f, index));
  }

  lemma OrderIssuesFlags(start: real, end: real, index: nat, expected: real)
    ensures var issues := OrderIssues(start, end, index, expected);
      && (NegativeStart(index) in issues <==> start < 0.0)
      && (EndNotAfterStart(index) in issues <==> end <= start)
      && (EndExceedsDuration(index) in issues <==> end > expected + 1.0)
      && StartNotNumeric(index) !in issues && EndNotNumeric(index) !in issues
  {
  }

  lemma TimingFlags(f: map<string, Value>, index: nat, expected: real)
    requires "startTime" in f && "endTime" in f && IsNumber(f["startTime"]) && IsNumber(f["endTime"])
    requires KeyframeComparable(Obj(f))
    ensures var issues := KeyframeIssues(Obj(f), index, expected);
      && (NegativeStart(index) in issues <==> NumValue(f["startTime"]) < 0.0)
      && (EndNotAfterStart(index) in issues <==> NumValue(f["endTime"]) <= NumValue(f["startTime"]))
      && (EndExceedsDuration(index) in issues <==> NumValue(f["endTime"]) > expected + 1.0)
      && StartNotNumeric(index) !in issues && EndNotNumeric(index) !in issues
  {
    var start, end := f["startTime"], f["endTime"];
    assert TypeIssues(start, end, index) == [];
    assert TimingIssues(start, end, index, expected) == OrderIssues(NumValue(start), NumValue(end), index, expected);
    OrderIssuesFlags(NumValue(start), NumValue(end), index, expected);
    InTimingPart(f, index, expected, NegativeStart(index));
    InTimingPart(f, index, expected, EndNotAfterStart(index));
    InTimingPart(f, index, expected, EndExceedsDuration(index));
    InTimingPart(f, index, expected, StartNotNumeric(index));
    InTimingPart(f, index, expected, EndNotNumeric(index));
  }

  lemma ContentIssuesFlags(f: map<string, Value>, index: nat)
    ensures var issues := ContentIssues(f, index);
      var animation := Get(f, "animation", Null);
      var expression := Get(f, "expression", Null);
      var intensity := Get(f, "intensity", Null);
      && (InvalidAnimation(index, animation) in issues <==> Truthy(animation) && !IsNameIn(animation, Animations))
      && (InvalidExpression(index, expression) in issues <==> Truthy(expression) && !IsNameIn(expression, Expressions))
      && (IsNumber(intensity) ==>
            (IntensityOutOfRange(index, NumValue(intensity)) in issues <==> !(0.0 <= NumValue(intensity) <= 1.0)))
      && (IntensityNotNumeric(index) in issues <==> intensity != Null && !IsNumber(intensity))
  {
  }

  lemma NoContentIssueBeforeContent(f: map<string, Value>, index: nat, expected: real)
    requires KeyframeComparable(Obj(f))
    ensures forall x :: x in MissingFieldIssues(f, index, RequiredFields)
                          + TimingIssues(Get(f, "startTime", Null), Get(f, "endTime", Null), index, expected) ==>
      !(x.InvalidAnimation? || x.InvalidExpression? || x.IntensityNotNumeric? || x.IntensityOutOfRange?)
  {
    MissingFieldIssuesShape(f, index, RequiredFields);
    TimingIssuesShape(Get(f, "startTime", Null), Get(f, "endTime", Null), index, expected);
  }

  /** A truthy animation or expression outside the name tables is flagged, and so
      is a numeric intensity outside [0, 1]; falsy names are never flagged. */
  lemma ContentFlags(f: map<string, Value>, index: nat, expected: real)
    requires KeyframeComparable(Obj(f))
    ensures var issues := KeyframeIssues(Obj(f), index, expected);
      var animation := Get(f, "animation", Null);
      var expression := Get(f, "expression", Null);
      var intensity := Get(f, "intensity", Null);
      && (InvalidAnimation(index, animation) in issues <==> Truthy(animation) && !IsNameIn(animation, Animations))
      && (InvalidExpression(index, expression) in issues <==> Truthy(expression) && !IsNameIn(expression, Expressions))
      && (IsNumber(intensity) ==>
            (IntensityOutOfRange(index, NumValue(intensity)) in issues <==> !(0.0 <= NumValue(intensity) <= 1.0)))
      && (IntensityNotNumeric(index) in issues <==> intensity != Null && !IsNumber(intensity))
  {
    var head := MissingFieldIssues(f, index, RequiredFields)
      + TimingIssues(Get(f, "startTime", Null), Get(f, "endTime", Null), index, expected);
    KeyframeIssuesSplit(f, index, expected);
    assert KeyframeIssues(Obj(f), index, expected) == head + ContentIssues(f, index);
    NoContentIssueBeforeContent(f, index, expected);
    ContentIssuesFlags(f, index);
  }

  // ---------------------------------------------------------------------------
  // All keyframes

  function FramesIssues(frames: seq<Value>, expected: real): seq<Issue>
    requires forall k :: 0 <= k < |frames| ==> KeyframeComparable(frames[k])
    decreases |frames|
  {
    if frames == [] then []
    else
      FramesIssues(frames[..|frames| - 1], expected)
      + KeyframeIssues(frames[|frames| - 1], |frames| - 1, expected)
  }

  lemma {:induction false} FramesIssuesShape(frames: seq<Value>, expected: real)
    requires forall k :: 0 <= k < |frames| ==> KeyframeComparable(frames[k])
    ensures forall x :: x in FramesIssues(frames, expected) ==> IsKeyframeIssue(x) && x.index < |frames|
    decreases |frames|
  {
    if frames != [] {
      FramesIssuesShape(frames[..|frames| - 1], expected);
      KeyframeIssuesShape(frames[|frames| - 1], |frames| - 1, expected);
    }
  }

  /** Across a whole timeline, a missing field of keyframe `i` is reported once. */
  lemma {:induction false} FramesMissingFieldCount(frames: seq<Value>, expected: real, i: nat, name: string)
    requires forall k :: 0 <= k < |frames| ==> KeyframeComparable(frames[k])
    ensures multiset(FramesIssues(frames, expected))[MissingField(i, name)]
            == if i < |frames| && frames[i].Obj? && name in RequiredFields && name !in frames[i].fields then 1 else 0
    decreases |frames|
  {
    if frames != [] {
      var init := frames[..|frames| - 1];
      var n := |frames| - 1;
      FramesMissingFieldCount(init, expected, i, name);
      MissingFieldReportedOnce(frames[n], n, expected, name);
      if i == n {
        FramesIssuesShape(init, expected);
        assert MissingField(i, name) !in FramesIssues(init, expected);
      } else {
        KeyframeIssuesShape(frames[n], n, expected);
        assert MissingField(i, name) !in KeyframeIssues(frames[n], n, expected);
        if i < n {
          assert init[i] == frames[i];
        }
      }
    }
  }

  // ---------------------------------------------------------------------------
  // Continuity

  /** What `_validate_timeline_continuity` needs not to raise: every frame is a
      dict, and its `startTime`/`endTime`, when present, are numbers. */
  predicate HasNumericTimes(frame: Value) {
    && frame.Obj?
    && ("startTime" in frame.fields ==> IsNumber(frame.fields["startTime"]))
    && ("endTime" in frame.fields ==> IsNumber(frame.fields["endTime"]))
  }

  /** `frame.get("startTime", 0)` as a number. */
  function StartOf(frame: Value): real
    requires HasNumericTimes(frame)
  {
    NumValue(Get(frame.fields, "startTime", Num(0.0)))
  }

  /** `frame.get("endTime", 0)` as a number. */
  function EndOf(frame: Value): real
    requires HasNumericTimes(frame)
  {
    NumValue(Get(frame.fields, "endTime", Num(0.0)))
  }

  /** Gap issues for the first `n` consecutive pairs of frames. */
  function GapIssues(frames: seq<Value>, n: nat): seq<Issue>
    requires n < |frames|
    requires forall k :: 0 <= k < |frames| ==> HasNumericTimes(frames[k])
  {
    if n == 0 then []
    else GapIssues(frames, n - 1) + (if StartOf(frames[n]) - EndOf(frames[n - 1]) > 1.0 then [Gap(n - 1)] else [])
  }

  /** The checks on the timeline's two ends. */
  function EdgeIssues(firstStart: real, lastEnd: real, expected: real): seq<Issue> {
    (if firstStart > 0.5 then [StartNotNearZero] else [])
    + (if lastEnd < expected - 1.0 then [EndsEarly(lastEnd, expected)] else [])
  }

  function ContinuityIssues(frames: seq<Value>, expected: real): seq<Issue>
    requires forall k :: 0 <= k < |frames| ==> HasNumericTimes(frames[k])
  {
    if frames == [] then []
    else
      EdgeIssues(StartOf(frames[0]), EndOf(frames[|frames| - 1]), expected) + GapIssues(frames, |frames| - 1)
  }

  method ValidateTimelineContinuity(frames: seq<Value>, expected: real) returns (issues: seq<Issue>)
    requires forall k :: 0 <= k < |frames| ==> HasNumericTimes(frames[k])
    ensures issues == ContinuityIssues(frames, expected)
  {
    issues := [];
    if frames == [] {
      return;
    }
    if StartOf(frames[0]) > 0.5 {
      issues := issues + [StartNotNearZero];
    }
    var lastEnd := EndOf(frames[|frames| - 1]);
    if lastEnd < expected - 1.0 {
      issues := issues + [EndsEarly(lastEnd, expected)];
    }
    ghost var head := issues;
    var i := 0;
    while i < |frames| - 1
      invariant 0 <= i <= |frames| - 1
      invariant issues == head + GapIssues(frames, i)
    {
      var currentEnd := EndOf(frames[i]);
      var nextStart := StartOf(frames[i + 1]);
      if nextStart - currentEnd > 1.0 {
        issues := issues + [Gap(i)];
      }
      i := i + 1;
    }
  }

  lemma {:induction false} GapIssuesFlags(frames: seq<Value>, n: nat, i: nat)
    requires n < |frames|
    requires forall k :: 0 <= k < |frames| ==> HasNumericTimes(frames[k])
    ensures forall x :: x in GapIssues(frames, n) ==> x.Gap? && x.index < n
    ensures Gap(i) in GapIssues(frames, n) <==> i < n && StartOf(frames[i + 1]) - EndOf(frames[i]) > 1.0
    decreases n
  {
    if n > 0 {
      GapIssuesFlags(frames, n - 1, i);
    }
  }

  lemma EdgeIssuesFacts(firstStart: real, lastEnd: real, expected: real, x: Issue)
    ensures var edge := EdgeIssues(firstStart, lastEnd, expected);
      && (StartNotNearZero in edge <==> firstStart > 0.5)
      && (EndsEarly(lastEnd, expected) in edge <==> lastEnd < expected - 1.0)
      && (forall y :: y in edge ==> y == StartNotNearZero || y == EndsEarly(lastEnd, expected))
      && (forall y :: y in edge ==> !y.Gap?)
      && multiset(edge)[x] <= 1
  {
  }

  /** Continuity flags a late first start, an early last end, and every gap of
      more than a second between consecutive keyframes. */
  lemma ContinuityFlags(frames: seq<Value>, expected: real, i: nat)
    requires frames != []
    requires forall k :: 0 <= k < |frames| ==> HasNumericTimes(frames[k])
    ensures var issues := ContinuityIssues(frames, expected);
      var lastEnd := EndOf(frames[|frames| - 1]);
      && (StartNotNearZero in issues <==> StartOf(frames[0]) > 0.5)
      && (EndsEarly(lastEnd, expected) in issues <==> lastEnd < expected - 1.0)
      && (Gap(i) in issues <==> i < |frames| - 1 && StartOf(frames[i + 1]) - EndOf(frames[i]) > 1.0)
  {
    GapIssuesFlags(frames, |frames| - 1, i);
  }

  /** Nothing else is reported: every continuity issue is the late start, the
      early end against this last end time, or a gap between two of the
      keyframes. */
  lemma ContinuityReportsOnly(frames: seq<Value>, expected: real)
    requires frames != []
    requires forall k :: 0 <= k < |frames| ==> HasNumericTimes(frames[k])
    ensures var lastEnd := EndOf(frames[|frames| - 1]);
      forall x :: x in ContinuityIssues(frames, expected) ==>
        x == StartNotNearZero || x == EndsEarly(lastEnd, expected) || (x.Gap? && x.index < |frames| - 1)
  {
    GapIssuesFlags(frames, |frames| - 1, 0);
  }

  /** Appending an element not yet present keeps every count at most one. */
  lemma OnceAppend(x: Issue, s: seq<Issue>, g: Issue)
    requires multiset(s)[x] <= 1 && g !in s
    ensures multiset(s + [g])[x] <= 1
  {
    CountConcat(x, s, [g]);
    if x == g {
      NotCounted(x, s);
    }
  }

  /** Only gaps, with strictly increasing pair indices. */
  predicate GapsIncreasing(s: seq<Issue>) {
    forall a, b :: 0 <= a < b < |s| ==> s[a].Gap? && s[b].Gap? && s[a].index < s[b].index
  }

  /** Gaps are reported in the order of the pairs they lie between. */
  lemma {:induction false} GapsInOrder(frames: seq<Value>, n: nat)
    requires n < |frames|
    requires forall k :: 0 <= k < |frames| ==> HasNumericTimes(frames[k])
    ensures GapsIncreasing(GapIssues(frames, n))
    decreases n
  {
    if n > 0 {
      var init := GapIssues(frames, n - 1);
      GapsInOrder(frames, n - 1);
      if StartOf(frames[n]) - EndOf(frames[n - 1]) > 1.0 {
        assert GapIssues(frames, n) == init + [Gap(n - 1)];
        GapIssuesFlags(frames, n - 1, 0);
        forall a | 0 <= a < |init|
          ensures init[a].Gap? && init[a].index < n - 1
        {
          assert init[a] in init;
        }
      } else {
        assert GapIssues(frames, n) == init + [];
        assert init + [] == init;
      }
    }
  }

  /** Gaps in strictly increasing order are each counted at most once. */
  lemma {:induction false} InOrderOnce(s: seq<Issue>, x: Issue)
    requires GapsIncreasing(s)
    ensures multiset(s)[x] <= 1
    decreases |s|
  {
    if s != [] {
      var init, last := s[..|s| - 1], s[|s| - 1];
      GapsIncreasingInit(s);
      InOrderOnce(init, x);
      assert s == init + [last];
      OnceAppend(x, init, last);
    }
  }

  /** Dropping the last gap keeps the order, and the last gap is not among the rest. */
  lemma GapsIncreasingInit(s: seq<Issue>)
    requires s != [] && GapsIncreasing(s)
    ensures GapsIncreasing(s[..|s| - 1]) && s[|s| - 1] !in s[..|s| - 1]
  {
    var init, last := s[..|s| - 1], s[|s| - 1];
    forall a, b | 0 <= a < b < |init|
      ensures init[a].Gap? && init[b].Gap? && init[a].index < init[b].index
    {
      assert init[a] == s[a] && init[b] == s[b];
    }
    forall y | y in init
      ensures y != last
    {
      var a :| 0 <= a < |init| && init[a] == y;
      assert y == s[a] && a < |s| - 1;
    }
  }

  /** Counting across an edge part free of gaps and a part made only of gaps. */
  lemma OnceAcross(x: Issue, edge: seq<Issue>, gaps: seq<Issue>)
    requires forall y :: y in edge ==> !y.Gap?
    requires forall y :: y in gaps ==> y.Gap?
    requires multiset(edge)[x] <= 1 && multiset(gaps)[x] <= 1
    ensures multiset(edge + gaps)[x] <= 1
  {
    CountConcat(x, edge, gaps);
    if x.Gap? {
      NotCounted(x, edge);
    } else {
      NotCounted(x, gaps);
    }
  }

  /** The gap part holds only gaps, each at most once. */
  lemma GapPartFacts(frames: seq<Value>, x: Issue)
    requires frames != []
    requires forall k :: 0 <= k < |frames| ==> HasNumericTimes(frames[k])
    ensures var gaps := GapIssues(frames, |frames| - 1);
      (forall y :: y in gaps ==> y.Gap?) && multiset(gaps)[x] <= 1
  {
    GapsInOrder(frames, |frames| - 1);
    InOrderOnce(GapIssues(frames, |frames| - 1), x);
    GapIssuesFlags(frames, |frames| - 1, 0);
  }

  /** No continuity issue is reported twice. */
  lemma ContinuityReportedOnce(frames: seq<Value>, expected: real, x: Issue)
    requires forall k :: 0 <= k < |frames| ==> HasNumericTimes(frames[k])
    ensures multiset(ContinuityIssues(frames, expected))[x] <= 1
  {
    if frames != [] {
      var start, lastEnd := StartOf(frames[0]), EndOf(frames[|frames| - 1]);
        EdgeIssuesFacts(start, lastEnd, expected, x);
      GapPartFacts(frames, x);
      OnceAcross(x, EdgeIssues(start, lastEnd, expected), GapIssues(frames, |frames| - 1));
    }
  }

  /** Overlapping keyframes are never reported: only gaps are. */
  lemma OverlapNotFlagged(frames: seq<Value>, expected: real, i: nat)
    requires i + 1 < |frames|
    requires forall k :: 0 <= k < |frames| ==> HasNumericTimes(frames[k])
    requires StartOf(frames[i + 1]) < EndOf(frames[i])
    ensures Gap(i) !in ContinuityIssues(frames, expected)
  {
    ContinuityFlags(frames, expected, i);
  }

  // ---------------------------------------------------------------------------
  // Whole script

  /** The timeline's frames when validation gets as far as checking them. */
  function CheckedFrames(script: Value): Option<seq<Value>> {
    if !script.Obj? then None
    else
      var timeline := Get(script.fields, "timeline", Arr([]));
      if Truthy(timeline) && timeline.Arr? then Some(timeline.items) else None
  }

  predicate TimelineComparable(frames: seq<Value>) {
    forall k :: 0 <= k < |frames| ==> HasNumericTimes(frames[k]) && KeyframeComparable(frames[k])
  }

  /** What `validate_animation_script` needs not to raise. */
  predicate ScriptComparable(script: Value) {
    CheckedFrames(script).Some? ==> TimelineComparable(CheckedFrames(script).value)
  }

  function CountIssues(n: nat): seq<Issue> {
    (if n > MaxKeyframes then [TooManyKeyframes(n)] else [])
    + (if n < MinKeyframes then [TooFewKeyframes] else [])
  }

  function HeadIssues(fields: map<string, Value>, expected: real): seq<Issue> {
    var metadata := Get(fields, "metadata", Null);
    if !Truthy(metadata) then [MissingMetadata] else MetadataIssues(metadata, expected)
  }

  function ScriptIssues(script: Value, expected: real): seq<Issue>
    requires ScriptComparable(script)
  {
    if !script.Obj? then [ScriptNotDict]
    else
      var head := HeadIssues(script.fields, expected);
      var timeline := Get(script.fields, "timeline", Arr([]));
      if !Truthy(timeline) then head + [TimelineEmpty]
      else if !timeline.Arr? then head + [TimelineNotList]
      else
        var frames := timeline.items;
        head + CountIssues(|frames|) + FramesIssues(frames, expected) + ContinuityIssues(frames, expected)
  }

  predicate IsValidScript(script: Value, expected: real)
    requires ScriptComparable(script)
  {
    ScriptIssues(script, expected) == []
  }

  /** The loop over the timeline's keyframes, numbering them from 0. */
  method ValidateKeyframes(frames: seq<Value>, expected: real) returns (issues: seq<Issue>)
    requires forall k :: 0 <= k < |frames| ==> KeyframeComparable(frames[k])
    ensures issues == FramesIssues(frames, expected)
  {
    issues := [];
    var i := 0;
    while i < |frames|
      invariant 0 <= i <= |frames|
      invariant issues == FramesIssues(frames[..i], expected)
    {
      var frameIssues := ValidateKeyframe(frames[i], i, expected);
      assert frames[..i + 1][..i] == frames[..i];
      issues := issues + frameIssues;
      i := i + 1;
    }
    assert frames[..i] == frames;
  }

  method ValidateAnimationScript(script: Value, expected: real) returns (isValid: bool, issues: seq<Issue>)
    requires ScriptComparable(script)
    ensures issues == ScriptIssues(script, expected)
    ensures isValid <==> issues == []
    ensures !script.Obj? ==> issues == [ScriptNotDict]
    ensures script.Obj? && !Truthy(Get(script.fields, "timeline", Arr([]))) ==>
      !isValid && issues[|issues| - 1] == TimelineEmpty
    ensures script.Obj? && Truthy(Get(script.fields, "timeline", Arr([])))
            && !Get(script.fields, "timeline", Arr([])).Arr? ==>
      !isValid && issues[|issues| - 1] == TimelineNotList
  {
    if !script.Obj? {
      return false, [ScriptNotDict];
    }
    issues := [];
    var metadata := Get(script.fields, "metadata", Null);
    if !Truthy(metadata) {
      issues := issues + [MissingMetadata];
    } else {
      var metadataIssues := ValidateMetadata(metadata, expected);
      issues := issues + metadataIssues;
    }
    assert issues == HeadIssues(script.fields, expected);
    ghost var head := issues;

    var timeline := Get(script.fields, "timeline", Arr([]));
    if !Truthy(timeline) {
      issues := issues + [TimelineEmpty];
      return |issues| == 0, issues;
    }
    if !timeline.Arr? {
      issues := issues + [TimelineNotList];
      return false, issues;
    }
    var frames := timeline.items;
    assert CheckedFrames(script) == Some(frames);
    if |frames| > MaxKeyframes {
      issues := issues + [TooManyKeyframes(|frames|)];
    }
    if |frames| < MinKeyframes {
      issues := issues + [TooFewKeyframes];
    }
    assert issues == head + CountIssues(|frames|);

    var frameIssues := ValidateKeyframes(frames, expected);
    issues := issues + frameIssues;
    var continuityIssues := ValidateTimelineContinuity(frames, expected);
    issues := issues + continuityIssues;
    isValid := |issues| == 0;
  }

  lemma HeadIssuesShape(fields: map<string, Value>, expected: real)
    ensures forall x :: x in HeadIssues(fields, expected) ==>
      !IsKeyframeIssue(x) && !IsContinuityIssue(x) && !x.TooManyKeyframes? && !x.TooFewKeyframes?
  {
  }

  lemma ContinuityIssuesShape(frames: seq<Value>, expected: real)
    requires forall k :: 0 <= k < |frames| ==> HasNumericTimes(frames[k])
    ensures forall x :: x in ContinuityIssues(frames, expected) ==> IsContinuityIssue(x)
  {
    if frames != [] {
      GapIssuesFlags(frames, |frames| - 1, 0);
    }
  }

  lemma NotContinuityIssue(x: Issue, frames: seq<Value>, expected: real)
    requires forall k :: 0 <= k < |frames| ==> HasNumericTimes(frames[k])
    requires !IsContinuityIssue(x)
    ensures x !in ContinuityIssues(frames, expected)
  {
    ContinuityIssuesShape(frames, expected);
  }

  /** The issues of a script whose timeline is a non-empty list, part by part. */
  lemma ScriptIssuesSplit(script: Value, expected: real)
    requires ScriptComparable(script) && CheckedFrames(script).Some?
    ensures var frames := CheckedFrames(script).value;
      ScriptIssues(script, expected)
      == HeadIssues(script.fields, expected) + CountIssues(|frames|)
         + FramesIssues(frames, expected) + ContinuityIssues(frames, expected)
  {
  }

  lemma NotCounted(x: Issue, s: seq<Issue>)
    requires x !in s
    ensures multiset(s)[x] == 0
  {
  }

  lemma CountedInThird(x: Issue, a: seq<Issue>, b: seq<Issue>, c: seq<Issue>, d: seq<Issue>)
    requires x !in a && x !in b && x !in d
    ensures multiset(a + b + c + d)[x] == multiset(c)[x]
  {
    NotCounted(x, a);
    NotCounted(x, b);
    NotCounted(x, d);
  }

  lemma InSecond(x: Issue, a: seq<Issue>, b: seq<Issue>, c: seq<Issue>, d: seq<Issue>)
    requires x !in a && x !in c && x !in d
    ensures x in a + b + c + d <==> x in b
  {
  }

  lemma TooManyFlagged(script: Value, expected: real, n: nat)
    requires ScriptComparable(script)
    ensures TooManyKeyframes(n) in ScriptIssues(script, expected) <==>
      CheckedFrames(script).Some? && n == |CheckedFrames(script).value| && n > MaxKeyframes
  {
    if CheckedFrames(script).Some? {
      var frames := CheckedFrames(script).value;
      ScriptIssuesSplit(script, expected);
      HeadIssuesShape(script.fields, expected);
      FramesIssuesShape(frames, expected);
      ContinuityIssuesShape(frames, expected);
      InSecond(TooManyKeyframes(n), HeadIssues(script.fields, expected), CountIssues(|frames|),
        FramesIssues(frames, expected), ContinuityIssues(frames, expected));
    } else if script.Obj? {
      HeadIssuesShape(script.fields, expected);
    }
  }

  lemma TooFewFlagged(script: Value, expected: real)
    requires ScriptComparable(script)
    ensures TooFewKeyframes in ScriptIssues(script, expected) <==>
      CheckedFrames(script).Some? && |CheckedFrames(script).value| < MinKeyframes
  {
    if CheckedFrames(script).Some? {
      var frames := CheckedFrames(script).value;
      ScriptIssuesSplit(script, expected);
      HeadIssuesShape(script.fields, expected);
      FramesIssuesShape(frames, expected);
      ContinuityIssuesShape(frames, expected);
      InSecond(TooFewKeyframes, HeadIssues(script.fields, expected), CountIssues(|frames|),
        FramesIssues(frames, expected), ContinuityIssues(frames, expected));
    } else if script.Obj? {
      HeadIssuesShape(script.fields, expected);
    }
  }

  /** The keyframe-count bounds are reported exactly when a non-empty list
      timeline has more than ten, or fewer than three, keyframes. */
  lemma KeyframeCountFlags(script: Value, expected: real, n: nat)
    requires ScriptComparable(script)
    ensures TooManyKeyframes(n) in ScriptIssues(script, expected) <==>
      CheckedFrames(script).Some? && n == |CheckedFrames(script).value| && n > MaxKeyframes
    ensures TooFewKeyframes in ScriptIssues(script, expected) <==>
      CheckedFrames(script).Some? && |CheckedFrames(script).value| < MinKeyframes
  {
    TooManyFlagged(script, expected, n);
    TooFewFlagged(script, expected);
  }

  /** A missing required field of keyframe `i` is reported exactly once in the
      whole script's issues. */
  lemma ScriptMissingFieldCount(script: Value, expected: real, i: nat, name: string)
    requires ScriptComparable(script)
    ensures multiset(ScriptIssues(script, expected))[MissingField(i, name)]
      == if CheckedFrames(script).Some? && i < |CheckedFrames(script).value|
            && name in RequiredFields && name !in CheckedFrames(script).value[i].fields
         then 1 else 0
  {
    var x := MissingField(i, name);
    if CheckedFrames(script).Some? {
      var frames := CheckedFrames(script).value;
      var head := HeadIssues(script.fields, expected);
      var continuity := ContinuityIssues(frames, expected);
      ScriptIssuesSplit(script, expected);
      HeadIssuesShape(script.fields, expected);
      NotContinuityIssue(x, frames, expected);
      FramesMissingFieldCount(frames, expected, i, name);
      assert x !in head && x !in CountIssues(|frames|) && x !in continuity;
      CountedInThird(x, head, CountIssues(|frames|), FramesIssues(frames, expected), continuity);
    } else {
      if script.Obj? {
        HeadIssuesShape(script.fields, expected);
      }
      assert x !in ScriptIssues(script, expected);
      NotCounted(x, ScriptIssues(script, expected));
    }
  }

  // ---------------------------------------------------------------------------
  // What a valid script looks like

  /** A metadata section with nothing to report: a positive numeric duration
      within two seconds of the expected one, a non-empty string transcript, and
      an intensity that is falsy or one of the three level names. */
  predicate MetadataAccepted(metadata: Value, expected: real) {
    && metadata.Obj?
    && var duration := Get(metadata.fields, "duration", Null);
       var transcript := Get(metadata.fields, "transcript", Null);
       var intensity := Get(metadata.fields, "intensity", Null);
    && IsNumber(duration) && NumValue(duration) > 0.0 && Abs(NumValue(duration) - expected) <= 2.0
    && transcript.Str? && transcript.s != ""
    && (Truthy(intensity) ==> IsNameIn(intensity, MetadataIntensities))
  }

  lemma MetadataIssuesEmpty(metadata: Value, expected: real)
    ensures MetadataIssues(metadata, expected) == [] <==> MetadataAccepted(metadata, expected)
  {
  }

  /** A keyframe with nothing to report: a dict holding the five required keys,
      times that are null or numbers with 0 <= start < end <= expected + 1 when
      both are set, known animation and expression names when truthy, and an
      intensity that is null or a number in [0, 1]. */
  predicate KeyframeAccepted(frame: Value, expected: real) {
    && frame.Obj?
    && var f := frame.fields;
       var start := Get(f, "startTime", Null);
       var end := Get(f, "endTime", Null);
       var intensity := Get(f, "intensity", Null);
    && (forall name :: name in RequiredFields ==> name in f)
    && (start == Null || IsNumber(start))
    && (end == Null || IsNumber(end))
    && (start != Null && end != Null ==> 0.0 <= NumValue(start) < NumValue(end) <= expected + 1.0)
    && (Truthy(Get(f, "animation", Null)) ==> IsNameIn(Get(f, "animation", Null), Animations))
    && (Truthy(Get(f, "expression", Null)) ==> IsNameIn(Get(f, "expression", Null), Expressions))
    && (intensity == Null || (IsNumber(intensity) && 0.0 <= NumValue(intensity) <= 1.0))
  }

  lemma {:induction false} MissingFieldIssuesEmpty(fields: map<string, Value>, index: nat, names: seq<string>)
    ensures MissingFieldIssues(fields, index, names) == [] <==> forall name :: name in names ==> name in fields
    decreases |names|
  {
    if names != [] {
      var init := names[..|names| - 1];
      MissingFieldIssuesEmpty(fields, index, init);
      assert forall name :: name in names <==> name in init || name == names[|names| - 1];
    }
  }

  lemma TimingIssuesEmpty(start: Value, end: Value, index: nat, expected: real)
    requires start != Null && end != Null ==> IsNumber(start) && IsNumber(end)
    ensures TimingIssues(start, end, index, expected) == [] <==>
      && (start == Null || IsNumber(start))
      && (end == Null || IsNumber(end))
      && (start != Null && end != Null ==> 0.0 <= NumValue(start) < NumValue(end) <= expected + 1.0)
  {
  }

  /** `_validate_keyframe` reports nothing exactly for an accepted keyframe. */
  lemma KeyframeIssuesEmpty(frame: Value, index: nat, expected: real)
    requires KeyframeComparable(frame)
    ensures KeyframeIssues(frame, index, expected) == [] <==> KeyframeAccepted(frame, expected)
  {
    if frame.Obj? {
      var f := frame.fields;
      KeyframeIssuesSplit(f, index, expected);
      MissingFieldIssuesEmpty(f, index, RequiredFields);
      TimingIssuesEmpty(Get(f, "startTime", Null), Get(f, "endTime", Null), index, expected);
    }
  }

  /** A timeline with no keyframe issues has none in any one keyframe. */
  lemma {:induction false} FrameCleanAt(frames: seq<Value>, expected: real, i: nat)
    requires forall k :: 0 <= k < |frames| ==> KeyframeComparable(frames[k])
    requires i < |frames| && FramesIssues(frames, expected) == []
    ensures KeyframeIssues(frames[i], i, expected) == []
    decreases |frames|
  {
    var init := frames[..|frames| - 1];
    var n := |frames| - 1;
    BothEmpty(FramesIssues(init, expected), KeyframeIssues(frames[n], n, expected));
    if i < n {
      FrameCleanAt(init, expected, i);
      assert init[i] == frames[i];
    }
  }

  lemma BothEmpty(a: seq<Issue>, b: seq<Issue>)
    requires a + b == []
    ensures a == [] && b == []
  {
    assert |a + b| == |a| + |b|;
  }

  lemma {:induction false} FramesClean(frames: seq<Value>, expected: real)
    requires forall k :: 0 <= k < |frames| ==> KeyframeComparable(frames[k])
    requires forall k :: 0 <= k < |frames| ==> KeyframeIssues(frames[k], k, expected) == []
    ensures FramesIssues(frames, expected) == []
    decreases |frames|
  {
    if frames != [] {
      var init := frames[..|frames| - 1];
      forall k | 0 <= k < |init|
        ensures KeyframeIssues(init[k], k, expected) == []
      {
        assert init[k] == frames[k];
      }
      FramesClean(init, expected);
    }
  }

  lemma FramesIssuesEmpty(frames: seq<Value>, expected: real)
    requires forall k :: 0 <= k < |frames| ==> KeyframeComparable(frames[k])
    ensures FramesIssues(frames, expected) == [] <==>
      forall k :: 0 <= k < |frames| ==> KeyframeAccepted(frames[k], expected)
  {
    if FramesIssues(frames, expected) == [] {
      forall k | 0 <= k < |frames|
        ensures KeyframeAccepted(frames[k], expected)
      {
        FrameCleanAt(frames, expected, k);
        KeyframeIssuesEmpty(frames[k], k, expected);
      }
    }
    if forall k :: 0 <= k < |frames| ==> KeyframeAccepted(frames[k], expected) {
      forall k | 0 <= k < |frames|
        ensures KeyframeIssues(frames[k], k, expected) == []
      {
        KeyframeIssuesEmpty(frames[k], k, expected);
      }
      FramesClean(frames, expected);
    }
  }

  lemma {:induction false} GapIssuesEmpty(frames: seq<Value>, n: nat)
    requires n < |frames|
    requires forall k :: 0 <= k < |frames| ==> HasNumericTimes(frames[k])
    ensures GapIssues(frames, n) == [] <==>
      forall k :: 0 <= k < n ==> StartOf(frames[k + 1]) - EndOf(frames[k]) <= 1.0
    decreases n
  {
    if n > 0 {
      GapIssuesEmpty(frames, n - 1);
    }
  }

  /** A timeline with nothing to report: three to ten accepted keyframes, the
      first starting within half a second of zero, the last ending no more than a
      second before the expected duration, and no gap of more than a second. */
  predicate TimelineAccepted(frames: seq<Value>, expected: real)
    requires forall k :: 0 <= k < |frames| ==> HasNumericTimes(frames[k])
  {
    && MinKeyframes <= |frames| <= MaxKeyframes
    && (forall k :: 0 <= k < |frames| ==> KeyframeAccepted(frames[k], expected))
    && StartOf(frames[0]) <= 0.5
    && EndOf(frames[|frames| - 1]) >= expected - 1.0
    && (forall k :: 0 <= k < |frames| - 1 ==> StartOf(frames[k + 1]) - EndOf(frames[k]) <= 1.0)
  }

  /** A script the validator accepts, stated without reference to issues. */
  predicate ScriptAccepted(script: Value, expected: real)
    requires ScriptComparable(script)
  {
    && script.Obj?
    && MetadataAccepted(Get(script.fields, "metadata", Null), expected)
    && CheckedFrames(script).Some?
    && TimelineAccepted(CheckedFrames(script).value, expected)
  }

  lemma ContinuityIssuesEmpty(frames: seq<Value>, expected: real)
    requires frames != []
    requires forall k :: 0 <= k < |frames| ==> HasNumericTimes(frames[k])
    ensures ContinuityIssues(frames, expected) == [] <==>
      && StartOf(frames[0]) <= 0.5
      && EndOf(frames[|frames| - 1]) >= expected - 1.0
      && (forall k :: 0 <= k < |frames| - 1 ==> StartOf(frames[k + 1]) - EndOf(frames[k]) <= 1.0)
  {
    GapIssuesEmpty(frames, |frames| - 1);
  }

  lemma HeadIssuesEmpty(fields: map<string, Value>, expected: real)
    ensures HeadIssues(fields, expected) == [] <==> MetadataAccepted(Get(fields, "metadata", Null), expected)
  {
    MetadataIssuesEmpty(Get(fields, "metadata", Null), expected);
  }

  lemma TimelineIssuesEmpty(frames: seq<Value>, expected: real)
    requires frames != [] && TimelineComparable(frames)
    ensures CountIssues(|frames|) + FramesIssues(frames, expected) + ContinuityIssues(frames, expected) == []
      <==> TimelineAccepted(frames, expected)
  {
    FramesIssuesEmpty(frames, expected);
    ContinuityIssuesEmpty(frames, expected);
  }

  lemma ValidWithFramesSplit(script: Value, expected: real)
    requires ScriptComparable(script) && CheckedFrames(script).Some?
    ensures var frames := CheckedFrames(script).value;
      IsValidScript(script, expected) <==>
        HeadIssues(script.fields, expected) == []
        && CountIssues(|frames|) + FramesIssues(frames, expected) + ContinuityIssues(frames, expected) == []
  {
    ScriptIssuesSplit(script, expected);
  }

  lemma ValidIffAcceptedWithFrames(script: Value, expected: real)
    requires ScriptComparable(script) && CheckedFrames(script).Some?
    ensures IsValidScript(script, expected) <==> ScriptAccepted(script, expected)
  {
    ValidWithFramesSplit(script, expected);
    HeadIssuesEmpty(script.fields, expected);
    TimelineIssuesEmpty(CheckedFrames(script).value, expected);
  }

  /** `validate_animation_script` calls a script valid exactly when it is accepted. */
  lemma ValidIffAccepted(script: Value, expected: real)
    requires ScriptComparable(script)
    ensures IsValidScript(script, expected) <==> ScriptAccepted(script, expected)
  {
    if CheckedFrames(script).Some? {
      ValidIffAcceptedWithFrames(script, expected);
    } else {
      assert !ScriptAccepted(script, expected);
      assert ScriptIssues(script, expected) != [];
    }
  }
}
