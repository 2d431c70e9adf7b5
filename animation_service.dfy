/** `generate_animation_script`: the reply of the language model is taken as
    given, validated against the audio duration, and either sanitised or
    replaced by the fallback script. */
module AnimationService {
  import opened Json
  import opened AnimationValidator
  import opened AnimationUtils

  /** The shape every script handed to the client has: a metadata entry and a
      list of keyframes, each holding every required field and an intensity
      in [0, 1]. */
  predicate Delivered(script: Value) {
    && script.Obj?
    && script.fields.Keys == {"metadata", "timeline"}
    && script.fields["timeline"].Arr?
    && var frames := script.fields["timeline"].items;
       forall k :: 0 <= k < |frames| ==>
         && frames[k].Obj? && KeyframeIntegrity(frames[k])
         && "intensity" in frames[k].fields
         && frames[k].fields["intensity"].Num?
         && 0.0 <= frames[k].fields["intensity"].n <= 1.0
  }

  /** The fallback has the delivered shape for every duration and transcript. */
  lemma FallbackDelivered(duration: real, transcript: string)
    ensures Delivered(DefaultAnimationScript(duration, transcript))
  {
    var frames := FallbackTimeline(duration);
    FallbackColumns();
    forall k | 0 <= k < |frames|
      ensures frames[k].Obj? && KeyframeIntegrity(frames[k])
      ensures "intensity" in frames[k].fields && frames[k].fields["intensity"] == Num(FallbackIntensities[k])
    {
    }
  }

  /** The orchestration. `reply` is what the model call produced: `None` when it
      gave no script or raised. A validator that raises (a script outside
      `ScriptComparable`) is caught like any other exception. Whatever the
      reply, the script handed on has the delivered shape. */
  function GenerateAnimationScript(reply: Option<Value>, transcript: string, duration: real): (script: Value)
    ensures Delivered(script)
  {
    if reply.None? || !ScriptComparable(reply.value) || !IsValidScript(reply.value, duration) then
      FallbackDelivered(duration, transcript);
      DefaultAnimationScript(duration, transcript)
    else
      SanitizePreservesValidity(reply.value, duration);
      SanitizedScriptShape(reply.value);
      SanitizedScript(reply.value).value
  }

  /** For a positive duration and a non-empty transcript, the result passes the
      validator against that duration whatever the model replies. */
  lemma GeneratedValid(reply: Option<Value>, transcript: string, duration: real)
    requires duration > 0.0 && transcript != ""
    ensures ScriptComparable(GenerateAnimationScript(reply, transcript, duration))
    ensures IsValidScript(GenerateAnimationScript(reply, transcript, duration), duration)
  {
    if reply.None? || !ScriptComparable(reply.value) || !IsValidScript(reply.value, duration) {
      FallbackValidIff(duration, transcript);
    } else {
      SanitizePreservesValidity(reply.value, duration);
    }
  }

  /** A reply the validator accepts is used, sanitised, and keeps its metadata;
      any other reply, or none, gives the fallback. */
  lemma GeneratedFromReply(reply: Option<Value>, transcript: string, duration: real)
    ensures var script := GenerateAnimationScript(reply, transcript, duration);
      if reply.Some? && ScriptComparable(reply.value) && IsValidScript(reply.value, duration) then
        && script == SanitizedScript(reply.value).value
        && script.fields["metadata"] == Get(reply.value.fields, "metadata", Null)
      else
        script == DefaultAnimationScript(duration, transcript)
  {
    if reply.Some? && ScriptComparable(reply.value) && IsValidScript(reply.value, duration) {
      SanitizePreservesValidity(reply.value, duration);
      SanitizedScriptShape(reply.value);
      ValidIffAccepted(reply.value, duration);
      assert "metadata" in reply.value.fields;
    }
  }
}
