# roast-me back end: animation scripts, WAV header, narration

This project models, in Dafny, the pure core of the roast-me back end:

- **Animation-script validator.** It checks a script against an expected audio duration. A script is a JSON object with a `metadata` section and a `timeline` of keyframes. The validator collects every problem it finds as an issue. A script is valid exactly when there are no issues.
- **Script utilities.** These extract the JSON object from a language model's reply and estimate the narration's duration from its word count. They also build the fixed four-section fallback script, clamp intensities, and sanitise a script before it reaches the client.
- **Script orchestration.** This is the step that picks between the model's script and the fallback.
- **WAV header writer.** It builds the 44-byte PCM header of the RIFF/WAVE format, as Microsoft's *Multimedia Programming Interface and Data Specifications 1.0* describes it. The header is the RIFF preamble, then a `fmt ` chunk, then a `data` chunk header, all little-endian.
- **Roast service.** This covers the narration text built from a roast and the clamp applied to its confidence rating.

JSON values are the datatype `Json.Value` (`json.dfy`). The model keeps the pieces of Python semantics the code relies on:

- truthiness (`False`, `0`, `0.0`, `""`, `[]`, `{}` and `None` are falsy);
- `bool` passing `isinstance(x, (int, float))`;
- `dict.get` returning a stored JSON null rather than the default;
- the tie rules of `min` and `max`.

Numbers are `real`. The name tables and limits are in `animation_constants.dfy`: seven animations, six expressions, at most 10 and at least 3 keyframes, and the defaults `idle`, `neutral` and 0.5.

Each validator routine is a method that appends to a local issue list, as the code does. Each method is proved equal to a specification function. The properties are lemmas about those functions. The central one is `ValidIffAccepted`: it states, without mentioning issues, exactly which scripts are valid.

The sanitiser is a loop method proved against a function in the same way. The remaining code is pure and is modelled by functions.

Some source paths raise an exception instead of returning. Those paths are preconditions:

- `KeyframeComparable`, `TimelineComparable` and `ScriptComparable` in the validator;
- the requirement of `AnimationUtils.KeyframeIntegrity` that the keyframe be a dict, a list or a string, since `in` raises `TypeError` on a number, a bool or `None`;
- `Packable` for `struct.pack`;
- `ConfidenceComparable` and `NarrationTyped` in the roast service.

## Model

| member | source | states |
|---|---|---|
| AnimationValidator.ValidateAnimationScript | functions/services/animation_validator.py:12-63 | the issues are exactly `ScriptIssues`; the script is valid iff there are none; a non-dict script gets only the "must be a dictionary" issue; a falsy timeline makes the script invalid with "empty or missing" as the last issue; a truthy non-list timeline makes it invalid with "must be a list" last |
| AnimationValidator.ValidateMetadata | functions/services/animation_validator.py:66-96 | the loop-free check appends exactly the duration, transcript and intensity issues of `MetadataIssues` |
| AnimationValidator.DurationIssueAtMostOnce | functions/services/animation_validator.py:74-82 | metadata never yields two duration issues, and yields none for a numeric duration that is positive and within 2 s of the expected one |
| AnimationValidator.MetadataIssuesEmpty | functions/services/animation_validator.py:66-96 | metadata has no issue iff it is a dict with a positive numeric duration within 2 s of the expected one, a non-empty string transcript, and an intensity that is falsy or one of low/medium/high |
| AnimationValidator.ValidateKeyframe | functions/services/animation_validator.py:99-147 | the keyframe's issues are exactly `KeyframeIssues`: a non-dict gets a single issue, otherwise missing fields come first, then timing, then content |
| AnimationValidator.CheckRequiredFields | functions/services/animation_validator.py:107-110 | the loop over the five required names emits one issue per absent name, in order |
| AnimationValidator.CheckTiming | functions/services/animation_validator.py:113-127 | type issues for non-null non-numeric times; ordering issues only when both times are set |
| AnimationValidator.CheckContent | functions/services/animation_validator.py:129-145 | animation, expression and intensity issues in source order |
| AnimationValidator.MissingFieldReportedOnce | functions/services/animation_validator.py:107-110 | each required field a dict keyframe lacks is reported exactly once (multiset count 1), and no other name is ever reported missing |
| AnimationValidator.TimingFlags | functions/services/animation_validator.py:121-127 | for numeric times: negative start is flagged iff start < 0, end-not-after-start iff end <= start, overshoot iff end > expected + 1; no type issue |
| AnimationValidator.ContentFlags | functions/services/animation_validator.py:129-145 | a truthy animation or expression outside its name table is flagged iff it is not a known name; a numeric intensity is flagged iff outside [0, 1]; a non-null non-number intensity iff it is not numeric |
| AnimationValidator.KeyframeIssuesEmpty | functions/services/animation_validator.py:99-147 | a keyframe has no issue iff it is accepted: a dict with all five required keys, null-or-numeric times with 0 <= start < end <= expected + 1 when both are set, known truthy names, an intensity that is null or in [0, 1] |
| AnimationValidator.ValidateKeyframes | functions/services/animation_validator.py:54-57 | the loop over the timeline concatenates each keyframe's issues, numbered from 0 |
| AnimationValidator.FramesIssuesEmpty | functions/services/animation_validator.py:54-57 | the keyframe loop reports nothing iff every keyframe is accepted |
| AnimationValidator.ValidateTimelineContinuity | functions/services/animation_validator.py:150-175 | the loop over consecutive pairs yields exactly `ContinuityIssues` |
| AnimationValidator.ContinuityFlags | functions/services/animation_validator.py:157-173 | a late first start (> 0.5) is flagged iff it happens, an early last end (< expected - 1) iff it happens, and a gap between keyframes i and i+1 iff it exceeds 1 s |
| AnimationValidator.ContinuityReportsOnly | functions/services/animation_validator.py:157-173 | every continuity issue is the late start, the early end for the last keyframe's end time, or a gap between two consecutive keyframes of this timeline |
| AnimationValidator.GapsInOrder | functions/services/animation_validator.py:168-173 | gaps are reported in the order of the keyframe pairs they lie between, with strictly increasing pair indices |
| AnimationValidator.ContinuityReportedOnce | functions/services/animation_validator.py:157-173 | no continuity issue appears twice (multiset count at most 1) |
| AnimationValidator.OverlapNotFlagged | functions/services/animation_validator.py:168-173 | overlapping consecutive keyframes are never reported as a gap |
| AnimationValidator.ContinuityIssuesEmpty | functions/services/animation_validator.py:150-175 | continuity reports nothing iff the first start is <= 0.5, the last end is >= expected - 1 and no gap exceeds 1 s |
| AnimationValidator.KeyframeCountFlags | functions/services/animation_validator.py:48-52 | "too many keyframes (n)" is reported iff a non-empty list timeline has n > 10 frames; "at least 3" iff it has fewer than 3 |
| AnimationValidator.ScriptMissingFieldCount | functions/services/animation_validator.py:54-57 | in the whole script, a missing required field of keyframe i is reported exactly once, and only for a checked timeline |
| AnimationValidator.ValidIffAccepted | functions/services/animation_validator.py:12-63 | a script is valid iff it is a dict with accepted metadata and a non-empty list timeline of 3 to 10 accepted keyframes that starts by 0.5 s, ends no earlier than expected - 1 and has no gap over 1 s |
| AnimationUtils.Find | functions/services/animation_utils.py:32 | `find`: -1 or the index of the first occurrence; no occurrence before it |
| AnimationUtils.RFind | functions/services/animation_utils.py:33 | `rfind`: -1 or the index of the last occurrence; no occurrence after it |
| AnimationUtils.ObjectSpan | functions/services/animation_utils.py:32-38 | when the reply has a `{` followed somewhere by a `}`, the slice runs from the first `{` through the last `}` |
| AnimationUtils.ParseAnimationResponse | functions/services/animation_utils.py:19-46 | the "no JSON object" error is returned iff no `}` follows any `{`; otherwise the decoder's result on exactly that slice is returned, and its failure becomes an "invalid JSON" error |
| AnimationUtils.WordCount | functions/services/animation_utils.py:60 | `len(text.split())`: n words need at least 2n - 1 characters, and 2n when the text ends in whitespace |
| AnimationUtils.WordCountZero | functions/services/animation_utils.py:60 | a text has no words iff it is all whitespace |
| AnimationUtils.WordCountJoin | functions/services/animation_utils.py:60 | joining two texts with a space adds their word counts |
| AnimationUtils.DurationForWords | functions/services/animation_utils.py:62-64 | the estimate is in [3, 120]; it is 0.4 s per word when that lies in range, 3 below and 120 above |
| AnimationUtils.DurationMonotone | functions/services/animation_utils.py:62-64 | more words never give a smaller estimate |
| AnimationUtils.EstimateAudioDuration | functions/services/animation_utils.py:49-64 | the estimate always lies in [3, 120], and is 0.4 s per word whenever that figure is itself in range |
| AnimationUtils.EstimateGrowsWithText | functions/services/animation_utils.py:49-64 | appending words to a narration never shortens its estimate |
| AnimationUtils.TranscriptSummary | functions/services/animation_utils.py:124 | a transcript of at most 100 characters is kept; a longer one becomes its first 100 characters and "..." (103 in all); the summary is empty iff the transcript is |
| AnimationUtils.Keyframe | functions/services/animation_utils.py:86-118 | a fallback keyframe literal is a dict with numeric times equal to the given start and end, and the given animation and expression names |
| AnimationUtils.SectionFrame | functions/services/animation_utils.py:81-119 | fallback keyframe k (of 4) runs from k quarters to k + 1 quarters of the duration |
| AnimationUtils.FallbackTimeline | functions/services/animation_utils.py:86-119 | the fallback timeline is the four section keyframes in order, each with numeric times |
| AnimationUtils.KeyframeLiteralAccepted | functions/services/animation_utils.py:86-119 | a fallback-style keyframe with known names and intensity in [0, 1] is accepted iff 0 <= start < end <= expected + 1 |
| AnimationUtils.FallbackTimelineShape | functions/services/animation_utils.py:81-119 | the fallback has four keyframes; the first starts at 0 and the last ends at the duration; each end is the next start; the animations are idle, sitTalk, spellcast, relax; the expressions are known |
| AnimationUtils.FallbackMetadata | functions/services/animation_utils.py:121-129 | the fallback metadata carries the duration, the summarised transcript, intensity "medium" and `fallback` true |
| AnimationUtils.DefaultAnimationScript | functions/services/animation_utils.py:67-131 | the fallback script is a dict whose metadata is the fallback metadata and whose timeline the validator checks as the four fallback keyframes |
| AnimationUtils.FallbackMetadataAccepted | functions/services/animation_utils.py:121-129 | the fallback metadata is accepted iff the duration is positive and the transcript is non-empty |
| AnimationUtils.FallbackTimelineAccepted | functions/services/animation_utils.py:81-119 | the fallback keyframes are accepted iff the duration is positive |
| AnimationUtils.FallbackValidIff | functions/services/animation_utils.py:67-131 | the fallback passes the validator against its own duration iff that duration is positive and the transcript non-empty; the "valid" of the doc comment (line 77) needs both |
| AnimationUtils.KeyframeIntegrity | functions/services/animation_utils.py:134-145 | on a string, integrity holds iff every required name occurs in it at some position; on a list, iff every required name is one of its elements |
| AnimationUtils.ContainsIffOccurs | functions/services/animation_utils.py:145 | the substring test holds iff the name occurs at some index of the text |
| AnimationUtils.IntegrityIffNoMissingField | functions/services/animation_utils.py:134-145 | on a dict, keyframe integrity holds iff the validator reports no missing field |
| AnimationUtils.ClampIntensity | functions/services/animation_utils.py:148-160 | the result is in [0, 1]; a non-number gives 0.5; a value in range is kept; below 0 gives 0; above 1 gives 1 |
| AnimationUtils.ClampIdempotent | functions/services/animation_utils.py:158-160 | clamping a clamped intensity changes nothing |
| AnimationUtils.SanitizeFrame | functions/services/animation_utils.py:190-197 | a rebuilt keyframe is a dict that passes the integrity check, with a numeric intensity in [0, 1] |
| AnimationUtils.SanitizeFrameFields | functions/services/animation_utils.py:190-197 | a rebuilt keyframe has exactly the six keys; the times, names and notes are each kept or take their default (0, `idle`, `neutral`, ""), and the intensity is the clamped one |
| AnimationUtils.DictFramesAppend | functions/services/animation_utils.py:186-188 | keeping dict frames distributes over concatenation, so their relative order is kept |
| AnimationUtils.DictFramesKeepDicts | functions/services/animation_utils.py:186-188 | every dict frame survives, and a timeline of dicts keeps its length and order |
| AnimationUtils.SanitizeTimeline | functions/services/animation_utils.py:185-198 | the sanitised timeline has one rebuilt keyframe per dict frame, in order |
| AnimationUtils.SanitizeAnimationScript | functions/services/animation_utils.py:163-203 | the loop that skips non-dicts and appends rebuilt keyframes yields `SanitizedScript` |
| AnimationUtils.SanitizedScript | functions/services/animation_utils.py:163-203 | the result is None iff the script is not a dict or its timeline (a list by default) is not a list; otherwise it has exactly the keys metadata and timeline |
| AnimationUtils.SanitizedScriptShape | functions/services/animation_utils.py:163-203 | a sanitised script passes the metadata through (`{}` by default), and every keyframe it emits has all required fields and an intensity in [0, 1] |
| AnimationUtils.SanitizeFrameAccepted | functions/services/animation_utils.py:190-197 | an accepted keyframe is rebuilt into an accepted keyframe with the same times |
| AnimationUtils.SanitizePreservesValidity | functions/services/animation_utils.py:163-203 | sanitising a script the validator accepts yields a script it accepts too |
| AnimationService.GenerateAnimationScript | functions/services/animation_service.py:32-85 | whatever the model replies, the returned script has exactly metadata and a list timeline whose keyframes have all required fields and an intensity in [0, 1] |
| AnimationService.GeneratedValid | functions/services/animation_service.py:57-85 | for a positive duration and a non-empty transcript, the returned script passes the validator whatever the model replies |
| AnimationService.GeneratedFromReply | functions/services/animation_service.py:63-80 | a reply the validator accepts is returned sanitised with its metadata; no reply, a reply that makes the validator raise, or an invalid one gives the fallback |
| AnimationService.FallbackDelivered | functions/services/animation_utils.py:86-130 | the fallback has the delivered shape for every duration and transcript |
| WavHeader.CreateWavHeader | functions/utils/decode_audio.py:10-20 | the header is exactly 44 bytes |
| WavHeader.HeaderParts | functions/utils/decode_audio.py:15-18 | a 12-byte RIFF preamble, a 24-byte `fmt ` chunk and an 8-byte `data` chunk header, in that order |
| WavHeader.HeaderFields | functions/utils/decode_audio.py:12-18 | tags RIFF, WAVE, `fmt ` and data at offsets 0, 8, 12 and 36; the u32 at 4 is 36 + data size and the one at 40 the data size; fmt size 16 and format 1; channels, sample rate, byte rate, block align and bits as computed |
| WavHeader.DefaultRates | functions/utils/decode_audio.py:10-13 | the defaults give byte rate 48000 and block align 2, and pack for every data size below 2^32 - 36 |
| WavHeader.ParseCreate | functions/utils/decode_audio.py:10-20 | reading back a written header gives the arguments it was written with |
| WavHeader.CreateParse | functions/utils/decode_audio.py:10-20 | every header that reads back is the one the writer produces for the format read |
| RoastService.ClampConfidence | functions/services/roast_service.py:64 | the rating lies in [0, 10]; a value strictly inside is kept as it is; below 0 gives 0; above 10 gives 10 |
| RoastService.NormalizeConfidence | functions/services/roast_service.py:62-64 | the rating is stored back clamped, 5 when absent; every other key is unchanged |
| RoastService.NormalizeIdempotent | functions/services/roast_service.py:62-64 | normalising twice is normalising once |
| RoastService.Join | functions/services/roast_service.py:86 | `" ".join` of no lines is empty, and of one line is that line |
| RoastService.JoinLayout | functions/services/roast_service.py:85-86 | `" ".join` holds every line in order at its offset, with exactly one space between consecutive lines and nothing else |
| RoastService.NarrationText | functions/services/roast_service.py:80-84 | the narration begins with the vibe (empty when missing) and ". " |
| RoastService.NarrationLayout | functions/services/roast_service.py:70-90 | after that prefix come the roast lines, in order and one space apart, and then the best-part phrase and the one-liner, which appear exactly when the one-liner is non-empty; the length leaves room for nothing else |
| RoastService.SpokenParts | functions/services/roast_service.py:81-88 | roast lines are spoken iff the entry is a non-empty list; the one-liner iff it is a non-empty string |
| RoastService.EmptyNarration | functions/services/roast_service.py:80-90 | an empty roast is narrated as ". " |

## Left out

- Calls to the Gemini API are left out as network I/O. This covers text-to-speech, roast generation and the animation request.
- Logging (`log_validation_issues`), file and subprocess I/O (`decode_audio`, saving test audio), the prompt templates and the configuration constants are left out as plumbing.
- The HTTP handler and the speech helper are left out as plumbing outside the modelled core, although they hold status-mapping and response-shaping logic of their own:
  - `roast_image` answers OPTIONS with 204 and the CORS headers. It returns 500 when the API key is missing and 400 when no image is given. It maps a `ValueError` to 400 and any other exception to 500. It adds `audio` and `audioMimeType` only when the speech result is truthy (functions/main.py:39-98).
  - `_extract_audio_from_response` returns, base64-encoded, the first truthy `inline_data` among the parts of the candidates that have parts, and `None` otherwise (functions/services/tts_service.py:81-103).
- The image utilities are outside the modelled core, although they hold a little logic of their own. `resize_image` acts only when a side exceeds the maximum; it then scales by the smaller of the two ratios and truncates the new size with `int` (functions/utils/image_utils.py:52-57). `parse_image_from_request` keeps the second `,`-separated piece of a data URL (functions/utils/image_utils.py:28-29).
- `json.loads` is not modelled. `ParseAnimationResponse` takes the decoder as a function parameter, and any exception it raises is an `InvalidJson` error.
- AnimationUtils.ParseAnimationResponse assumes the reply is a string. A non-string makes `find` raise, which the source reports as a generic parse failure.
- Numbers are reals. IEEE-754 rounding in `0.4 *`, `0.25 *` and so on is not modelled, and neither are NaN or infinities, which Python's decoder accepts.
- Python's distinction between `int` and `float` is not modelled. For example, the fallback's first start is the integer 0, and the clamps return `3`, `120`, `0` or `10` as integers.
- The text of issue messages is not modelled. Each message is an `Issue` constructor that carries the values the message interpolates.
- AnimationValidator.ValidateAnimationScript requires `ScriptComparable`. Without it, the source raises instead of returning:
  - continuity calls `.get` on a non-dict keyframe;
  - a keyframe time that is null-valued or non-numeric reaches `<` or `-`;
  - a truthy list or dict animation or expression name is looked up in a name table.
- AnimationService.GenerateAnimationScript treats a reply outside `ScriptComparable` as the raised-and-caught case and returns the fallback. Other exceptions are folded into the `None` reply:
  - from the model call;
  - from prompt building.
- RoastService.NarrationText requires `NarrationTyped`:
  - a present `overall_vibe` is a string;
  - truthy `roast_lines` are a list of strings;
  - a truthy `one_liner` is a string.

  The roast schema guarantees all three. The model does not cover a non-string formatted through `str()`, or a truthy string `roast_lines` that `join` would split into characters.
- RoastService.NormalizeConfidence requires a stored rating to be a number, which the schema's integer type guarantees. A non-number makes `min` raise. The conversion of a non-dict parsed response through `__dict__` is not modelled.
- WavHeader.CreateWavHeader takes natural numbers and requires `Packable`: every field fits its `struct` width. Negative or oversized arguments make `struct.pack` raise.
