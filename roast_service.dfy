/** The two pieces of the roast service that are pure: the clamp applied to the
    confidence rating of a parsed roast, and the narration text built from a
    roast for speech synthesis. The roast is the dict the model returns,
    following the roast schema (string `overall_vibe`, list of strings
    `roast_lines`, integer `confidence_rating`, string `one_liner`). */
module RoastService {
  import opened Json

  // ---------------------------------------------------------------------------
  // Confidence clamp

  /** `max(0, min(10, confidence))` with Python's tie rules: each call returns
      its first argument unless the second is strictly smaller (larger), so a
      value already in range is kept as it is. */
  function ClampConfidence(confidence: Value): (r: Value)
    requires IsNumber(confidence)
    ensures IsNumber(r) && 0.0 <= NumValue(r) <= 10.0
    ensures 0.0 <= NumValue(confidence) <= 10.0 ==> NumValue(r) == NumValue(confidence)
    ensures 0.0 < NumValue(confidence) < 10.0 ==> r == confidence
    ensures NumValue(confidence) < 0.0 ==> r == Num(0.0)
    ensures NumValue(confidence) > 10.0 ==> r == Num(10.0)
  {
    var capped := if NumValue(confidence) < 10.0 then confidence else Num(10.0);
    if NumValue(capped) > 0.0 then capped else Num(0.0)
  }

  /** What the comparisons need: a stored rating is a number (the schema makes
      it an integer); anything else makes `min` raise. */
  predicate ConfidenceComparable(roast: map<string, Value>) {
    "confidence_rating" in roast ==> IsNumber(roast["confidence_rating"])
  }

  /** The normalisation in `generate_roast`: the rating, 5 when absent, is
      clamped and stored back; nothing else changes. */
  function NormalizeConfidence(roast: map<string, Value>): (r: map<string, Value>)
    requires ConfidenceComparable(roast)
    ensures r.Keys == roast.Keys + {"confidence_rating"}
    ensures forall key :: key in roast && key != "confidence_rating" ==> r[key] == roast[key]
    ensures IsNumber(r["confidence_rating"]) && 0.0 <= NumValue(r["confidence_rating"]) <= 10.0
    ensures "confidence_rating" !in roast ==> r["confidence_rating"] == Num(5.0)
    ensures "confidence_rating" in roast && 0.0 < NumValue(roast["confidence_rating"]) < 10.0 ==>
      r["confidence_rating"] == roast["confidence_rating"]
  {
    roast["confidence_rating" := ClampConfidence(Get(roast, "confidence_rating", Num(5.0)))]
  }

  /** Normalising twice is normalising once. */
  lemma NormalizeIdempotent(roast: map<string, Value>)
    requires ConfidenceComparable(roast)
    ensures ConfidenceComparable(NormalizeConfidence(roast))
    ensures NormalizeConfidence(NormalizeConfidence(roast)) == NormalizeConfidence(roast)
  {
    var once := NormalizeConfidence(roast);
    var twice := NormalizeConfidence(once);
    assert twice["confidence_rating"] == once["confidence_rating"];
    assert twice.Keys == once.Keys;
  }

  // ---------------------------------------------------------------------------
  // Joining with single spaces

  /** `" ".join(lines)`. */
  function Join(lines: seq<string>): (text: string)
    ensures lines == [] ==> text == ""
    ensures |lines| == 1 ==> text == lines[0]
    decreases |lines|
  {
    if lines == [] then ""
    else if |lines| == 1 then lines[0]
    else Join(lines[..|lines| - 1]) + " " + lines[|lines| - 1]
  }

  /** Where line `k` starts in the joined text: after every earlier line and one
      space for each. */
  function Offset(lines: seq<string>, k: nat): nat
    requires k <= |lines|
  {
    if k == 0 then 0 else Offset(lines, k - 1) + |lines[k - 1]| + 1
  }

  lemma {:induction false} OffsetPrefix(lines: seq<string>, n: nat, k: nat)
    requires k <= n <= |lines|
    ensures Offset(lines[..n], k) == Offset(lines, k)
  {
    if k > 0 {
      OffsetPrefix(lines, n, k - 1);
      assert lines[..n][k - 1] == lines[k - 1];
    }
  }

  /** Line `k` occurs in `text` at `start` plus its offset. */
  predicate LineAt(text: string, start: nat, lines: seq<string>, k: nat)
    requires k < |lines|
  {
    start + Offset(lines, k) + |lines[k]| <= |text|
    && text[start + Offset(lines, k)..start + Offset(lines, k) + |lines[k]|] == lines[k]
  }

  /** A single space separates line `k` from the line before it. */
  predicate SpaceBefore(text: string, start: nat, lines: seq<string>, k: nat)
    requires 0 < k < |lines|
  {
    0 < start + Offset(lines, k) <= |text| && text[start + Offset(lines, k) - 1] == ' '
  }

  /** Both layout facts survive putting text before and after. */
  lemma LayoutShift(inner: string, prefix: string, suffix: string, start: nat, lines: seq<string>, k: nat)
    requires start == |prefix| && k < |lines|
    ensures LineAt(inner, 0, lines, k) ==> LineAt(prefix + inner + suffix, start, lines, k)
    ensures 0 < k && SpaceBefore(inner, 0, lines, k) ==> SpaceBefore(prefix + inner + suffix, start, lines, k)
  {
    var text := prefix + inner + suffix;
    var o := Offset(lines, k);
    if LineAt(inner, 0, lines, k) {
      assert text[start + o..start + o + |lines[k]|] == inner[o..o + |lines[k]|];
    }
    if 0 < k && SpaceBefore(inner, 0, lines, k) {
      assert text[start + o - 1] == inner[o - 1];
    }
  }

  /** An earlier line keeps its place when the joined text grows at the end. */
  lemma LineInHead(head: string, last: string, lines: seq<string>, k: nat)
    requires k < |lines| - 1 && LineAt(head, 0, lines[..|lines| - 1], k)
    ensures LineAt(head + " " + last, 0, lines, k)
    ensures 0 < k ==> (SpaceBefore(head, 0, lines[..|lines| - 1], k) ==> SpaceBefore(head + " " + last, 0, lines, k))
  {
    var init := lines[..|lines| - 1];
    OffsetPrefix(lines, |lines| - 1, k);
    assert init[k] == lines[k];
    LayoutShift(head, [], " " + last, 0, init, k);
    assert [] + head + (" " + last) == head + " " + last;
  }

  /** The joined text holds every line, in order, at its offset; consecutive
      lines are separated by exactly one space; and nothing else is added. */
  lemma {:induction false} JoinLayout(lines: seq<string>)
    requires lines != []
    ensures |Join(lines)| == Offset(lines, |lines|) - 1
    ensures forall k :: 0 <= k < |lines| ==> LineAt(Join(lines), 0, lines, k)
    ensures forall k :: 0 < k < |lines| ==> SpaceBefore(Join(lines), 0, lines, k)
    decreases |lines|
  {
    if |lines| > 1 {
      var n := |lines| - 1;
      var init := lines[..n];
      var text := Join(lines);
      var head := Join(init);
      JoinLayout(init);
      assert text == head + " " + lines[n];
      OffsetPrefix(lines, n, n);
      forall k | 0 <= k < |lines|
        ensures LineAt(text, 0, lines, k)
        ensures 0 < k ==> SpaceBefore(text, 0, lines, k)
      {
        if k < n {
          LineInHead(head, lines[n], lines, k);
        } else {
          assert text[|head| + 1..] == lines[n];
        }
      }
    }
  }

  // ---------------------------------------------------------------------------
  // Narration text

  const BestPart: string := " And here's the best part: "

  /** What formatting needs: the vibe, when present, is a string; truthy roast
      lines are a list of strings (`join` raises on anything else); a truthy
      one-liner is a string. */
  predicate NarrationTyped(roast: map<string, Value>) {
    && Get(roast, "overall_vibe", Str("")).Str?
    && (var lines := Get(roast, "roast_lines", Arr([]));
        Truthy(lines) ==> lines.Arr? && forall k :: 0 <= k < |lines.items| ==> lines.items[k].Str?)
    && (Truthy(Get(roast, "one_liner", Str(""))) ==> Get(roast, "one_liner", Str("")).Str?)
  }

  function Vibe(roast: map<string, Value>): string
    requires NarrationTyped(roast)
  {
    Get(roast, "overall_vibe", Str("")).s
  }

  /** The roast lines that are spoken: none when the entry is falsy. */
  function RoastLines(roast: map<string, Value>): (lines: seq<string>)
    requires NarrationTyped(roast)
  {
    var v := Get(roast, "roast_lines", Arr([]));
    if Truthy(v) then seq(|v.items|, k requires 0 <= k < |v.items| => v.items[k].s) else []
  }

  /** The one-liner that is spoken: empty when the entry is falsy. */
  function OneLiner(roast: map<string, Value>): string
    requires NarrationTyped(roast)
  {
    var v := Get(roast, "one_liner", Str(""));
    if Truthy(v) then v.s else ""
  }

  /** `build_narration_text`. */
  function NarrationText(roast: map<string, Value>): (text: string)
    requires NarrationTyped(roast)
    ensures |text| >= |Vibe(roast)| + 2 && text[..|Vibe(roast)| + 2] == Vibe(roast) + ". "
  {
    var text := Vibe(roast) + ". ";
    var text := if RoastLines(roast) != [] then text + Join(RoastLines(roast)) else text;
    if OneLiner(roast) != "" then text + BestPart + OneLiner(roast) else text
  }

  /** The narration is the vibe and ". ", then each roast line in order at its
      offset with single spaces between, then — exactly when the one-liner is
      not empty — the best-part phrase and the one-liner, and nothing more. */
  lemma NarrationLayout(roast: map<string, Value>)
    requires NarrationTyped(roast)
    ensures var text := NarrationText(roast);
      var start := |Vibe(roast)| + 2;
      var lines := RoastLines(roast);
      var body := if lines == [] then 0 else Offset(lines, |lines|) - 1;
      && (forall k :: 0 <= k < |lines| ==> LineAt(text, start, lines, k))
      && (forall k :: 0 < k < |lines| ==> SpaceBefore(text, start, lines, k))
      && (OneLiner(roast) != "" ==>
            |text| == start + body + |BestPart| + |OneLiner(roast)|
            && text[start + body..] == BestPart + OneLiner(roast))
      && (OneLiner(roast) == "" ==> |text| == start + body)
  {
    var lines := RoastLines(roast);
    var prefix := Vibe(roast) + ". ";
    var suffix := if OneLiner(roast) != "" then BestPart + OneLiner(roast) else "";
    var text := NarrationText(roast);
    if lines != [] {
      JoinLayout(lines);
      assert text == prefix + Join(lines) + suffix;
      forall k | 0 <= k < |lines|
        ensures LineAt(text, |prefix|, lines, k)
        ensures 0 < k ==> SpaceBefore(text, |prefix|, lines, k)
      {
        LayoutShift(Join(lines), prefix, suffix, |prefix|, lines, k);
      }
    } else {
      assert text == prefix + suffix;
    }
  }

  /** The roast lines are spoken exactly when the entry is a non-empty list, and
      the one-liner exactly when it is a non-empty string. */
  lemma SpokenParts(roast: map<string, Value>)
    requires NarrationTyped(roast)
    ensures RoastLines(roast) != [] <==>
      "roast_lines" in roast && roast["roast_lines"].Arr? && roast["roast_lines"].items != []
    ensures |RoastLines(roast)| > 0 ==> |RoastLines(roast)| == |roast["roast_lines"].items|
    ensures OneLiner(roast) != "" <==>
      "one_liner" in roast && roast["one_liner"].Str? && roast["one_liner"].s != ""
  {
  }

  /** An empty roast is narrated as ". ". */
  lemma EmptyNarration()
    ensures NarrationTyped(map[]) && NarrationText(map[]) == ". "
  {
  }
}
