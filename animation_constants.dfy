/** The fixed vocabulary shared by the animation-script generator, validator and
    sanitiser: the names the front end can play, and the numeric limits. */
module AnimationConstants {

  /** Keys of AVAILABLE_ANIMATIONS. */
  const Animations: set<string> :=
    {"idle", "walkRelaxed", "walkThink", "run", "sitTalk", "spellcast", "relax"}

  /** Keys of AVAILABLE_EXPRESSIONS. */
  const Expressions: set<string> :=
    {"neutral", "smile", "laugh", "shocked", "angry", "confused"}

  /** ANIMATION_CONFIG["max_keyframes"]. */
  const MaxKeyframes: nat := 10

  /** The validator's lower bound on timeline length (a literal in the validator). */
  const MinKeyframes: nat := 3

  const DefaultExpression: string := "neutral"
  const DefaultAnimation: string := "idle"
  const DefaultIntensity: real := 0.5

  /** The keyframe fields both the validator and the integrity check require, in order. */
  const RequiredFields: seq<string> :=
    ["startTime", "endTime", "animation", "expression", "intensity"]

  /** Accepted values of a script's metadata intensity. */
  const MetadataIntensities: set<string> := {"low", "medium", "high"}
}
