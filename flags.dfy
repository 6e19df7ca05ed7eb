/** Security flag formatting (apps/web/src/lib/flags.ts): a CVSS base score
    bucketed into the qualitative severity ratings of section 5 of the CVSS v3.1
    specification (critical 9.0-10.0, high 7.0-8.9, medium 4.0-6.9, low
    0.1-3.9, none below), each with its Chinese label. */
module Flags {

  datatype Level = Critical | High | Medium | Low | Informational

  const CriticalThreshold := 9.0
  const HighThreshold := 7.0
  const MediumThreshold := 4.0
  const LowThreshold := 0.1

  /** The `SECURITY_LEVELS` value of a level. */
  function Severity(l: Level): string {
    match l
    case Critical => "critical"
    case High => "high"
    case Medium => "medium"
    case Low => "low"
    case Informational => "info"
  }

  /** The `SECURITY_LABELS` value of a level. */
  function Label(l: Level): string {
    match l
    case Critical => "严重"
    case High => "高危"
    case Medium => "中等"
    case Low => "低危"
    case Informational => "信息"
  }

  /** Levels ordered from least to most severe. */
  function Rank(l: Level): nat {
    match l
    case Informational => 0
    case Low => 1
    case Medium => 2
    case High => 3
    case Critical => 4
  }

  /** The level a score falls in: the first threshold, from the top, that it reaches. */
  function LevelOf(score: real): (l: Level)
    ensures l == Critical <==> score >= CriticalThreshold
    ensures l == High <==> HighThreshold <= score < CriticalThreshold
    ensures l == Medium <==> MediumThreshold <= score < HighThreshold
    ensures l == Low <==> LowThreshold <= score < MediumThreshold
    ensures l == Informational <==> score < LowThreshold
  {
    if score >= CriticalThreshold then Critical
    else if score >= HighThreshold then High
    else if score >= MediumThreshold then Medium
    else if score >= LowThreshold then Low
    else Informational
  }

  datatype Formatted = Formatted(severity: string, labelText: string)

  /** `formatCVSSScore(score)`. */
  function FormatCvssScore(score: real): (f: Formatted)
    ensures exists l :: f == Formatted(Severity(l), Label(l))
  {
    Formatted(Severity(LevelOf(score)), Label(LevelOf(score)))
  }

  /** Severity and label always name the same level, and the severity names
      the level the score falls in: the pairing cannot be mixed. */
  lemma FormatConsistent(score: real, l: Level)
    requires FormatCvssScore(score).severity == Severity(l)
    ensures l == LevelOf(score)
    ensures FormatCvssScore(score).labelText == Label(l)
  {
  }

  /** A higher score never gets a lower severity. */
  lemma LevelMonotone(a: real, b: real)
    requires a <= b
    ensures Rank(LevelOf(a)) <= Rank(LevelOf(b))
  {
  }

  /** `flagMapping`: each level name to its `SECURITY_LEVELS` value. */
  const FlagMapping: map<string, string> := map[
    "critical" := Severity(Critical),
    "high" := Severity(High),
    "medium" := Severity(Medium),
    "low" := Severity(Low),
    "informational" := Severity(Informational)]

  /** The mapping covers exactly the five names, its values are the five
      severities, and only 'informational' maps to a different word ('info'). */
  lemma FlagMappingFacts()
    ensures FlagMapping.Keys == {"critical", "high", "medium", "low", "informational"}
    ensures FlagMapping.Values == set l: Level | true :: Severity(l)
    ensures forall k :: k in FlagMapping && FlagMapping[k] != k ==> k == "informational"
  {
    var all := set l: Level | true :: Severity(l);
    assert all == {"critical", "high", "medium", "low", "info"} by {
      forall s | s in all ensures s in {"critical", "high", "medium", "low", "info"} {
        var l :| Severity(l) == s;
        match l
        case Critical =>
        case High =>
        case Medium =>
        case Low =>
        case Informational =>
      }
      assert Severity(Critical) in all && Severity(High) in all && Severity(Medium) in all;
      assert Severity(Low) in all && Severity(Informational) in all;
    }
  }
}
