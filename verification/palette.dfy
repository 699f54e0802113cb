/**
 * Severity tags are free strings in the data. Every colour switch on the page
 * first sorts a tag into one of five levels and then picks a Tailwind hue for
 * it; this module is that shared classification.
 */
module Palette {

  datatype Level = Critical | High | Medium | Low | Unrated

  /** The level a severity tag selects in a `switch`; any other string falls to `default`. */
  function Classify(severity: string): Level {
    if severity == "critical" then Critical
    else if severity == "high" then High
    else if severity == "medium" then Medium
    else if severity == "low" then Low
    else Unrated
  }

  /** The Tailwind colour family used for a level. */
  function Hue(level: Level): string {
    match level
    case Critical => "red"
    case High => "orange"
    case Medium => "yellow"
    case Low => "green"
    case Unrated => "slate"
  }

  /** Only the four listed tags are rated; every other string is Unrated. */
  lemma ClassifyRated(severity: string)
    ensures Classify(severity) != Unrated <==>
      severity in ["critical", "high", "medium", "low"]
  {
  }
}
