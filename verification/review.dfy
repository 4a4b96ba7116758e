/** The synthesised review as the rest of the pipeline passes it around. */
module Reviews {
  import Sources

  datatype Verdict = Buy | Skip | Wait

  /** The wire name of a verdict. */
  function VerdictName(v: Verdict): (r: string)
    ensures r in {"buy", "skip", "wait"}
  {
    match v
    case Buy => "buy"
    case Skip => "skip"
    case Wait => "wait"
  }

  /** A cited source: title, address and type. */
  datatype Cited = Cited(title: string, url: string, kind: Sources.SourceType)

  /** `SynthesizedReview`. The confidence is a real number; the schema bounds it
      by 0 and 1. */
  datatype Review = Review(
    verdict: Verdict,
    pros: seq<string>,
    cons: seq<string>,
    bestFor: string,
    summary: string,
    tldr: string,
    confidence: real,
    sources: seq<Cited>)
}
