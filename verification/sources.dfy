/** `new URL(text)`: the parse either fails or yields the serialised URL and its
    host name. URL parsing is left to the runtime, so it is a parameter. */
module Urls {
  import opened Wrappers

  datatype ParsedUrl = ParsedUrl(href: string, hostname: string)

  type UrlParser = string -> Option<ParsedUrl>
}

/** The review sources passed between scraping, language normalisation and
    synthesis. */
module Sources {
  datatype SourceType = Blog | Ecommerce | Youtube

  /** `ScrapedReviewSource`. */
  datatype ScrapedSource = ScrapedSource(url: string, title: string, kind: SourceType, content: string)

  /** `NormalizedReviewSource`: a scraped source plus the language it was found in
      and whether its content was translated to English. */
  datatype NormalizedSource = NormalizedSource(
    source: ScrapedSource,
    originalLanguageCode: string,
    translatedToEnglish: bool)

  /** The wire name of a source type. */
  function TypeName(t: SourceType): (r: string)
    ensures r in {"blog", "ecommerce", "youtube"}
  {
    match t
    case Blog => "blog"
    case Ecommerce => "ecommerce"
    case Youtube => "youtube"
  }

  /** The source type with a given wire name, if any. */
  function TypeOfName(name: string): (r: Wrappers.Option<SourceType>)
    ensures r.Some? ==> TypeName(r.value) == name
    ensures name in {"blog", "ecommerce", "youtube"} ==> r.Some?
  {
    if name == "blog" then Wrappers.Some(Blog)
    else if name == "ecommerce" then Wrappers.Some(Ecommerce)
    else if name == "youtube" then Wrappers.Some(Youtube)
    else Wrappers.None
  }

  lemma TypeNameRoundTrip(t: SourceType)
    ensures TypeOfName(TypeName(t)) == Wrappers.Some(t)
  {
  }

  import Wrappers
}
