/** Normalising scraped sources to English: each source's language is guessed from
    its script; non-English content goes through long-text translation, and a failed
    translation keeps the original text. */
module NormalizeSources {
  import opened Wrappers
  import opened Sources
  import ScriptDetect
  import Translate
  import Text

  /** The translation request for a source detected as `code`. */
  function ToEnglish(code: string): (p: Translate.Params)
    ensures p.source == code && p.target == "en-IN"
  {
    Translate.Params(code, "en-IN")
  }

  /** One source of `normalizeSourcesToEnglish`. */
  function NormalizeOne(s: ScrapedSource, remote: Translate.Remote): (r: NormalizedSource)
    ensures r.originalLanguageCode == ScriptDetect.DetectLikely(s.content)
    ensures r.source.(content := s.content) == s
    ensures r.translatedToEnglish <==>
              r.originalLanguageCode != "en-IN"
              && Translate.TranslateLong(s.content, ToEnglish(r.originalLanguageCode), remote).Success?
    ensures r.translatedToEnglish ==>
              r.source.content == Translate.TranslateLong(s.content, ToEnglish(r.originalLanguageCode), remote).value
    ensures !r.translatedToEnglish ==> r.source == s
  {
    var code := ScriptDetect.DetectLikely(s.content);
    if code == "en-IN" then NormalizedSource(s, code, false)
    else
      match Translate.TranslateLong(s.content, ToEnglish(code), remote)
      case Success(t) => NormalizedSource(s.(content := t), code, true)
      case Failure(_) => NormalizedSource(s, code, false)
  }

  /** `normalizeSourcesToEnglish`: every source normalised, in input order
      (`Promise.all` over a map). A failing translation does not fail the batch. */
  function NormalizeAll(sources: seq<ScrapedSource>, remote: Translate.Remote): (r: seq<NormalizedSource>)
    ensures |r| == |sources|
    ensures forall k :: 0 <= k < |sources| ==> r[k] == NormalizeOne(sources[k], remote)
  {
    seq(|sources|, k requires 0 <= k < |sources| => NormalizeOne(sources[k], remote))
  }

  /** ASCII text without Indic script is English: the source is kept as it is and
      the remote is never consulted, so any two remotes give the same result. */
  lemma EnglishUntouched(s: ScrapedSource, remote: Translate.Remote, other: Translate.Remote)
    requires ScriptDetect.NoIndic(s.content) && ScriptDetect.AllAscii(s.content)
    ensures NormalizeOne(s, remote) == NormalizedSource(s, "en-IN", false)
    ensures NormalizeOne(s, remote) == NormalizeOne(s, other)
  {
  }

  /** Any non-ASCII text, in whatever script, is translated from some Indic
      language; English is never the detected source of a translation. */
  lemma NonAsciiTranslated(s: ScrapedSource, remote: Translate.Remote)
    requires !ScriptDetect.AllAscii(s.content)
    ensures NormalizeOne(s, remote).originalLanguageCode != "en-IN"
  {
  }

  /** A translated source's content is white-space normalised text. */
  lemma TranslatedIsClean(s: ScrapedSource, remote: Translate.Remote)
    requires NormalizeOne(s, remote).translatedToEnglish
    ensures Text.Clean(NormalizeOne(s, remote).source.content)
  {
  }

  /** Address, title and type survive normalisation for every source, in order. */
  lemma NormalizeKeepsMetadata(sources: seq<ScrapedSource>, remote: Translate.Remote)
    ensures forall k :: 0 <= k < |sources| ==>
              var n := NormalizeAll(sources, remote)[k].source;
              n.url == sources[k].url && n.title == sources[k].title && n.kind == sources[k].kind
  {
    forall k | 0 <= k < |sources|
      ensures NormalizeAll(sources, remote)[k].source.(content := sources[k].content) == sources[k]
    {
    }
  }
}
