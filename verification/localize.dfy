/** Localising a review: translating its summary and TL;DR, choosing the speech
    language and text, synthesising and uploading the audio. Every outside service
    is a field of `Services`. */
module Localize {
  import opened Wrappers
  import opened Text
  import Languages
  import Translate
  import Reviews
  import Wav

  const DataUrlPrefix := "data:audio/wav;base64,"
  const NoSignals := "not enough repeated signals"
  const Intro := "Here is a plain-language review summary."
  const Outro := "That is the full review summary."

  datatype Services = Services(
    /** The translation endpoint behind `translateLong`. */
    remote: Translate.Remote,
    /** The audio-script generator: review, product name, language. */
    script: (Reviews.Review, string, string) -> Result<string, string>,
    /** Speech synthesis: text and language to WAV bytes. */
    tts: (string, string) -> Result<seq<Wav.Byte>, string>,
    /** Audio upload: slug, review id, language and bytes to a public address. */
    upload: (string, int, string, seq<Wav.Byte>) -> Result<string, string>,
    /** Base64 encoding of the audio bytes. */
    base64: seq<Wav.Byte> -> string)

  /** What is handed to the translation store; a failure to store it is ignored. */
  datatype Saved = Saved(reviewId: int, languageCode: string, summary: string, tldr: string, audioUrl: string)

  /** `LocalizedReviewResult`, plus the record offered to the translation store. */
  datatype Localized = Localized(
    review: Reviews.Review,
    languageCode: string,
    ttsLanguageCode: string,
    audioUrl: string,
    durationHundredths: Option<nat>,
    saved: Option<Saved>)

  /** `languageCode || "en-IN"`. */
  function TargetLanguage(lang: string): (r: string)
    ensures r != []
    ensures lang != [] ==> r == lang
  {
    if lang == [] then Languages.English else lang
  }

  /** The speech language: the target when the speech service supports it. */
  function TtsLanguage(target: string): (r: string)
    ensures r in Languages.Supported
    ensures r == target <==> target in Languages.Supported
    ensures r != target ==> r == Languages.English
  {
    if target in Languages.Supported then target else Languages.English
  }

  /** One list item as spoken: a single final '.' removed, then trimmed. */
  function SpokenItem(item: string): (r: string)
    ensures NoEdgeSpace(r)
  {
    Trim(DropFinalPeriod(item))
  }

  /** `replace(/\.$/, "")`: at most one final period removed. */
  function DropFinalPeriod(item: string): (r: string)
    ensures r == item || (r + "." == item)
  {
    if item != [] && item[|item| - 1] == '.' then item[..|item| - 1] else item
  }

  function SpokenItems(items: seq<string>): (r: seq<string>)
    ensures |r| == |items|
    ensures forall k :: 0 <= k < |items| ==> r[k] == SpokenItem(items[k])
  {
    seq(|items|, k requires 0 <= k < |items| => SpokenItem(items[k]))
  }

  /** `toSentenceList`. */
  function SentenceList(items: seq<string>): (r: string)
    ensures items == [] ==> r == NoSignals
    ensures |items| == 1 ==> r == SpokenItem(items[0])
  {
    if items == [] then NoSignals else Join(SpokenItems(items), ". ")
  }

  /** A trimmed item ending in one period is spoken without it. */
  lemma SpokenItemDropsPeriod(body: string)
    requires NoEdgeSpace(body) && (body == [] || body[|body| - 1] != '.')
    ensures SpokenItem(body + ".") == body
    ensures SpokenItem(body) == body
  {
    var dotted := body + ".";
    assert dotted[|dotted| - 1] == '.';
    assert dotted[..|body|] == body;
    assert DropFinalPeriod(dotted) == body;
    assert DropFinalPeriod(body) == body;
    TrimOfTrimmed(body);
  }

  /** The sentences of the spoken template, in order. */
  function TemplateSentences(review: Reviews.Review): seq<string> {
    [ Intro,
      review.summary,
      "Quick verdict: " + Reviews.VerdictName(review.verdict) + ".",
      "What works well: " + SentenceList(review.pros) + ".",
      "What may disappoint: " + SentenceList(review.cons) + ".",
      "Best suited for: " + review.bestFor + ".",
      Outro ]
  }

  /** Seven sentences, opening with the fixed introduction and the summary and
      closing with the fixed outro. */
  lemma TemplateFrame(review: Reviews.Review)
    ensures var r := TemplateSentences(review);
            |r| == 7 && r[0] == Intro && r[1] == review.summary && r[6] == Outro
  {
  }

  /** The middle sentences: the verdict, the pros and the cons as spoken lists,
      and who the product suits. */
  lemma TemplateMiddle(review: Reviews.Review)
    ensures var r := TemplateSentences(review);
            r[2] == "Quick verdict: " + Reviews.VerdictName(review.verdict) + "." &&
            r[3] == "What works well: " + SentenceList(review.pros) + "." &&
            r[4] == "What may disappoint: " + SentenceList(review.cons) + "." &&
            r[5] == "Best suited for: " + review.bestFor + "."
  {
  }

  /** `buildSpeechFriendlyReviewText`: the sentences joined and white-space
      normalised. */
  function Template(review: Reviews.Review): (r: string)
    ensures Clean(r)
  {
    Squash(Join(TemplateSentences(review), " "))
  }

  /** `getAudioScript`: the generated script in the speech language, or the
      template (in the review's language) when generation fails. */
  datatype Script = Script(text: string, inTargetLanguage: bool)

  function AudioScript(review: Reviews.Review, productName: string, lang: string, s: Services): (r: Script)
    ensures s.script(review, productName, lang).Success? <==> r.inTargetLanguage
    ensures r.inTargetLanguage ==> r.text == s.script(review, productName, lang).value
    ensures !r.inTargetLanguage ==> r.text == Template(review)
  {
    match s.script(review, productName, lang)
    case Success(t) => Script(t, true)
    case Failure(_) => Script(Template(review), false)
  }

  /** The text sent to speech synthesis: a generated script as it is; the template
      translated from the target language to English when the speech language is
      not the target; otherwise the template as it is. */
  function TtsInput(script: Script, target: string, ttsLang: string, remote: Translate.Remote): (r: Result<string, string>)
    ensures script.inTargetLanguage ==> r == Success(script.text)
    ensures !script.inTargetLanguage && ttsLang == target ==> r == Success(script.text)
    ensures !script.inTargetLanguage && ttsLang != target ==>
              r == Translate.TranslateLong(script.text, Translate.Params(target, Languages.English), remote)
  {
    if script.inTargetLanguage then Success(script.text)
    else if ttsLang != target then Translate.TranslateLong(script.text, Translate.Params(target, Languages.English), remote)
    else Success(script.text)
  }

  /** A template that had to be translated is translated into the speech language. */
  lemma TemplateTranslatedToSpeechLanguage(target: string)
    requires TtsLanguage(target) != target
    ensures Translate.Params(target, Languages.English).target == TtsLanguage(target)
  {
  }

  /** The summary and TL;DR in the target language: unchanged for English,
      otherwise both translated (either failure fails the call). */
  function Translated(review: Reviews.Review, target: string, remote: Translate.Remote): (r: Result<(string, string), string>)
    ensures target == Languages.English ==> r == Success((review.summary, review.tldr))
    ensures target != Languages.English ==>
              (r.Success? <==>
                 (Translate.TranslateLong(review.summary, Translate.Params(Languages.English, target), remote).Success?
                  && Translate.TranslateLong(review.tldr, Translate.Params(Languages.English, target), remote).Success?))
    ensures target != Languages.English && r.Success? ==>
              r.value == (Translate.TranslateLong(review.summary, Translate.Params(Languages.English, target), remote).value,
                          Translate.TranslateLong(review.tldr, Translate.Params(Languages.English, target), remote).value)
  {
    if target == Languages.English then Success((review.summary, review.tldr))
    else
      var p := Translate.Params(Languages.English, target);
      match Translate.TranslateLong(review.summary, p, remote)
      case Failure(e) => Failure(e)
      case Success(summary) =>
        match Translate.TranslateLong(review.tldr, p, remote)
        case Failure(e) => Failure(e)
        case Success(tldr) => Success((summary, tldr))
  }

  /** The audio address: the upload's, or a base64 data address when the upload
      fails. */
  function AudioUrl(upload: Result<string, string>, audio: seq<Wav.Byte>, base64: seq<Wav.Byte> -> string): (r: string)
    ensures upload.Success? ==> r == upload.value
    ensures upload.Failure? ==> r == DataUrlPrefix + base64(audio) && StartsWith(r, DataUrlPrefix)
  {
    match upload
    case Success(url) => url
    case Failure(_) =>
      var r := DataUrlPrefix + base64(audio);
      assert r[..|DataUrlPrefix|] == DataUrlPrefix;
      r
  }

  /** `localizeReview`. */
  function LocalizeReview(reviewId: int, productSlug: string, productName: string, review: Reviews.Review,
                          languageCode: string, s: Services): (r: Result<Localized, string>)
    ensures r.Success? ==> r.value.languageCode == TargetLanguage(languageCode)
    ensures r.Success? ==> r.value.ttsLanguageCode == TtsLanguage(TargetLanguage(languageCode))
    ensures r.Success? ==> r.value.review.(summary := review.summary, tldr := review.tldr) == review
    ensures r.Success? && TargetLanguage(languageCode) == Languages.English ==>
              r.value.review == review && r.value.saved.None?
    ensures r.Success? && TargetLanguage(languageCode) != Languages.English ==>
              r.value.saved.Some? && r.value.saved.value.audioUrl == r.value.audioUrl
              && r.value.saved.value.summary == r.value.review.summary
              && r.value.saved.value.tldr == r.value.review.tldr
  {
    var target := TargetLanguage(languageCode);
    match Translated(review, target, s.remote)
    case Failure(e) => Failure(e)
    case Success(texts) =>
      var ttsLang := TtsLanguage(target);
      var localized := review.(summary := texts.0, tldr := texts.1);
      var script := AudioScript(localized, productName, ttsLang, s);
      match TtsInput(script, target, ttsLang, s.remote)
      case Failure(e) => Failure(e)
      case Success(text) =>
        match s.tts(text, ttsLang)
        case Failure(e) => Failure(e)
        case Success(audio) =>
          var url := AudioUrl(s.upload(productSlug, reviewId, target, audio), audio, s.base64);
          var saved := if target != Languages.English then Some(Saved(reviewId, target, texts.0, texts.1, url)) else None;
          Success(Localized(localized, target, ttsLang, url, Wav.Duration(audio), saved))
  }

  /** Every field of a successful result, step by step: the translated texts, the
      speech text from the script, the synthesised audio, its address and its
      duration read from the WAV header, which is the one the source's header check
      reads whenever the corrected check reads one. */
  lemma LocalizeSteps(reviewId: int, productSlug: string, productName: string, review: Reviews.Review,
                      languageCode: string, s: Services)
    requires LocalizeReview(reviewId, productSlug, productName, review, languageCode, s).Success?
    ensures var r := LocalizeReview(reviewId, productSlug, productName, review, languageCode, s).value;
            var target := TargetLanguage(languageCode);
            var ttsLang := TtsLanguage(target);
            var texts := Translated(review, target, s.remote);
            texts.Success? && r.review == review.(summary := texts.value.0, tldr := texts.value.1) &&
            var input := TtsInput(AudioScript(r.review, productName, ttsLang, s), target, ttsLang, s.remote);
            input.Success? && s.tts(input.value, ttsLang).Success? &&
            var audio := s.tts(input.value, ttsLang).value;
            r.audioUrl == AudioUrl(s.upload(productSlug, reviewId, target, audio), audio, s.base64) &&
            r.durationHundredths == Wav.Duration(audio) &&
            (r.durationHundredths.Some? ==> r.durationHundredths == Wav.DurationAsWritten(audio))
  {
    var target := TargetLanguage(languageCode);
    var ttsLang := TtsLanguage(target);
    var texts := Translated(review, target, s.remote);
    var localized := review.(summary := texts.value.0, tldr := texts.value.1);
    var input := TtsInput(AudioScript(localized, productName, ttsLang, s), target, ttsLang, s.remote);
    var audio := s.tts(input.value, ttsLang).value;
    if Wav.Duration(audio).Some? {
      Wav.DurationWithinAsWritten(audio);
    }
  }

  /** The call fails exactly when translating the texts, preparing the speech text
      or synthesising the audio fails; a failed upload or store never fails it. */
  lemma LocalizeFails(reviewId: int, productSlug: string, productName: string, review: Reviews.Review,
                      languageCode: string, s: Services)
    ensures var target := TargetLanguage(languageCode);
            var ttsLang := TtsLanguage(target);
            var texts := Translated(review, target, s.remote);
            LocalizeReview(reviewId, productSlug, productName, review, languageCode, s).Failure? <==>
              texts.Failure? ||
              var localized := review.(summary := texts.value.0, tldr := texts.value.1);
              var input := TtsInput(AudioScript(localized, productName, ttsLang, s), target, ttsLang, s.remote);
              input.Failure? || s.tts(input.value, ttsLang).Failure?
  {
  }

  /** A failed upload still yields a playable address. */
  lemma UploadFailureGivesDataUrl(reviewId: int, productSlug: string, productName: string, review: Reviews.Review,
                                  languageCode: string, s: Services)
    requires forall slug, id, lang, audio :: s.upload(slug, id, lang, audio).Failure?
    requires LocalizeReview(reviewId, productSlug, productName, review, languageCode, s).Success?
    ensures StartsWith(LocalizeReview(reviewId, productSlug, productName, review, languageCode, s).value.audioUrl, DataUrlPrefix)
  {
  }

  /** English reviews are never translated: whatever the translation endpoint
      does, the result is the same. */
  lemma EnglishIgnoresTranslation(reviewId: int, productSlug: string, productName: string, review: Reviews.Review,
                                  languageCode: string, s: Services, other: Translate.Remote)
    requires TargetLanguage(languageCode) == Languages.English
    ensures LocalizeReview(reviewId, productSlug, productName, review, languageCode, s)
            == LocalizeReview(reviewId, productSlug, productName, review, languageCode, s.(remote := other))
  {
  }
}
