/** Language of a spoken or typed query: the remote detector's answer when it is a
    code the speech services accept, else the local script detector. */
module QueryLanguage {
  import opened Wrappers
  import Translate
  import ScriptDetect

  /** `SARVAM_SUPPORTED_QUERY_LANGUAGES`. */
  const QueryCodes: set<string> := {
    "en-IN", "hi-IN", "bn-IN", "ta-IN", "te-IN", "gu-IN", "kn-IN", "ml-IN", "mr-IN", "pa-IN", "od-IN",
    "as-IN", "ur-IN", "ne-IN", "kok-IN", "ks-IN", "sd-IN", "sa-IN", "sat-IN", "mni-IN", "brx-IN",
    "mai-IN", "doi-IN"
  }

  /** The remote answer, when it is present and one of the accepted codes. */
  function Accepted(remote: Result<Option<string>, string>): (r: Option<string>)
    ensures r.Some? <==> remote.Success? && remote.value.Some? && remote.value.value in QueryCodes
    ensures r.Some? ==> r.value == remote.value.value
  {
    if remote.Success? && remote.value.Some? && remote.value.value in QueryCodes then Some(remote.value.value)
    else None
  }

  /** `detectQueryLanguageCode`. */
  function DetectQueryLanguageCode(text: string, remote: Translate.Remote): (r: string)
    ensures r in QueryCodes
    ensures Accepted(Translate.DetectSourceLanguageCode(text, remote)).Some? ==>
              r == Accepted(Translate.DetectSourceLanguageCode(text, remote)).value
    ensures Accepted(Translate.DetectSourceLanguageCode(text, remote)).None? ==>
              r == ScriptDetect.DetectFromText(text)
  {
    match Accepted(Translate.DetectSourceLanguageCode(text, remote))
    case Some(code) => code
    case None =>
      var fallback := ScriptDetect.DetectFromText(text);
      DetectorCodesAccepted(text);
      if fallback in QueryCodes then fallback else "en-IN"
  }

  /** Every code the local detector can return is accepted, so its own
      "en-IN" fallback is never needed. */
  lemma DetectorCodesAccepted(text: string)
    ensures ScriptDetect.DetectFromText(text) in QueryCodes
  {
    var r := ScriptDetect.DetectFromText(text);
    if r != "en-IN" {
      var j :| 0 <= j < |ScriptDetect.TextDetectors| && ScriptDetect.TextDetectors[j].code == r;
    }
  }
}
