/** The languages the application offers (display name and native script name
    per code) and the script-range language detectors. */
module Languages {
  import opened Wrappers

  /** `SUPPORTED_LANGUAGES`, in declaration order. */
  const Supported: seq<string> :=
    ["en-IN", "hi-IN", "bn-IN", "ta-IN", "te-IN", "kn-IN", "ml-IN", "mr-IN", "gu-IN", "pa-IN", "od-IN"]

  const English: string := "en-IN"

  datatype Meta = Meta(displayName: string, script: string)

  /** The `META` record, one entry per supported code. */
  function MetaOf(code: string): (r: Option<Meta>)
    ensures r.Some? <==> code in Supported
  {
    match code
    case "en-IN" => Some(Meta("English", "English"))
    case "hi-IN" => Some(Meta("Hindi", "हिन्दी"))
    case "bn-IN" => Some(Meta("Bengali", "বাংলা"))
    case "ta-IN" => Some(Meta("Tamil", "தமிழ்"))
    case "te-IN" => Some(Meta("Telugu", "తెలుగు"))
    case "kn-IN" => Some(Meta("Kannada", "ಕನ್ನಡ"))
    case "ml-IN" => Some(Meta("Malayalam", "മലയാളം"))
    case "mr-IN" => Some(Meta("Marathi", "मराठी"))
    case "gu-IN" => Some(Meta("Gujarati", "ગુજરાતી"))
    case "pa-IN" => Some(Meta("Punjabi", "ਪੰਜਾਬੀ"))
    case "od-IN" => Some(Meta("Odia", "ଓଡ଼ିଆ"))
    case _ => None
  }

  /** `getDisplayName`: "Unknown" exactly for codes outside the list. */
  function DisplayName(code: string): (r: string)
    ensures code in Supported <==> r != "Unknown"
    ensures code in Supported ==> r == MetaOf(code).value.displayName
  {
    match MetaOf(code)
    case Some(m) => m.displayName
    case None => "Unknown"
  }

  /** `getScript`: "Unknown" exactly for codes outside the list. */
  function ScriptName(code: string): (r: string)
    ensures code in Supported <==> r != "Unknown"
    ensures code in Supported ==> r == MetaOf(code).value.script
  {
    match MetaOf(code)
    case Some(m) => m.script
    case None => "Unknown"
  }

  lemma SupportedTable()
    ensures |Supported| == 11
    ensures forall i, j :: 0 <= i < j < |Supported| ==> Supported[i] != Supported[j]
    ensures English in Supported
    ensures DisplayName("hi-IN") == "Hindi" && ScriptName("hi-IN") == "हिन्दी"
  {
  }
}

/** The two script detectors: each tries a list of Unicode block ranges in order
    and returns the code of the first block that occurs in the text. They differ
    in the order of the blocks and in what they return when none occurs. */
module ScriptDetect {
  import opened Wrappers

  datatype Detector = Detector(code: string, lo: char, hi: char)

  /** A regular expression `[\uLO-\uHI]` matched against `s`. */
  predicate Hits(d: Detector, s: string) {
    exists k :: 0 <= k < |s| && d.lo <= s[k] <= d.hi
  }

  const Devanagari := Detector("hi-IN", '\U{0900}', '\U{097F}')
  const Bengali := Detector("bn-IN", '\U{0980}', '\U{09FF}')
  const Gurmukhi := Detector("pa-IN", '\U{0A00}', '\U{0A7F}')
  const Gujarati := Detector("gu-IN", '\U{0A80}', '\U{0AFF}')
  const Odia := Detector("od-IN", '\U{0B00}', '\U{0B7F}')
  const Tamil := Detector("ta-IN", '\U{0B80}', '\U{0BFF}')
  const Telugu := Detector("te-IN", '\U{0C00}', '\U{0C7F}')
  const Kannada := Detector("kn-IN", '\U{0C80}', '\U{0CFF}')
  const Malayalam := Detector("ml-IN", '\U{0D00}', '\U{0D7F}')

  /** Order used for query text and audio transcripts. */
  const TextDetectors: seq<Detector> :=
    [Devanagari, Bengali, Gujarati, Gurmukhi, Odia, Tamil, Telugu, Kannada, Malayalam]

  /** Order used for scraped review sources. */
  const SourceDetectors: seq<Detector> :=
    [Devanagari, Bengali, Tamil, Telugu, Kannada, Malayalam, Gujarati, Gurmukhi, Odia]

  function HasInRange(s: string, lo: char, hi: char): (r: bool)
    ensures r <==> exists k :: 0 <= k < |s| && lo <= s[k] <= hi
    decreases |s|
  {
    if s == [] then false
    else if lo <= s[|s| - 1] <= hi then true
    else
      var r := HasInRange(s[..|s| - 1], lo, hi);
      assert forall k :: 0 <= k < |s| - 1 ==> s[..|s| - 1][k] == s[k];
      r
  }

  /** The index of the first detector in `ds` that hits `s`. */
  function FirstHit(ds: seq<Detector>, s: string): (r: Option<nat>)
    ensures r.Some? ==> r.value < |ds| && Hits(ds[r.value], s)
                        && forall j :: 0 <= j < r.value ==> !Hits(ds[j], s)
    ensures r.None? ==> forall j :: 0 <= j < |ds| ==> !Hits(ds[j], s)
    decreases |ds|
  {
    if ds == [] then None
    else if HasInRange(s, ds[0].lo, ds[0].hi) then Some(0)
    else match FirstHit(ds[1..], s)
      case None => None
      case Some(i) => Some(i + 1)
  }

  /** True when no character lies in any of the nine Indic blocks (U+0900 to U+0D7F). */
  predicate NoIndic(s: string) {
    forall k :: 0 <= k < |s| ==> !('\U{0900}' <= s[k] <= '\U{0D7F}')
  }

  /** The nine blocks tile U+0900..U+0D7F, so missing every detector means no Indic character. */
  lemma MissAllIffNoIndic(ds: seq<Detector>, s: string)
    requires ds == TextDetectors || ds == SourceDetectors
    ensures (forall j :: 0 <= j < |ds| ==> !Hits(ds[j], s)) <==> NoIndic(s)
  {
    if forall j :: 0 <= j < |ds| ==> !Hits(ds[j], s) {
      forall k | 0 <= k < |s| ensures !('\U{0900}' <= s[k] <= '\U{0D7F}') {
        if '\U{0900}' <= s[k] <= '\U{0D7F}' {
          var d := if s[k] <= '\U{097F}' then Devanagari
            else if s[k] <= '\U{09FF}' then Bengali
            else if s[k] <= '\U{0A7F}' then Gurmukhi
            else if s[k] <= '\U{0AFF}' then Gujarati
            else if s[k] <= '\U{0B7F}' then Odia
            else if s[k] <= '\U{0BFF}' then Tamil
            else if s[k] <= '\U{0C7F}' then Telugu
            else if s[k] <= '\U{0CFF}' then Kannada
            else Malayalam;
          assert d in ds;
          assert Hits(d, s);
        }
      }
    }
  }

  /** `detectLanguageCodeFromText`. */
  function DetectFromText(s: string): (r: string)
    ensures r == "en-IN" || exists j :: 0 <= j < |TextDetectors| && TextDetectors[j].code == r
    ensures r == "en-IN" <==> NoIndic(s)
  {
    MissAllIffNoIndic(TextDetectors, s);
    match FirstHit(TextDetectors, s)
    case Some(i) => TextDetectors[i].code
    case None => "en-IN"
  }

  predicate AllAscii(s: string) {
    forall k :: 0 <= k < |s| ==> s[k] <= '\U{7F}'
  }

  /** `detectLikelyLanguageCode`: the first hit, else "en-IN" for ASCII text, else "hi-IN". */
  function DetectLikely(s: string): (r: string)
    ensures NoIndic(s) && AllAscii(s) ==> r == "en-IN"
    ensures NoIndic(s) && !AllAscii(s) ==> r == "hi-IN"
    ensures !NoIndic(s) ==> exists j :: 0 <= j < |SourceDetectors| && SourceDetectors[j].code == r
  {
    MissAllIffNoIndic(SourceDetectors, s);
    match FirstHit(SourceDetectors, s)
    case Some(i) => SourceDetectors[i].code
    case None => if AllAscii(s) then "en-IN" else "hi-IN"
  }

  /** The text detector returns the first block, in its order, that the text uses. */
  lemma DetectFromTextFirst(s: string, i: nat)
    requires i < |TextDetectors| && Hits(TextDetectors[i], s)
    requires forall j :: 0 <= j < i ==> !Hits(TextDetectors[j], s)
    ensures DetectFromText(s) == TextDetectors[i].code
  {
    var r := FirstHit(TextDetectors, s);
    assert r.Some? && r.value == i;
  }

  /** The source detector returns the first block, in its order, that the text uses. */
  lemma DetectLikelyFirst(s: string, i: nat)
    requires i < |SourceDetectors| && Hits(SourceDetectors[i], s)
    requires forall j :: 0 <= j < i ==> !Hits(SourceDetectors[j], s)
    ensures DetectLikely(s) == SourceDetectors[i].code
  {
    var r := FirstHit(SourceDetectors, s);
    assert r.Some? && r.value == i;
  }

  /** Telugu text is detected as Telugu. */
  lemma TeluguDetected()
    ensures DetectFromText("తెలుగు") == "te-IN"
  {
    var s := "తెలుగు";
    assert Hits(Telugu, s) by { assert Telugu.lo <= s[0] <= Telugu.hi; }
    DetectFromTextFirst(s, 6);
  }

  /** The detectors disagree: on Tamil text mixed with Gujarati, and on non-ASCII text
      outside the Indic blocks. */
  lemma DetectorsDiffer()
    ensures DetectFromText("த ગ") == "gu-IN" && DetectLikely("த ગ") == "ta-IN"
    ensures DetectFromText("é") == "en-IN" && DetectLikely("é") == "hi-IN"
  {
    MixedText();
    MixedSource();
    assert !AllAscii("é") by { assert "é"[0] > '\U{7F}'; }
  }

  lemma MixedText()
    ensures DetectFromText("த ગ") == "gu-IN"
  {
    var s := "த ગ";
    assert s[0] == 'த' && s[1] == ' ' && s[2] == 'ગ';
    assert Hits(Gujarati, s) by { assert Gujarati.lo <= s[2] <= Gujarati.hi; }
    assert !Hits(Devanagari, s) && !Hits(Bengali, s);
    DetectFromTextFirst(s, 2);
  }

  lemma MixedSource()
    ensures DetectLikely("த ગ") == "ta-IN"
  {
    var s := "த ગ";
    assert s[0] == 'த' && s[1] == ' ' && s[2] == 'ગ';
    assert Hits(Tamil, s) by { assert Tamil.lo <= s[0] <= Tamil.hi; }
    assert !Hits(Devanagari, s) && !Hits(Bengali, s);
    DetectLikelyFirst(s, 2);
  }
}
