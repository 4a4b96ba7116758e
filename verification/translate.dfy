/** Translation through the remote translation service: model choice, the
    sentence-boundary chunker, single-chunk translation, source-language detection
    and long-text translation. The remote endpoint is the function `remote`. */
module Translate {
  import opened Wrappers
  import opened Text

  const MaxChunk: nat := 1000

  /** Codes the "mayura:v1" model accepts. */
  const MayuraCodes: set<string> :=
    {"en-IN", "hi-IN", "bn-IN", "ta-IN", "te-IN", "kn-IN", "ml-IN", "mr-IN", "gu-IN", "pa-IN", "od-IN"}

  datatype Params = Params(source: string, target: string)

  /** Body sent to the translation endpoint; `mode` is "formal" for mayura only. */
  datatype Request = Request(input: string, source: string, target: string, model: string, mode: Option<string>)

  /** The fields of the endpoint's reply that the code reads. */
  datatype Response = Response(
    translatedText: Option<string>,
    translation: Option<string>,
    output: Option<string>,
    sourceLanguageCode: Option<string>)

  /** The remote endpoint; `Failure` is a thrown request or schema error. */
  type Remote = Request -> Result<Response, string>

  /** `chooseTranslationModel`. */
  function ChooseModel(source: string, target: string): (r: string)
    ensures r == "mayura:v1" <==> source in MayuraCodes && target in MayuraCodes
    ensures r == "mayura:v1" || r == "sarvam-translate:v1"
  {
    if source in MayuraCodes && target in MayuraCodes then "mayura:v1" else "sarvam-translate:v1"
  }

  function FirstPresent(a: Option<string>, b: Option<string>, c: Option<string>): (r: string)
    ensures a.Some? ==> r == a.value
    ensures a.None? && b.Some? ==> r == b.value
    ensures a.None? && b.None? && c.Some? ==> r == c.value
    ensures a.None? && b.None? && c.None? ==> r == ""
  {
    if a.Some? then a.value else if b.Some? then b.value else c.GetOr("")
  }

  /** The request `translateText` sends for `input`. */
  function TextRequest(input: string, p: Params): (r: Request)
    ensures r.input == input && r.source == p.source && r.target == p.target
  {
    var model := ChooseModel(p.source, p.target);
    Request(input, p.source, p.target, model, if model == "mayura:v1" then Some("formal") else None)
  }

  /** `translateText`: one request; the first present text field, trimmed. */
  function TranslateText(input: string, p: Params, remote: Remote): (r: Result<string, string>)
    ensures remote(TextRequest(input, p)).Failure? <==> r.Failure?
    ensures r.Success? ==> var resp := remote(TextRequest(input, p)).value;
      r.value == Trim(FirstPresent(resp.translatedText, resp.translation, resp.output))
  {
    match remote(TextRequest(input, p))
    case Failure(e) => Failure(e)
    case Success(resp) => Success(Trim(FirstPresent(resp.translatedText, resp.translation, resp.output)))
  }

  /** The detection request: the first 1000 characters, automatic source, English
      target, the translate model and no mode. */
  function DetectRequest(normalized: string): (r: Request)
    ensures StartsWith(normalized, r.input)
    ensures |normalized| <= 1000 ==> r.input == normalized
    ensures |normalized| > 1000 ==> |r.input| == 1000
    ensures r.source == "auto" && r.target == "en-IN" && r.model == "sarvam-translate:v1" && r.mode.None?
  {
    var n := if |normalized| <= 1000 then |normalized| else 1000;
    Request(normalized[..n], "auto", "en-IN", "sarvam-translate:v1", None)
  }

  /** `detectSourceLanguageCode`: blank input is `None` without a request; otherwise
      the reply's language code, trimmed, or `None` when that is absent or blank. */
  function DetectSourceLanguageCode(input: string, remote: Remote): (r: Result<Option<string>, string>)
    ensures Trim(input) == [] ==> r == Success(None)
    ensures r.Success? && r.value.Some? ==> r.value.value != [] && Trim(r.value.value) == r.value.value
    ensures Trim(input) != [] ==> (r.Failure? <==> remote(DetectRequest(Trim(input))).Failure?)
    ensures Trim(input) != [] && remote(DetectRequest(Trim(input))).Success? ==>
              var code := Trim(remote(DetectRequest(Trim(input))).value.sourceLanguageCode.GetOr(""));
              r.Success? && (r.value.Some? <==> code != []) && (r.value.Some? ==> r.value.value == code)
  {
    var normalized := Trim(input);
    if normalized == [] then Success(None)
    else match remote(DetectRequest(normalized))
      case Failure(e) => Failure(e)
      case Success(resp) => Success(NonBlank(resp.sourceLanguageCode))
  }

  /** `value?.trim() || null`. */
  function NonBlank(value: Option<string>): (r: Option<string>)
    ensures r.Some? ==> r.value != [] && Trim(r.value) == r.value
    ensures r.None? <==> Trim(value.GetOr("")) == []
    ensures r.Some? ==> r.value == Trim(value.GetOr(""))
  {
    var code := Trim(value.GetOr(""));
    TrimOfTrimmed(code);
    if code == [] then None else Some(code)
  }

  // ---------------------------------------------------------------------------
  // Sentence splitting: `split(/(?<=[.!?])\s+/)` on whitespace-normalised text.

  /** A separator position: white space right after sentence punctuation. */
  predicate IsBreak(s: string, i: int) {
    0 < i < |s| && IsSpace(s[i]) && IsSentenceEnd(s[i - 1])
  }

  function NextBreak(s: string, i: nat): (r: Option<nat>)
    requires i <= |s|
    ensures r.Some? ==> i <= r.value < |s| && IsBreak(s, r.value)
                        && forall j :: i <= j < r.value ==> !IsBreak(s, j)
    ensures r.None? ==> forall j :: i <= j < |s| ==> !IsBreak(s, j)
    decreases |s| - i
  {
    if i == |s| then None
    else if IsBreak(s, i) then Some(i)
    else NextBreak(s, i + 1)
  }

  /** The pieces between separators. On text whose white-space runs are single
      characters this is exactly what the look-behind split produces. */
  function Sentences(s: string): (r: seq<string>)
    ensures |r| >= 1
    ensures forall k :: 0 <= k < |r| ==> NoBreak(r[k])
    decreases |s|
  {
    match NextBreak(s, 0)
    case None => [s]
    case Some(b) =>
      var rest := Sentences(s[b + 1..]);
      PrefixNoBreak(s, b);
      ConsNoBreak(s[..b], rest);
      [s[..b]] + rest
  }

  lemma PrefixNoBreak(s: string, b: nat)
    requires b <= |s| && forall j :: 0 <= j < b ==> !IsBreak(s, j)
    ensures NoBreak(s[..b])
  {
    forall j | 0 <= j < b ensures !IsBreak(s[..b], j) {
      assert !IsBreak(s, j);
    }
  }

  lemma ConsNoBreak(x: string, ys: seq<string>)
    requires NoBreak(x) && forall k :: 0 <= k < |ys| ==> NoBreak(ys[k])
    ensures forall k :: 0 <= k < |[x] + ys| ==> NoBreak(([x] + ys)[k])
  {
    forall k | 0 <= k < |[x] + ys| ensures NoBreak(([x] + ys)[k]) {
      if k > 0 {
        assert ([x] + ys)[k] == ys[k - 1];
      }
    }
  }

  /** No separator inside. */
  predicate NoBreak(x: string) {
    forall j :: 0 <= j < |x| ==> !IsBreak(x, j)
  }

  /** Non-empty with no white space at either end. */
  predicate Trimmed(x: string) {
    x != [] && !IsSpace(x[0]) && !IsSpace(x[|x| - 1])
  }

  lemma {:induction false} SentencesJoin(s: string)
    requires SingleSpaced(s)
    ensures Join(Sentences(s), " ") == s
    decreases |s|
  {
    match NextBreak(s, 0)
    case None =>
    case Some(b) =>
      SingleSpacedSlice(s, b + 1, |s|);
      assert s[b + 1..] == s[b + 1..|s|];
      SentencesJoin(s[b + 1..]);
      assert s == s[..b] + " " + s[b + 1..];
  }

  lemma {:induction false} SentencesTrimmed(s: string)
    requires Clean(s) && s != []
    ensures forall k :: 0 <= k < |Sentences(s)| ==> Trimmed(Sentences(s)[k])
    decreases |s|
  {
    match NextBreak(s, 0)
    case None =>
    case Some(b) =>
      var rest := s[b + 1..];
      BreakParts(s, b);
      SentencesTrimmed(rest);
      assert Sentences(s) == [s[..b]] + Sentences(rest);
      ConsTrimmed(s[..b], Sentences(rest));
  }

  /** Around a break of clean text: a trimmed first sentence, clean non-empty rest. */
  lemma BreakParts(s: string, b: nat)
    requires Clean(s) && s != [] && b < |s| && IsBreak(s, b)
    ensures Trimmed(s[..b]) && Clean(s[b + 1..]) && s[b + 1..] != []
  {
    var rest := s[b + 1..];
    assert b + 1 < |s|;
    SingleSpacedSlice(s, b + 1, |s|);
    assert rest == s[b + 1..|s|];
    assert rest[0] == s[b + 1];
  }

  lemma ConsTrimmed(x: string, ys: seq<string>)
    requires Trimmed(x) && forall k :: 0 <= k < |ys| ==> Trimmed(ys[k])
    ensures forall k :: 0 <= k < |[x] + ys| ==> Trimmed(([x] + ys)[k])
  {
    forall k | 0 <= k < |[x] + ys| ensures Trimmed(([x] + ys)[k]) {
      if k > 0 {
        assert ([x] + ys)[k] == ys[k - 1];
      }
    }
  }

  // ---------------------------------------------------------------------------
  // Packing sentences into chunks.

  /** Loop state of the packer: chunks pushed so far and the pending chunk. */
  datatype Pack = Pack(chunks: seq<string>, current: string)

  /** `sentence.slice(offset, offset + max)` for offset = 0, max, 2*max, ... (untrimmed). */
  function RawSlices(sentence: string, max: nat): (r: seq<string>)
    requires max >= 1
    ensures Concat(r) == sentence
    ensures forall k :: 0 <= k < |r| ==> 1 <= |r[k]| <= max
    ensures forall k :: 0 <= k < |r| - 1 ==> |r[k]| == max
    decreases |sentence|
  {
    if sentence == [] then []
    else if |sentence| <= max then [sentence]
    else
      var rest := RawSlices(sentence[max..], max);
      assert sentence == sentence[..max] + sentence[max..];
      [sentence[..max]] + rest
  }

  function TrimAll(xs: seq<string>): (r: seq<string>)
    ensures |r| == |xs|
    ensures forall k :: 0 <= k < |xs| ==> r[k] == Trim(xs[k])
  {
    seq(|xs|, k requires 0 <= k < |xs| => Trim(xs[k]))
  }

  /** The chunks pushed for a sentence longer than the limit. */
  function Slices(sentence: string, max: nat): (r: seq<string>)
    requires max >= 1
    ensures forall k :: 0 <= k < |r| ==> |r[k]| <= max
  {
    TrimAll(RawSlices(sentence, max))
  }

  /** One iteration of the packing loop. */
  function Step(p: Pack, sentence: string, max: nat): Pack
    requires max >= 1
  {
    if sentence == [] then p
    else if |sentence| > max then
      var flushed := if p.current != [] then p.chunks + [Trim(p.current)] else p.chunks;
      Pack(flushed + Slices(sentence, max), [])
    else
      var next := if p.current != [] then p.current + " " + sentence else sentence;
      if |next| > max then Pack(p.chunks + [Trim(p.current)], sentence)
      else Pack(p.chunks, next)
  }

  /** One loop iteration never takes back a pushed chunk; a sentence over the
      limit leaves nothing pending, and a non-empty sentence that fits always
      leaves something pending. */
  lemma StepKeeps(p: Pack, sentence: string, max: nat)
    requires max >= 1
    ensures var r := Step(p, sentence, max);
            p.chunks <= r.chunks &&
            (|sentence| > max ==> r.current == []) &&
            (0 < |sentence| <= max ==> r.current != [])
  {
  }

  function Fold(p: Pack, sentences: seq<string>, max: nat): (r: Pack)
    requires max >= 1
    ensures p.chunks <= r.chunks
    decreases |sentences|
  {
    if sentences == [] then p
    else
      StepKeeps(p, sentences[0], max);
      Fold(Step(p, sentences[0], max), sentences[1..], max)
  }

  function NonEmpty(xs: seq<string>): (r: seq<string>)
    ensures forall k :: 0 <= k < |r| ==> r[k] != []
    ensures (forall k :: 0 <= k < |xs| ==> xs[k] != []) ==> r == xs
    ensures forall k :: 0 <= k < |r| ==> r[k] in xs
    decreases |xs|
  {
    if xs == [] then []
    else if xs[0] == [] then NonEmpty(xs[1..])
    else [xs[0]] + NonEmpty(xs[1..])
  }

  /** Chunks the loop leaves behind: pushed chunks plus the pending one, trimmed. */
  function Finish(p: Pack): seq<string> {
    if p.current != [] then p.chunks + [Trim(p.current)] else p.chunks
  }

  /** The packing loop and the final push and filter, over the sentence list. */
  function PackSentences(sentences: seq<string>, max: nat): (r: seq<string>)
    requires max >= 1
    ensures forall k :: 0 <= k < |r| ==> r[k] != [] && |r[k]| <= max
    ensures AllTrimmed(sentences) && sentences != [] ==> r != []
  {
    var last := Fold(Pack([], []), sentences, max);
    FoldBounded(Pack([], []), sentences, max);
    PackNonEmpty(sentences, max);
    NonEmpty(Finish(last))
  }

  lemma PackNonEmpty(sentences: seq<string>, max: nat)
    requires max >= 1
    ensures AllTrimmed(sentences) && sentences != [] ==> NonEmpty(Finish(Fold(Pack([], []), sentences, max))) != []
  {
    if AllTrimmed(sentences) && sentences != [] {
      FoldGood(Pack([], []), sentences, max);
      FinishHasNonEmpty(Fold(Pack([], []), sentences, max));
    }
  }

  /** `splitIntoTranslationChunks`. The source loops forever for a limit of zero
      or less, so the limit is at least 1 here. */
  function SplitIntoChunks(input: string, max: nat): (r: seq<string>)
    requires max >= 1
    ensures TrimCollapse(input) == [] <==> r == []
    ensures |TrimCollapse(input)| <= max ==> r == (if TrimCollapse(input) == [] then [] else [TrimCollapse(input)])
    ensures forall k :: 0 <= k < |r| ==> r[k] != [] && |r[k]| <= max
  {
    ChunksOf(TrimCollapse(input), max)
  }

  /** The chunks of normalised text: none when it is empty, itself when it fits,
      else its sentences packed. */
  function ChunksOf(normalized: string, max: nat): (r: seq<string>)
    requires max >= 1 && Clean(normalized)
    ensures normalized == [] <==> r == []
    ensures |normalized| <= max ==> r == (if normalized == [] then [] else [normalized])
    ensures forall k :: 0 <= k < |r| ==> r[k] != [] && |r[k]| <= max
  {
    if normalized == [] then []
    else if |normalized| <= max then [normalized]
    else PackLong(normalized, max)
  }

  /** The chunks of normalised text longer than the limit: its sentences, packed. */
  function PackLong(normalized: string, max: nat): (r: seq<string>)
    requires max >= 1 && Clean(normalized) && normalized != []
    ensures r != [] && forall k :: 0 <= k < |r| ==> r[k] != [] && |r[k]| <= max
  {
    var sentences := Sentences(normalized);
    SentencesTrimmed(normalized);
    assert AllTrimmed(sentences);
    PackSentences(sentences, max)
  }

  // Bounds: every pushed chunk and the pending chunk fit the limit.

  predicate Bounded(p: Pack, max: nat) {
    |p.current| <= max && forall k :: 0 <= k < |p.chunks| ==> |p.chunks[k]| <= max
  }

  lemma FoldBounded(p: Pack, sentences: seq<string>, max: nat)
    requires max >= 1 && Bounded(p, max)
    ensures Bounded(Fold(p, sentences, max), max)
    ensures forall k :: 0 <= k < |Finish(Fold(p, sentences, max))| ==> |Finish(Fold(p, sentences, max))[k]| <= max
  {
    FoldKeepsBounded(p, sentences, max);
    FinishBounded(Fold(p, sentences, max), max);
  }

  lemma {:induction false} FoldKeepsBounded(p: Pack, sentences: seq<string>, max: nat)
    requires max >= 1 && Bounded(p, max)
    ensures Bounded(Fold(p, sentences, max), max)
    decreases |sentences|
  {
    if sentences != [] {
      var q := Step(p, sentences[0], max);
      StepBounded(p, sentences[0], max);
      FoldKeepsBounded(q, sentences[1..], max);
      assert Fold(p, sentences, max) == Fold(q, sentences[1..], max);
    }
  }

  lemma StepBounded(p: Pack, sentence: string, max: nat)
    requires max >= 1 && Bounded(p, max)
    ensures Bounded(Step(p, sentence, max), max)
  {
    if sentence != [] && |sentence| > max {
      var flushed := Finish(p);
      FinishBounded(p, max);
      AppendBounded(flushed, Slices(sentence, max), max);
      assert Step(p, sentence, max).chunks == flushed + Slices(sentence, max);
    }
  }

  lemma AppendBounded(xs: seq<string>, ys: seq<string>, max: nat)
    requires forall k :: 0 <= k < |xs| ==> |xs[k]| <= max
    requires forall k :: 0 <= k < |ys| ==> |ys[k]| <= max
    ensures forall k :: 0 <= k < |xs + ys| ==> |(xs + ys)[k]| <= max
  {
  }

  lemma FinishBounded(p: Pack, max: nat)
    requires Bounded(p, max)
    ensures forall k :: 0 <= k < |Finish(p)| ==> |Finish(p)[k]| <= max
  {
  }

  // Shape: the pending chunk is always a trimmed, non-empty run of sentences.

  predicate Good(p: Pack) {
    p.current == [] || Trimmed(p.current)
  }

  predicate Progress(p: Pack) {
    p.current != [] || exists k :: 0 <= k < |p.chunks| && p.chunks[k] != []
  }

  predicate AllTrimmed(xs: seq<string>) {
    forall k :: 0 <= k < |xs| ==> Trimmed(xs[k])
  }

  lemma FirstSliceNonEmpty(sentence: string, max: nat)
    requires max >= 1 && Trimmed(sentence) && |sentence| > max
    ensures Slices(sentence, max)[0] != []
  {
    var first := RawSlices(sentence, max)[0];
    assert first == sentence[..max];
    assert !AllSpace(first) by { assert first[0] == sentence[0]; }
    TrimEmptyIffAllSpace(first);
  }

  lemma StepGood(p: Pack, sentence: string, max: nat)
    requires max >= 1 && Good(p) && Trimmed(sentence)
    ensures Good(Step(p, sentence, max)) && Progress(Step(p, sentence, max))
    ensures Progress(p) ==> Progress(Step(p, sentence, max))
  {
    var q := Step(p, sentence, max);
    if |sentence| > max {
      FirstSliceNonEmpty(sentence, max);
      var flushed := if p.current != [] then p.chunks + [Trim(p.current)] else p.chunks;
      assert q.chunks[|flushed|] == Slices(sentence, max)[0];
      if Progress(p) && p.current == [] {
        var k :| 0 <= k < |p.chunks| && p.chunks[k] != [];
        assert q.chunks[k] == p.chunks[k];
      }
    } else if Progress(p) && p.current == [] {
      assert q.current != [];
    }
  }

  lemma {:induction false} FoldGood(p: Pack, sentences: seq<string>, max: nat)
    requires max >= 1 && Good(p) && AllTrimmed(sentences)
    requires Progress(p) || sentences != []
    ensures Good(Fold(p, sentences, max)) && Progress(Fold(p, sentences, max))
    decreases |sentences|
  {
    if sentences != [] {
      StepGood(p, sentences[0], max);
      FoldGood(Step(p, sentences[0], max), sentences[1..], max);
    }
  }

  lemma FinishHasNonEmpty(p: Pack)
    requires Good(p) && Progress(p)
    ensures NonEmpty(Finish(p)) != []
  {
    var xs := Finish(p);
    if p.current != [] {
      TrimOfTrimmed(p.current);
      NonEmptyHas(xs, |xs| - 1);
    } else {
      var k :| 0 <= k < |p.chunks| && p.chunks[k] != [];
      NonEmptyHas(xs, k);
    }
  }

  lemma {:induction false} NonEmptyHas(xs: seq<string>, k: nat)
    requires k < |xs| && xs[k] != []
    ensures NonEmpty(xs) != []
    decreases |xs|
  {
    if xs[0] == [] {
      NonEmptyHas(xs[1..], k - 1);
    }
  }

  // Order: when no sentence exceeds the limit, the chunks joined with " "
  // give back the normalised text.

  /** The chunks the state stands for, pending chunk included. */
  function Flat(p: Pack): seq<string> {
    if p.current != [] then p.chunks + [p.current] else p.chunks
  }

  lemma {:induction false} JoinAppend(xs: seq<string>, ys: seq<string>, sep: string)
    requires |xs| > 0 && |ys| > 0
    ensures Join(xs + ys, sep) == Join(xs, sep) + sep + Join(ys, sep)
    decreases |xs|
  {
    var zs := xs + ys;
    assert zs[0] == xs[0];
    if |xs| == 1 {
      assert zs[1..] == ys;
      assert Join(zs, sep) == xs[0] + sep + Join(ys, sep);
    } else {
      assert zs[1..] == xs[1..] + ys;
      JoinAppend(xs[1..], ys, sep);
      var a, b, c := Join(xs[1..], sep), Join(ys, sep), xs[0] + sep;
      assert Join(zs, sep) == c + (a + sep + b);
      assert Join(xs, sep) == c + a;
      ConcatAssoc(c, a, sep, b);
    }
  }

  lemma ConcatAssoc(c: string, a: string, sep: string, b: string)
    ensures c + (a + sep + b) == (c + a) + sep + b
  {
  }

  lemma StepJoin(p: Pack, sentence: string, max: nat)
    requires max >= 1 && Good(p) && AllTrimmed(p.chunks) && Trimmed(sentence) && |sentence| <= max
    ensures Join(Flat(Step(p, sentence, max)), " ") == Join(Flat(p) + [sentence], " ")
    ensures |Flat(Step(p, sentence, max))| > 0
    ensures Good(Step(p, sentence, max)) && AllTrimmed(Step(p, sentence, max).chunks)
  {
    StepGood(p, sentence, max);
    if p.current != [] && |p.current + " " + sentence| <= max {
      MergedJoin(p, sentence, max);
    } else {
      PushedJoin(p, sentence, max);
    }
  }

  /** A sentence that does not join the pending text leaves the pieces
      followed by the sentence. */
  lemma PushedJoin(p: Pack, sentence: string, max: nat)
    requires max >= 1 && Good(p) && AllTrimmed(p.chunks) && Trimmed(sentence) && |sentence| <= max
    requires p.current == [] || |p.current + " " + sentence| > max
    ensures Flat(Step(p, sentence, max)) == Flat(p) + [sentence]
    ensures AllTrimmed(Step(p, sentence, max).chunks)
  {
    if p.current != [] {
      TrimOfTrimmed(p.current);
    }
  }

  /** A sentence appended to the pending text joins it after one space. */
  lemma MergedJoin(p: Pack, sentence: string, max: nat)
    requires max >= 1 && Trimmed(sentence) && |sentence| <= max
    requires p.current != [] && |p.current + " " + sentence| <= max
    ensures Join(Flat(Step(p, sentence, max)), " ") == Join(Flat(p) + [sentence], " ")
    ensures Step(p, sentence, max).chunks == p.chunks
  {
    var next := p.current + " " + sentence;
    assert Flat(Step(p, sentence, max)) == p.chunks + [next];
    if p.chunks == [] {
      PairJoin(p.current, sentence);
      assert Flat(p) == [p.current];
    } else {
      JoinSnoc(p.chunks, next, " ");
      JoinSnoc(p.chunks + [p.current], sentence, " ");
      JoinSnoc(p.chunks, p.current, " ");
      assert Flat(p) + [sentence] == (p.chunks + [p.current]) + [sentence];
    }
  }

  /** Two pieces joined with a space. */
  lemma PairJoin(a: string, b: string)
    ensures Join([a] + [b], " ") == a + " " + b
  {
    var xs := [a] + [b];
    assert xs[0] == a && xs[1..] == [b];
  }

  lemma {:induction false} FoldShape(p: Pack, sentences: seq<string>, max: nat)
    requires max >= 1 && Good(p) && AllTrimmed(p.chunks) && AllTrimmed(sentences)
    requires forall k :: 0 <= k < |sentences| ==> |sentences[k]| <= max
    ensures Good(Fold(p, sentences, max)) && AllTrimmed(Fold(p, sentences, max).chunks)
    decreases |sentences|
  {
    if sentences != [] {
      StepJoin(p, sentences[0], max);
      FoldShape(Step(p, sentences[0], max), sentences[1..], max);
    }
  }

  lemma HeadTail<T>(s: seq<T>)
    requires |s| > 0
    ensures [s[0]] + s[1..] == s
  {
  }

  lemma ConsSplit<T>(a: seq<T>, s: seq<T>)
    requires |s| > 0
    ensures a + s == (a + [s[0]]) + s[1..]
  {
    assert s == [s[0]] + s[1..];
  }

  lemma {:induction false} FoldJoin(p: Pack, sentences: seq<string>, max: nat)
    requires max >= 1 && Good(p) && AllTrimmed(p.chunks) && AllTrimmed(sentences)
    requires forall k :: 0 <= k < |sentences| ==> |sentences[k]| <= max
    ensures Join(Flat(Fold(p, sentences, max)), " ") == Join(Flat(p) + sentences, " ")
    decreases |sentences|
  {
    if sentences == [] {
      assert Flat(p) + sentences == Flat(p);
    } else {
      var s0 := sentences[0];
      var q := Step(p, s0, max);
      var rest := sentences[1..];
      StepJoin(p, s0, max);
      FoldJoin(q, rest, max);
      assert Fold(p, sentences, max) == Fold(q, rest, max);
      var before := Flat(p) + [s0];
      ConsSplit(Flat(p), sentences);
      if rest != [] {
        JoinAppend(Flat(q), rest, " ");
        JoinAppend(before, rest, " ");
      } else {
        assert before + rest == before;
        assert Flat(q) + rest == Flat(q);
      }
    }
  }

  /** Packing sentences that all fit: the chunks joined with " " are the sentences
      joined with " ", and every chunk is trimmed. */
  lemma PackJoin(sentences: seq<string>, max: nat)
    requires max >= 1 && AllTrimmed(sentences)
    requires forall k :: 0 <= k < |sentences| ==> |sentences[k]| <= max
    ensures Join(PackSentences(sentences, max), " ") == Join(sentences, " ")
    ensures AllTrimmed(PackSentences(sentences, max))
  {
    var start := Pack([], []);
    var last := Fold(start, sentences, max);
    FoldJoin(start, sentences, max);
    FoldShape(start, sentences, max);
    assert Flat(start) + sentences == sentences;
    if last.current != [] {
      TrimOfTrimmed(last.current);
    }
    assert Finish(last) == Flat(last);
    assert AllTrimmed(Flat(last));
    assert NonEmpty(Finish(last)) == Finish(last);
  }

  /** No sentence of the normalised text is longer than the limit. */
  predicate SentencesFit(input: string, max: nat) {
    forall k :: 0 <= k < |Sentences(TrimCollapse(input))| ==> |Sentences(TrimCollapse(input))[k]| <= max
  }

  /** Round trip: when every sentence fits, joining the chunks with single spaces
      reproduces the normalised input, so nothing is lost or reordered. */
  lemma ChunksJoinToNormalized(input: string, max: nat)
    requires max >= 1 && SentencesFit(input, max)
    ensures Join(SplitIntoChunks(input, max), " ") == TrimCollapse(input)
    ensures AllTrimmed(SplitIntoChunks(input, max))
  {
    var n := TrimCollapse(input);
    var r := SplitIntoChunks(input, max);
    if n == [] {
      assert r == [];
    } else if |n| <= max {
      ShortChunks(input, max);
    } else {
      LongChunks(input, max);
      LongChunksJoin(n, max);
    }
  }

  lemma ShortChunks(input: string, max: nat)
    requires max >= 1 && TrimCollapse(input) != [] && |TrimCollapse(input)| <= max
    ensures Join(SplitIntoChunks(input, max), " ") == TrimCollapse(input)
    ensures AllTrimmed(SplitIntoChunks(input, max))
  {
    var n := TrimCollapse(input);
    assert SplitIntoChunks(input, max) == [n];
    assert Trimmed(n);
  }

  lemma LongChunks(input: string, max: nat)
    requires max >= 1 && |TrimCollapse(input)| > max
    ensures SplitIntoChunks(input, max) == PackLong(TrimCollapse(input), max)
  {
  }

  lemma LongChunksJoin(n: string, max: nat)
    requires max >= 1 && Clean(n) && n != []
    requires forall k :: 0 <= k < |Sentences(n)| ==> |Sentences(n)[k]| <= max
    ensures Join(PackLong(n, max), " ") == n
    ensures AllTrimmed(PackLong(n, max))
  {
    SentencesTrimmed(n);
    SentencesJoin(n);
    PackJoin(Sentences(n), max);
  }

  /** `sentence.slice(i * max, (i + 1) * max)`, empty past the end. */
  function SliceAt(sentence: string, max: nat, i: nat): string {
    var lo: nat := i * max;
    if lo < |sentence| then sentence[lo .. if lo + max <= |sentence| then lo + max else |sentence|] else []
  }

  lemma MulSucc(n: int, m: int)
    ensures (n + 1) * m == n * m + m
  {
  }

  /** The slicing loop runs once per started block of `max` characters. */
  lemma {:induction false} RawSlicesCount(sentence: string, max: nat)
    requires max >= 1
    ensures (|RawSlices(sentence, max)| - 1) * max < |sentence| <= |RawSlices(sentence, max)| * max
    decreases |sentence|
  {
    if |sentence| > max {
      var n := |RawSlices(sentence[max..], max)|;
      RawSlicesCount(sentence[max..], max);
      assert |RawSlices(sentence, max)| == n + 1;
      MulSucc(n, max);
      MulSucc(n - 1, max);
    } else if sentence != [] {
      assert |RawSlices(sentence, max)| == 1;
    }
  }

  /** Slice `i` starts at offset `i * max`. */
  lemma {:induction false} RawSliceAt(sentence: string, max: nat, i: nat)
    requires max >= 1 && i < |RawSlices(sentence, max)|
    ensures i * max < |sentence| && RawSlices(sentence, max)[i] == SliceAt(sentence, max, i)
    decreases i
  {
    if |sentence| <= max {
      assert i == 0;
    } else if i == 0 {
      assert RawSlices(sentence, max)[0] == sentence[..max];
    } else {
      var rest := sentence[max..];
      RawSliceAt(rest, max, i - 1);
      assert RawSlices(sentence, max)[i] == RawSlices(rest, max)[i - 1];
      SliceAtShift(sentence, max, i);
    }
  }

  /** Slice `i` of a sentence is slice `i - 1` of what follows its first block. */
  lemma SliceAtShift(s: string, max: nat, i: nat)
    requires max >= 1 && |s| > max && i >= 1 && (i - 1) * max < |s| - max
    ensures i * max < |s| && SliceAt(s[max..], max, i - 1) == SliceAt(s, max, i)
  {
    MulSucc(i - 1, max);
    MulSucc(i, max);
    var lo: int := (i - 1) * max;
    var hi: int := if i * max <= |s| - max then i * max else |s| - max;
    assert lo >= 0 && max + lo == i * max;
    assert max + hi == (if (i + 1) * max <= |s| then (i + 1) * max else |s|);
    ShiftSlice(s, max, lo, hi);
  }

  /** Slicing after a dropped prefix of `d` characters shifts the bounds by `d`. */
  lemma ShiftSlice(s: string, d: nat, lo: nat, hi: nat)
    requires d <= |s| && lo <= hi <= |s| - d
    ensures s[d..][lo..hi] == s[d + lo..d + hi]
  {
  }

  /** A sentence over the limit first flushes the pending chunk, then pushes one
      chunk per started block of `max` characters (`LongSentenceChunk` gives each).
      Nothing stays pending. */
  lemma LongSentenceFlushesThenSlices(p: Pack, sentence: string, max: nat)
    requires max >= 1 && |sentence| > max
    ensures Step(p, sentence, max).current == []
    ensures Finish(p) <= Step(p, sentence, max).chunks
    ensures var n := |Step(p, sentence, max).chunks| - |Finish(p)|;
            (n - 1) * max < |sentence| <= n * max
  {
    StepLong(p, sentence, max);
    SlicesAt(sentence, max);
  }

  /** Chunk `i` pushed for a sentence over the limit is its characters `i * max`
      up to `(i + 1) * max`, trimmed. */
  lemma LongSentenceChunk(p: Pack, sentence: string, max: nat, i: nat)
    requires max >= 1 && |sentence| > max
    requires |Finish(p)| + i < |Step(p, sentence, max).chunks|
    ensures i * max < |sentence|
    ensures Step(p, sentence, max).chunks[|Finish(p)| + i] == Trim(SliceAt(sentence, max, i))
  {
    var f := Finish(p);
    var sl := Slices(sentence, max);
    StepLong(p, sentence, max);
    assert (f + sl)[|f| + i] == sl[i];
    SliceIndex(sentence, max, i);
  }

  /** Slice `i` pushed for a long sentence is the trimmed block at offset
      `i * max`. */
  lemma SliceIndex(sentence: string, max: nat, i: nat)
    requires max >= 1 && i < |Slices(sentence, max)|
    ensures i * max < |sentence| && Slices(sentence, max)[i] == Trim(SliceAt(sentence, max, i))
  {
    RawSliceAt(sentence, max, i);
  }

  lemma StepLong(p: Pack, sentence: string, max: nat)
    requires max >= 1 && |sentence| > max
    ensures Step(p, sentence, max) == Pack(Finish(p) + Slices(sentence, max), [])
  {
  }

  /** The pushed slices in closed form: one per started block of `max`
      characters, slice `k` being the trimmed block at offset `k * max`. */
  lemma SlicesAt(sentence: string, max: nat)
    requires max >= 1
    ensures var n := |Slices(sentence, max)|; (n - 1) * max < |sentence| <= n * max
    ensures forall k :: 0 <= k < |Slices(sentence, max)| ==>
              k * max < |sentence| && Slices(sentence, max)[k] == Trim(SliceAt(sentence, max, k))
  {
    RawSlicesCount(sentence, max);
    forall k | 0 <= k < |Slices(sentence, max)|
      ensures k * max < |sentence| && Slices(sentence, max)[k] == Trim(SliceAt(sentence, max, k))
    {
      RawSliceAt(sentence, max, k);
    }
  }

  // ---------------------------------------------------------------------------
  // Long-text translation.

  /** Every chunk sent to `translateText`; the results in chunk order. */
  function TranslateAll(chunks: seq<string>, p: Params, remote: Remote): (r: seq<Result<string, string>>)
    ensures |r| == |chunks|
    ensures forall k :: 0 <= k < |chunks| ==> r[k] == TranslateText(chunks[k], p, remote)
  {
    seq(|chunks|, k requires 0 <= k < |chunks| => TranslateText(chunks[k], p, remote))
  }

  /** `translateLong`: chunk, translate every chunk, join in chunk order with single
      spaces and normalise white space. Fails if any chunk fails. */
  function TranslateLong(input: string, p: Params, remote: Remote): (r: Result<string, string>)
    ensures SplitIntoChunks(input, MaxChunk) == [] ==> r == Success("")
    ensures r.Success? ==> Clean(r.value)
    ensures r.Success? <==> forall k :: 0 <= k < |SplitIntoChunks(input, MaxChunk)| ==>
                                        TranslateText(SplitIntoChunks(input, MaxChunk)[k], p, remote).Success?
  {
    var chunks := SplitIntoChunks(input, MaxChunk);
    if chunks == [] then Success("") else TranslateChunks(chunks, p, remote)
  }

  /** The chunks translated in order, joined with single spaces and white-space
      normalised; the first failure, if any. */
  function TranslateChunks(chunks: seq<string>, p: Params, remote: Remote): (r: Result<string, string>)
    ensures r.Success? ==> Clean(r.value)
    ensures r.Success? <==> forall k :: 0 <= k < |chunks| ==> TranslateText(chunks[k], p, remote).Success?
  {
    var rs := TranslateAll(chunks, p, remote);
    assert (forall k :: 0 <= k < |rs| ==> rs[k].Success?) <==>
           (forall k :: 0 <= k < |chunks| ==> TranslateText(chunks[k], p, remote).Success?);
    match AllOk(rs)
    case Failure(e) => Failure(e)
    case Success(ts) => Success(Squash(Join(ts, " ")))
  }

  /** Whatever each chunk translates to, the result is those translations in chunk
      order, joined with single spaces and white-space normalised. */
  lemma TranslateChunksValue(chunks: seq<string>, p: Params, remote: Remote, ts: seq<string>)
    requires |ts| == |chunks|
    requires forall k :: 0 <= k < |chunks| ==> TranslateText(chunks[k], p, remote) == Success(ts[k])
    ensures TranslateChunks(chunks, p, remote) == Success(Squash(Join(ts, " ")))
  {
    AllOkOfValues(TranslateAll(chunks, p, remote), ts);
  }

  /** Long text with at least one chunk translates to the chunks' translations,
      in chunk order, joined with single spaces and white-space normalised. */
  lemma TranslateLongValue(input: string, p: Params, remote: Remote, ts: seq<string>)
    requires SplitIntoChunks(input, MaxChunk) != []
    requires |ts| == |SplitIntoChunks(input, MaxChunk)|
    requires forall k :: 0 <= k < |ts| ==> TranslateText(SplitIntoChunks(input, MaxChunk)[k], p, remote) == Success(ts[k])
    ensures TranslateLong(input, p, remote) == Success(Squash(Join(ts, " ")))
  {
    TranslateChunksValue(SplitIntoChunks(input, MaxChunk), p, remote, ts);
  }

  /** A remote that echoes the request's input. */
  function EchoResponse(req: Request): Result<Response, string> {
    Success(Response(Some(req.input), None, None, None))
  }

  lemma EchoAll(chunks: seq<string>, p: Params)
    requires AllTrimmed(chunks)
    ensures AllOk(TranslateAll(chunks, p, EchoResponse)) == Success(chunks)
  {
    var rs := TranslateAll(chunks, p, EchoResponse);
    forall k | 0 <= k < |chunks| ensures rs[k] == Success(chunks[k]) {
      EchoOne(chunks[k], p);
    }
    AllOkOfValues(rs, chunks);
  }

  lemma EchoOne(chunk: string, p: Params)
    requires Trimmed(chunk)
    ensures TranslateText(chunk, p, EchoResponse) == Success(chunk)
  {
    TrimOfTrimmed(chunk);
  }

  /** With an echoing remote and sentences that fit, long-text translation returns
      the normalised input: chunk order is translation order. */
  lemma TranslateLongEcho(input: string, p: Params)
    requires SentencesFit(input, MaxChunk)
    ensures TranslateLong(input, p, EchoResponse) == Success(TrimCollapse(input))
  {
    var chunks := SplitIntoChunks(input, MaxChunk);
    var n := TrimCollapse(input);
    if chunks == [] {
      assert n == [];
    } else {
      ChunksJoinToNormalized(input, MaxChunk);
      EchoAll(chunks, p);
      assert AllOk(TranslateAll(chunks, p, EchoResponse)) == Success(chunks);
      assert Join(chunks, " ") == n;
      SquashOfClean(n);
      assert TranslateChunks(chunks, p, EchoResponse) == Success(Squash(Join(chunks, " ")));
    }
  }
}
