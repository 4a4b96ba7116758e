/** `synthesizeReview`: one chat call asking for strict JSON, and when its reply
    cannot be read as a valid review, a second call asking for the plain-text
    heading format, read by the text fallback. The chat service and the JSON
    parser are parameters. */
module Synthesize {
  import opened Wrappers
  import opened Text
  import opened Json
  import Unicode
  import Urls
  import Sources
  import opened Reviews
  import SynthesisPrompt
  import ReviewShape
  import TextFallback

  /** The two system prompts, by what they ask for; their wording is not modelled. */
  datatype SystemPrompt = StrictJson | PlainTextHeadings

  /** One chat completion request: system prompt, user message, temperature. */
  datatype Request = Request(system: SystemPrompt, user: string, temperature: real)

  /** The chat service: the reply text, or the message of what it threw. */
  type Chat = Request -> Result<string, string>

  datatype Stage = InitialChat | FallbackTextParse

  /** `SynthesisError`: a failed chat call at a stage, or a schema failure with
      its issues. */
  datatype SynthesisError = ChatFailed(stage: Stage, error: string) | SchemaFailed(issues: seq<string>)

  /** The calls made and what came of them. */
  datatype Run = Run(requests: seq<Request>, outcome: Result<Review, SynthesisError>)

  const InitialTemperature: real := 0.3
  const FallbackTemperature: real := 0.0
  const MalformedHint := "If context is malformed, " + "still produce best-effort structured output."

  /** The message each error carries. */
  function Message(e: SynthesisError): (r: string)
    ensures e.SchemaFailed? <==> r == "Synthesis schema validation failed"
  {
    match e
    case ChatFailed(InitialChat, _) => "Synthesis chat call failed"
    case ChatFailed(FallbackTextParse, _) => "Failed to synthesize review"
    case SchemaFailed(_) => "Synthesis schema validation failed"
  }

  /** The user message of the fallback call: the product, a blank line, the
      first reply as context, a blank line, the closing hint. */
  function FallbackUserPrompt(productName: string, content: string): (r: string)
    ensures r == "Product: " + productName + "\n\nContext:\n" + content + "\n\n" + MalformedHint
  {
    var lines := ["Product: " + productName, "", "Context:", content, "", MalformedHint];
    assert Join(lines[5..], "\n") == MalformedHint;
    assert Join(lines[4..], "\n") == "" + "\n" + MalformedHint;
    assert Join(lines[3..], "\n") == content + "\n" + ("" + "\n" + MalformedHint);
    assert Join(lines[2..], "\n") == "Context:" + "\n" + (content + "\n" + ("" + "\n" + MalformedHint));
    assert Join(lines[1..], "\n") == "" + "\n" + ("Context:" + "\n" + (content + "\n" + ("" + "\n" + MalformedHint)));
    Join(lines, "\n")
  }

  /** The first reply sits whole in the fallback message, right after the
      context heading. */
  lemma ReplyInFallbackPrompt(productName: string, content: string)
    ensures var head := "Product: " + productName + "\n\nContext:\n";
            var r := FallbackUserPrompt(productName, content);
            && |r| == |head| + |content| + 2 + |MalformedHint|
            && r[..|head|] == head
            && r[|head|..|head| + |content|] == content
  {
    var head := "Product: " + productName + "\n\nContext:\n";
    var tail := "\n\n" + MalformedHint;
    assert FallbackUserPrompt(productName, content) == head + content + tail;
  }

  /** The first reply read as a review: the braced object in it, parsed as JSON
      and coerced; any failure on the way is a failure. */
  function ReadJsonReply(content: string, sources: seq<Sources.NormalizedSource>, parseJson: string -> Option<Json>,
                         parse: string -> Num, url: Urls.UrlParser): (r: Option<Review>)
    ensures r.Some? ==> ReviewShape.Valid(r.value, url)
    ensures r.Some? <==> SynthesisPrompt.ExtractJsonObject(content).Success?
                         && parseJson(SynthesisPrompt.ExtractJsonObject(content).value).Some?
                         && ReviewShape.Valid(ReviewShape.Shape(parseJson(SynthesisPrompt.ExtractJsonObject(content).value).value, sources, parse, url), url)
  {
    match SynthesisPrompt.ExtractJsonObject(content)
    case Failure(_) => None
    case Success(body) =>
      match parseJson(body)
      case None => None
      case Some(value) =>
        match ReviewShape.CoerceReviewShape(value, sources, parse, url)
        case Failure(_) => None
        case Success(rv) => Some(rv)
  }

  /** Everything after the first request, given its user message. */
  function Respond(productName: string, userPrompt: string, sources: seq<Sources.NormalizedSource>, chat: Chat,
                   parseJson: string -> Option<Json>, env: Unicode.Env, parse: string -> Num, url: Urls.UrlParser): (r: Run)
    ensures 1 <= |r.requests| <= 2
    ensures r.requests[0] == Request(StrictJson, userPrompt, InitialTemperature)
    ensures r.outcome.Success? ==> ReviewShape.Valid(r.outcome.value, url)
    ensures chat(r.requests[0]).Failure? ==>
              |r.requests| == 1 && r.outcome == Failure(ChatFailed(InitialChat, chat(r.requests[0]).error))
    ensures |r.requests| == 2 <==>
              chat(r.requests[0]).Success? && ReadJsonReply(chat(r.requests[0]).value, sources, parseJson, parse, url).None?
    ensures |r.requests| == 2 ==>
              r.requests[1] == Request(PlainTextHeadings, FallbackUserPrompt(productName, chat(r.requests[0]).value), FallbackTemperature)
    ensures |r.requests| == 1 && r.outcome.Success? ==>
              Some(r.outcome.value) == ReadJsonReply(chat(r.requests[0]).value, sources, parseJson, parse, url)
    ensures chat(r.requests[0]).Success? && ReadJsonReply(chat(r.requests[0]).value, sources, parseJson, parse, url).Some? ==>
              |r.requests| == 1 && r.outcome == Success(ReadJsonReply(chat(r.requests[0]).value, sources, parseJson, parse, url).value)
    ensures |r.requests| == 2 ==> r.outcome == FallbackOutcome(chat(r.requests[1]), sources, env, parse, url)
    ensures r.outcome.Failure? && r.outcome.error.SchemaFailed? ==>
              |r.requests| == 2 && r.outcome.error.issues != []
    ensures r.outcome.Failure? && r.outcome.error.ChatFailed? ==>
              (r.outcome.error.stage == InitialChat <==> |r.requests| == 1)
  {
    var first := Request(StrictJson, userPrompt, InitialTemperature);
    match chat(first)
    case Failure(e) => Run([first], Failure(ChatFailed(InitialChat, e)))
    case Success(content) =>
      match ReadJsonReply(content, sources, parseJson, parse, url)
      case Some(rv) => Run([first], Success(rv))
      case None =>
        var second := Request(PlainTextHeadings, FallbackUserPrompt(productName, content), FallbackTemperature);
        Run([first, second], FallbackOutcome(chat(second), sources, env, parse, url))
  }

  /** What the text-format call's reply comes to. */
  function FallbackOutcome(reply: Result<string, string>, sources: seq<Sources.NormalizedSource>, env: Unicode.Env,
                           parse: string -> Num, url: Urls.UrlParser): (r: Result<Review, SynthesisError>)
    ensures reply.Failure? ==> r == Failure(ChatFailed(FallbackTextParse, reply.error))
    ensures reply.Success? ==> (r.Success? <==> TextFallback.ParseTextFallback(env, reply.value, sources, parse, url).Success?)
    ensures reply.Success? && r.Success? ==> r.value == TextFallback.ParseTextFallback(env, reply.value, sources, parse, url).value
    ensures reply.Success? && r.Failure? ==>
              r.error == SchemaFailed(TextFallback.ParseTextFallback(env, reply.value, sources, parse, url).error)
    ensures r.Success? ==> ReviewShape.Valid(r.value, url)
    ensures r.Failure? && r.error.SchemaFailed? ==> r.error.issues != []
    ensures r.Failure? && r.error.ChatFailed? ==> r.error.stage == FallbackTextParse
  {
    match reply
    case Failure(e) => Failure(ChatFailed(FallbackTextParse, e))
    case Success(text) =>
      var parsed := TextFallback.ParseTextFallback(env, text, sources, parse, url);
      if parsed.Success? then Success(parsed.value) else Failure(SchemaFailed(parsed.error))
  }

  /** `synthesizeReview`: compact the sources, ask for JSON, fall back to the
      text format once. The returned prompt sources are the compaction the first
      request was built from. */
  method SynthesizeReview(productName: string, sources: seq<Sources.NormalizedSource>, chat: Chat,
                          parseJson: string -> Option<Json>, env: Unicode.Env, parse: string -> Num, url: Urls.UrlParser)
    returns (compacted: seq<SynthesisPrompt.PromptSource>, run: Run)
    ensures |compacted| == |sources| && SynthesisPrompt.Sum(SynthesisPrompt.Lengths(compacted)) <= SynthesisPrompt.MaxTotalChars
    ensures 1 <= |run.requests| <= 2
    ensures run.requests[0] == Request(StrictJson, SynthesisPrompt.UserPrompt(productName, compacted), InitialTemperature)
    ensures run.outcome.Success? ==> ReviewShape.Valid(run.outcome.value, url)
    ensures chat(run.requests[0]).Failure? ==> |run.requests| == 1 && run.outcome.Failure?
    ensures |run.requests| == 2 ==> run.requests[1].user == FallbackUserPrompt(productName, chat(run.requests[0]).value)
    ensures run == Respond(productName, SynthesisPrompt.UserPrompt(productName, compacted), sources, chat, parseJson, env, parse, url)
  {
    var allowance;
    compacted, allowance := SynthesisPrompt.CompactSources(sources);
    run := Respond(productName, SynthesisPrompt.UserPrompt(productName, compacted), sources, chat, parseJson, env, parse, url);
  }

  /** A first reply holding a valid review as its only braced object, with any
      text around it, is that review: no second call is made. */
  lemma JsonReplyUsed(productName: string, userPrompt: string, sources: seq<Sources.NormalizedSource>, chat: Chat,
                      parseJson: string -> Option<Json>, env: Unicode.Env, parse: string -> Num, url: Urls.UrlParser,
                      before: string, body: string, after: string, value: Json)
    requires '{' !in before && '}' !in after
    requires chat(Request(StrictJson, userPrompt, InitialTemperature)) == Success(before + "{" + body + "}" + after)
    requires parseJson("{" + body + "}") == Some(value)
    requires ReviewShape.Valid(ReviewShape.Shape(value, sources, parse, url), url)
    ensures Respond(productName, userPrompt, sources, chat, parseJson, env, parse, url)
            == Run([Request(StrictJson, userPrompt, InitialTemperature)], Success(ReviewShape.Shape(value, sources, parse, url)))
  {
    var content := before + "{" + body + "}" + after;
    ReadAround(before, body, after, sources, parseJson, parse, url, value);
    assert chat(Request(StrictJson, userPrompt, InitialTemperature)) == Success(content);
  }

  lemma ReadAround(before: string, body: string, after: string, sources: seq<Sources.NormalizedSource>,
                   parseJson: string -> Option<Json>, parse: string -> Num, url: Urls.UrlParser, value: Json)
    requires '{' !in before && '}' !in after
    requires parseJson("{" + body + "}") == Some(value)
    requires ReviewShape.Valid(ReviewShape.Shape(value, sources, parse, url), url)
    ensures ReadJsonReply(before + "{" + body + "}" + after, sources, parseJson, parse, url)
            == Some(ReviewShape.Shape(value, sources, parse, url))
  {
    SynthesisPrompt.ExtractAround(before, body, after);
    ReadObject(before + "{" + body + "}" + after, "{" + body + "}", sources, parseJson, parse, url, value);
  }

  lemma ReadObject(content: string, braced: string, sources: seq<Sources.NormalizedSource>,
                   parseJson: string -> Option<Json>, parse: string -> Num, url: Urls.UrlParser, value: Json)
    requires SynthesisPrompt.ExtractJsonObject(content) == Success(braced)
    requires parseJson(braced) == Some(value)
    requires ReviewShape.Valid(ReviewShape.Shape(value, sources, parse, url), url)
    ensures ReadJsonReply(content, sources, parseJson, parse, url) == Some(ReviewShape.Shape(value, sources, parse, url))
  {
    var rv := ReviewShape.Shape(value, sources, parse, url);
    assert ReviewShape.CoerceReviewShape(value, sources, parse, url) == Success(rv);
  }

  /** A reply with no braced object always leads to the text-format call, and
      what that call returns decides the outcome. */
  lemma NoObjectFallsBack(productName: string, userPrompt: string, sources: seq<Sources.NormalizedSource>, chat: Chat,
                          parseJson: string -> Option<Json>, env: Unicode.Env, parse: string -> Num, url: Urls.UrlParser,
                          content: string)
    requires '{' !in content
    requires chat(Request(StrictJson, userPrompt, InitialTemperature)) == Success(content)
    ensures var r := Respond(productName, userPrompt, sources, chat, parseJson, env, parse, url);
            && |r.requests| == 2
            && (chat(r.requests[1]).Failure? ==> r.outcome == Failure(ChatFailed(FallbackTextParse, chat(r.requests[1]).error)))
            && (chat(r.requests[1]).Success? ==>
                  r.outcome.Success? == TextFallback.ParseTextFallback(env, chat(r.requests[1]).value, sources, parse, url).Success?)
  {
  }
}
