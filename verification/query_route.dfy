/** The query endpoint: the rate check, reading the request (JSON text or a
    multipart audio upload), then the events it streams. Every path the producer
    returns from ends with one "done" event carrying the remaining quota. */
module QueryRoute {
  import opened Wrappers
  import opened Text
  import opened Json
  import RateLimit
  import EventStream
  import Wav

  const MaxAudioUploadBytes: nat := 10 * 1024 * 1024
  const English := "en-IN"
  const EmptyText := "Text query cannot be empty"
  const AudioRequired := "Audio file is required"
  const AudioTooLarge := "Audio file exceeds 10MB limit"
  const UnsupportedType := "Unsupported content type"
  const SttFallback := "Failed to transcribe audio"
  /** What reading `.text` of `null` throws. */
  const NullRead := "Cannot read properties of null (reading 'text')"

  /** An uploaded file: its declared size and its bytes. */
  datatype AudioFile = AudioFile(size: nat, bytes: seq<Wav.Byte>)

  /** What the handler can learn from the request: the content-type header (""
      when absent); the body as JSON (`None` when it does not parse); the body as a
      form, which is a failure when it cannot be read as one, and otherwise the
      "audio" entry when it is a file. */
  datatype Request = Request(contentType: string, json: Option<Json>, form: Result<Option<AudioFile>, string>)

  /** `QueryPayload`. */
  datatype Payload = Text(text: string) | Audio(audio: seq<Wav.Byte>) | Invalid(message: string)

  /** `typeof json.text === "string" ? json.text.trim() : ""` on a value that is
      not `null`. */
  function TextField(json: Json): (r: string)
    ensures NoEdgeSpace(r)
    ensures AsString(Get(json, "text")).None? ==> r == []
    ensures AsString(Get(json, "text")).Some? ==> r == Trim(AsString(Get(json, "text")).value)
  {
    match AsString(Get(json, "text"))
    case None => []
    case Some(t) => Trim(t)
  }

  /** The JSON branch once the body is known not to be `null`. */
  function TextPayload(json: Json): (r: Payload)
    ensures r.Text? || r == Invalid(EmptyText)
    ensures r.Text? ==> r.text != [] && NoEdgeSpace(r.text)
  {
    var text := TextField(json);
    if text == [] then Invalid(EmptyText) else Text(text)
  }

  /** The multipart branch. */
  function FormPayload(form: Result<Option<AudioFile>, string>): (r: Result<Payload, string>)
    ensures form.Failure? <==> r.Failure?
    ensures r.Success? && r.value.Audio? ==> form.value.Some? && form.value.value.size <= MaxAudioUploadBytes
                                             && r.value.audio == form.value.value.bytes
    ensures form == Success(None) ==> r == Success(Invalid(AudioRequired))
    ensures form.Success? && form.value.Some? && form.value.value.size > MaxAudioUploadBytes ==>
              r == Success(Invalid(AudioTooLarge))
    ensures form.Success? && form.value.Some? && form.value.value.size <= MaxAudioUploadBytes ==>
              r == Success(Audio(form.value.value.bytes))
  {
    match form
    case Failure(e) => Failure(e)
    case Success(None) => Success(Invalid(AudioRequired))
    case Success(Some(file)) =>
      if file.size > MaxAudioUploadBytes then Success(Invalid(AudioTooLarge))
      else Success(Audio(file.bytes))
  }

  /** `parsePayload` as written: a body of `null` makes reading `.text` throw. */
  function ParsePayloadAsWritten(req: Request): (r: Result<Payload, string>)
    ensures Contains(req.contentType, "application/json") && req.json == Some(JNull) ==> r == Failure(NullRead)
  {
    if Contains(req.contentType, "application/json") then
      var json := req.json.GetOr(JObject([]));
      if json == JNull then Failure(NullRead) else Success(TextPayload(json))
    else if Contains(req.contentType, "multipart/form-data") then FormPayload(req.form)
    else Success(Invalid(UnsupportedType))
  }

  /** `parsePayload` with a `null` body read as one without text. Only an
      unreadable form throws. */
  function ParsePayload(req: Request): (r: Result<Payload, string>)
    ensures r.Failure? ==>
              !Contains(req.contentType, "application/json") && Contains(req.contentType, "multipart/form-data")
              && req.form.Failure?
    ensures r.Success? && r.value.Text? ==>
              Contains(req.contentType, "application/json") && r.value.text != [] && NoEdgeSpace(r.value.text)
    ensures !Contains(req.contentType, "application/json") && !Contains(req.contentType, "multipart/form-data") ==>
              r == Success(Invalid(UnsupportedType))
  {
    if Contains(req.contentType, "application/json") then Success(TextPayload(req.json.GetOr(JObject([]))))
    else if Contains(req.contentType, "multipart/form-data") then FormPayload(req.form)
    else Success(Invalid(UnsupportedType))
  }

  /** The two readings differ only on a `null` JSON body. */
  lemma ParsePayloadAgrees(req: Request)
    requires !(Contains(req.contentType, "application/json") && req.json == Some(JNull))
    ensures ParsePayloadAsWritten(req) == ParsePayload(req)
  {
  }

  /** Speech-to-text: transcript and language, or a failure carrying the message
      when the thrown value is an `Error`. */
  type Stt = seq<Wav.Byte> -> Result<(string, string), Option<string>>

  function Num(n: int): Json {
    JNumber(Finite(n as real))
  }

  function ErrorData(code: string, message: string): Json {
    JObject([("code", JString(code)), ("message", JString(message))])
  }

  function DoneEvent(remaining: nat): EventStream.Event {
    EventStream.Event(EventStream.Done, JObject([("cached", JBool(false)), ("remaining", Num(remaining))]))
  }

  function RateLimitedEvent(rate: RateLimit.RateLimitResult): EventStream.Event {
    EventStream.Event(EventStream.Error, JObject([("code", JString("RATE_LIMITED")), ("message", JString("Daily query limit reached")),
                                                  ("remaining", Num(rate.remaining)), ("resetAt", Num(rate.resetAt))]))
  }

  const Listening := EventStream.Event(EventStream.Status, JObject([("status", JString("listening"))]))

  function Understood(transcript: string, language: string): EventStream.Event {
    EventStream.Event(EventStream.Status, JObject([("status", JString("understood")),
      ("context", JObject([("transcript", JString(transcript)), ("language", JString(language))]))]))
  }

  /** What the producer emits, and how it ends, for a rate decision and a read
      request (read only when the request is allowed). */
  function Produce(rate: RateLimit.RateLimitResult, payload: Result<Payload, string>, stt: Stt): (r: (seq<EventStream.Event>, EventStream.Outcome))
    ensures !rate.allowed ==> r == ([RateLimitedEvent(rate), DoneEvent(rate.remaining)], EventStream.Returned)
    ensures rate.allowed && payload.Failure? ==> r == ([], EventStream.Threw(Some(payload.error)))
    ensures rate.allowed && payload.Success? && payload.value.Invalid? ==>
              r == ([EventStream.Event(EventStream.Error, ErrorData("INVALID_INPUT", payload.value.message)), DoneEvent(rate.remaining)],
                    EventStream.Returned)
    ensures rate.allowed && payload.Success? && payload.value.Text? ==>
              r == ([Listening, Understood(payload.value.text, English), DoneEvent(rate.remaining)], EventStream.Returned)
    ensures rate.allowed && payload.Success? && payload.value.Audio? ==>
              |r.0| == 3 && r.0[0] == Listening && r.0[2] == DoneEvent(rate.remaining) && r.1.Returned?
              && (stt(payload.value.audio).Success? ==>
                    r.0[1] == Understood(stt(payload.value.audio).value.0, stt(payload.value.audio).value.1))
              && (stt(payload.value.audio).Failure? ==>
                    r.0[1] == EventStream.Event(EventStream.Error,
                                ErrorData("STT_FAILED", stt(payload.value.audio).error.GetOr(SttFallback))))
  {
    var done := DoneEvent(rate.remaining);
    if !rate.allowed then ([RateLimitedEvent(rate), done], EventStream.Returned)
    else
      match payload
      case Failure(e) => ([], EventStream.Threw(Some(e)))
      case Success(p) =>
        match p
        case Invalid(message) => ([EventStream.Event(EventStream.Error, ErrorData("INVALID_INPUT", message)), done], EventStream.Returned)
        case Text(text) => ([Listening, Understood(text, English), done], EventStream.Returned)
        case Audio(audio) =>
          match stt(audio)
          case Success(heard) => ([Listening, Understood(heard.0, heard.1), done], EventStream.Returned)
          case Failure(m) =>
            ([Listening, EventStream.Event(EventStream.Error, ErrorData("STT_FAILED", m.GetOr(SttFallback))), done],
             EventStream.Returned)
  }

  /** `POST` once the rate check has answered: the check (which counts this request
      whatever it holds), then the events on the stream, with the request read by
      `ParsePayload`. */
  function Post(store: RateLimit.Store, ipHash: string, nowMs: int, req: Request, stt: Stt): (r: (seq<EventStream.Event>, RateLimit.Store))
    ensures r.1 == RateLimit.CheckRateLimit(store, ipHash, nowMs).1
  {
    var (rate, store') := RateLimit.CheckRateLimit(store, ipHash, nowMs);
    var (emitted, outcome) := Produce(rate, ParsePayload(req), stt);
    (EventStream.StreamEvents(emitted, outcome), store')
  }

  /** `POST` once the rate check has answered, with the request read as the code
      reads it. */
  function PostAsWritten(store: RateLimit.Store, ipHash: string, nowMs: int, req: Request, stt: Stt): (r: (seq<EventStream.Event>, RateLimit.Store))
    ensures r.1 == RateLimit.CheckRateLimit(store, ipHash, nowMs).1
  {
    var (rate, store') := RateLimit.CheckRateLimit(store, ipHash, nowMs);
    var (emitted, outcome) := Produce(rate, ParsePayloadAsWritten(req), stt);
    (EventStream.StreamEvents(emitted, outcome), store')
  }

  /** What the client gets from `POST`: a rejected request, when the awaited rate
      check throws before any stream exists, or the event stream. */
  datatype Response = Rejected(error: string) | Streamed(events: seq<EventStream.Event>)

  /** `POST` against a store whose calls may reject: a rejected rate check rejects
      the request, with no stream and so no "done"; otherwise the stream of `Post`. */
  function Handle(store: RateLimit.Store, ipHash: string, nowMs: int, faults: RateLimit.Faults, req: Request, stt: Stt): (r: (Response, RateLimit.Store))
    ensures r.1 == RateLimit.TryCheckRateLimit(store, ipHash, nowMs, faults).1
    ensures r.0.Rejected? <==> RateLimit.TryCheckRateLimit(store, ipHash, nowMs, faults).0.Failure?
    ensures r.0.Rejected? ==> r.0.error == RateLimit.TryCheckRateLimit(store, ipHash, nowMs, faults).0.error
    ensures r.0.Streamed? ==> r == (Streamed(Post(store, ipHash, nowMs, req, stt).0), Post(store, ipHash, nowMs, req, stt).1)
  {
    match RateLimit.TryCheckRateLimit(store, ipHash, nowMs, faults)
    case (Failure(e), store') => (Rejected(e), store')
    case (Success(rate), store') =>
      var (emitted, outcome) := Produce(rate, ParsePayload(req), stt);
      (Streamed(EventStream.StreamEvents(emitted, outcome)), store')
  }

  /** `Handle` with the request read as the code reads it. */
  function HandleAsWritten(store: RateLimit.Store, ipHash: string, nowMs: int, faults: RateLimit.Faults, req: Request, stt: Stt): (r: (Response, RateLimit.Store))
    ensures r.1 == RateLimit.TryCheckRateLimit(store, ipHash, nowMs, faults).1
    ensures r.0.Rejected? <==> RateLimit.TryCheckRateLimit(store, ipHash, nowMs, faults).0.Failure?
    ensures r.0.Rejected? ==> r.0.error == RateLimit.TryCheckRateLimit(store, ipHash, nowMs, faults).0.error
    ensures r.0.Streamed? ==> r == (Streamed(PostAsWritten(store, ipHash, nowMs, req, stt).0), PostAsWritten(store, ipHash, nowMs, req, stt).1)
  {
    match RateLimit.TryCheckRateLimit(store, ipHash, nowMs, faults)
    case (Failure(e), store') => (Rejected(e), store')
    case (Success(rate), store') =>
      var (emitted, outcome) := Produce(rate, ParsePayloadAsWritten(req), stt);
      (Streamed(EventStream.StreamEvents(emitted, outcome)), store')
  }

  /** With a store that answers every call, the client gets `Post`'s stream, which
      ends with one "done" whenever the request can be read. */
  lemma HandleStreams(store: RateLimit.Store, ipHash: string, nowMs: int, req: Request, stt: Stt)
    ensures Handle(store, ipHash, nowMs, RateLimit.NoFaults, req, stt)
            == (Streamed(Post(store, ipHash, nowMs, req, stt).0), Post(store, ipHash, nowMs, req, stt).1)
    ensures ParsePayload(req).Success? ==>
              DoneOnceLast(Handle(store, ipHash, nowMs, RateLimit.NoFaults, req, stt).0.events,
                           RateLimit.CheckRateLimit(store, ipHash, nowMs).0.remaining)
  {
    RateLimit.NoFaultsChecks(store, ipHash, nowMs);
    if ParsePayload(req).Success? {
      DoneExactlyOnceAtEnd(store, ipHash, nowMs, req, stt);
    }
  }

  /** "done" comes exactly once and last, carrying the remaining quota. */
  predicate DoneOnceLast(events: seq<EventStream.Event>, remaining: nat) {
    |events| >= 2 && events[|events| - 1] == DoneEvent(remaining)
    && forall k :: 0 <= k < |events| - 1 ==> events[k].kind != EventStream.Done
  }

  /** Whenever the request can be read (an unreadable form is the one case left),
      the stream ends with a single "done" carrying the quota the rate check left. */
  lemma DoneExactlyOnceAtEnd(store: RateLimit.Store, ipHash: string, nowMs: int, req: Request, stt: Stt)
    requires ParsePayload(req).Success?
    ensures DoneOnceLast(Post(store, ipHash, nowMs, req, stt).0, RateLimit.CheckRateLimit(store, ipHash, nowMs).0.remaining)
  {
    var rate := RateLimit.CheckRateLimit(store, ipHash, nowMs).0;
    var (emitted, outcome) := Produce(rate, ParsePayload(req), stt);
    assert outcome.Returned?;
  }

  /** A request over the limit gets [RATE_LIMITED, done] whatever it holds: the body
      is never read. */
  lemma RateLimitedIgnoresRequest(store: RateLimit.Store, ipHash: string, nowMs: int, req: Request, other: Request, stt: Stt)
    requires !RateLimit.CheckRateLimit(store, ipHash, nowMs).0.allowed
    ensures Post(store, ipHash, nowMs, req, stt) == PostAsWritten(store, ipHash, nowMs, other, stt)
    ensures var rate := RateLimit.CheckRateLimit(store, ipHash, nowMs).0;
            Post(store, ipHash, nowMs, req, stt).0 == [RateLimitedEvent(rate), DoneEvent(rate.remaining)]
  {
  }

  /** A JSON body of `null` (a well-formed JSON text) makes the code throw while
      reading it: the stream carries one UNKNOWN error and no "done", so the client
      never completes. Read as a body without text, it gets [INVALID_INPUT, done]. */
  lemma NullBodyLosesDone(store: RateLimit.Store, ipHash: string, nowMs: int, stt: Stt)
    requires RateLimit.CheckRateLimit(store, ipHash, nowMs).0.allowed
    ensures var req := Request("application/json", Some(JNull), Success(None));
            var asWritten := PostAsWritten(store, ipHash, nowMs, req, stt).0;
            var remaining := RateLimit.CheckRateLimit(store, ipHash, nowMs).0.remaining;
            |asWritten| == 1 && asWritten[0].kind == EventStream.Error
            && Get(asWritten[0].data, "code") == Some(JString(EventStream.UnknownCode))
            && Post(store, ipHash, nowMs, req, stt).0
               == [EventStream.Event(EventStream.Error, ErrorData("INVALID_INPUT", EmptyText)), DoneEvent(remaining)]
  {
    var req := Request("application/json", Some(JNull), Success(None));
    assert StartsWith(req.contentType, "application/json");
    assert TextField(JNull) == [];
  }
}
