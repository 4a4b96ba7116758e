/** User-facing error messages: a fixed English text per pipeline error code,
    translated through the chat service for other languages, falling back to the
    English text whenever translation fails or comes back blank. */
module LocalizedErrors {
  import opened Wrappers
  import opened Text

  const UnknownMessage := "Unknown error."

  /** `BASE_MESSAGES`: the English message of each error code. */
  const BaseMessages: map<string, string> := map[
    "NOT_A_PRODUCT" := "Ask about any product review or comparison (phone, laptop, TV, earbuds, etc).",
    "NO_REVIEWS" := "This product doesn't have enough reviews yet. Try another popular product.",
    "INSUFFICIENT_USER_REVIEW_EVIDENCE" := "Not enough user-review evidence. Try another product.",
    "RATE_LIMITED" := "Daily query limit reached",
    "STT_FAILED" := "Failed to transcribe audio",
    "SERVICE_UNAVAILABLE" := "Unable to process request right now. Please try again in a moment.",
    "INVALID_INPUT" := "Input is invalid.",
    "UNKNOWN" := UnknownMessage]

  /** The base message of a code, if it has one. */
  function BaseMessage(code: string): (r: Option<string>)
    ensures r.Some? <==> code in {"NOT_A_PRODUCT", "NO_REVIEWS", "INSUFFICIENT_USER_REVIEW_EVIDENCE",
                                  "RATE_LIMITED", "STT_FAILED", "SERVICE_UNAVAILABLE", "INVALID_INPUT", "UNKNOWN"}
    ensures r.Some? ==> |r.value| > 10
  {
    if code in BaseMessages then Some(BaseMessages[code]) else None
  }

  /** The English message for a code; unknown codes get the UNKNOWN message. */
  function Fallback(code: string): (r: string)
    ensures BaseMessage(code).None? ==> r == UnknownMessage
    ensures BaseMessage(code).Some? ==> r == BaseMessage(code).value
    ensures r != []
  {
    BaseMessage(code).GetOr(UnknownMessage)
  }

  /** `needsTranslation`: a non-empty code other than "en-IN". */
  predicate NeedsTranslation(lang: string) {
    lang != [] && lang != "en-IN"
  }

  /** A chat request: system prompt and user message. */
  datatype ChatRequest = ChatRequest(system: string, user: string)

  /** The chat service; `Failure` is any thrown error. */
  type Chat = ChatRequest -> Result<string, string>

  const TranslatorPrompt :=
    "You are an expert translator. Return only translated text with no quotes and no extra explanation."

  function TranslationRequest(lang: string, message: string): (q: ChatRequest)
    ensures q.system == TranslatorPrompt
    ensures EndsWith(q.user, lang + ": " + message)
  {
    var tail := lang + ": " + message;
    var user := "Translate this error message from English to " + tail;
    assert user[|user| - |tail|..] == tail;
    ChatRequest(TranslatorPrompt, user)
  }

  /** `getLocalizedErrorMessage`. */
  function LocalizedMessage(code: string, lang: string, chat: Chat): (r: string)
    ensures !NeedsTranslation(lang) ==> r == Fallback(code)
    ensures NeedsTranslation(lang) ==>
              var reply := chat(TranslationRequest(lang, Fallback(code)));
              if reply.Success? && Trim(reply.value) != [] then r == Trim(reply.value) else r == Fallback(code)
  {
    var fallback := Fallback(code);
    if !NeedsTranslation(lang) then fallback
    else
      match chat(TranslationRequest(lang, fallback))
      case Failure(_) => fallback
      case Success(text) => if Trim(text) == [] then fallback else Trim(text)
  }

  /** The message is never empty, whatever the chat service does. */
  lemma MessageNeverBlank(code: string, lang: string, chat: Chat)
    ensures LocalizedMessage(code, lang, chat) != []
  {
  }

  /** English (or no language) never consults the chat service. */
  lemma EnglishNoChat(code: string, lang: string, chat: Chat, other: Chat)
    requires lang == [] || lang == "en-IN"
    ensures LocalizedMessage(code, lang, chat) == LocalizedMessage(code, lang, other)
  {
  }

  /** A failing chat service gives the English message. */
  lemma ChatFailureFallsBack(code: string, lang: string, chat: Chat)
    requires forall q :: chat(q).Failure?
    ensures LocalizedMessage(code, lang, chat) == Fallback(code)
  {
  }
}
