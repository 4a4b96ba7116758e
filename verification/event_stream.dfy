/** The server side of the query event stream: each event is framed as
    "event: <type>\ndata: <json>\n\n" (the event-stream format of the HTML Living
    Standard, section 9.2), frames follow emission order, and an exception escaping
    the producer becomes one final UNKNOWN error event. */
module EventStream {
  import opened Wrappers
  import opened Text
  import opened Json

  /** `SSEEventType`. */
  datatype EventType = Status | ReviewReady | Audio | Error | Done

  /** The wire name of an event type: a short run of lower-case ASCII letters. */
  function TypeName(t: EventType): (r: string)
    ensures r in {"status", "review", "audio", "error", "done"}
    ensures 4 <= |r| && IsAsciiLower(r[0]) && IsAsciiLower(r[|r| - 1])
    ensures forall k :: 0 <= k < |r| ==> IsAsciiLower(r[k])
  {
    match t
    case Status => "status"
    case ReviewReady => "review"
    case Audio => "audio"
    case Error => "error"
    case Done => "done"
  }

  lemma TypeNameInjective(a: EventType, b: EventType)
    ensures TypeName(a) == TypeName(b) <==> a == b
  {
  }

  /** An emitted event; its data goes through `JSON.stringify` when framed. */
  datatype Event = Event(kind: EventType, data: Json)

  /** A frame without its terminating blank line. */
  function Block(name: string, json: string): (r: string)
    ensures StartsWith(r, "event: " + name + "\n")
    ensures |r| == |name| + |json| + 14 && r[|name| + 14..] == json
    ensures r[|name| + 7..|name| + 14] == "\ndata: "
  {
    var r := "event: " + name + "\ndata: " + json;
    assert r[..|name| + 8] == "event: " + name + "\n";
    r
  }

  /** What `emitEvent` enqueues. */
  function Frame(e: Event, stringify: Json -> string): (r: string)
    ensures StartsWith(r, "event: " + TypeName(e.kind) + "\n")
    ensures EndsWith(r, "\n\n")
    ensures |r| == |TypeName(e.kind)| + |stringify(e.data)| + 16
    ensures r[|TypeName(e.kind)| + 14..|r| - 2] == stringify(e.data)
  {
    var b := Block(TypeName(e.kind), stringify(e.data));
    var r := b + "\n\n";
    assert r[..|b|] == b;
    assert r[|r| - 2..] == "\n\n";
    assert r[|TypeName(e.kind)| + 14..|r| - 2] == b[|TypeName(e.kind)| + 14..];
    r
  }

  /** The frames of a sequence of events, in order. */
  function Encode(events: seq<Event>, stringify: Json -> string): (r: string)
    ensures r == [] <==> events == []
    ensures |events| == 1 ==> r == Frame(events[0], stringify)
    decreases |events|
  {
    if events == [] then [] else Frame(events[0], stringify) + Encode(events[1..], stringify)
  }

  /** Emitting `a` and then `b` puts the frames of `a` before those of `b`. */
  lemma {:induction false} EncodeAppend(a: seq<Event>, b: seq<Event>, stringify: Json -> string)
    ensures Encode(a + b, stringify) == Encode(a, stringify) + Encode(b, stringify)
    decreases |a|
  {
    if a == [] {
      assert a + b == b;
    } else {
      assert (a + b)[1..] == a[1..] + b;
      EncodeAppend(a[1..], b, stringify);
    }
  }

  /** How the producer ended: returned, or threw (with the message when the thrown
      value is an `Error`). */
  datatype Outcome = Returned | Threw(message: Option<string>)

  const UnknownCode := "UNKNOWN"
  const UnknownMessage := "Unknown error"

  /** The data of the error event the wrapper adds. */
  function UnknownErrorData(message: Option<string>): (r: Json)
    ensures Get(r, "code") == Some(JString(UnknownCode))
    ensures Get(r, "message") == Some(JString(message.GetOr(UnknownMessage)))
  {
    var fields := [("code", JString(UnknownCode)), ("message", JString(message.GetOr(UnknownMessage)))];
    assert fields[..1] == [("code", JString(UnknownCode))];
    assert "message" != "code";
    assert Lookup(fields[..1], "code") == Some(JString(UnknownCode));
    assert Lookup(fields, "code") == Some(JString(UnknownCode));
    JObject(fields)
  }

  /** The events `createSSEStream` puts on the stream for a producer that emitted
      `emitted` and then ended with `outcome`. */
  function StreamEvents(emitted: seq<Event>, outcome: Outcome): (r: seq<Event>)
    ensures outcome.Returned? ==> r == emitted
    ensures outcome.Threw? ==> |r| == |emitted| + 1 && r[..|emitted|] == emitted
    ensures forall k :: 0 <= k < |r| && r[k].kind == Done ==> k < |emitted|
    ensures outcome.Threw? ==> r[|emitted|].kind == Error
                               && Get(r[|emitted|].data, "code") == Some(JString(UnknownCode))
                               && Get(r[|emitted|].data, "message") == Some(JString(outcome.message.GetOr(UnknownMessage)))
  {
    match outcome
    case Returned => emitted
    case Threw(m) => emitted + [Event(Error, UnknownErrorData(m))]
  }

  /** The text of the whole stream, which is closed after it. */
  function StreamText(emitted: seq<Event>, outcome: Outcome, stringify: Json -> string): (r: string)
    ensures StartsWith(r, Encode(emitted, stringify))
    ensures outcome.Returned? ==> r == Encode(emitted, stringify)
    ensures outcome.Threw? ==>
              r == Encode(emitted, stringify) + Frame(Event(Error, UnknownErrorData(outcome.message)), stringify)
  {
    var events := StreamEvents(emitted, outcome);
    match outcome
    case Returned => Encode(emitted, stringify)
    case Threw(m) =>
      var last := Event(Error, UnknownErrorData(m));
      EncodeAppend(emitted, [last], stringify);
      assert Encode([last], stringify) == Frame(last, stringify) + Encode([], stringify);
      var r := Encode(emitted, stringify) + Frame(last, stringify);
      assert r[..|Encode(emitted, stringify)|] == Encode(emitted, stringify);
      Encode(events, stringify)
  }
}
