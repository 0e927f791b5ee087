/** The `POST /api/generate` handler: checks the body, picks the system instruction,
    asks the model provider for a text stream and forwards each fragment, encoded as
    UTF-8, into the response body stream. */
module GenerateRoute {
  import opened Wrappers
  import opened Utf8
  import opened JsValues
  import opened Prompts

  /** The provider's text stream: the fragments in arrival order, then either a clean
      end or a failure after the last of them. */
  datatype TextStream = TextStream(fragments: seq<string>, failsAtEnd: bool)

  /** What calling the provider does: it throws before any stream exists, or streams. */
  datatype Provider = SetupFails | Streams(stream: TextStream)

  /** The result of `await req.json()`: a parse failure, the value `null` (whose
      destructuring throws), or a value whose `prompt` and `mode` fields are read. */
  datatype RequestBody = Unparsable | NullBody | Fields(prompt: Json, mode: Json)

  /** The arguments handed to `streamText`. */
  datatype ProviderCall = ProviderCall(model: string, system: string, prompt: Json, temperature: real)

  const Model: string := "gemini-2.0-flash-exp"
  const Temperature: real := 0.7

  /** `readable`, `closed` and `errored` of a `ReadableStream`. */
  datatype StreamState = Readable | Closed | Errored

  datatype Body = Text(text: string) | Stream(chunks: seq<seq<byte>>, state: StreamState)

  datatype Response = Response(status: int, headers: seq<(string, string)>, body: Body)

  const StreamHeaders: seq<(string, string)> := [
    ("Content-Type", "text/plain; charset=utf-8"),
    ("Cache-Control", "no-cache"),
    ("Connection", "keep-alive")]

  /** The header a `Response` built from a string body gets by default. */
  const TextHeaders: seq<(string, string)> := [("Content-Type", "text/plain;charset=UTF-8")]

  const MissingFields: Response := Response(400, TextHeaders, Text("Missing required fields"))
  const GenerationError: Response := Response(500, TextHeaders, Text("Error generating content"))

  /** The controller of the response body stream. `enqueued` is every chunk handed to
      the stream, in order. */
  class StreamController {
    var enqueued: seq<seq<byte>>
    var state: StreamState

    constructor ()
      ensures enqueued == [] && state == Readable
    {
      enqueued := [];
      state := Readable;
    }

    /** `controller.enqueue(chunk)`: throws unless the stream is readable. */
    method Enqueue(chunk: seq<byte>) returns (threw: bool)
      modifies this
      ensures threw <==> old(state) != Readable
      ensures enqueued == if threw then old(enqueued) else old(enqueued) + [chunk]
      ensures state == old(state)
    {
      threw := state != Readable;
      if !threw {
        enqueued := enqueued + [chunk];
      }
    }

    /** `controller.error(e)`: errors a readable stream; otherwise does nothing. */
    method Error()
      modifies this
      ensures state == if old(state) == Readable then Errored else old(state)
      ensures enqueued == old(enqueued)
    {
      if state == Readable {
        state := Errored;
      }
    }

    /** `controller.close()`: closes a readable stream; on any other throws and leaves it. */
    method Close() returns (threw: bool)
      modifies this
      ensures threw <==> old(state) != Readable
      ensures state == if threw then old(state) else Closed
      ensures enqueued == old(enqueued)
    {
      threw := state != Readable;
      if !threw {
        state := Closed;
      }
    }
  }

  /** The `start(controller)` callback: one chunk per fragment, the encoding of that
      fragment, in arrival order; then `error` on a failure and, in `finally`, `close`.
      After an error that `close` throws, which rejects `start`, and a rejected `start`
      errors the stream again, which does nothing: the stream stays errored. */
  method Start(controller: StreamController, stream: TextStream) returns (chunkCount: nat, rejected: bool)
    requires controller.state == Readable && controller.enqueued == []
    modifies controller
    ensures controller.enqueued == EncodeAll(stream.fragments)
    ensures chunkCount == |stream.fragments|
    ensures controller.state == if stream.failsAtEnd then Errored else Closed
    ensures rejected == stream.failsAtEnd
  {
    var fragments := stream.fragments;
    chunkCount := 0;
    for i := 0 to |fragments|
      invariant chunkCount == i
      invariant controller.state == Readable
      invariant controller.enqueued == EncodeAll(fragments[..i])
    {
      chunkCount := chunkCount + 1;
      var _ := controller.Enqueue(Encode(fragments[i]));
      assert fragments[..i + 1][..i] == fragments[..i];
    }
    assert fragments[..|fragments|] == fragments;
    if stream.failsAtEnd {
      controller.Error();
    }
    rejected := controller.Close();
    if rejected {
      controller.Error();
    }
  }

  /** The provider call `POST(req)` makes: exactly when the body has a truthy prompt,
      with the instruction chosen by its mode. */
  function CallFor(body: RequestBody): (r: Option<ProviderCall>)
    ensures r.Some? <==> body.Fields? && Truthy(body.prompt)
    ensures r.Some? ==> r.value.system == SystemPrompt(body.mode) && r.value.prompt == body.prompt
    ensures r.Some? ==> r.value.model == Model && r.value.temperature == Temperature
  {
    if body.Fields? && Truthy(body.prompt) then
      Some(ProviderCall(Model, SystemPrompt(body.mode), body.prompt, Temperature))
    else None
  }

  /** The response of `POST(req)`: 400 for a falsy prompt, 500 when the body cannot be
      read or the provider throws, otherwise a 200 stream of the encoded fragments. */
  function Respond(body: RequestBody, provider: Provider): (r: Response)
    ensures r.status == 400 <==> body.Fields? && !Truthy(body.prompt)
    ensures r.status == 200 <==> CallFor(body).Some? && provider.Streams?
    ensures r.status == 500 <==> !body.Fields? || (Truthy(body.prompt) && provider.SetupFails?)
    ensures r.status == 400 ==> r == MissingFields
    ensures r.status == 500 ==> r == GenerationError
    ensures r.status != 200 ==> r.headers == TextHeaders && r.body.Text? && r.body.text != ""
    ensures r.status == 200 ==> r.headers == StreamHeaders && r.body.Stream?
  {
    if !body.Fields? then GenerationError
    else if !Truthy(body.prompt) then MissingFields
    else if provider.SetupFails? then GenerationError
    else
      var stream := provider.stream;
      Response(200, StreamHeaders, Stream(EncodeAll(stream.fragments), if stream.failsAtEnd then Errored else Closed))
  }

  /** A streamed response carries the bytes of the whole text the provider produced, in
      order, and ends closed exactly when the provider's stream ended cleanly. */
  lemma StreamCarriesText(body: RequestBody, stream: TextStream)
    requires CallFor(body).Some?
    ensures Respond(body, Streams(stream)).body.Stream?
    ensures Flatten(Respond(body, Streams(stream)).body.chunks) == Encode(Concat(stream.fragments))
    ensures Respond(body, Streams(stream)).body.state == Closed <==> !stream.failsAtEnd
    ensures Respond(body, Streams(stream)).body.state == Errored <==> stream.failsAtEnd
  {
    FlattenEncodeAll(stream.fragments);
  }

  /** `POST(req)`: the response and, when the provider is called, the call made. */
  method Post(body: RequestBody, provider: Provider) returns (response: Response, call: Option<ProviderCall>)
    ensures response == Respond(body, provider)
    ensures call == CallFor(body)
  {
    call := None;
    if !body.Fields? {
      response := GenerationError;
    } else if !Truthy(body.prompt) {
      response := MissingFields;
    } else {
      var system := SystemPrompt(body.mode);
      call := Some(ProviderCall(Model, system, body.prompt, Temperature));
      if provider.SetupFails? {
        response := GenerationError;
      } else {
        var controller := new StreamController();
        var chunkCount, rejected := Start(controller, provider.stream);
        response := Response(200, StreamHeaders, Stream(controller.enqueued, controller.state));
      }
    }
  }
}
