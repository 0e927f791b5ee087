/** The generate request end to end: what the writing generator sends, what the route
    answers, what the network hands the client's reader, and what the client shows. */
module Pipeline {
  import opened Wrappers
  import opened Utf8
  import opened JsValues
  import opened JsStrings
  import opened TextDecoding
  import opened Prompts
  import opened GenerateRoute
  import opened WritingGeneratorClient

  /** The request body the route parses from the JSON text the client sends. */
  function BodyOf(request: GenerateRequest): RequestBody
  {
    Fields(Str(request.prompt), Str(request.mode))
  }

  /** A transport that keeps the connection: the status reaches the client, and the
      reader gets the bytes of a closed stream in full and in order, however they are
      re-chunked, and a prefix of them, then a failing read, from an errored stream. */
  predicate Delivers(response: Response, reply: GenerateReply)
  {
    reply.Answered? && reply.ok == (200 <= response.status < 300) &&
    (response.body.Stream? ==>
      reply.reader.Some? &&
      (response.body.state == Closed ==>
        Flatten(reply.reader.value.chunks) == Flatten(response.body.chunks) && !reply.reader.value.failsAfter) &&
      (response.body.state == Errored ==>
        Flatten(reply.reader.value.chunks) <= Flatten(response.body.chunks) && reply.reader.value.failsAfter))
  }

  /** A prompt the client sends passes the route's check. */
  lemma SentPromptPassesGate(prompt: string, mode: string)
    requires !AllSpace(prompt)
    ensures CallFor(BodyOf(GenerateRequest(prompt, mode))).Some?
    ensures Respond(BodyOf(GenerateRequest(prompt, mode)), SetupFails).status != 400
  {
    assert prompt != [] by {
      if prompt == [] {
        assert AllSpace(prompt);
      }
    }
  }

  /** Every mode the selector offers has its own instruction. */
  lemma SelectableModesHaveInstructions()
    ensures forall m :: m in WritingModes ==> m in KnownModes && SystemPrompt(Str(m)) == Table[m]
  {
  }

  /** However the network splits the bytes of the fragments, the client decodes the
      whole text the provider produced (a leading U+FEFF aside). */
  lemma WholeTextArrives(fragments: seq<string>, chunks: seq<seq<byte>>)
    requires Flatten(chunks) == Flatten(EncodeAll(fragments))
    ensures DecodeChunks(chunks).1 == WithoutLeadingBom(Concat(fragments))
  {
    FlattenEncodeAll(fragments);
    DecodeChunksOfEncoding(Concat(fragments), chunks);
  }

  /** Bytes cut short anywhere decode to a prefix of the text. */
  lemma CutTextIsPrefix(fragments: seq<string>, chunks: seq<seq<byte>>)
    requires Flatten(chunks) <= Flatten(EncodeAll(fragments))
    ensures DecodeChunks(chunks).1 <= WithoutLeadingBom(Concat(fragments))
  {
    FlattenEncodeAll(fragments);
    DecodeChunksOfEncodingPrefix(Concat(fragments), chunks);
  }

  /** For a prompt the client sends: a provider that throws leaves an empty completion
      and no tokens counted; a stream that ends cleanly shows the whole text and is
      counted; a stream that fails shows a prefix of the text and is not counted. */
  lemma EndToEnd(request: GenerateRequest, provider: Provider, reply: GenerateReply)
    requires !AllSpace(request.prompt)
    requires Delivers(Respond(BodyOf(request), provider), reply)
    ensures provider.SetupFails? ==> Received(reply) == "" && !Succeeded(reply)
    ensures provider.Streams? && !provider.stream.failsAtEnd ==>
      Received(reply) == WithoutLeadingBom(Concat(provider.stream.fragments)) && Succeeded(reply)
    ensures provider.Streams? && provider.stream.failsAtEnd ==>
      Received(reply) <= WithoutLeadingBom(Concat(provider.stream.fragments)) && !Succeeded(reply)
  {
    SentPromptPassesGate(request.prompt, request.mode);
    if provider.Streams? {
      var stream := provider.stream;
      StreamCarriesText(BodyOf(request), stream);
      FlattenEncodeAll(stream.fragments);
      if stream.failsAtEnd {
        CutTextIsPrefix(stream.fragments, reply.reader.value.chunks);
      } else {
        WholeTextArrives(stream.fragments, reply.reader.value.chunks);
      }
    }
  }

  /** A response the route answers with an error shows nothing and counts no tokens. */
  lemma ErrorResponseNotCounted(body: RequestBody, provider: Provider, reply: GenerateReply)
    requires Respond(body, provider).status != 200
    requires Delivers(Respond(body, provider), reply)
    ensures Received(reply) == "" && !Succeeded(reply)
  {
  }

  /** The fragments "Hel", "lo, " and "world!", however the network splits their bytes,
      show as "Hello, world!". */
  lemma HelloWorld(fragments: seq<string>, chunks: seq<seq<byte>>)
    requires |fragments| == 3 && fragments[0] == "Hel" && fragments[1] == "lo, " && fragments[2] == "world!"
    requires Flatten(chunks) == Flatten(EncodeAll(fragments))
    ensures DecodeChunks(chunks).1 == "Hello, world!"
  {
    var none: seq<string> := [];
    assert Concat([fragments[0]]) == fragments[0] by {
      assert [fragments[0]][..0] == none;
    }
    assert Concat(fragments[..2]) == fragments[0] + fragments[1] by {
      assert fragments[..2][..1] == [fragments[0]];
    }
    assert Concat(fragments) == fragments[0] + fragments[1] + fragments[2] by {
      assert fragments[..|fragments| - 1] == fragments[..2];
    }
    assert fragments[0] + fragments[1] + fragments[2] == "Hello, world!";
    WholeTextArrives(fragments, chunks);
  }
}
