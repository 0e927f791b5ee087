/** The writing generator component: it sends the prompt and mode to the generate
    endpoint, decodes the streamed reply into the completion as it arrives, counts an
    estimate of the tokens used, and saves or bookmarks the completion. */
module WritingGeneratorClient {
  import opened Wrappers
  import opened Utf8
  import opened JsValues
  import opened JsStrings
  import opened TextDecoding
  import opened Generations

  /** The values of the mode selector, in display order. */
  const WritingModes: seq<string> := ["email", "blog-post", "social-media", "code-comments", "product-description"]

  /** A quarter of the length in UTF-16 code units, rounded up. */
  function EstimateTokens(text: string): (r: nat)
    ensures 4 * r >= Utf16Length(text)
    ensures 4 * r < Utf16Length(text) + 4
  {
    (Utf16Length(text) + 3) / 4
  }

  /** A longer text never has a smaller estimate. */
  lemma EstimateTokensMonotone(a: string, b: string)
    requires Utf16Length(a) <= Utf16Length(b)
    ensures EstimateTokens(a) <= EstimateTokens(b)
  {
  }

  /** Appending text never lowers the estimate, and the estimate of the whole is at most
      the sum of the estimates of the parts. */
  lemma EstimateTokensOfAppend(a: string, b: string)
    ensures EstimateTokens(a) <= EstimateTokens(a + b) <= EstimateTokens(a) + EstimateTokens(b)
  {
    Utf16LengthAppend(a, b);
  }

  lemma EstimateTokensExamples()
    ensures EstimateTokens("") == 0
    ensures EstimateTokens("abcd") == 1
    ensures EstimateTokens("abcde") == 2
    ensures EstimateTokens("\U{1F600}\U{1F600}") == 1
  {
    assert "abcde"[1..] == "bcde";
    assert "bcde"[1..] == "cde";
    assert "cde"[1..] == "de";
  }

  /** The character count shown: the length in UTF-16 code units. */
  function CharacterCount(completion: string): (r: nat)
    ensures |completion| <= r <= 2 * |completion|
  {
    Utf16Length(completion)
  }

  /** The word count shown: the non-empty pieces of the trimmed completion split on
      white-space runs. It is the number of word starts, and zero exactly for a
      completion that is all white space. */
  function WordCount(completion: string): (r: nat)
    ensures r == WordStarts(completion, true)
    ensures r == 0 <==> AllSpace(completion)
  {
    SplitCountsWords(Trim(completion));
    WordStartsOfTrim(completion);
    if AllSpace(completion) then
      WordStartsAllSpace(completion, true);
      |NonEmpty(SplitOnSpaces(Trim(completion)))|
    else
      WordStartsSomeWord(completion);
      |NonEmpty(SplitOnSpaces(Trim(completion)))|
  }

  lemma {:induction false} WordStartsSomeWord(s: string)
    requires !AllSpace(s)
    ensures WordStarts(s, true) > 0
  {
    if IsSpace(s[0]) {
      assert !AllSpace(s[1..]) by {
        var k :| 0 <= k < |s| && !IsSpace(s[k]);
        assert s[1..][k - 1] == s[k];
      }
      WordStartsSomeWord(s[1..]);
    }
  }

  /** What the successive `reader.read()` calls give: the chunks in order, then `done`,
      or a rejection in place of `done` when `failsAfter` holds. */
  datatype BodyReads = BodyReads(chunks: seq<seq<byte>>, failsAfter: bool)

  /** How the request to the generate endpoint ends: it rejects, or it resolves with a response
      whose `ok` flag and body reader (absent for a null body) the loop uses. */
  datatype GenerateReply = FetchRejected | Answered(ok: bool, reader: Option<BodyReads>)

  /** The JSON body of the generate request: the prompt and the mode. */
  datatype GenerateRequest = GenerateRequest(prompt: string, mode: string)

  /** How saving ends: `fetch` or `response.json()` rejects, or the JSON is read, whose
      `id` is absent when the store answered with an error object. */
  datatype SaveReply = SaveFailed | SaveJson(id: Option<string>)

  /** The text the read loop accumulates, chunk by chunk, in `fullText` and `completion`. */
  function Received(reply: GenerateReply): string
  {
    if reply.Answered? && reply.ok && reply.reader.Some? then DecodeChunks(reply.reader.value.chunks).1
    else ""
  }

  /** The `try` block runs to its end: the response is ok and the reads end with `done`
      (or there is no reader). */
  predicate Succeeded(reply: GenerateReply)
  {
    reply.Answered? && reply.ok && (reply.reader.None? || !reply.reader.value.failsAfter)
  }

  /** The guard on the prompt, trimmed: true exactly for a prompt that is empty or all white space. */
  method IsBlank(prompt: string) returns (blank: bool)
    ensures blank <==> AllSpace(prompt)
  {
    blank := Trim(prompt) == "";
  }

  /** A falsy generation id (`null`, absent or empty) means nothing has been saved. */
  predicate HasId(id: Option<string>)
    ensures HasId(id) <==> id.Some? && Truthy(Str(id.value))
  {
    id.Some? && id.value != ""
  }

  /** The insert a save sends, or none when there is no completion. */
  function SaveRequest(mode: string, prompt: string, completion: string): (r: Option<StoreRequest>)
    ensures r.None? <==> completion == ""
    ensures r.Some? ==> r.value.Insert? && r.value.mode == mode && r.value.output == completion && r.value.prompt == prompt
    ensures r.Some? ==> r.value.tokensUsed == EstimateTokens(prompt + completion)
  {
    if completion == "" then None else Some(Insert(mode, prompt, completion, EstimateTokens(prompt + completion)))
  }

  /** The component's state. */
  class WritingGenerator {
    var mode: string
    var prompt: string
    var completion: string
    var isLoading: bool
    var tokensUsed: nat
    var currentGenerationId: Option<string>
    var isBookmarked: bool

    constructor ()
      ensures mode == "email" && prompt == "" && completion == "" && !isLoading
      ensures tokensUsed == 0 && currentGenerationId == None && !isBookmarked
    {
      mode := "email";
      prompt := "";
      completion := "";
      isLoading := false;
      tokensUsed := 0;
      currentGenerationId := None;
      isBookmarked := false;
    }

    /** `generateContent`: a blank prompt changes nothing and sends nothing. Otherwise the
        completion ends as the text decoded so far (all of it when the stream ends), the
        tokens grow only when the whole reply was read, and loading ends either way. */
    method GenerateContent(reply: GenerateReply) returns (request: Option<GenerateRequest>)
      modifies this
      ensures mode == old(mode) && prompt == old(prompt)
      ensures AllSpace(old(prompt)) ==>
        request == None && completion == old(completion) && isLoading == old(isLoading) &&
        tokensUsed == old(tokensUsed) && currentGenerationId == old(currentGenerationId) &&
        isBookmarked == old(isBookmarked)
      ensures !AllSpace(old(prompt)) ==>
        request == Some(GenerateRequest(prompt, mode)) &&
        completion == Received(reply) && !isLoading &&
        currentGenerationId == None && !isBookmarked &&
        tokensUsed == old(tokensUsed) + (if Succeeded(reply) then EstimateTokens(prompt + Received(reply)) else 0)
    {
      var blank := IsBlank(prompt);
      if blank {
        request := None;
        return;
      }
      request := Some(GenerateRequest(prompt, mode));
      isLoading := true;
      completion := "";
      currentGenerationId := None;
      isBookmarked := false;
      var failed := false;
      var fullText: string := "";
      if reply.FetchRejected? || !reply.ok {
        failed := true;
      } else if reply.reader.Some? {
        fullText, failed := ReadBody(reply.reader.value);
      }
      if !failed {
        tokensUsed := tokensUsed + EstimateTokens(prompt + fullText);
      }
      isLoading := false;
    }

    /** The `while (true)` loop over `reader.read()`: each chunk is decoded in streaming
        mode by one decoder and appended to `fullText` and to the completion; the loop
        ends at `done`, or with a failure when the read rejects. */
    method ReadBody(body: BodyReads) returns (fullText: string, failed: bool)
      requires completion == "" && isLoading && currentGenerationId == None && !isBookmarked
      modifies this`completion
      ensures fullText == DecodeChunks(body.chunks).1 && completion == fullText
      ensures failed == body.failsAfter
    {
      failed := false;
      fullText := "";
      var decoder := NewTextDecoder;
      var i := 0;
      while true
        invariant 0 <= i <= |body.chunks|
        invariant decoder == DecodeChunks(body.chunks[..i]).0
        invariant fullText == DecodeChunks(body.chunks[..i]).1
        invariant completion == fullText
        decreases |body.chunks| - i
      {
        if i == |body.chunks| {
          assert body.chunks[..i] == body.chunks;
          failed := body.failsAfter;
          break;
        }
        var step := DecodeChunk(decoder, body.chunks[i]);
        decoder := step.0;
        var text := step.1;
        fullText := fullText + text;
        completion := completion + text;
        DecodeChunksStep(body.chunks, i);
        i := i + 1;
      }
    }

    /** `saveGeneration`: nothing without a completion; otherwise the insert is sent and the
        id of the stored record, as the reply gives it, becomes the current id. */
    method SaveGeneration(reply: SaveReply) returns (request: Option<StoreRequest>)
      modifies this
      ensures request == SaveRequest(old(mode), old(prompt), old(completion))
      ensures currentGenerationId ==
        if old(completion) != "" && reply.SaveJson? then reply.id else old(currentGenerationId)
      ensures mode == old(mode) && prompt == old(prompt) && completion == old(completion)
      ensures isLoading == old(isLoading) && tokensUsed == old(tokensUsed) && isBookmarked == old(isBookmarked)
    {
      if completion == "" {
        request := None;
        return;
      }
      request := Some(Insert(mode, prompt, completion, EstimateTokens(prompt + completion)));
      if reply.SaveJson? {
        currentGenerationId := reply.id;
      }
    }

    /** `toggleBookmark`: with no saved record it only saves (the bookmark flag stays);
        otherwise it sends the flipped flag and flips it unless `fetch` rejects. */
    method ToggleBookmark(saveReply: SaveReply, patch: Delivery) returns (request: Option<StoreRequest>)
      modifies this
      ensures !HasId(old(currentGenerationId)) ==>
        request == SaveRequest(old(mode), old(prompt), old(completion)) &&
        currentGenerationId == (if old(completion) != "" && saveReply.SaveJson? then saveReply.id else old(currentGenerationId)) &&
        isBookmarked == old(isBookmarked)
      ensures HasId(old(currentGenerationId)) ==>
        request == Some(Patch(old(currentGenerationId).value, !old(isBookmarked))) &&
        currentGenerationId == old(currentGenerationId) &&
        isBookmarked == (if patch.Resolved? then !old(isBookmarked) else old(isBookmarked))
      ensures mode == old(mode) && prompt == old(prompt) && completion == old(completion)
      ensures isLoading == old(isLoading) && tokensUsed == old(tokensUsed)
    {
      if !HasId(currentGenerationId) {
        request := SaveGeneration(saveReply);
        return;
      }
      request := Some(Patch(currentGenerationId.value, !isBookmarked));
      if patch.Resolved? {
        isBookmarked := !isBookmarked;
      }
    }
  }
}
