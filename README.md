# AI Writing Assistant: generate pipeline and list pages in Dafny

A model of the logic of a small Next.js writing assistant.

- **Generate endpoint.** `POST /api/generate` takes a prompt and a writing mode and looks the mode up in a table of five system instructions, falling back to the email instruction. As written, the lookup also finds names inherited from `Object.prototype` (see Findings); the handler is modelled with the corrected lookup. A falsy prompt is rejected with 400. Otherwise the endpoint asks a model provider for a text stream. Each fragment the provider yields is encoded as UTF-8 and enqueued into the response body stream. A failure errors that stream.
- **Writing generator component.** It refuses a blank prompt and resets its session state. It then reads the response body chunk by chunk through one streaming `TextDecoder`, appending each decoded piece to the completion. Only when the whole body was read does it add a token estimate (a quarter of the UTF-16 length, rounded up) to the session count. It shows character and word counts, saves the completion as a generation record, and flips the bookmark of the saved record.
- **History and bookmarks pages.** They hold lists of generation records. Delete and remove-bookmark filter entries out by id. The bookmark toggle sets the flag on the entries with that id. A mode is labelled by replacing its first hyphen with a space.

The modules follow the program:

- `Prompts`: the instruction table and its lookup.
- `GenerateRoute`: the route handler, the stream controller and the forwarding loop.
- `WritingGeneratorClient`: the component, as a class whose fields are its state variables.
- `History` and `Bookmarks`: the two pages, as classes over their lists.
- `Generations`: the record and the list transforms both pages share.
- `Pipeline`: lemmas that run from the request the client sends to the text it shows.

The platform pieces the code relies on are modelled explicitly:

- JavaScript truthiness and property-key conversion (`JsValues`).
- `trim`, the `\s` split, `length` in UTF-16 code units and single replacement (`JsStrings`).
- UTF-8 encoding (`Utf8`).
- The UTF-8 decoder of the WHATWG Encoding Standard, section 8.1.1, with the streaming and byte-order-mark handling of `TextDecoder` (`TextDecoding`).

Behaviour the model keeps as the code has it:

- The client never flushes its decoder, so bytes of a character that have not all arrived are never shown.
- A `TextDecoder` constructed with defaults drops a leading U+FEFF from the stream.
- After `controller.error`, the `close` in the `finally` block throws. The WHATWG Streams Standard then leaves the stream errored, not closed.
- The delete, patch and remove handlers do not look at the HTTP status. Only a `fetch` that rejects (a network failure) leaves a list unchanged; an error status from the store still removes or updates the entry locally. This follows the code of `app/history/page.tsx` and `app/bookmarks/page.tsx`, not the more cautious description of those handlers.
- Saving takes the id from whatever JSON comes back. An error object has no `id`, so the current id becomes absent.
- The first bookmark click on an unsaved completion only saves it; the bookmark flag stays off.

Things the model takes as parameters:

- The provider is a finite fragment sequence that either ends cleanly or fails after its last fragment, unless the provider throws before any stream exists. Whether the provider library throws at setup is decided by code that is not part of this model, so both outcomes are modelled.
- The network is a `GenerateReply`. For status 500 and 400 responses, the `Pipeline.Delivers` relation passes the status on. For a closed stream it delivers all the bytes, re-chunked arbitrarily. For an errored stream it delivers a prefix of the bytes and then a failing read.
- Replies of the record store are parameters too (`Delivery`, `ListReply`, `SaveReply`).

## Model

| member | source | states |
|---|---|---|
| Prompts.SystemPrompt | app/api/generate/route.ts:6-12 | each of the five modes yields its own instruction text; every other mode value (missing, empty, non-string, unknown) yields the email instruction; the result is never empty |
| Prompts.InstructionsDistinct | app/api/generate/route.ts:6-12 | two different known modes get different instructions |
| Prompts.NonStringModeIsEmail | app/api/generate/route.ts:27 | a mode that is absent, null, a boolean or a number gets the email instruction, both in the lookup as written and in the intended one |
| Prompts.SystemPromptAsWritten | app/api/generate/route.ts:27 | the lookup as written always yields a property, own or inherited: only a missing property falls back to email |
| Prompts.LookupAsWritten | app/api/generate/route.ts:27 | a table key yields its own entry (never empty); any other key that names an `Object.prototype` property yields that inherited property; the read is missing exactly for keys of neither kind |
| Prompts.AsWrittenAgreesOffPrototype | app/api/generate/route.ts:27 | the lookup as written agrees with the intended lookup exactly when the mode's key is not inherited from `Object.prototype` |
| Prompts.InheritedModeEscapesDefault | app/api/generate/route.ts:27 | every mode naming an `Object.prototype` property ("toString", "constructor", "__proto__", …) reads that inherited property instead of falling back to the email instruction the intended lookup gives |
| JsValues.PropertyKey | app/api/generate/route.ts:27 | a string mode is its own key; a non-string key is one of four words or begins with a digit or minus sign |
| JsValues.Truthy | app/api/generate/route.ts:22 | falsy are exactly `undefined`, `null`, `false`, `0` and the empty string |
| JsValues.TruthyStrings | app/api/generate/route.ts:22 | a string prompt is truthy exactly when it is non-empty |
| GenerateRoute.CallFor | app/api/generate/route.ts:22-37 | the provider is called exactly when the prompt is truthy, with the chosen instruction, the prompt itself, the fixed model and temperature 0.7 |
| GenerateRoute.Respond | app/api/generate/route.ts:17-78 | status 400 exactly for a falsy prompt, 500 exactly for an unreadable body or a provider that throws, otherwise 200; a 400 is exactly the text "Missing required fields" and a 500 exactly "Error generating content", both with the default text header; a 200 carries the three stream headers and a stream body |
| GenerateRoute.StreamCarriesText | app/api/generate/route.ts:52-63 | the bytes of the streamed chunks, in order, are the encoding of the concatenated fragments; the stream ends closed exactly when the fragments ended cleanly and errored exactly when they failed |
| GenerateRoute.Post | app/api/generate/route.ts:14-79 | the handler's response and provider call are those of `Respond` and `CallFor` |
| GenerateRoute.Start | app/api/generate/route.ts:47-66 | one chunk per fragment, in fragment order, each the encoding of its fragment; the chunks already enqueued stay when the fragments fail; the stream ends errored on failure (the `close` in `finally` throws and rejects `start`) and closed otherwise; the counter ends at the number of fragments |
| GenerateRoute.StreamController.Enqueue | app/api/generate/route.ts:55 | appends the chunk to a readable stream; throws and changes nothing otherwise |
| GenerateRoute.StreamController.Error | app/api/generate/route.ts:60 | a readable stream becomes errored; any other is left as it is |
| GenerateRoute.StreamController.Close | app/api/generate/route.ts:63 | a readable stream becomes closed; on any other it throws and changes nothing |
| Utf8.EncodeAll | app/api/generate/route.ts:52-56 | as many chunks as fragments, chunk i being the encoding of fragment i |
| Utf8.FlattenEncodeAll | app/api/generate/route.ts:52-56 | the chunks, joined, are the encoding of the joined fragments: nothing lost, reordered or duplicated |
| Utf8.EncodeAppend | app/api/generate/route.ts:44-55 | encoding distributes over concatenation |
| Utf8.EncodeChar | app/api/generate/route.ts:55 | one to four bytes per character, one exactly below U+0080, with lead and continuation bytes in their UTF-8 ranges |
| Utf8.Encode | app/api/generate/route.ts:44-55 | each character becomes one to four bytes |
| TextDecoding.DecodeEncoded | components/writing-generator.tsx:78-95 | the decoder's handler, fed the encoding of a string, emits that string and ends between sequences |
| TextDecoding.DecodeEncodedPrefix | components/writing-generator.tsx:78-95 | fed a prefix of the encoding of a string, the handler emits a prefix of that string |
| TextDecoding.PartialCharHeldBack | components/writing-generator.tsx:95 | the bytes of an incomplete character emit nothing |
| TextDecoding.EncodedCharSteps | components/writing-generator.tsx:95 | every proper prefix of a character's encoding emits nothing, and the whole encoding emits exactly that character |
| TextDecoding.RunAppend | components/writing-generator.tsx:95 | feeding bytes in two parts emits the same as feeding them at once |
| TextDecoding.DecodeChunksFlat | components/writing-generator.tsx:78-101 | decoding chunk by chunk gives the text of decoding all their bytes at once, without a leading U+FEFF |
| TextDecoding.DecodeChunksOfEncoding | components/writing-generator.tsx:78-101 | however the encoding of a text is chunked, the decoded text is that text without a leading U+FEFF, and no partial character is pending |
| TextDecoding.DecodeChunksOfEncodingPrefix | components/writing-generator.tsx:78-101 | chunks carrying a prefix of the encoding of a text decode to a prefix of that text without its leading U+FEFF |
| TextDecoding.DecodeChunksStep | components/writing-generator.tsx:95-97 | decoding one more chunk continues from the decoder the earlier chunks left and appends its text |
| TextDecoding.Step | components/writing-generator.tsx:95 | a byte handled in any valid decoder state leaves a valid state and emits at most two characters |
| TextDecoding.Run | components/writing-generator.tsx:95 | bytes fed in order keep the handler valid and emit at most two characters per byte |
| TextDecoding.Serialize | components/writing-generator.tsx:78-95 | the first scalar value of the stream is dropped exactly when it is U+FEFF; later ones always pass through |
| TextDecoding.DecodeChunk | components/writing-generator.tsx:95 | one `decode(chunk, { stream: true })` runs the handler on the chunk from its saved state and keeps the new state; the text is what the handler emits, without a leading U+FEFF while no scalar value has been seen yet |
| TextDecoding.DecodeChunks | components/writing-generator.tsx:78-101 | decoding the chunks in order from a new decoder leaves a valid decoder; its text is given by DecodeChunksFlat |
| WritingGeneratorClient.EstimateTokens | components/writing-generator.tsx:46-49 | the estimate is the least whole number at least a quarter of the UTF-16 length |
| WritingGeneratorClient.EstimateTokensMonotone | components/writing-generator.tsx:46-49 | a text no shorter never has a smaller estimate |
| WritingGeneratorClient.EstimateTokensOfAppend | components/writing-generator.tsx:46-49 | appending never lowers the estimate, and the estimate of a concatenation is at most the sum of the estimates |
| WritingGeneratorClient.EstimateTokensExamples | components/writing-generator.tsx:46-49 | "" gives 0, "abcd" gives 1, "abcde" gives 2, two astral characters give 1 |
| WritingGeneratorClient.CharacterCount | components/writing-generator.tsx:236 | the count lies between the number of characters and twice that (UTF-16 code units) |
| WritingGeneratorClient.WordCount | components/writing-generator.tsx:237 | the word count equals the number of maximal runs of non-white-space, counted by one independent scan, and is zero exactly for empty or all-white-space text |
| JsStrings.Trim | components/writing-generator.tsx:52 | the trimmed text is empty exactly when the text is all white space; otherwise it starts and ends with a non-space |
| JsStrings.SplitCountsWords | components/writing-generator.tsx:237 | after splitting on white-space runs and dropping empty pieces, one piece is left per word start |
| JsStrings.SplitOnSpaces | components/writing-generator.tsx:237 | at least one piece, and no piece contains white space |
| JsStrings.NonEmpty | components/writing-generator.tsx:237 | the pieces kept are non-empty and taken from the input, no more of them than there were |
| JsStrings.WordStartsOfTrim | components/writing-generator.tsx:237 | trimming does not change the number of word starts |
| JsStrings.Utf16LengthAppend | components/writing-generator.tsx:110 | the UTF-16 length of a concatenation is the sum of the lengths |
| JsStrings.Utf16Length | components/writing-generator.tsx:236 | between one and two code units per character |
| JsStrings.IndexOf | app/history/page.tsx:121 | the first position of the character, or -1 exactly when it is absent |
| JsStrings.ReplaceFirst | app/history/page.tsx:121 | same length; only the first occurrence changes |
| WritingGeneratorClient.IsBlank | components/writing-generator.tsx:52 | the guard holds exactly for an empty or all-white-space prompt |
| WritingGeneratorClient.HasId | components/writing-generator.tsx:164 | an id counts as saved exactly when it is present and truthy (non-empty) |
| WritingGeneratorClient.SaveRequest | components/writing-generator.tsx:129-144 | no insert without a completion; otherwise an insert of the current mode, the prompt and the completion whose token count is the estimate of prompt plus completion |
| WritingGeneratorClient.WritingGenerator.GenerateContent | components/writing-generator.tsx:51-127 | a blank prompt changes nothing and sends nothing; otherwise the prompt and mode are sent, the id is cleared, the bookmark flag is off, the completion is the text decoded from the chunks read, tokens grow by the estimate of prompt plus that text exactly when the whole body was read (also with no reader) and stay when the response is not ok, the fetch rejects or a read fails; loading is off at the end either way |
| WritingGeneratorClient.WritingGenerator.ReadBody | components/writing-generator.tsx:84-102 | run in the reset state (empty completion, loading, no id, not bookmarked), the loop appends each decoded chunk to both the accumulated text and the completion, which end as the decoding of all chunks in read order; a rejected read is reported as a failure |
| WritingGeneratorClient.WritingGenerator.SaveGeneration | components/writing-generator.tsx:129-161 | nothing is sent without a completion; otherwise the insert is sent and the returned id (absent for an error object) becomes current unless the request fails; nothing else changes |
| WritingGeneratorClient.WritingGenerator.ToggleBookmark | components/writing-generator.tsx:163-196 | without a current id it saves and the flag stays; with one it sends the flipped flag for that id and flips it unless `fetch` rejects |
| WritingGeneratorClient.WritingGenerator.constructor | components/writing-generator.tsx:37-43 | the initial state: email mode, empty prompt and completion, not loading, no tokens, no id, not bookmarked |
| Generations.WithoutId | app/history/page.tsx:67 | the entries kept are exactly those of the list whose id differs; the length drops by the number of entries with that id |
| Generations.WithoutIdAppend | app/history/page.tsx:67 | filtering works piece by piece, so kept entries stay in their relative order |
| Generations.WithoutAbsentId | app/history/page.tsx:67 | with no entry of that id the list is unchanged |
| Generations.WithoutIdIdempotent | app/bookmarks/page.tsx:73 | removing twice gives the same list as removing once |
| Generations.SetBookmark | app/history/page.tsx:85-89 | same length and order; the entries with the id get the new flag and keep every other field; all other entries are unchanged |
| Generations.ToggleTwiceRestores | app/history/page.tsx:85-89 | toggling twice, passing the shown flag each time, restores the list |
| Generations.ModeLabel | app/history/page.tsx:121 | same length; a mode without a hyphen is unchanged; otherwise the first hyphen, and only it, becomes a space |
| Generations.HyphenatedLabel | app/bookmarks/page.tsx:105 | a mode `pre-post` with no hyphen in `pre` is shown as `pre post`, whatever hyphens `post` holds |
| Generations.EmailLabel | app/history/page.tsx:121 | "email" is shown as it is |
| Generations.BlogPostLabel | app/history/page.tsx:121 | "blog-post" is shown as "blog post" |
| History.HistoryPage.FetchGenerations | app/history/page.tsx:27-38 | the rows loaded replace the list; on failure the list stays; loading ends either way |
| History.HistoryPage.DeleteGeneration | app/history/page.tsx:62-72 | sends the delete; unless `fetch` rejects the list becomes the filtered list, otherwise it is unchanged |
| History.HistoryPage.ToggleBookmark | app/history/page.tsx:74-94 | sends the flipped flag; unless `fetch` rejects the entries with the id show it, otherwise the list is unchanged |
| History.HistoryPage.constructor | app/history/page.tsx:20-21 | the page starts with an empty list, loading |
| History.DeleteRemovesId | app/history/page.tsx:67 | after a delete no entry has the id, the length drops by the entries that had it, and deleting again changes nothing |
| Bookmarks.BookmarksPage.FetchBookmarks | app/bookmarks/page.tsx:27-38 | asks for bookmarked rows only; they replace the list; on failure it stays; loading ends either way |
| Bookmarks.BookmarksPage.RemoveBookmark | app/bookmarks/page.tsx:62-78 | always sends the flag false; unless `fetch` rejects every entry with the id leaves the list, the rest keeping their order |
| Bookmarks.BookmarksPage.constructor | app/bookmarks/page.tsx:20-21 | the page starts with an empty list, loading |
| Bookmarks.RemovePreservesAllBookmarked | app/bookmarks/page.tsx:73 | removing keeps a list of bookmarked entries all bookmarked |
| Pipeline.SentPromptPassesGate | components/writing-generator.tsx:52 | a prompt the client lets through is never rejected by the endpoint with 400, and the provider is called |
| Pipeline.SelectableModesHaveInstructions | components/writing-generator.tsx:28-34 | each mode the selector offers is a known mode with its own table entry |
| Pipeline.WholeTextArrives | components/writing-generator.tsx:84-102 | however the network re-chunks the bytes of the fragments, the client decodes the whole concatenated text (a leading U+FEFF aside) |
| Pipeline.CutTextIsPrefix | components/writing-generator.tsx:84-102 | bytes cut short anywhere decode to a prefix of that text |
| Pipeline.EndToEnd | app/api/generate/route.ts:47-78 | for a prompt the client sends: a throwing provider leaves an empty completion and no tokens counted; a clean stream shows the whole text and is counted; a failing stream shows a prefix of the text and is not counted |
| Pipeline.ErrorResponseNotCounted | components/writing-generator.tsx:75 | a 400 or 500 response shows nothing and adds no tokens |
| Pipeline.HelloWorld | components/writing-generator.tsx:95-97 | the fragments "Hel", "lo, ", "world!" are shown as "Hello, world!" however their bytes are split |

## Left out

- GenerateRoute.CallFor / GenerateRoute.Post: the provider call and response are built on the corrected lookup `SystemPrompt`, so for a mode naming an `Object.prototype` property they pass the email instruction where the code passes the inherited property; `ProviderCall.system` is a string and cannot hold a function. The code's behaviour is modelled separately by `SystemPromptAsWritten`.
- Request bodies whose `prompt` or `mode` is an array, an object or a fractional number are not modelled; a JSON field is modelled as absent, null, a boolean, an integer or a string.
- Strings are sequences of Unicode scalar values, so lone surrogates in a prompt or fragment are not modelled.
- Asynchrony, React's batching of state updates, cancellation of the stream and concurrent runs are not modelled. Each handler runs to completion in sequence.
- The busy flag guards reruns only through the disabled state of buttons. Nothing in the model stops a second run.
- Toasts, console logging, clipboard copy, file export (`Blob`, object URLs, `Date.now`), the page navigation and the React render tree are user-interface effects and are left out.
- The client's `chunkCount` feeds only logging, so it is left out. The route's counter is kept, as `Start`'s out-parameter.
- The provider library, the network and the record store (`app/api/generations/route.ts`, `app/api/generations/[id]/route.ts`, Supabase) are parameters: what they return is an input to the model.
- A list endpoint that answers with an error object would put that object in the page's list; the model treats such a reply as a failed load.
- The WHATWG Streams Standard discards a stream's unread queue when `error` is called. The model keeps the log of enqueued chunks, and `Pipeline.Delivers` lets the reader see any prefix of their bytes.
- `components/nav.tsx`, `app/page.tsx` and `lib/database.types.ts` hold layout and type declarations only.
- GenerateRoute.Start: the provider fails only after its last fragment; a failure after k fragments is the stream of those k fragments with `failsAtEnd`, so no fragment after a failure is modelled.
- Pipeline.Delivers: a network failure during a streamed response is not part of the relation, so `EndToEnd` speaks about a transport that keeps the connection.

## Findings

| source | as written | input that shows it | evidently intended | confidence | as-written member | corrected member |
|---|---|---|---|---|---|---|
| app/api/generate/route.ts:27 | the instruction is a property read on an object literal, and only a missing property falls back to email, so names inherited from `Object.prototype` are found | mode "toString" (also "constructor", "hasOwnProperty", "__proto__", …) selects the inherited function or object instead of the email instruction, which then goes to the provider as the system instruction | every mode outside the five known ones gets the email instruction | high, not executed | Prompts.InheritedModeEscapesDefault | Prompts.SystemPrompt |
