# OllamaKit streaming core, modelled in Dafny

OllamaKit is a Swift client for the Ollama HTTP API. Its only stateful
behaviour is the newline-delimited JSON streaming path: `AsyncStreamDelegate`
receives the HTTP body in transport chunks, cuts it into lines at every `0x0A`
byte, and flushes an unterminated last line when the transfer completes; then
`jsonStreamRequest` decodes each line into the target type and ends the stream
at the first decoding error. Around it sit a few small status rules used by
the buffered requests: accept only status 200, map the copy/delete status to
success, `modelNotFound` or `invalidStatusCode`, and demand a `"version"` key.

The model is sequential and pure:

- `wrappers.dfy` (`Wrappers`): `Option`, `Result` and `Outcome`.
- `bytes.dfy` (`Bytes`): byte strings (`seq<bv8>`), the newline search and
  the wire form `Join` of a list of lines, with its algebra.
- `line_splitter.dfy` (`LineSplitter`): the buffer drain (`Drain`), one
  chunk (`Feed`, and the loop form `FeedLoop`), many chunks (`FeedAll`).
- `delegate.dfy` (`Delegate`): the transport as a list of events
  `Chunk(bytes)* (Complete | Failed(e))`, the continuation as a list of outputs
  `Yield(line)* (Finish | FinishErr(e))`, and the delegate's whole run.
- `typed_decoder.dfy` (`TypedDecoder`): the fail-fast decode loop over the
  line stream, with the JSON decoder as a parameter `Bytes -> Result<T, E>`.
- `requests.dfy` (`Requests`): the buffered request, its status-code
  overload, `copyModel`, `deleteModel`, `jsonRequest` and `getOllamaVersion`,
  with the HTTP exchange as a parameter (a reply, or the error thrown).

Swift's untyped `Error` is one type parameter `E` shared by transport and
decoding errors; the request layer's own errors are `OllamaError`, wrapped
with passed-through errors in `ClientError<E>`. A reply whose response is not
an `HTTPURLResponse` has status `None`.

The buffered request accepts exactly status 200, not every 2xx status, as the
code at `Sources/OllamaKit/OllamaKit.swift:106` does; the model follows the
code.

## Model

| member | source | states |
|---|---|---|
| Bytes.IndexOfNewline | Sources/OllamaKit/OllamaKit.swift:407 | the search finds nothing exactly when the buffer has no newline; otherwise it returns a newline position with no newline before it |
| LineSplitter.Drain | Sources/OllamaKit/OllamaKit.swift:407-414 | the extracted candidates, each followed by a newline, then the kept buffer, give back the buffer exactly; no candidate and not the kept buffer contains a newline |
| LineSplitter.DrainUnique | Sources/OllamaKit/OllamaKit.swift:407-414 | any reading of the buffer as newline-terminated newline-free candidates plus a newline-free remainder is the one the loop produces |
| LineSplitter.DrainConcat | Sources/OllamaKit/OllamaKit.swift:404-415 | draining a + b equals draining a, then draining its remainder followed by b |
| LineSplitter.FeedClean | Sources/OllamaKit/OllamaKit.swift:404-415 | after a chunk, every emitted line is non-empty and newline-free and no newline is left in the buffer |
| LineSplitter.FeedNoLoss | Sources/OllamaKit/OllamaKit.swift:404-415 | the emitted lines followed by the kept buffer are buffer + chunk with its newlines deleted; the kept buffer is a suffix of buffer + chunk; a chunk that brings no newline emits nothing and keeps everything |
| LineSplitter.FeedLoopStep | Sources/OllamaKit/OllamaKit.swift:407-414 | one pass of the loop emits the bytes before the first newline unless they are empty, and continues with the bytes after it |
| LineSplitter.FeedLoop | Sources/OllamaKit/OllamaKit.swift:404-415 | the while-let loop emits exactly the lines and keeps exactly the buffer of the functional chunk handler |
| LineSplitter.FeedAllDrains | Sources/OllamaKit/OllamaKit.swift:404-415 | feeding chunks one by one to a newline-free buffer emits the non-empty candidates of the whole byte string, in order, and keeps its remainder |
| LineSplitter.FeedAllChunkingIrrelevant | Sources/OllamaKit/OllamaKit.swift:404-415 | two chunkings of the same bytes emit the same lines in the same order and keep the same buffer |
| LineSplitter.FeedAllOneChunk | Sources/OllamaKit/OllamaKit.swift:404-415 | feeding the chunks one by one is the same as feeding their concatenation at once |
| LineSplitter.Records | Sources/OllamaKit/OllamaKit.swift:404-429 | the records of a whole body are all non-empty and newline-free, and together they are the body with its newlines deleted |
| Delegate.CompleteWith | Sources/OllamaKit/OllamaKit.swift:419-429 | on completion a non-empty buffer is yielded once, as the last record, and the stream then finishes with the completion error if there is one, otherwise normally |
| Delegate.RunFrom | Sources/OllamaKit/OllamaKit.swift:395-430 | the delegate's output is records then one termination equal to the transport's; every record is non-empty and newline-free |
| Delegate.RunFromFeedAll | Sources/OllamaKit/OllamaKit.swift:404-429 | a run is all chunks fed in order, then completion of the buffer that is left |
| Delegate.RunSpec | Sources/OllamaKit/OllamaKit.swift:395-430 | the records of a run depend only on the concatenated body: its non-empty newline-delimited pieces in order, then the unterminated tail if non-empty, then the transport's ending |
| Delegate.RunRecords | Sources/OllamaKit/OllamaKit.swift:395-430 | a run yields exactly the records of the concatenated body, in order, then the transport's ending |
| Delegate.RunOfLines | Sources/OllamaKit/OllamaKit.swift:395-430 | a body that is newline-terminated newline-free lines plus a newline-free tail produces the non-empty lines, the tail if non-empty, then the ending |
| Delegate.RunChunkingIrrelevant | Sources/OllamaKit/OllamaKit.swift:395-430 | two transports with the same bytes and the same ending produce the same records |
| Delegate.RecordAcrossChunks | Sources/OllamaKit/OllamaKit.swift:404-415 | a record split over two chunks is reassembled and records arrive in order |
| Delegate.TailFlushedBeforeError | Sources/OllamaKit/OllamaKit.swift:419-429 | an unterminated last record is yielded before the transport error ends the stream |
| TypedDecoder.DecodeStream | Sources/OllamaKit/OllamaKit.swift:50-58 | the output is decoded values then one termination, and each value is the successful decode of the line at the same position upstream |
| TypedDecoder.DecodeStreamSpec | Sources/OllamaKit/OllamaKit.swift:50-58 | the output is the decoded longest prefix of lines that all decode, then the first decoding error, or the upstream's own ending when every line decodes |
| TypedDecoder.DecodeStopsAtFailure | Sources/OllamaKit/OllamaKit.swift:50-58 | whatever follows a line that fails to decode, records or ending, does not change the output |
| TypedDecoder.StreamRequestChunkingIrrelevant | Sources/OllamaKit/OllamaKit.swift:39-61 | the typed records of a streaming request do not depend on how the body was cut into chunks |
| TypedDecoder.StreamRequestOfBody | Sources/OllamaKit/OllamaKit.swift:39-61 | the typed stream of a request is the fail-fast decoding of the records of its whole body followed by the transport's ending |
| TypedDecoder.StreamRequestSpec | Sources/OllamaKit/OllamaKit.swift:39-61 | the typed stream of a request is the decoded values of the longest prefix of the body's records that all decode, then the first decoding error, or the transport's ending when every record decodes |
| Requests.RequestData | Sources/OllamaKit/OllamaKit.swift:94-111 | the body is returned exactly when the response is HTTP with status 200; a non-HTTP or other-status response is `invalidResponse`; a transport error passes through |
| Requests.RequestStatus | Sources/OllamaKit/OllamaKit.swift:113-130 | any HTTP response yields its status code; a non-HTTP response is `invalidResponse`; a transport error passes through |
| Requests.CopyModel | Sources/OllamaKit/OllamaKit.swift:305-320 | success exactly on status 200, `modelNotFound` exactly on 404, `invalidStatusCode` exactly on any other status, `invalidResponse` exactly on a non-HTTP response |
| Requests.DeleteModel | Sources/OllamaKit/OllamaKit.swift:322-334 | the same status mapping as copying a model |
| Requests.ModelRequestAgreesWithRequestData | Sources/OllamaKit/OllamaKit.swift:305-334 | copy and delete succeed on exactly the exchanges the buffered body request accepts, and map every exchange the same way |
| Requests.JsonRequest | Sources/OllamaKit/OllamaKit.swift:29-37 | the decoded body is returned exactly when the response is accepted and decodes; a decoding error passes through; a rejected response keeps the request's error |
| Requests.GetOllamaVersion | Sources/OllamaKit/OllamaKit.swift:18-27 | the version is returned exactly when the decoded dictionary has the key `"version"`, and is its value; `invalidVersion` exactly when the dictionary decodes but lacks the key; a rejected response keeps the request's error and a decoding error passes through unchanged |

## Left out

- URLSession construction, `URLRequest` building, `dataTask`/`resume`, HTTP and TLS (`Sources/OllamaKit/OllamaKit.swift:63-130` apart from the status checks): I/O, replaced by the transport event list and the `Reply` parameter.
- `Task { @MainActor … }`, `AsyncThrowingStream` continuations and `@unchecked Sendable`: concurrency wiring; the model is the sequential list of events the continuation receives.
- Cancellation and back-pressure: the source registers no termination handler, so there is no cancellation behaviour to model.
- JSON encoding of request bodies and JSON decoding of records: foreign library calls; decoding is an uninterpreted function parameter.
- `Sources/OllamaKit/Models.swift`: synthesized `Codable` data shapes with no behaviour (and floating-point fields).
- The per-endpoint wrappers (`generateCompletion`, `pullModel`, `listLocalModels`, …): each builds a request record and forwards to the modelled `jsonRequest`/`jsonStreamRequest`.
- Tests and `Package.swift`: live-server tests and build configuration.
- Callbacks after completion are not modelled: the URL session delivers exactly one completion after the last chunk, which `WellFormedTransport` states.
