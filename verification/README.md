# stream_utils: pull-driven stream encoders, modelled in Dafny

This project models the core of `stream_utils`. The library is a set of small
pull-driven stream adapters. Each one wraps an inner stream and encodes its
items while they are still being produced. Every call of `poll_next` asks the
inner stream at most once. The answer is `Pending`, `Ready(Some(item))` or
`Ready(None)`. The adapter then produces exactly one output poll result and
updates a few boolean flags.

The adapters modelled:

- `JsonArrayStream` frames items as a JSON array. It emits `[\n    `, then
  each serialised item, with `,\n    ` in front of every successful item but
  the first. It emits `\n]` on the poll that sees the inner stream end, and
  `Ready(None)` on every poll after that.
- `JsonMapStream` is the same machine over `(key, value)` pairs. It emits
  `{\n    `, then `key: value` members, then `\n}`.
- `HexStream` turns every byte chunk into lowercase hex. Every chunk after the
  first successful one gets the configured line ending (`\r\n` by default, or
  `\n`) appended. It has no closing token.
- `PseudoStream` turns a future into a stream with a single item.
- `MapRes` / `MapOption` (`inner_res_map`, `inner_option_map`) map the inner
  value of each item of a stream of `Result`s or `Option`s.
- `SerializedStreamError` (src/serialized_stream_error.rs:11-15, the
  datatype `StreamError.SerializedStreamError`) is the error type every
  encoder reports through. It has the variants `SourceError(e)`, `SerdeError`
  and `HexError`. It maps
  to an HTTP status code, an HTTP error response, and Display/Debug text.

## How the model is built

- `Streams` (streams.dfy) holds `Option`, `Result` and `Poll`. It also holds
  `Script`, a class for the inner stream (or future) that an adapter polls.
  A script answers a fixed sequence of poll results, one per poll, and then a
  fixed `afterwards` answer on every later poll. Its `polls` counter records
  whether an adapter polled it.
- Each stateful adapter (`JsonArrayStream`, `JsonMapStream`, `HexStream`,
  `PseudoStream`) is a class with the flags of the Rust struct as fields. Its
  `PollNext` method follows the Rust `poll_next` statement by statement. The
  method's postcondition ties the new flags, the output and the number of
  inner polls to a pure step function: `Framing.FrameStep`, `Hex.HexPoll` or
  `Pseudo.PseudoPoll`.
- Each framer class keeps `Valid()`, the reachable-flags invariant: `From`
  establishes it and `PollNext` requires and keeps it.
- Whole-run properties are lemmas about run functions. A run function folds
  the step over the sequence of inner answers (`FrameRun`, `HexRun`,
  `PseudoRun`). In a run, an inner stream whose answers are used up has ended
  (`Ready(None)`), and a future whose answers are used up stays `Pending`.
  A `CollectPolls` method per stateful adapter creates a `Script` and the
  adapter, calls `PollNext` repeatedly, and is proved to collect exactly the
  run function's outputs. This ties the classes to the run lemmas.
- `MapRes` and `MapOption` keep no state besides the wrapped stream. They are
  modelled in `InnerMap` as functions over runs: the wrapped stream's run is
  the inner run mapped poll by poll (`InnerResMap`, `InnerOptionMap`).
- `JsonGrammar` (json_grammar.dfy) states the array and object grammar of
  RFC 8259 (structural tokens of section 2, objects of section 4, arrays of
  section 5), with item, key and value texts taken as given. `JsonShape`
  proves that clean framer runs match it.
- The JSON array and object framers have the same three-flag machine. It is
  defined once, in `Framing`. Each framer serialises the inner item first
  (`JsonArray.EncodeValue`, `JsonMap.EncodeMember`) and then applies the shared
  step. This order is sound because serialisation does not depend on the flags.
- Serialisation is a function parameter `ser: T -> Result<string, Failure>`
  that may fail. The map framer takes one for keys and one for values.
- The wrapped error type's `ResponseError`, `Display` and `Debug`
  implementations are a `SourceBehaviour<E>` value of functions.

## Behaviour as written

Behaviour that is easy to get wrong when reading the code, as the model
states it:

- The closing token is emitted on the same poll that sees the inner stream
  end (src/json_array_stream.rs:86-89, src/json_map_stream.rs:88-91). It is
  not deferred to the next poll.
- `is_first` changes only on a successful item. A source error or a
  serialisation failure leaves it unchanged (src/json_array_stream.rs:77-83).
  So the next successful item after a failed first item has no separator.
- The hex line ending is a suffix: it is appended after the hex of every
  chunk but the first (src/hex_stream.rs:77-81). `[0x00]`, `[0xFF]` with
  `CrLf` give `"00"` and then `"ff\r\n"`.
- The hex stream never produces `HexError`. It has no terminal flag, so a
  poll after `Ready(None)` asks the inner stream again.
- `JsonMapStream` frames one flat object from one inner stream of pairs. It
  does not multiplex several labelled sub-streams.
- src/json_array_stream.rs:73 names a variant `SerializationError` that the
  error enum does not declare. The enum's serde variant is `SerdeError`
  (src/serialized_stream_error.rs:13), and the model uses it.
- The serialisation closure at src/json_array_stream.rs:72-74 wraps
  serde_json's error. `Failure(display, debug)` stands for that error.

## Model

| member | source | states |
|---|---|---|
| StreamError.JsonInternalServerErrorResponse | src/serialized_stream_error.rs:42-46 | status 500, content type `application/json`, body `{"error": "Internal Server Error"}` |
| StreamError.StatusCodeByVariant | src/serialized_stream_error.rs:52-58 | a source error has the wrapped error's status code; `SerdeError` and `HexError` are 500 |
| StreamError.ErrorResponseByVariant | src/serialized_stream_error.rs:60-66 | a source error answers the wrapped error's response; `SerdeError` answers the JSON 500; `HexError` answers a bare 500 with no content type and no body |
| StreamError.ResponseAgreesWithStatus | src/serialized_stream_error.rs:52-66 | if the wrapped error's response carries its own status code, every variant's response carries `StatusCode` |
| StreamError.StatusCode | src/serialized_stream_error.rs:52-58 | the status of a source error is the wrapped error's own; `SerdeError` and `HexError` are 500 (as a lemma: `StatusCodeByVariant`) |
| StreamError.ErrorResponse | src/serialized_stream_error.rs:60-66 | the response of a source error is the wrapped error's; `SerdeError` gives the JSON 500; `HexError` gives a bare response with the variant's status (as a lemma: `ErrorResponseByVariant`) |
| StreamError.Display | src/serialized_stream_error.rs:28-39 | each variant displays as the value it wraps; which variants the encoders actually produce is stated by `ArrayErrorsTraceBack`, `MapErrorsTraceBack` and `HexErrorsTraceBack` |
| StreamError.Debug | src/serialized_stream_error.rs:16-27 | each variant debug-formats as the value it wraps; as for `Display`, the trace-back lemmas state what reaches it |
| Framing.FrameStep | src/json_array_stream.rs:55-92 | one poll of either JSON framer as a value: new flags, output, and whether the inner stream was polled; its cases are stated by `OpeningStep`, `TerminalStep` and `StreamingStep` |
| Framing.OpeningStep | src/json_array_stream.rs:62-64 | the first poll answers the opening token, sets `opening_emitted` and does not poll the inner stream |
| Framing.TerminalStep | src/json_array_stream.rs:65-66 | once the closing token is out, a poll answers `Ready(None)`, changes no flag and does not poll the inner stream |
| Framing.StreamingStep | src/json_array_stream.rs:67-90 | while streaming: pending and errors pass through with the flags unchanged; a success gets `,\n    ` unless first and clears `is_first`; the inner end answers the closing token on that same poll |
| Framing.IsFirstOnlyOnSuccess | src/json_array_stream.rs:77-83 | `is_first` is cleared exactly by a poll that answers a successful item |
| Framing.StepKeepsReachable | src/json_array_stream.rs:55-92 | a step keeps `closing_emitted ==> opening_emitted` and `!opening_emitted ==> is_first` |
| Framing.FrameRunErrors | src/json_array_stream.rs:70-84 | every error a run answers is one of the encoded inner answers: the framer passes errors through and never makes one up |
| Framing.ClosedRun | src/json_array_stream.rs:65-66 | a closed framer answers `Ready(None)` on every poll of any run |
| Framing.StreamingRunText | src/json_array_stream.rs:67-90 | from the streaming state, a run's text is a prefix of the successful items (separated from `is_first` on) plus the closing token, and equals it once the inner end is reached |
| Framing.FrameRunText | src/json_array_stream.rs:55-92 | for any inner answers, with errors and pending polls, a run's text is a prefix of open + join(successful items, `,\n    `) + close, and equals it after one poll more than the inner stream needs to end |
| Framing.CleanRun | src/json_array_stream.rs:62-89 | with n items that all encode, n + 2 + k polls give open, the framed items, close and then k end-of-stream answers |
| Framing.CleanRunShape | src/json_array_stream.rs:62-89 | the chunks of a clean run one by one: open, item i (separator unless i = 0), close, then `Ready(None)` |
| Framing.CleanRunText | src/json_array_stream.rs:62-89 | a clean run over n items has n + 2 successful chunks, spelling open + join(items, `,\n    `) + close |
| JsonArray.EncodeValue | src/json_array_stream.rs:71-76 | an inner error becomes `SourceError(e)`; a value serialises to its text, or a serialisation failure becomes `SerdeError` |
| JsonArray.JsonArrayStream.From | src/json_array_stream.rs:37-44 | a new framer has `opening_emitted` and `closing_emitted` false, `is_first` true, holds the given stream, and is `Valid` |
| JsonArray.JsonArrayStream.PollNext | src/json_array_stream.rs:55-92 | the new flags, the output and the inner poll count follow `FrameStep` on the serialised next inner answer; the flags stay reachable (`Valid`: no closing before opening, no item before opening) |
| JsonArray.CollectPolls | src/json_array_stream.rs:55-92 | polling a new framer n times over an inner stream yields exactly the outputs of `ArrayRun`, with the framer's flags reachable throughout |
| JsonArray.ArrayCleanRun | src/json_array_stream.rs:62-89 | n serialisable items give exactly n + 2 `Ok` chunks and then `None`; their concatenation is `[\n    ` + join(items, `,\n    `) + `\n]` |
| JsonArray.EmptyArray | src/json_array_stream.rs:62-89 | an inner stream that ends at once gives `[\n    \n]` and then `None` |
| JsonArray.ArrayRunText | src/json_array_stream.rs:62-89 | any run spells a prefix of `[\n    ` + join(items that serialised) + `\n]`, and all of it once the inner end is reached |
| JsonArray.ErrorAfterFirstItem | src/json_array_stream.rs:70-89 | item, error, end gives open, item, `SourceError(e)`, close, `None` |
| JsonArray.ArrayErrorsTraceBack | src/json_array_stream.rs:70-84 | every error output is `SourceError` of an error the inner stream answered or `SerdeError` of an item's serialisation failure, never `HexError`; its status, response, Display and Debug are those of the wrapped error (500 and the JSON 500 for a serialisation failure) |
| JsonShape.CleanRunIsArray | src/json_array_stream.rs:62-89 | the text of a clean run is a JSON array in the grammar of section 5 of RFC 8259 (brackets and commas with only whitespace around them) whose elements are exactly the serialised items, in order |
| JsonArray.ErrorBeforeFirstItem | src/json_array_stream.rs:71-83 | after an error before the first item, the next item still comes without a separator |
| JsonMap.EncodeMember | src/json_map_stream.rs:65-78 | an inner error becomes `SourceError(e)`; a key failure is reported without looking at the value; otherwise a value failure is reported; on success the member is `ser(key): ser(value)` |
| JsonMap.JsonMapStream.From | src/json_map_stream.rs:31-38 | a new framer has `opening_emitted` and `closing_emitted` false, `is_first` true, holds the given stream, and is `Valid` |
| JsonMap.JsonMapStream.PollNext | src/json_map_stream.rs:49-94 | the new flags, the output and the inner poll count follow `FrameStep` on the next inner answer with its member serialised; the flags stay reachable (`Valid`) |
| JsonMap.CollectPolls | src/json_map_stream.rs:49-94 | polling a new framer n times over an inner stream yields exactly the outputs of `MapRun`, with the flags reachable throughout |
| JsonMap.MapCleanRun | src/json_map_stream.rs:56-91 | n serialisable entries give exactly n + 2 `Ok` chunks and then `None`; their concatenation is `{\n    ` + join(members, `,\n    `) + `\n}` |
| JsonMap.MapErrorsTraceBack | src/json_map_stream.rs:65-78 | every error output is `SourceError` of an error the inner stream answered or `SerdeError` of a key's failure (or of a value's failure behind a key that serialised), never `HexError`; its status, response, Display and Debug are those of the wrapped error |
| JsonShape.CleanRunIsObject | src/json_map_stream.rs:56-91 | the text of a clean run is a JSON object in the grammar of section 4 of RFC 8259 whose members are exactly the serialised keys and values, in order, each joined by a colon followed by whitespace |
| JsonMap.MapRunText | src/json_map_stream.rs:56-91 | any run spells a prefix of `{\n    ` + join(members that serialised) + `\n}`, and all of it once the inner end is reached |
| Hex.LineEnding.Value | src/hex_stream.rs:30-35 | a line ending is one or more line-break characters ending in `\n` |
| Hex.DefaultLineEnding | src/hex_stream.rs:24-28 | the default line ending is `CrLf` (as a lemma: `LineEndingValues`) |
| Hex.LineEndingValues | src/hex_stream.rs:24-35 | `CrLf` is `\r\n`, `Lf` is `\n`, and the default is `CrLf` |
| Hex.LineEndingNames | src/hex_stream.rs:17-22 | the names `crlf` and `lf` parse back to their line endings, and only they parse |
| Hex.HexEncode | src/hex_stream.rs:76 | the hex of n bytes is 2n lowercase hex digits |
| Hex.HexRoundTrip | src/hex_stream.rs:76 | hex decoding the hex of any bytes gives the bytes back |
| Hex.HexStream.From | src/hex_stream.rs:51-57 | a new encoder has `is_first` true and holds the given line ending and stream |
| Hex.HexPoll | src/hex_stream.rs:67-89 | one poll of the hex encoder as a value: the new `is_first` and the output |
| Hex.HexIsFirstOnlyOnSuccess | src/hex_stream.rs:75-85 | `is_first` is cleared by a successful chunk and by nothing else |
| Hex.HexStream.PollNext | src/hex_stream.rs:67-89 | every poll polls the inner stream once; the new `is_first` and the output follow `HexPoll` |
| Hex.HexPassThrough | src/hex_stream.rs:73-87 | output i is pending or end exactly when inner answer i is; an inner error becomes `SourceError(e)`; `HexError` never appears |
| Hex.HexErrorsTraceBack | src/hex_stream.rs:84-86 | every error output is `SourceError` of the inner error at that position; its status, response, Display and Debug are those of the wrapped error |
| Hex.CollectPolls | src/hex_stream.rs:67-89 | polling a new encoder once per inner answer yields exactly the outputs of `HexRun` |
| Hex.HexRunText | src/hex_stream.rs:67-89 | the text of any run is the hex of each delivered chunk followed by the line ending, except the very first chunk of a new encoder, which has none |
| Hex.ErrorThenChunk | src/hex_stream.rs:75-86 | a source error before the first chunk keeps the first-chunk exemption: the chunk after it has no line ending |
| Hex.HexCleanRun | src/hex_stream.rs:75-82 | chunk i becomes its hex, with the line ending appended unless it is the first chunk |
| Hex.PollStripped | src/hex_stream.rs:73-87 | with line breaks removed, the text of one poll is the hex of the bytes of its inner answer |
| Hex.HexRunStripped | src/hex_stream.rs:67-89 | with line breaks removed, the text of any run is the hex of all bytes delivered, in order |
| Hex.HexRunRoundTrip | src/hex_stream.rs:67-89 | decoding the stripped text of any run gives exactly the bytes delivered |
| Hex.TwoChunksCrLf | src/hex_stream.rs:75-82 | `[0x00]`, `[0xFF]` with `CrLf` give `"00"` then `"ff\r\n"` |
| Pseudo.PseudoStream.From | src/pseudo_stream.rs:26-31 | a new pseudo stream has `emitted` false and holds the given future |
| Pseudo.PseudoPoll | src/pseudo_stream.rs:42-55 | one poll of the pseudo stream as a value: the new `emitted`, the output, and whether the future was polled |
| Pseudo.PseudoStream.PollNext | src/pseudo_stream.rs:42-55 | the new `emitted`, the output and the future's poll count follow `PseudoPoll`; once emitted, the future is not polled |
| Pseudo.CollectPolls | src/pseudo_stream.rs:42-55 | polling a new pseudo stream n times over a future yields exactly the outputs of `PseudoRun` |
| Pseudo.EmittedRun | src/pseudo_stream.rs:44-45 | once emitted, every poll of any run answers `Ready(None)` |
| Pseudo.PseudoRunShape | src/pseudo_stream.rs:42-55 | polls are pending until the future completes; the completing poll yields its output; later polls answer `None` |
| Pseudo.AtMostOneItem | src/pseudo_stream.rs:42-55 | over any run at most one item is yielded, and it is the future's output on that poll |
| InnerMap.MapResPoll | src/inner_map_stream.rs:35-46 | pending, success, error and end stay in place; a success carries `on_ok(v)` and an error `on_err(e)` |
| InnerMap.InnerResMap | src/inner_map_stream.rs:67-78 | the wrapped stream's run has the same length and is, poll by poll, the `MapRes` image of the inner run |
| InnerMap.InnerResMapKeepsShape | src/inner_map_stream.rs:35-46 | pending polls, errors, successes and the end sit at the same positions before and after mapping |
| InnerMap.InnerResMapIdentity | src/inner_map_stream.rs:41-44 | mapping with identity functions leaves a run unchanged |
| InnerMap.InnerResMapCompose | src/inner_map_stream.rs:41-44 | mapping twice equals mapping once with the composed functions |
| InnerMap.MapOptionPoll | src/inner_map_stream.rs:56-63 | pending, `Some(Some)`, `Some(None)` and end stay in place; a present value carries `on_some(v)` |
| InnerMap.InnerOptionMap | src/inner_map_stream.rs:80-89 | the wrapped stream's run has the same length and is, poll by poll, the `MapOption` image of the inner run |
| InnerMap.InnerOptionMapKeepsShape | src/inner_map_stream.rs:56-63 | every poll keeps its kind under mapping |
| InnerMap.InnerOptionMapIdentity | src/inner_map_stream.rs:58-61 | mapping with the identity leaves a run unchanged |
| InnerMap.InnerOptionMapCompose | src/inner_map_stream.rs:58-61 | mapping twice equals mapping once with the composed function |

## Left out

- src/owned_pool_stream.rs is not part of this model. It pins a database pool and keeps a query stream that borrows from it through an unsafe self-reference. Pinning, address stability and the database client have no counterpart here. Its `poll_next` only delegates to the stored stream, or answers `Pending` if there is none.
- src/actix_stream.rs is not part of this model. It is a thin conversion of items and errors into the web framework's byte and error types.
- src/lib.rs only declares modules and compiler feature gates. It does not declare `inner_map_stream` or `actix_stream`. The inner map adapters are modelled anyway.
- Async plumbing (`Context`, wakers, `Pin` projection) is left out. A poll takes the next answer of a `Script`.
- serde_json is a function parameter that may fail. `Bytes`/`String` conversions are left out; chunks are strings.
- The `hex` crate's encoder is replaced by `HexEncode`. `HexDecode` is a reference decoder used only to state the round trip.
- `HttpResponse` is reduced to a status, an optional content type and an optional body. Headers other than the content type are left out.
- The `serde_str_enum!` macro for `LineEnding` is modelled only as the names `crlf`/`lf` and their parsing. The macro's generated `FromStr`/`Deserialize` code is not part of this model (it lives in the `serde_utils` crate), so parsing is assumed to accept exactly `crlf` and `lf`, case-sensitively. Its generated error types and trait impls are left out.
- `std::fmt::Formatter` and `fmt::Result` are left out. Display and Debug are modelled as the text they write.
- Run lemmas cover inner streams that answer `Ready(None)` once their scripted answers are used up, and futures that stay `Pending`. A `Script` with another `afterwards` answer is still covered by each `PollNext` postcondition.
