# Image adapter model

A Dafny model of the image-generation adapter `services/adapters/imageAdapter.ts`. The adapter sends a
prompt, with optional reference images, to a Gemini-style `generateContent` endpoint and returns one
image as a data URI. The model covers:

- **`retryOperation`** (`retry.dfy`). This is the bounded retry loop with linear back-off. It is a
  function of the outcomes the operation's successive calls would have. It returns what the loop
  returns or rethrows, the number of calls made and the list of waits. A failure is terminal when its
  message merely *contains* `400`, `401` or `403`.
- **The request** (`request.dfy`). This covers:
  - endpoint and aspect-ratio resolution;
  - the character-consistency prompt wrapped around the caller's prompt when reference images are
    given, reproduced character for character;
  - the `^data:(image\/[a-zA-Z]+);base64,(.+)$` match that turns reference images into `inlineData`
    parts, with non-matching references skipped;
  - the `generationConfig` that names an aspect ratio only when it is not 16:9;
  - the headers and the POST target.
- **`extractMarkdownImageUrl`** (`markdown.dfy`). This is the first `![alt](http(s)://…)` link, as the
  regular expression finds it. It is related by proof to a declarative "first image link" definition.
- **`parseSseImageResponse`** (`sse.dfy`). This is a fold over the decoded text chunks:
  - events end at two consecutive line feeds (`"\n\n"`), so a blank line written as `\r\n\r\n` ends no event;
  - `data:` lines are extracted and joined;
  - `[DONE]` is handled;
  - the first non-empty `inlineData.data` wins;
  - text accumulates for the link fallback.
- **The single-document branch** (`single_doc.dfy`). Only the first candidate is read. Its first part
  with `inlineData` returns at once, and otherwise the collected text is searched for a link. The
  branch is also implemented as the source's loop and proved equal to the declarative result.
- **`fetchImageBlob` / `convertImageUrlToBase64`** (`asset_fetch.dfy`). These are the direct download
  and the same-origin `/image-proxy` fallback, over fetch outcomes given as a function.
- **`callImageApi` and `isAspectRatioSupported`** (`image_api.dfy`). These cover:
  - the configuration errors;
  - the retried POST with its status-to-message mapping;
  - the choice of strategy by `content-type`;
  - the download of a linked image.

Shared pieces:

| file | contents |
|---|---|
| `base.dfy` | `Option`, `Result` |
| `strings.dfy` | JavaScript's `includes`, `startsWith`, `split` and `trim`; the `\s` class; decimal rendering |
| `wire.dfy` | the JSON shapes of parts, candidates and payloads |
| `errors.dfy` | the exact error messages |
| `extraction.dfy` | the result both response strategies share |

Everything the network, the clock and the model registry decide is an input:

- the outcome of each POST attempt;
- the page origin;
- a `fetch` function for linked images;
- `encodeURIComponent`;
- a blob reader;
- `JSON.parse`, as a function returning `None` when it throws;
- what reading a failing response's body as JSON yields: its `error.message`, no message, or a throw;
- the message of the `TypeError` that `res.text()` rejects with once `res.json()` has consumed the body.

The comment at `services/adapters/imageAdapter.ts:141` says that 400, 401 and 403 errors are not
retried. The code decides by message text, and this model follows the code:

- The 400 branch throws a message without digits, so a real 400 is retried three times
  (`ImageApi.Status400IsRetried`).
- A 401 or 403 whose JSON body has a non-empty `error.message` is thrown with that message. So it is
  retried too, unless the message happens to contain one of the codes
  (`ImageApi.DescribedClientErrorIsRetried`).
- A 401 or 403 whose body is not JSON never reaches the status text. `res.json()` consumes the body
  before it throws, so the `res.text()` in the `catch` rejects with a `TypeError`. That error escapes,
  names no code, and is retried (`ImageApi.UnreadableClientErrorIsRetried`).
- Only a JSON body without `error.message` leaves the status text `HTTP 错误: 401`/`403`, and only
  that is terminal (`ImageApi.Status401IsTerminal`).

## Model

| member | source | states |
|---|---|---|
| Retry.Run | services/adapters/imageAdapter.ts:129-154 | At most `maxRetries` calls are made. There is one wait fewer than calls, and the waits are `delay * 1, delay * 2, …`. A returned value is the success of the last call made. `null` is thrown exactly when no call is made, and at least one call is made when `maxRetries` is positive. |
| Retry.RunStopsAtFirstDecisive | services/adapters/imageAdapter.ts:136-146 | The loop ends at the first call that succeeds or fails with a message containing 400/401/403, after exactly that many calls and the waits before it. |
| Retry.RunExhausts | services/adapters/imageAdapter.ts:136-153 | When every call fails retryably, all `maxRetries` calls are made, with `maxRetries - 1` waits and none after the last, and the last error is rethrown. |
| Retry.NoAttemptsThrowsNull | services/adapters/imageAdapter.ts:134-153 | With `maxRetries <= 0` the operation is never called and `null` is thrown. |
| Retry.DefaultScheduleWhenAllFail | services/adapters/imageAdapter.ts:129-153 | With the defaults, three transient failures wait 2000 then 4000 ms and rethrow the third error. |
| Retry.SucceedsOnThirdAttempt | services/adapters/imageAdapter.ts:136-149 | Two transient failures then a success return that success after waits of `delay` and `2 * delay`. |
| Retry.MessageMentioning4000IsTerminal | services/adapters/imageAdapter.ts:142-145 | The classification is textual: "timeout after 4000ms" contains `400` and is rethrown after one call. |
| Markdown.MatchAt | services/adapters/imageAdapter.ts:14-14 | A match tried at one index yields an http(s) URL with no whitespace and no `)`. |
| Markdown.MatchAtComplete | services/adapters/imageAdapter.ts:14-14 | Every image link `![alt](url)` starting at an index is what the match at that index returns. |
| Markdown.ExtractMarkdownImageUrl | services/adapters/imageAdapter.ts:13-16 | The extracted URL starts with `http://` or `https://` followed by at least one character, and contains no whitespace and no `)`. |
| Markdown.ExtractFindsFirstLink | services/adapters/imageAdapter.ts:13-16 | The result is `u` exactly when some image link with URL `u` starts at an index before which no image link starts. |
| Markdown.ExtractNoneIffNoLink | services/adapters/imageAdapter.ts:13-16 | `null` is returned exactly when the text holds no image link anywhere. |
| Markdown.ExtractLinkAfterPlainText | services/adapters/imageAdapter.ts:14-15 | A link after text without `!` is found, whatever text follows it. |
| Request.ConsistencyPrompt | services/adapters/imageAdapter.ts:186-209 | The wrapped prompt is longer than the prompt and contains it in double quotes. |
| Request.RecoverConsistencyPrompt | services/adapters/imageAdapter.ts:186-209 | The wrapping changes nothing in the prompt: stripping the fixed head and tail gives back exactly the caller's prompt. |
| Request.UnwrapWrap | services/adapters/imageAdapter.ts:186-209 | For any head and tail, unwrapping recovers what was wrapped. |
| Request.FinalPrompt | services/adapters/imageAdapter.ts:182-210 | Without reference images (absent or empty) the prompt is sent unchanged. With them it is the wrapped prompt, which contains the quoted prompt and unwraps to it. |
| Request.MatchDataUri | services/adapters/imageAdapter.ts:218-218 | A successful match captures an `image/<letters>` mime type and a non-empty payload with no line terminator, which rebuild the input as `data:<mime>;base64,<data>`. |
| Request.MatchDataUriIff | services/adapters/imageAdapter.ts:218-219 | The pattern matches a string with captures (m, d) if and only if the string is `data:m;base64,d` for an image mime type m and a payload d. |
| Request.ReferencePartsRoundTrip | services/adapters/imageAdapter.ts:216-228 | Well-formed images sent as data URIs become inline parts with the same mime types and payloads, in the same order. |
| Request.MalformedReferenceSkipped | services/adapters/imageAdapter.ts:216-228 | A reference that does not match adds no part, wherever it stands in the list. |
| Request.RequestParts | services/adapters/imageAdapter.ts:212-228 | The parts start with exactly one text part holding the final prompt. All other parts are inline-only, at most one per reference image, and there are none without references. |
| Request.ReferenceParts | services/adapters/imageAdapter.ts:216-228 | At most one part per reference, and one for each when every reference matches. Every part is inline-only, and its mime type and payload rebuild one of the references. |
| Request.BuildGenerationConfig | services/adapters/imageAdapter.ts:236-246 | The modalities are always TEXT and IMAGE. `imageConfig` is present if and only if the ratio is not 16:9, and the ratio the provider reads is always the resolved one. |
| Request.BuildRequest | services/adapters/imageAdapter.ts:164-258 | The request fails exactly when the configuration check does, with its error. A built request is a POST under the base URL that carries the bearer header. |
| Request.RequestTarget | services/adapters/imageAdapter.ts:175-258 | The URL is base + endpoint, with `/v1beta/models/<id>:generateContent` when the endpoint is unset. It has the three headers, one user content holding the parts, and `imageConfig` exactly when the ratio (the caller's, else the model default) is not 16:9. |
| Request.RequestRoundTrip | services/adapters/imageAdapter.ts:182-246 | With well-formed references the body loses nothing: a reader recovers the prompt, every reference image in order, and the resolved aspect ratio. |
| Sse.StripDataPrefix | services/adapters/imageAdapter.ts:79-79 | `replace(/^data:\s?/)` removes `data:` and at most one whitespace character, and only when that character is whitespace. |
| Sse.Feed | services/adapters/imageAdapter.ts:70-72 | After a read the buffer is the text after the last `"\n\n"`, and it never holds a complete event. |
| Sse.FeedAllIsOneRead | services/adapters/imageAdapter.ts:66-74 | Reading chunks one by one reaches the same state as a single read of their concatenation. |
| Sse.ChunkBoundariesIrrelevant | services/adapters/imageAdapter.ts:66-74 | Two streams with the same text end in the same state and the same result, however they are chunked. |
| Sse.ParseSseImageResponse | services/adapters/imageAdapter.ts:54-124 | A null body throws the empty-body error. Otherwise only the complete events of the text count: the first non-empty inline data among all their parts wins, as a PNG data URI; else the first image link in all their text; else the no-image error. The done marker and STOP play no part. |
| Sse.NoSeparatorNoImage | services/adapters/imageAdapter.ts:66-123 | Text without `"\n\n"` completes no event: nothing is parsed, and the stream ends with the no-image error. |
| Sse.PresentEmptyBodyHasNoImage | services/adapters/imageAdapter.ts:54-56 | Only a null body is the empty-body error; a body that is present but holds no text gives the different no-image error. |
| Sse.CrlfBlankLineEndsNoEvent | services/adapters/imageAdapter.ts:70-74 | Lines are split at `\r?\n` but events only at `"\n\n"`, so `data: x\r\n\r\n` completes no event and gives the no-image error. |
| Sse.TrailingEventNeverParsed | services/adapters/imageAdapter.ts:66-108 | Text after the last `"\n\n"` is never parsed: appending text that completes no event leaves the result unchanged. |
| Sse.LaterEventsCannotReplaceImage | services/adapters/imageAdapter.ts:95-98 | Once complete events have produced an image, nothing that arrives later changes the result. |
| Sse.OtherLinesIgnored | services/adapters/imageAdapter.ts:75-79 | Lines that do not start with `data:` contribute nothing to an event's data. |
| Sse.OneLineEvent | services/adapters/imageAdapter.ts:75-79 | A one-line event carries its value with the prefix stripped and then trimmed. |
| Sse.DoneEvent | services/adapters/imageAdapter.ts:79-84 | `data:[DONE]`, with at most one whitespace character other than a line feed after the colon, is the done signal. |
| Extraction.LinkOrFail | services/adapters/imageAdapter.ts:118-123 | The fallback gives a linked image exactly when the text holds an image link, and that link is the one `extractMarkdownImageUrl` returns, an http(s) URL. Otherwise it gives the given error, and it never gives inline data. |
| SingleDoc.FirstInline | services/adapters/imageAdapter.ts:298-301 | Finds the first part with `inlineData`: no earlier part has it, and none at all when there is none. |
| SingleDoc.DocumentResult | services/adapters/imageAdapter.ts:294-313 | Inline data is returned exactly when some part of the first candidate has `inlineData`, and it is the PNG data URI of the first such part. A linked image is the first image link in the text of the first candidate's parts. Any failure is the document no-image error. |
| SingleDoc.ParseDocument | services/adapters/imageAdapter.ts:287-313 | The invalid-JSON error is thrown exactly when the body does not parse. A parsed body gives the document result. |
| SingleDoc.ExtractDocument | services/adapters/imageAdapter.ts:295-313 | The source's loop, with its early return and text accumulation, yields exactly the declarative document result. |
| SingleDoc.InlinePartDecides | services/adapters/imageAdapter.ts:295-301 | The first part with `inlineData` yields `data:image/png;base64,<data>`, whatever its mime type, later parts or later candidates. |
| SingleDoc.TextFallback | services/adapters/imageAdapter.ts:296-313 | Without inline data, the text of all parts of the first candidate decides through the link fallback, and later candidates are ignored. |
| SingleDoc.MissingDataRendersUndefined | services/adapters/imageAdapter.ts:299-300 | An `inlineData` without `data` still returns, as `data:image/png;base64,undefined`. |
| AssetFetch.FetchImageBlob | services/adapters/imageAdapter.ts:21-39 | A direct success returns its blob. A returned blob comes from the direct fetch or, with an origin, from the proxy. A thrown error is the direct fetch's, or the proxy's own rejection, and only after the direct fetch failed and the proxy did not succeed. |
| AssetFetch.FetchSucceedsIff | services/adapters/imageAdapter.ts:21-39 | A blob is obtained if and only if the direct fetch succeeds, or the page has an origin and the proxy succeeds. |
| AssetFetch.ProxyUnusedAfterDirectSuccess | services/adapters/imageAdapter.ts:22-27 | Once the direct fetch succeeds, what the proxy would answer does not matter. |
| AssetFetch.ProxyFailureReportsDirectStatus | services/adapters/imageAdapter.ts:24-34 | A direct 404 with a failing proxy throws `图片下载失败: HTTP 404`. |
| AssetFetch.DownloadErrorNamesStatus | services/adapters/imageAdapter.ts:25-25 | The download error is its prefix followed by decimal digits that read back as the status. |
| AssetFetch.ConvertImageUrlToBase64 | services/adapters/imageAdapter.ts:41-49 | A data URL is returned exactly when a blob is obtained and the reader converts it, and it is the reader's result. An error is the download's, or the conversion error after a successful download. |
| ImageApi.HttpErrorMessage | services/adapters/imageAdapter.ts:260-276 | 400 and 500 get their fixed messages. Otherwise a non-empty `error.message` of a JSON body is the message. A body that is not JSON gives the `TypeError` of the second read. A JSON body without a message, or a null body, gives the status text. |
| ImageApi.StatusMessage | services/adapters/imageAdapter.ts:268-268 | The status text is `HTTP 错误: ` followed by decimal digits that read back as the status. |
| ImageApi.AttemptOf | services/adapters/imageAdapter.ts:249-280 | An attempt returns exactly when the response status is 200-299, and returns that response. A rejected fetch throws its own message, and a failing status throws the `HttpErrorMessage` of its body. |
| ImageApi.ReadResponse | services/adapters/imageAdapter.ts:282-292 | A content type containing `text/event-stream` selects the stream reading: a null body is the empty-body error, else the result of its complete events. Anything else must be one JSON document: no body or a body that does not parse is the invalid-JSON error, else the document result. |
| ImageApi.CallImageApi | services/adapters/imageAdapter.ts:159-292 | Configuration errors are thrown with no attempt and no wait. Otherwise one to three attempts are made with one wait fewer, and a successful result comes from an attempt that succeeded. |
| ImageApi.Post | services/adapters/imageAdapter.ts:249-292 | The retried POST makes one to three attempts with one wait fewer, and a result comes only from a successful attempt. |
| ImageApi.ConfigurationErrorsMakeNoAttempts | services/adapters/imageAdapter.ts:164-173 | No model throws the no-model error, and no key throws `ApiKeyError`. Neither makes a request or waits. |
| ImageApi.RetryableWithoutFour | services/adapters/imageAdapter.ts:142-144 | A message with no digit 4 is never terminal. |
| ImageApi.Status400IsRetried | services/adapters/imageAdapter.ts:260-263 | Because the 400 message has no digits, three 400 responses mean three requests, waits of 2000 and 4000 ms, and the 400 message thrown. |
| ImageApi.DescribedClientErrorIsRetried | services/adapters/imageAdapter.ts:268-276 | A 401/403 whose JSON body carries a non-empty `error.message` without a 4 is retried three times with waits of 2000 and 4000 ms, and that message is thrown. |
| ImageApi.UnreadableClientErrorIsRetried | services/adapters/imageAdapter.ts:268-276 | A 401/403 whose body is not JSON fails with the `TypeError` of reading the consumed body again. When that message has no 4, the request is retried three times and that error is thrown. |
| ImageApi.Status401IsTerminal | services/adapters/imageAdapter.ts:268-276 | A 401 whose JSON body has no `error.message` throws `HTTP 错误: 401` after one request and no wait. |
| ImageApi.FirstStreamResponseDecides | services/adapters/imageAdapter.ts:279-285 | An ok event-stream response on the first attempt ends the retries, and the call's result is the stream's. |
| ImageApi.CallDecidedAt | services/adapters/imageAdapter.ts:249-292 | The call ends at the first attempt that is ok or fails with a message naming 400/401/403, after one wait per earlier attempt. An ok response is read by the strategy its content type selects, and a linked image is downloaded. A failure throws its message. |
| ImageApi.CallExhausted | services/adapters/imageAdapter.ts:249-280 | Three retryable failures make three requests with waits of 2000 and 4000 ms, and the third failure's message is thrown. |
| ImageApi.EmptyInlineDataDiffers | services/adapters/imageAdapter.ts:294-301 | An empty `inlineData.data` gives the bare `data:image/png;base64,` in a document. A stream skips it (line 96) and, with no text, throws. |
| ImageApi.IsAspectRatioSupported | services/adapters/imageAdapter.ts:319-327 | True if and only if there is a model and the ratio is in its supported list. |
| Strings.SplitJoin | services/adapters/imageAdapter.ts:71-71 | Splitting on a separator and joining the pieces with it restores the text, so framing loses no character. |
| Strings.NatToStringRoundTrip | services/adapters/imageAdapter.ts:268-268 | The decimal rendering of a status reads back as that status. |

## Left out

- `fetch`, `Response`, the `ReadableStream` reader, `TextDecoder` and `FileReader` are browser I/O. Their results are inputs: the outcome of each POST attempt, the decoded body chunks, a fetch function for linked images and a blob reader.
- `setTimeout`: waits are recorded as a list of delays, not elapsed time.
- The model registry (`getActiveImageModel`, `getApiKeyForModel`, `getApiBaseUrlForModel`) is not part of this model. The model in use, its key and its base URL are inputs, and `ApiKeyError` is modelled as an error with a message.
- `JSON.stringify` and `JSON.parse`: the request body is a structured value, and parsing is a parameter that returns `None` when `JSON.parse` throws.
- Payloads are typed: a non-array `candidates`, a non-object payload or a non-string `data` are not modelled. Neither are the `TypeError`s they would raise, which the stream's `try` would swallow in the middle of an event.
- The error body of a failing response is read through two inputs: what `res.json()` and `error?.message` make of its text, and the message of the `TypeError` that `res.text()` rejects with on a consumed body. A non-string `error.message` is not modelled, and the escaping `TypeError` is modelled as an error carrying its message.
- ImageApi.CallImageApi: its own contract states only the number of attempts and waits, and that a result comes from a successful attempt. What the result is, attempt by attempt, is stated by `ImageApi.CallDecidedAt` and `ImageApi.CallExhausted`.
- ImageApi.Post: like `CallImageApi`, its contract states only counts; `ImageApi.CallDecidedAt` and `ImageApi.CallExhausted` state its result.
- `encodeURIComponent` is a parameter, and `response.blob()` never fails.
- `maxRetries` and `delay` are integers. Fractional or `NaN` arguments are not modelled.
- The video and chat adapters, and the React components, are outside this model.
- Retry.Run: a thrown value that is not an `Error` (no `message`) is not modelled; every failure carries a message string.
- Strings are sequences of Unicode scalar values, while JavaScript strings are UTF-16 code units. A lone surrogate, such as one a JSON `\ud800` escape puts into `part.text`, cannot be represented. No branch of the core treats surrogates specially: such a character would be carried along like any other one.
