/**
 * `callImageApi` and `isAspectRatioSupported`: configuration checks, the
 * request, the retried POST, the choice of response strategy by content
 * type, and the download of a linked image. Everything the network and the
 * model registry decide is an input.
 */
module ImageApi {
  import opened Base
  import opened Strings
  import opened Wire
  import opened Errors
  import opened Extraction
  import opened Request
  import Retry
  import Sse
  import Markdown
  import SingleDoc
  import AssetFetch

  /** A response to the POST: its status, its `content-type` header and its decoded body
      chunks (`None` for a null body). */
  datatype HttpResponse = HttpResponse(status: nat, contentType: Option<string>, body: Option<seq<string>>)

  /** One call of `fetch` for the POST: a response, or a rejection with its message. */
  datatype Exchange = Responded(response: HttpResponse) | NetworkFailure(message: string)

  /** Everything outside the adapter: the outcome of each POST attempt in order, the
      page's origin, the network for linked images, `encodeURIComponent`, the blob
      reader and `JSON.parse`. The last two fields describe how a failing response's body
      is read. `errorJson` is what `res.json()` then `errorData.error?.message` make of the
      body text: `None` when either throws (the text is not JSON, or is JSON `null`), else
      `Some` of the message, itself `None` when there is none. `bodyReadTwice` is the
      message of the `TypeError` with which `res.text()` rejects once `res.json()` has
      consumed the body. */
  datatype World<!B> = World(exchanges: seq<Exchange>, origin: Option<string>,
                            fetch: string -> AssetFetch.FetchOutcome<B>, encode: string -> string,
                            read: B -> Option<string>, parse: string -> Option<Payload>,
                            errorJson: string -> Option<Option<string>>, bodyReadTwice: string)

  /** What a call ends in, with the attempts made and the waits between them. */
  datatype Call = Call(result: Result<string, ImageError>, attempts: nat, delays: seq<int>)

  const EventStreamType: string := "text/event-stream"

  predicate IsOk(status: nat) {
    200 <= status <= 299
  }

  /** `HTTP 错误: ${res.status}`: the status in decimal after a fixed prefix. */
  function StatusMessage(status: nat): (m: string)
    ensures HasPrefix(m, HttpErrorPrefix)
    ensures forall k | |HttpErrorPrefix| <= k < |m| :: '0' <= m[k] <= '9'
    ensures DigitsValue(m[|HttpErrorPrefix|..]) == status
  {
    var digits := NatToString(status);
    NatToStringRoundTrip(status);
    assert (HttpErrorPrefix + digits)[|HttpErrorPrefix|..] == digits;
    HttpErrorPrefix + digits
  }

  /** The message with which an attempt that got a failing status throws. 400 and 500
      have fixed texts. Otherwise the body is read as JSON: a non-empty `error.message`
      replaces the status message. When that read throws, `res.text()` runs on a body
      `res.json()` has already consumed, and the `TypeError` it rejects with escapes the
      error branch. A null body is read by `res.json()` as "" (which throws) and by
      `res.text()` as "" (which keeps the status message). */
  function HttpErrorMessage(status: nat, body: Option<seq<string>>,
                            errorJson: string -> Option<Option<string>>, bodyReadTwice: string): (m: string)
    ensures status == 400 ==> m == Http400Message
    ensures status == 500 ==> m == Http500Message
    ensures status != 400 && status != 500 && body.None? ==> m == StatusMessage(status)
    ensures status != 400 && status != 500 && body.Some? ==>
      var offered := errorJson(Concat(body.value));
      && (offered.None? ==> m == bodyReadTwice)
      && (offered.Some? && offered.value.Some? && offered.value.value != "" ==> m == offered.value.value)
      && (offered == Some(None) || offered == Some(Some("")) ==> m == StatusMessage(status))
  {
    if status == 400 then Http400Message
    else if status == 500 then Http500Message
    else
      match body
      case None => StatusMessage(status)
      case Some(chunks) =>
        match errorJson(Concat(chunks))
        case None => bodyReadTwice
        case Some(message) =>
          if message.Some? && message.value != "" then message.value else StatusMessage(status)
  }

  /** One attempt of the retried operation: the response is returned exactly when its
      status is ok, and anything else is thrown with its message. */
  function AttemptOf<B>(x: Exchange, world: World<B>): (r: Retry.Attempt<HttpResponse>)
    ensures r.Success? <==> x.Responded? && IsOk(x.response.status)
    ensures r.Success? ==> r.value == x.response
    ensures x.NetworkFailure? ==> r.message == x.message
    ensures x.Responded? && !IsOk(x.response.status) ==>
      r.message == HttpErrorMessage(x.response.status, x.response.body, world.errorJson, world.bodyReadTwice)
  {
    match x
    case NetworkFailure(m) => Retry.Failure(m)
    case Responded(resp) =>
      if IsOk(resp.status) then Retry.Success(resp)
      else Retry.Failure(HttpErrorMessage(resp.status, resp.body, world.errorJson, world.bodyReadTwice))
  }

  function Attempts<B>(world: World<B>): (r: seq<Retry.Attempt<HttpResponse>>)
    ensures |r| == |world.exchanges|
    ensures forall k | 0 <= k < |world.exchanges| :: r[k] == AttemptOf(world.exchanges[k], world)
  {
    seq(|world.exchanges|, k requires 0 <= k < |world.exchanges| => AttemptOf(world.exchanges[k], world))
  }

  /** Whether the response is read as an event stream: its content type mentions
      `text/event-stream` (a missing header reads as empty). */
  predicate IsEventStream(resp: HttpResponse) {
    resp.contentType.Some? && Contains(resp.contentType.value, EventStreamType)
  }

  /** The extraction strategy the content type selects. An event stream is parsed event
      by event; anything else must be one JSON document, and a null body fails
      `response.json()`. */
  function ReadResponse(resp: HttpResponse, parse: string -> Option<Payload>): (r: Extraction)
    ensures IsEventStream(resp) && resp.body.None? ==> r == Failed(Error(EmptyBodyMessage))
    ensures IsEventStream(resp) && resp.body.Some? ==>
      var parts := Sse.TextParts(Concat(resp.body.value), parse);
      r == Sse.Conclude(Sse.FirstStreamImage(parts), TextOf(parts))
    ensures !IsEventStream(resp) && (resp.body.None? || parse(Concat(resp.body.value)).None?) ==>
      r == Failed(Error(InvalidJsonMessage))
    ensures !IsEventStream(resp) && resp.body.Some? && parse(Concat(resp.body.value)).Some? ==>
      r == SingleDoc.DocumentResult(parse(Concat(resp.body.value)).value)
  {
    if IsEventStream(resp) then Sse.ParseSseImageResponse(resp.body, parse)
    else
      match resp.body
      case Some(chunks) => SingleDoc.ParseDocument(Concat(chunks), parse)
      case None => Failed(Error(InvalidJsonMessage))
  }

  /** An extraction made final: inline data is the result, a linked image is downloaded
      and converted, a failure is thrown. */
  function Materialize<B>(e: Extraction, world: World<B>): Result<string, ImageError> {
    match e
    case Inline(uri) => Ok(uri)
    case Remote(url) => AssetFetch.ConvertImageUrlToBase64(url, world.origin, world.fetch, world.encode, world.read)
    case Failed(err) => Err(err)
  }

  /** `callImageApi(options, model)` where `model` is the model in use (the given one,
      else the registry's active one), `apiKey` and `apiBase` are the registry's
      answers for it, and every POST attempt the default retry policy may make has its
      outcome in `world`. The request each attempt sends is `BuildRequest`'s; since the
      provider's answers are given, its contents do not enter the outcome here. */
  function CallImageApi<B>(options: GenerateOptions, model: Option<ImageModel>, apiKey: Option<string>,
                           apiBase: string, world: World<B>): (r: Call)
    requires Retry.DefaultMaxRetries <= |world.exchanges|
    ensures ConfigurationError(model, apiKey).Some? ==>
      r == Call(Err(ConfigurationError(model, apiKey).value), 0, [])
    ensures ConfigurationError(model, apiKey).None? ==>
      0 < r.attempts <= Retry.DefaultMaxRetries && |r.delays| == r.attempts - 1
    ensures r.result.Ok? && 0 < r.attempts ==>
      AttemptOf(world.exchanges[r.attempts - 1], world).Success?
  {
    match ConfigurationError(model, apiKey)
    case Some(e) => Call(Err(e), 0, [])
    case None => Post(world)
  }

  /** The retried POST and what follows it, once the request is built. */
  function Post<B>(world: World<B>): (r: Call)
    requires Retry.DefaultMaxRetries <= |world.exchanges|
    ensures 0 < r.attempts <= Retry.DefaultMaxRetries && |r.delays| == r.attempts - 1
    ensures r.result.Ok? ==> AttemptOf(world.exchanges[r.attempts - 1], world).Success?
  {
    var run := Retry.Run(Attempts(world), Retry.DefaultMaxRetries, Retry.DefaultDelay);
    Call(Outcome(run.outcome, world), run.attempts, run.delays)
  }

  /** What the call makes of the retry loop's outcome: a returned response is read, a
      rethrown error is thrown. */
  function Outcome<B>(o: Retry.RetryOutcome<HttpResponse>, world: World<B>): Result<string, ImageError>
    requires o.Rethrown? ==> o.error.Some?
  {
    match o
    case Returned(resp) => Materialize(ReadResponse(resp, world.parse), world)
    case Rethrown(e) => Err(Error(e.value))
  }

  /** `isAspectRatioSupported(ratio, model)` over the model in use: no model supports
      nothing, else the ratio must be in the model's list. */
  method IsAspectRatioSupported(ratio: string, model: Option<ImageModel>) returns (r: bool)
    ensures r <==> model.Some? && ratio in model.value.supportedAspectRatios
  {
    if model.None? {
      return false;
    }
    var supported := model.value.supportedAspectRatios;
    var i := 0;
    while i < |supported|
      invariant 0 <= i <= |supported|
      invariant forall k | 0 <= k < i :: supported[k] != ratio
    {
      if supported[i] == ratio {
        return true;
      }
      i := i + 1;
    }
    return false;
  }

  // ---------------------------------------------------------------- lemmas

  /** A message with no digit `4` cannot contain `400`, `401` or `403`, so its failure
      is retried. */
  lemma RetryableWithoutFour(m: string)
    requires forall k | 0 <= k < |m| :: m[k] != '4'
    ensures Retry.IsRetryable(Retry.Attempt<HttpResponse>.Failure(m))
  {
    AbsentCharExcludes(m, "400", 0);
    AbsentCharExcludes(m, "401", 0);
    AbsentCharExcludes(m, "403", 0);
  }

  /** Configuration errors are thrown before any request: no model, or no API key. */
  lemma ConfigurationErrorsMakeNoAttempts<B>(options: GenerateOptions, model: Option<ImageModel>,
                                             apiKey: Option<string>, apiBase: string, world: World<B>)
    requires Retry.DefaultMaxRetries <= |world.exchanges|
    requires model.None? || apiKey.None? || apiKey.value == ""
    ensures var r := CallImageApi(options, model, apiKey, apiBase, world);
      r.attempts == 0 && r.delays == []
      && r.result == Err(if model.None? then Error(NoModelMessage) else ApiKeyError(MissingApiKeyMessage))
  {
  }

  /** The retry loop stops at the first attempt it may not move past: an ok response, or
      a failure whose message names 400, 401 or 403. That attempt decides the call, after
      one wait per earlier attempt: its response is read by the strategy its content type
      selects, or its message is thrown. */
  lemma CallDecidedAt<B>(options: GenerateOptions, m: ImageModel, key: string, apiBase: string,
                         world: World<B>, k: nat)
    requires key != ""
    requires Retry.DefaultMaxRetries <= |world.exchanges|
    requires k < Retry.DefaultMaxRetries
    requires forall j | 0 <= j < k :: Retry.IsRetryable(AttemptOf(world.exchanges[j], world))
    requires !Retry.IsRetryable(AttemptOf(world.exchanges[k], world))
    ensures var r := CallImageApi(options, Some(m), Some(key), apiBase, world);
      && r.attempts == k + 1
      && r.delays == Retry.Backoff(Retry.DefaultDelay, k)
      && (world.exchanges[k].Responded? && IsOk(world.exchanges[k].response.status) ==>
            r.result == Materialize(ReadResponse(world.exchanges[k].response, world.parse), world))
      && (AttemptOf(world.exchanges[k], world).Failure? ==>
            r.result == Err(Error(AttemptOf(world.exchanges[k], world).message)))
  {
    CallWithKey(options, m, key, apiBase, world);
    Retry.RunStopsAtFirstDecisive(Attempts(world), Retry.DefaultMaxRetries, Retry.DefaultDelay, k);
  }

  /** When all three attempts fail retryably, the third one's message is thrown after
      waits of 2000 and 4000 ms. */
  lemma CallExhausted<B>(options: GenerateOptions, m: ImageModel, key: string, apiBase: string,
                         world: World<B>)
    requires key != ""
    requires Retry.DefaultMaxRetries <= |world.exchanges|
    requires forall j | 0 <= j < 3 :: Retry.IsRetryable(AttemptOf(world.exchanges[j], world))
    ensures var last := AttemptOf(world.exchanges[2], world);
      && last.Failure?
      && CallImageApi(options, Some(m), Some(key), apiBase, world) == Call(Err(Error(last.message)), 3, [2000, 4000])
  {
    CallWithKey(options, m, key, apiBase, world);
    Retry.DefaultScheduleWhenAllFail(Attempts(world));
  }

  /** A rejected prompt is retried: the 400 message names no status code, so three
      requests are made, with waits of 2000 and 4000 ms, and the 400 message is thrown. */
  lemma Status400IsRetried<B>(options: GenerateOptions, m: ImageModel, key: string, apiBase: string,
                              world: World<B>)
    requires key != ""
    requires Retry.DefaultMaxRetries <= |world.exchanges|
    requires forall k | 0 <= k < 3 :: world.exchanges[k].Responded? && world.exchanges[k].response.status == 400
    ensures CallImageApi(options, Some(m), Some(key), apiBase, world)
         == Call(Err(Error(Http400Message)), 3, [2000, 4000])
  {
    CallWithKey(options, m, key, apiBase, world);
    FailuresOf400(world);
    NoFourIn400Message();
    RetriesWithoutFour(world, Http400Message);
  }

  /** The 400 message has no digit `4` in it, so it mentions no status code. */
  lemma NoFourIn400Message()
    ensures forall k | 0 <= k < |Http400Message| :: Http400Message[k] != '4'
  {
  }

  /** A 400 response fails with the 400 message, whatever its body. */
  lemma FailuresOf400<B>(world: World<B>)
    requires 3 <= |world.exchanges|
    requires forall k | 0 <= k < 3 :: world.exchanges[k].Responded? && world.exchanges[k].response.status == 400
    ensures forall k | 0 <= k < 3 :: AttemptOf(world.exchanges[k], world) == Retry.Failure(Http400Message)
  {
  }

  /** An unauthorised or forbidden response whose JSON body carries an `error.message`
      without the digit `4` is retried like a transient fault: three requests, waits of
      2000 and 4000 ms, and that message thrown. */
  lemma DescribedClientErrorIsRetried<B>(options: GenerateOptions, m: ImageModel, key: string, apiBase: string,
                                         world: World<B>, detail: string)
    requires key != ""
    requires Retry.DefaultMaxRetries <= |world.exchanges|
    requires detail != "" && forall k | 0 <= k < |detail| :: detail[k] != '4'
    requires forall k | 0 <= k < 3 ::
      (world.exchanges[k].Responded?
       && world.exchanges[k].response.status in {401, 403}
       && world.exchanges[k].response.body.Some?
       && world.errorJson(Concat(world.exchanges[k].response.body.value)) == Some(Some(detail)))
    ensures CallImageApi(options, Some(m), Some(key), apiBase, world)
         == Call(Err(Error(detail)), 3, [2000, 4000])
  {
    CallWithKey(options, m, key, apiBase, world);
    FailuresWithMessage(world, detail);
    RetriesWithoutFour(world, detail);
  }

  /** An unauthorised or forbidden response whose body is not JSON is retried too: the
      error that escapes is the `TypeError` of reading the consumed body a second time,
      which names no status code. Three requests are made and that error is thrown. */
  lemma UnreadableClientErrorIsRetried<B>(options: GenerateOptions, m: ImageModel, key: string, apiBase: string,
                                          world: World<B>)
    requires key != ""
    requires Retry.DefaultMaxRetries <= |world.exchanges|
    requires forall k | 0 <= k < |world.bodyReadTwice| :: world.bodyReadTwice[k] != '4'
    requires forall k | 0 <= k < 3 ::
      (world.exchanges[k].Responded?
       && world.exchanges[k].response.status in {401, 403}
       && world.exchanges[k].response.body.Some?
       && world.errorJson(Concat(world.exchanges[k].response.body.value)).None?)
    ensures CallImageApi(options, Some(m), Some(key), apiBase, world)
         == Call(Err(Error(world.bodyReadTwice)), 3, [2000, 4000])
  {
    CallWithKey(options, m, key, apiBase, world);
    FailuresWithMessage(world, world.bodyReadTwice);
    RetriesWithoutFour(world, world.bodyReadTwice);
  }

  /** Three 401 or 403 responses whose bodies lead to the same message fail with it: a
      non-empty `error.message`, or, for a body that is not JSON, the second read's error. */
  lemma FailuresWithMessage<B>(world: World<B>, msg: string)
    requires 3 <= |world.exchanges|
    requires forall k | 0 <= k < 3 ::
      (world.exchanges[k].Responded?
       && world.exchanges[k].response.status in {401, 403}
       && world.exchanges[k].response.body.Some?
       && var offered := world.errorJson(Concat(world.exchanges[k].response.body.value));
          (offered == Some(Some(msg)) && msg != "") || (offered.None? && msg == world.bodyReadTwice))
    ensures forall k | 0 <= k < 3 :: AttemptOf(world.exchanges[k], world) == Retry.Failure(msg)
  {
  }

  /** Three failures whose message has no digit `4` exhaust the default retry policy. */
  lemma RetriesWithoutFour<B>(world: World<B>, msg: string)
    requires Retry.DefaultMaxRetries <= |world.exchanges|
    requires forall k | 0 <= k < |msg| :: msg[k] != '4'
    requires forall k | 0 <= k < 3 :: AttemptOf(world.exchanges[k], world) == Retry.Failure(msg)
    ensures Retry.Run(Attempts(world), Retry.DefaultMaxRetries, Retry.DefaultDelay)
         == Retry.RetryRun(Retry.Rethrown(Some(msg)), 3, [2000, 4000])
  {
    var outcomes := Attempts(world);
    RetryableWithoutFour(msg);
    forall j | 0 <= j < 3 ensures outcomes[j] == Retry.Failure(msg) {
      assert outcomes[j] == AttemptOf(world.exchanges[j], world);
    }
    Retry.DefaultScheduleWhenAllFail(outcomes);
  }

  /** With a model and a key, the call is the retried POST. */
  lemma CallWithKey<B>(options: GenerateOptions, m: ImageModel, key: string, apiBase: string, world: World<B>)
    requires key != ""
    requires Retry.DefaultMaxRetries <= |world.exchanges|
    ensures CallImageApi(options, Some(m), Some(key), apiBase, world) == Post(world)
  {
    assert ConfigurationError(Some(m), Some(key)).None?;
  }

  /** An unauthorised request whose JSON body has no `error.message` is not retried: its
      message `HTTP 错误: 401` contains `401`. (A null body, which a fetch gives only for
      a few statuses, reads the same way.) */
  lemma Status401IsTerminal<B>(options: GenerateOptions, m: ImageModel, key: string, apiBase: string,
                               world: World<B>, contentType: Option<string>, body: Option<seq<string>>)
    requires key != ""
    requires Retry.DefaultMaxRetries <= |world.exchanges|
    requires world.exchanges[0] == Responded(HttpResponse(401, contentType, body))
    requires body.Some? ==> world.errorJson(Concat(body.value)) in {Some(None), Some(Some(""))}
    ensures CallImageApi(options, Some(m), Some(key), apiBase, world)
         == Call(Err(Error("HTTP 错误: 401")), 1, [])
  {
    CallWithKey(options, m, key, apiBase, world);
    var outcomes := Attempts(world);
    var msg := Default401Message();
    assert outcomes[0] == Retry.Failure(msg);
    Retry.RunStopsAtFirstDecisive(outcomes, Retry.DefaultMaxRetries, Retry.DefaultDelay, 0);
  }

  lemma Default401Message() returns (msg: string)
    ensures msg == StatusMessage(401) && msg == "HTTP 错误: 401"
    ensures Retry.IsNonRetryable(msg)
  {
    assert NatToString(4) == "4";
    assert NatToString(40) == "40";
    assert NatToString(401) == "401";
    msg := HttpErrorPrefix + "401";
    assert msg == "HTTP 错误: 401";
    OccursAtContains(msg, "401", 9);
  }

  /** An ok event-stream response ends the retries, and its result is the stream's. */
  lemma FirstStreamResponseDecides<B>(options: GenerateOptions, m: ImageModel, key: string, apiBase: string,
                                      world: World<B>, resp: HttpResponse)
    requires key != ""
    requires Retry.DefaultMaxRetries <= |world.exchanges|
    requires world.exchanges[0] == Responded(resp) && IsOk(resp.status) && IsEventStream(resp)
    ensures CallImageApi(options, Some(m), Some(key), apiBase, world)
         == Call(Materialize(Sse.ParseSseImageResponse(resp.body, world.parse), world), 1, [])
  {
    CallWithKey(options, m, key, apiBase, world);
    Retry.RunStopsAtFirstDecisive(Attempts(world), Retry.DefaultMaxRetries, Retry.DefaultDelay, 0);
  }

  /** The two strategies read an empty `inlineData.data` differently: a document returns
      the bare prefix `data:image/png;base64,`, a stream skips the part and, with no text
      to fall back on, throws. */
  lemma EmptyInlineDataDiffers(mime: Option<string>)
    ensures var parts := [Part(Some(InlineData(mime, Some(""))), None)];
      SingleDoc.DocumentResult(Payload([Candidate(None, Some(parts))])) == Inline("data:image/png;base64,")
      && Sse.Conclude(Sse.FirstStreamImage(parts), TextOf(parts)) == Failed(Error(NoImageInStreamMessage))
  {
    var parts := [Part(Some(InlineData(mime, Some(""))), None)];
    assert SingleDoc.FirstInline(parts) == Some(0);
    assert Sse.FirstStreamImage(parts[1..]) == None;
    assert TextOf(parts) == "";
    assert Markdown.ExtractMarkdownImageUrl("") == None;
  }
}
