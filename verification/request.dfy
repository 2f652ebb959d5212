/**
 * The request `callImageApi` sends: endpoint and aspect-ratio resolution, the
 * character-consistency prompt used with reference images, reference images
 * decoded from data URIs into inline parts, and the generation config.
 */
module Request {
  import opened Base
  import opened Strings
  import opened Wire
  import opened Errors

  /** The registry's image model definition, as far as the adapter reads it.
      `endpoint` is `None` when the model does not set one. */
  datatype ImageModel = ImageModel(id: string, endpoint: Option<string>, defaultAspectRatio: string,
                                   supportedAspectRatios: seq<string>)

  /** `ImageGenerateOptions`: the prompt, optional reference images and optional aspect ratio. */
  datatype GenerateOptions = GenerateOptions(prompt: string, referenceImages: Option<seq<string>>,
                                             aspectRatio: Option<string>)

  datatype ImageConfig = ImageConfig(aspectRatio: string)
  datatype GenerationConfig = GenerationConfig(responseModalities: seq<string>, imageConfig: Option<ImageConfig>)
  datatype Content = Content(role: string, parts: seq<Part>)
  datatype RequestBody = RequestBody(contents: seq<Content>, generationConfig: GenerationConfig)
  datatype Header = Header(name: string, value: string)
  datatype HttpRequest = HttpRequest(verb: string, url: string, headers: seq<Header>, body: RequestBody)

  /** The ratio the provider assumes when the request names none. */
  const ProviderDefaultAspectRatio: string := "16:9"

  /** The consistency prompt is `ConsistencyLead`, the caller's prompt in double quotes,
      then `ConsistencyRest`; the text is reproduced character for character, including
      its indentation. */
  const ConsistencyLead: string :=
      "\n"
    + "      \U{26A0}\U{FE0F}\U{26A0}\U{FE0F}\U{26A0}\U{FE0F} CRITICAL REQUIREMENTS - CHARACTER CONSISTENCY \U{26A0}\U{FE0F}\U{26A0}\U{FE0F}\U{26A0}\U{FE0F}\n"
    + "      \n"
    + "      Reference Images Information:\n"
    + "      - The FIRST image is the Scene/Environment reference.\n"
    + "      - Any subsequent images are Character references (Base Look or Variation).\n"
    + "      \n"
    + "      Task:\n"
    + "      Generate a cinematic shot matching this prompt: "

  const ConsistencyRest: string :=
      ".\n"
    + "      \n"
    + "      \U{26A0}\U{FE0F} ABSOLUTE REQUIREMENTS (NON-NEGOTIABLE):\n"
    + "      1. Scene Consistency:\n"
    + "         - STRICTLY maintain the visual style, lighting, and environment from the scene reference.\n"
    + "      \n"
    + "      2. Character Consistency - HIGHEST PRIORITY:\n"
    + "         If characters are present in the prompt, they MUST be IDENTICAL to the character reference images:\n"
    + "         \U{2022} Facial Features: Eyes (color, shape, size), nose structure, mouth shape, facial contours must be EXACTLY the same\n"
    + "         \U{2022} Hairstyle & Hair Color: Length, color, texture, and style must be PERFECTLY matched\n"
    + "         \U{2022} Clothing & Outfit: Style, color, material, and accessories must be IDENTICAL\n"
    + "         \U{2022} Body Type: Height, build, proportions must remain consistent\n"
    + "         \n"
    + "      \U{26A0}\U{FE0F} DO NOT create variations or interpretations of the character - STRICT REPLICATION ONLY!\n"
    + "      \U{26A0}\U{FE0F} Character appearance consistency is THE MOST IMPORTANT requirement!\n"
    + "    "

  const ConsistencyHead: string := ConsistencyLead + "\""
  const ConsistencyTail: string := "\"" + ConsistencyRest

  /** JavaScript's `o || fallback` on an optional string: the empty string is falsy too. */
  function OrElse(o: Option<string>, fallback: string): (r: string)
    ensures o.Some? && o.value != "" ==> r == o.value
    ensures o.None? || o.value == "" ==> r == fallback
  {
    match o
    case Some(v) => if v != "" then v else fallback
    case None => fallback
  }

  /** The default endpoint for a model that does not name one. */
  function DefaultEndpoint(id: string): string {
    "/v1beta/models/" + id + ":generateContent"
  }

  function Endpoint(model: ImageModel): string {
    OrElse(model.endpoint, DefaultEndpoint(model.id))
  }

  function ResolveAspectRatio(options: GenerateOptions, model: ImageModel): string {
    OrElse(options.aspectRatio, model.defaultAspectRatio)
  }

  /** `text` with `head` before it and `tail` after it. */
  function Wrap(head: string, text: string, tail: string): string {
    head + text + tail
  }

  /** The text between `head` and `tail`, when `s` starts with one and ends with the other. */
  function Unwrap(head: string, tail: string, s: string): Option<string> {
    if HasPrefix(s, head) && |head| + |tail| <= |s| && s[|s| - |tail|..] == tail
    then Some(s[|head|..|s| - |tail|])
    else None
  }

  /** Unwrapping takes back exactly what wrapping added, whatever the head and tail. */
  lemma UnwrapWrap(head: string, text: string, tail: string)
    ensures Unwrap(head, tail, Wrap(head, text, tail)) == Some(text)
  {
    var s := Wrap(head, text, tail);
    assert s[..|head|] == head;
    assert s[|s| - |tail|..] == tail;
    assert s[|head|..|s| - |tail|] == text;
  }

  /** A quoted text wrapped in anything still occurs, quotes and all, in the result. */
  lemma WrapQuoted(lead: string, text: string, rest: string)
    ensures Wrap(lead + "\"", text, "\"" + rest) == lead + "\"" + text + "\"" + rest
    ensures Contains(Wrap(lead + "\"", text, "\"" + rest), "\"" + text + "\"")
  {
    var s := Wrap(lead + "\"", text, "\"" + rest);
    assert s == lead + ("\"" + text + "\"") + rest;
    assert s[|lead|..|lead| + |text| + 2] == "\"" + text + "\"";
    OccursAtContains(s, "\"" + text + "\"", |lead|);
  }

  /** The prompt sent along with reference images: the caller's prompt in quotes,
      surrounded by the scene and character consistency instructions. */
  function ConsistencyPrompt(prompt: string): (r: string)
    ensures |r| > |prompt|
    ensures Contains(r, "\"" + prompt + "\"")
  {
    WrapQuoted(ConsistencyLead, prompt, ConsistencyRest);
    Wrap(ConsistencyHead, prompt, ConsistencyTail)
  }

  /** Reads the caller's prompt back out of a consistency prompt. */
  function RecoverPrompt(text: string): Option<string> {
    Unwrap(ConsistencyHead, ConsistencyTail, text)
  }

  /** The consistency instructions add text around the prompt and change nothing in it. */
  lemma RecoverConsistencyPrompt(prompt: string)
    ensures RecoverPrompt(ConsistencyPrompt(prompt)) == Some(prompt)
  {
    UnwrapWrap(ConsistencyHead, prompt, ConsistencyTail);
  }

  /** `options.referenceImages && options.referenceImages.length > 0`. */
  predicate HasReferences(options: GenerateOptions) {
    options.referenceImages.Some? && |options.referenceImages.value| > 0
  }

  /** The text of the first part: the prompt as given, or the consistency prompt when
      reference images accompany it. */
  function FinalPrompt(options: GenerateOptions): (r: string)
    ensures !HasReferences(options) ==> r == options.prompt
    ensures HasReferences(options) ==> RecoverPrompt(r) == Some(options.prompt)
    ensures HasReferences(options) ==> Contains(r, "\"" + options.prompt + "\"")
  {
    if HasReferences(options) then
      RecoverConsistencyPrompt(options.prompt);
      ConsistencyPrompt(options.prompt)
    else options.prompt
  }

  predicate IsAsciiLetter(c: char) {
    ('a' <= c <= 'z') || ('A' <= c <= 'Z')
  }

  /** A mime type the group `(image\/[a-zA-Z]+)` captures. */
  predicate IsImageMime(m: string) {
    HasPrefix(m, "image/") && |m| > 6 && forall k | 6 <= k < |m| :: IsAsciiLetter(m[k])
  }

  /** A payload the group `(.+)` captures before `$`: non-empty, without line terminators. */
  predicate IsPayload(d: string) {
    |d| > 0 && forall k | 0 <= k < |d| :: !IsLineTerminator(d[k])
  }

  function DataUri(mime: string, data: string): string {
    "data:" + mime + ";base64," + data
  }

  /** Where the letter run `[a-zA-Z]+` stops. */
  predicate EndsLetters(c: char) {
    !IsAsciiLetter(c)
  }

  /** `imgUrl.match(/^data:(image\/[a-zA-Z]+);base64,(.+)$/)`: the captured mime type and
      payload. The letter run must stop at `;`, so the match is unique. */
  function MatchDataUri(s: string): (r: Option<(string, string)>)
    ensures r.Some? ==> IsImageMime(r.value.0) && IsPayload(r.value.1)
    ensures r.Some? ==> s == DataUri(r.value.0, r.value.1)
  {
    if HasPrefix(s, "data:image/") then
      var e := IndexWhere(s, 11, EndsLetters);
      if 11 < e && e + 8 < |s| && s[e..e + 8] == ";base64,"
         && forall k | e + 8 <= k < |s| :: !IsLineTerminator(s[k])
      then
        MatchedParts(s, e);
        Some((s[5..e], s[e + 8..]))
      else None
    else None
  }

  /** The pieces a successful match captures are a mime type and a payload that
      rebuild the input. */
  lemma MatchedParts(s: string, e: nat)
    requires HasPrefix(s, "data:image/")
    requires 11 < e && e + 8 < |s| && s[e..e + 8] == ";base64,"
    requires forall k | 11 <= k < e :: IsAsciiLetter(s[k])
    requires forall k | e + 8 <= k < |s| :: !IsLineTerminator(s[k])
    ensures IsImageMime(s[5..e]) && IsPayload(s[e + 8..])
    ensures s == DataUri(s[5..e], s[e + 8..])
  {
    var m, d := s[5..e], s[e + 8..];
    assert m[..6] == s[5..11];
    forall k | 6 <= k < |m| ensures IsAsciiLetter(m[k]) {
      assert m[k] == s[k + 5];
    }
    forall k | 0 <= k < |d| ensures !IsLineTerminator(d[k]) {
      assert d[k] == s[k + e + 8];
    }
    assert s == s[..5] + m + s[e..e + 8] + d;
  }

  /** Every well-formed image data URI is matched, yielding its own mime type and payload. */
  lemma MatchDataUriComplete(mime: string, data: string)
    requires IsImageMime(mime) && IsPayload(data)
    ensures MatchDataUri(DataUri(mime, data)) == Some((mime, data))
  {
    var s := DataUri(mime, data);
    var e := 5 + |mime|;
    assert s[..11] == "data:" + mime[..6];
    assert s[e] == ';';
    assert IndexWhere(s, 11, EndsLetters) == e by {
      forall k | 11 <= k < e ensures IsAsciiLetter(s[k]) {
        assert s[k] == mime[k - 5];
      }
    }
    assert s[e..e + 8] == ";base64,";
    assert s[5..e] == mime;
    assert s[e + 8..] == data;
  }

  /** The pattern matches exactly the image data URIs, and the captures are their parts. */
  lemma MatchDataUriIff(s: string, mime: string, data: string)
    ensures MatchDataUri(s) == Some((mime, data))
        <==> IsImageMime(mime) && IsPayload(data) && s == DataUri(mime, data)
  {
    if IsImageMime(mime) && IsPayload(data) && s == DataUri(mime, data) {
      MatchDataUriComplete(mime, data);
    }
  }

  /** One inline part per reference image that matches, in order; the rest are skipped. */
  function ReferenceParts(refs: seq<string>): (parts: seq<Part>)
    ensures |parts| <= |refs|
    ensures (forall j | 0 <= j < |refs| :: MatchDataUri(refs[j]).Some?) ==> |parts| == |refs|
    ensures forall k | 0 <= k < |parts| :: parts[k].inlineData.Some? && parts[k].text.None?
    ensures forall k | 0 <= k < |parts| :: IsSentReference(parts[k], refs)
  {
    if |refs| == 0 then []
    else
      var rest := ReferenceParts(refs[1..]);
      assert forall k | 0 <= k < |rest| :: IsSentReference(rest[k], refs) by {
        forall k | 0 <= k < |rest| ensures IsSentReference(rest[k], refs) {
          assert IsSentReference(rest[k], refs[1..]);
          var md := rest[k].inlineData.value;
          assert DataUri(md.mimeType.value, md.data.value) in refs[1..];
        }
      }
      ReferencePart(refs[0]) + rest
  }

  /** An inline part whose mime type and payload rebuild one of the reference images. */
  predicate IsSentReference(p: Part, refs: seq<string>) {
    && p.inlineData.Some?
    && p.inlineData.value.mimeType.Some?
    && p.inlineData.value.data.Some?
    && DataUri(p.inlineData.value.mimeType.value, p.inlineData.value.data.value) in refs
  }

  /** The inline part for one reference image, or nothing when it does not match. */
  function ReferencePart(ref: string): (parts: seq<Part>)
    ensures |parts| <= 1
    ensures |parts| == 1 <==> MatchDataUri(ref).Some?
    ensures forall k | 0 <= k < |parts| :: parts[k].inlineData.Some? && parts[k].text.None?
    ensures forall k | 0 <= k < |parts| :: IsSentReference(parts[k], [ref])
  {
    match MatchDataUri(ref)
    case Some((m, d)) => [InlinePart(m, d)]
    case None => []
  }

  /** The parts for a list of references are the parts for each piece of it, in order. */
  lemma {:induction false} ReferencePartsAppend(a: seq<string>, b: seq<string>)
    ensures ReferenceParts(a + b) == ReferenceParts(a) + ReferenceParts(b)
  {
    if |a| == 0 {
      assert a + b == b;
    } else {
      var x, a' := a[0], a[1..];
      assert (a + b)[0] == x;
      assert (a + b)[1..] == a' + b;
      ReferencePartsAppend(a', b);
      calc {
        ReferenceParts(a + b);
        ReferencePart(x) + ReferenceParts(a' + b);
        ReferencePart(x) + (ReferenceParts(a') + ReferenceParts(b));
        { SeqAssoc(ReferencePart(x), ReferenceParts(a'), ReferenceParts(b)); }
        (ReferencePart(x) + ReferenceParts(a')) + ReferenceParts(b);
        ReferenceParts(a) + ReferenceParts(b);
      }
    }
  }

  /** A reference that does not match the pattern contributes nothing and raises no error. */
  lemma MalformedReferenceSkipped(before: seq<string>, bad: string, after: seq<string>)
    requires MatchDataUri(bad).None?
    ensures ReferenceParts(before + [bad] + after) == ReferenceParts(before + after)
  {
    ReferencePartsAppend(before + [bad], after);
    ReferencePartsAppend(before, [bad]);
    ReferencePartsAppend(before, after);
    NoPartForMalformed(bad);
    assert ReferenceParts(before + [bad]) == ReferenceParts(before);
  }

  /** A reference that does not match contributes no part. */
  lemma NoPartForMalformed(bad: string)
    requires MatchDataUri(bad).None?
    ensures ReferenceParts([bad]) == []
  {
    assert [bad][1..] == [];
  }

  /** The data URIs of a list of (mime type, payload) pairs. */
  function UrisOf(images: seq<(string, string)>): (uris: seq<string>)
    ensures |uris| == |images|
  {
    if |images| == 0 then [] else [DataUri(images[0].0, images[0].1)] + UrisOf(images[1..])
  }

  /** The inline parts carrying a list of (mime type, payload) pairs. */
  function InlinePartsOf(images: seq<(string, string)>): seq<Part> {
    if |images| == 0 then [] else [InlinePart(images[0].0, images[0].1)] + InlinePartsOf(images[1..])
  }

  /** Well-formed images sent as data URIs arrive as inline parts carrying the same
      mime types and payloads, in the same order. */
  lemma {:induction false} ReferencePartsRoundTrip(images: seq<(string, string)>)
    requires forall k | 0 <= k < |images| :: IsImageMime(images[k].0) && IsPayload(images[k].1)
    ensures ReferenceParts(UrisOf(images)) == InlinePartsOf(images)
  {
    if |images| > 0 {
      var uris := UrisOf(images);
      MatchDataUriComplete(images[0].0, images[0].1);
      assert uris[0] == DataUri(images[0].0, images[0].1);
      assert uris[1..] == UrisOf(images[1..]);
      ReferencePartsRoundTrip(images[1..]);
    }
  }

  /** The `parts` of the request: one text part, then the reference images' inline parts. */
  function RequestParts(options: GenerateOptions): (parts: seq<Part>)
    ensures |parts| >= 1 && parts[0] == TextPart(FinalPrompt(options))
    ensures forall k | 1 <= k < |parts| :: parts[k].inlineData.Some? && parts[k].text.None?
    ensures options.referenceImages.None? ==> |parts| == 1
    ensures options.referenceImages.Some? ==> |parts| <= 1 + |options.referenceImages.value|
  {
    [TextPart(FinalPrompt(options))] + ReferenceParts(ReferencesOf(options))
  }

  /** The reference images of a request, none when the field is absent. */
  function ReferencesOf(options: GenerateOptions): seq<string> {
    match options.referenceImages
    case Some(refs) => refs
    case None => []
  }

  /** How a provider reads the aspect ratio of a request: an absent `imageConfig` means 16:9. */
  function RequestedAspectRatio(config: GenerationConfig): string {
    match config.imageConfig
    case Some(c) => c.aspectRatio
    case None => ProviderDefaultAspectRatio
  }

  /** The `generationConfig` for a resolved ratio: text and image output, and an explicit
      `imageConfig` only when the ratio differs from the provider's default. */
  function BuildGenerationConfig(ratio: string): (r: GenerationConfig)
    ensures r.responseModalities == ["TEXT", "IMAGE"]
    ensures r.imageConfig.Some? <==> ratio != ProviderDefaultAspectRatio
    ensures RequestedAspectRatio(r) == ratio
  {
    GenerationConfig(["TEXT", "IMAGE"],
      if ratio != ProviderDefaultAspectRatio then Some(ImageConfig(ratio)) else None)
  }

  function BuildBody(options: GenerateOptions, model: ImageModel): RequestBody {
    RequestBody([Content("user", RequestParts(options))], BuildGenerationConfig(ResolveAspectRatio(options, model)))
  }

  /** The configuration error `callImageApi` throws before any request: no model, else
      no API key (absent or empty) for it. */
  function ConfigurationError(model: Option<ImageModel>, apiKey: Option<string>): (r: Option<ImageError>)
    ensures model.None? ==> r == Some(Error(NoModelMessage))
    ensures model.Some? ==> (r.Some? <==> apiKey.None? || apiKey.value == "")
    ensures model.Some? && r.Some? ==> r.value == ApiKeyError(MissingApiKeyMessage)
  {
    if model.None? then Some(Error(NoModelMessage))
    else if apiKey.None? || apiKey.value == "" then Some(ApiKeyError(MissingApiKeyMessage))
    else None
  }

  /** The request `callImageApi` issues, or the configuration error it throws before any
      attempt. */
  function BuildRequest(options: GenerateOptions, model: Option<ImageModel>, apiKey: Option<string>,
                        apiBase: string): (r: Result<HttpRequest, ImageError>)
    ensures r.Err? <==> ConfigurationError(model, apiKey).Some?
    ensures r.Err? ==> r.error == ConfigurationError(model, apiKey).value
    ensures r.Ok? ==> r.value.verb == "POST" && HasPrefix(r.value.url, apiBase)
    ensures r.Ok? ==> Header("Authorization", "Bearer " + apiKey.value) in r.value.headers
  {
    match ConfigurationError(model, apiKey)
    case Some(e) => Err(e)
    case None =>
      var m := model.value;
      var headers := [Header("Content-Type", "application/json"),
                      Header("Authorization", "Bearer " + apiKey.value),
                      Header("Accept", "*/*")];
      assert headers[1] == Header("Authorization", "Bearer " + apiKey.value);
      Ok(HttpRequest("POST", apiBase + Endpoint(m), headers, BuildBody(options, m)))
  }

  /** With a model and a key the request is built: a POST to the base URL followed by the
      model's endpoint (or `/v1beta/models/<id>:generateContent` when it sets none), with
      the JSON, bearer and accept headers, one user content holding the request parts,
      and an `imageConfig` exactly when the resolved ratio (the caller's, else the
      model's default) is not 16:9. */
  lemma RequestTarget(options: GenerateOptions, m: ImageModel, key: string, apiBase: string)
    requires key != ""
    ensures BuildRequest(options, Some(m), Some(key), apiBase).Ok?
    ensures var req := BuildRequest(options, Some(m), Some(key), apiBase).value;
      var ratio := if options.aspectRatio.Some? && options.aspectRatio.value != ""
                   then options.aspectRatio.value else m.defaultAspectRatio;
      && req.url == apiBase + (if m.endpoint.Some? && m.endpoint.value != "" then m.endpoint.value
                               else "/v1beta/models/" + m.id + ":generateContent")
      && req.headers == [Header("Content-Type", "application/json"), Header("Authorization", "Bearer " + key),
                         Header("Accept", "*/*")]
      && req.body.contents == [Content("user", RequestParts(options))]
      && req.body.generationConfig.responseModalities == ["TEXT", "IMAGE"]
      && (req.body.generationConfig.imageConfig.Some? <==> ratio != "16:9")
      && (req.body.generationConfig.imageConfig.Some? ==> req.body.generationConfig.imageConfig.value.aspectRatio == ratio)
  {
  }

  /** The data URIs a provider reads back from the inline parts of a request. */
  function ReadReferences(parts: seq<Part>): seq<string> {
    if |parts| == 0 then []
    else
      var first :=
        match parts[0].inlineData
        case Some(InlineData(Some(m), Some(d))) => [DataUri(m, d)]
        case _ => [];
      first + ReadReferences(parts[1..])
  }

  /** The prompt a provider reads back from the text part: the consistency prompt is
      unwrapped when inline images follow it. */
  function ReadPrompt(parts: seq<Part>): Option<string> {
    if |parts| == 0 || parts[0].text.None? then None
    else if |parts| > 1 then RecoverPrompt(parts[0].text.value)
    else Some(parts[0].text.value)
  }

  lemma {:induction false} ReadReferencesOfValid(refs: seq<string>)
    requires forall k | 0 <= k < |refs| :: MatchDataUri(refs[k]).Some?
    ensures ReadReferences(ReferenceParts(refs)) == refs
  {
    if |refs| > 0 {
      var md := MatchDataUri(refs[0]).value;
      var rest := ReferenceParts(refs[1..]);
      assert ReferencePart(refs[0]) == [InlinePart(md.0, md.1)];
      ReadAfterInline(md.0, md.1, rest);
      ReadReferencesOfValid(refs[1..]);
      assert refs == [refs[0]] + refs[1..];
    }
  }

  /** An inline part in front contributes its data URI, ahead of the rest. */
  lemma ReadAfterInline(mime: string, data: string, rest: seq<Part>)
    ensures ReadReferences([InlinePart(mime, data)] + rest) == [DataUri(mime, data)] + ReadReferences(rest)
  {
    assert ([InlinePart(mime, data)] + rest)[1..] == rest;
  }

  /** When every reference image is well-formed, the request body loses nothing: the
      provider reads back the caller's prompt, every reference image in order, and the
      resolved aspect ratio. */
  lemma RequestRoundTrip(options: GenerateOptions, model: ImageModel)
    requires options.referenceImages.Some? ==>
      forall k | 0 <= k < |options.referenceImages.value| :: MatchDataUri(options.referenceImages.value[k]).Some?
    ensures ReadPrompt(BuildBody(options, model).contents[0].parts) == Some(options.prompt)
    ensures ReadReferences(BuildBody(options, model).contents[0].parts)
         == match options.referenceImages case Some(refs) => refs case None => []
    ensures RequestedAspectRatio(BuildBody(options, model).generationConfig) == ResolveAspectRatio(options, model)
  {
    var parts := BuildBody(options, model).contents[0].parts;
    assert parts == [TextPart(FinalPrompt(options))] + ReferenceParts(ReferencesOf(options));
    ReadBackParts(FinalPrompt(options), ReferencesOf(options));
    ReadBackPrompt(options);
  }

  /** The reader recovers the caller's prompt from the leading part, unwrapping it when
      reference images follow. */
  lemma ReadBackPrompt(options: GenerateOptions)
    requires forall k | 0 <= k < |ReferencesOf(options)| :: MatchDataUri(ReferencesOf(options)[k]).Some?
    ensures ReadPrompt([TextPart(FinalPrompt(options))] + ReferenceParts(ReferencesOf(options))) == Some(options.prompt)
  {
    var refs := ReferencesOf(options);
    if HasReferences(options) {
      assert |ReferenceParts(refs)| == |refs| > 0;
      ReadPromptBeforeImages(FinalPrompt(options), ReferenceParts(refs));
    } else {
      assert refs == [];
    }
  }

  /** With parts after it, the leading text is read as a wrapped prompt. */
  lemma {:induction false} ReadPromptBeforeImages(text: string, rest: seq<Part>)
    requires |rest| > 0
    ensures ReadPrompt([TextPart(text)] + rest) == RecoverPrompt(text)
  {
    var parts := [TextPart(text)] + rest;
    assert parts[0].text == Some(text) && |parts| > 1;
  }

  /** Behind a leading text part, the reader recovers every matching reference. */
  lemma ReadBackParts(text: string, refs: seq<string>)
    requires forall k | 0 <= k < |refs| :: MatchDataUri(refs[k]).Some?
    ensures ReadReferences([TextPart(text)] + ReferenceParts(refs)) == refs
  {
    ReadReferencesOfValid(refs);
    ReadReferencesLength(ReferenceParts(refs));
    ReadAfterText(text, ReferenceParts(refs));
  }

  /** The text part in front contributes no reference image. */
  lemma ReadAfterText(text: string, rest: seq<Part>)
    ensures ReadReferences([TextPart(text)] + rest) == ReadReferences(rest)
  {
    assert ([TextPart(text)] + rest)[1..] == rest;
  }

  lemma {:induction false} ReadReferencesLength(parts: seq<Part>)
    ensures |ReadReferences(parts)| <= |parts|
  {
    if |parts| > 0 {
      ReadReferencesLength(parts[1..]);
    }
  }
}
