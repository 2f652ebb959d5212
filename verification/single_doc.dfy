/**
 * The single-document branch of `callImageApi`: the response is one JSON
 * document, only its first candidate is read, and the first part carrying
 * `inlineData` at all ends the scan.
 */
module SingleDoc {
  import opened Base
  import opened Wire
  import opened Errors
  import opened Extraction
  import Markdown

  /** `${part.inlineData.data}`: a missing `data` renders as the word `undefined`. */
  function RenderedData(d: InlineData): string {
    match d.data
    case Some(x) => x
    case None => "undefined"
  }

  /** The parts the branch scans: those of the first candidate, when it has any. */
  function ScannedParts(doc: Payload): Option<seq<Part>> {
    if |doc.candidates| > 0 && doc.candidates[0].parts.Some? then doc.candidates[0].parts else None
  }

  /** Index of the first part with `inlineData`, whatever its contents. */
  function FirstInline(parts: seq<Part>): (r: Option<nat>)
    ensures r.Some? ==> r.value < |parts| && parts[r.value].inlineData.Some?
    ensures r.Some? ==> forall k | 0 <= k < r.value :: parts[k].inlineData.None?
    ensures r.None? ==> forall k | 0 <= k < |parts| :: parts[k].inlineData.None?
  {
    if |parts| == 0 then None
    else if parts[0].inlineData.Some? then Some(0)
    else match FirstInline(parts[1..]) case Some(k) => Some(k + 1) case None => None
  }

  /** What the branch yields for a parsed document: the first part with `inlineData`
      becomes a PNG data URI, else the first image link in the text of all parts, else
      the extraction error; a document without a first candidate or its parts fails. */
  function DocumentResult(doc: Payload): (r: Extraction)
    ensures r.Inline? <==>
      ScannedParts(doc).Some?
      && exists k | 0 <= k < |ScannedParts(doc).value| :: ScannedParts(doc).value[k].inlineData.Some?
    ensures r.Inline? ==>
      var parts := ScannedParts(doc).value;
      exists k | 0 <= k < |parts| ::
        && parts[k].inlineData.Some?
        && (forall j | 0 <= j < k :: parts[j].inlineData.None?)
        && r.dataUri == PngDataUri(RenderedData(parts[k].inlineData.value))
    ensures r.Remote? ==>
      ScannedParts(doc).Some? && Markdown.ExtractMarkdownImageUrl(TextOf(ScannedParts(doc).value)) == Some(r.url)
    ensures r.Failed? ==> r.error == Error(NoImageInDocumentMessage)
  {
    match ScannedParts(doc)
    case None => Failed(Error(NoImageInDocumentMessage))
    case Some(parts) =>
      match FirstInline(parts)
      case Some(k) => Inline(PngDataUri(RenderedData(parts[k].inlineData.value)))
      case None => LinkOrFail(TextOf(parts), NoImageInDocumentMessage)
  }

  /** The whole branch: a body `parse` rejects (`response.json()` throwing) is the JSON
      error, and only then; anything else is a parsed document. */
  function ParseDocument(body: string, parse: string -> Option<Payload>): (r: Extraction)
    ensures r == Failed(Error(InvalidJsonMessage)) <==> parse(body).None?
    ensures parse(body).Some? ==> r == DocumentResult(parse(body).value)
  {
    match parse(body)
    case None => Failed(Error(InvalidJsonMessage))
    case Some(doc) => DocumentResult(doc)
  }

  /** The `for ... of` loop of the branch, with its early return, computes `DocumentResult`. */
  method ExtractDocument(doc: Payload) returns (r: Extraction)
    ensures r == DocumentResult(doc)
  {
    if |doc.candidates| == 0 || doc.candidates[0].parts.None? {
      return Failed(Error(NoImageInDocumentMessage));
    }
    var parts := doc.candidates[0].parts.value;
    var collected := "";
    var i := 0;
    while i < |parts|
      invariant 0 <= i <= |parts|
      invariant forall k | 0 <= k < i :: parts[k].inlineData.None?
      invariant collected + TextOf(parts[i..]) == TextOf(parts)
    {
      var part := parts[i];
      if part.inlineData.Some? {
        FirstInlineAt(parts, i);
        return Inline(PngDataUri(RenderedData(part.inlineData.value)));
      }
      assert TextOf(parts[i..]) == (match part.text case Some(t) => t case None => "") + TextOf(parts[i + 1..]);
      if part.text.Some? {
        collected := collected + part.text.value;
      }
      i := i + 1;
    }
    assert parts[i..] == [];
    assert collected == TextOf(parts);
    r := LinkOrFail(collected, NoImageInDocumentMessage);
  }

  /** The first part with `inlineData` decides, whatever comes after it: later parts and
      later candidates are never read. */
  lemma InlinePartDecides(before: seq<Part>, inline: InlineData, text: Option<string>, after: seq<Part>,
                          finish: Option<string>, others: seq<Candidate>)
    requires forall k | 0 <= k < |before| :: before[k].inlineData.None?
    ensures DocumentResult(Payload([Candidate(finish, Some(before + [Part(Some(inline), text)] + after))] + others))
         == Inline(PngDataUri(RenderedData(inline)))
  {
    var parts := before + [Part(Some(inline), text)] + after;
    FirstInlineAt(parts, |before|);
  }

  /** Without inline data, the text of every part of the first candidate is searched for
      an image link; other candidates are never read. */
  lemma {:induction false} TextFallback(parts: seq<Part>, finish: Option<string>, others: seq<Candidate>)
    requires forall k | 0 <= k < |parts| :: parts[k].inlineData.None?
    ensures DocumentResult(Payload([Candidate(finish, Some(parts))] + others))
         == LinkOrFail(TextOf(parts), NoImageInDocumentMessage)
  {
    var doc := Payload([Candidate(finish, Some(parts))] + others);
    assert ScannedParts(doc) == Some(parts);
  }

  /** An `inlineData` without `data` still ends the scan, with the word `undefined` as
      its payload. */
  lemma MissingDataRendersUndefined(mime: Option<string>)
    ensures DocumentResult(Payload([Candidate(None, Some([Part(Some(InlineData(mime, None)), None)]))]))
         == Inline("data:image/png;base64,undefined")
  {
    assert FirstInline([Part(Some(InlineData(mime, None)), None)]) == Some(0);
  }

  /** The first inline part, as `FirstInline` names it, is the one the loop stops at. */
  lemma {:induction false} FirstInlineAt(parts: seq<Part>, i: nat)
    requires i < |parts| && parts[i].inlineData.Some?
    requires forall k | 0 <= k < i :: parts[k].inlineData.None?
    ensures FirstInline(parts) == Some(i)
  {
    if i > 0 {
      FirstInlineAt(parts[1..], i - 1);
    }
  }
}
