/**
 * The JSON shapes exchanged with the image provider, as already-parsed values.
 * A request part and a response part share one shape: an optional inline
 * image and an optional text.
 */
module Wire {
  import opened Base
  import opened Strings

  /** `inlineData`: a mime type and a base64 payload, either of which a response may omit. */
  datatype InlineData = InlineData(mimeType: Option<string>, data: Option<string>)

  /** One entry of `content.parts`. `text` is present exactly when `typeof part.text === 'string'`. */
  datatype Part = Part(inlineData: Option<InlineData>, text: Option<string>)

  /** One entry of `candidates`. `parts` is `None` when `content` or `content.parts` is missing. */
  datatype Candidate = Candidate(finishReason: Option<string>, parts: Option<seq<Part>>)

  /** A parsed response document or stream event; a missing `candidates` reads as empty. */
  datatype Payload = Payload(candidates: seq<Candidate>)

  function TextPart(text: string): Part {
    Part(None, Some(text))
  }

  function InlinePart(mimeType: string, data: string): Part {
    Part(Some(InlineData(Some(mimeType), Some(data))), None)
  }

  /** The data URI both response strategies build: the mime type is always `image/png`,
      whatever `mimeType` the provider sent. */
  function PngDataUri(data: string): (uri: string)
    ensures HasPrefix(uri, "data:image/png;base64,") && uri[22..] == data
  {
    "data:image/png;base64," + data
  }

  /** The parts of a candidate, reading a missing `content.parts` as empty. */
  function PartsOf(c: Candidate): seq<Part> {
    match c.parts
    case Some(ps) => ps
    case None => []
  }

  /** The concatenation of every string `text` among `parts`, in order. */
  function TextOf(parts: seq<Part>): string {
    if |parts| == 0 then ""
    else (match parts[0].text case Some(t) => t case None => "") + TextOf(parts[1..])
  }

  lemma {:induction false} TextOfAppend(a: seq<Part>, b: seq<Part>)
    ensures TextOf(a + b) == TextOf(a) + TextOf(b)
  {
    if |a| == 0 {
      assert a + b == b;
    } else {
      assert (a + b)[1..] == a[1..] + b;
      TextOfAppend(a[1..], b);
    }
  }

  /** Every part of every candidate, candidate by candidate. */
  function CandidateParts(cs: seq<Candidate>): seq<Part> {
    if |cs| == 0 then [] else PartsOf(cs[0]) + CandidateParts(cs[1..])
  }
}
