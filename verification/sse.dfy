/**
 * `parseSseImageResponse`: a fold over the decoded text chunks of an event
 * stream. Events end at two consecutive line feeds; only complete events are parsed, the
 * first non-empty `inlineData.data` anywhere in the stream becomes the image,
 * and all text is collected for the Markdown-link fallback.
 */
module Sse {
  import opened Base
  import opened Strings
  import opened Wire
  import opened Errors
  import opened Extraction

  /** The parser's variables between reads. */
  datatype ParseState = ParseState(buffer: string, collectedText: string, inlineDataUrl: Option<string>,
                                   stopReceived: bool)

  const Initial: ParseState := ParseState("", "", None, false)

  /** Events are separated by two consecutive line feeds. A blank line written as
      `\r\n\r\n` does not contain this separator. */
  const EventSeparator: string := "\n\n"

  /** The marker payload that ends a stream. */
  const DoneMarker: string := "[DONE]"

  // ---------------------------------------------------------------- one event

  /** Drops a `\r` that ends `s`. */
  function DropCarriageReturn(s: string): string {
    if |s| > 0 && s[|s| - 1] == '\r' then s[..|s| - 1] else s
  }

  /** `chunk.split(/\r?\n/)`: the pieces between line feeds, where a carriage return
      right before a line feed belongs to the separator. */
  function Lines(event: string): (lines: seq<string>)
    ensures |lines| >= 1
  {
    var pieces := Split(event, "\n");
    seq(|pieces|, k requires 0 <= k < |pieces| =>
      if k < |pieces| - 1 then DropCarriageReturn(pieces[k]) else pieces[k])
  }

  /** `line.replace(/^data:\s?/, '')` for a line that starts with `data:`. */
  function StripDataPrefix(line: string): (field: string)
    requires HasPrefix(line, "data:")
    ensures line == "data:" + field
         || (|line| > 5 && IsJsWhitespace(line[5]) && line == "data:" + [line[5]] + field)
    ensures |field| > 0 && |field| + 5 == |line| ==> !IsJsWhitespace(field[0])
  {
    var rest := line[5..];
    assert line == "data:" + rest;
    if |rest| > 0 && IsJsWhitespace(rest[0]) then
      assert rest == [line[5]] + rest[1..];
      rest[1..]
    else rest
  }

  /** The `data:` lines of an event, each stripped of its field name. */
  function DataFields(lines: seq<string>): (fields: seq<string>)
    ensures |fields| <= |lines|
  {
    if |lines| == 0 then []
    else
      (if HasPrefix(lines[0], "data:") then [StripDataPrefix(lines[0])] else []) + DataFields(lines[1..])
  }

  /** The trimmed, newline-joined data of an event, or `None` when it has no `data:` line. */
  function EventData(event: string): Option<string> {
    var fields := DataFields(Lines(event));
    if |fields| == 0 then None else Some(Trim(Join(fields, "\n")))
  }

  /** What one complete event amounts to. `Ignored` covers an event without data lines,
      with empty data, or with data `parse` rejects (`JSON.parse` throwing). */
  datatype Signal = Ignored | Done | Carries(payload: Payload)

  /** Decodes one event; `parse` stands for `JSON.parse`. */
  function EventSignal(event: string, parse: string -> Option<Payload>): Signal {
    match EventData(event)
    case None => Ignored
    case Some(data) =>
      if data == "" then Ignored
      else if data == DoneMarker then Done
      else
        match parse(data)
        case Some(payload) => Carries(payload)
        case None => Ignored
  }

  function Signals(events: seq<string>, parse: string -> Option<Payload>): (sigs: seq<Signal>)
    ensures |sigs| == |events|
  {
    if |events| == 0 then [] else [EventSignal(events[0], parse)] + Signals(events[1..], parse)
  }

  lemma {:induction false} SignalsAppend(a: seq<string>, b: seq<string>, parse: string -> Option<Payload>)
    ensures Signals(a + b, parse) == Signals(a, parse) + Signals(b, parse)
  {
    if |a| > 0 {
      assert (a + b)[0] == a[0];
      assert (a + b)[1..] == a[1..] + b;
      SignalsAppend(a[1..], b, parse);
    } else {
      assert a + b == b;
    }
  }

  /** The image data of a part as the stream reads it: `part.inlineData?.data`, when truthy. */
  function StreamImage(p: Part): Option<string> {
    match p.inlineData
    case Some(InlineData(_, Some(d))) => if d != "" then Some(d) else None
    case _ => None
  }

  function ApplyPart(st: ParseState, p: Part): ParseState {
    var st1 :=
      if StreamImage(p).Some? && st.inlineDataUrl.None? then st.(inlineDataUrl := Some(PngDataUri(StreamImage(p).value)))
      else st;
    match p.text
    case Some(t) => st1.(collectedText := st1.collectedText + t)
    case None => st1
  }

  function ApplyParts(st: ParseState, ps: seq<Part>): ParseState
    decreases |ps|
  {
    if |ps| == 0 then st else ApplyParts(ApplyPart(st, ps[0]), ps[1..])
  }

  /** A candidate's finish reason, before its parts: `STOP` sets the stop flag. */
  function Stopped(st: ParseState, c: Candidate): ParseState {
    if c.finishReason == Some("STOP") then st.(stopReceived := true) else st
  }

  function ApplyCandidate(st: ParseState, c: Candidate): ParseState {
    ApplyParts(Stopped(st, c), PartsOf(c))
  }

  function ApplyCandidates(st: ParseState, cs: seq<Candidate>): ParseState
    decreases |cs|
  {
    if |cs| == 0 then st else ApplyCandidates(ApplyCandidate(st, cs[0]), cs[1..])
  }

  /** One complete event: the done marker sets the stop flag, a payload is scanned
      candidate by candidate, anything else is skipped. */
  function ApplySignal(st: ParseState, sig: Signal): ParseState {
    match sig
    case Ignored => st
    case Done => st.(stopReceived := true)
    case Carries(payload) => ApplyCandidates(st, payload.candidates)
  }

  function ApplySignals(st: ParseState, sigs: seq<Signal>): ParseState
    decreases |sigs|
  {
    if |sigs| == 0 then st else ApplySignals(ApplySignal(st, sigs[0]), sigs[1..])
  }

  // ---------------------------------------------------------------- framing

  /** One read: the chunk joins the buffer, every complete event is applied, and the
      unterminated remainder becomes the new buffer. */
  function Feed(st: ParseState, chunk: string, parse: string -> Option<Payload>): (r: ParseState)
    ensures r.buffer == Last(Split(st.buffer + chunk, EventSeparator))
    ensures !Contains(r.buffer, EventSeparator)
  {
    var pieces := Split(st.buffer + chunk, EventSeparator);
    SplitPiecesAvoidSeparator(st.buffer + chunk, EventSeparator);
    ApplySignalsEffect(st.(buffer := Last(pieces)), Signals(DropLast(pieces), parse));
    ApplySignals(st.(buffer := Last(pieces)), Signals(DropLast(pieces), parse))
  }

  /** The read loop over the decoded chunks. */
  function FeedAll(st: ParseState, chunks: seq<string>, parse: string -> Option<Payload>): ParseState
    decreases |chunks|
  {
    if |chunks| == 0 then st else FeedAll(Feed(st, chunks[0], parse), chunks[1..], parse)
  }

  /** After the stream ends: the inline image if one was seen, else the link fallback.
      The stop flag and the leftover buffer play no part. */
  function Finish(st: ParseState): Extraction {
    match st.inlineDataUrl
    case Some(uri) => Inline(uri)
    case None => LinkOrFail(st.collectedText, NoImageInStreamMessage)
  }

  /** `parseSseImageResponse`, over the decoded chunks of the body (`None` when there is
      no body). Its result is decided by the complete events of the text alone: the first
      non-empty inline data among all their parts wins, else the first image link in all
      their text, else the extraction error. Whether a done marker or a STOP finish reason
      was seen makes no difference. */
  function ParseSseImageResponse(body: Option<seq<string>>, parse: string -> Option<Payload>): (r: Extraction)
    ensures body.None? ==> r == Failed(Error(EmptyBodyMessage))
    ensures body.Some? ==>
      var parts := TextParts(Concat(body.value), parse);
      r == Conclude(FirstStreamImage(parts), TextOf(parts))
  {
    match body
    case None => Failed(Error(EmptyBodyMessage))
    case Some(chunks) =>
      FoldConcludes(chunks, parse);
      Finish(FeedAll(Initial, chunks, parse))
  }

  // ---------------------------------------------------------------- reference definitions

  /** The events the whole stream text frames: everything before the last separator. */
  function CompleteEvents(text: string): seq<string> {
    DropLast(Split(text, EventSeparator))
  }

  /** The parts of every candidate of an event's payload. */
  function SignalParts(sig: Signal): seq<Part> {
    match sig
    case Carries(payload) => CandidateParts(payload.candidates)
    case _ => []
  }

  /** The parts of all events, in stream order. */
  function StreamParts(sigs: seq<Signal>): seq<Part> {
    if |sigs| == 0 then [] else SignalParts(sigs[0]) + StreamParts(sigs[1..])
  }

  /** The parts of all complete events of a stream's text. */
  function TextParts(text: string, parse: string -> Option<Payload>): seq<Part> {
    StreamParts(Signals(CompleteEvents(text), parse))
  }

  /** The first non-empty inline data among `parts`. */
  function FirstStreamImage(parts: seq<Part>): Option<string> {
    if |parts| == 0 then None
    else if StreamImage(parts[0]).Some? then StreamImage(parts[0])
    else FirstStreamImage(parts[1..])
  }

  /** What the stream concludes from the image and text it saw. */
  function Conclude(image: Option<string>, text: string): Extraction {
    match image
    case Some(d) => Inline(PngDataUri(d))
    case None => LinkOrFail(text, NoImageInStreamMessage)
  }

  /** The image slot keeps what it holds, else takes the first image found. */
  function Keep(current: Option<string>, found: Option<string>): Option<string> {
    if current.Some? then current
    else match found case Some(d) => Some(PngDataUri(d)) case None => None
  }

  // ---------------------------------------------------------------- lemmas

  lemma {:induction false} FirstStreamImageAppend(a: seq<Part>, b: seq<Part>)
    ensures FirstStreamImage(a + b)
         == if FirstStreamImage(a).Some? then FirstStreamImage(a) else FirstStreamImage(b)
  {
    if |a| > 0 {
      assert (a + b)[0] == a[0];
      assert (a + b)[1..] == a[1..] + b;
      FirstStreamImageAppend(a[1..], b);
    } else {
      assert a + b == b;
    }
  }

  lemma {:induction false} StreamPartsAppend(a: seq<Signal>, b: seq<Signal>)
    ensures StreamParts(a + b) == StreamParts(a) + StreamParts(b)
  {
    if |a| > 0 {
      assert (a + b)[0] == a[0];
      assert (a + b)[1..] == a[1..] + b;
      StreamPartsAppend(a[1..], b);
      SeqAssoc(SignalParts(a[0]), StreamParts(a[1..]), StreamParts(b));
    } else {
      assert a + b == b;
    }
  }

  /** Scanning parts appends their text and fills an empty image slot with the first image. */
  lemma {:induction false} ApplyPartsEffect(st: ParseState, ps: seq<Part>)
    ensures ApplyParts(st, ps)
         == st.(collectedText := st.collectedText + TextOf(ps),
                inlineDataUrl := Keep(st.inlineDataUrl, FirstStreamImage(ps)))
    decreases |ps|
  {
    if |ps| > 0 {
      var st1 := ApplyPart(st, ps[0]);
      ApplyPartsEffect(st1, ps[1..]);
      var t := match ps[0].text case Some(t) => t case None => "";
      assert st1.collectedText == st.collectedText + t;
      assert TextOf(ps) == t + TextOf(ps[1..]);
      assert st.collectedText + t + TextOf(ps[1..]) == st.collectedText + (t + TextOf(ps[1..]));
    }
  }

  lemma ApplyCandidatesEffect(st: ParseState, cs: seq<Candidate>)
    ensures ApplyCandidates(st, cs).buffer == st.buffer
    ensures ApplyCandidates(st, cs).collectedText == st.collectedText + TextOf(CandidateParts(cs))
    ensures ApplyCandidates(st, cs).inlineDataUrl == Keep(st.inlineDataUrl, FirstStreamImage(CandidateParts(cs)))
  {
    ApplyCandidatesBuffer(st, cs);
    ApplyCandidatesText(st, cs);
    ApplyCandidatesImage(st, cs);
  }

  lemma {:induction false} ApplyCandidatesBuffer(st: ParseState, cs: seq<Candidate>)
    ensures ApplyCandidates(st, cs).buffer == st.buffer
    decreases |cs|
  {
    if |cs| > 0 {
      ApplyPartsEffect(Stopped(st, cs[0]), PartsOf(cs[0]));
      ApplyCandidatesBuffer(ApplyCandidate(st, cs[0]), cs[1..]);
    }
  }

  lemma {:induction false} ApplyCandidatesText(st: ParseState, cs: seq<Candidate>)
    ensures ApplyCandidates(st, cs).collectedText == st.collectedText + TextOf(CandidateParts(cs))
    decreases |cs|
  {
    if |cs| > 0 {
      var head := TextOf(PartsOf(cs[0]));
      var tail := TextOf(CandidateParts(cs[1..]));
      CandidateText(st, cs[0]);
      ApplyCandidatesText(ApplyCandidate(st, cs[0]), cs[1..]);
      TextOfAppend(PartsOf(cs[0]), CandidateParts(cs[1..]));
      assert st.collectedText + head + tail == st.collectedText + (head + tail);
    }
  }

  lemma CandidateText(st: ParseState, c: Candidate)
    ensures ApplyCandidate(st, c).collectedText == st.collectedText + TextOf(PartsOf(c))
  {
    ApplyPartsEffect(Stopped(st, c), PartsOf(c));
  }

  lemma {:induction false} ApplyCandidatesImage(st: ParseState, cs: seq<Candidate>)
    ensures ApplyCandidates(st, cs).inlineDataUrl == Keep(st.inlineDataUrl, FirstStreamImage(CandidateParts(cs)))
    decreases |cs|
  {
    if |cs| > 0 {
      ApplyPartsEffect(Stopped(st, cs[0]), PartsOf(cs[0]));
      ApplyCandidatesImage(ApplyCandidate(st, cs[0]), cs[1..]);
      FirstStreamImageAppend(PartsOf(cs[0]), CandidateParts(cs[1..]));
      KeepTwice(st.inlineDataUrl, FirstStreamImage(PartsOf(cs[0])), FirstStreamImage(CandidateParts(cs[1..])));
    }
  }

  lemma KeepTwice(current: Option<string>, first: Option<string>, second: Option<string>)
    ensures Keep(Keep(current, first), second) == Keep(current, if first.Some? then first else second)
  {
  }

  /** Applying complete events appends the text of all their parts and fills an empty
      image slot with the first image among them; the buffer is untouched. */
  lemma ApplySignalsEffect(st: ParseState, sigs: seq<Signal>)
    ensures ApplySignals(st, sigs).buffer == st.buffer
    ensures ApplySignals(st, sigs).collectedText == st.collectedText + TextOf(StreamParts(sigs))
    ensures ApplySignals(st, sigs).inlineDataUrl == Keep(st.inlineDataUrl, FirstStreamImage(StreamParts(sigs)))
  {
    ApplySignalsBuffer(st, sigs);
    ApplySignalsText(st, sigs);
    ApplySignalsImage(st, sigs);
  }

  lemma {:induction false} ApplySignalsBuffer(st: ParseState, sigs: seq<Signal>)
    ensures ApplySignals(st, sigs).buffer == st.buffer
    decreases |sigs|
  {
    if |sigs| > 0 {
      ApplySignalEffect(st, sigs[0]);
      ApplySignalsBuffer(ApplySignal(st, sigs[0]), sigs[1..]);
    }
  }

  lemma {:induction false} ApplySignalsText(st: ParseState, sigs: seq<Signal>)
    ensures ApplySignals(st, sigs).collectedText == st.collectedText + TextOf(StreamParts(sigs))
    decreases |sigs|
  {
    if |sigs| == 0 {
      assert st.collectedText + "" == st.collectedText;
    } else {
      var head, rest := SignalParts(sigs[0]), StreamParts(sigs[1..]);
      var st1 := ApplySignal(st, sigs[0]);
      assert ApplySignals(st, sigs) == ApplySignals(st1, sigs[1..]);
      assert StreamParts(sigs) == head + rest;
      ApplySignalEffect(st, sigs[0]);
      ApplySignalsText(st1, sigs[1..]);
      TextOfAppend(head, rest);
      SeqAssoc(st.collectedText, TextOf(head), TextOf(rest));
    }
  }

  lemma {:induction false} ApplySignalsImage(st: ParseState, sigs: seq<Signal>)
    ensures ApplySignals(st, sigs).inlineDataUrl == Keep(st.inlineDataUrl, FirstStreamImage(StreamParts(sigs)))
    decreases |sigs|
  {
    if |sigs| > 0 {
      var head, rest := SignalParts(sigs[0]), StreamParts(sigs[1..]);
      var st1 := ApplySignal(st, sigs[0]);
      assert ApplySignals(st, sigs) == ApplySignals(st1, sigs[1..]);
      assert StreamParts(sigs) == head + rest;
      ApplySignalEffect(st, sigs[0]);
      ApplySignalsImage(st1, sigs[1..]);
      FirstStreamImageAppend(head, rest);
      KeepTwice(st.inlineDataUrl, FirstStreamImage(head), FirstStreamImage(rest));
    }
  }

  lemma ApplySignalEffect(st: ParseState, sig: Signal)
    ensures ApplySignal(st, sig).buffer == st.buffer
    ensures ApplySignal(st, sig).collectedText == st.collectedText + TextOf(SignalParts(sig))
    ensures ApplySignal(st, sig).inlineDataUrl == Keep(st.inlineDataUrl, FirstStreamImage(SignalParts(sig)))
  {
    if sig.Carries? {
      ApplyCandidatesEffect(st, sig.payload.candidates);
    } else {
      assert SignalParts(sig) == [];
      assert st.collectedText + "" == st.collectedText;
    }
  }

  /** The buffer is only carried along by event processing. */
  lemma {:induction false} ApplySignalsIgnoresBuffer(st: ParseState, sigs: seq<Signal>, b: string)
    ensures ApplySignals(st.(buffer := b), sigs) == ApplySignals(st, sigs).(buffer := b)
    decreases |sigs|
  {
    if |sigs| > 0 {
      if sigs[0].Carries? {
        ApplyCandidatesIgnoresBuffer(st, sigs[0].payload.candidates, b);
      }
      ApplySignalsIgnoresBuffer(ApplySignal(st, sigs[0]), sigs[1..], b);
    }
  }

  lemma {:induction false} ApplyCandidatesIgnoresBuffer(st: ParseState, cs: seq<Candidate>, b: string)
    ensures ApplyCandidates(st.(buffer := b), cs) == ApplyCandidates(st, cs).(buffer := b)
    decreases |cs|
  {
    if |cs| > 0 {
      var st0 := if cs[0].finishReason == Some("STOP") then st.(stopReceived := true) else st;
      ApplyPartsEffect(st0, PartsOf(cs[0]));
      ApplyPartsEffect(st0.(buffer := b), PartsOf(cs[0]));
      assert ApplyCandidate(st.(buffer := b), cs[0]) == ApplyCandidate(st, cs[0]).(buffer := b);
      ApplyCandidatesIgnoresBuffer(ApplyCandidate(st, cs[0]), cs[1..], b);
    }
  }

  lemma {:induction false} ApplySignalsAppend(st: ParseState, a: seq<Signal>, b: seq<Signal>)
    ensures ApplySignals(st, a + b) == ApplySignals(ApplySignals(st, a), b)
    decreases |a|
  {
    if |a| > 0 {
      assert (a + b)[0] == a[0];
      assert (a + b)[1..] == a[1..] + b;
      ApplySignalsAppend(ApplySignal(st, a[0]), a[1..], b);
    } else {
      assert a + b == b;
    }
  }

  /** Two reads do what one read of their concatenation does. */
  lemma FeedAppend(st: ParseState, a: string, b: string, parse: string -> Option<Payload>)
    ensures Feed(Feed(st, a, parse), b, parse) == Feed(st, a + b, parse)
  {
    var p := Split(st.buffer + a, EventSeparator);
    var mid := Feed(st, a, parse);
    var q := Split(Last(p) + b, EventSeparator);
    var r := Split(st.buffer + (a + b), EventSeparator);
    SeqAssoc(st.buffer, a, b);
    SplitAppend(st.buffer + a, b, EventSeparator);
    LastOfAppend(DropLast(p), q);
    SignalsAppend(DropLast(p), DropLast(q), parse);
    var sp, sq := Signals(DropLast(p), parse), Signals(DropLast(q), parse);
    FeedUnfold(st, a, parse);
    FeedUnfold(mid, b, parse);
    FeedUnfold(st, a + b, parse);
    ApplySignalsIgnoresBuffer(st.(buffer := Last(p)), sp, Last(q));
    assert st.(buffer := Last(p)).(buffer := Last(q)) == st.(buffer := Last(q));
    ApplySignalsAppend(st.(buffer := Last(q)), sp, sq);
  }

  /** One read, spelled out. */
  lemma FeedUnfold(st: ParseState, chunk: string, parse: string -> Option<Payload>)
    ensures var pieces := Split(st.buffer + chunk, EventSeparator);
      Feed(st, chunk, parse) == ApplySignals(st.(buffer := Last(pieces)), Signals(DropLast(pieces), parse))
  {
  }

  lemma LastOfAppend<T>(xs: seq<T>, ys: seq<T>)
    requires |ys| > 0
    ensures Last(xs + ys) == Last(ys) && DropLast(xs + ys) == xs + DropLast(ys)
  {
    assert (xs + ys)[..|xs + ys| - 1] == xs + ys[..|ys| - 1];
  }

  /** Reading the chunks one by one does what one read of their concatenation does,
      starting from a buffer with no complete event in it. */
  lemma {:induction false} FeedAllIsOneRead(st: ParseState, chunks: seq<string>, parse: string -> Option<Payload>)
    requires !Contains(st.buffer, EventSeparator)
    ensures FeedAll(st, chunks, parse) == Feed(st, Concat(chunks), parse)
    decreases |chunks|
  {
    if |chunks| == 0 {
      assert st.buffer + "" == st.buffer;
      assert Split(st.buffer, EventSeparator) == [st.buffer];
    } else {
      FeedAllIsOneRead(Feed(st, chunks[0], parse), chunks[1..], parse);
      FeedAppend(st, chunks[0], Concat(chunks[1..]), parse);
    }
  }

  /** Text without two consecutive line feeds completes no event: nothing in it is
      parsed, and the stream ends with the no-image error rather than the empty-body
      error. */
  lemma {:induction false} NoSeparatorNoImage(chunks: seq<string>, parse: string -> Option<Payload>)
    requires !Contains(Concat(chunks), EventSeparator)
    ensures CompleteEvents(Concat(chunks)) == []
    ensures ParseSseImageResponse(Some(chunks), parse) == Failed(Error(NoImageInStreamMessage))
  {
    var text := Concat(chunks);
    assert Split(text, EventSeparator) == [text];
    assert TextParts(text, parse) == [];
    assert Markdown.ExtractMarkdownImageUrl("") == None;
  }

  /** Only a null body is the empty-body error; a body that is present but holds no
      text reaches the end of the stream and gives the no-image error. */
  lemma PresentEmptyBodyHasNoImage(parse: string -> Option<Payload>)
    ensures ParseSseImageResponse(None, parse) == Failed(Error(EmptyBodyMessage))
    ensures ParseSseImageResponse(Some([]), parse) == Failed(Error(NoImageInStreamMessage))
    ensures EmptyBodyMessage != NoImageInStreamMessage
  {
    assert !Contains(Concat([]), EventSeparator);
    NoSeparatorNoImage([], parse);
    assert EmptyBodyMessage[7] != NoImageInStreamMessage[7];
  }

  /** Lines are split at `\r?\n`, but events only at `"\n\n"`: an event whose blank line
      is written `\r\n\r\n` is never completed, so its data is never parsed. */
  lemma CrlfBlankLineEndsNoEvent(parse: string -> Option<Payload>)
    ensures CompleteEvents("data: x\r\n\r\n") == []
    ensures ParseSseImageResponse(Some(["data: x\r\n\r\n"]), parse) == Failed(Error(NoImageInStreamMessage))
  {
    var text := "data: x\r\n\r\n";
    assert Concat([text]) == text;
    forall i: nat | i <= |text| ensures !OccursAt(text, EventSeparator, i) {
      if i + 2 <= |text| {
        assert text[i..i + 2][0] == text[i];
        assert text[i..i + 2][1] == text[i + 1];
      }
    }
    NoSeparatorNoImage([text], parse);
  }

  /** Chunk boundaries do not matter: streams with the same text end in the same parser
      state, and so in the same result. */
  lemma ChunkBoundariesIrrelevant(c1: seq<string>, c2: seq<string>, parse: string -> Option<Payload>)
    requires Concat(c1) == Concat(c2)
    ensures FeedAll(Initial, c1, parse) == FeedAll(Initial, c2, parse)
    ensures ParseSseImageResponse(Some(c1), parse) == ParseSseImageResponse(Some(c2), parse)
  {
    FeedAllIsOneRead(Initial, c1, parse);
    FeedAllIsOneRead(Initial, c2, parse);
  }

  /** The chunk-by-chunk fold ends where the reference reading of the complete events
      does. */
  lemma FoldConcludes(chunks: seq<string>, parse: string -> Option<Payload>)
    ensures Finish(FeedAll(Initial, chunks, parse))
         == Conclude(FirstStreamImage(TextParts(Concat(chunks), parse)), TextOf(TextParts(Concat(chunks), parse)))
  {
    var text := Concat(chunks);
    var pieces := Split(text, EventSeparator);
    var sigs := Signals(DropLast(pieces), parse);
    var parts := StreamParts(sigs);
    FeedAllIsOneRead(Initial, chunks, parse);
    assert Initial.buffer + text == text;
    var st := ApplySignals(Initial.(buffer := Last(pieces)), sigs);
    assert FeedAll(Initial, chunks, parse) == st;
    ApplySignalsEffect(Initial.(buffer := Last(pieces)), sigs);
    assert st.collectedText == TextOf(parts);
    assert st.inlineDataUrl == Keep(None, FirstStreamImage(parts));
  }

  /** Text after the last separator is never parsed: appending a chunk that completes
      no event leaves the result unchanged. */
  lemma TrailingEventNeverParsed(chunks: seq<string>, tail: string, parse: string -> Option<Payload>)
    requires !Contains(Last(Split(Concat(chunks), EventSeparator)) + tail, EventSeparator)
    ensures ParseSseImageResponse(Some(chunks + [tail]), parse) == ParseSseImageResponse(Some(chunks), parse)
  {
    TailCompletesNoEvent(chunks, tail);
    assert TextParts(Concat(chunks + [tail]), parse) == TextParts(Concat(chunks), parse);
  }

  lemma TailCompletesNoEvent(chunks: seq<string>, tail: string)
    requires !Contains(Last(Split(Concat(chunks), EventSeparator)) + tail, EventSeparator)
    ensures CompleteEvents(Concat(chunks + [tail])) == CompleteEvents(Concat(chunks))
  {
    ConcatAppend(chunks, [tail]);
    assert Concat([tail]) == tail + Concat([]);
    assert tail + "" == tail;
    assert Concat(chunks + [tail]) == Concat(chunks) + tail;
    SplitAppend(Concat(chunks), tail, EventSeparator);
    var p := Split(Concat(chunks), EventSeparator);
    assert Split(Last(p) + tail, EventSeparator) == [Last(p) + tail];
    assert Split(Concat(chunks) + tail, EventSeparator) == DropLast(p) + [Last(p) + tail];
  }

  /** First inline image wins: once the complete events of a stream prefix have produced
      an image, nothing that arrives later changes the result. */
  lemma LaterEventsCannotReplaceImage(chunks: seq<string>, more: seq<string>, parse: string -> Option<Payload>,
                                      data: string)
    requires FirstStreamImage(TextParts(Concat(chunks), parse)) == Some(data)
    ensures ParseSseImageResponse(Some(chunks + more), parse) == Inline(PngDataUri(data))
  {
    var later := EventsExtend(chunks, more);
    var sigs := Signals(CompleteEvents(Concat(chunks)), parse);
    SignalsAppend(CompleteEvents(Concat(chunks)), later, parse);
    StreamPartsAppend(sigs, Signals(later, parse));
    FirstStreamImageAppend(StreamParts(sigs), StreamParts(Signals(later, parse)));
    assert FirstStreamImage(TextParts(Concat(chunks + more), parse)) == Some(data);
  }

  /** More chunks only add complete events after those already complete. */
  lemma EventsExtend(chunks: seq<string>, more: seq<string>) returns (later: seq<string>)
    ensures CompleteEvents(Concat(chunks + more)) == CompleteEvents(Concat(chunks)) + later
  {
    var p := Split(Concat(chunks), EventSeparator);
    ConcatAppend(chunks, more);
    SplitAppend(Concat(chunks), Concat(more), EventSeparator);
    later := DropLast(Split(Last(p) + Concat(more), EventSeparator));
  }

  /** Lines that do not start with `data:` play no part in an event's data. */
  lemma {:induction false} OtherLinesIgnored(before: seq<string>, line: string, after: seq<string>)
    requires !HasPrefix(line, "data:")
    ensures DataFields(before + [line] + after) == DataFields(before + after)
  {
    if |before| == 0 {
      assert before + [line] + after == [line] + after;
      assert ([line] + after)[1..] == after;
      assert before + after == after;
    } else {
      OtherLinesIgnored(before[1..], line, after);
      assert (before + [line] + after)[1..] == before[1..] + [line] + after;
      assert (before + after)[1..] == before[1..] + after;
      assert (before + [line] + after)[0] == before[0] == (before + after)[0];
    }
  }

  /** An event of one `data:` line carries that line's value, trimmed. */
  lemma OneLineEvent(line: string)
    requires HasPrefix(line, "data:")
    requires forall k | 0 <= k < |line| :: line[k] != '\n'
    ensures EventData(line) == Some(Trim(StripDataPrefix(line)))
  {
    AbsentCharExcludes(line, "\n", 0);
    assert Split(line, "\n") == [line];
    assert Lines(line) == [line];
    assert DataFields([line]) == [StripDataPrefix(line)];
  }

  /** A one-line event whose value is the marker ends the stream. */
  lemma DoneLine(line: string, parse: string -> Option<Payload>)
    requires HasPrefix(line, "data:")
    requires forall k | 0 <= k < |line| :: line[k] != '\n'
    requires StripDataPrefix(line) == DoneMarker
    ensures EventSignal(line, parse) == Done
  {
    OneLineEvent(line);
    DoneMarkerTrimmed();
  }

  lemma DoneMarkerTrimmed()
    ensures Trim(DoneMarker) == DoneMarker
  {
    TrimUnchanged(DoneMarker);
  }

  /** The end-of-stream marker, after `data:` and at most one whitespace character other
      than a line feed, ends the stream. */
  lemma DoneEvent(pad: string, parse: string -> Option<Payload>)
    requires |pad| <= 1
    requires forall k | 0 <= k < |pad| :: IsJsWhitespace(pad[k]) && pad[k] != '\n'
    ensures EventSignal("data:" + pad + DoneMarker, parse) == Done
  {
    var line := "data:" + pad + DoneMarker;
    assert line[..5] == "data:";
    assert line[5..] == pad + DoneMarker;
    if |pad| == 1 {
      assert line[5] == pad[0];
      assert line[6..] == DoneMarker;
    } else {
      assert line[5] == '[';
    }
    assert StripDataPrefix(line) == DoneMarker;
    forall k | 0 <= k < |line| ensures line[k] != '\n' {
      if k < 5 {
        assert line[k] == "data:"[k];
      } else if k < 5 + |pad| {
        assert line[k] == pad[k - 5];
      } else {
        assert line[k] == DoneMarker[k - 5 - |pad|];
      }
    }
    DoneLine(line, parse);
  }
}
