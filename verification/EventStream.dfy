/** Reading a POSTed event stream: `postEventStream`.

    A read returns some bytes of the stream, cut anywhere. The reader decodes
    them, appends the text to what it held back, splits off the frames that a
    blank line completed and holds back the rest. The byte decoder, the frame
    parser and the network are parameters. */
module EventStream {
  import opened Options
  import opened Sequences
  import opened Text

  type Bytes = seq<bv8>

  /** A streaming decoder: a state, and what each byte adds to the text. */
  datatype Decoder<!S> = Decoder(start: S, step: (S, bv8) -> (S, string))

  function DecodeFrom<S>(d: Decoder<S>, state: S, bytes: Bytes): (S, string) {
    if bytes == [] then (state, "")
    else
      var (next, text) := d.step(state, bytes[0]);
      var (last, rest) := DecodeFrom(d, next, bytes[1..]);
      (last, text + rest)
  }

  lemma {:induction false} DecodeConcat<S>(d: Decoder<S>, state: S, a: Bytes, b: Bytes)
    ensures var (mid, text) := DecodeFrom(d, state, a);
            var (last, rest) := DecodeFrom(d, mid, b);
            DecodeFrom(d, state, a + b) == (last, text + rest)
  {
    if a == [] {
      assert a + b == b;
      assert "" + DecodeFrom(d, state, b).1 == DecodeFrom(d, state, b).1;
    } else {
      assert (a + b)[1..] == a[1..] + b;
      var (next, t0) := d.step(state, a[0]);
      DecodeConcat(d, next, a[1..], b);
      var (mid, t1) := DecodeFrom(d, next, a[1..]);
      var (_, t2) := DecodeFrom(d, mid, b);
      assert t0 + (t1 + t2) == (t0 + t1) + t2;
    }
  }

  // ---------------------------------------------------------------------
  // Frames
  // ---------------------------------------------------------------------

  /** Where the first "\n\n" begins, or the length when there is none. */
  function Break(s: string): (i: nat)
    ensures i <= |s|
    ensures i < |s| ==> i + 2 <= |s| && s[i..i + 2] == "\n\n"
  {
    if |s| < 2 then |s| else if s[..2] == "\n\n" then 0 else 1 + Break(s[1..])
  }

  /** `s.split("\n\n")`. */
  function SplitFrames(s: string): (r: seq<string>)
    ensures |r| >= 1
    decreases |s|
  {
    var i := Break(s);
    if i == |s| then [s] else [s[..i]] + SplitFrames(s[i + 2..])
  }

  function Complete(s: string): seq<string> {
    var r := SplitFrames(s);
    r[..|r| - 1]
  }

  function HeldBack(s: string): string {
    var r := SplitFrames(s);
    r[|r| - 1]
  }

  lemma {:induction false} BreakPrefix(x: string, y: string)
    requires Break(x) < |x|
    ensures Break(x + y) == Break(x)
  {
    assert (x + y)[..2] == x[..2];
    if x[..2] != "\n\n" {
      assert (x + y)[1..] == x[1..] + y;
      BreakPrefix(x[1..], y);
    }
  }

  lemma {:induction false} BreakTake(s: string)
    ensures Break(s[..Break(s)]) == Break(s)
  {
    if |s| < 2 || s[..2] == "\n\n" {
    } else {
      var t := s[..Break(s)];
      BreakTake(s[1..]);
      assert t[1..] == s[1..][..Break(s[1..])];
      if |t| >= 2 {
        assert t[..2] == s[..2];
      }
    }
  }

  /** The frames are the text cut at every delimiter, found from the left: put
      back together they are the text, and none contains a delimiter. */
  lemma SplitFramesIsTheCut(s: string)
    ensures Join("\n\n", SplitFrames(s)) == s && Whole(SplitFrames(s))
  {
    FramesJoin(s);
    FramesAreWhole(s);
  }

  lemma JoinFirst(sep: string, first: string, rest: seq<string>)
    requires rest != []
    ensures Join(sep, [first] + rest) == first + sep + Join(sep, rest)
  {
    assert ([first] + rest)[1..] == rest;
  }

  /** The first frame, and the text behind the delimiter that ends it. */
  lemma FirstFrame(s: string) returns (first: string, tail: string)
    requires Break(s) < |s|
    ensures SplitFrames(s) == [first] + SplitFrames(tail)
    ensures Break(first) == |first| && |tail| < |s|
    ensures s == first + "\n\n" + tail
  {
    var i := Break(s);
    first, tail := s[..i], s[i + 2..];
    BreakTake(s);
    assert s[i..i + 2] == "\n\n";
  }

  lemma {:induction false} FramesJoin(s: string)
    ensures Join("\n\n", SplitFrames(s)) == s
    decreases |s|
  {
    if Break(s) < |s| {
      var first, tail := FirstFrame(s);
      FramesJoin(tail);
      JoinFirst("\n\n", first, SplitFrames(tail));
    }
  }

  predicate Whole(frames: seq<string>) {
    forall f :: f in frames ==> Break(f) == |f|
  }

  lemma WholeCons(first: string, rest: seq<string>)
    requires Break(first) == |first| && Whole(rest)
    ensures Whole([first] + rest)
  {
  }

  lemma {:induction false} FramesAreWhole(s: string)
    ensures Whole(SplitFrames(s))
    decreases |s|
  {
    if Break(s) < |s| {
      var first, tail := FirstFrame(s);
      FramesAreWhole(tail);
      WholeCons(first, SplitFrames(tail));
    }
  }

  /** Splitting what was held back, with more text behind it, continues the
      split of the whole; a delimiter may straddle the cut. */
  lemma {:induction false} SplitContinues(x: string, y: string)
    ensures SplitFrames(x + y) == Complete(x) + SplitFrames(HeldBack(x) + y)
    decreases |x|
  {
    if Break(x) < |x| {
      var first, tail := SplitStep(x, y);
      SplitContinues(tail, y);
      CompleteStep(x, first, tail);
      Associate([first], Complete(tail), SplitFrames(HeldBack(tail) + y));
    }
  }

  lemma CompleteStep(x: string, first: string, tail: string)
    requires SplitFrames(x) == [first] + SplitFrames(tail)
    ensures Complete(x) == [first] + Complete(tail)
    ensures HeldBack(x) == HeldBack(tail)
  {
    FrontAndLast(first, SplitFrames(tail));
  }

  lemma FrontAndLast(first: string, rest: seq<string>)
    requires rest != []
    ensures var r := [first] + rest;
            r[..|r| - 1] == [first] + rest[..|rest| - 1] && r[|r| - 1] == rest[|rest| - 1]
  {
  }

  /** A frame that is complete in `x` is the first frame of `x + y` as well. */
  lemma SplitStep(x: string, y: string) returns (first: string, tail: string)
    requires Break(x) < |x|
    ensures SplitFrames(x) == [first] + SplitFrames(tail) && |tail| < |x|
    ensures SplitFrames(x + y) == [first] + SplitFrames(tail + y)
  {
    var i := Break(x);
    first, tail := x[..i], x[i + 2..];
    BreakPrefix(x, y);
    assert (x + y)[..i] == x[..i];
    assert (x + y)[i + 2..] == x[i + 2..] + y;
  }

  lemma CompleteContinues(x: string, y: string)
    ensures Complete(x + y) == Complete(x) + Complete(HeldBack(x) + y)
    ensures HeldBack(x + y) == HeldBack(HeldBack(x) + y)
  {
    SplitContinues(x, y);
  }

  /** Text that completes no frame adds no frame, however long it is. */
  lemma UnterminatedAddsNothing(text: string, tail: string)
    requires Break(HeldBack(text) + tail) == |HeldBack(text) + tail|
    ensures Complete(text + tail) == Complete(text)
  {
    SplitContinues(text, tail);
  }

  // ---------------------------------------------------------------------
  // Events
  // ---------------------------------------------------------------------

  const DATA_PREFIX := "data: "

  function FirstDataLine(lines: seq<string>): Option<string> {
    if lines == [] then None
    else if StartsWith(lines[0], DATA_PREFIX) then Some(lines[0][6..])
    else FirstDataLine(lines[1..])
  }

  /** The event of one frame: its first data line, if that parses. */
  function FrameEvent<E>(frame: string, parse: string -> Option<E>): Option<E> {
    match FirstDataLine(Split('\n', frame))
    case None => None
    case Some(data) => parse(data)
  }

  /** The calls that deliver the events of some frames, in order. */
  function Calls<E>(frames: seq<string>, parse: string -> Option<E>): seq<Callback<E>> {
    if frames == [] then []
    else
      var rest := Calls(frames[1..], parse);
      match FrameEvent(frames[0], parse)
      case None => rest
      case Some(e) => [OnEvent(e)] + rest
  }

  lemma {:induction false} CallsConcat<E>(a: seq<string>, b: seq<string>, parse: string -> Option<E>)
    ensures Calls(a + b, parse) == Calls(a, parse) + Calls(b, parse)
  {
    if a == [] {
      assert a + b == b;
    } else {
      assert (a + b)[1..] == a[1..] + b;
      CallsConcat(a[1..], b, parse);
    }
  }

  // ---------------------------------------------------------------------
  // The stream
  // ---------------------------------------------------------------------

  datatype Read = Chunk(bytes: Bytes) | End | Failure(aborted: bool, message: string)

  datatype Response =
    | NoResponse(aborted: bool, message: string)
    | NotOk(detail: string)
    | NoBody
    | Body(parts: seq<Read>)

  datatype Callback<+E> = OnEvent(event: E) | OnDone | OnError(message: string)

  const NO_BODY := "The server sent no response body"

  function Fail<E>(aborted: bool, message: string): seq<Callback<E>> {
    if aborted then [] else [OnError(message)]
  }

  /** All the bytes that arrive before the stream ends or fails. */
  function Received(parts: seq<Read>): Bytes {
    if parts != [] && parts[0].Chunk? then parts[0].bytes + Received(parts[1..]) else []
  }

  /** What follows them: nothing yet, the end, or a failure. */
  function Ending<E>(parts: seq<Read>): seq<Callback<E>> {
    if parts == [] then []
    else match parts[0]
      case Chunk(_) => Ending(parts[1..])
      case End => [OnDone]
      case Failure(aborted, message) => Fail(aborted, message)
  }

  function StateAfter<S>(d: Decoder<S>, got: Bytes): S {
    DecodeFrom(d, d.start, got).0
  }

  function TextOf<S>(d: Decoder<S>, got: Bytes): string {
    DecodeFrom(d, d.start, got).1
  }

  /** The whole text, split once. */
  function Delivered<S, E>(d: Decoder<S>, parse: string -> Option<E>, response: Response): seq<Callback<E>> {
    match response
    case NoResponse(aborted, message) => Fail(aborted, message)
    case NotOk(detail) => [OnError(detail)]
    case NoBody => [OnError(NO_BODY)]
    case Body(parts) =>
      Calls(Complete(TextOf(d, Received(parts))), parse) + Ending(parts)
  }

  // ---------------------------------------------------------------------
  // What a server sends, and what of it is heard
  // ---------------------------------------------------------------------

  /** A frame as its lines: with a first line that carries a payload, or with none. */
  datatype Frame =
    | Silent(lines: seq<string>)
    | Saying(before: seq<string>, payload: string, after: seq<string>)

  predicate OneLiners(lines: seq<string>) {
    forall l :: l in lines ==> '\n' !in l
  }

  predicate Dataless(lines: seq<string>) {
    forall l :: l in lines ==> !("data: " <= l)
  }

  predicate Lawful(f: Frame) {
    match f
    case Silent(lines) => OneLiners(lines) && Dataless(lines)
    case Saying(before, payload, after) =>
      OneLiners(before) && Dataless(before) && '\n' !in payload && OneLiners(after)
  }

  function Written(f: Frame): string {
    match f
    case Silent(lines) => Join("\n", lines)
    case Saying(before, payload, after) => Join("\n", before + ["data: " + payload] + after)
  }

  function WrittenAll(frames: seq<Frame>): seq<string> {
    seq(|frames|, i requires 0 <= i < |frames| => Written(frames[i]))
  }

  /** No blank line in a text. */
  predicate NoBlankLine(text: string) {
    forall i :: 0 <= i < |text| - 1 ==> !(text[i] == '\n' && text[i + 1] == '\n')
  }

  predicate Solid(text: string) {
    NoBlankLine(text) && (text != "" ==> text[|text| - 1] != '\n')
  }

  /** The calls a frame is worth: its payload's, if it parses. */
  function HeardOf<E>(f: Frame, parse: string -> Option<E>): seq<Callback<E>> {
    if f.Saying? && parse(f.payload).Some? then [OnEvent(parse(f.payload).value)] else []
  }

  function Heard<E>(frames: seq<Frame>, parse: string -> Option<E>): seq<Callback<E>> {
    if frames == [] then [] else HeardOf(frames[0], parse) + Heard(frames[1..], parse)
  }

  /** The call for what the reads end with. */
  function Closing<E>(end: seq<Read>): seq<Callback<E>> {
    if end == [] || end[0].Chunk? then []
    else match end[0]
      case End => [OnDone]
      case Failure(aborted, message) => if aborted then [] else [OnError(message)]
  }

  /** The decoder's way through some bytes: its states, and the text each byte gave. */
  ghost predicate Spells<S>(d: Decoder<S>, bytes: Bytes, states: seq<S>, pieces: seq<string>) {
    && |states| == |bytes| + 1 && |pieces| == |bytes| && states[0] == d.start
    && forall i :: 0 <= i < |bytes| ==> d.step(states[i], bytes[i]) == (states[i + 1], pieces[i])
  }

  /** What went over the wire: some frames and an unfinished one, cut into chunks
      anywhere, and then `end`. */
  datatype Sent<S> = Sent(
    frames: seq<Frame>, unfinished: string, chunks: seq<Bytes>, end: seq<Read>, states: seq<S>, pieces: seq<string>)

  /** One read for each chunk. */
  function InReads(chunks: seq<Bytes>): seq<Read> {
    if chunks == [] then [] else [Chunk(chunks[0])] + InReads(chunks[1..])
  }

  ghost predicate Sends<S>(d: Decoder<S>, response: Response, sent: Sent<S>) {
    && response == Body(InReads(sent.chunks) + sent.end)
    && (sent.end == [] || !sent.end[0].Chunk?)
    && Spells(d, Flatten(sent.chunks), sent.states, sent.pieces)
    && Flatten(sent.pieces) == Join("\n\n", WrittenAll(sent.frames) + [sent.unfinished])
    && (forall f :: f in sent.frames ==> Lawful(f) && Solid(Written(f)))
    && NoBlankLine(sent.unfinished)
  }

  lemma {:induction false} FirstDataIs(before: seq<string>, line: string, after: seq<string>)
    requires Dataless(before) && "data: " <= line
    ensures FirstDataLine(before + [line] + after) == Some(line[6..])
  {
    var lines := before + [line] + after;
    if before != [] {
      assert before[0] in before;
      assert lines[1..] == before[1..] + [line] + after;
      assert Dataless(before[1..]) by {
        assert forall l :: l in before[1..] ==> l in before;
      }
      FirstDataIs(before[1..], line, after);
    }
  }

  lemma {:induction false} NoDataNoLine(lines: seq<string>)
    requires Dataless(lines)
    ensures FirstDataLine(lines) == None
  {
    if lines != [] {
      assert lines[0] in lines;
      assert Dataless(lines[1..]) by {
        assert forall l :: l in lines[1..] ==> l in lines;
      }
      NoDataNoLine(lines[1..]);
    }
  }

  /** A frame makes exactly its payload's call: the first line that starts with the
      data prefix, without the prefix, if it parses. */
  lemma FrameIsHeard<E>(f: Frame, parse: string -> Option<E>)
    requires Lawful(f)
    ensures Calls([Written(f)], parse) == HeardOf(f, parse)
  {
    assert [Written(f)][1..] == [] && Calls([], parse) == [];
    match f {
      case Silent(lines) =>
        if lines == [] {
          assert Split('\n', "") == [""] && FirstDataLine([""]) == None;
        } else {
          JoinThenSplit('\n', lines);
          NoDataNoLine(lines);
        }
      case Saying(before, payload, after) =>
        var line := "data: " + payload;
        assert '\n' !in line && line[6..] == payload;
        JoinThenSplit('\n', before + [line] + after);
        FirstDataIs(before, line, after);
    }
  }

  lemma {:induction false} FramesAreHeard<E>(frames: seq<Frame>, parse: string -> Option<E>)
    requires forall f :: f in frames ==> Lawful(f)
    ensures Calls(WrittenAll(frames), parse) == Heard(frames, parse)
  {
    if frames != [] {
      assert frames[0] in frames && forall f :: f in frames[1..] ==> f in frames;
      FramesAreHeard(frames[1..], parse);
      FrameIsHeard(frames[0], parse);
      assert WrittenAll(frames) == [Written(frames[0])] + WrittenAll(frames[1..]);
      CallsConcat([Written(frames[0])], WrittenAll(frames[1..]), parse);
    }
  }

  lemma {:induction false} BreakIsFirst(text: string, rest: string)
    requires Solid(text)
    ensures Break(text + "\n\n" + rest) == |text|
  {
    var s := text + "\n\n" + rest;
    if text == "" {
      assert s[..2] == "\n\n";
    } else {
      assert s[1..] == text[1..] + "\n\n" + rest;
      assert s[0] == text[0] && s[1] == if |text| > 1 then text[1] else '\n';
      assert s[..2][0] == s[0] && s[..2][1] == s[1];
      assert forall i :: 0 <= i < |text[1..]| ==> text[1..][i] == text[i + 1];
      BreakIsFirst(text[1..], rest);
    }
  }

  lemma {:induction false} NoBreak(text: string)
    requires NoBlankLine(text)
    ensures Break(text) == |text|
  {
    if |text| >= 2 {
      assert text[..2][0] == text[0] && text[..2][1] == text[1];
      assert forall i :: 0 <= i < |text[1..]| ==> text[1..][i] == text[i + 1];
      NoBreak(text[1..]);
    }
  }

  lemma {:induction false} FramesAreFound(frames: seq<string>, unfinished: string)
    requires NoBlankLine(unfinished) && forall f :: f in frames ==> Solid(f)
    ensures SplitFrames(Join("\n\n", frames + [unfinished])) == frames + [unfinished]
  {
    var s := Join("\n\n", frames + [unfinished]);
    if frames == [] {
      assert frames + [unfinished] == [unfinished];
      NoBreak(unfinished);
    } else {
      var rest := Join("\n\n", frames[1..] + [unfinished]);
      assert (frames + [unfinished])[1..] == frames[1..] + [unfinished];
      assert frames[0] in frames && forall f :: f in frames[1..] ==> f in frames;
      FramesAreFound(frames[1..], unfinished);
      assert s == frames[0] + "\n\n" + rest;
      FrameThenRest(frames[0], rest);
    }
  }

  lemma FrameThenRest(frame: string, rest: string)
    requires Solid(frame)
    ensures SplitFrames(frame + "\n\n" + rest) == [frame] + SplitFrames(rest)
  {
    var s := frame + "\n\n" + rest;
    BreakIsFirst(frame, rest);
    assert s[..|frame|] == frame && s[|frame| + 2..] == rest;
  }

  lemma {:induction false} SpelledText<S>(d: Decoder<S>, bytes: Bytes, states: seq<S>, pieces: seq<string>)
    requires |states| == |bytes| + 1 && |pieces| == |bytes|
    requires forall i :: 0 <= i < |bytes| ==> d.step(states[i], bytes[i]) == (states[i + 1], pieces[i])
    ensures DecodeFrom(d, states[0], bytes).1 == Flatten(pieces)
  {
    if bytes != [] {
      assert d.step(states[0], bytes[0]) == (states[1], pieces[0]);
      forall i | 0 <= i < |bytes| - 1
        ensures d.step(states[1..][i], bytes[1..][i]) == (states[1..][i + 1], pieces[1..][i])
      {
        assert d.step(states[i + 1], bytes[i + 1]) == (states[i + 2], pieces[i + 1]);
      }
      SpelledText(d, bytes[1..], states[1..], pieces[1..]);
    }
  }

  lemma OneReadMore<E>(bytes: Bytes, rest: seq<Read>)
    ensures Received([Chunk(bytes)] + rest) == bytes + Received(rest)
    ensures Ending<E>([Chunk(bytes)] + rest) == Ending<E>(rest)
  {
    assert ([Chunk(bytes)] + rest)[1..] == rest;
  }

  lemma NoReads<E>(end: seq<Read>)
    requires end == [] || !end[0].Chunk?
    ensures Received(end) == [] && Ending<E>(end) == Closing<E>(end)
  {
  }

  lemma {:induction false} ReadsThenEnd<E>(chunks: seq<Bytes>, end: seq<Read>)
    requires end == [] || !end[0].Chunk?
    ensures Received(InReads(chunks) + end) == Flatten(chunks)
    ensures Ending<E>(InReads(chunks) + end) == Closing<E>(end)
  {
    NoReads<E>(end);
    if chunks == [] {
      assert InReads(chunks) + end == end;
    } else {
      ReadsThenEnd<E>(chunks[1..], end);
      OneReadMore<E>(chunks[0], InReads(chunks[1..]) + end);
      assert InReads(chunks) + end == [Chunk(chunks[0])] + (InReads(chunks[1..]) + end);
    }
  }

  lemma PayloadsAreDelivered<S, E>(
      d: Decoder<S>, parse: string -> Option<E>, response: Response, sent: Sent<S>)
    requires Sends(d, response, sent)
    ensures Delivered(d, parse, response) == Heard(sent.frames, parse) + Closing(sent.end)
  {
    ReadsThenEnd<E>(sent.chunks, sent.end);
    SpelledText(d, Flatten(sent.chunks), sent.states, sent.pieces);
    CompleteFrames(sent.frames, sent.unfinished);
    FramesAreHeard(sent.frames, parse);
  }

  lemma CompleteFrames(frames: seq<Frame>, unfinished: string)
    requires NoBlankLine(unfinished) && forall f :: f in frames ==> Solid(Written(f))
    ensures Complete(Join("\n\n", WrittenAll(frames) + [unfinished])) == WrittenAll(frames)
  {
    var texts := WrittenAll(frames);
    forall t | t in texts
      ensures Solid(t)
    {
      var i :| 0 <= i < |texts| && texts[i] == t;
      assert frames[i] in frames;
    }
    FramesAreFound(texts, unfinished);
    assert (texts + [unfinished])[..|texts|] == texts;
  }

  class StreamReader<S, E> {
    const decoder: Decoder<S>
    const parse: string -> Option<E>
    var state: S
    var buf: string
    /** The callbacks made so far, oldest first. */
    var log: seq<Callback<E>>

    constructor (decoder: Decoder<S>, parse: string -> Option<E>)
      ensures this.decoder == decoder && this.parse == parse
      ensures state == decoder.start && buf == "" && log == []
    {
      this.decoder, this.parse := decoder, parse;
      state, buf, log := decoder.start, "", [];
    }

    /** The first line of the frame that carries data, parsed and delivered. */
    method DeliverFrame(frame: string)
      modifies this`log
      ensures log == old(log) + Calls([frame], parse)
    {
      var lines := Split('\n', frame);
      var i := 0;
      while i < |lines| && !StartsWith(lines[i], DATA_PREFIX)
        invariant 0 <= i <= |lines|
        invariant FirstDataLine(lines) == FirstDataLine(lines[i..])
      {
        i := i + 1;
      }
      if i < |lines| {
        match parse(lines[i][6..]) {
          case Some(e) => log := log + [OnEvent(e)];
          case None =>
        }
      }
    }

    /** One read's bytes: deliver every frame they complete, hold back the rest. */
    method Feed(bytes: Bytes)
      modifies this
      ensures state == DecodeFrom(decoder, old(state), bytes).0
      ensures var text := old(buf) + DecodeFrom(decoder, old(state), bytes).1;
              && buf == HeldBack(text)
              && log == old(log) + Calls(Complete(text), parse)
    {
      var (next, text) := DecodeFrom(decoder, state, bytes);
      state := next;
      buf := buf + text;
      var chunks := SplitFrames(buf);
      buf := chunks[|chunks| - 1];
      chunks := chunks[..|chunks| - 1];
      var i := 0;
      while i < |chunks|
        invariant 0 <= i <= |chunks|
        invariant log == old(log) + Calls(chunks[..i], parse)
        invariant buf == HeldBack(old(buf) + text) && state == next
      {
        DeliverFrame(chunks[i]);
        assert chunks[..i + 1] == chunks[..i] + [chunks[i]];
        CallsConcat(chunks[..i], [chunks[i]], parse);
        i := i + 1;
      }
      assert chunks[..i] == chunks;
    }

    /** The whole exchange. What it delivers is what splitting the whole text
        once would deliver: of a text of frames, the payloads that parse, in order,
        and then how the stream ended. */
    method Post(response: Response)
      requires state == decoder.start && buf == "" && log == []
      modifies this
      ensures log == Delivered(decoder, parse, response)
      ensures forall sent: Sent<S> :: Sends(decoder, response, sent) ==>
                log == Heard(sent.frames, parse) + Closing(sent.end)
      ensures match response
              case NoResponse(aborted, message) => log == if aborted then [] else [OnError(message)]
              case NotOk(detail) => log == [OnError(detail)]
              case NoBody => log == [OnError("The server sent no response body")]
              case Body(_) => true
    {
      match response {
        case NoResponse(aborted, message) => log := Fail(aborted, message);
        case NotOk(detail) => log := [OnError(detail)];
        case NoBody => log := [OnError(NO_BODY)];
        case Body(parts) => ReadAll(parts);
      }
      forall sent: Sent<S> | Sends(decoder, response, sent)
        ensures Delivered(decoder, parse, response) == Heard(sent.frames, parse) + Closing(sent.end)
      {
        PayloadsAreDelivered(decoder, parse, response, sent);
      }
    }

    method ReadAll(parts: seq<Read>)
      requires state == decoder.start && buf == "" && log == []
      modifies this
      ensures log == Delivered(decoder, parse, Body(parts))
    {
      var i := ReadChunks(parts);
      if i < |parts| {
        match parts[i] {
          case End => log := log + [OnDone];
          case Failure(aborted, message) => log := log + Fail(aborted, message);
        }
      }
    }

    /** The reader has handled exactly the bytes `got`. */
    ghost predicate Handled(got: Bytes)
      reads this
    {
      && state == StateAfter(decoder, got)
      && buf == HeldBack(TextOf(decoder, got))
      && log == Calls(Complete(TextOf(decoder, got)), parse)
    }

    method FeedNext(bytes: Bytes, ghost got: Bytes)
      requires Handled(got)
      modifies this
      ensures Handled(got + bytes)
    {
      FeedExtends(decoder, parse, got, bytes);
      Feed(bytes);
    }

    /** The read loop up to the first read that is not a chunk. */
    method ReadChunks(parts: seq<Read>) returns (i: nat)
      requires state == decoder.start && buf == "" && log == []
      modifies this
      ensures i <= |parts| && (i < |parts| ==> !parts[i].Chunk?)
      ensures Ending<E>(parts) == Ending<E>(parts[i..])
      ensures Handled(Received(parts))
    {
      i := 0;
      ghost var got: Bytes := [];
      while i < |parts| && parts[i].Chunk?
        invariant 0 <= i <= |parts|
        invariant Received(parts) == got + Received(parts[i..])
        invariant Ending<E>(parts) == Ending<E>(parts[i..])
        invariant Handled(got)
      {
        FeedNext(parts[i].bytes, got);
        ReceivedStep<E>(parts, i, got);
        got := got + parts[i].bytes;
        i := i + 1;
      }
      assert Received(parts[i..]) == [];
      assert got + [] == got;
    }
  }

  lemma ReceivedStep<E>(parts: seq<Read>, i: nat, got: Bytes)
    requires i < |parts| && parts[i].Chunk?
    ensures got + Received(parts[i..]) == (got + parts[i].bytes) + Received(parts[i + 1..])
    ensures Ending<E>(parts[i..]) == Ending<E>(parts[i + 1..])
  {
    assert parts[i..][1..] == parts[i + 1..];
  }

  /** What one more read adds: the decoder continues, the split continues, and
      the new events are those of the frames it completed. */
  lemma FeedExtends<S, E>(d: Decoder<S>, parse: string -> Option<E>, got: Bytes, bytes: Bytes)
    ensures var more := DecodeFrom(d, StateAfter(d, got), bytes);
            && StateAfter(d, got + bytes) == more.0
            && TextOf(d, got + bytes) == TextOf(d, got) + more.1
            && HeldBack(TextOf(d, got + bytes)) == HeldBack(HeldBack(TextOf(d, got)) + more.1)
            && Calls(Complete(TextOf(d, got + bytes)), parse)
               == Calls(Complete(TextOf(d, got)), parse)
                  + Calls(Complete(HeldBack(TextOf(d, got)) + more.1), parse)
  {
    var text := TextOf(d, got);
    var more := DecodeFrom(d, StateAfter(d, got), bytes).1;
    DecodeConcat(d, d.start, got, bytes);
    CompleteContinues(text, more);
    CallsConcat(Complete(text), Complete(HeldBack(text) + more), parse);
  }

  /** The calls of a reader that gets the chunks one by one, holding back what
      each leaves unfinished (the state `Feed` keeps). */
  function Incremental<S, E>(
      d: Decoder<S>, parse: string -> Option<E>, state: S, buf: string, chunks: seq<Bytes>): seq<Callback<E>>
    decreases |chunks|
  {
    if chunks == [] then []
    else
      var more := DecodeFrom(d, state, chunks[0]);
      Calls(Complete(buf + more.1), parse)
      + Incremental(d, parse, more.0, HeldBack(buf + more.1), chunks[1..])
  }

  lemma {:induction false} IncrementalFrom<S, E>(
      d: Decoder<S>, parse: string -> Option<E>, got: Bytes, chunks: seq<Bytes>)
    ensures Calls(Complete(TextOf(d, got + Flatten(chunks))), parse)
         == Calls(Complete(TextOf(d, got)), parse)
            + Incremental(d, parse, StateAfter(d, got), HeldBack(TextOf(d, got)), chunks)
    decreases |chunks|
  {
    if chunks == [] {
      assert got + [] == got;
    } else {
      var all := got + chunks[0];
      assert got + Flatten(chunks) == all + Flatten(chunks[1..]);
      IncrementalFrom(d, parse, all, chunks[1..]);
      IncrementalStep(d, parse, got, chunks);
    }
  }

  lemma IncrementalStep<S, E>(d: Decoder<S>, parse: string -> Option<E>, got: Bytes, chunks: seq<Bytes>)
    requires chunks != []
    ensures Calls(Complete(TextOf(d, got + chunks[0])), parse)
              + Incremental(d, parse, StateAfter(d, got + chunks[0]), HeldBack(TextOf(d, got + chunks[0])), chunks[1..])
         == Calls(Complete(TextOf(d, got)), parse)
              + Incremental(d, parse, StateAfter(d, got), HeldBack(TextOf(d, got)), chunks)
  {
    FeedExtends(d, parse, got, chunks[0]);
    var state, buf := StateAfter(d, got), HeldBack(TextOf(d, got));
    var more := DecodeFrom(d, state, chunks[0]);
    Associate(
      Calls(Complete(TextOf(d, got)), parse),
      Calls(Complete(buf + more.1), parse),
      Incremental(d, parse, more.0, HeldBack(buf + more.1), chunks[1..]));
  }

  /** Chunking invariance: however the bytes are cut into reads (inside a
      character, inside the delimiter), reading them piece by piece makes the
      calls that splitting the whole text once makes, in the same order. */
  lemma ChunkingInvariance<S, E>(d: Decoder<S>, parse: string -> Option<E>, chunks: seq<Bytes>)
    ensures Incremental(d, parse, d.start, "", chunks)
         == Calls(Complete(TextOf(d, Flatten(chunks))), parse)
  {
    IncrementalFrom(d, parse, [], chunks);
    assert [] + Flatten(chunks) == Flatten(chunks);
    assert Calls(Complete(TextOf(d, [])), parse) == [];
  }

  /** Bytes whose text completes no frame are never delivered. */
  lemma UnterminatedNeverDelivered<S, E>(
      d: Decoder<S>, parse: string -> Option<E>, bytes: Bytes, tail: Bytes, end: seq<Read>)
    requires end == [] || !end[0].Chunk?
    requires var rest := HeldBack(TextOf(d, bytes)) + DecodeFrom(d, StateAfter(d, bytes), tail).1;
             Break(rest) == |rest|
    ensures Delivered(d, parse, Body([Chunk(bytes), Chunk(tail)] + end))
         == Delivered(d, parse, Body([Chunk(bytes)] + end))
  {
    var r1, r2 := [Chunk(bytes)] + end, [Chunk(bytes), Chunk(tail)] + end;
    ReceivedStep<E>(r1, 0, []);
    ReceivedStep<E>(r2, 0, []);
    ReceivedStep<E>(r2, 1, bytes);
    assert r1[0..] == r1 && r1[1..] == end;
    assert r2[0..] == r2 && r2[2..] == end;
    assert Received(r1) == bytes && Received(r2) == bytes + tail;
    DecodeConcat(d, d.start, bytes, tail);
    UnterminatedAddsNothing(TextOf(d, bytes), DecodeFrom(d, StateAfter(d, bytes), tail).1);
  }

  lemma {:induction false} CallsAreEvents<E>(frames: seq<string>, parse: string -> Option<E>)
    ensures forall i :: 0 <= i < |Calls(frames, parse)| ==> Calls(frames, parse)[i].OnEvent?
  {
    if frames != [] {
      CallsAreEvents(frames[1..], parse);
    }
  }

  /** A stream makes at most one call that is not an event, and nothing follows
      it; an aborted one makes none. */
  lemma {:induction false} EndingShape<E>(parts: seq<Read>)
    ensures |Ending<E>(parts)| <= 1
    ensures forall i :: 0 <= i < |Ending<E>(parts)| ==> !Ending<E>(parts)[i].OnEvent?
  {
    if parts != [] && parts[0].Chunk? {
      EndingShape<E>(parts[1..]);
    }
  }

  lemma TerminalCallIsLast<S, E>(d: Decoder<S>, parse: string -> Option<E>, response: Response, i: nat)
    requires i + 1 < |Delivered(d, parse, response)|
    ensures Delivered(d, parse, response)[i].OnEvent?
  {
    if response.Body? {
      EndingShape<E>(response.parts);
      CallsAreEvents(Complete(TextOf(d, Received(response.parts))), parse);
    }
  }
}
