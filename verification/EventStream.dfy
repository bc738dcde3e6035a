/**
  The incremental reader of server-sent events (frontend/src/lib/streaming.ts).

  The network hands over the response text in arbitrary pieces. The reader keeps the unterminated
  last line in a buffer, turns every complete `data: ` line into at most one event, and handles
  what is left in the buffer when the stream ends. It pieces a subset of the event-stream format of
  sections 9.2.5 and 9.2.6 of the WHATWG HTML Standard: one `data: ` line is one event.
 */
module EventStream {
  import opened Wrappers
  import opened Lines

  /** The decoded pieces of a response body, and whether reading ended normally. */
  datatype Body = Body(pieces: seq<string>, broken: bool)

  datatype Response = Response(ok: bool, body: Option<Body>)

  datatype Failure = BadStatus | NullBody | ReadFailed

  /** Everything yielded before the generator stopped, and why it stopped if it threw. */
  datatype Outcome<T> = Outcome(events: seq<T>, thrown: Option<Failure>)

  const DATA := "data: "
  const DONE := "[DONE]"

  /** What one line contributes: nothing unless it is a `data: ` line with a payload that parses. */
  function Handle<T>(line: string, parse: string -> Option<T>): seq<T> {
    if !(DATA <= line) then []
    else
      var raw := Trim(line[|DATA|..]);
      if raw == "" || raw == DONE then []
      else match parse(raw)
        case Some(event) => [event]
        case None => []
  }

  function EventsOf<T>(lines: seq<string>, parse: string -> Option<T>): seq<T> {
    if lines == [] then [] else Handle(lines[0], parse) + EventsOf(lines[1..], parse)
  }

  function Concat(pieces: seq<string>): string {
    if pieces == [] then "" else pieces[0] + Concat(pieces[1..])
  }

  /** The lines of `s` that a newline ends. */
  function Complete(s: string): seq<string> {
    Split(s)[..|Split(s)| - 1]
  }

  function Unfinished(s: string): string {
    Split(s)[|Split(s)| - 1]
  }

  /** What the reader yields: the events of every line of the whole text, or of the complete lines only
      when the connection breaks. */
  function Yielded<T>(body: Body, parse: string -> Option<T>): seq<T> {
    EventsOf(if body.broken then Complete(Concat(body.pieces)) else Split(Concat(body.pieces)), parse)
  }

  lemma {:induction false} EventsOfAppend<T>(a: seq<string>, b: seq<string>, parse: string -> Option<T>)
    ensures EventsOf(a + b, parse) == EventsOf(a, parse) + EventsOf(b, parse)
  {
    if a == [] {
      assert a + b == b;
    } else {
      assert (a + b)[1..] == a[1..] + b;
      EventsOfAppend(a[1..], b, parse);
    }
  }

  lemma {:induction false} ConcatAppend(a: seq<string>, b: seq<string>)
    ensures Concat(a + b) == Concat(a) + Concat(b)
  {
    if a == [] {
      assert a + b == b;
    } else {
      assert (a + b)[1..] == a[1..] + b;
      ConcatAppend(a[1..], b);
    }
  }

  lemma GlueLast(a: seq<string>, b: seq<string>)
    requires a != [] && b != []
    ensures var front, last := a[..|a| - 1], a[|a| - 1];
      Glue(a, b) == front + Glue([last], b)
    ensures Glue(a, b) != [] && Glue([a[|a| - 1]], b) != []
  {
    assert [a[|a| - 1]][..0] == [];
  }

  lemma SplitLast(s: string)
    ensures Split(s) == Complete(s) + [Unfinished(s)]
    ensures Split(Unfinished(s)) == [Unfinished(s)]
  {
    SplitIsLines(s);
    SplitHead(Unfinished(s), "");
  }

  lemma DropLast(front: seq<string>, back: seq<string>)
    requires back != []
    ensures (front + back)[..|front + back| - 1] == front + back[..|back| - 1]
    ensures (front + back)[|front + back| - 1] == back[|back| - 1]
  {
  }

  /** Cutting the buffered line and a new piece into lines is cutting the whole text. */
  lemma BufferedSplit(soFar: string, piece: string)
    ensures Complete(soFar + piece) == Complete(soFar) + Complete(Unfinished(soFar) + piece)
    ensures Unfinished(soFar + piece) == Unfinished(Unfinished(soFar) + piece)
  {
    SplitAppend(soFar, piece);
    SplitAppend(Unfinished(soFar), piece);
    SplitLast(soFar);
    GlueLast(Split(soFar), Split(piece));
    DropLast(Complete(soFar), Split(Unfinished(soFar) + piece));
  }

  /** The reader's state between two reads, as a function of the text read so far. */
  ghost predicate ReadSoFar<T>(soFar: string, buffer: string, events: seq<T>, parse: string -> Option<T>) {
    buffer == Unfinished(soFar) && events == EventsOf(Complete(soFar), parse)
  }

  lemma ReadPiece<T>(soFar: string, piece: string, buffer: string, events: seq<T>, parse: string -> Option<T>)
    requires ReadSoFar(soFar, buffer, events, parse)
    ensures ReadSoFar(soFar + piece, Unfinished(buffer + piece),
                      events + EventsOf(Complete(buffer + piece), parse), parse)
  {
    BufferedSplit(soFar, piece);
    EventsOfAppend(Complete(soFar), Complete(buffer + piece), parse);
  }

  /** The generator's run over one response. */
  method CreateStream<T>(response: Response, parse: string -> Option<T>) returns (run: Outcome<T>)
    ensures !response.ok ==> run == Outcome([], Some(BadStatus))
    ensures response.ok && response.body.None? ==> run == Outcome([], Some(NullBody))
    ensures response.ok && response.body.Some? ==>
      run.events == Yielded(response.body.value, parse) &&
      run.thrown == if response.body.value.broken then Some(ReadFailed) else None
  {
    if !response.ok {
      return Outcome([], Some(BadStatus));
    }
    if response.body.None? {
      return Outcome([], Some(NullBody));
    }
    var buffer, events := ReadPieces(response.body.value.pieces, parse);
    if response.body.value.broken {
      return Outcome(events, Some(ReadFailed));
    }
    ghost var text := Concat(response.body.value.pieces);
    SplitLast(text);
    EventsOfAppend(Complete(text), [buffer], parse);
    if DATA <= buffer {
      var raw := Trim(buffer[6..]);
      if raw != "" && raw != DONE {
        var event := parse(raw);
        if event.Some? {
          events := events + [event.value];
        }
      }
    }
    assert events == EventsOf(Complete(text), parse) + EventsOf([buffer], parse);
    return Outcome(events, None);
  }

  method ReadPieces<T>(pieces: seq<string>, parse: string -> Option<T>) returns (buffer: string, events: seq<T>)
    ensures ReadSoFar(Concat(pieces), buffer, events, parse)
  {
    buffer, events := "", [];
    ghost var soFar := "";
    for k := 0 to |pieces|
      invariant Concat(pieces) == soFar + Concat(pieces[k..])
      invariant ReadSoFar(soFar, buffer, events, parse)
    {
      ReadPiece(soFar, pieces[k], buffer, events, parse);
      ConcatStep(soFar, pieces, k);
      soFar := soFar + pieces[k];

      buffer := buffer + pieces[k];
      var lines := Split(buffer);
      var yielded := HandleLines(lines[..|lines| - 1], parse);
      events := events + yielded;
      buffer := lines[|lines| - 1];
      assert ReadSoFar(soFar, buffer, events, parse);
    }
    assert soFar == Concat(pieces);
  }

  lemma ConcatStep(soFar: string, pieces: seq<string>, k: nat)
    requires k < |pieces|
    ensures soFar + Concat(pieces[k..]) == soFar + pieces[k] + Concat(pieces[k + 1..])
  {
    assert pieces[k..][1..] == pieces[k + 1..];
  }

  method HandleLines<T>(lines: seq<string>, parse: string -> Option<T>) returns (events: seq<T>)
    ensures events == EventsOf(lines, parse)
  {
    hide Trim;
    events := [];
    assert lines[..0] == [];
    for k := 0 to |lines|
      invariant events == EventsOf(lines[..k], parse)
    {
      var line := lines[k];
      assert lines[..k + 1] == lines[..k] + [line];
      EventsOfAppend(lines[..k], [line], parse);
      if !(DATA <= line) { continue; }
      var raw := Trim(line[6..]);
      if raw == "" || raw == DONE { continue; }
      var event := parse(raw);
      if event.Some? {
        events := events + [event.value];
      }
    }
    assert lines[..|lines|] == lines;
  }

  // ---------------------------------------------------------------- properties of the reader

  /** A connection that breaks has yielded a prefix of what any longer stream would have yielded:
      no event is ever withdrawn or changed by text that arrives later. */
  lemma BrokenStreamYieldsPrefix<T>(pieces: seq<string>, more: seq<string>, broken: bool, parse: string -> Option<T>)
    ensures Yielded(Body(pieces, true), parse) <= Yielded(Body(pieces + more, broken), parse)
  {
    var s, t := Concat(pieces), Concat(more);
    ConcatAppend(pieces, more);
    BufferedSplit(s, t);
    EventsOfAppend(Complete(s), Complete(Unfinished(s) + t), parse);
    SplitLast(s + t);
    EventsOfAppend(Complete(s + t), [Unfinished(s + t)], parse);
  }

  /** One event as the server writes it: a `data: ` line and an empty line. */
  function Frame(payload: string, eol: string): string {
    DATA + payload + eol + eol
  }

  predicate IsEol(eol: string) { eol == "\n" || eol == "\r\n" }

  /** A payload that survives the line format: one line, visible at both ends, not the terminator. */
  predicate Sendable(payload: string) {
    && payload != "" && OneLine(payload) && payload != DONE
    && !IsSpace(payload[0]) && !IsSpace(payload[|payload| - 1])
  }

  function Frames(payloads: seq<string>, eol: string): string {
    if payloads == [] then "" else Frame(payloads[0], eol) + Frames(payloads[1..], eol)
  }

  function ParsedOne<T>(payload: string, parse: string -> Option<T>): seq<T> {
    match parse(payload)
    case Some(event) => [event]
    case None => []
  }

  function Parsed<T>(payloads: seq<string>, parse: string -> Option<T>): seq<T> {
    if payloads == [] then [] else ParsedOne(payloads[0], parse) + Parsed(payloads[1..], parse)
  }

  /** A line that does not start with `data: ` yields nothing. */
  lemma OtherLineYieldsNothing<T>(line: string, parse: string -> Option<T>)
    requires !("data: " <= line)
    ensures Handle(line, parse) == []
  {
  }

  /** A `data: ` line yields what its payload parses to, without the white space around it, unless that is
      empty or the terminator. */
  lemma DataLineYields<T>(head: string, payload: string, tail: string, parse: string -> Option<T>)
    requires Blank(head) && Blank(tail)
    requires payload == "" || (!IsSpace(payload[0]) && !IsSpace(payload[|payload| - 1]))
    ensures Handle("data: " + (head + payload + tail), parse) ==
            if payload == "" || payload == "[DONE]" then [] else ParsedOne(payload, parse)
  {
    var line := "data: " + (head + payload + tail);
    assert line[|DATA|..] == head + payload + tail;
    TrimDrops(head, payload, tail);
  }

  /** Every line is of one of the two kinds. */
  lemma LineIsData(line: string) returns (head: string, payload: string, tail: string)
    requires "data: " <= line
    ensures line == "data: " + (head + payload + tail) && Blank(head) && Blank(tail)
    ensures payload == "" || (!IsSpace(payload[0]) && !IsSpace(payload[|payload| - 1]))
  {
    payload := Trim(line[6..]);
    head, tail := TrimSkips(line[6..]);
    assert line == "data: " + line[6..];
  }

  lemma HandleFrameLine<T>(payload: string, cr: string, parse: string -> Option<T>)
    requires Sendable(payload) && (cr == "" || cr == "\r")
    ensures Handle(DATA + payload + cr, parse) == ParsedOne(payload, parse)
    ensures Handle(cr, parse) == []
  {
    var line := DATA + payload + cr;
    assert DATA <= line;
    assert line[|DATA|..] == payload + cr;
    assert TrimStart(payload + cr) == payload + cr;
    TrimEndDrops(payload, cr);
  }

  lemma Reassociate(a: string, cr: string, nl: string, rest: string)
    ensures a + (cr + nl) + (cr + nl) + rest == a + cr + nl + (cr + nl + rest)
  {
    var eol := cr + nl;
    assert a + eol == a + cr + nl;
    assert eol + rest == cr + nl + rest;
    assert a + eol + eol + rest == a + eol + (eol + rest);
  }

  lemma SplitTwo(first: string, second: string, rest: string)
    requires OneLine(first) && OneLine(second)
    ensures Split(first + "\n" + (second + "\n" + rest)) == [first, second] + Split(rest)
  {
    SplitHead(first, second + "\n" + rest);
    SplitHead(second, rest);
  }

  lemma FrameSplits(payload: string, eol: string, rest: string)
    requires Sendable(payload) && IsEol(eol)
    ensures var cr := eol[..|eol| - 1];
      Split(Frame(payload, eol) + rest) == [DATA + payload + cr, cr] + Split(rest)
  {
    var cr := eol[..|eol| - 1];
    assert eol == cr + "\n";
    Reassociate(DATA + payload, cr, "\n", rest);
    assert OneLine(DATA + payload) && OneLine(cr);
    SplitTwo(DATA + payload + cr, cr, rest);
  }

  lemma EventsOfTwo<T>(first: string, second: string, rest: seq<string>, parse: string -> Option<T>)
    ensures EventsOf([first, second] + rest, parse) ==
            Handle(first, parse) + (Handle(second, parse) + EventsOf(rest, parse))
  {
    assert ([first, second] + rest)[1..] == [second] + rest;
    assert ([second] + rest)[1..] == rest;
  }

  lemma FrameYields<T>(payload: string, eol: string, rest: string, parse: string -> Option<T>)
    requires Sendable(payload) && IsEol(eol)
    ensures EventsOf(Split(Frame(payload, eol) + rest), parse) ==
              ParsedOne(payload, parse) + EventsOf(Split(rest), parse)
  {
    hide EventsOf, Split, Handle, Frame;
    var cr := eol[..|eol| - 1];
    FrameSplits(payload, eol, rest);
    HandleFrameLine(payload, cr, parse);
    EventsOfTwo(DATA + payload + cr, cr, Split(rest), parse);
  }

  lemma {:induction false} FramesYield<T>(payloads: seq<string>, eol: string, parse: string -> Option<T>)
    requires IsEol(eol) && forall p :: p in payloads ==> Sendable(p)
    ensures EventsOf(Split(Frames(payloads, eol)), parse) == Parsed(payloads, parse)
  {
    if payloads == [] {
      assert EventsOf([""], parse) == Handle("", parse) + EventsOf([], parse);
    } else {
      assert payloads[0] in payloads;
      FrameYields(payloads[0], eol, Frames(payloads[1..], eol), parse);
      FramesYield(payloads[1..], eol, parse);
    }
  }

  /** Reading back what the server wrote yields the payloads it sent, in order, however the network
      cut the text into pieces and whichever line ending the server uses. */
  lemma ReaderInvertsServer<T>(payloads: seq<string>, eol: string, pieces: seq<string>, parse: string -> Option<T>)
    requires IsEol(eol) && forall p :: p in payloads ==> Sendable(p)
    requires Concat(pieces) == Frames(payloads, eol)
    ensures Yielded(Body(pieces, false), parse) == Parsed(payloads, parse)
  {
    FramesYield(payloads, eol, parse);
  }

  // ---------------------------------------------------------------- a stream that breaks off

  lemma CompleteFrame(payload: string, eol: string, rest: string)
    requires Sendable(payload) && IsEol(eol)
    ensures var cr := eol[..|eol| - 1];
      Complete(Frame(payload, eol) + rest) == [DATA + payload + cr, cr] + Complete(rest)
  {
    FrameSplits(payload, eol, rest);
    DropLast([DATA + payload + eol[..|eol| - 1], eol[..|eol| - 1]], Split(rest));
  }

  lemma FrameYieldsBefore<T>(payload: string, eol: string, rest: string, parse: string -> Option<T>)
    requires Sendable(payload) && IsEol(eol)
    ensures EventsOf(Complete(Frame(payload, eol) + rest), parse) ==
            ParsedOne(payload, parse) + EventsOf(Complete(rest), parse)
  {
    hide EventsOf, Complete, Handle, Frame;
    var cr := eol[..|eol| - 1];
    CompleteFrame(payload, eol, rest);
    HandleFrameLine(payload, cr, parse);
    EventsOfTwo(DATA + payload + cr, cr, Complete(rest), parse);
  }

  lemma {:induction false} FramesYieldBefore<T>(payloads: seq<string>, eol: string, rest: string,
                                                parse: string -> Option<T>)
    requires IsEol(eol) && forall p :: p in payloads ==> Sendable(p)
    ensures EventsOf(Complete(Frames(payloads, eol) + rest), parse) ==
            Parsed(payloads, parse) + EventsOf(Complete(rest), parse)
  {
    hide EventsOf, Complete, Frame;
    if payloads == [] {
      assert Frames(payloads, eol) + rest == rest;
    } else {
      var payload, more := payloads[0], payloads[1..];
      assert payload in payloads;
      FramesYieldBefore(more, eol, rest, parse);
      assert Frames(payloads, eol) + rest == Frame(payload, eol) + (Frames(more, eol) + rest);
      FrameYieldsBefore(payload, eol, Frames(more, eol) + rest, parse);
    }
  }

  /** The part of a frame that arrived before the break counts once its `data: ` line is complete. */
  lemma BrokenFrameYields<T>(payload: string, eol: string, part: string, parse: string -> Option<T>)
    requires Sendable(payload) && IsEol(eol) && part < Frame(payload, eol)
    ensures EventsOf(Complete(part), parse) == if DATA + payload + eol <= part then ParsedOne(payload, parse) else []
  {
    hide EventsOf, Split, Handle;
    var cr := eol[..|eol| - 1];
    var line := DATA + payload + cr;
    assert DATA + payload + eol == line + "\n" && eol == cr + "\n";
    assert Frame(payload, eol) == line + "\n" + (cr + "\n");
    assert OneLine(line) && OneLine(cr);
    HandleFrameLine(payload, cr, parse);
    if line + "\n" <= part {
      var rest := part[|line + "\n"|..];
      assert part == line + "\n" + rest && rest < cr + "\n";
      assert OneLine(rest) by { assert rest <= cr; }
      SplitHead(line, rest);
      SplitOneLine(rest);
      DropLast([line], [rest]);
      EventsOfOne(line, parse);
    } else {
      assert OneLine(part) by { assert part <= line; }
      SplitOneLine(part);
      NoEvents(parse);
    }
  }

  lemma SplitOneLine(s: string)
    requires OneLine(s)
    ensures Split(s) == [s]
  {
    SplitHead(s, "");
  }

  lemma EventsOfOne<T>(line: string, parse: string -> Option<T>)
    ensures EventsOf([line], parse) == Handle(line, parse)
  {
    assert EventsOf([line][1..], parse) == [];
  }

  lemma NoEvents<T>(parse: string -> Option<T>)
    ensures EventsOf([], parse) == []
  {
  }

  /** A connection that breaks inside a frame, at any point and however the text was cut before, has yielded
      exactly the payloads sent before, and this one if its line was complete. */
  lemma BrokenStreamYieldsExactly<T>(payloads: seq<string>, last: string, eol: string, part: string,
                                     pieces: seq<string>, parse: string -> Option<T>)
    requires IsEol(eol) && (forall p :: p in payloads ==> Sendable(p)) && Sendable(last)
    requires part < Frame(last, eol) && Concat(pieces) == Frames(payloads, eol) + part
    ensures Yielded(Body(pieces, true), parse) ==
            Parsed(payloads, parse) + if DATA + last + eol <= part then ParsedOne(last, parse) else []
  {
    hide EventsOf, Complete, Frame;
    FramesYieldBefore(payloads, eol, part, parse);
    BrokenFrameYields(last, eol, part, parse);
  }
}
