/** What an `EventSource` client sees of a stream of encoded events. */
module SseRoundTrip {
  import opened Prelude
  import opened SseCodec
  import opened SseClient
  import opened SseWire

  // ---- What the client should see, in terms of the events alone ----

  /** The type a message is shown with: the event's own name, if it has one, else the default
      name, if there is one, else "message"; a name that is empty without its line terminators
      counts as none. */
  function TypeOf(e: RawEvent, defaultEvent: Option<string>): string {
    match (e.event, defaultEvent)
    case (Some(own), _) => Shown(SingleLine(own, false))
    case (None, Some(fallback)) => Shown(SingleLine(fallback, false))
    case (None, None) => "message"
  }

  function IdAfter(e: RawEvent, lastId: string): string {
    if e.id.Some? then SingleLine(e.id.value, true) else lastId
  }

  function RetryAfter(e: RawEvent, retry: Option<nat>): Option<nat> {
    if e.retry.Some? then e.retry else retry
  }

  /** One message per event with data, in order; ids persist across events. */
  function Delivered(events: seq<RawEvent>, defaultEvent: Option<string>, lastId: string): seq<Message>
  {
    if events == [] then []
    else
      var e := events[0];
      var id := IdAfter(e, lastId);
      (if e.data.Some? then [Message(TypeOf(e, defaultEvent), e.data.value, id)] else [])
      + Delivered(events[1..], defaultEvent, id)
  }

  function LastId(events: seq<RawEvent>, lastId: string): string
  {
    if events == [] then lastId else LastId(events[1..], IdAfter(events[0], lastId))
  }

  function LastRetry(events: seq<RawEvent>, retry: Option<nat>): Option<nat>
  {
    if events == [] then retry else LastRetry(events[1..], RetryAfter(events[0], retry))
  }

  function EncodedStream(events: seq<RawEvent>, defaultEvent: Option<string>): string
  {
    if events == [] then "" else Encoded(events[0], defaultEvent) + EncodedStream(events[1..], defaultEvent)
  }

  predicate DataCrFree(e: RawEvent) {
    e.data.Some? ==> '\r' !in e.data.value
  }

  // ---- The lines of one event ----

  lemma {:induction false} PrefixedWithout(prefix: string, pieces: seq<string>, ch: char)
    requires ch !in prefix && Without(pieces, ch)
    ensures Without(Prefixed(prefix, pieces), ch)
  {
    if pieces == [] {
    } else {
      PrefixedWithout(prefix, pieces[1..], ch);
    }
  }

  lemma {:induction false} DecimalDigits(n: nat)
    ensures IsNumber(Decimal(n)) && DecimalValue(Decimal(n)) == n
  {
    if n < 10 {
      assert Decimal(n)[..0] == "";
    } else {
      DecimalDigits(n / 10);
      assert Decimal(n)[..|Decimal(n)| - 1] == Decimal(n / 10);
    }
  }

  lemma CommentLinesStay(e: RawEvent)
    ensures Without(CommentLines(e), '\n')
  {
    if e.comment.Some? {
      SplitPieces(e.comment.value, '\n');
      PrefixedWithout(": ", Split(e.comment.value, '\n'), '\n');
    }
  }

  lemma DataLinesStay(e: RawEvent)
    ensures Without(DataLines(e), '\n') && (DataCrFree(e) ==> Without(DataLines(e), '\r'))
  {
    if e.data.Some? {
      SplitPieces(e.data.value, '\n');
      PrefixedWithout("data: ", Split(e.data.value, '\n'), '\n');
      if DataCrFree(e) {
        PrefixedWithout("data: ", Split(e.data.value, '\n'), '\r');
      }
    }
  }

  function FieldLines(e: RawEvent, defaultEvent: Option<string>): seq<string> {
    NameLines(NameOf(e, defaultEvent)) + (IdLines(e) + RetryLines(e))
  }

  lemma NameLinesStay(name: Option<string>)
    ensures Without(NameLines(name), '\n') && Without(NameLines(name), '\r')
  {
    if name.Some? { SingleLineClean(name.value, false); }
  }

  lemma IdLinesStay(e: RawEvent)
    ensures Without(IdLines(e), '\n') && Without(IdLines(e), '\r')
  {
    if e.id.Some? { SingleLineClean(e.id.value, true); }
  }

  lemma RetryLinesStay(e: RawEvent)
    ensures Without(RetryLines(e), '\n') && Without(RetryLines(e), '\r')
  {
    if e.retry.Some? { DecimalDigits(e.retry.value); }
  }

  /** The name, id and retry fields stay on their lines whatever their values hold. */
  lemma FieldLinesStay(e: RawEvent, defaultEvent: Option<string>)
    ensures Without(FieldLines(e, defaultEvent), '\n') && Without(FieldLines(e, defaultEvent), '\r')
  {
    NameLinesStay(NameOf(e, defaultEvent));
    IdLinesStay(e);
    RetryLinesStay(e);
  }

  /** An event's lines behind its comment. */
  function RestLines(e: RawEvent, defaultEvent: Option<string>): seq<string> {
    FieldLines(e, defaultEvent) + (DataLines(e) + [""])
  }

  lemma EventLinesAre(e: RawEvent, defaultEvent: Option<string>)
    ensures EventLines(e, defaultEvent) == CommentLines(e) + RestLines(e, defaultEvent)
    ensures RestLines(e, defaultEvent) == (FieldLines(e, defaultEvent) + DataLines(e)) + [""]
  {
    var name := NameLines(NameOf(e, defaultEvent));
    Grouped(CommentLines(e), name, IdLines(e), RetryLines(e), DataLines(e), [""]);
  }

  lemma EventLinesStay(e: RawEvent, defaultEvent: Option<string>)
    ensures Without(EventLines(e, defaultEvent), '\n')
    ensures DataCrFree(e) ==> Without(RestLines(e, defaultEvent), '\r')
  {
    var (fields, data) := (FieldLines(e, defaultEvent), DataLines(e));
    EventLinesAre(e, defaultEvent);
    CommentLinesStay(e);
    DataLinesStay(e);
    FieldLinesStay(e, defaultEvent);
    WithoutAppend(fields, data, '\n');
    WithoutAppend(fields + data, [""], '\n');
    WithoutAppend(CommentLines(e), RestLines(e, defaultEvent), '\n');
    if DataCrFree(e) {
      WithoutAppend(fields, data, '\r');
      WithoutAppend(fields + data, [""], '\r');
    }
  }

  lemma WithoutAppend(a: seq<string>, b: seq<string>, ch: char)
    requires Without(a, ch) && Without(b, ch)
    ensures Without(a + b, ch)
  {}

  lemma Grouped(a: seq<string>, b: seq<string>, c: seq<string>, d: seq<string>, e: seq<string>, f: seq<string>)
    ensures a + b + c + d + e + f == a + ((b + (c + d)) + (e + f))
  {}

  // ---- Comments ----

  /** The line neither adds data nor sets an id or a retry time. */
  predicate Inert(line: string) {
    var (name, value) := SplitField(line);
    name != "data" && !(name == "id" && '\0' !in value) && !(name == "retry" && IsNumber(value))
  }

  /** The event type some lines leave behind: the last one set since the last blank line. */
  function TypeLeft(lines: seq<string>, eventType: string): string
    decreases |lines|
  {
    if lines == [] then eventType
    else
      var (name, value) := SplitField(lines[0]);
      TypeLeft(lines[1..], if lines[0] == "" then "" else if name == "event" then value else eventType)
  }

  predicate HarmlessLines(lines: seq<string>) {
    (forall i :: 0 <= i < |lines| ==> Inert(lines[i])) && Shown(TypeLeft(lines, "")) == "message"
  }

  /** The client's lines of a comment. */
  function CommentRead(comment: string): seq<string> {
    CutAll(Prefixed(": ", Split(comment, '\n')))
  }

  /** The text of a comment is harmless if the lines that its carriage returns start are inert
      and leave no event type behind but the default one. */
  predicate Harmless(comment: string) {
    HarmlessLines(CommentRead(comment))
  }

  predicate CommentHarmless(e: RawEvent) {
    e.comment.Some? ==> Harmless(e.comment.value)
  }

  lemma {:induction false} InertLines(c: Client, lines: seq<string>)
    requires c.dataBuffer == "" && forall i :: 0 <= i < |lines| ==> Inert(lines[i])
    ensures ProcessAll(c, lines) == c.(typeBuffer := TypeLeft(lines, c.typeBuffer))
    decreases |lines|
  {
    if lines == [] {
    } else {
      InertLines(Process(c, lines[0]), lines[1..]);
    }
  }

  /** Clients that show the same and would show the next message alike. */
  predicate Alike(c: Client, d: Client) {
    c.(typeBuffer := "") == d.(typeBuffer := "") && Shown(c.typeBuffer) == Shown(d.typeBuffer)
  }

  lemma {:induction false} AlikeStaysAlike(c: Client, d: Client, lines: seq<string>)
    requires Alike(c, d)
    ensures Alike(ProcessAll(c, lines), ProcessAll(d, lines))
    decreases |lines|
  {
    if lines == [] {
    } else {
      AlikeStaysAlike(Process(c, lines[0]), Process(d, lines[0]), lines[1..]);
    }
  }

  /** A blank line removes what little difference there was. */
  lemma AlikeIsSame(c: Client, d: Client, lines: seq<string>)
    requires Alike(c, d)
    ensures ProcessAll(c, lines + [""]) == ProcessAll(d, lines + [""])
  {
    AlikeStaysAlike(c, d, lines);
    ProcessAppend(c, lines, [""]);
    ProcessAppend(d, lines, [""]);
    DispatchLine(ProcessAll(c, lines));
    DispatchLine(ProcessAll(d, lines));
  }

  lemma {:induction false} CommentLinesInert(pieces: seq<string>)
    requires Without(pieces, '\r')
    ensures HarmlessLines(CutAll(Prefixed(": ", pieces)))
    ensures TypeLeft(CutAll(Prefixed(": ", pieces)), "") == ""
  {
    if pieces == [] {
    } else {
      var line := ": " + pieces[0];
      SplitWhole(line, '\r');
      CommentLinesInert(pieces[1..]);
      assert SplitField(line).0 == "";
      assert ([line] + CutAll(Prefixed(": ", pieces[1..])))[1..] == CutAll(Prefixed(": ", pieces[1..]));
    }
  }

  /** A comment without carriage returns is harmless. */
  lemma CrFreeIsHarmless(comment: string)
    requires '\r' !in comment
    ensures Harmless(comment)
  {
    SplitPieces(comment, '\n');
    CommentLinesInert(Split(comment, '\n'));
  }

  // ---- One event ----

  /** A written field line is read back as that field and that value. */
  lemma FieldLine(c: Client, name: string, value: string)
    requires ':' !in name && name != ""
    ensures ProcessAll(c, [name + ": " + value]) == Process(c, name + ": " + value) == Field(c, name, value)
  {
    SplitFieldAt(name, value);
  }

  lemma {:induction false} DataIsBuffered(c: Client, pieces: seq<string>)
    ensures ProcessAll(c, Prefixed("data: ", pieces)) == c.(dataBuffer := c.dataBuffer + Unlines(pieces))
    decreases |pieces|
  {
    if pieces == [] {
      assert c.dataBuffer + "" == c.dataBuffer;
    } else {
      var line := "data: " + pieces[0];
      DataLine(c, pieces[0]);
      DataIsBuffered(Process(c, line), pieces[1..]);
      BufferTwice(c.dataBuffer, pieces[0] + "\n", Unlines(pieces[1..]));
      assert Prefixed("data: ", pieces) == [line] + Prefixed("data: ", pieces[1..]);
    }
  }

  lemma DataLine(c: Client, piece: string)
    ensures Process(c, "data: " + piece) == c.(dataBuffer := c.dataBuffer + (piece + "\n"))
  {
    FieldLine(c, "data", piece);
    assert "data" + ": " + piece == "data: " + piece;
    assert c.dataBuffer + piece + "\n" == c.dataBuffer + (piece + "\n");
  }

  lemma BufferTwice(buffer: string, a: string, b: string)
    ensures buffer + a + b == buffer + (a + b)
  {}

  lemma {:induction false} UnlinesOfSplit(text: string)
    ensures Unlines(Split(text, '\n')) == text + "\n"
  {
    if text == "" {
    } else {
      UnlinesOfSplit(text[1..]);
      assert text == [text[0]] + text[1..];
      var rest := Split(text[1..], '\n');
      if text[0] == '\n' {
        assert ([""] + rest)[1..] == rest;
      } else {
        assert ([[text[0]] + rest[0]] + rest[1..])[1..] == rest[1..];
        assert Unlines(Split(text, '\n')) == [text[0]] + Unlines(rest);
      }
    }
  }

  predicate Clean(c: Client) {
    c.dataBuffer == "" && c.typeBuffer == ""
  }

  /** The client after one whole event, starting between events. */
  function AfterEvent(c: Client, e: RawEvent, defaultEvent: Option<string>): Client {
    var id := IdAfter(e, c.idBuffer);
    c.(idBuffer := id, retry := RetryAfter(e, c.retry),
       dispatched := c.dispatched
         + if e.data.Some? then [Message(TypeOf(e, defaultEvent), e.data.value, id)] else [])
  }

  lemma NameIsBuffered(c: Client, name: Option<string>)
    ensures ProcessAll(c, NameLines(name)) ==
            if name.Some? then c.(typeBuffer := SingleLine(name.value, false)) else c
  {
    if name.Some? {
      FieldLine(c, "event", SingleLine(name.value, false));
      assert "event" + ": " + SingleLine(name.value, false) == "event: " + SingleLine(name.value, false);
    }
  }

  lemma IdIsBuffered(c: Client, e: RawEvent)
    ensures ProcessAll(c, IdLines(e)) == c.(idBuffer := IdAfter(e, c.idBuffer))
  {
    if e.id.Some? {
      SingleLineClean(e.id.value, true);
      FieldLine(c, "id", SingleLine(e.id.value, true));
      assert "id" + ": " + SingleLine(e.id.value, true) == "id: " + SingleLine(e.id.value, true);
    }
  }

  lemma RetryIsBuffered(c: Client, e: RawEvent)
    ensures ProcessAll(c, RetryLines(e)) == c.(retry := RetryAfter(e, c.retry))
  {
    if e.retry.Some? {
      DecimalDigits(e.retry.value);
      FieldLine(c, "retry", Decimal(e.retry.value));
      assert "retry" + ": " + Decimal(e.retry.value) == "retry: " + Decimal(e.retry.value);
    }
  }

  lemma DispatchLine(c: Client)
    ensures ProcessAll(c, [""]) == Dispatch(c)
  {
    assert [""][1..] == [];
  }

  /** The data lines and the blank line: one message if there is data, none otherwise. */
  function Dispatched(c: Client, e: RawEvent): Client {
    c.(typeBuffer := "", dispatched := c.dispatched
      + if e.data.Some? then [Message(Shown(c.typeBuffer), e.data.value, c.idBuffer)] else [])
  }

  lemma DataAndDispatch(c: Client, e: RawEvent)
    requires c.dataBuffer == ""
    ensures ProcessAll(c, DataLines(e) + [""]) == Dispatched(c, e)
  {
    ProcessAppend(c, DataLines(e), [""]);
    DispatchLine(ProcessAll(c, DataLines(e)));
    if e.data.Some? {
      DataIsBuffered(c, Split(e.data.value, '\n'));
      UnlinesOfSplit(e.data.value);
      assert "" + (e.data.value + "\n") == e.data.value + "\n";
      assert (e.data.value + "\n")[..|e.data.value|] == e.data.value;
    } else {
      assert c.dispatched + [] == c.dispatched;
    }
  }

  lemma FieldsAreBuffered(c: Client, e: RawEvent, defaultEvent: Option<string>)
    ensures var name := NameOf(e, defaultEvent);
            ProcessAll(c, FieldLines(e, defaultEvent)) ==
            c.(typeBuffer := if name.Some? then SingleLine(name.value, false) else c.typeBuffer,
               idBuffer := IdAfter(e, c.idBuffer), retry := RetryAfter(e, c.retry))
  {
    var name := NameOf(e, defaultEvent);
    ProcessAppend(c, NameLines(name), IdLines(e) + RetryLines(e));
    NameIsBuffered(c, name);
    var c1 := ProcessAll(c, NameLines(name));
    ProcessAppend(c1, IdLines(e), RetryLines(e));
    IdIsBuffered(c1, e);
    RetryIsBuffered(ProcessAll(c1, IdLines(e)), e);
  }

  lemma RestIsDelivered(c: Client, e: RawEvent, defaultEvent: Option<string>)
    requires Clean(c)
    ensures ProcessAll(c, RestLines(e, defaultEvent)) == AfterEvent(c, e, defaultEvent)
  {
    var fields := FieldLines(e, defaultEvent);
    ProcessAppend(c, fields, DataLines(e) + [""]);
    FieldsAreBuffered(c, e, defaultEvent);
    DataAndDispatch(ProcessAll(c, fields), e);
  }

  /** Between events, a harmless comment leaves the client as good as untouched. */
  lemma CommentIsIgnored(c: Client, e: RawEvent)
    requires Clean(c) && CommentHarmless(e)
    ensures Alike(ProcessAll(c, CutAll(CommentLines(e))), c)
  {
    if e.comment.Some? {
      InertLines(c, CutAll(CommentLines(e)));
    }
  }

  /** What the client reads of one event: the cut comment, then the rest. */
  lemma EventIsRead(e: RawEvent, defaultEvent: Option<string>)
    ensures var rest := CutAll(FieldLines(e, defaultEvent) + DataLines(e));
            CutAll(EventLines(e, defaultEvent)) == CutAll(CommentLines(e)) + (rest + [""])
  {
    var written := FieldLines(e, defaultEvent) + DataLines(e);
    EventLinesAre(e, defaultEvent);
    CutAllAppend(CommentLines(e), written + [""]);
    CutAllAppend(written, [""]);
    CutNothing([""]);
  }

  predicate Survives(e: RawEvent) {
    CommentHarmless(e) && DataCrFree(e)
  }

  /** The fields and the data of an event are read as written. */
  lemma RestIsRead(e: RawEvent, defaultEvent: Option<string>)
    requires DataCrFree(e)
    ensures CutAll(EventLines(e, defaultEvent)) == CutAll(CommentLines(e)) + RestLines(e, defaultEvent)
  {
    EventLinesAre(e, defaultEvent);
    EventLinesStay(e, defaultEvent);
    CutAllAppend(CommentLines(e), RestLines(e, defaultEvent));
    CutNothing(RestLines(e, defaultEvent));
  }

  /** The message of an event in terms of its fields alone, for names and ids on one line. */
  lemma MessageIs(c: Client, e: RawEvent, defaultEvent: Option<string>, data: string)
    requires e.data == Some(data)
    requires e.event.Some? ==> '\r' !in e.event.value && '\n' !in e.event.value
    requires defaultEvent.Some? ==> '\r' !in defaultEvent.value && '\n' !in defaultEvent.value
    requires e.id.Some? ==> '\r' !in e.id.value && '\n' !in e.id.value && '\0' !in e.id.value
    ensures var name := if e.event.Some? then e.event.value else if defaultEvent.Some? then defaultEvent.value else "";
            AfterEvent(c, e, defaultEvent).dispatched ==
            c.dispatched + [Message(if name == "" then "message" else name, data,
                                    if e.id.Some? then e.id.value else c.idBuffer)]
  {
    if e.event.Some? { SingleLineKeeps(e.event.value, false); }
    if defaultEvent.Some? { SingleLineKeeps(defaultEvent.value, false); }
    if e.id.Some? { SingleLineKeeps(e.id.value, true); }
  }

  lemma EventIsDelivered(c: Client, e: RawEvent, defaultEvent: Option<string>)
    requires Clean(c) && Survives(e)
    ensures ProcessAll(c, CutAll(EventLines(e, defaultEvent))) == AfterEvent(c, e, defaultEvent)
  {
    var (comment, rest) := (CutAll(CommentLines(e)), RestLines(e, defaultEvent));
    RestIsRead(e, defaultEvent);
    ProcessAppend(c, comment, rest);
    CommentIsIgnored(c, e);
    EventLinesAre(e, defaultEvent);
    AlikeIsSame(ProcessAll(c, comment), c, FieldLines(e, defaultEvent) + DataLines(e));
    RestIsDelivered(c, e, defaultEvent);
  }

  // ---- Whole streams ----

  function StreamLines(events: seq<RawEvent>, defaultEvent: Option<string>): seq<string>
  {
    if events == [] then [] else EventLines(events[0], defaultEvent) + StreamLines(events[1..], defaultEvent)
  }

  predicate AllSurvive(events: seq<RawEvent>) {
    forall i :: 0 <= i < |events| ==> Survives(events[i])
  }

  lemma {:induction false} StreamIsLines(events: seq<RawEvent>, defaultEvent: Option<string>)
    ensures EncodedStream(events, defaultEvent) == Unlines(StreamLines(events, defaultEvent))
    ensures Without(StreamLines(events, defaultEvent), '\n')
  {
    if events == [] {
    } else {
      StreamIsLines(events[1..], defaultEvent);
      UnlinesAppend(EventLines(events[0], defaultEvent), StreamLines(events[1..], defaultEvent));
      EventLinesStay(events[0], defaultEvent);
    }
  }

  function AfterEvents(c: Client, events: seq<RawEvent>, defaultEvent: Option<string>): Client
    decreases |events|
  {
    if events == [] then c else AfterEvents(AfterEvent(c, events[0], defaultEvent), events[1..], defaultEvent)
  }

  lemma {:induction false} StreamIsProcessed(c: Client, events: seq<RawEvent>, defaultEvent: Option<string>)
    requires Clean(c) && AllSurvive(events)
    ensures ProcessAll(c, CutAll(StreamLines(events, defaultEvent))) == AfterEvents(c, events, defaultEvent)
    decreases |events|
  {
    if events == [] {
    } else {
      var (first, rest) := (EventLines(events[0], defaultEvent), StreamLines(events[1..], defaultEvent));
      CutAllAppend(first, rest);
      ProcessAppend(c, CutAll(first), CutAll(rest));
      EventIsDelivered(c, events[0], defaultEvent);
      StreamIsProcessed(AfterEvent(c, events[0], defaultEvent), events[1..], defaultEvent);
    }
  }

  lemma {:induction false} AfterEventsIsDelivered(c: Client, events: seq<RawEvent>, defaultEvent: Option<string>)
    ensures AfterEvents(c, events, defaultEvent) ==
            c.(idBuffer := LastId(events, c.idBuffer), retry := LastRetry(events, c.retry),
               dispatched := c.dispatched + Delivered(events, defaultEvent, c.idBuffer))
    decreases |events|
  {
    if events == [] {
      assert c.dispatched + [] == c.dispatched;
    } else {
      var next := AfterEvent(c, events[0], defaultEvent);
      AfterEventsIsDelivered(next, events[1..], defaultEvent);
      assert next.dispatched + Delivered(events[1..], defaultEvent, next.idBuffer)
          == c.dispatched + Delivered(events, defaultEvent, c.idBuffer);
    }
  }

  /** An encoded stream never starts with a byte order mark, so the client drops nothing. */
  lemma NoBom(lines: seq<string>)
    requires lines == [] || lines[0] == "" || lines[0][0] != BOM
    ensures DropBom(Unlines(lines)) == Unlines(lines)
  {}

  lemma StreamHasNoBom(events: seq<RawEvent>, defaultEvent: Option<string>)
    ensures DropBom(EncodedStream(events, defaultEvent)) == EncodedStream(events, defaultEvent)
  {
    StreamIsLines(events, defaultEvent);
    if events != [] {
      var e := events[0];
      var first := EventLines(e, defaultEvent)[0];
      assert first == "" || first[0] != BOM;
      NoBom(StreamLines(events, defaultEvent));
    }
  }

  /** What a client reads of any stream: every written line, cut at its carriage returns. */
  lemma StreamIsRead(events: seq<RawEvent>, defaultEvent: Option<string>)
    ensures Interpret(EncodedStream(events, defaultEvent)) ==
            ProcessAll(START, CutAll(StreamLines(events, defaultEvent)))
  {
    var text := EncodedStream(events, defaultEvent);
    StreamIsLines(events, defaultEvent);
    StreamHasNoBom(events, defaultEvent);
    LinesOfWritten(StreamLines(events, defaultEvent), "");
    assert text + "" == text;
    assert CutAll(StreamLines(events, defaultEvent)) + [] == CutAll(StreamLines(events, defaultEvent));
  }

  /** The client's whole state after a stream of CR-free data and harmless comments. */
  lemma StreamRoundTrip(events: seq<RawEvent>, defaultEvent: Option<string>)
    requires AllSurvive(events)
    ensures Interpret(EncodedStream(events, defaultEvent)) ==
            Client("", "", LastId(events, ""), LastRetry(events, None), Delivered(events, defaultEvent, ""))
  {
    StreamIsRead(events, defaultEvent);
    StreamIsProcessed(START, events, defaultEvent);
    AfterEventsIsDelivered(START, events, defaultEvent);
  }

  lemma {:induction false} DeliveredData(events: seq<RawEvent>, defaultEvent: Option<string>, lastId: string, i: nat)
    requires i < |events| && events[i].data.Some?
    ensures exists m :: m in Delivered(events, defaultEvent, lastId) && m.data == events[i].data.value
  {
    var e := events[0];
    var id := IdAfter(e, lastId);
    if i == 0 {
      assert Delivered(events, defaultEvent, lastId)[0].data == e.data.value;
    } else {
      DeliveredData(events[1..], defaultEvent, id, i - 1);
      var m :| m in Delivered(events[1..], defaultEvent, id) && m.data == events[i].data.value;
      assert m in Delivered(events, defaultEvent, lastId);
    }
  }

  /** Data with a carriage return never arrives as it was sent, whatever the comments. */
  lemma OnlyCrFreeDataSurvives(events: seq<RawEvent>, defaultEvent: Option<string>)
    requires Interpret(EncodedStream(events, defaultEvent)).dispatched == Delivered(events, defaultEvent, "")
    ensures forall i :: 0 <= i < |events| ==> DataCrFree(events[i])
  {
    DispatchedDataIsCrFree(EncodedStream(events, defaultEvent));
    forall i | 0 <= i < |events| && events[i].data.Some?
      ensures DataCrFree(events[i])
    {
      DeliveredData(events, defaultEvent, "", i);
    }
  }

  /** Exactly when the messages survive the wire: when no data holds a carriage return. */
  lemma MessagesSurviveIffDataIsCrFree(events: seq<RawEvent>, defaultEvent: Option<string>)
    requires forall i :: 0 <= i < |events| ==> CommentHarmless(events[i])
    ensures Interpret(EncodedStream(events, defaultEvent)).dispatched == Delivered(events, defaultEvent, "")
       <==> forall i :: 0 <= i < |events| ==> DataCrFree(events[i])
  {
    if forall i :: 0 <= i < |events| ==> DataCrFree(events[i]) {
      StreamRoundTrip(events, defaultEvent);
    } else if Interpret(EncodedStream(events, defaultEvent)).dispatched == Delivered(events, defaultEvent, "") {
      OnlyCrFreeDataSurvives(events, defaultEvent);
    }
  }
}
