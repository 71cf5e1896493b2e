/** Exactly which comments a client does not notice, whatever the stream around them. */
module SseComments {
  import opened Prelude
  import opened SseCodec
  import opened SseClient
  import opened SseWire
  import opened SseRoundTrip

  /** The event reads the same with the comment as without any. */
  predicate SameReading(comment: string, before: seq<RawEvent>, e: RawEvent, after: seq<RawEvent>, d: Option<string>) {
    Interpret(EncodedStream(before + [e.(comment := Some(comment))] + after, d)) ==
    Interpret(EncodedStream(before + [e.(comment := None)] + after, d))
  }

  ghost predicate HarmlessInEveryStream(comment: string) {
    forall before, e, after, d :: SameReading(comment, before, e, after, d)
  }

  lemma {:induction false} StreamLinesAppend(a: seq<RawEvent>, b: seq<RawEvent>, d: Option<string>)
    ensures StreamLines(a + b, d) == StreamLines(a, d) + StreamLines(b, d)
  {
    if a == [] {
      assert a + b == b;
    } else {
      assert (a + b)[1..] == a[1..] + b;
      StreamLinesAppend(a[1..], b, d);
    }
  }

  /** The client once it has read a stream. */
  function Reads(c: Client, events: seq<RawEvent>, d: Option<string>): Client {
    ProcessAll(c, CutAll(StreamLines(events, d)))
  }

  lemma ReadsAppend(c: Client, a: seq<RawEvent>, b: seq<RawEvent>, d: Option<string>)
    ensures Reads(c, a + b, d) == Reads(Reads(c, a, d), b, d)
  {
    StreamLinesAppend(a, b, d);
    CutAllAppend(StreamLines(a, d), StreamLines(b, d));
    ProcessAppend(c, CutAll(StreamLines(a, d)), CutAll(StreamLines(b, d)));
  }

  lemma ReadsOne(c: Client, e: RawEvent, d: Option<string>)
    ensures var comment := ProcessAll(c, CutAll(CommentLines(e)));
            Reads(c, [e], d) == ProcessAll(comment, CutAll(FieldLines(e, d) + DataLines(e)) + [""])
    ensures Clean(Reads(c, [e], d))
  {
    assert [e][1..] == [] && StreamLines([e], d) == EventLines(e, d);
    var rest := CutAll(FieldLines(e, d) + DataLines(e));
    EventIsRead(e, d);
    ProcessAppend(c, CutAll(CommentLines(e)), rest + [""]);
    var comment := ProcessAll(c, CutAll(CommentLines(e)));
    ProcessAppend(comment, rest, [""]);
    DispatchLine(ProcessAll(comment, rest));
  }

  /** Whatever the events, the client's buffers are empty after the last one. */
  lemma {:induction false} ReadsClean(c: Client, events: seq<RawEvent>, d: Option<string>)
    requires Clean(c)
    ensures Clean(Reads(c, events, d))
    decreases |events|
  {
    if events == [] {
    } else {
      assert events == [events[0]] + events[1..];
      ReadsAppend(c, [events[0]], events[1..], d);
      ReadsOne(c, events[0], d);
      ReadsClean(Reads(c, [events[0]], d), events[1..], d);
    }
  }

  /** A stream around one event. */
  lemma ReadsAround(before: seq<RawEvent>, e: RawEvent, after: seq<RawEvent>, d: Option<string>)
    ensures Interpret(EncodedStream(before + [e] + after, d)) ==
            Reads(Reads(Reads(START, before, d), [e], d), after, d)
    ensures Clean(Reads(START, before, d))
  {
    StreamIsRead(before + [e] + after, d);
    ReadsAppend(START, before + [e], after, d);
    ReadsAppend(START, before, [e], d);
    ReadsClean(START, before, d);
  }

  /** Between events, a client reads an event with a harmless comment as without it. */
  lemma ReadsAsWithout(c: Client, x: RawEvent, d: Option<string>)
    requires Clean(c) && CommentHarmless(x)
    ensures Reads(c, [x], d) == Reads(c, [x.(comment := None)], d)
  {
    var y := x.(comment := None);
    var rest := CutAll(FieldLines(x, d) + DataLines(x));
    assert FieldLines(x, d) == FieldLines(y, d) && DataLines(x) == DataLines(y);
    ReadsOne(c, x, d);
    ReadsOne(c, y, d);
    CommentIsIgnored(c, x);
    AlikeIsSame(ProcessAll(c, CutAll(CommentLines(x))), c, rest);
    assert CutAll(CommentLines(y)) == [];
  }

  lemma HarmlessIsSame(comment: string, before: seq<RawEvent>, e: RawEvent, after: seq<RawEvent>, d: Option<string>)
    requires Harmless(comment)
    ensures SameReading(comment, before, e, after, d)
  {
    var x := e.(comment := Some(comment));
    assert x.(comment := None) == e.(comment := None);
    ReadsAround(before, x, after, d);
    ReadsAround(before, e.(comment := None), after, d);
    ReadsAsWithout(Reads(START, before, d), x, d);
  }

  predicate SetsId(line: string) {
    var (name, value) := SplitField(line); name == "id" && '\0' !in value
  }

  predicate SetsRetry(line: string) {
    var (name, value) := SplitField(line); name == "retry" && IsNumber(value)
  }

  /** Once there is data in the buffer, the next blank line dispatches it. */
  lemma {:induction false} DataIsDispatched(c: Client, lines: seq<string>)
    ensures |ProcessAll(c, lines + [""]).dispatched| >= |c.dispatched|
    ensures c.dataBuffer != "" || (exists i :: 0 <= i < |lines| && SplitField(lines[i]).0 == "data") ==>
              |ProcessAll(c, lines + [""]).dispatched| > |c.dispatched|
    decreases |lines|
  {
    if lines == [] {
      assert [] + [""] == [""];
      DispatchLine(c);
    } else {
      assert (lines + [""])[1..] == lines[1..] + [""];
      DataIsDispatched(Process(c, lines[0]), lines[1..]);
      if exists i :: 0 <= i < |lines| && SplitField(lines[i]).0 == "data" {
        var i :| 0 <= i < |lines| && SplitField(lines[i]).0 == "data";
        assert i > 0 ==> lines[1..][i - 1] == lines[i];
      }
    }
  }

  /** A line that sets the id makes clients forget different ids. */
  lemma {:induction false} IdIsForgotten(c: Client, d: Client, lines: seq<string>)
    requires c.idBuffer == d.idBuffer || exists i :: 0 <= i < |lines| && SetsId(lines[i])
    ensures ProcessAll(c, lines).idBuffer == ProcessAll(d, lines).idBuffer
    decreases |lines|
  {
    if lines == [] {
    } else {
      if c.idBuffer != d.idBuffer && !SetsId(lines[0]) {
        var i :| 0 <= i < |lines| && SetsId(lines[i]);
        assert lines[1..][i - 1] == lines[i];
      }
      IdIsForgotten(Process(c, lines[0]), Process(d, lines[0]), lines[1..]);
    }
  }

  lemma {:induction false} RetryIsSet(c: Client, lines: seq<string>)
    requires c.retry.Some? || exists i :: 0 <= i < |lines| && SetsRetry(lines[i])
    ensures ProcessAll(c, lines).retry.Some?
    decreases |lines|
  {
    if lines == [] {
    } else {
      if c.retry.None? && !SetsRetry(lines[0]) {
        var i :| 0 <= i < |lines| && SetsRetry(lines[i]);
        assert lines[1..][i - 1] == lines[i];
      }
      RetryIsSet(Process(c, lines[0]), lines[1..]);
    }
  }

  const NOTHING := RawEvent(None, None, None, None, None)

  /** The reading of an event that is nothing but its comment. */
  lemma ReadsNothingBut(comment: string, before: seq<RawEvent>)
    ensures var c := Reads(START, before, None);
            && Interpret(EncodedStream(before + [NOTHING.(comment := Some(comment))] + [], None)) ==
               ProcessAll(c, CommentRead(comment) + [""])
            && Interpret(EncodedStream(before + [NOTHING] + [], None)) == c
            && Clean(c)
  {
    var (c, e) := (Reads(START, before, None), NOTHING.(comment := Some(comment)));
    ReadsAround(before, e, [], None);
    ReadsAround(before, NOTHING, [], None);
    ReadsOne(c, e, None);
    ReadsOne(c, NOTHING, None);
    var lines := CutAll(CommentLines(e));
    ProcessAppend(c, lines, [""]);
    assert FieldLines(e, None) + DataLines(e) == [] == FieldLines(NOTHING, None) + DataLines(NOTHING);
    assert CutAll([]) + [""] == [""] && CutAll(CommentLines(NOTHING)) == [];
    DispatchLine(c);
  }

  lemma DataIsSeen(comment: string, i: nat)
    requires i < |CommentRead(comment)| && SplitField(CommentRead(comment)[i]).0 == "data"
    ensures !SameReading(comment, [], NOTHING, [], None)
  {
    ReadsNothingBut(comment, []);
    assert Reads(START, [], None) == START;
    DataIsDispatched(START, CommentRead(comment));
    assert NOTHING.(comment := None) == NOTHING;
  }

  lemma RetryIsSeen(comment: string, i: nat)
    requires i < |CommentRead(comment)| && SetsRetry(CommentRead(comment)[i])
    ensures !SameReading(comment, [], NOTHING, [], None)
  {
    var lines := CommentRead(comment);
    ReadsNothingBut(comment, []);
    assert Reads(START, [], None) == START;
    assert (lines + [""])[i] == lines[i];
    RetryIsSet(START, lines + [""]);
    assert NOTHING.(comment := None) == NOTHING;
  }

  const NAMED := NOTHING.(id := Some("x"))

  lemma IdsBefore()
    ensures Reads(START, [], None) == START && Reads(START, [NAMED], None).idBuffer == "x"
  {
    StreamIsProcessed(START, [NAMED], None);
    assert [NAMED][1..] == [] && SingleLine("x", true) == "x";
  }

  /** An id set by a comment is seen after at least one of two streams. */
  lemma IdIsSeen(comment: string, i: nat)
    requires i < |CommentRead(comment)| && SetsId(CommentRead(comment)[i])
    ensures !SameReading(comment, [], NOTHING, [], None) || !SameReading(comment, [NAMED], NOTHING, [], None)
  {
    var lines := CommentRead(comment) + [""];
    assert lines[i] == CommentRead(comment)[i];
    ReadsNothingBut(comment, []);
    ReadsNothingBut(comment, [NAMED]);
    IdsBefore();
    IdIsForgotten(START, Reads(START, [NAMED], None), lines);
    assert NOTHING.(comment := None) == NOTHING;
  }

  /** An event type left behind by a comment is shown with the data of its event. */
  lemma TypeIsSeen(comment: string)
    requires var lines := CommentRead(comment);
             && (forall i :: 0 <= i < |lines| ==> Inert(lines[i])) && Shown(TypeLeft(lines, "")) != "message"
    ensures !SameReading(comment, [], NOTHING.(data := Some("")), [], None)
  {
    var lines := CommentRead(comment);
    var y := NOTHING.(data := Some(""));
    var x := y.(comment := Some(comment));
    ReadsAround([], x, [], None);
    ReadsAround([], y, [], None);
    assert Reads(START, [], None) == START && y.(comment := None) == y;
    ReadsOne(START, x, None);
    ReadsOne(START, y, None);
    InertLines(START, lines);
    var c := START.(typeBuffer := TypeLeft(lines, ""));
    assert ProcessAll(START, CutAll(CommentLines(x))) == c && ProcessAll(START, CutAll(CommentLines(y))) == START;
    DataLinesStay(y);
    CutNothing(DataLines(y));
    assert FieldLines(x, None) + DataLines(x) == DataLines(y) == FieldLines(y, None) + DataLines(y);
    DataAndDispatch(c, y);
    DataAndDispatch(START, y);
    assert Reads(START, [x], None) == Dispatched(c, y) && Reads(START, [y], None) == Dispatched(START, y);
    assert Dispatched(c, y).dispatched[0] != Dispatched(START, y).dispatched[0];
  }

  /** A comment is harmless in every stream if and only if the lines that its carriage returns
      start are inert and leave no event type but the default one. */
  lemma CommentIsHarmlessIff(comment: string)
    ensures HarmlessInEveryStream(comment) <==> Harmless(comment)
  {
    if Harmless(comment) {
      forall before, e, after, d
        ensures SameReading(comment, before, e, after, d)
      {
        HarmlessIsSame(comment, before, e, after, d);
      }
    } else {
      var lines := CommentRead(comment);
      if i :| 0 <= i < |lines| && !Inert(lines[i]) {
        if SplitField(lines[i]).0 == "data" {
          DataIsSeen(comment, i);
        } else if SetsRetry(lines[i]) {
          RetryIsSeen(comment, i);
        } else {
          IdIsSeen(comment, i);
        }
      } else {
        TypeIsSeen(comment);
      }
    }
  }

  /** The family of the stray data line: any single line of data can be sent by an event that
      has none, behind a carriage return in its comment. */
  lemma CommentCarriageReturnSendsData(data: string)
    requires '\r' !in data && '\n' !in data
    ensures var e := RawEvent(None, None, None, None, Some("\r" + ("data: " + data)));
            && Delivered([e], None, "") == []
            && Interpret(EncodedStream([e], None)).dispatched == [Message("message", data, "")]
  {
    var line := "data: " + data;
    var comment := "\r" + line;
    StrayLines(comment, line);
    ReadsNothingBut(comment, []);
    assert Reads(START, [], None) == START;
    StrayRead(data);
    assert [": ", line] + [""] == [": ", line, ""];
    var e := NOTHING.(comment := Some(comment));
    assert [] + [e] + [] == [e] && [e][1..] == [];
  }

  lemma StrayRead(data: string)
    ensures ProcessAll(START, [": ", "data: " + data, ""]).dispatched == [Message("message", data, "")]
  {
    var line := "data: " + data;
    var lines := [": ", line, ""];
    FieldLine(START, "data", data);
    assert "data" + ": " + data == line;
    var c := Process(START, line);
    assert c == START.(dataBuffer := data + "\n") && (data + "\n")[..|data|] == data;
    DispatchLine(c);
    assert lines[1..] == [line, ""] && [line, ""][1..] == [""];
    assert ProcessAll(START, lines) == ProcessAll(START, [line, ""]) == ProcessAll(c, [""]);
  }

  lemma StrayLines(comment: string, line: string)
    requires '\r' !in line && '\n' !in line && line != "" && comment == "\r" + line
    ensures CommentRead(comment) == [": ", line]
  {
    SplitWhole(comment, '\n');
    StrayPieces(line);
    assert Prefixed(": ", [comment]) == [": " + comment] && [comment][1..] == [];
    assert CommentRead(comment) == CutAll([": " + comment]) == Cut(": " + comment) + CutAll([]);
    assert [": " + comment][1..] == [] && [": ", line] + [] == [": ", line];
  }

  lemma StrayPieces(line: string)
    requires '\r' !in line && line != ""
    ensures Cut(": " + ("\r" + line)) == [": ", line]
  {
    var text := "\r" + line;
    SplitWhole(line, '\r');
    assert text[1..] == line && (" " + text)[1..] == text && (": " + text)[1..] == " " + text;
    CutHead(text);
    CutHead(" " + text);
    CutHead(": " + text);
    assert Cut(text) == [""] + [line] && " " + "" == " " && ":" + " " == ": ";
    assert Prepend(" ", ["", line]) == [" ", line] && Prepend(":", [" ", line]) == [": ", line];
  }
}
