/** Server-Sent Events, the writing side: one event to its wire text. */
module SseCodec {
  import opened Prelude

  /** An event whose data is already text. Every field is optional. */
  datatype RawEvent = RawEvent(
    data: Option<string>,
    event: Option<string>,
    id: Option<string>,
    retry: Option<nat>,
    comment: Option<string>)

  /** An event as a handler builds it: a typed value to serialize, or text as it is. */
  datatype SseEvent<T> = SseEvent(
    data: Option<T>,
    raw: Option<string>,
    event: Option<string>,
    id: Option<string>,
    retry: Option<nat>,
    comment: Option<string>)

  function IntoRaw<T>(e: SseEvent<T>, serialize: T -> Result<string, string>): Result<RawEvent, string> {
    if e.data.Some? then
      match serialize(e.data.value)
      case Ok(text) => Ok(RawEvent(Some(text), e.event, e.id, e.retry, e.comment))
      case Err(error) => Err(error)
    else Ok(RawEvent(e.raw, e.event, e.id, e.retry, e.comment))
  }

  /** A field value that may not span lines: line terminators (and NUL, for ids) are dropped. */
  function SingleLine(value: string, stripNul: bool): string
  {
    if value == "" then ""
    else if Dropped(value[0], stripNul) then SingleLine(value[1..], stripNul)
    else [value[0]] + SingleLine(value[1..], stripNul)
  }

  predicate Dropped(c: char, stripNul: bool) {
    c == '\r' || c == '\n' || (stripNul && c == '\0')
  }

  function Decimal(n: nat): string
  {
    if n < 10 then [Digit(n)] else Decimal(n / 10) + [Digit(n % 10)]
  }

  function Digit(n: nat): char
    requires n < 10
  {
    '0' + n as char
  }

  /** Each line followed by a line feed. */
  function Unlines(lines: seq<string>): string
  {
    if lines == [] then "" else lines[0] + "\n" + Unlines(lines[1..])
  }

  function Prefixed(prefix: string, pieces: seq<string>): seq<string>
  {
    if pieces == [] then [] else [prefix + pieces[0]] + Prefixed(prefix, pieces[1..])
  }

  function NameOf(e: RawEvent, defaultEvent: Option<string>): Option<string> {
    if e.event.Some? then e.event else defaultEvent
  }

  function CommentLines(e: RawEvent): seq<string> {
    if e.comment.Some? then Prefixed(": ", Split(e.comment.value, '\n')) else []
  }

  function NameLines(name: Option<string>): seq<string> {
    if name.Some? then ["event: " + SingleLine(name.value, false)] else []
  }

  function IdLines(e: RawEvent): seq<string> {
    if e.id.Some? then ["id: " + SingleLine(e.id.value, true)] else []
  }

  function RetryLines(e: RawEvent): seq<string> {
    if e.retry.Some? then ["retry: " + Decimal(e.retry.value)] else []
  }

  function DataLines(e: RawEvent): seq<string> {
    if e.data.Some? then Prefixed("data: ", Split(e.data.value, '\n')) else []
  }

  /** The lines of an event; the blank one at the end dispatches it. */
  function EventLines(e: RawEvent, defaultEvent: Option<string>): seq<string> {
    CommentLines(e) + NameLines(NameOf(e, defaultEvent)) + IdLines(e) + RetryLines(e) + DataLines(e) + [""]
  }

  function Encoded(e: RawEvent, defaultEvent: Option<string>): string {
    Unlines(EventLines(e, defaultEvent))
  }

  lemma {:induction false} UnlinesAppend(a: seq<string>, b: seq<string>)
    ensures Unlines(a + b) == Unlines(a) + Unlines(b)
  {
    if a == [] {
      assert a + b == b;
    } else {
      assert (a + b)[1..] == a[1..] + b;
      UnlinesAppend(a[1..], b);
    }
  }

  lemma {:induction false} PrefixedAppend(prefix: string, a: seq<string>, b: seq<string>)
    ensures Prefixed(prefix, a + b) == Prefixed(prefix, a) + Prefixed(prefix, b)
  {
    if a == [] {
      assert a + b == b;
    } else {
      assert (a + b)[1..] == a[1..] + b;
      PrefixedAppend(prefix, a[1..], b);
    }
  }

  lemma {:induction false} SingleLineAppend(a: string, b: string, stripNul: bool)
    ensures SingleLine(a + b, stripNul) == SingleLine(a, stripNul) + SingleLine(b, stripNul)
  {
    if a == "" {
      assert a + b == b;
    } else {
      assert (a + b)[1..] == a[1..] + b;
      SingleLineAppend(a[1..], b, stripNul);
    }
  }

  /** The filtered value stays on one line, and an id carries no NUL. */
  lemma {:induction false} SingleLineClean(value: string, stripNul: bool)
    ensures forall c :: c in SingleLine(value, stripNul) ==> c in value && !Dropped(c, stripNul)
  {
    if value == "" {
    } else {
      SingleLineClean(value[1..], stripNul);
    }
  }

  /** A line terminator (or NUL, for ids) is dropped wherever it stands. */
  lemma SingleLineDrops(a: string, c: char, b: string, stripNul: bool)
    ensures SingleLine(a + [c] + b, stripNul) ==
            if c == '\r' || c == '\n' || (stripNul && c == '\0') then SingleLine(a + b, stripNul)
            else SingleLine(a, stripNul) + [c] + SingleLine(b, stripNul)
  {
    SingleLineAppend(a + [c], b, stripNul);
    SingleLineAppend(a, [c], stripNul);
    SingleLineAppend(a, b, stripNul);
    SingleLineOne(c, stripNul);
    if Dropped(c, stripNul) {
      assert SingleLine(a, stripNul) + "" == SingleLine(a, stripNul);
    }
  }

  lemma SingleLineOne(c: char, stripNul: bool)
    ensures SingleLine([c], stripNul) == if Dropped(c, stripNul) then "" else [c]
  {
    assert [c][1..] == "";
  }

  /** A value without any of them is kept whole. */
  lemma {:induction false} SingleLineKeeps(value: string, stripNul: bool)
    requires '\r' !in value && '\n' !in value && (stripNul ==> '\0' !in value)
    ensures SingleLine(value, stripNul) == value
  {
    if value == "" {
    } else {
      SingleLineKeeps(value[1..], stripNul);
      assert value == [value[0]] + value[1..];
    }
  }

  method PushSingleLine(out: string, value: string, stripNul: bool) returns (result: string)
    ensures result == out + SingleLine(value, stripNul)
  {
    result := out;
    for i := 0 to |value|
      invariant result == out + SingleLine(value[..i], stripNul)
    {
      assert value[..i + 1] == value[..i] + [value[i]];
      SingleLineAppend(value[..i], [value[i]], stripNul);
      if Dropped(value[i], stripNul) {
        continue;
      }
      result := result + [value[i]];
    }
    assert value[..|value|] == value;
  }

  /** Appends `prefix + piece + "\n"` for every line of `text`. */
  method PushLines(out: string, prefix: string, text: string) returns (result: string)
    ensures result == out + Unlines(Prefixed(prefix, Split(text, '\n')))
  {
    var pieces := Split(text, '\n');
    result := out;
    for i := 0 to |pieces|
      invariant result == out + Unlines(Prefixed(prefix, pieces[..i]))
    {
      var written := result;
      result := result + prefix;
      result := result + pieces[i];
      result := result + "\n";
      assert result == written + (prefix + pieces[i] + "\n");
      PrefixedStep(prefix, pieces, i);
    }
    assert pieces[..|pieces|] == pieces;
  }

  lemma PrefixedStep(prefix: string, pieces: seq<string>, i: nat)
    requires i < |pieces|
    ensures Unlines(Prefixed(prefix, pieces[..i + 1])) ==
            Unlines(Prefixed(prefix, pieces[..i])) + (prefix + pieces[i] + "\n")
  {
    assert pieces[..i + 1] == pieces[..i] + [pieces[i]];
    PrefixedAppend(prefix, pieces[..i], [pieces[i]]);
    assert Prefixed(prefix, [pieces[i]]) == [prefix + pieces[i]];
    UnlinesAppend(Prefixed(prefix, pieces[..i]), [prefix + pieces[i]]);
  }

  /** Appends one single-line field, terminator included. */
  method PushField(out: string, prefix: string, value: string, stripNul: bool) returns (result: string)
    ensures result == out + Unlines([prefix + SingleLine(value, stripNul)])
  {
    result := out + prefix;
    result := PushSingleLine(result, value, stripNul);
    result := result + "\n";
    assert Unlines([prefix + SingleLine(value, stripNul)]) == prefix + SingleLine(value, stripNul) + "\n";
  }

  method EncodeEvent(e: RawEvent, defaultEvent: Option<string>) returns (out: string)
    ensures out == Encoded(e, defaultEvent)
  {
    out := "";
    if e.comment.Some? {
      out := PushLines(out, ": ", e.comment.value);
    }
    assert out == Unlines(CommentLines(e));
    out := PushName(out, if e.event.Some? then e.event else defaultEvent);
    out := PushIdAndRetry(out, e);
    ghost var fields := out;
    if e.data.Some? {
      out := PushLines(out, "data: ", e.data.value);
    }
    assert out == fields + Unlines(DataLines(e));
    out := out + "\n";
    EncodedParts(e, defaultEvent);
  }

  method PushName(out: string, name: Option<string>) returns (result: string)
    ensures result == out + Unlines(NameLines(name))
  {
    result := out;
    if name.Some? {
      result := PushField(out, "event: ", name.value, false);
    }
  }

  method PushIdAndRetry(out: string, e: RawEvent) returns (result: string)
    ensures result == out + Unlines(IdLines(e)) + Unlines(RetryLines(e))
  {
    result := out;
    if e.id.Some? {
      result := PushField(out, "id: ", e.id.value, true);
    }
    assert result == out + Unlines(IdLines(e));
    if e.retry.Some? {
      result := result + ("retry: " + Decimal(e.retry.value) + "\n");
      assert Unlines(RetryLines(e)) == "retry: " + Decimal(e.retry.value) + "\n";
    }
  }

  lemma EncodedParts(e: RawEvent, defaultEvent: Option<string>)
    ensures Encoded(e, defaultEvent) ==
            Unlines(CommentLines(e)) + Unlines(NameLines(NameOf(e, defaultEvent))) + Unlines(IdLines(e))
            + Unlines(RetryLines(e)) + Unlines(DataLines(e)) + "\n"
  {
    var (c, n, d) := (CommentLines(e), NameLines(NameOf(e, defaultEvent)), DataLines(e));
    var (i, r) := (IdLines(e), RetryLines(e));
    UnlinesAppend(c, n);
    UnlinesAppend(c + n, i);
    UnlinesAppend(c + n + i, r);
    UnlinesAppend(c + n + i + r, d);
    UnlinesAppend(c + n + i + r + d, [""]);
    assert Unlines([""]) == "\n";
  }

  /** One line of the wire text, or nothing. */
  function WireLine(field: string, value: Option<string>): string {
    if value.Some? then field + ": " + value.value + "\n" else ""
  }

  /** The name line: the event's own name goes before the default. */
  function NameLine(event: Option<string>, defaultEvent: Option<string>): string {
    match (event, defaultEvent)
    case (Some(own), _) => "event: " + SingleLine(own, false) + "\n"
    case (None, Some(fallback)) => "event: " + SingleLine(fallback, false) + "\n"
    case (None, None) => ""
  }

  lemma NameText(e: RawEvent, defaultEvent: Option<string>)
    ensures Unlines(NameLines(NameOf(e, defaultEvent))) == NameLine(e.event, defaultEvent)
  {
    var name := NameOf(e, defaultEvent);
    if name.Some? { OneLine("event", SingleLine(name.value, false)); }
  }

  lemma IdText(e: RawEvent)
    ensures Unlines(IdLines(e)) == WireLine("id", if e.id.Some? then Some(SingleLine(e.id.value, true)) else None)
  {
    if e.id.Some? { OneLine("id", SingleLine(e.id.value, true)); }
  }

  lemma RetryText(e: RawEvent)
    ensures Unlines(RetryLines(e)) == WireLine("retry", if e.retry.Some? then Some(Decimal(e.retry.value)) else None)
  {
    if e.retry.Some? { OneLine("retry", Decimal(e.retry.value)); }
  }

  lemma SplitText(field: string, text: string)
    requires '\n' !in text
    ensures Unlines(Prefixed(field + ": ", Split(text, '\n'))) == WireLine(field, Some(text))
  {
    SplitWhole(text, '\n');
    OneLine(field, text);
  }

  lemma CommentText(e: RawEvent)
    requires e.comment.Some? ==> '\n' !in e.comment.value
    ensures Unlines(CommentLines(e)) == WireLine("", e.comment)
  {
    if e.comment.Some? {
      SplitText("", e.comment.value);
      assert "" + ": " == ": ";
    }
  }

  lemma DataText(e: RawEvent)
    requires e.data.Some? ==> '\n' !in e.data.value
    ensures Unlines(DataLines(e)) == WireLine("data", e.data)
  {
    if e.data.Some? {
      SplitText("data", e.data.value);
      assert "data" + ": " == "data: ";
    }
  }

  /** The wire text of an event whose data and comment are single lines: comment, name, id,
      retry time and data, then a blank line. */
  lemma WireFormat(e: RawEvent, defaultEvent: Option<string>)
    requires (e.data.Some? ==> '\n' !in e.data.value) && (e.comment.Some? ==> '\n' !in e.comment.value)
    ensures Encoded(e, defaultEvent) ==
            WireLine("", e.comment) + NameLine(e.event, defaultEvent)
            + WireLine("id", if e.id.Some? then Some(SingleLine(e.id.value, true)) else None)
            + WireLine("retry", if e.retry.Some? then Some(Decimal(e.retry.value)) else None)
            + WireLine("data", e.data) + "\n"
  {
    EncodedParts(e, defaultEvent);
    CommentText(e);
    NameText(e, defaultEvent);
    IdText(e);
    RetryText(e);
    DataText(e);
  }

  lemma OneLine(field: string, value: string)
    ensures Unlines([field + ": " + value]) == WireLine(field, Some(value))
    ensures Prefixed(field + ": ", [value]) == [field + ": " + value]
  {
    assert [field + ": " + value][1..] == [] && [value][1..] == [];
    assert Unlines([field + ": " + value]) == field + ": " + value + "\n" + "";
  }

  /** What is sent as the data of a handler's event: its value, if it has one, serialized, and
      otherwise its text, if it has one. A value goes before a text. */
  lemma IntoRawIs<T>(e: SseEvent<T>, serialize: T -> Result<string, string>)
    ensures match e
            case SseEvent(Some(value), _, event, id, retry, comment) =>
              (match serialize(value)
               case Ok(text) => IntoRaw(e, serialize) == Ok(RawEvent(Some(text), event, id, retry, comment))
               case Err(error) => IntoRaw(e, serialize) == Err(error))
            case SseEvent(None, raw, event, id, retry, comment) =>
              IntoRaw(e, serialize) == Ok(RawEvent(raw, event, id, retry, comment))
  {}
}
