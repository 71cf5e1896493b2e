/** Server-Sent Events, the reading side: the reference interpretation of an event stream
    given by the WHATWG HTML Living Standard, sections 9.2.5 and 9.2.6. */
module SseClient {
  import opened Prelude

  datatype Message = Message(eventType: string, data: string, lastEventId: string)

  /** The client's buffers, its reconnection time, and the messages dispatched so far. */
  datatype Client = Client(
    dataBuffer: string,
    typeBuffer: string,
    idBuffer: string,
    retry: Option<nat>,
    dispatched: seq<Message>)

  const START := Client("", "", "", None, [])

  const BOM := '\U{FEFF}'

  function DropBom(text: string): string {
    if text != "" && text[0] == BOM then text[1..] else text
  }

  /** The terminated lines of a stream: CRLF, LF and CR all end a line, and an unterminated
      tail is discarded. `current` is the part of the present line already read. */
  function Lines(text: string, current: string): seq<string>
    decreases |text|
  {
    if text == "" then []
    else if text[0] == '\n' then [current] + Lines(text[1..], "")
    else if text[0] == '\r' then
      [current] + Lines(if |text| > 1 && text[1] == '\n' then text[2..] else text[1..], "")
    else Lines(text[1..], current + [text[0]])
  }

  function DropSpace(value: string): string {
    if value != "" && value[0] == ' ' then value[1..] else value
  }

  /** Field name and value: the value starts after the first colon, less one leading space. */
  function SplitField(line: string): (string, string)
  {
    if line == "" then ("", "")
    else if line[0] == ':' then ("", DropSpace(line[1..]))
    else
      var (name, value) := SplitField(line[1..]);
      ([line[0]] + name, value)
  }

  predicate AllDigits(s: string) {
    forall i :: 0 <= i < |s| ==> '0' <= s[i] <= '9'
  }

  predicate IsNumber(s: string) {
    s != "" && AllDigits(s)
  }

  function DecimalValue(s: string): nat
    requires AllDigits(s)
  {
    if s == "" then 0 else 10 * DecimalValue(s[..|s| - 1]) + (s[|s| - 1] - '0') as nat
  }

  function Field(c: Client, name: string, value: string): Client {
    if name == "event" then c.(typeBuffer := value)
    else if name == "data" then c.(dataBuffer := c.dataBuffer + value + "\n")
    else if name == "id" then if '\0' in value then c else c.(idBuffer := value)
    else if name == "retry" then if IsNumber(value) then c.(retry := Some(DecimalValue(value))) else c
    else c
  }

  /** The event type a message is shown with. */
  function Shown(typeBuffer: string): string {
    if typeBuffer == "" then "message" else typeBuffer
  }

  function Dispatch(c: Client): Client {
    var cleared := c.(dataBuffer := "", typeBuffer := "");
    if c.dataBuffer == "" then cleared
    else
      var last := |c.dataBuffer| - 1;
      var data := if c.dataBuffer[last] == '\n' then c.dataBuffer[..last] else c.dataBuffer;
      cleared.(dispatched := c.dispatched + [Message(Shown(c.typeBuffer), data, c.idBuffer)])
  }

  function Process(c: Client, line: string): Client {
    if line == "" then Dispatch(c)
    else if line[0] == ':' then c
    else var (name, value) := SplitField(line); Field(c, name, value)
  }

  function ProcessAll(c: Client, lines: seq<string>): Client
    decreases |lines|
  {
    if lines == [] then c else ProcessAll(Process(c, lines[0]), lines[1..])
  }

  function Interpret(text: string): Client {
    ProcessAll(START, Lines(DropBom(text), ""))
  }

  lemma {:induction false} ProcessAppend(c: Client, a: seq<string>, b: seq<string>)
    ensures ProcessAll(c, a + b) == ProcessAll(ProcessAll(c, a), b)
    decreases |a|
  {
    if a == [] {
      assert a + b == b;
    } else {
      assert (a + b)[1..] == a[1..] + b;
      ProcessAppend(Process(c, a[0]), a[1..], b);
    }
  }

  lemma {:induction false} SplitFieldAt(name: string, value: string)
    requires ':' !in name
    ensures SplitField(name + ": " + value) == (name, value)
  {
    var line := name + ": " + value;
    if name == "" {
      assert line[1..] == " " + value;
      assert (" " + value)[1..] == value;
    } else {
      assert line[1..] == name[1..] + ": " + value;
      SplitFieldAt(name[1..], value);
      assert line[0] == name[0] && [name[0]] + name[1..] == name;
    }
  }

  /** No line of a stream holds a line terminator. */
  lemma {:induction false} LinesAreSingle(text: string, current: string)
    requires '\r' !in current && '\n' !in current
    ensures forall l :: l in Lines(text, current) ==> '\r' !in l && '\n' !in l
    decreases |text|
  {
    if text == "" {
    } else if text[0] == '\n' {
      LinesAreSingle(text[1..], "");
    } else if text[0] == '\r' {
      LinesAreSingle(if |text| > 1 && text[1] == '\n' then text[2..] else text[1..], "");
    } else {
      LinesAreSingle(text[1..], current + [text[0]]);
    }
  }

  lemma {:induction false} SplitFieldChars(line: string)
    ensures forall ch :: ch in SplitField(line).1 ==> ch in line
  {
    if line != "" && line[0] != ':' {
      SplitFieldChars(line[1..]);
    }
  }

  ghost predicate CrFree(c: Client) {
    '\r' !in c.dataBuffer && forall m :: m in c.dispatched ==> '\r' !in m.data
  }

  lemma {:induction false} ProcessKeepsCrFree(c: Client, lines: seq<string>)
    requires CrFree(c) && forall l :: l in lines ==> '\r' !in l
    ensures CrFree(ProcessAll(c, lines))
    decreases |lines|
  {
    if lines == [] {
    } else {
      SplitFieldChars(lines[0]);
      ProcessKeepsCrFree(Process(c, lines[0]), lines[1..]);
    }
  }

  /** Whatever the stream, no dispatched data contains a carriage return. */
  lemma DispatchedDataIsCrFree(text: string)
    ensures forall m :: m in Interpret(text).dispatched ==> '\r' !in m.data
  {
    LinesAreSingle(DropBom(text), "");
    ProcessKeepsCrFree(START, Lines(DropBom(text), ""));
  }
}
