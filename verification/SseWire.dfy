/** What an `EventSource` client reads of written lines: the writer ends lines with LF alone,
    while a client ends them at CR as well. */
module SseWire {
  import opened Prelude
  import opened SseCodec
  import opened SseClient

  predicate Without(lines: seq<string>, ch: char) {
    forall i :: 0 <= i < |lines| ==> ch !in lines[i]
  }

  /** Pieces without an empty one at the very end. */
  function Trim(pieces: seq<string>): (trimmed: seq<string>)
    requires pieces != []
    ensures trimmed != []
  {
    if |pieces| > 1 && pieces[|pieces| - 1] == "" then pieces[..|pieces| - 1] else pieces
  }

  /** A written line as a client reads it: cut at its carriage returns, one at the very end
      being part of the line's own terminator. */
  function Cut(line: string): (pieces: seq<string>)
    ensures pieces != []
  {
    Trim(Split(line, '\r'))
  }

  function CutAll(lines: seq<string>): seq<string>
  {
    if lines == [] then [] else Cut(lines[0]) + CutAll(lines[1..])
  }

  lemma {:induction false} CutAllAppend(a: seq<string>, b: seq<string>)
    ensures CutAll(a + b) == CutAll(a) + CutAll(b)
  {
    if a == [] {
      assert a + b == b;
    } else {
      assert (a + b)[1..] == a[1..] + b;
      CutAllAppend(a[1..], b);
    }
  }

  lemma {:induction false} CutNothing(lines: seq<string>)
    requires Without(lines, '\r')
    ensures CutAll(lines) == lines
  {
    if lines == [] {
    } else {
      SplitWhole(lines[0], '\r');
      CutNothing(lines[1..]);
    }
  }

  function Prepend(current: string, pieces: seq<string>): seq<string>
    requires pieces != []
  {
    [current + pieces[0]] + pieces[1..]
  }

  lemma PrependTwice(a: string, b: string, pieces: seq<string>)
    requires pieces != []
    ensures Prepend(a, Prepend(b, pieces)) == Prepend(a + b, pieces)
    ensures Prepend("", pieces) == pieces
  {
    assert a + (b + pieces[0]) == a + b + pieces[0];
    assert "" + pieces[0] == pieces[0];
  }

  lemma TrimCons(rest: seq<string>)
    requires rest != [] && (|rest| > 1 || rest[0] != "")
    ensures Trim([""] + rest) == [""] + Trim(rest)
  {
    assert ([""] + rest)[..|rest|] == [""] + rest[..|rest| - 1];
  }

  lemma TrimPrepend(current: string, rest: seq<string>)
    requires rest != []
    ensures Trim(Prepend(current, rest)) == Prepend(current, Trim(rest))
  {
    if |rest| > 1 {
      assert Prepend(current, rest)[..|rest| - 1] == Prepend(current, rest[..|rest| - 1]);
    }
  }

  lemma CutHead(line: string)
    requires line != "" && line != "\r"
    ensures Cut(line) == if line[0] == '\r' then [""] + Cut(line[1..]) else Prepend([line[0]], Cut(line[1..]))
  {
    var rest := Split(line[1..], '\r');
    if line[0] == '\r' {
      SplitWhole(line[1..], '\r');
      assert line == [line[0]] + line[1..];
      TrimCons(rest);
    } else {
      TrimPrepend([line[0]], rest);
    }
  }

  /** The client's lines of one written line. */
  lemma {:induction false} LinesOfOne(line: string, rest: string, current: string)
    requires '\n' !in line
    ensures Lines(line + "\n" + rest, current) == Prepend(current, Cut(line)) + Lines(rest, "")
    decreases |line|
  {
    var text := line + "\n" + rest;
    if line == "" {
      assert text[1..] == rest && current + "" == current;
    } else if line == "\r" {
      assert text[2..] == rest && text[1] == '\n';
      assert "\r"[1..] == "" && Split("\r", '\r') == ["", ""] && Cut(line) == [""];
      assert current + "" == current;
    } else if line[0] == '\r' {
      LinesOfOne(line[1..], rest, "");
      LinesAfterReturn(line, rest, current);
    } else {
      assert text[1..] == line[1..] + "\n" + rest;
      CutHead(line);
      LinesOfOne(line[1..], rest, current + [line[0]]);
      PrependTwice(current, [line[0]], Cut(line[1..]));
    }
  }

  lemma LinesAtReturn(tail: string, current: string)
    requires tail != "" && tail[0] != '\n'
    ensures Lines("\r" + tail, current) == [current] + Lines(tail, "")
  {
    assert ("\r" + tail)[1..] == tail;
  }

  lemma PrependToEmpty(current: string, pieces: seq<string>)
    ensures Prepend(current, [""] + pieces) == [current] + pieces
  {
    assert current + "" == current && ([""] + pieces)[1..] == pieces;
  }

  lemma LinesAfterReturn(line: string, rest: string, current: string)
    requires |line| > 1 && line[0] == '\r' && line[1] != '\n'
    requires Lines(line[1..] + "\n" + rest, "") == Prepend("", Cut(line[1..])) + Lines(rest, "")
    ensures Lines(line + "\n" + rest, current) == Prepend(current, Cut(line)) + Lines(rest, "")
  {
    var tail := line[1..] + "\n" + rest;
    assert line + "\n" + rest == "\r" + tail && tail[0] == line[1];
    LinesAtReturn(tail, current);
    CutHead(line);
    PrependTwice("", "", Cut(line[1..]));
    PrependToEmpty(current, Cut(line[1..]));
    ConcatAssoc([current], Cut(line[1..]), Lines(rest, ""));
  }

  /** Written lines are read back cut at their carriage returns. */
  lemma {:induction false} LinesOfWritten(lines: seq<string>, rest: string)
    requires Without(lines, '\n')
    ensures Lines(Unlines(lines) + rest, "") == CutAll(lines) + Lines(rest, "")
  {
    if lines == [] {
      assert "" + rest == rest;
    } else {
      assert Unlines(lines) + rest == lines[0] + "\n" + (Unlines(lines[1..]) + rest);
      LinesOfOne(lines[0], Unlines(lines[1..]) + rest, "");
      LinesOfWritten(lines[1..], rest);
      PrependTwice("", "", Cut(lines[0]));
      assert Cut(lines[0]) + (CutAll(lines[1..]) + Lines(rest, "")) == CutAll(lines) + Lines(rest, "");
    }
  }
}
