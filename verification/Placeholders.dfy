/** Finding the `{name}` placeholders of a route path. */
module Placeholders {
  import opened Prelude

  /** How far away the next closing brace is, if there is one. */
  function FindClose(s: string): (offset: Option<nat>)
    ensures offset.Some? ==> offset.value < |s| && s[offset.value] == '}' && '}' !in s[..offset.value]
    ensures offset.None? ==> '}' !in s
  {
    if s == "" then None
    else if s[0] == '}' then Some(0)
    else
      var rest := FindClose(s[1..]);
      if rest.None? then None else Some(rest.value + 1)
  }

  function TrimStars(s: string): string
  {
    if s != "" && s[0] == '*' then TrimStars(s[1..]) else s
  }

  /** All the stars in front are trimmed, and nothing else. */
  lemma {:induction false} StarsAreTrimmed(s: string) returns (k: nat)
    ensures k <= |s| && TrimStars(s) == s[k..]
    ensures forall i :: 0 <= i < k ==> s[i] == '*'
    ensures k < |s| ==> s[k] != '*'
  {
    if s == "" || s[0] != '*' {
      k := 0;
    } else {
      k := StarsAreTrimmed(s[1..]);
      k := k + 1;
    }
  }

  /** The names in a path: at each opening brace with a closing one after it, the text between
      them without leading stars; an opening brace that is never closed is passed over. */
  function Names(path: string): seq<string>
    decreases |path|
  {
    if path == "" then []
    else if path[0] == '{' && FindClose(path[1..]).Some? then
      var offset := FindClose(path[1..]).value;
      [TrimStars(path[1..][..offset])] + Names(path[offset + 2..])
    else Names(path[1..])
  }

  /** The scanner of the route macros. */
  method PathParamNames(path: string) returns (names: seq<string>)
    ensures names == Names(path)
  {
    names := [];
    var index := 0;
    while index < |path|
      invariant 0 <= index <= |path|
      invariant names + Names(path[index..]) == Names(path)
    {
      assert path[index..][1..] == path[index + 1..];
      if path[index] == '{' {
        var found := FindClose(path[index + 1..]);
        if found.Some? {
          var offset := found.value;
          var inner := path[index + 1..index + 1 + offset];
          assert inner == path[index + 1..][..offset];
          assert path[index..][offset + 2..] == path[index + offset + 2..];
          names := names + [TrimStars(inner)];
          index := index + offset + 2;
          continue;
        }
      }
      index := index + 1;
    }
  }

  /** The scanner of the document generator: written a second time, and required to agree. */
  method PlaceholderNames(path: string) returns (names: seq<string>)
    ensures names == Names(path)
  {
    names := [];
    var index := 0;
    while index < |path|
      invariant 0 <= index <= |path|
      invariant names + Names(path[index..]) == Names(path)
    {
      assert path[index..][1..] == path[index + 1..];
      if path[index] == '{' {
        var found := FindClose(path[index + 1..]);
        if found.Some? {
          var offset := found.value;
          var inner := path[index + 1..index + 1 + offset];
          assert inner == path[index + 1..][..offset];
          assert path[index..][offset + 2..] == path[index + offset + 2..];
          names := names + [TrimStars(inner)];
          index := index + offset + 2;
          continue;
        }
      }
      index := index + 1;
    }
  }

  // ---- Printing ----

  /** A path in pieces: literal text, a parameter, or a parameter taking the rest of the path. */
  datatype Piece = Literal(text: string) | Param(name: string) | Rest(name: string)

  /** Literals open no brace; names close none and start with no star. */
  predicate PieceOk(p: Piece) {
    match p
    case Literal(text) => '{' !in text
    case Param(name) => '}' !in name && !("*" <= name)
    case Rest(name) => '}' !in name && !("*" <= name)
  }

  function PrintPiece(p: Piece): string {
    match p
    case Literal(text) => text
    case Param(name) => "{" + name + "}"
    case Rest(name) => "{*" + name + "}"
  }

  function Print(pieces: seq<Piece>): string
  {
    if pieces == [] then "" else PrintPiece(pieces[0]) + Print(pieces[1..])
  }

  function NamesOf(pieces: seq<Piece>): seq<string>
  {
    if pieces == [] then []
    else (if pieces[0].Literal? then [] else [pieces[0].name]) + NamesOf(pieces[1..])
  }

  lemma {:induction false} LiteralHasNoNames(text: string, rest: string)
    requires '{' !in text
    ensures Names(text + rest) == Names(rest)
    decreases |text|
  {
    if text == "" {
      assert text + rest == rest;
    } else {
      assert (text + rest)[1..] == text[1..] + rest;
      LiteralHasNoNames(text[1..], rest);
    }
  }

  lemma {:induction false} CloseIsFirst(inner: string, rest: string)
    requires '}' !in inner
    ensures FindClose(inner + "}" + rest) == Some(|inner|)
  {
    var s := inner + "}" + rest;
    if inner != "" {
      assert s[1..] == inner[1..] + "}" + rest;
      CloseIsFirst(inner[1..], rest);
    }
  }

  /** The text up to the first closing brace is read whole. */
  lemma BracedIsRead(inner: string, rest: string)
    requires '}' !in inner
    ensures Names("{" + inner + "}" + rest) == [TrimStars(inner)] + Names(rest)
  {
    var path := "{" + inner + "}" + rest;
    assert path[1..] == inner + "}" + rest;
    CloseIsFirst(inner, rest);
    assert path[1..][..|inner|] == inner && path[|inner| + 2..] == rest;
  }

  lemma PieceIsRead(p: Piece, rest: string)
    requires PieceOk(p)
    ensures Names(PrintPiece(p) + rest) == (if p.Literal? then [] else [p.name]) + Names(rest)
  {
    match p
    case Literal(text) => LiteralHasNoNames(text, rest);
    case Param(name) => BracedIsRead(name, rest);
    case Rest(name) =>
      assert "{*" + name + "}" == "{" + ("*" + name) + "}";
      assert ("*" + name)[1..] == name;
      BracedIsRead("*" + name, rest);
  }

  /** Scanning inverts printing: the names come back exactly, in order. */
  lemma {:induction false} ScanInvertsPrint(pieces: seq<Piece>)
    requires forall i :: 0 <= i < |pieces| ==> PieceOk(pieces[i])
    ensures Names(Print(pieces)) == NamesOf(pieces)
  {
    if pieces == [] {
    } else {
      ScanInvertsPrint(pieces[1..]);
      PieceIsRead(pieces[0], Print(pieces[1..]));
    }
  }

  /** A path that never closes a brace has no placeholder, however many it opens. */
  lemma {:induction false} UnclosedHasNoNames(path: string)
    requires '}' !in path
    ensures Names(path) == []
    decreases |path|
  {
    if path == "" {
    } else {
      UnclosedHasNoNames(path[1..]);
    }
  }
}
