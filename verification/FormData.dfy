/** Taking fields out of a parsed form, in place. */
module FormData {
  import opened Prelude
  import opened Multipart

  /** The values under a name, in order. */
  function Matching<T>(entries: seq<Entry<T>>, name: string): seq<T>
  {
    if entries == [] then []
    else if entries[0].name == name then [entries[0].value] + Matching(entries[1..], name)
    else Matching(entries[1..], name)
  }

  /** The entries under other names, in order. */
  function Others<T>(entries: seq<Entry<T>>, name: string): seq<Entry<T>>
  {
    if entries == [] then []
    else if entries[0].name == name then Others(entries[1..], name) else [entries[0]] + Others(entries[1..], name)
  }

  lemma {:induction false} TakeAppend<T>(a: seq<Entry<T>>, b: seq<Entry<T>>, name: string)
    ensures Matching(a + b, name) == Matching(a, name) + Matching(b, name)
    ensures Others(a + b, name) == Others(a, name) + Others(b, name)
  {
    if a == [] {
      assert a + b == b;
    } else {
      assert (a + b)[1..] == a[1..] + b && (a + b)[0] == a[0];
      TakeAppend(a[1..], b, name);
      ConcatAssoc([a[0].value], Matching(a[1..], name), Matching(b, name));
      ConcatAssoc([a[0]], Others(a[1..], name), Others(b, name));
    }
  }

  function Labelled<T>(name: string, values: seq<T>): seq<Entry<T>>
  {
    if values == [] then [] else [Entry(name, values[0])] + Labelled(name, values[1..])
  }

  /** What was taken and what is left are together what was there. */
  lemma {:induction false} TakeConserves<T>(entries: seq<Entry<T>>, name: string)
    ensures multiset(Labelled(name, Matching(entries, name))) + multiset(Others(entries, name)) == multiset(entries)
  {
    if entries == [] {
    } else {
      TakeConserves(entries[1..], name);
      assert entries == [entries[0]] + entries[1..];
      if entries[0].name == name {
        assert Matching(entries, name)[1..] == Matching(entries[1..], name);
      }
    }
  }

  lemma TakeOne<T>(e: Entry<T>, name: string)
    ensures Matching([e], name) == if e.name == name then [e.value] else []
    ensures Others([e], name) == if e.name == name then [] else [e]
  {
    assert [e][1..] == [];
  }

  /** A second take of the same name finds nothing. */
  lemma {:induction false} TakenIsGone<T>(entries: seq<Entry<T>>, name: string)
    ensures Matching(Others(entries, name), name) == [] && Others(Others(entries, name), name) == Others(entries, name)
  {
    if entries == [] {
    } else {
      TakenIsGone(entries[1..], name);
      if entries[0].name != name {
        TakeAppend([entries[0]], Others(entries[1..], name), name);
        TakeOne(entries[0], name);
      }
    }
  }

  /** Moving one entry out of the middle. */
  lemma TakeStep<T>(entries: seq<Entry<T>>, i: nat, name: string)
    requires i < |entries|
    ensures Matching(entries[..i + 1], name) ==
            Matching(entries[..i], name) + if entries[i].name == name then [entries[i].value] else []
    ensures Others(entries[..i + 1], name) ==
            Others(entries[..i], name) + if entries[i].name == name then [] else [entries[i]]
  {
    assert entries[..i + 1] == entries[..i] + [entries[i]];
    TakeAppend(entries[..i], [entries[i]], name);
    TakeOne(entries[i], name);
  }

  /** The values are the parsed texts, one for each and in order. */
  ghost predicate ParsedFrom<T>(values: seq<T>, texts: seq<string>, parse: string -> Option<T>) {
    |values| == |texts| && forall i :: 0 <= i < |texts| ==> parse(texts[i]) == Some(values[i])
  }

  /** A file taken into memory, or handed over as the spool it is in. */
  datatype FileBytes = FileBytes(bytes: seq<byte>, filename: Option<string>, contentType: Option<string>)

  datatype UploadFile = UploadFile(filename: Option<string>, contentType: Option<string>, size: nat, storage: Spool)

  function IntoBytes(part: FilePart): FileBytes {
    FileBytes(part.storage.contents, part.filename, part.contentType)
  }

  function IntoUpload(part: FilePart): UploadFile {
    UploadFile(part.filename, part.contentType, part.size, part.storage)
  }

  function Each<S, T>(items: seq<S>, f: S -> T): seq<T>
  {
    if items == [] then [] else [f(items[0])] + Each(items[1..], f)
  }

  lemma {:induction false} EachAppend<S, T>(a: seq<S>, b: seq<S>, f: S -> T)
    ensures Each(a + b, f) == Each(a, f) + Each(b, f)
  {
    if a == [] {
      assert a + b == b;
    } else {
      assert (a + b)[1..] == a[1..] + b;
      EachAppend(a[1..], b, f);
    }
  }

  // ---- One take ----

  /** A take of the fields under a name; `accepts` tells which values it can parse. */
  datatype Request<!T> = Request(name: string, accepts: T -> bool)

  function Parsing<T>(name: string, parse: string -> Option<T>): Request<string> {
    Request(name, (text: string) => parse(text).Some?)
  }

  predicate Refused<T>(e: Entry<T>, req: Request<T>) {
    e.name == req.name && !req.accepts(e.value)
  }

  predicate NoneRefused<T>(entries: seq<Entry<T>>, k: nat, req: Request<T>)
    requires k <= |entries|
  {
    forall i :: 0 <= i < k ==> !Refused(entries[i], req)
  }

  /** The first entry under the name whose value does not parse, or the number of entries. */
  function FirstRefused<T>(entries: seq<Entry<T>>, req: Request<T>): (k: nat)
    ensures k <= |entries| && (k < |entries| ==> Refused(entries[k], req))
    ensures NoneRefused(entries, k, req)
  {
    if entries == [] || Refused(entries[0], req) then 0 else 1 + FirstRefused(entries[1..], req)
  }

  /** The entries under a name. */
  function Under<T>(entries: seq<Entry<T>>, name: string): seq<Entry<T>> {
    Labelled(name, Matching(entries, name))
  }

  /** What a take hands out: every entry under its name, or nothing if it fails. */
  function Returned<T>(entries: seq<Entry<T>>, req: Request<T>): seq<Entry<T>> {
    if FirstRefused(entries, req) == |entries| then Under(entries, req.name) else []
  }

  /** What a take leaves. One that fails leaves everything behind the entry it failed on. */
  function Left<T>(entries: seq<Entry<T>>, req: Request<T>): seq<Entry<T>> {
    var k := FirstRefused(entries, req);
    if k == |entries| then Others(entries, req.name) else Others(entries[..k], req.name) + entries[k + 1..]
  }

  /** What a take drops: if it fails, the entries under its name up to the one it failed on. */
  function Lost<T>(entries: seq<Entry<T>>, req: Request<T>): seq<Entry<T>> {
    var k := FirstRefused(entries, req);
    if k == |entries| then [] else Under(entries[..k + 1], req.name)
  }

  /** A take that fails on `bad`, all before it being fine. */
  lemma StopsAt<T>(before: seq<Entry<T>>, bad: Entry<T>, after: seq<Entry<T>>, req: Request<T>)
    requires NoneRefused(before, |before|, req) && Refused(bad, req)
    ensures var all := before + [bad] + after;
            && FirstRefused(all, req) == |before| && Left(all, req) == Others(before, req.name) + after
            && Returned(all, req) == [] && Lost(all, req) == Under(before + [bad], req.name)
  {
    var all := before + [bad] + after;
    assert all[|before|] == bad && forall i :: 0 <= i < |before| ==> all[i] == before[i];
    assert all[..|before|] == before && all[..|before| + 1] == before + [bad] && all[|before| + 1..] == after;
  }

  /** A failing take splits the entries around the one it fails on. */
  lemma SplitAtStop<T>(entries: seq<Entry<T>>, req: Request<T>)
    returns (before: seq<Entry<T>>, bad: Entry<T>, after: seq<Entry<T>>)
    requires FirstRefused(entries, req) < |entries|
    ensures entries == before + [bad] + after && NoneRefused(before, |before|, req) && Refused(bad, req)
  {
    var k := FirstRefused(entries, req);
    before, bad, after := entries[..k], entries[k], entries[k + 1..];
  }

  /** Every entry is handed out, dropped or left, once. */
  lemma TakeAccount<T>(entries: seq<Entry<T>>, req: Request<T>)
    ensures multiset(Returned(entries, req)) + multiset(Lost(entries, req)) + multiset(Left(entries, req))
         == multiset(entries)
  {
    if FirstRefused(entries, req) == |entries| {
      TakeConserves(entries, req.name);
    } else {
      var before, bad, after := SplitAtStop(entries, req);
      StopsAt(before, bad, after, req);
      StoppedAccount(before, bad, after, req.name);
    }
  }

  lemma StoppedAccount<T>(before: seq<Entry<T>>, bad: Entry<T>, after: seq<Entry<T>>, name: string)
    requires bad.name == name
    ensures multiset(Under(before + [bad], name)) + multiset(Others(before, name) + after)
         == multiset(before + [bad] + after)
  {
    TakeConserves(before + [bad], name);
    TakeAppend(before, [bad], name);
    TakeOne(bad, name);
    assert Others(before + [bad], name) == Others(before, name);
    PartsAreWhole(Under(before + [bad], name), Others(before, name), before + [bad], after);
  }

  lemma PartsAreWhole<T>(lost: seq<T>, kept: seq<T>, before: seq<T>, after: seq<T>)
    requires multiset(lost) + multiset(kept) == multiset(before)
    ensures multiset(lost) + multiset(kept + after) == multiset(before + after)
  {}

  /** A take drops nothing exactly if it can parse every value under its name. */
  lemma LostIff<T>(entries: seq<Entry<T>>, req: Request<T>)
    ensures Lost(entries, req) == [] <==> FirstRefused(entries, req) == |entries|
  {
    var k := FirstRefused(entries, req);
    if k < |entries| {
      TakeStep(entries, k, req.name);
      assert Matching(entries[..k + 1], req.name) != [];
    }
  }

  datatype TakeError = InvalidValue

  /** Where the in-place scan stands: `k` original entries are decided, of which the kept ones
      are in front and the undecided ones behind. */
  ghost predicate ScanAt<T>(all: seq<Entry<T>>, k: nat, name: string, now: seq<Entry<T>>, index: nat) {
    k <= |all| && index == |Others(all[..k], name)| && now == Others(all[..k], name) + all[k..]
  }

  /** Removing the entry at the scan position, or stepping over it, decides one more. */
  lemma ScanStep<T>(all: seq<Entry<T>>, k: nat, name: string, now: seq<Entry<T>>, index: nat)
    requires ScanAt(all, k, name, now, index) && index < |now|
    ensures k < |all| && now[index] == all[k]
    ensures all[k].name == name ==> ScanAt(all, k + 1, name, now[..index] + now[index + 1..], index)
                                    && Matching(all[..k + 1], name) == Matching(all[..k], name) + [all[k].value]
    ensures all[k].name != name ==> ScanAt(all, k + 1, name, now, index + 1)
                                    && Matching(all[..k + 1], name) == Matching(all[..k], name)
  {
    TakeStep(all, k, name);
    assert now[index..] == all[k..];
    assert all[k..] == [all[k]] + all[k + 1..];
  }

  /** Where the scan stands when it has just removed the first entry it cannot parse. */
  lemma StoppedTake<T>(all: seq<Entry<T>>, k: nat, now: seq<Entry<T>>, index: nat, req: Request<T>)
    requires k < |all| && NoneRefused(all, k, req) && Refused(all[k], req)
    requires ScanAt(all, k + 1, req.name, now, index)
    ensures FirstRefused(all, req) == k && now == Left(all, req)
  {
    TakeStep(all, k, req.name);
    assert Others(all[..k], req.name) + [] == Others(all[..k], req.name);
  }

  class MultipartForm {
    var texts: seq<Entry<string>>
    var files: seq<Entry<FilePart>>

    constructor (form: Form)
      ensures texts == form.texts && files == form.files
    {
      texts := form.texts;
      files := form.files;
    }

    /** Removes and parses every text field called `name`. On success all of them are gone and
        parsed, in order. On the first value that does not parse, the fields up to and including
        it are gone and the later ones are still there. */
    method TakeFormValues<T>(name: string, parse: string -> Option<T>) returns (r: Result<seq<T>, TakeError>)
      modifies this`texts
      ensures r.Ok? <==> NoneRefused(old(texts), |old(texts)|, Parsing(name, parse))
      ensures r.Ok? ==> ParsedFrom(r.value, Matching(old(texts), name), parse)
      ensures r.Ok? ==> texts == Others(old(texts), name)
      ensures texts == Left(old(texts), Parsing(name, parse))
    {
      var values: seq<T> := [];
      var index := 0;
      ghost var all := texts;
      ghost var k := 0;
      while index < |texts|
        invariant ScanAt(all, k, name, texts, index) && NoneRefused(all, k, Parsing(name, parse))
        invariant ParsedFrom(values, Matching(all[..k], name), parse)
        decreases |texts| - index
      {
        ScanStep(all, k, name, texts, index);
        if texts[index].name == name {
          var value := texts[index].value;
          texts := texts[..index] + texts[index + 1..];
          var parsed := parse(value);
          if parsed.None? {
            StoppedTake(all, k, texts, index, Parsing(name, parse));
            return Err(InvalidValue);
          }
          values := values + [parsed.value];
        } else {
          index := index + 1;
        }
        k := k + 1;
      }
      assert all[..k] == all;
      return Ok(values);
    }

    /** Removes every file called `name` and reads each into memory. */
    method TakeFileBytesList(name: string) returns (out: seq<FileBytes>)
      modifies this`files
      ensures files == Others(old(files), name)
      ensures out == Each(Matching(old(files), name), IntoBytes)
    {
      var parts := RemoveFiles(name);
      out := [];
      for i := 0 to |parts|
        invariant out == Each(parts[..i], IntoBytes) && files == Others(old(files), name)
      {
        assert parts[..i + 1] == parts[..i] + [parts[i]];
        EachAppend(parts[..i], [parts[i]], IntoBytes);
        out := out + [IntoBytes(parts[i])];
      }
      assert parts[..|parts|] == parts;
    }

    /** Removes every file called `name`, keeping each in its spool. */
    method TakeUploadFileList(name: string) returns (out: seq<UploadFile>)
      modifies this`files
      ensures files == Others(old(files), name)
      ensures out == Each(Matching(old(files), name), IntoUpload)
    {
      var parts := RemoveFiles(name);
      out := [];
      for i := 0 to |parts|
        invariant out == Each(parts[..i], IntoUpload) && files == Others(old(files), name)
      {
        assert parts[..i + 1] == parts[..i] + [parts[i]];
        EachAppend(parts[..i], [parts[i]], IntoUpload);
        out := out + [IntoUpload(parts[i])];
      }
      assert parts[..|parts|] == parts;
    }

    method RemoveFiles(name: string) returns (parts: seq<FilePart>)
      modifies this`files
      ensures files == Others(old(files), name) && parts == Matching(old(files), name)
    {
      parts := [];
      var index := 0;
      ghost var all := files;
      ghost var k := 0;
      while index < |files|
        invariant ScanAt(all, k, name, files, index)
        invariant parts == Matching(all[..k], name)
        decreases |files| - index
      {
        ScanStep(all, k, name, files, index);
        if files[index].name == name {
          parts := parts + [files[index].value];
          files := files[..index] + files[index + 1..];
        } else {
          index := index + 1;
        }
        k := k + 1;
      }
      assert all[..k] == all;
    }
  }

  // ---- Takes of different names ----

  /** A take decides one entry after the other. */
  lemma LeftStep<T>(entries: seq<Entry<T>>, req: Request<T>)
    requires entries != []
    ensures Left(entries, req) ==
            if Refused(entries[0], req) then entries[1..]
            else if entries[0].name == req.name then Left(entries[1..], req)
            else [entries[0]] + Left(entries[1..], req)
  {
    var (e, rest) := (entries[0], entries[1..]);
    assert entries == [e] + rest;
    if Refused(e, req) {
      StopsAt([], e, rest, req);
      assert [] + [e] + rest == entries && [] + rest == rest;
    } else if FirstRefused(rest, req) < |rest| {
      var before, bad, after := SplitAtStop(rest, req);
      StopsAt(before, bad, after, req);
      StepBeforeStop(e, before, bad, after, req);
      OthersCons(e, before, after, req.name);
    }
  }

  lemma StepBeforeStop<T>(e: Entry<T>, before: seq<Entry<T>>, bad: Entry<T>, after: seq<Entry<T>>, req: Request<T>)
    requires !Refused(e, req) && NoneRefused(before, |before|, req) && Refused(bad, req)
    ensures Left([e] + (before + [bad] + after), req) == Others([e] + before, req.name) + after
  {
    NoneRefusedCons(e, before, req);
    StopsAt([e] + before, bad, after, req);
    ConcatAssoc([e], before, [bad]);
    ConcatAssoc([e], before + [bad], after);
  }

  lemma NoneRefusedCons<T>(e: Entry<T>, before: seq<Entry<T>>, req: Request<T>)
    requires !Refused(e, req) && NoneRefused(before, |before|, req)
    ensures NoneRefused([e] + before, 1 + |before|, req)
  {
    assert forall i :: 0 < i < 1 + |before| ==> ([e] + before)[i] == before[i - 1];
  }

  lemma OthersCons<T>(e: Entry<T>, before: seq<Entry<T>>, after: seq<Entry<T>>, name: string)
    ensures var left := Others(before, name) + after;
            Others([e] + before, name) + after == if e.name == name then left else [e] + left
  {
    assert ([e] + before)[1..] == before;
    ConcatAssoc([e], Others(before, name), after);
  }

  lemma {:induction false} OtherNamesStay<T>(entries: seq<Entry<T>>, req: Request<T>, name: string)
    requires req.name != name
    ensures Matching(Left(entries, req), name) == Matching(entries, name)
  {
    if entries == [] {
    } else {
      OtherNamesStay(entries[1..], req, name);
      LeftStep(entries, req);
      if entries[0].name != req.name {
        TakeAppend([entries[0]], Left(entries[1..], req), name);
        TakeOne(entries[0], name);
      }
    }
  }

  /** Whether a take succeeds depends on the values under its name alone. */
  lemma {:induction false} SucceedsIff<T>(entries: seq<Entry<T>>, req: Request<T>)
    ensures FirstRefused(entries, req) == |entries| <==> forall v :: v in Matching(entries, req.name) ==> req.accepts(v)
  {
    if entries == [] {
    } else {
      SucceedsIff(entries[1..], req);
    }
  }

  lemma {:induction false} LeftsCommute<T>(entries: seq<Entry<T>>, a: Request<T>, b: Request<T>)
    requires a.name != b.name
    ensures Left(Left(entries, a), b) == Left(Left(entries, b), a)
  {
    if entries == [] {
    } else {
      var (e, rest) := (entries[0], entries[1..]);
      LeftsCommute(rest, a, b);
      LeftStep(entries, a);
      LeftStep(entries, b);
      if e.name == a.name {
        KeptStep(e, Left(rest, b), a);
      } else if e.name == b.name {
        KeptStep(e, Left(rest, a), b);
      } else {
        KeptStep(e, Left(rest, a), b);
        KeptStep(e, Left(rest, b), a);
      }
    }
  }

  lemma KeptStep<T>(e: Entry<T>, rest: seq<Entry<T>>, req: Request<T>)
    ensures Left([e] + rest, req) ==
            if Refused(e, req) then rest
            else if e.name == req.name then Left(rest, req)
            else [e] + Left(rest, req)
  {
    LeftStep([e] + rest, req);
    assert ([e] + rest)[1..] == rest;
  }

  /** Takes of different names do not disturb each other, even if one fails or both do: each
      hands out what it would have handed out alone, and their order leaves the same entries. */
  lemma TakesCommute<T>(entries: seq<Entry<T>>, a: Request<T>, b: Request<T>)
    requires a.name != b.name
    ensures Returned(Left(entries, a), b) == Returned(entries, b)
    ensures Left(Left(entries, a), b) == Left(Left(entries, b), a)
  {
    OtherNamesStay(entries, a, b.name);
    SucceedsIff(Left(entries, a), b);
    SucceedsIff(entries, b);
    LeftsCommute(entries, a, b);
  }

  // ---- Any sequence of takes ----

  /** What a series of takes hands out, drops and leaves. A failing take does not end it. */
  function ReturnedByAll<T>(entries: seq<Entry<T>>, requests: seq<Request<T>>): seq<Entry<T>>
    decreases |requests|
  {
    if requests == [] then []
    else Returned(entries, requests[0]) + ReturnedByAll(Left(entries, requests[0]), requests[1..])
  }

  function LostByAll<T>(entries: seq<Entry<T>>, requests: seq<Request<T>>): seq<Entry<T>>
    decreases |requests|
  {
    if requests == [] then []
    else Lost(entries, requests[0]) + LostByAll(Left(entries, requests[0]), requests[1..])
  }

  function LeftByAll<T>(entries: seq<Entry<T>>, requests: seq<Request<T>>): seq<Entry<T>>
    decreases |requests|
  {
    if requests == [] then entries else LeftByAll(Left(entries, requests[0]), requests[1..])
  }

  /** After any takes, failing ones included, every parsed entry was handed out, was dropped by
      the failing take that reached it, or is still there, once. */
  lemma {:induction false} TakesAccount<T>(entries: seq<Entry<T>>, requests: seq<Request<T>>)
    ensures multiset(ReturnedByAll(entries, requests)) + multiset(LostByAll(entries, requests))
          + multiset(LeftByAll(entries, requests)) == multiset(entries)
    decreases |requests|
  {
    if requests == [] {
    } else {
      TakeAccount(entries, requests[0]);
      TakesAccount(Left(entries, requests[0]), requests[1..]);
    }
  }

  /** The first take that asks for the entry's name can parse its value. */
  predicate AcceptedIfAsked<T>(e: Entry<T>, requests: seq<Request<T>>)
    decreases |requests|
  {
    if requests == [] then true
    else if requests[0].name == e.name then requests[0].accepts(e.value)
    else AcceptedIfAsked(e, requests[1..])
  }

  predicate AllAccepted<T>(entries: seq<Entry<T>>, requests: seq<Request<T>>) {
    forall i :: 0 <= i < |entries| ==> AcceptedIfAsked(entries[i], requests)
  }

  /** Taken and remaining entries are the parsed ones if and only if every value asked for
      parses where it is first asked for. */
  lemma TakesConserveIff<T>(entries: seq<Entry<T>>, requests: seq<Request<T>>)
    ensures multiset(ReturnedByAll(entries, requests)) + multiset(LeftByAll(entries, requests)) == multiset(entries)
       <==> AllAccepted(entries, requests)
  {
    TakesAccount(entries, requests);
    LostByAllIff(entries, requests);
    var (kept, lost) := (multiset(ReturnedByAll(entries, requests)) + multiset(LeftByAll(entries, requests)),
                         multiset(LostByAll(entries, requests)));
    assert kept + lost == multiset(entries);
    assert |kept| + |lost| == |kept + lost|;
  }

  lemma {:induction false} LostByAllIff<T>(entries: seq<Entry<T>>, requests: seq<Request<T>>)
    ensures LostByAll(entries, requests) == [] <==> AllAccepted(entries, requests)
    decreases |requests|
  {
    if requests == [] {
    } else {
      var (req, k) := (requests[0], FirstRefused(entries, requests[0]));
      LostIff(entries, req);
      if k < |entries| {
        assert !AcceptedIfAsked(entries[k], requests);
      } else {
        LostByAllIff(Others(entries, req.name), requests[1..]);
        AskedLater(entries, requests);
      }
    }
  }

  /** After a take that failed on nothing, what counts is the entries under other names. */
  lemma AskedLater<T>(entries: seq<Entry<T>>, requests: seq<Request<T>>)
    requires requests != [] && FirstRefused(entries, requests[0]) == |entries|
    ensures AllAccepted(entries, requests) <==> AllAccepted(Others(entries, requests[0].name), requests[1..])
  {
    var others := Others(entries, requests[0].name);
    OthersAre(entries, requests[0].name);
    if AllAccepted(others, requests[1..]) {
      forall i | 0 <= i < |entries|
        ensures AcceptedIfAsked(entries[i], requests)
      {
        EntryAskedLater(entries, requests, i);
      }
    }
    if AllAccepted(entries, requests) {
      forall j | 0 <= j < |others|
        ensures AcceptedIfAsked(others[j], requests[1..])
      {
        var i :| 0 <= i < |entries| && entries[i] == others[j];
        assert AcceptedIfAsked(entries[i], requests);
      }
    }
  }

  lemma EntryAskedLater<T>(entries: seq<Entry<T>>, requests: seq<Request<T>>, i: nat)
    requires requests != [] && FirstRefused(entries, requests[0]) == |entries| && i < |entries|
    requires AllAccepted(Others(entries, requests[0].name), requests[1..])
    ensures AcceptedIfAsked(entries[i], requests)
  {
    assert !Refused(entries[i], requests[0]);
    if entries[i].name != requests[0].name {
      var others := Others(entries, requests[0].name);
      OthersAre(entries, requests[0].name);
      assert entries[i] in others;
      var j :| 0 <= j < |others| && others[j] == entries[i];
      assert AcceptedIfAsked(others[j], requests[1..]);
    }
  }

  lemma {:induction false} OthersAre<T>(entries: seq<Entry<T>>, name: string)
    ensures forall e :: e in Others(entries, name) <==> e in entries && e.name != name
  {
    if entries == [] {
    } else {
      OthersAre(entries[1..], name);
      assert entries == [entries[0]] + entries[1..];
    }
  }

  lemma RunOfOne<T>(entries: seq<Entry<T>>, req: Request<T>)
    ensures ReturnedByAll(entries, [req]) == Returned(entries, req) && LostByAll(entries, [req]) == Lost(entries, req)
    ensures LeftByAll(entries, [req]) == Left(entries, req)
  {
    assert [req][1..] == [];
  }

  /** A take that fails on its second field hands out neither, and leaves neither. */
  lemma FailedTakeDropsFields()
    ensures var texts := [Entry("n", "1"), Entry("n", "x")];
            var numbers := Request("n", (text: string) => text != "x");
            && ReturnedByAll(texts, [numbers]) == [] && LeftByAll(texts, [numbers]) == []
            && LostByAll(texts, [numbers]) == texts
  {
    var (first, second) := (Entry("n", "1"), Entry("n", "x"));
    var numbers := Request("n", (text: string) => text != "x");
    assert "1"[0] != "x"[0];
    StopsAt([first], second, [], numbers);
    assert [first] + [second] + [] == [first, second];
    RunOfOne([first, second], numbers);
    TakeOne(first, "n");
    UnderAll(first, second);
  }

  lemma UnderAll<T>(a: Entry<T>, b: Entry<T>)
    requires a.name == b.name
    ensures Under([a] + [b], a.name) == [a, b]
  {
    TakeAppend([a], [b], a.name);
    TakeOne(a, a.name);
    TakeOne(b, a.name);
    var values := Matching([a] + [b], a.name);
    assert values == [a.value, b.value] && values[1..] == [b.value] && [b.value][1..] == [];
    assert Labelled(a.name, values) == [a] + Labelled(a.name, [b.value]) == [a] + [b];
  }

  predicate AllOk<T, E>(results: seq<Result<T, E>>) {
    forall i :: 0 <= i < |results| ==> results[i].Ok?
  }

  lemma AllOkStep<T, E>(r: Result<T, E>, rest: seq<Result<T, E>>)
    ensures AllOk([r] + rest) <==> r.Ok? && AllOk(rest)
  {
    var all := [r] + rest;
    assert all[0] == r && forall i :: 0 <= i < |rest| ==> all[i + 1] == rest[i];
    assert forall i :: 0 < i < |all| ==> all[i] == rest[i - 1];
  }

  function Requests<T>(fields: seq<(string, string -> Option<T>)>): seq<Request<string>>
  {
    if fields == [] then [] else [Parsing(fields[0].0, fields[0].1)] + Requests(fields[1..])
  }

  /** Several takes on one form, one after the other. They all succeed in exactly the cases in
      which what they handed out and what is left are the parsed fields. */
  method TakeEach<T>(form: MultipartForm, fields: seq<(string, string -> Option<T>)>)
    returns (results: seq<Result<seq<T>, TakeError>>)
    modifies form`texts
    ensures |results| == |fields| && form.texts == LeftByAll(old(form.texts), Requests(fields))
    ensures AllOk(results) <==> AllAccepted(old(form.texts), Requests(fields))
    decreases |fields|
  {
    if fields == [] {
      return [];
    }
    ghost var was := form.texts;
    var r := form.TakeFormValues(fields[0].0, fields[0].1);
    var rest := TakeEach(form, fields[1..]);
    results := [r] + rest;
    LostIff(was, Requests(fields)[0]);
    LostByAllIff(was, Requests(fields));
    LostByAllIff(Left(was, Requests(fields)[0]), Requests(fields[1..]));
    assert Requests(fields)[1..] == Requests(fields[1..]);
    AllOkStep(r, rest);
  }

  // ---- From body to handler ----

  /** The part belongs to the field; a part without a name belongs to the field with the empty one. */
  predicate IsCalled(p: FormPart, name: string) {
    p.name == Some(name) || (p.name.None? && name == "")
  }

  /** What the parts of one field are worth, in the order of the body. */
  function TextsCalled(parts: seq<FormPart>, name: string): seq<string>
  {
    if parts == [] then [] else TextsCalled(parts[..|parts| - 1], name) + TextCalled(parts[|parts| - 1], name)
  }

  function TextCalled(p: FormPart, name: string): seq<string> {
    match p.content
    case Text(text) => if IsCalled(p, name) then [text] else []
    case File(_) => []
  }

  function FilesCalled(parts: seq<FormPart>, name: string): seq<FileBytes>
  {
    if parts == [] then [] else FilesCalled(parts[..|parts| - 1], name) + FileCalled(parts[|parts| - 1], name)
  }

  function FileCalled(p: FormPart, name: string): seq<FileBytes> {
    match p.content
    case Text(_) => []
    case File(chunks) => if IsCalled(p, name) then [FileBytes(Flatten(chunks), p.filename, p.contentType)] else []
  }

  function UploadsCalled(parts: seq<FormPart>, name: string): seq<UploadFile>
  {
    if parts == [] then [] else UploadsCalled(parts[..|parts| - 1], name) + UploadCalled(parts[|parts| - 1], name)
  }

  /** An upload keeps file name and content type, and its spool holds the file from the start. */
  function UploadCalled(p: FormPart, name: string): seq<UploadFile> {
    match p.content
    case Text(_) => []
    case File(chunks) =>
      var bytes := Flatten(chunks);
      if IsCalled(p, name) then [UploadFile(p.filename, p.contentType, |bytes|, Spool(bytes, 0))] else []
  }

  lemma {:induction false} TextsCalledAreTaken(parts: seq<FormPart>, name: string)
    ensures Matching(Texts(parts), name) == TextsCalled(parts, name)
    decreases |parts|
  {
    if parts == [] {
    } else {
      var n := |parts| - 1;
      TextsCalledAreTaken(parts[..n], name);
      TakeAppend(Texts(parts[..n]), TextOf(parts[n]), name);
      if TextOf(parts[n]) != [] {
        TakeOne(TextOf(parts[n])[0], name);
      }
    }
  }

  lemma {:induction false} FilesCalledAreTaken(parts: seq<FormPart>, name: string)
    ensures Each(Matching(Files(parts), name), IntoBytes) == FilesCalled(parts, name)
    decreases |parts|
  {
    if parts == [] {
    } else {
      var n := |parts| - 1;
      FilesCalledAreTaken(parts[..n], name);
      TakeAppend(Files(parts[..n]), FileOf(parts[n]), name);
      EachAppend(Matching(Files(parts[..n]), name), Matching(FileOf(parts[n]), name), IntoBytes);
      FileTaken(parts[n], name);
    }
  }

  lemma {:induction false} UploadsCalledAreTaken(parts: seq<FormPart>, name: string)
    ensures Each(Matching(Files(parts), name), IntoUpload) == UploadsCalled(parts, name)
    decreases |parts|
  {
    if parts == [] {
    } else {
      var n := |parts| - 1;
      UploadsCalledAreTaken(parts[..n], name);
      TakeAppend(Files(parts[..n]), FileOf(parts[n]), name);
      EachAppend(Matching(Files(parts[..n]), name), Matching(FileOf(parts[n]), name), IntoUpload);
      FileTaken(parts[n], name);
    }
  }

  lemma FileTaken(p: FormPart, name: string)
    ensures Each(Matching(FileOf(p), name), IntoBytes) == FileCalled(p, name)
    ensures Each(Matching(FileOf(p), name), IntoUpload) == UploadCalled(p, name)
  {
    if FileOf(p) != [] {
      TakeOne(FileOf(p)[0], name);
      assert FileOf(p) == [FileOf(p)[0]];
      assert [Stored(p)][1..] == [];
    }
  }

  /** From body to handler: a form within its limits, parsed and then taken by name, gives
      exactly the contents of the file parts of that name, whatever the chunking. */
  method TakeParsedFiles(parts: seq<FormPart>, cfg: Config, name: string)
    returns (r: Result<seq<FileBytes>, UploadError>)
    requires CountersFit(parts, cfg)
    ensures r.Ok? <==> WithinLimits(parts, cfg)
    ensures r.Ok? ==> r.value == FilesCalled(parts, name)
  {
    var parsed := Parse(parts, cfg);
    if parsed.Err? {
      return Err(parsed.error);
    }
    var form := new MultipartForm(parsed.value);
    var out := form.TakeFileBytesList(name);
    FilesCalledAreTaken(parts, name);
    return Ok(out);
  }

  /** The same for files kept in their spools. */
  method TakeParsedUploads(parts: seq<FormPart>, cfg: Config, name: string)
    returns (r: Result<seq<UploadFile>, UploadError>)
    requires CountersFit(parts, cfg)
    ensures r.Ok? <==> WithinLimits(parts, cfg)
    ensures r.Ok? ==> r.value == UploadsCalled(parts, name)
  {
    var parsed := Parse(parts, cfg);
    if parsed.Err? {
      return Err(parsed.error);
    }
    var form := new MultipartForm(parsed.value);
    var out := form.TakeUploadFileList(name);
    UploadsCalledAreTaken(parts, name);
    return Ok(out);
  }

  /** And for texts: a form within its limits, parsed and then taken by name, gives the values
      of exactly the text parts of that name, if all of them parse. */
  method TakeParsedTexts<T>(parts: seq<FormPart>, cfg: Config, name: string, parse: string -> Option<T>)
    returns (r: Result<Result<seq<T>, TakeError>, UploadError>)
    requires CountersFit(parts, cfg)
    ensures r.Ok? <==> WithinLimits(parts, cfg)
    ensures r.Ok? ==> (r.value.Ok? <==> forall text :: text in TextsCalled(parts, name) ==> parse(text).Some?)
    ensures r.Ok? && r.value.Ok? ==> ParsedFrom(r.value.value, TextsCalled(parts, name), parse)
  {
    var parsed := Parse(parts, cfg);
    if parsed.Err? {
      return Err(parsed.error);
    }
    var form := new MultipartForm(parsed.value);
    var out := form.TakeFormValues(name, parse);
    TextsCalledAreTaken(parts, name);
    SucceedsIff(Texts(parts), Parsing(name, parse));
    return Ok(out);
  }
}
