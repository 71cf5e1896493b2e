/** Parsing a `multipart/form-data` body: five budgets, and file parts spooled in batches. */
module Multipart {
  import opened Prelude

  const SPOOL_FLUSH_THRESHOLD := 256 * 1024

  datatype Config = Config(
    maxBodySize: usize,
    maxFileSize: usize,
    maxTextFieldSize: usize,
    maxFiles: usize,
    maxFields: usize)

  /** A part as the stream yields it: a part with a file name is a file, in chunks; any other
      is text, already decoded. A missing field name reads as the empty one. */
  datatype Part = Part(name: Option<string>, filename: Option<string>, contentType: Option<string>, content: Content)

  datatype Content = Text(text: string) | File(chunks: seq<seq<byte>>)

  type FormPart = p: Part | p.filename.Some? <==> p.content.File?
    witness Part(None, None, None, Text(""))

  /** The spool: what was written, and the position the next read or write starts at. */
  datatype Spool = Spool(contents: seq<byte>, position: nat)

  const NEW_SPOOL := Spool([], 0)

  datatype FilePart = FilePart(filename: Option<string>, contentType: Option<string>, storage: Spool, size: nat)

  /** A value beside the name of its field. */
  datatype Entry<T> = Entry(name: string, value: T)

  datatype Form = Form(texts: seq<Entry<string>>, files: seq<Entry<FilePart>>)

  datatype UploadError = TooManyFields | TooManyFiles | FileTooLarge | BodyTooLarge | FieldTooLarge

  // ---- What a body amounts to, chunking aside ----

  function Bytes(p: FormPart): seq<byte>
    requires p.content.File?
  {
    Flatten(p.content.chunks)
  }

  function Size(p: FormPart): nat {
    if p.content.File? then |Bytes(p)| else Utf8Len(p.content.text)
  }

  function TotalSize(parts: seq<FormPart>): nat
  {
    if parts == [] then 0 else TotalSize(parts[..|parts| - 1]) + Size(parts[|parts| - 1])
  }

  function FileCount(parts: seq<FormPart>): nat
  {
    if parts == [] then 0
    else FileCount(parts[..|parts| - 1]) + if parts[|parts| - 1].content.File? then 1 else 0
  }

  /** What a part adds to the form, under its own name or, without one, under the empty name. */
  function TextOf(p: FormPart): seq<Entry<string>> {
    match p
    case Part(Some(name), _, _, Text(text)) => [Entry(name, text)]
    case Part(None, _, _, Text(text)) => [Entry("", text)]
    case Part(_, _, _, File(_)) => []
  }

  function FileOf(p: FormPart): seq<Entry<FilePart>> {
    match p
    case Part(Some(name), _, _, File(_)) => [Entry(name, Stored(p))]
    case Part(None, _, _, File(_)) => [Entry("", Stored(p))]
    case Part(_, _, _, Text(_)) => []
  }

  /** The text parts, in order. */
  function Texts(parts: seq<FormPart>): seq<Entry<string>>
  {
    if parts == [] then [] else Texts(parts[..|parts| - 1]) + TextOf(parts[|parts| - 1])
  }

  /** The file parts, in order, each stored whole and rewound. */
  function Files(parts: seq<FormPart>): seq<Entry<FilePart>>
  {
    if parts == [] then [] else Files(parts[..|parts| - 1]) + FileOf(parts[|parts| - 1])
  }

  function Stored(p: FormPart): FilePart
    requires p.content.File?
  {
    FilePart(p.filename, p.contentType, Spool(Bytes(p), 0), |Bytes(p)|)
  }

  predicate PartWithin(p: FormPart, cfg: Config) {
    Size(p) <= if p.content.File? then cfg.maxFileSize else cfg.maxTextFieldSize
  }

  predicate WithinLimits(parts: seq<FormPart>, cfg: Config) {
    && |parts| <= cfg.maxFields
    && FileCount(parts) <= cfg.maxFiles
    && (forall i :: 0 <= i < |parts| ==> PartWithin(parts[i], cfg))
    && TotalSize(parts) <= cfg.maxBodySize
  }

  // ---- The same in terms of the bytes sent ----

  /** The bytes of one part's content. */
  function Sent(p: FormPart): seq<byte> {
    match p.content
    case Text(text) => Utf8Bytes(text)
    case File(chunks) => Flatten(chunks)
  }

  function AllSent(parts: seq<FormPart>): seq<byte>
  {
    if parts == [] then [] else AllSent(parts[..|parts| - 1]) + Sent(parts[|parts| - 1])
  }

  function OnlyFiles(parts: seq<FormPart>): seq<FormPart>
  {
    if parts == [] then []
    else OnlyFiles(parts[..|parts| - 1]) + if parts[|parts| - 1].content.File? then [parts[|parts| - 1]] else []
  }

  lemma SizeIs(p: FormPart)
    ensures Size(p) == |Sent(p)|
  {
    if p.content.Text? { Utf8LenIs(p.content.text); }
  }

  lemma {:induction false} TotalsAre(parts: seq<FormPart>)
    ensures TotalSize(parts) == |AllSent(parts)| && FileCount(parts) == |OnlyFiles(parts)|
    decreases |parts|
  {
    if parts == [] {
    } else {
      TotalsAre(parts[..|parts| - 1]);
      SizeIs(parts[|parts| - 1]);
    }
  }

  /** The five budgets: the number of parts, the number of files, the bytes of each file, the
      bytes of each text, and the bytes of all parts together. */
  lemma WithinLimitsIff(parts: seq<FormPart>, cfg: Config)
    ensures WithinLimits(parts, cfg) <==>
            && |parts| <= cfg.maxFields && |OnlyFiles(parts)| <= cfg.maxFiles
            && (forall i :: 0 <= i < |parts| && parts[i].content.File? ==> |Sent(parts[i])| <= cfg.maxFileSize)
            && (forall i :: 0 <= i < |parts| && parts[i].content.Text? ==> |Sent(parts[i])| <= cfg.maxTextFieldSize)
            && |AllSent(parts)| <= cfg.maxBodySize
  {
    TotalsAre(parts);
    forall i | 0 <= i < |parts|
      ensures Size(parts[i]) == |Sent(parts[i])|
    {
      SizeIs(parts[i]);
    }
    assert forall i :: 0 <= i < |parts| ==>
      (PartWithin(parts[i], cfg) <==>
       |Sent(parts[i])| <= if parts[i].content.File? then cfg.maxFileSize else cfg.maxTextFieldSize);
  }

  lemma PrefixStep(parts: seq<FormPart>, i: nat)
    requires i < |parts|
    ensures TotalSize(parts[..i + 1]) == TotalSize(parts[..i]) + Size(parts[i])
    ensures FileCount(parts[..i + 1]) == FileCount(parts[..i]) + if parts[i].content.File? then 1 else 0
    ensures Texts(parts[..i + 1]) == Texts(parts[..i]) + TextOf(parts[i])
    ensures Files(parts[..i + 1]) == Files(parts[..i]) + FileOf(parts[i])
  {
    assert parts[..i + 1][..i] == parts[..i];
  }

  lemma TotalsStep(parts: seq<FormPart>, i: nat)
    requires i < |parts|
    ensures TotalSize(parts[..i + 1]) >= TotalSize(parts[..i]) && FileCount(parts[..i + 1]) >= FileCount(parts[..i])
  {
    assert parts[..i + 1][..i] == parts[..i];
  }

  lemma {:induction false} PrefixGrows(parts: seq<FormPart>, i: nat, j: nat)
    requires i <= j <= |parts|
    ensures TotalSize(parts[..i]) <= TotalSize(parts[..j])
    ensures FileCount(parts[..i]) <= FileCount(parts[..j])
    decreases j
  {
    if i == j {
    } else {
      TotalsStep(parts, j - 1);
      PrefixGrows(parts, i, j - 1);
    }
  }

  lemma {:induction false} FilesAreCounted(parts: seq<FormPart>)
    ensures |Files(parts)| == FileCount(parts) <= |parts|
    decreases |parts|
  {
    if parts == [] {
    } else {
      FilesAreCounted(parts[..|parts| - 1]);
    }
  }

  /** If a prefix is over some limit, so is the whole. */
  lemma PrefixDecides(parts: seq<FormPart>, i: nat, cfg: Config)
    requires i <= |parts| && WithinLimits(parts, cfg)
    ensures WithinLimits(parts[..i], cfg)
  {
    PrefixGrows(parts, i, |parts|);
    assert parts[..|parts|] == parts;
  }

  // ---- Spooling ----

  /** `write_all` at the current position. */
  function Write(s: Spool, data: seq<byte>): Spool {
    if s.position > |s.contents| then s
    else
      var end := s.position + |data|;
      Spool(s.contents[..s.position] + data + (if end < |s.contents| then s.contents[end..] else []), end)
  }

  function SpoolFlush(storage: Spool, data: seq<byte>, rewind: bool): Spool {
    var written := if data != [] then Write(storage, data) else storage;
    if rewind then written.(position := 0) else written
  }

  /** Spool and buffer after some chunks: the buffer is flushed when it reaches the threshold. */
  function Spooled(chunks: seq<seq<byte>>): (Spool, seq<byte>)
  {
    if chunks == [] then (NEW_SPOOL, [])
    else
      var (storage, buffer) := Spooled(chunks[..|chunks| - 1]);
      var grown := buffer + chunks[|chunks| - 1];
      if |grown| >= SPOOL_FLUSH_THRESHOLD then (SpoolFlush(storage, grown, false), []) else (storage, grown)
  }

  /** After every chunk, what is spooled followed by what is buffered is the file so far, the
      spool stands at its end, and the buffer is below the threshold; the final flush therefore
      leaves the whole file, rewound. */
  lemma {:induction false} SpoolHoldsTheFile(chunks: seq<seq<byte>>)
    ensures var (storage, buffer) := Spooled(chunks);
            && storage.contents + buffer == Flatten(chunks) && storage.position == |storage.contents|
            && |buffer| < 262_144
            && SpoolFlush(storage, buffer, true) == Spool(Flatten(chunks), 0)
    decreases |chunks|
  {
    var (storage, buffer) := Spooled(chunks);
    if chunks != [] {
      var n := |chunks| - 1;
      SpoolHoldsTheFile(chunks[..n]);
      FlattenStep(chunks, n);
      assert chunks[..n + 1] == chunks;
      var (before, pending) := Spooled(chunks[..n]);
      assert before.contents + pending + chunks[n] == before.contents + (pending + chunks[n]);
    }
    assert SpoolFlush(storage, buffer, true).contents == storage.contents + buffer;
  }

  /** Reading gets as far as chunk `j`. */
  predicate ReadsUpTo(chunks: seq<seq<byte>>, cfg: Config, total: nat, j: nat)
    requires j <= |chunks|
  {
    |Flatten(chunks[..j])| <= cfg.maxFileSize && total + |Flatten(chunks[..j])| <= cfg.maxBodySize
  }

  /** Chunk `j` is the first to break a limit; the file limit is looked at before the body's. */
  ghost predicate StopsReading(chunks: seq<seq<byte>>, cfg: Config, total: nat, j: int, e: UploadError)
    requires 0 <= j < |chunks|
  {
    var after := |Flatten(chunks[..j + 1])|;
    && ReadsUpTo(chunks, cfg, total, j)
    && if after > cfg.maxFileSize then e == FileTooLarge
       else total + after > cfg.maxBodySize && e == BodyTooLarge
  }

  /** The counters hold every chunk that is read, the one that breaks a limit included. */
  predicate ChunksFit(chunks: seq<seq<byte>>, cfg: Config, total: nat) {
    forall j :: 0 <= j < |chunks| && ReadsUpTo(chunks, cfg, total, j) ==>
      total + |Flatten(chunks[..j + 1])| < WORD
  }

  /** A file is over a limit from the chunk on that breaks it. */
  lemma {:induction false} FlattenGrows(chunks: seq<seq<byte>>, i: nat)
    requires i <= |chunks|
    ensures |Flatten(chunks[..i])| <= |Flatten(chunks)|
  {
    assert chunks == chunks[..i] + chunks[i..];
    FlattenAppend(chunks[..i], chunks[i..]);
  }

  /** Reads one file part into a spool under the file and body limits. `total` counts the
      bytes of the body so far. */
  method ReadFile(chunks: seq<seq<byte>>, cfg: Config, total: usize)
    returns (r: Result<(Spool, usize, usize), UploadError>)
    requires total <= cfg.maxBodySize && ChunksFit(chunks, cfg, total)
    ensures r.Ok? <==> |Flatten(chunks)| <= cfg.maxFileSize && total + |Flatten(chunks)| <= cfg.maxBodySize
    ensures r.Ok? ==> r.value == (Spool(Flatten(chunks), 0), |Flatten(chunks)|, total + |Flatten(chunks)|)
    ensures r.Err? ==> exists j :: 0 <= j < |chunks| && StopsReading(chunks, cfg, total, j, r.error)
  {
    var storage := NEW_SPOOL;
    var size: usize := 0;
    var running: usize := total;
    var buffer: seq<byte> := [];
    for i := 0 to |chunks|
      invariant (storage, buffer) == Spooled(chunks[..i])
      invariant size == |Flatten(chunks[..i])| && running == total + size
      invariant ReadsUpTo(chunks, cfg, total, i)
    {
      FlattenStep(chunks, i);
      FlattenGrows(chunks, i + 1);
      size := size + |chunks[i]|;
      running := running + |chunks[i]|;
      if size > cfg.maxFileSize {
        assert StopsReading(chunks, cfg, total, i, FileTooLarge);
        return Err(FileTooLarge);
      }
      if running > cfg.maxBodySize {
        assert StopsReading(chunks, cfg, total, i, BodyTooLarge);
        return Err(BodyTooLarge);
      }
      buffer := buffer + chunks[i];
      assert chunks[..i + 1][..i] == chunks[..i];
      if |buffer| >= SPOOL_FLUSH_THRESHOLD {
        storage := SpoolFlush(storage, buffer, false);
        buffer := [];
      }
    }
    assert chunks[..|chunks|] == chunks;
    SpoolHoldsTheFile(chunks);
    storage := SpoolFlush(storage, buffer, true);
    return Ok((storage, size, running));
  }

  // ---- Parsing ----

  /** Part `k` is the first that breaks a limit, and `e` is the first check it fails: the part
      count, then for a file the file count and its chunks, for a text the body and its own size. */
  ghost predicate Offends(parts: seq<FormPart>, cfg: Config, k: nat, e: UploadError) {
    && k < |parts| && WithinLimits(parts[..k], cfg) && !WithinLimits(parts[..k + 1], cfg)
    && if k + 1 > cfg.maxFields then e == TooManyFields
       else if parts[k].content.File? then
         if FileCount(parts[..k]) >= cfg.maxFiles then e == TooManyFiles
         else
           var chunks := parts[k].content.chunks;
           exists j :: 0 <= j < |chunks| && StopsReading(chunks, cfg, TotalSize(parts[..k]), j, e)
       else if TotalSize(parts[..k + 1]) > cfg.maxBodySize then e == BodyTooLarge
       else e == FieldTooLarge
  }

  lemma OffenceRefusesAll(parts: seq<FormPart>, cfg: Config, k: nat, e: UploadError)
    requires Offends(parts, cfg, k, e)
    ensures !WithinLimits(parts, cfg)
  {
    if WithinLimits(parts, cfg) {
      PrefixDecides(parts, k + 1, cfg);
    }
  }

  /** The counters hold what reading one part adds to them. */
  predicate PartFits(p: FormPart, cfg: Config, total: nat) {
    if p.content.File? then ChunksFit(p.content.chunks, cfg, total) else total + Size(p) < WORD
  }

  /** No counter ever wraps: those of a part are added only if everything before it was within
      the limits, so a long body that is refused early is no exception. */
  predicate CountersFit(parts: seq<FormPart>, cfg: Config) {
    forall k :: 0 <= k < |parts| && WithinLimits(parts[..k], cfg) ==>
      k + 1 < WORD && (k < cfg.maxFields ==> PartFits(parts[k], cfg, TotalSize(parts[..k])))
  }

  /** A text and every chunk of a file is as long as a slice can be. */
  predicate SliceSized(p: FormPart) {
    if p.content.File? then forall j :: 0 <= j < |p.content.chunks| ==> |p.content.chunks[j]| <= ISIZE_MAX
    else Size(p) <= ISIZE_MAX
  }

  /** With limits that a buffer can reach, parts made of slices never overflow the counters. */
  lemma SlicesFit(parts: seq<FormPart>, cfg: Config)
    requires cfg.maxBodySize <= ISIZE_MAX && cfg.maxFields <= ISIZE_MAX
    requires forall k :: 0 <= k < |parts| ==> SliceSized(parts[k])
    ensures CountersFit(parts, cfg)
  {
    forall k | 0 <= k < |parts| && WithinLimits(parts[..k], cfg)
      ensures k + 1 < WORD && PartFits(parts[k], cfg, TotalSize(parts[..k]))
    {
      assert SliceSized(parts[k]);
      if parts[k].content.File? {
        ChunksOfSlicesFit(parts[k].content.chunks, cfg, TotalSize(parts[..k]));
      }
    }
  }

  lemma ChunksOfSlicesFit(chunks: seq<seq<byte>>, cfg: Config, total: nat)
    requires cfg.maxBodySize <= ISIZE_MAX && forall j :: 0 <= j < |chunks| ==> |chunks[j]| <= ISIZE_MAX
    ensures ChunksFit(chunks, cfg, total)
  {
    forall j | 0 <= j < |chunks| && ReadsUpTo(chunks, cfg, total, j)
      ensures total + |Flatten(chunks[..j + 1])| < WORD
    {
      FlattenStep(chunks, j);
    }
  }

  /** The error names a budget that the body exceeds. */
  ghost predicate ErrorIsTrue(parts: seq<FormPart>, cfg: Config, e: UploadError) {
    match e
    case TooManyFields => |parts| > cfg.maxFields
    case TooManyFiles => |OnlyFiles(parts)| > cfg.maxFiles
    case FileTooLarge => exists i :: 0 <= i < |parts| && parts[i].content.File? && |Sent(parts[i])| > cfg.maxFileSize
    case FieldTooLarge =>
      exists i :: 0 <= i < |parts| && parts[i].content.Text? && |Sent(parts[i])| > cfg.maxTextFieldSize
    case BodyTooLarge => |AllSent(parts)| > cfg.maxBodySize
  }

  lemma FileOffence(chunks: seq<seq<byte>>, cfg: Config, total: nat, j: nat, e: UploadError)
    requires j < |chunks| && StopsReading(chunks, cfg, total, j, e)
    ensures if e == FileTooLarge then |Flatten(chunks)| > cfg.maxFileSize
            else e == BodyTooLarge && total + |Flatten(chunks)| > cfg.maxBodySize
  {
    FlattenGrows(chunks, j + 1);
  }

  lemma PrefixTotals(parts: seq<FormPart>, k: nat)
    requires k < |parts|
    ensures TotalSize(parts[..k]) + |Sent(parts[k])| == TotalSize(parts[..k + 1]) <= |AllSent(parts)|
    ensures FileCount(parts[..k]) + (if parts[k].content.File? then 1 else 0) <= |OnlyFiles(parts)|
  {
    TotalsAre(parts);
    PrefixStep(parts, k);
    SizeIs(parts[k]);
    PrefixGrows(parts, k + 1, |parts|);
    assert parts[..|parts|] == parts;
  }

  lemma OffenceIsTrue(parts: seq<FormPart>, cfg: Config, k: nat, e: UploadError)
    requires Offends(parts, cfg, k, e)
    ensures ErrorIsTrue(parts, cfg, e)
  {
    PrefixTotals(parts, k);
    if k + 1 > cfg.maxFields {
    } else if parts[k].content.Text? {
      TextOffence(parts, cfg, k, e);
    } else if FileCount(parts[..k]) < cfg.maxFiles {
      var chunks := parts[k].content.chunks;
      var j :| 0 <= j < |chunks| && StopsReading(chunks, cfg, TotalSize(parts[..k]), j, e);
      FileOffence(chunks, cfg, TotalSize(parts[..k]), j, e);
    }
  }

  lemma TextOffence(parts: seq<FormPart>, cfg: Config, k: nat, e: UploadError)
    requires Offends(parts, cfg, k, e) && k + 1 <= cfg.maxFields && parts[k].content.Text?
    ensures ErrorIsTrue(parts, cfg, e)
  {
    PrefixTotals(parts, k);
    PrefixStep(parts, k);
    OnePartMore(parts, cfg, k);
    SizeIs(parts[k]);
  }

  /** Extending a prefix within its limits by one more part. */
  lemma OnePartMore(parts: seq<FormPart>, cfg: Config, k: nat)
    requires k < |parts| && WithinLimits(parts[..k], cfg)
    ensures WithinLimits(parts[..k + 1], cfg) <==>
            && k + 1 <= cfg.maxFields && FileCount(parts[..k + 1]) <= cfg.maxFiles
            && PartWithin(parts[k], cfg) && TotalSize(parts[..k + 1]) <= cfg.maxBodySize
  {
    assert forall i :: 0 <= i < k ==> parts[..k + 1][i] == parts[..k][i];
    assert parts[..k + 1][k] == parts[k];
  }

  /** Reads part `k` after a prefix within the limits: what the part adds, or its offence. */
  method ReadPart(ghost parts: seq<FormPart>, k: nat, part: FormPart, cfg: Config, form: Form, total: usize)
    returns (r: Result<(Form, usize), UploadError>)
    requires k < |parts| && parts[k] == part && WithinLimits(parts[..k], cfg) && k + 1 <= cfg.maxFields
    requires total == TotalSize(parts[..k]) && PartFits(part, cfg, total)
    requires form == Form(Texts(parts[..k]), Files(parts[..k]))
    ensures r.Ok? ==> WithinLimits(parts[..k + 1], cfg)
                      && r.value == (Form(Texts(parts[..k + 1]), Files(parts[..k + 1])), TotalSize(parts[..k + 1]))
    ensures r.Err? ==> Offends(parts, cfg, k, r.error)
  {
    PrefixStep(parts, k);
    FilesAreCounted(parts[..k]);
    OnePartMore(parts, cfg, k);
    assert form.texts + [] == form.texts && form.files + [] == form.files;
    var name := if part.name.Some? then part.name.value else "";
    match part.content {
      case File(chunks) =>
        if |form.files| >= cfg.maxFiles {
          return Err(TooManyFiles);
        }
        var read := ReadFile(chunks, cfg, total);
        if read.Err? {
          return Err(read.error);
        }
        var (storage, size, running) := read.value;
        var file := FilePart(part.filename, part.contentType, storage, size);
        return Ok((form.(files := form.files + [Entry(name, file)]), running));
      case Text(text) =>
        var running: usize := total + Utf8Len(text);
        if running > cfg.maxBodySize {
          return Err(BodyTooLarge);
        }
        if Utf8Len(text) > cfg.maxTextFieldSize {
          return Err(FieldTooLarge);
        }
        return Ok((form.(texts := form.texts + [Entry(name, text)]), running));
    }
  }

  /** Parsing succeeds exactly when every budget is met, and then the form holds exactly the
      parts of the body in order; otherwise the first offending part decides the error. */
  method Parse(parts: seq<FormPart>, cfg: Config) returns (r: Result<Form, UploadError>)
    requires CountersFit(parts, cfg)
    ensures r.Ok? <==> WithinLimits(parts, cfg)
    ensures r.Ok? <==>
            && |parts| <= cfg.maxFields && |OnlyFiles(parts)| <= cfg.maxFiles
            && (forall i :: 0 <= i < |parts| && parts[i].content.File? ==> |Sent(parts[i])| <= cfg.maxFileSize)
            && (forall i :: 0 <= i < |parts| && parts[i].content.Text? ==> |Sent(parts[i])| <= cfg.maxTextFieldSize)
            && |AllSent(parts)| <= cfg.maxBodySize
    ensures r.Ok? ==> r.value == Form(Texts(parts), Files(parts))
    ensures r.Err? ==> ErrorIsTrue(parts, cfg, r.error)
    ensures r.Err? ==> exists k: nat :: Offends(parts, cfg, k, r.error)
  {
    WithinLimitsIff(parts, cfg);
    var form := Form([], []);
    var total: usize := 0;
    var fieldsSeen: usize := 0;
    for i := 0 to |parts|
      invariant WithinLimits(parts[..i], cfg) && fieldsSeen == i
      invariant total == TotalSize(parts[..i]) && form == Form(Texts(parts[..i]), Files(parts[..i]))
    {
      fieldsSeen := fieldsSeen + 1;
      if fieldsSeen > cfg.maxFields {
        TooManyOffends(parts, cfg, i);
        OffenceRefusesAll(parts, cfg, i, TooManyFields);
        OffenceIsTrue(parts, cfg, i, TooManyFields);
        return Err(TooManyFields);
      }
      var read := ReadPart(parts, i, parts[i], cfg, form, total);
      if read.Err? {
        OffenceRefusesAll(parts, cfg, i, read.error);
        OffenceIsTrue(parts, cfg, i, read.error);
        return Err(read.error);
      }
      form, total := read.value.0, read.value.1;
    }
    assert parts[..|parts|] == parts;
    return Ok(form);
  }

  lemma TooManyOffends(parts: seq<FormPart>, cfg: Config, k: nat)
    requires k < |parts| && WithinLimits(parts[..k], cfg) && k + 1 > cfg.maxFields
    ensures Offends(parts, cfg, k, TooManyFields)
  {
    OnePartMore(parts, cfg, k);
  }

  // ---- Chunking does not matter ----

  predicate SameButChunking(p: FormPart, q: FormPart) {
    && p.name == q.name && p.filename == q.filename && p.contentType == q.contentType
    && if p.content.File? then q.content.File? && Bytes(p) == Bytes(q) else p.content == q.content
  }

  /** Two bodies that differ only in how the files were cut into chunks are accepted alike
      and come out as the same form. */
  lemma {:induction false} ChunkingIsInvisible(a: seq<FormPart>, b: seq<FormPart>, cfg: Config)
    requires |a| == |b| && forall i :: 0 <= i < |a| ==> SameButChunking(a[i], b[i])
    ensures TotalSize(a) == TotalSize(b) && FileCount(a) == FileCount(b)
    ensures Texts(a) == Texts(b) && Files(a) == Files(b)
    ensures WithinLimits(a, cfg) <==> WithinLimits(b, cfg)
    decreases |a|
  {
    if a == [] {
    } else {
      var n := |a| - 1;
      ChunkingIsInvisible(a[..n], b[..n], cfg);
      assert SameButChunking(a[n], b[n]);
      assert forall i :: 0 <= i < |a| ==> SameButChunking(a[i], b[i]) && PartWithin(a[i], cfg) == PartWithin(b[i], cfg);
    }
  }
}
