/** Reading a body frame by frame under a byte limit, and capping a streamed response. */
module BodyReaders {
  import opened Prelude

  const U64_MAX: nat := 0xFFFF_FFFF_FFFF_FFFF

  // ---- Request bodies ----

  /** What a body yields: data, trailers, or an error. A body error either already is a
      framework error, which passes through, or is some other one, which becomes a 400. */
  datatype BodyFrame = Data(bytes: seq<byte>) | Trailers | Failed(error: BodyError)

  datatype BodyError = Framework(code: string) | Foreign

  /** The readers report an oversized body differently: the extractors' reader as a bad request
      (400), the middleware's as a payload too large (413). */
  datatype ReadError = TooLargeBadRequest | TooLargePayload | UnreadableBadRequest | Passed(code: string)

  function MapBodyError(e: BodyError): ReadError {
    match e
    case Framework(code) => Passed(code)
    case Foreign => UnreadableBadRequest
  }

  /** `usize` addition as the source compiles it in release mode. */
  function UsizeAdd(a: usize, b: usize): usize { (a + b) % WORD }

  function Payload(frames: seq<BodyFrame>): seq<byte>
  {
    if frames == [] then []
    else (if frames[0].Data? then frames[0].bytes else []) + Payload(frames[1..])
  }

  predicate ErrorFree(frames: seq<BodyFrame>) {
    forall i :: 0 <= i < |frames| ==> !frames[i].Failed?
  }

  lemma {:induction false} PayloadStep(frames: seq<BodyFrame>, i: nat)
    requires i < |frames|
    ensures Payload(frames[..i + 1]) == Payload(frames[..i]) + if frames[i].Data? then frames[i].bytes else []
  {
    if i == 0 {
      assert frames[..1] == [frames[0]] && [frames[0]][1..] == [] && frames[..0] == [];
      assert Payload([frames[0]]) == (if frames[0].Data? then frames[0].bytes else []) + Payload([]);
    } else {
      assert frames[..i + 1][1..] == frames[1..][..i] && frames[..i][1..] == frames[1..][..i - 1];
      PayloadStep(frames[1..], i - 1);
    }
  }

  /** The payload is the bytes of the data frames, one after the other. */
  lemma {:induction false} PayloadAppend(a: seq<BodyFrame>, b: seq<BodyFrame>)
    ensures Payload(a + b) == Payload(a) + Payload(b)
  {
    if a == [] {
      assert a + b == b;
    } else {
      assert (a + b)[1..] == a[1..] + b;
      PayloadAppend(a[1..], b);
      ConcatAssoc(if a[0].Data? then a[0].bytes else [], Payload(a[1..]), Payload(b));
    }
  }

  lemma PayloadOne(frame: BodyFrame)
    ensures Payload([frame]) == match frame case Data(bytes) => bytes case Trailers => [] case Failed(_) => []
  {
    assert [frame][1..] == [];
  }

  /** A longer prefix carries at least as many bytes. */
  lemma {:induction false} PayloadGrows(frames: seq<BodyFrame>, i: nat, j: nat)
    requires i <= j <= |frames|
    ensures |Payload(frames[..i])| <= |Payload(frames[..j])|
    decreases j
  {
    if i == j {
    } else {
      PayloadGrows(frames, i, j - 1);
      PayloadStep(frames, j - 1);
    }
  }

  /** The outcome of reading `frames` under `limit` by a reader that reports an oversized body
      as `tooLarge`: the whole payload exactly when no frame fails and it fits; otherwise the
      first thing to go wrong. */
  ghost predicate ReadOutcome(frames: seq<BodyFrame>, limit: nat, tooLarge: ReadError,
                              r: Result<seq<byte>, ReadError>) {
    && (r.Ok? <==> ErrorFree(frames) && |Payload(frames)| <= limit)
    && (r.Ok? ==> r.value == Payload(frames))
    && (r.Err? ==> exists k :: 0 <= k < |frames| && StopsAt(frames, limit, tooLarge, k, r.error))
  }

  /** Reading stops at frame `k` with error `e`: everything before it was read within the limit. */
  ghost predicate StopsAt(frames: seq<BodyFrame>, limit: nat, tooLarge: ReadError, k: int, e: ReadError)
    requires 0 <= k < |frames|
  {
    && ReadsUpTo(frames, limit, k)
    && match frames[k]
       case Failed(Framework(code)) => e == Passed(code)
       case Failed(Foreign) => e == UnreadableBadRequest
       case Data(_) => e == tooLarge && |Payload(frames[..k + 1])| > limit
       case Trailers => false
  }

  /** Reading gets as far as frame `k`. */
  ghost predicate ReadsUpTo(frames: seq<BodyFrame>, limit: nat, k: int)
    requires 0 <= k <= |frames|
  {
    ErrorFree(frames[..k]) && |Payload(frames[..k])| <= limit
  }

  /** No length the readers compute is too long for a machine word. Lengths are added only up
      to the frame at which reading stops, so a long body that is refused early is no exception. */
  ghost predicate NoSumWraps(frames: seq<BodyFrame>, limit: nat) {
    forall k :: 0 <= k < |frames| && frames[k].Data? && ReadsUpTo(frames, limit, k) ==>
      |Payload(frames[..k])| + |frames[k].bytes| < WORD
  }

  /** With a limit that a buffer can reach, frames of any size a slice can have never wrap. */
  lemma SlicesNeverWrap(frames: seq<BodyFrame>, limit: nat)
    requires limit <= ISIZE_MAX
    requires forall k :: 0 <= k < |frames| && frames[k].Data? ==> |frames[k].bytes| <= ISIZE_MAX
    ensures NoSumWraps(frames, limit)
  {}

  /** Once reading stops, the frames after that no longer matter. */
  lemma StopIsOutcome(frames: seq<BodyFrame>, limit: nat, tooLarge: ReadError, k: nat, e: ReadError)
    requires k < |frames| && StopsAt(frames, limit, tooLarge, k, e)
    ensures ReadOutcome(frames, limit, tooLarge, Err(e))
  {
    PayloadGrows(frames, k + 1, |frames|);
    assert frames[..|frames|] == frames;
    var r: Result<seq<byte>, ReadError> := Err(e);
    assert StopsAt(frames, limit, tooLarge, k, r.error);
  }

  method ReadBodyCappedWith(frames: seq<BodyFrame>, limit: usize) returns (r: Result<seq<byte>, ReadError>)
    requires NoSumWraps(frames, limit)
    ensures ReadOutcome(frames, limit, TooLargeBadRequest, r)
  {
    var buffer: seq<byte> := [];
    for i := 0 to |frames|
      invariant buffer == Payload(frames[..i]) && ReadsUpTo(frames, limit, i)
    {
      var frame := frames[i];
      PayloadStep(frames, i);
      if frame.Failed? {
        r := Err(MapBodyError(frame.error));
        StopIsOutcome(frames, limit, TooLargeBadRequest, i, r.error);
        return;
      }
      if frame.Data? {
        if UsizeAdd(|buffer|, |frame.bytes|) > limit {
          r := Err(TooLargeBadRequest);
          StopIsOutcome(frames, limit, TooLargeBadRequest, i, r.error);
          return;
        }
        buffer := buffer + frame.bytes;
      }
    }
    assert frames[..|frames|] == frames;
    return Ok(buffer);
  }

  method ReadBodyWithLimit(frames: seq<BodyFrame>, limit: usize) returns (r: Result<seq<byte>, ReadError>)
    requires NoSumWraps(frames, limit)
    ensures ReadOutcome(frames, limit, TooLargePayload, r)
  {
    var seen: usize := 0;
    var buffer: seq<byte> := [];
    for i := 0 to |frames|
      invariant buffer == Payload(frames[..i]) && seen == |buffer| && ReadsUpTo(frames, limit, i)
    {
      var frame := frames[i];
      PayloadStep(frames, i);
      if frame.Failed? {
        r := Err(MapBodyError(frame.error));
        StopIsOutcome(frames, limit, TooLargePayload, i, r.error);
        return;
      }
      if frame.Data? {
        seen := UsizeAdd(seen, |frame.bytes|);
        if seen > limit {
          r := Err(TooLargePayload);
          StopIsOutcome(frames, limit, TooLargePayload, i, r.error);
          return;
        }
        buffer := buffer + frame.bytes;
      }
    }
    assert frames[..|frames|] == frames;
    return Ok(buffer);
  }

  /** The readers on one body: they succeed together with the same bytes, or stop at the same
      frame. There a failed frame gives the same error, and data over the limit gives each
      reader's own. */
  lemma ReadersAgree(frames: seq<BodyFrame>, limit: nat, a: Result<seq<byte>, ReadError>,
                     b: Result<seq<byte>, ReadError>)
    returns (k: nat)
    requires ReadOutcome(frames, limit, TooLargeBadRequest, a) && ReadOutcome(frames, limit, TooLargePayload, b)
    ensures a.Ok? <==> b.Ok?
    ensures a.Ok? ==> a == b
    ensures a.Err? ==> k < |frames| && StopsAt(frames, limit, TooLargeBadRequest, k, a.error)
                       && StopsAt(frames, limit, TooLargePayload, k, b.error)
    ensures a.Err? ==>
              match frames[k]
              case Failed(Framework(code)) => a == b == Err(Passed(code))
              case Failed(Foreign) => a == b == Err(UnreadableBadRequest)
              case _ => a == Err(TooLargeBadRequest) && b == Err(TooLargePayload)
  {
    k := 0;
    if a.Err? {
      var i :| 0 <= i < |frames| && StopsAt(frames, limit, TooLargeBadRequest, i, a.error);
      var j :| 0 <= j < |frames| && StopsAt(frames, limit, TooLargePayload, j, b.error);
      k := i;
      if i < j {
        PassedIsNotStopped(frames, limit, TooLargeBadRequest, i, j, a.error);
      } else if j < i {
        PassedIsNotStopped(frames, limit, TooLargePayload, j, i, b.error);
      }
    }
  }

  /** A frame inside a prefix that was read whole does not stop the reading. */
  lemma PassedIsNotStopped(frames: seq<BodyFrame>, limit: nat, tooLarge: ReadError, i: nat, j: nat, e: ReadError)
    requires i < j <= |frames| && ReadsUpTo(frames, limit, j)
    ensures !StopsAt(frames, limit, tooLarge, i, e)
  {
    PayloadGrows(frames, i + 1, j);
    assert frames[..j][i] == frames[i];
  }

  /** The one-frame body the limit middleware hands on. */
  function Rebuilt(bytes: seq<byte>): seq<BodyFrame> {
    if bytes == [] then [] else [Data(bytes)]
  }

  lemma RebuiltPayload(bytes: seq<byte>)
    ensures Payload(Rebuilt(bytes)) == bytes && ErrorFree(Rebuilt(bytes))
  {
    assert [Data(bytes)][1..] == [];
  }

  /** The limit middleware, with its declared-length check, in front of a body extractor. What
      the middleware refuses is its own 413 (or the body's error); what it lets through but is
      too large for the extractor is a 400. */
  method ReadThroughLimit(declared: Option<usize>, frames: seq<BodyFrame>, outer: usize, inner: usize)
    returns (r: Result<seq<byte>, ReadError>)
    requires NoSumWraps(frames, outer)
    ensures r.Ok? <==> (declared.Some? ==> declared.value <= outer) && ErrorFree(frames)
                       && |Payload(frames)| <= (if outer <= inner then outer else inner)
    ensures r.Ok? ==> r.value == Payload(frames)
    ensures declared.Some? && declared.value > outer ==> r == Err(TooLargePayload)
    ensures (declared.Some? ==> declared.value <= outer) ==>
              if ErrorFree(frames) && inner < |Payload(frames)| <= outer then r == Err(TooLargeBadRequest)
              else ReadOutcome(frames, outer, TooLargePayload, r)
  {
    if declared.Some? && declared.value > outer {
      return Err(TooLargePayload);
    }
    var first := ReadBodyWithLimit(frames, outer);
    if first.Err? {
      return first;
    }
    var bytes := first.value;
    RebuiltPayload(bytes);
    assert Rebuilt(bytes) != [] ==> Rebuilt(bytes)[..0] == [] && Payload([]) == [];
    r := ReadBodyCappedWith(Rebuilt(bytes), inner);
  }

  // ---- Capped response streams ----

  /** One answer of the inner body. */
  datatype Inner = Frame(bytes: seq<byte>) | Other | Fail | End | Wait

  /** What the capped body passes on: the inner answer, or its own error. */
  datatype Outer = Pass(answer: Inner) | LimitExceeded

  function SaturatingAdd(a: nat, b: nat): nat {
    if a + b > U64_MAX then U64_MAX else a + b
  }

  function CapStep(emitted: nat, limit: nat, answer: Inner): (nat, Outer) {
    if answer.Frame? then
      var total := SaturatingAdd(emitted, |answer.bytes|);
      (total, if total > limit then LimitExceeded else Pass(answer))
    else (emitted, Pass(answer))
  }

  class CappedBody {
    var emitted: nat
    const limit: nat

    constructor (limit: nat)
      requires limit <= U64_MAX
      ensures this.limit == limit && emitted == 0
    {
      this.limit := limit;
      emitted := 0;
    }

    /** `answer` is what polling the inner body returned. */
    method PollFrame(answer: Inner) returns (r: Outer)
      requires emitted <= U64_MAX
      modifies this`emitted
      ensures emitted <= U64_MAX && (emitted, r) == CapStep(old(emitted), limit, answer)
    {
      if answer.Frame? {
        emitted := if emitted + |answer.bytes| > U64_MAX then U64_MAX else emitted + |answer.bytes|;
        if emitted > limit {
          return LimitExceeded;
        }
      }
      return Pass(answer);
    }
  }

  /** All the answers of a run of polls. */
  function CapRun(emitted: nat, limit: nat, answers: seq<Inner>): seq<Outer>
    decreases |answers|
  {
    if answers == [] then []
    else var (total, out) := CapStep(emitted, limit, answers[0]); [out] + CapRun(total, limit, answers[1..])
  }

  /** Bytes of data among the inner answers. */
  function DataLength(answers: seq<Inner>): nat
  {
    if answers == [] then 0
    else (if answers[0].Frame? then |answers[0].bytes| else 0) + DataLength(answers[1..])
  }

  function Clamp(n: nat): nat { if n > U64_MAX then U64_MAX else n }

  /** Poll `i` reports the limit exactly when it got data and the data so far, the counter
      saturating, is over the limit; any other poll passes the inner answer on unchanged. */
  lemma {:induction false} CapRunAt(emitted: nat, limit: nat, answers: seq<Inner>, i: nat)
    requires emitted <= U64_MAX && i < |answers|
    ensures |CapRun(emitted, limit, answers)| == |answers|
    ensures CapRun(emitted, limit, answers)[i] ==
            if answers[i].Frame? && Clamp(emitted + DataLength(answers[..i + 1])) > limit
            then LimitExceeded else Pass(answers[i])
    decreases |answers|
  {
    var (total, out) := CapStep(emitted, limit, answers[0]);
    CapRunLength(total, limit, answers[1..]);
    assert answers[..i + 1][1..] == answers[1..][..i];
    if i == 0 {
      assert DataLength(answers[..1]) == (if answers[0].Frame? then |answers[0].bytes| else 0) + DataLength([]);
    } else {
      CapRunAt(total, limit, answers[1..], i - 1);
    }
  }

  lemma {:induction false} CapRunLength(emitted: nat, limit: nat, answers: seq<Inner>)
    ensures |CapRun(emitted, limit, answers)| == |answers|
    decreases |answers|
  {
    if answers == [] {
    } else {
      CapRunLength(CapStep(emitted, limit, answers[0]).0, limit, answers[1..]);
    }
  }

  /** The promise of the cap: a data frame is delivered exactly while the data up to and
      including it is within the limit, and anything but data passes. */
  ghost predicate DeliversWithinLimit(limit: nat, answers: seq<Inner>) {
    var outs := CapRun(0, limit, answers);
    |outs| == |answers| && forall i :: 0 <= i < |answers| ==> outs[i] == WithinLimitAt(limit, answers, i)
  }

  function WithinLimitAt(limit: nat, answers: seq<Inner>, i: nat): Outer
    requires i < |answers|
  {
    if answers[i].Frame? && DataLength(answers[..i + 1]) > limit then LimitExceeded else Pass(answers[i])
  }

  lemma {:induction false} DataLengthGrows(answers: seq<Inner>, i: nat, j: nat)
    requires i <= j <= |answers|
    ensures DataLength(answers[..i]) <= DataLength(answers[..j])
    ensures j < |answers| ==>
              DataLength(answers[..j + 1]) ==
              DataLength(answers[..j]) + if answers[j].Frame? then |answers[j].bytes| else 0
  {
    if j < |answers| {
      DataLengthStep(answers, j);
    }
    if i < j {
      DataLengthGrows(answers, i, j - 1);
    }
  }

  lemma {:induction false} DataLengthStep(answers: seq<Inner>, j: nat)
    requires j < |answers|
    ensures DataLength(answers[..j + 1]) ==
            DataLength(answers[..j]) + if answers[j].Frame? then |answers[j].bytes| else 0
  {
    if j == 0 {
      assert answers[..1] == [answers[0]] && [answers[0]][1..] == [] && answers[..0] == [];
    } else {
      assert answers[..j + 1][1..] == answers[1..][..j] && answers[..j][1..] == answers[1..][..j - 1];
      DataLengthStep(answers[1..], j - 1);
    }
  }

  /** The promise holds, whatever the polling, exactly unless the limit is the largest `u64`
      and more data than that arrives: there the saturated counter never exceeds the limit. */
  lemma CapHoldsIff(limit: nat, answers: seq<Inner>)
    requires limit <= U64_MAX
    ensures DeliversWithinLimit(limit, answers) <==>
            limit < 0xFFFF_FFFF_FFFF_FFFF || DataLength(answers) <= 0xFFFF_FFFF_FFFF_FFFF
  {
    CapRunLength(0, limit, answers);
    if limit < U64_MAX || DataLength(answers) <= U64_MAX {
      forall i | 0 <= i < |answers|
        ensures CapRun(0, limit, answers)[i] == WithinLimitAt(limit, answers, i)
      {
        CapRunAt(0, limit, answers, i);
        DataLengthGrows(answers, i + 1, |answers|);
        assert answers[..|answers|] == answers;
      }
    } else {
      var i := LastData(answers);
      CapRunAt(0, limit, answers, i);
      assert CapRun(0, limit, answers)[i] != WithinLimitAt(limit, answers, i);
    }
  }

  lemma {:induction false} LastData(answers: seq<Inner>) returns (i: nat)
    requires DataLength(answers) > 0
    ensures i < |answers| && answers[i].Frame? && DataLength(answers[..i + 1]) == DataLength(answers)
    decreases |answers|
  {
    var n := |answers| - 1;
    assert answers[..n + 1] == answers;
    if answers[n].Frame? {
      i := n;
    } else {
      DataLengthStep(answers, n);
      i := LastData(answers[..n]);
      assert answers[..n][..i + 1] == answers[..i + 1];
    }
  }

  /** Once one data frame is refused, every later data frame is refused too. */
  lemma RefusalIsFinal(limit: nat, answers: seq<Inner>, i: nat, j: nat)
    requires limit <= U64_MAX && i < j < |answers| && answers[j].Frame?
    requires |CapRun(0, limit, answers)| == |answers| && CapRun(0, limit, answers)[i] == LimitExceeded
    ensures CapRun(0, limit, answers)[j] == LimitExceeded
  {
    CapRunAt(0, limit, answers, i);
    CapRunAt(0, limit, answers, j);
    DataLengthGrows(answers, i + 1, j + 1);
  }

  lemma {:induction false} FirstOver(limit: nat, answers: seq<Inner>, i: nat) returns (k: nat)
    requires i <= |answers| && DataLength(answers[..i]) <= limit
    ensures i <= k <= |answers| && DataLength(answers[..k]) <= limit
    ensures k < |answers| ==> answers[k].Frame? && DataLength(answers[..k + 1]) > limit
    decreases |answers| - i
  {
    k := i;
    if i < |answers| {
      DataLengthStep(answers, i);
      if DataLength(answers[..i + 1]) <= limit {
        k := FirstOver(limit, answers, i + 1);
      }
    }
  }

  /** Below the largest limit the delivered data is the longest prefix that fits: up to some
      poll everything passes, and from there on every data frame is an error. */
  lemma DeliversLongestPrefix(limit: nat, answers: seq<Inner>) returns (k: nat)
    requires limit < U64_MAX
    ensures k <= |answers| && DataLength(answers[..k]) <= limit
    ensures k < |answers| ==> DataLength(answers[..k + 1]) > limit
    ensures |CapRun(0, limit, answers)| == |answers|
    ensures forall i :: 0 <= i < k ==> CapRun(0, limit, answers)[i] == Pass(answers[i])
    ensures forall i :: k <= i < |answers| ==>
              CapRun(0, limit, answers)[i] == if answers[i].Frame? then LimitExceeded else Pass(answers[i])
  {
    CapHoldsIff(limit, answers);
    k := FirstOver(limit, answers, 0);
    forall i | 0 <= i < |answers|
      ensures CapRun(0, limit, answers)[i] == if i >= k && answers[i].Frame? then LimitExceeded else Pass(answers[i])
    {
      if i < k {
        DataLengthGrows(answers, i + 1, k);
      } else {
        DataLengthGrows(answers, k + 1, i + 1);
      }
      assert CapRun(0, limit, answers)[i] == WithinLimitAt(limit, answers, i);
    }
  }

  /** Polling the body through a whole response: the answers are `CapRun`'s, and they keep the
      promise of the cap in exactly the cases that `CapHoldsIff` names. */
  method DeliverCapped(limit: nat, answers: seq<Inner>) returns (outs: seq<Outer>)
    requires limit <= U64_MAX
    ensures outs == CapRun(0, limit, answers)
    ensures |outs| == |answers|
    ensures (forall i :: 0 <= i < |answers| ==> outs[i] == WithinLimitAt(limit, answers, i))
       <==> limit < 0xFFFF_FFFF_FFFF_FFFF || DataLength(answers) <= 0xFFFF_FFFF_FFFF_FFFF
  {
    var body := new CappedBody(limit);
    outs := [];
    for i := 0 to |answers|
      invariant body.emitted <= U64_MAX && body.limit == limit
      invariant outs + CapRun(body.emitted, limit, answers[i..]) == CapRun(0, limit, answers)
    {
      assert answers[i..][1..] == answers[i + 1..];
      var out := body.PollFrame(answers[i]);
      assert outs + ([out] + CapRun(body.emitted, limit, answers[i + 1..])) == CapRun(0, limit, answers);
      outs := outs + [out];
    }
    CapRunLength(0, limit, answers);
    CapHoldsIff(limit, answers);
  }
}
