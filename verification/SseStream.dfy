/** The polled body behind a Server-Sent Events response: source, heartbeat, timeout and
    done event. */
module SseStream {
  import opened Prelude
  import opened SseCodec
  import opened SseClient
  import opened SseWire
  import opened SseRoundTrip

  /** What the source stream yields, in order; `Failure` is an error item. */
  datatype Item = Event(event: RawEvent) | Failure

  /** A data frame, tagged with why it was sent: an event holding only the comment "ping"
      has the same bytes as a heartbeat. */
  datatype Frame = EventFrame(text: string) | HeartbeatFrame | DoneFrame(text: string)

  /** `Ready(None)` ends the stream. */
  datatype Poll = Pending | Ready(frame: Option<Frame>)

  /** The outside world during one poll: whether the client timeout has elapsed, how many
      source polls answer before the source is pending, and whether a heartbeat tick is due. */
  datatype World = World(timeoutElapsed: bool, readyItems: nat, tickDue: bool)

  const HEARTBEAT_FRAME := ": ping\n\n"

  /** The fields of a body; `source` is what is left of the source stream. */
  datatype Body = Body(
    source: seq<Item>,
    defaultEvent: Option<string>,
    maxEventSize: Option<nat>,
    heartbeat: bool,
    timeout: bool,
    done: Option<string>,
    finished: bool)

  function Wire(frame: Frame): string {
    match frame
    case EventFrame(text) => text
    case DoneFrame(text) => text
    case HeartbeatFrame => HEARTBEAT_FRAME
  }

  predicate Oversized(e: RawEvent, defaultEvent: Option<string>, maxEventSize: Option<nat>) {
    maxEventSize.Some? && Utf8Len(Encoded(e, defaultEvent)) > maxEventSize.value
  }

  /** The size limit as a test on events. */
  function TooBig(defaultEvent: Option<string>, maxEventSize: Option<nat>): RawEvent -> bool {
    (e: RawEvent) => Oversized(e, defaultEvent, maxEventSize)
  }

  function Skipped(b: Body): RawEvent -> bool {
    TooBig(b.defaultEvent, b.maxEventSize)
  }

  // ---- One poll ----

  datatype Drained = Emit(event: RawEvent) | End | Idle

  /** Draining the source: skipped events are consumed without a frame. */
  function Drain(source: seq<Item>, skip: RawEvent -> bool, ready: nat): (seq<Item>, Drained)
    decreases ready
  {
    if ready == 0 then (source, Idle)
    else if source == [] then (source, End)
    else match source[0]
      case Failure => (source[1..], End)
      case Event(e) => if skip(e) then Drain(source[1..], skip, ready - 1) else (source[1..], Emit(e))
  }

  function Finished(b: Body): (Body, Poll) {
    (b.(finished := true, done := None),
     Ready(if b.done.Some? then Some(DoneFrame(b.done.value)) else None))
  }

  function Polled(b: Body, w: World): (Body, Poll) {
    if b.finished then (b, Ready(None))
    else if b.timeout && w.timeoutElapsed then Finished(b)
    else
      var (rest, drained) := Drain(b.source, Skipped(b), w.readyItems);
      var after := b.(source := rest);
      match drained
      case Emit(e) => (after, Ready(Some(EventFrame(Encoded(e, b.defaultEvent)))))
      case End => Finished(after)
      case Idle => (after, if b.heartbeat && w.tickDue then Ready(Some(HeartbeatFrame)) else Pending)
  }

  class SseBody {
    var source: seq<Item>
    const defaultEvent: Option<string>
    const maxEventSize: Option<nat>
    const heartbeat: bool
    const timeout: bool
    var done: Option<string>
    var finished: bool

    /** `marker` is the done event; it is encoded once, when the response is built. */
    constructor (source: seq<Item>, defaultEvent: Option<string>, maxEventSize: Option<nat>,
                 heartbeat: bool, timeout: bool, marker: Option<string>)
      ensures State() == NewBody(source, defaultEvent, maxEventSize, heartbeat, timeout, marker)
      ensures this.source == source && this.defaultEvent == defaultEvent && this.maxEventSize == maxEventSize
      ensures this.heartbeat == heartbeat && this.timeout == timeout && !finished
      ensures done == if marker.None? then None
                      else Some(Encoded(RawEvent(Some(marker.value), None, None, None, None), defaultEvent))
    {
      this.source := source;
      this.defaultEvent := defaultEvent;
      this.maxEventSize := maxEventSize;
      this.heartbeat := heartbeat;
      this.timeout := timeout;
      this.finished := false;
      this.done := None;
      new;
      if marker.Some? {
        var text := EncodeEvent(RawEvent(marker, None, None, None, None), defaultEvent);
        done := Some(text);
      }
    }

    ghost function State(): Body
      reads this
    {
      Body(source, defaultEvent, maxEventSize, heartbeat, timeout, done, finished)
    }

    method Finish() returns (r: Poll)
      modifies this`finished, this`done
      ensures (State(), r) == Finished(old(State()))
    {
      finished := true;
      r := Ready(if done.Some? then Some(DoneFrame(done.value)) else None);
      done := None;
    }

    /** Drains ready items until one can be sent, the source ends or fails, or nothing is
        ready any more; events over the size limit are skipped. */
    method DrainReady(readyItems: nat) returns (drained: Drained, text: string)
      modifies this`source
      ensures (source, drained) == Drain(old(source), Skipped(State()), readyItems)
      ensures drained.Emit? ==> text == Encoded(drained.event, defaultEvent)
    {
      var ready := readyItems;
      while ready > 0
        invariant Drain(source, Skipped(State()), ready) == Drain(old(source), Skipped(State()), readyItems)
        decreases ready
      {
        if source == [] {
          return End, "";
        }
        var item := source[0];
        source := source[1..];
        match item {
          case Failure =>
            return End, "";
          case Event(e) =>
            text := EncodeEvent(e, defaultEvent);
            if maxEventSize.Some? && Utf8Len(text) > maxEventSize.value {
              ready := ready - 1;
              continue;
            }
            return Emit(e), text;
        }
      }
      return Idle, "";
    }

    method PollFrame(w: World) returns (r: Poll)
      modifies this
      ensures (State(), r) == Polled(old(State()), w)
    {
      if finished {
        return Ready(None);
      }
      if timeout && w.timeoutElapsed {
        r := Finish();
        return;
      }
      var drained, text := DrainReady(w.readyItems);
      match drained {
        case Emit(_) =>
          return Ready(Some(EventFrame(text)));
        case End =>
          r := Finish();
          return;
        case Idle =>
      }
      if heartbeat && w.tickDue {
        return Ready(Some(HeartbeatFrame));
      }
      return Pending;
    }
  }

  function NewBody(source: seq<Item>, defaultEvent: Option<string>, maxEventSize: Option<nat>,
                   heartbeat: bool, timeout: bool, marker: Option<string>): Body
  {
    Body(source, defaultEvent, maxEventSize, heartbeat, timeout,
         if marker.Some? then Some(Encoded(DoneEvent(marker.value), defaultEvent)) else None, false)
  }

  function DoneEvent(marker: string): RawEvent {
    RawEvent(Some(marker), None, None, None, None)
  }

  // ---- Runs ----

  function Polls(b: Body, schedule: seq<World>): seq<Poll>
    decreases |schedule|
  {
    if schedule == [] then []
    else var (next, poll) := Polled(b, schedule[0]); [poll] + Polls(next, schedule[1..])
  }

  function Final(b: Body, schedule: seq<World>): Body
    decreases |schedule|
  {
    if schedule == [] then b else Final(Polled(b, schedule[0]).0, schedule[1..])
  }

  function Frames(polls: seq<Poll>): seq<Frame>
  {
    if polls == [] then []
    else (if polls[0].Ready? && polls[0].frame.Some? then [polls[0].frame.value] else []) + Frames(polls[1..])
  }

  function EraseHeartbeats(frames: seq<Frame>): seq<Frame>
  {
    if frames == [] then []
    else (if frames[0].HeartbeatFrame? then [] else [frames[0]]) + EraseHeartbeats(frames[1..])
  }

  /** The events of `items` that are not skipped. */
  function Kept(items: seq<Item>, skip: RawEvent -> bool): seq<RawEvent>
  {
    if items == [] then []
    else (if items[0].Event? && !skip(items[0].event) then [items[0].event] else []) + Kept(items[1..], skip)
  }

  /** The events of `items` that fit the size limit. */
  function Sendable(b: Body, items: seq<Item>): seq<RawEvent> {
    Kept(items, Skipped(b))
  }

  function EventFrames(events: seq<RawEvent>, defaultEvent: Option<string>): seq<Frame>
  {
    if events == [] then [] else [EventFrame(Encoded(events[0], defaultEvent))] + EventFrames(events[1..], defaultEvent)
  }

  function DoneFrames(done: Option<string>): seq<Frame> {
    if done.Some? then [DoneFrame(done.value)] else []
  }

  predicate SameSettings(a: Body, b: Body) {
    && a.defaultEvent == b.defaultEvent && a.maxEventSize == b.maxEventSize
    && a.heartbeat == b.heartbeat && a.timeout == b.timeout
  }

  /** The items consumed on the way from `b` to `after`. */
  function Consumed(b: Body, after: Body): seq<Item> {
    if |after.source| <= |b.source| then b.source[..|b.source| - |after.source|] else []
  }

  predicate Advanced(b: Body, after: Body) {
    SameSettings(b, after) && b.source == Consumed(b, after) + after.source
  }

  predicate FailsOnlyAtEnd(items: seq<Item>, finished: bool) {
    forall i :: 0 <= i < |items| && items[i].Failure? ==> i == |items| - 1 && finished
  }

  lemma ConsumedIs(b: Body, after: Body, used: seq<Item>)
    requires b.source == used + after.source
    ensures Consumed(b, after) == used
  {}

  /** What a drain consumes, and the event it comes to. */
  lemma {:induction false} DrainAccount(source: seq<Item>, skip: RawEvent -> bool, ready: nat) returns (used: seq<Item>)
    ensures var (rest, drained) := Drain(source, skip, ready);
            && source == used + rest && FailsOnlyAtEnd(used, drained.End?)
            && (drained.Idle? ==> |used| == ready)
            && Kept(used, skip) == (if drained.Emit? then [drained.event] else [])
    decreases ready
  {
    if ready == 0 || source == [] {
      used := [];
    } else if source[0].Event? && skip(source[0].event) {
      var more := DrainAccount(source[1..], skip, ready - 1);
      used := [source[0]] + more;
      assert used[1..] == more && Kept(used, skip) == [] + Kept(more, skip);
    } else {
      used := [source[0]];
      assert used[1..] == [] && Kept([], skip) == [];
    }
  }

  lemma {:induction false} KeptAppend(x: seq<Item>, y: seq<Item>, skip: RawEvent -> bool)
    ensures Kept(x + y, skip) == Kept(x, skip) + Kept(y, skip)
  {
    if x == [] {
      assert x + y == y;
    } else {
      assert (x + y)[1..] == x[1..] + y;
      KeptAppend(x[1..], y, skip);
    }
  }

  lemma {:induction false} EventFramesAppend(x: seq<RawEvent>, y: seq<RawEvent>, d: Option<string>)
    ensures EventFrames(x + y, d) == EventFrames(x, d) + EventFrames(y, d)
  {
    if x == [] {
      assert x + y == y;
    } else {
      assert (x + y)[1..] == x[1..] + y;
      EventFramesAppend(x[1..], y, d);
    }
  }

  lemma {:induction false} FinishedRun(b: Body, schedule: seq<World>)
    requires b.finished
    ensures Final(b, schedule) == b && Frames(Polls(b, schedule)) == []
    ensures |Polls(b, schedule)| == |schedule|
    ensures forall i :: 0 <= i < |schedule| ==> Polls(b, schedule)[i] == Ready(None)
    decreases |schedule|
  {
    if schedule == [] {
    } else {
      FinishedRun(b, schedule[1..]);
    }
  }

  /** What has become of the body: a prefix of the source is consumed, an error only at its
      very end, and the done event is given out exactly at the finish. */
  predicate Progress(b: Body, after: Body) {
    && Advanced(b, after)
    && FailsOnlyAtEnd(Consumed(b, after), after.finished)
    && after.done == (if after.finished then None else b.done)
  }

  function EncodedFrames(b: Body, after: Body): seq<Frame> {
    EventFrames(Sendable(b, Consumed(b, after)), b.defaultEvent)
  }

  /** The encodings of the sendable events consumed, in order, then the done frame at the finish. */
  function SentFrames(b: Body, after: Body): seq<Frame> {
    EncodedFrames(b, after) + if after.finished then DoneFrames(b.done) else []
  }

  /** `sent` (heartbeats erased) is accounted for by the items consumed from `b` to `after`. */
  predicate Account(b: Body, after: Body, sent: seq<Frame>) {
    Progress(b, after) && sent == SentFrames(b, after)
  }

  /** What one poll sends, heartbeats aside. */
  function SentBy(poll: Poll): seq<Frame> {
    if poll.Ready? && poll.frame.Some? && !poll.frame.value.HeartbeatFrame? then [poll.frame.value] else []
  }

  lemma SentByOne(poll: Poll)
    ensures EraseHeartbeats(Frames([poll])) == SentBy(poll)
  {
    assert [poll][1..] == [];
    if poll.Ready? && poll.frame.Some? {
      assert Frames([poll]) == [poll.frame.value] && [poll.frame.value][1..] == [];
    }
  }

  /** A body that has consumed `used` and not finished. */
  lemma GoingOn(b: Body, used: seq<Item>, rest: seq<Item>)
    requires !b.finished && b.source == used + rest && FailsOnlyAtEnd(used, false) && |Sendable(b, used)| <= 1
    ensures Account(b, b.(source := rest), EventFrames(Sendable(b, used), b.defaultEvent))
    ensures EventFrames(Sendable(b, used), b.defaultEvent) ==
            if Sendable(b, used) == [] then [] else [EventFrame(Encoded(Sendable(b, used)[0], b.defaultEvent))]
  {
    var after := b.(source := rest);
    ConsumedIs(b, after, used);
    EventFramesOne(Sendable(b, used), b.defaultEvent);
    assert EncodedFrames(b, after) + [] == EncodedFrames(b, after);
  }

  /** A body that finishes after consuming `used`. */
  lemma FinishAccount(b: Body, used: seq<Item>, rest: seq<Item>)
    requires !b.finished && b.source == used + rest && FailsOnlyAtEnd(used, true) && Sendable(b, used) == []
    ensures var (after, poll) := Finished(b.(source := rest));
            Account(b, after, DoneFrames(b.done)) && SentBy(poll) == DoneFrames(b.done)
  {
    var after := Finished(b.(source := rest)).0;
    ConsumedIs(b, after, used);
    assert EncodedFrames(b, after) == [] && [] + DoneFrames(b.done) == DoneFrames(b.done);
  }

  lemma PollAccount(b: Body, w: World)
    requires !b.finished
    ensures Account(b, Polled(b, w).0, EraseHeartbeats(Frames([Polled(b, w).1])))
  {
    SentByOne(Polled(b, w).1);
    if b.timeout && w.timeoutElapsed {
      assert [] + b.source == b.source && b.(source := b.source) == b;
      FinishAccount(b, [], b.source);
    } else {
      var used := DrainAccount(b.source, Skipped(b), w.readyItems);
      var (rest, drained) := Drain(b.source, Skipped(b), w.readyItems);
      if drained.End? {
        FinishAccount(b, used, rest);
      } else {
        GoingOn(b, used, rest);
      }
    }
  }

  lemma EventFramesOne(events: seq<RawEvent>, d: Option<string>)
    requires |events| <= 1
    ensures EventFrames(events, d) == if events == [] then [] else [EventFrame(Encoded(events[0], d))]
  {}

  lemma ConsumedJoin(b: Body, mid: Body, after: Body)
    requires Advanced(b, mid) && Advanced(mid, after)
    ensures Advanced(b, after) && Consumed(b, after) == Consumed(b, mid) + Consumed(mid, after)
  {
    assert b.source == (Consumed(b, mid) + Consumed(mid, after)) + after.source;
    ConsumedIs(b, after, Consumed(b, mid) + Consumed(mid, after));
  }

  lemma EncodedJoin(b: Body, mid: Body, x: seq<Item>, y: seq<Item>)
    requires SameSettings(b, mid)
    ensures EventFrames(Sendable(b, x + y), b.defaultEvent) ==
            EventFrames(Sendable(b, x), b.defaultEvent) + EventFrames(Sendable(mid, y), mid.defaultEvent)
  {
    KeptAppend(x, y, Skipped(b));
    EventFramesAppend(Sendable(b, x), Sendable(b, y), b.defaultEvent);
  }

  lemma FailsJoin(x: seq<Item>, y: seq<Item>, finished: bool)
    requires FailsOnlyAtEnd(x, false) && FailsOnlyAtEnd(y, finished)
    ensures FailsOnlyAtEnd(x + y, finished)
  {}

  lemma ProgressJoin(b: Body, mid: Body, after: Body)
    requires Progress(b, mid) && !mid.finished && Progress(mid, after)
    ensures Progress(b, after) && Consumed(b, after) == Consumed(b, mid) + Consumed(mid, after)
  {
    ConsumedJoin(b, mid, after);
    FailsJoin(Consumed(b, mid), Consumed(mid, after), after.finished);
  }

  lemma Concatenated<T>(x: seq<T>, ex: seq<T>, y: seq<T>, ey: seq<T>, done: seq<T>)
    requires x == ex && y == ey + done
    ensures x + y == (ex + ey) + done
  {}

  lemma SentJoin(b: Body, mid: Body, after: Body, x: seq<Frame>, y: seq<Frame>)
    requires SameSettings(b, mid) && mid.done == b.done && !mid.finished
    requires Consumed(b, after) == Consumed(b, mid) + Consumed(mid, after)
    requires x == SentFrames(b, mid) && y == SentFrames(mid, after)
    ensures x + y == SentFrames(b, after)
  {
    var (ex, ey) := (EncodedFrames(b, mid), EncodedFrames(mid, after));
    EncodedJoin(b, mid, Consumed(b, mid), Consumed(mid, after));
    assert ex + [] == ex;
    Concatenated(x, ex, y, ey, if after.finished then DoneFrames(b.done) else []);
  }

  lemma AccountJoin(b: Body, mid: Body, after: Body, x: seq<Frame>, y: seq<Frame>)
    requires Account(b, mid, x) && !mid.finished && Account(mid, after, y)
    ensures Account(b, after, x + y)
  {
    ProgressJoin(b, mid, after);
    SentJoin(b, mid, after, x, y);
  }

  lemma {:induction false} FramesAppend(x: seq<Poll>, y: seq<Poll>)
    ensures Frames(x + y) == Frames(x) + Frames(y)
  {
    if x == [] {
      assert x + y == y;
    } else {
      assert (x + y)[1..] == x[1..] + y;
      FramesAppend(x[1..], y);
    }
  }

  lemma {:induction false} EraseAppend(x: seq<Frame>, y: seq<Frame>)
    ensures EraseHeartbeats(x + y) == EraseHeartbeats(x) + EraseHeartbeats(y)
  {
    if x == [] {
      assert x + y == y;
    } else {
      assert (x + y)[1..] == x[1..] + y;
      EraseAppend(x[1..], y);
    }
  }

  /** Any run, any schedule: apart from heartbeats, the body sends the encodings of the
      sendable events of the prefix of the source it consumed, in order, then at most the
      done event, and a source error is the last thing it ever consumes. */
  lemma {:induction false} RunAccount(b: Body, schedule: seq<World>)
    requires !b.finished
    ensures Account(b, Final(b, schedule), EraseHeartbeats(Frames(Polls(b, schedule))))
    decreases |schedule|
  {
    if schedule == [] {
      assert Consumed(b, b) == [];
    } else {
      var (next, poll) := Polled(b, schedule[0]);
      var later := Frames(Polls(next, schedule[1..]));
      PollAccount(b, schedule[0]);
      FramesAppend([poll], Polls(next, schedule[1..]));
      EraseAppend(Frames([poll]), later);
      if next.finished {
        FinishedRun(next, schedule[1..]);
        assert EraseHeartbeats(Frames([poll])) + [] == EraseHeartbeats(Frames([poll]));
      } else {
        RunAccount(next, schedule[1..]);
        AccountJoin(b, next, Final(b, schedule), EraseHeartbeats(Frames([poll])), EraseHeartbeats(later));
      }
    }
  }

  /** Once a poll finishes the body, every later poll yields the end of the stream. */
  lemma {:induction false} NothingAfterFinish(b: Body, schedule: seq<World>, i: nat, j: nat)
    requires i <= j < |schedule| && Final(b, schedule[..i]).finished
    ensures |Polls(b, schedule)| == |schedule| && Polls(b, schedule)[j] == Ready(None)
    decreases i
  {
    PollsLength(b, schedule);
    if i == 0 {
      assert schedule[..0] == [];
      FinishedRun(b, schedule);
    } else {
      assert schedule[..i][1..] == schedule[1..][..i - 1];
      NothingAfterFinish(Polled(b, schedule[0]).0, schedule[1..], i - 1, j - 1);
    }
  }

  lemma {:induction false} PollsLength(b: Body, schedule: seq<World>)
    ensures |Polls(b, schedule)| == |schedule|
    decreases |schedule|
  {
    if schedule == [] {
    } else {
      PollsLength(Polled(b, schedule[0]).0, schedule[1..]);
    }
  }

  // ---- Polls in their own terms ----

  /** What a drain stops at: the first item that fails or is not skipped. */
  lemma {:induction false} DrainStop(source: seq<Item>, skip: RawEvent -> bool, ready: nat) returns (k: nat)
    ensures k <= |source| && k <= ready
    ensures forall i :: 0 <= i < k ==> source[i].Event? && skip(source[i].event)
    ensures Drain(source, skip, ready) ==
            if k == ready then (source[k..], Idle)
            else if k == |source| then ([], End)
            else match source[k]
              case Failure => (source[k + 1..], End)
              case Event(e) => (source[k + 1..], Emit(e))
    ensures k < ready && k < |source| && source[k].Event? ==> !skip(source[k].event)
    decreases ready
  {
    if ready == 0 || source == [] || source[0].Failure? || !skip(source[0].event) {
      k := 0;
    } else {
      var later := DrainStop(source[1..], skip, ready - 1);
      k := later + 1;
      assert forall i :: 0 < i < k ==> source[i] == source[1..][i - 1];
    }
  }

  /** The event's encoding has more bytes than there may be. */
  predicate OverLimit(b: Body, e: RawEvent) {
    b.maxEventSize.Some? && |Utf8Bytes(Encoded(e, b.defaultEvent))| > b.maxEventSize.value
  }

  lemma SkippedIff(b: Body, e: RawEvent)
    ensures Skipped(b)(e) <==> OverLimit(b, e)
  {
    Utf8LenIs(Encoded(e, b.defaultEvent));
  }

  /** A body finished with `rest` of its source left, and its last answer. */
  function Over(b: Body, rest: seq<Item>): (Body, Poll) {
    (b.(source := rest, finished := true, done := None),
     Ready(if b.done.Some? then Some(DoneFrame(b.done.value)) else None))
  }

  /** An elapsed timeout finishes the body, whatever is ready. */
  lemma TimeoutFinishes(b: Body, w: World)
    requires !b.finished && b.timeout && w.timeoutElapsed
    ensures Polled(b, w) == Over(b, b.source)
  {}

  /** What a poll that stops at item `k` comes to. */
  function PolledAt(b: Body, w: World, k: nat): (Body, Poll)
    requires k <= |b.source| && k <= w.readyItems
  {
    if k == w.readyItems then
      (b.(source := b.source[k..]), if b.heartbeat && w.tickDue then Ready(Some(HeartbeatFrame)) else Pending)
    else if k == |b.source| then Over(b, [])
    else match b.source[k]
      case Failure => Over(b, b.source[k + 1..])
      case Event(e) => (b.(source := b.source[k + 1..]), Ready(Some(EventFrame(Encoded(e, b.defaultEvent)))))
  }

  lemma PollStop(b: Body, w: World) returns (k: nat)
    requires !b.finished && !(b.timeout && w.timeoutElapsed)
    ensures k <= |b.source| && k <= w.readyItems && Polled(b, w) == PolledAt(b, w, k)
    ensures forall i :: 0 <= i < k ==> b.source[i].Event? && Skipped(b)(b.source[i].event)
    ensures k < w.readyItems && k < |b.source| && b.source[k].Event? ==> !Skipped(b)(b.source[k].event)
  {
    k := DrainStop(b.source, Skipped(b), w.readyItems);
  }

  /** One poll of an unfinished body whose timeout has not elapsed. The items ready are used up
      to the first that can be sent, `k`: those before it are over the size limit, their bytes
      counted. An event there is within the limit and sent; an error there, or the end of the
      source, finishes the body; and if there is none, a heartbeat is sent exactly if it is due. */
  lemma PollLaw(b: Body, w: World) returns (k: nat)
    requires !b.finished && !(b.timeout && w.timeoutElapsed)
    ensures k <= |b.source| && k <= w.readyItems && Polled(b, w) == PolledAt(b, w, k)
    ensures forall i :: 0 <= i < k ==> b.source[i].Event? && OverLimit(b, b.source[i].event)
    ensures k < w.readyItems && k < |b.source| && b.source[k].Event? ==> !OverLimit(b, b.source[k].event)
  {
    k := PollStop(b, w);
    forall i | 0 <= i < |b.source| && b.source[i].Event?
      ensures Skipped(b)(b.source[i].event) <==> OverLimit(b, b.source[i].event)
    {
      SkippedIff(b, b.source[i].event);
    }
  }

  /** Which consumed events count as sent in the account of a run: those without a limit or
      with at most as many bytes as the limit. */
  lemma SentIffItFits(b: Body, items: seq<Item>, e: RawEvent)
    ensures Sendable(b, items + [Event(e)]) ==
            Sendable(b, items)
            + if b.maxEventSize.None? || |Utf8Bytes(Encoded(e, b.defaultEvent))| <= b.maxEventSize.value
              then [e] else []
    ensures Sendable(b, items + [Failure]) == Sendable(b, items) && Sendable(b, []) == []
  {
    KeptAppend(items, [Event(e)], Skipped(b));
    KeptAppend(items, [Failure], Skipped(b));
    assert [Event(e)][1..] == [] && [Failure][1..] == [];
    SkippedIff(b, e);
  }

  lemma FrameWithinLimit(b: Body, w: World, text: string)
    ensures Polled(b, w).1 == Ready(Some(EventFrame(text))) && b.maxEventSize.Some? ==>
              |Utf8Bytes(text)| <= b.maxEventSize.value
  {
    if !b.finished && !(b.timeout && w.timeoutElapsed) {
      var k := PollLaw(b, w);
    }
  }

  /** The frames that are not events. */
  lemma OtherFramesAre(marker: string, d: Option<string>)
    ensures Wire(HeartbeatFrame) == ": ping\n\n"
    ensures NewBody([], d, None, false, false, Some(marker)).done == Some(Encoded(DoneEvent(marker), d))
    ensures DoneEvent(marker).data == Some(marker) && DoneEvent(marker).comment.None? && DoneEvent(marker).id.None?
  {}

  /** A heartbeat is sent only by a poll that found the tick due after using up every ready
      source item without finding one to send. */
  lemma HeartbeatPoll(b: Body, w: World)
    ensures Polled(b, w).1 == Ready(Some(HeartbeatFrame)) ==>
              && !b.finished && b.heartbeat && w.tickDue
              && |Consumed(b, Polled(b, w).0)| == w.readyItems && Sendable(b, Consumed(b, Polled(b, w).0)) == []
  {
    var used := DrainAccount(b.source, Skipped(b), w.readyItems);
    var after := Polled(b, w).0;
    if Polled(b, w).1 == Ready(Some(HeartbeatFrame)) {
      assert after.source == Drain(b.source, Skipped(b), w.readyItems).0;
      ConsumedIs(b, after, used);
      assert Sendable(b, used) == Kept(used, Skipped(b)) == [];
    }
  }

  lemma {:induction false} PollIs(b: Body, schedule: seq<World>, i: nat)
    requires i < |schedule|
    ensures |Polls(b, schedule)| == |schedule|
    ensures Polls(b, schedule)[i] == Polled(Final(b, schedule[..i]), schedule[i]).1
    ensures Final(b, schedule[..i + 1]) == Polled(Final(b, schedule[..i]), schedule[i]).0
    decreases i
  {
    PollsLength(b, schedule);
    if i == 0 {
      assert schedule[..0] == [] && schedule[..1] == [schedule[0]] && [schedule[0]][1..] == [];
    } else {
      assert schedule[..i][1..] == schedule[1..][..i - 1];
      assert schedule[..i + 1][1..] == schedule[1..][..i];
      PollIs(Polled(b, schedule[0]).0, schedule[1..], i - 1);
    }
  }

  /** In no run, at no poll, is an event frame over the limit sent. */
  lemma NoFrameOverTheLimit(b: Body, schedule: seq<World>, i: nat, text: string)
    requires i < |schedule| && |Polls(b, schedule)| == |schedule|
    requires Polls(b, schedule)[i] == Ready(Some(EventFrame(text))) && b.maxEventSize.Some?
    ensures |Utf8Bytes(text)| <= b.maxEventSize.value
  {
    PollIs(b, schedule, i);
    SettingsStay(b, schedule[..i]);
    FrameWithinLimit(Final(b, schedule[..i]), schedule[i], text);
  }

  lemma {:induction false} SettingsStay(b: Body, schedule: seq<World>)
    ensures SameSettings(b, Final(b, schedule))
    decreases |schedule|
  {
    if schedule == [] {
    } else {
      SettingsStay(Polled(b, schedule[0]).0, schedule[1..]);
    }
  }

  /** In every run, heartbeats appear only on polls at which the source was pending. */
  lemma HeartbeatsOnlyWhenIdle(b: Body, schedule: seq<World>, i: nat)
    requires i < |schedule| && |Polls(b, schedule)| == |schedule|
    requires Polls(b, schedule)[i] == Ready(Some(HeartbeatFrame))
    ensures var before := Final(b, schedule[..i]);
            var after := Final(b, schedule[..i + 1]);
            && !before.finished && before.heartbeat && schedule[i].tickDue
            && |Consumed(before, after)| == schedule[i].readyItems && Sendable(before, Consumed(before, after)) == []
  {
    PollIs(b, schedule, i);
    HeartbeatPoll(Final(b, schedule[..i]), schedule[i]);
  }

  // ---- What the client understands ----

  function WireText(frames: seq<Frame>): string
  {
    if frames == [] then "" else Wire(frames[0]) + WireText(frames[1..])
  }

  function Texts(frames: seq<Frame>): seq<string>
  {
    if frames == [] then [] else [Wire(frames[0])] + Texts(frames[1..])
  }

  function Encodings(events: seq<RawEvent>, d: Option<string>): seq<string>
  {
    if events == [] then [] else [Encoded(events[0], d)] + Encodings(events[1..], d)
  }

  lemma HeartbeatIsRead(rest: string)
    ensures Lines(HEARTBEAT_FRAME + rest, "") == [": ping", ""] + Lines(rest, "")
  {
    var beat := [": ping", ""];
    assert beat[1..] == [""] && [""][1..] == [];
    assert Unlines([""]) == "\n" && Unlines(beat) == HEARTBEAT_FRAME;
    LinesOfWritten(beat, rest);
    CutNothing(beat);
  }

  lemma HeartbeatIsIgnored(c: Client, rest: string)
    requires Clean(c)
    ensures ProcessAll(c, Lines(HEARTBEAT_FRAME + rest, "")) == ProcessAll(c, Lines(rest, ""))
  {
    var beat := [": ping", ""];
    HeartbeatIsRead(rest);
    ProcessAppend(c, beat, Lines(rest, ""));
    DispatchLine(c);
    assert Process(c, ": ping") == c && beat[1..] == [""];
    assert ProcessAll(c, beat) == ProcessAll(Process(c, ": ping"), [""]);
  }

  lemma {:induction false} WireIsDelivered(c: Client, frames: seq<Frame>, events: seq<RawEvent>, d: Option<string>)
    requires Clean(c) && AllSurvive(events)
    requires Texts(EraseHeartbeats(frames)) == Encodings(events, d)
    ensures ProcessAll(c, Lines(WireText(frames), "")) == AfterEvents(c, events, d)
    decreases |frames|
  {
    if frames == [] {
    } else if frames[0].HeartbeatFrame? {
      HeartbeatIsIgnored(c, WireText(frames[1..]));
      assert EraseHeartbeats(frames) == EraseHeartbeats(frames[1..]);
      WireIsDelivered(c, frames[1..], events, d);
    } else {
      assert EraseHeartbeats(frames)[1..] == EraseHeartbeats(frames[1..]);
      assert Texts(EraseHeartbeats(frames))[1..] == Texts(EraseHeartbeats(frames[1..]));
      assert Encodings(events, d)[1..] == Encodings(events[1..], d);
      assert Wire(frames[0]) == Encoded(events[0], d);
      var lines := EventLines(events[0], d);
      EventLinesStay(events[0], d);
      LinesOfWritten(lines, WireText(frames[1..]));
      ProcessAppend(c, CutAll(lines), Lines(WireText(frames[1..]), ""));
      EventIsDelivered(c, events[0], d);
      WireIsDelivered(AfterEvent(c, events[0], d), frames[1..], events[1..], d);
    }
  }

  lemma EncodedStart(e: RawEvent, d: Option<string>)
    ensures Encoded(e, d) != "" && Encoded(e, d)[0] != BOM
  {
    var first := EventLines(e, d)[0];
    assert first == "" || first[0] != BOM;
  }

  lemma WireHasNoBom(frames: seq<Frame>, events: seq<RawEvent>, d: Option<string>)
    requires Texts(EraseHeartbeats(frames)) == Encodings(events, d)
    ensures DropBom(WireText(frames)) == WireText(frames)
  {
    if frames != [] {
      if !frames[0].HeartbeatFrame? {
        assert Wire(frames[0]) == Texts(EraseHeartbeats(frames))[0] == Encoded(events[0], d);
        EncodedStart(events[0], d);
      }
      assert WireText(frames)[0] == Wire(frames[0])[0];
    }
  }

  lemma {:induction false} TextsOfEventFrames(events: seq<RawEvent>, d: Option<string>)
    ensures Texts(EventFrames(events, d)) == Encodings(events, d)
  {
    if events == [] {
    } else {
      TextsOfEventFrames(events[1..], d);
      assert EventFrames(events, d)[1..] == EventFrames(events[1..], d);
    }
  }

  lemma {:induction false} EncodingsAppend(x: seq<RawEvent>, y: seq<RawEvent>, d: Option<string>)
    ensures Encodings(x + y, d) == Encodings(x, d) + Encodings(y, d)
  {
    if x == [] {
      assert x + y == y;
    } else {
      assert (x + y)[1..] == x[1..] + y;
      EncodingsAppend(x[1..], y, d);
    }
  }

  lemma {:induction false} TextsAppend(x: seq<Frame>, y: seq<Frame>)
    ensures Texts(x + y) == Texts(x) + Texts(y)
  {
    if x == [] {
      assert x + y == y;
    } else {
      assert (x + y)[1..] == x[1..] + y;
      TextsAppend(x[1..], y);
    }
  }

  predicate SourceSurvives(items: seq<Item>) {
    forall i :: 0 <= i < |items| && items[i].Event? ==> Survives(items[i].event)
  }

  lemma {:induction false} KeptSurvive(items: seq<Item>, skip: RawEvent -> bool)
    requires SourceSurvives(items)
    ensures AllSurvive(Kept(items, skip))
  {
    if items == [] {
    } else {
      KeptSurvive(items[1..], skip);
    }
  }

  /** The events a run puts on the wire, the done event included. */
  function SentEvents(b: Body, after: Body, marker: Option<string>): seq<RawEvent> {
    Sendable(b, Consumed(b, after)) + if after.finished && marker.Some? then [DoneEvent(marker.value)] else []
  }

  /** The texts of a run, heartbeats aside, are the encodings of the events it sent. */
  lemma TextsOfRun(b: Body, marker: Option<string>, schedule: seq<World>)
    requires b == NewBody(b.source, b.defaultEvent, b.maxEventSize, b.heartbeat, b.timeout, marker)
    ensures var after := Final(b, schedule);
            && Advanced(b, after)
            && Texts(EraseHeartbeats(Frames(Polls(b, schedule)))) ==
               Encodings(SentEvents(b, after, marker), b.defaultEvent)
  {
    var (after, d) := (Final(b, schedule), b.defaultEvent);
    var body := Sendable(b, Consumed(b, after));
    var tail := if after.finished && marker.Some? then [DoneEvent(marker.value)] else [];
    RunAccount(b, schedule);
    TextsAppend(EventFrames(body, d), if after.finished then DoneFrames(b.done) else []);
    TextsOfEventFrames(body, d);
    EncodingsAppend(body, tail, d);
  }

  lemma DoneSurvives(marker: Option<string>)
    ensures marker.Some? && '\r' !in marker.value ==> Survives(DoneEvent(marker.value))
  {}

  /** From source to client, over every run: whatever the heartbeats, the timeout and the
      oversized events, the client dispatches exactly the messages of the events sent. */
  lemma RunIsUnderstood(b: Body, marker: Option<string>, schedule: seq<World>)
    requires b == NewBody(b.source, b.defaultEvent, b.maxEventSize, b.heartbeat, b.timeout, marker)
    requires SourceSurvives(b.source) && (marker.Some? ==> '\r' !in marker.value)
    ensures var sent := SentEvents(b, Final(b, schedule), marker);
            Interpret(WireText(Frames(Polls(b, schedule)))) ==
            Client("", "", LastId(sent, ""), LastRetry(sent, None), Delivered(sent, b.defaultEvent, ""))
  {
    var (after, d) := (Final(b, schedule), b.defaultEvent);
    var frames := Frames(Polls(b, schedule));
    var sent := SentEvents(b, after, marker);
    TextsOfRun(b, marker, schedule);
    KeptSurvive(Consumed(b, after), Skipped(b));
    DoneSurvives(marker);
    WireHasNoBom(frames, sent, d);
    WireIsDelivered(START, frames, sent, d);
    AfterEventsIsDelivered(START, sent, d);
  }

  // ---- Typed events ----

  /** What one handler result comes to: an error, or an event that does not serialize, is a
      failure item. */
  function ItemOf<T>(result: Option<SseEvent<T>>, serialize: T -> Result<string, string>): Item {
    if result.None? then Failure
    else match IntoRaw(result.value, serialize) case Ok(raw) => Event(raw) case Err(_) => Failure
  }

  /** The source behind a stream of handler results. */
  function SourceOf<T>(results: seq<Option<SseEvent<T>>>, serialize: T -> Result<string, string>): seq<Item>
  {
    if results == [] then [] else [ItemOf(results[0], serialize)] + SourceOf(results[1..], serialize)
  }

  lemma {:induction false} SourceOfAt<T>(results: seq<Option<SseEvent<T>>>, serialize: T -> Result<string, string>)
    ensures |SourceOf(results, serialize)| == |results|
    ensures forall i :: 0 <= i < |results| ==> SourceOf(results, serialize)[i] == ItemOf(results[i], serialize)
  {
    if results == [] {
    } else {
      SourceOfAt(results[1..], serialize);
    }
  }

  lemma SourceOfSplit<T>(results: seq<Option<SseEvent<T>>>, serialize: T -> Result<string, string>, n: nat)
    requires n <= |results| == |SourceOf(results, serialize)|
    ensures SourceOf(results, serialize)[..n] == SourceOf(results[..n], serialize)
    ensures SourceOf(results, serialize)[n..] == SourceOf(results[n..], serialize)
  {
    SourceOfAt(results, serialize);
    SourceOfAt(results[..n], serialize);
    SourceOfAt(results[n..], serialize);
  }

  /** The result can be sent: its comment is harmless and its text, or what the serializer
      makes of its value, holds no carriage return (JSON escapes it). */
  predicate ResultSurvives<T>(e: SseEvent<T>, serialize: T -> Result<string, string>) {
    && (e.comment.Some? ==> Harmless(e.comment.value))
    && if e.data.Some? then serialize(e.data.value).Ok? ==> '\r' !in serialize(e.data.value).value
       else e.raw.Some? ==> '\r' !in e.raw.value
  }

  /** What a handler's event carries as text: its value serialized, or its text. */
  function TextOf<T>(e: SseEvent<T>, serialize: T -> Result<string, string>): Option<string> {
    match (e.data, e.raw)
    case (Some(value), _) => (match serialize(value) case Ok(text) => Some(text) case Err(_) => None)
    case (None, raw) => raw
  }

  function RawOf<T>(e: SseEvent<T>, serialize: T -> Result<string, string>): RawEvent {
    RawEvent(TextOf(e, serialize), e.event, e.id, e.retry, e.comment)
  }

  /** The event serializes, and its encoding has at most as many bytes as the limit. */
  predicate IsSent<T>(e: SseEvent<T>, serialize: T -> Result<string, string>, d: Option<string>, max: Option<nat>) {
    && (e.data.Some? ==> serialize(e.data.value).Ok?)
    && (max.Some? ==> |Utf8Bytes(Encoded(RawOf(e, serialize), d))| <= max.value)
  }

  /** The messages of some handler results, in terms of the results: one for each event that
      is sent and has data, with the last id set so far. */
  function TypedMessages<T>(results: seq<Option<SseEvent<T>>>, serialize: T -> Result<string, string>,
                            d: Option<string>, max: Option<nat>, lastId: string): seq<Message>
  {
    if results == [] then []
    else if results[0].None? || !IsSent(results[0].value, serialize, d, max)
    then TypedMessages(results[1..], serialize, d, max, lastId)
    else
      var e := results[0].value;
      var id := if e.id.Some? then SingleLine(e.id.value, true) else lastId;
      var name := if e.event.Some? then e.event.value else if d.Some? then d.value else "";
      var text := TextOf(e, serialize);
      (if text.Some? then [Message(Shown(SingleLine(name, false)), text.value, id)] else [])
      + TypedMessages(results[1..], serialize, d, max, id)
  }

  lemma ItemIs<T>(e: SseEvent<T>, serialize: T -> Result<string, string>, b: Body)
    ensures var item := ItemOf(Some(e), serialize);
            if IsSent(e, serialize, b.defaultEvent, b.maxEventSize)
            then item == Event(RawOf(e, serialize)) && !Skipped(b)(item.event)
            else item.Failure? || Skipped(b)(item.event)
  {
    IntoRawIs(e, serialize);
    SkippedIff(b, RawOf(e, serialize));
  }

  lemma KeptStep(item: Item, later: seq<Item>, skip: RawEvent -> bool)
    ensures Kept([item] + later, skip) ==
            if item.Event? && !skip(item.event) then [item.event] + Kept(later, skip) else Kept(later, skip)
  {
    assert ([item] + later)[1..] == later;
    assert [] + Kept(later, skip) == Kept(later, skip);
  }

  lemma DeliveredStep(e: RawEvent, later: seq<RawEvent>, d: Option<string>, lastId: string)
    ensures Delivered([e] + later, d, lastId) ==
            (if e.data.Some? then [Message(TypeOf(e, d), e.data.value, IdAfter(e, lastId))] else [])
            + Delivered(later, d, IdAfter(e, lastId))
  {
    assert ([e] + later)[1..] == later;
  }

  lemma {:induction false} TypedMessagesAre<T>(results: seq<Option<SseEvent<T>>>,
                                               serialize: T -> Result<string, string>, b: Body, lastId: string)
    ensures Delivered(Kept(SourceOf(results, serialize), Skipped(b)), b.defaultEvent, lastId) ==
            TypedMessages(results, serialize, b.defaultEvent, b.maxEventSize, lastId)
    decreases |results|
  {
    if results == [] {
    } else {
      var later := SourceOf(results[1..], serialize);
      KeptStep(ItemOf(results[0], serialize), later, Skipped(b));
      if results[0].None? || !IsSent(results[0].value, serialize, b.defaultEvent, b.maxEventSize) {
        if results[0].Some? { ItemIs(results[0].value, serialize, b); }
        TypedMessagesAre(results[1..], serialize, b, lastId);
      } else {
        var raw := RawOf(results[0].value, serialize);
        ItemIs(results[0].value, serialize, b);
        DeliveredStep(raw, Kept(later, Skipped(b)), b.defaultEvent, lastId);
        TypedMessagesAre(results[1..], serialize, b, IdAfter(raw, lastId));
      }
    }
  }

  lemma {:induction false} DeliveredAppend(x: seq<RawEvent>, y: seq<RawEvent>, d: Option<string>, lastId: string)
    ensures Delivered(x + y, d, lastId) == Delivered(x, d, lastId) + Delivered(y, d, LastId(x, lastId))
    decreases |x|
  {
    if x == [] {
      assert x + y == y;
    } else {
      assert (x + y)[1..] == x[1..] + y;
      var id := IdAfter(x[0], lastId);
      DeliveredAppend(x[1..], y, d, id);
      ConcatAssoc(if x[0].data.Some? then [Message(TypeOf(x[0], d), x[0].data.value, id)] else [],
                  Delivered(x[1..], d, id), Delivered(y, d, LastId(x[1..], id)));
    }
  }

  /** From handler to client, over every run and schedule. The run uses up the first `n`
      results. An error, or an event that does not serialize, is the last of them and ends the
      stream; the client dispatches exactly the messages of the fitting events among them, the
      done event at the end included, and those of the results are `TypedMessages`. */
  lemma TypedRunIsUnderstood<T>(b: Body, results: seq<Option<SseEvent<T>>>, serialize: T -> Result<string, string>,
                                marker: Option<string>, schedule: seq<World>)
    returns (n: nat)
    requires b.source == SourceOf(results, serialize)
    requires b == NewBody(b.source, b.defaultEvent, b.maxEventSize, b.heartbeat, b.timeout, marker)
    requires forall i :: 0 <= i < |results| && results[i].Some? ==> ResultSurvives(results[i].value, serialize)
    requires marker.Some? ==> '\r' !in marker.value
    ensures n <= |results| && Final(b, schedule).source == SourceOf(results[n..], serialize)
    ensures forall i :: 0 <= i < n && (results[i].None? || IntoRaw(results[i].value, serialize).Err?) ==>
              i == n - 1 && Final(b, schedule).finished
    ensures var done := if Final(b, schedule).finished && marker.Some? then [DoneEvent(marker.value)] else [];
            var sent := Kept(SourceOf(results[..n], serialize), Skipped(b)) + done;
            Interpret(WireText(Frames(Polls(b, schedule)))) ==
            Client("", "", LastId(sent, ""), LastRetry(sent, None), Delivered(sent, b.defaultEvent, ""))
    ensures Interpret(WireText(Frames(Polls(b, schedule)))).dispatched ==
            TypedMessages(results[..n], serialize, b.defaultEvent, b.maxEventSize, "")
            + if Final(b, schedule).finished && marker.Some?
              then [Message(TypeOf(DoneEvent(marker.value), b.defaultEvent), marker.value,
                            LastId(Kept(SourceOf(results[..n], serialize), Skipped(b)), ""))]
              else []
  {
    var after := Final(b, schedule);
    var used := Consumed(b, after);
    n := |used|;
    TypedSourceSurvives(results, serialize);
    RunAccount(b, schedule);
    RunIsUnderstood(b, marker, schedule);
    TypedConsumed(results, serialize, used, after);
    DeliveredThenDone(Kept(used, Skipped(b)), marker, after.finished, b.defaultEvent);
    TypedMessagesAre(results[..n], serialize, b, "");
  }

  /** The done event, if it is sent, is the last message. */
  lemma DeliveredThenDone(sent: seq<RawEvent>, marker: Option<string>, finished: bool, d: Option<string>)
    ensures var done := if finished && marker.Some? then [DoneEvent(marker.value)] else [];
            Delivered(sent + done, d, "") ==
            Delivered(sent, d, "")
            + if finished && marker.Some?
              then [Message(TypeOf(DoneEvent(marker.value), d), marker.value, LastId(sent, ""))] else []
  {
    var done := if finished && marker.Some? then [DoneEvent(marker.value)] else [];
    DeliveredAppend(sent, done, d, "");
    if done != [] {
      assert done[1..] == [];
    }
  }

  lemma TypedSourceSurvives<T>(results: seq<Option<SseEvent<T>>>, serialize: T -> Result<string, string>)
    requires forall i :: 0 <= i < |results| && results[i].Some? ==> ResultSurvives(results[i].value, serialize)
    ensures SourceSurvives(SourceOf(results, serialize))
  {
    SourceOfAt(results, serialize);
    var items := SourceOf(results, serialize);
    forall i | 0 <= i < |items| && items[i].Event?
      ensures Survives(items[i].event)
    {
      assert ResultSurvives(results[i].value, serialize);
    }
  }

  /** The items a run consumed, as results. */
  lemma TypedConsumed<T>(results: seq<Option<SseEvent<T>>>, serialize: T -> Result<string, string>,
                         used: seq<Item>, after: Body)
    requires SourceOf(results, serialize) == used + after.source && FailsOnlyAtEnd(used, after.finished)
    ensures |used| <= |results| && used == SourceOf(results[..|used|], serialize)
    ensures after.source == SourceOf(results[|used|..], serialize)
    ensures forall i :: 0 <= i < |used| && (results[i].None? || IntoRaw(results[i].value, serialize).Err?) ==>
              i == |used| - 1 && after.finished
  {
    var items := SourceOf(results, serialize);
    SourceOfAt(results, serialize);
    SourceOfSplit(results, serialize, |used|);
    assert used == items[..|used|] && after.source == items[|used|..];
    forall i | 0 <= i < |used| && (results[i].None? || IntoRaw(results[i].value, serialize).Err?)
      ensures i == |used| - 1 && after.finished
    {
      assert used[i] == ItemOf(results[i], serialize);
    }
  }

  // ---- The body in use ----

  /** Polling a response body through a whole schedule: its answers are those of the run, and
      what it has sent is accounted for by what it has consumed. */
  method Serve(body: SseBody, schedule: seq<World>) returns (polls: seq<Poll>)
    requires !body.finished
    modifies body
    ensures polls == Polls(old(body.State()), schedule) && body.State() == Final(old(body.State()), schedule)
    ensures Account(old(body.State()), body.State(), EraseHeartbeats(Frames(polls)))
  {
    ghost var start := body.State();
    polls := [];
    for i := 0 to |schedule|
      invariant polls + Polls(body.State(), schedule[i..]) == Polls(start, schedule)
      invariant Final(body.State(), schedule[i..]) == Final(start, schedule)
    {
      ghost var later := Polls(Polled(body.State(), schedule[i]).0, schedule[i + 1..]);
      assert schedule[i..][1..] == schedule[i + 1..];
      var poll := body.PollFrame(schedule[i]);
      assert polls + ([poll] + later) == (polls + [poll]) + later;
      polls := polls + [poll];
    }
    RunAccount(start, schedule);
  }

  /** A whole response: what the client makes of its frames. */
  method Respond(source: seq<Item>, defaultEvent: Option<string>, maxEventSize: Option<nat>, heartbeat: bool,
                 timeout: bool, marker: Option<string>, schedule: seq<World>)
    returns (polls: seq<Poll>)
    requires SourceSurvives(source) && (marker.Some? ==> '\r' !in marker.value)
    ensures var b := NewBody(source, defaultEvent, maxEventSize, heartbeat, timeout, marker);
            var sent := SentEvents(b, Final(b, schedule), marker);
            Interpret(WireText(Frames(polls))) ==
            Client("", "", LastId(sent, ""), LastRetry(sent, None), Delivered(sent, defaultEvent, ""))
  {
    var body := new SseBody(source, defaultEvent, maxEventSize, heartbeat, timeout, marker);
    ghost var b := body.State();
    polls := Serve(body, schedule);
    RunIsUnderstood(b, marker, schedule);
  }
}
