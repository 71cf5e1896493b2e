/** The broadcast hub as a state machine. Looking a room up happens under the hub's lock,
    step by step; cloning and dropping room handles, subscribing, and dropping receivers
    happen outside it and interleave freely. */
module HubMachine {
  import opened Prelude

  /** One broadcast channel: the id it was created for, the strong count of its `Arc`, and
      how many `Room` handles and receivers are live. A channel's index is its identity. */
  datatype Channel = Channel(id: string, strong: nat, handles: nat, receivers: nat)

  /** The lock, and how far the lookup holding it has come. While scanning, `todo` holds the
      entries `retain` has yet to decide; `probed` is the one whose first test has failed. */
  datatype Lock =
    | Free
    | Entered(id: string)
    | Scanning(id: string, todo: set<string>, probed: Option<string>)

  datatype Hub = Hub(rooms: map<string, nat>, channels: seq<Channel>, lock: Lock)

  const EMPTY := Hub(map[], [], Free)

  /** Which of the two counts the eviction test reads first. The hub reads the strong count. */
  datatype Order = StrongFirst | ReceiversFirst

  datatype Step =
    // Under the lock, in the order of `Hub::room`.
    | Enter(id: string)
    | Hit
    | Miss
    | ProbeFirst(key: string)
    | ProbeSecond
    | Create
    // At any time, by any thread.
    | CloneHandle(ch: nat)
    | DropHandle(ch: nat)
    | Subscribe(ch: nat)
    | Resubscribe(ch: nat)
    | DropReceiver(ch: nat)

  predicate KeepsFirst(order: Order, c: Channel) {
    if order.StrongFirst? then c.strong > 1 else c.receivers > 0
  }

  predicate KeepsSecond(order: Order, c: Channel) {
    if order.StrongFirst? then c.receivers > 0 else c.strong > 1
  }

  predicate HasRoom(h: Hub, key: string) {
    key in h.rooms && h.rooms[key] < |h.channels|
  }

  predicate Enabled(h: Hub, s: Step) {
    match s
    case Enter(_) => h.lock.Free?
    case Hit => h.lock.Entered? && HasRoom(h, h.lock.id)
    case Miss => h.lock.Entered? && h.lock.id !in h.rooms
    case ProbeFirst(key) => h.lock.Scanning? && h.lock.probed.None? && key in h.lock.todo && HasRoom(h, key)
    case ProbeSecond => h.lock.Scanning? && h.lock.probed.Some? && HasRoom(h, h.lock.probed.value)
    case Create => h.lock.Scanning? && h.lock.todo == {}
    case CloneHandle(ch) => ch < |h.channels| && h.channels[ch].handles > 0
    case DropHandle(ch) => ch < |h.channels| && h.channels[ch].handles > 0 && h.channels[ch].strong > 0
    case Subscribe(ch) => ch < |h.channels| && h.channels[ch].handles > 0
    case Resubscribe(ch) => ch < |h.channels| && h.channels[ch].receivers > 0
    case DropReceiver(ch) => ch < |h.channels| && h.channels[ch].receivers > 0
  }

  function AddHandle(h: Hub, ch: nat): Hub
    requires ch < |h.channels|
  {
    var c := h.channels[ch];
    h.(channels := h.channels[ch := c.(strong := c.strong + 1, handles := c.handles + 1)])
  }

  function AddReceiver(h: Hub, ch: nat): Hub
    requires ch < |h.channels|
  {
    h.(channels := h.channels[ch := h.channels[ch].(receivers := h.channels[ch].receivers + 1)])
  }

  /** Dropping the map's own reference to a room. */
  function Evict(h: Hub, key: string): Hub
    requires HasRoom(h, key)
  {
    var ch := h.rooms[key];
    var c := h.channels[ch];
    h.(rooms := h.rooms - {key},
       channels := h.channels[ch := c.(strong := if c.strong > 0 then c.strong - 1 else 0)])
  }

  function Apply(order: Order, h: Hub, s: Step): Hub
    requires Enabled(h, s)
  {
    match s
    case Enter(id) => h.(lock := Entered(id))
    case Hit => AddHandle(h, h.rooms[h.lock.id]).(lock := Free)
    case Miss => h.(lock := Scanning(h.lock.id, h.rooms.Keys, None))
    case ProbeFirst(key) =>
      if KeepsFirst(order, h.channels[h.rooms[key]])
      then h.(lock := h.lock.(todo := h.lock.todo - {key}))
      else h.(lock := h.lock.(probed := Some(key)))
    case ProbeSecond =>
      var key := h.lock.probed.value;
      var decided := h.(lock := h.lock.(todo := h.lock.todo - {key}, probed := None));
      if KeepsSecond(order, h.channels[h.rooms[key]]) then decided else Evict(decided, key)
    case Create =>
      Hub(h.rooms[h.lock.id := |h.channels|], h.channels + [Channel(h.lock.id, 2, 1, 0)], Free)
    case CloneHandle(ch) => AddHandle(h, ch)
    case DropHandle(ch) =>
      var c := h.channels[ch];
      h.(channels := h.channels[ch := c.(strong := c.strong - 1, handles := c.handles - 1)])
    case Subscribe(ch) => AddReceiver(h, ch)
    case Resubscribe(ch) => AddReceiver(h, ch)
    case DropReceiver(ch) =>
      var c := h.channels[ch];
      h.(channels := h.channels[ch := c.(receivers := c.receivers - 1)])
  }

  /** Every step of `steps` is enabled when its turn comes. */
  predicate IsRun(order: Order, h: Hub, steps: seq<Step>)
    decreases |steps|
  {
    steps == [] || (Enabled(h, steps[0]) && IsRun(order, Apply(order, h, steps[0]), steps[1..]))
  }

  function After(order: Order, h: Hub, steps: seq<Step>): Hub
    requires IsRun(order, h, steps)
    decreases |steps|
  {
    if steps == [] then h else After(order, Apply(order, h, steps[0]), steps[1..])
  }

  /** Users never wait for the lock: whatever a lookup is doing, any live handle can be cloned,
      dropped and subscribed with, and any receiver resubscribed or dropped. */
  lemma UsersNeverWait(h: Hub, ch: nat)
    requires ch < |h.channels| && CountsExact(h)
    ensures h.channels[ch].handles > 0 <==> Enabled(h, CloneHandle(ch))
    ensures h.channels[ch].handles > 0 <==> Enabled(h, DropHandle(ch))
    ensures h.channels[ch].handles > 0 <==> Enabled(h, Subscribe(ch))
    ensures h.channels[ch].receivers > 0 <==> Enabled(h, Resubscribe(ch))
    ensures h.channels[ch].receivers > 0 <==> Enabled(h, DropReceiver(ch))
  {}

  // ---- What handles and receivers come from ----

  function HandlesOf(h: Hub, ch: nat): nat {
    if ch < |h.channels| then h.channels[ch].handles else 0
  }

  function ReceiversAt(h: Hub, ch: nat): nat {
    if ch < |h.channels| then h.channels[ch].receivers else 0
  }

  /** The step hands out a handle on the channel: it finds it mapped, creates it, or clones one. */
  predicate GivesHandle(h: Hub, s: Step, ch: nat) {
    match s
    case Hit => h.lock.Entered? && h.lock.id in h.rooms && h.rooms[h.lock.id] == ch
    case Create => ch == |h.channels|
    case CloneHandle(on) => on == ch
    case _ => false
  }

  predicate GivesReceiver(s: Step, ch: nat) {
    s == Subscribe(ch) || s == Resubscribe(ch)
  }

  /** One step changes the handles and receivers of a channel by exactly what it hands out and
      takes back; channels keep their ids and never go away. */
  lemma StepCounts(order: Order, h: Hub, s: Step, ch: nat)
    requires Enabled(h, s)
    ensures var h' := Apply(order, h, s);
            && HandlesOf(h', ch) + (if s == DropHandle(ch) then 1 else 0) ==
               HandlesOf(h, ch) + (if GivesHandle(h, s, ch) then 1 else 0)
            && ReceiversAt(h', ch) + (if s == DropReceiver(ch) then 1 else 0) ==
               ReceiversAt(h, ch) + (if GivesReceiver(s, ch) then 1 else 0)
            && |h'.channels| == |h.channels| + (if s == Create then 1 else 0)
            && (ch < |h.channels| ==> h'.channels[ch].id == h.channels[ch].id)
  {}

  /** How many steps of a run do so. */
  function HandlesGiven(order: Order, h: Hub, steps: seq<Step>, ch: nat): nat
    requires IsRun(order, h, steps)
    decreases |steps|
  {
    if steps == [] then 0
    else (if GivesHandle(h, steps[0], ch) then 1 else 0)
         + HandlesGiven(order, Apply(order, h, steps[0]), steps[1..], ch)
  }

  function ReceiversGiven(steps: seq<Step>, ch: nat): nat
  {
    if steps == [] then 0 else (if GivesReceiver(steps[0], ch) then 1 else 0) + ReceiversGiven(steps[1..], ch)
  }

  function Occurrences(steps: seq<Step>, s: Step): nat
  {
    if steps == [] then 0 else (if steps[0] == s then 1 else 0) + Occurrences(steps[1..], s)
  }

  /** In every interleaving a channel's handles are its creation, lookups and clones less its
      drops, and its receivers are its subscriptions and resubscriptions less theirs. */
  lemma {:induction false} RunCounts(order: Order, h: Hub, steps: seq<Step>, ch: nat)
    requires IsRun(order, h, steps)
    ensures var end := After(order, h, steps);
            && HandlesOf(end, ch) + Occurrences(steps, DropHandle(ch)) ==
               HandlesOf(h, ch) + HandlesGiven(order, h, steps, ch)
            && ReceiversAt(end, ch) + Occurrences(steps, DropReceiver(ch)) ==
               ReceiversAt(h, ch) + ReceiversGiven(steps, ch)
    decreases |steps|
  {
    if steps == [] {
    } else {
      StepCounts(order, h, steps[0], ch);
      RunCounts(order, Apply(order, h, steps[0]), steps[1..], ch);
    }
  }

  // ---- Safety ----

  predicate Live(c: Channel) {
    c.handles > 0 || c.receivers > 0
  }

  predicate Mapped(h: Hub, ch: nat)
    requires ch < |h.channels|
  {
    h.channels[ch].id in h.rooms && h.rooms[h.channels[ch].id] == ch
  }

  /** Whoever still uses a channel uses the one the hub would hand out for its id. */
  predicate Safe(h: Hub) {
    forall ch :: 0 <= ch < |h.channels| && Live(h.channels[ch]) ==> Mapped(h, ch)
  }

  predicate RoomsWellFormed(h: Hub) {
    forall key :: key in h.rooms ==> h.rooms[key] < |h.channels| && h.channels[h.rooms[key]].id == key
  }

  /** The strong count is the number of handles plus the map's own reference. */
  predicate CountsExact(h: Hub) {
    forall ch :: 0 <= ch < |h.channels| ==>
      h.channels[ch].strong == h.channels[ch].handles + if Mapped(h, ch) then 1 else 0
  }

  /** A scan never visits the id it is about to create, and an entry that failed the strong
      count test has no handle: under the lock none can appear. */
  predicate ScanSound(h: Hub) {
    match h.lock
    case Free => true
    case Entered(_) => true
    case Scanning(id, todo, probed) =>
      && id !in h.rooms && todo <= h.rooms.Keys
      && (probed.Some? ==> probed.value in todo && HasRoom(h, probed.value)
                           && h.channels[h.rooms[probed.value]].handles == 0)
  }

  predicate Inv(h: Hub) {
    RoomsWellFormed(h) && CountsExact(h) && Safe(h) && ScanSound(h)
  }

  lemma StepKeepsInv(h: Hub, s: Step)
    requires Inv(h) && Enabled(h, s)
    ensures Inv(Apply(StrongFirst, h, s))
  {
    match s
    case Enter(_) =>
    case Hit => HandlesKeepInv(h, h.rooms[h.lock.id], s);
    case Miss =>
    case ProbeFirst(key) => ProbeFirstKeepsInv(h, key);
    case ProbeSecond => ProbeSecondKeepsInv(h);
    case Create => CreateKeepsInv(h);
    case CloneHandle(ch) => HandlesKeepInv(h, ch, s);
    case DropHandle(ch) => HandlesKeepInv(h, ch, s);
    case Subscribe(ch) => ReceiversKeepInv(h, ch, s);
    case Resubscribe(ch) => ReceiversKeepInv(h, ch, s);
    case DropReceiver(ch) => ReceiversKeepInv(h, ch, s);
  }

  /** Handles come and go only where there is one already, or through the map under the lock:
      an entry that failed the strong count test cannot regain one. */
  lemma HandlesKeepInv(h: Hub, ch: nat, s: Step)
    requires Inv(h) && Enabled(h, s)
    requires s == CloneHandle(ch) || s == DropHandle(ch) || (s.Hit? && ch == h.rooms[h.lock.id])
    ensures Inv(Apply(StrongFirst, h, s))
  {}

  lemma ReceiversKeepInv(h: Hub, ch: nat, s: Step)
    requires Inv(h) && Enabled(h, s)
    requires s == Subscribe(ch) || s == Resubscribe(ch) || s == DropReceiver(ch)
    ensures Inv(Apply(StrongFirst, h, s))
  {}

  lemma ProbeFirstKeepsInv(h: Hub, key: string)
    requires Inv(h) && Enabled(h, ProbeFirst(key))
    ensures Inv(Apply(StrongFirst, h, ProbeFirst(key)))
  {
    assert Mapped(h, h.rooms[key]);
  }

  lemma ProbeSecondKeepsInv(h: Hub)
    requires Inv(h) && Enabled(h, ProbeSecond)
    ensures Inv(Apply(StrongFirst, h, ProbeSecond))
  {
    var key := h.lock.probed.value;
    var h' := Apply(StrongFirst, h, ProbeSecond);
    forall ch | 0 <= ch < |h.channels|
      ensures Mapped(h', ch) <==> Mapped(h, ch) && (key in h'.rooms || ch != h.rooms[key])
    {
    }
  }

  lemma CreateKeepsInv(h: Hub)
    requires Inv(h) && Enabled(h, Create)
    ensures Inv(Apply(StrongFirst, h, Create))
  {
    var h' := Apply(StrongFirst, h, Create);
    forall ch | 0 <= ch < |h.channels|
      ensures Mapped(h', ch) <==> Mapped(h, ch)
    {
    }
  }

  lemma {:induction false} RunKeepsInv(h: Hub, steps: seq<Step>)
    requires Inv(h) && IsRun(StrongFirst, h, steps)
    ensures Inv(After(StrongFirst, h, steps))
    decreases |steps|
  {
    if steps == [] {
    } else {
      StepKeepsInv(h, steps[0]);
      RunKeepsInv(Apply(StrongFirst, h, steps[0]), steps[1..]);
    }
  }

  /** In every interleaving, a channel with a live handle or receiver is the mapped one. */
  lemma AlwaysSafe(steps: seq<Step>)
    requires IsRun(StrongFirst, EMPTY, steps)
    ensures Safe(After(StrongFirst, EMPTY, steps))
  {
    RunKeepsInv(EMPTY, steps);
  }

  /** In every interleaving the strong count of a channel is its handles plus, as long as it is
      the one mapped for its id, the map's own reference. */
  lemma StrongCountsAreExact(steps: seq<Step>, ch: nat)
    requires IsRun(StrongFirst, EMPTY, steps) && ch < |After(StrongFirst, EMPTY, steps).channels|
    ensures var h := After(StrongFirst, EMPTY, steps);
            var c := h.channels[ch];
            c.strong == HandlesGiven(StrongFirst, EMPTY, steps, ch) - Occurrences(steps, DropHandle(ch))
                        + if c.id in h.rooms && h.rooms[c.id] == ch then 1 else 0
  {
    RunKeepsInv(EMPTY, steps);
    RunCounts(StrongFirst, EMPTY, steps, ch);
  }

  /** Counted over the run: while more handles or receivers of a channel were given out than
      dropped, the hub hands out that channel for its id. */
  lemma UsersAreMapped(steps: seq<Step>, ch: nat)
    requires IsRun(StrongFirst, EMPTY, steps) && ch < |After(StrongFirst, EMPTY, steps).channels|
    requires || HandlesGiven(StrongFirst, EMPTY, steps, ch) > Occurrences(steps, DropHandle(ch))
             || ReceiversGiven(steps, ch) > Occurrences(steps, DropReceiver(ch))
    ensures var h := After(StrongFirst, EMPTY, steps);
            h.channels[ch].id in h.rooms && h.rooms[h.channels[ch].id] == ch
  {
    AlwaysSafe(steps);
    RunCounts(StrongFirst, EMPTY, steps, ch);
  }

  /** So two live users of one id are always on one channel. */
  lemma LiveUsersShareTheChannel(steps: seq<Step>, a: nat, b: nat)
    requires IsRun(StrongFirst, EMPTY, steps)
    requires var h := After(StrongFirst, EMPTY, steps);
             && a < |h.channels| && b < |h.channels| && h.channels[a].id == h.channels[b].id
             && Live(h.channels[a]) && Live(h.channels[b])
    ensures a == b
  {
    AlwaysSafe(steps);
  }

  /** All receivers of an id, over every channel ever created for it. */
  function ReceiversOf(channels: seq<Channel>, id: string): nat
  {
    if channels == [] then 0
    else (if channels[0].id == id then channels[0].receivers else 0) + ReceiversOf(channels[1..], id)
  }

  lemma {:induction false} ReceiversOnOneChannel(channels: seq<Channel>, id: string, ch: nat)
    requires ch < |channels| && channels[ch].id == id
    requires forall i :: 0 <= i < |channels| && i != ch && channels[i].id == id ==> channels[i].receivers == 0
    ensures ReceiversOf(channels, id) == channels[ch].receivers
  {
    if ch == 0 {
      NoReceivers(channels[1..], id);
    } else {
      assert channels[0].id == id ==> channels[0].receivers == 0;
      ReceiversOnOneChannel(channels[1..], id, ch - 1);
    }
  }

  lemma {:induction false} NoReceivers(channels: seq<Channel>, id: string)
    requires forall i :: 0 <= i < |channels| && channels[i].id == id ==> channels[i].receivers == 0
    ensures ReceiversOf(channels, id) == 0
  {
    if channels == [] {
    } else {
      NoReceivers(channels[1..], id);
    }
  }

  /** A broadcast through a live handle, which reaches the receivers of that handle's channel,
      therefore reaches every live subscriber of the room's id. */
  lemma BroadcastReachesEverySubscriber(steps: seq<Step>, ch: nat)
    requires IsRun(StrongFirst, EMPTY, steps)
    requires var h := After(StrongFirst, EMPTY, steps); ch < |h.channels| && h.channels[ch].handles > 0
    ensures var h := After(StrongFirst, EMPTY, steps);
            h.channels[ch].receivers == ReceiversOf(h.channels, h.channels[ch].id)
  {
    var h := After(StrongFirst, EMPTY, steps);
    forall i | 0 <= i < |h.channels| && i != ch && h.channels[i].id == h.channels[ch].id
      ensures h.channels[i].receivers == 0
    {
      if h.channels[i].receivers > 0 {
        LiveUsersShareTheChannel(steps, ch, i);
      }
    }
    ReceiversOnOneChannel(h.channels, h.channels[ch].id, ch);
  }

  // ---- The order of the two reads matters ----

  /** A subscriber arrives, and its handle goes, between the two reads. */
  const RACE: seq<Step> := [
    Enter("a"), Miss, Create, Enter("b"), Miss, ProbeFirst("a"), Subscribe(0), DropHandle(0), ProbeSecond]

  lemma RaceStates() returns (h3: Hub, h6: Hub, h9: Hub)
    ensures h3 == Hub(map["a" := 0], [Channel("a", 2, 1, 0)], Free)
    ensures h6 == h3.(lock := Scanning("b", {"a"}, Some("a")))
    ensures IsRun(ReceiversFirst, EMPTY, RACE[..6]) && After(ReceiversFirst, EMPTY, RACE[..6]) == h6
    ensures IsRun(ReceiversFirst, h6, RACE[6..]) && After(ReceiversFirst, h6, RACE[6..]) == h9
    ensures h9.rooms == map[] && h9.channels == [Channel("a", 0, 0, 1)]
  {
    h3 := Hub(map["a" := 0], [Channel("a", 2, 1, 0)], Free);
    h6 := h3.(lock := Scanning("b", {"a"}, Some("a")));
    assert RACE[..6] == [Enter("a"), Miss, Create] + [Enter("b"), Miss, ProbeFirst("a")];
    RaceCreates(h3);
    RaceProbes(h3, h6);
    RunJoin(ReceiversFirst, EMPTY, [Enter("a"), Miss, Create], [Enter("b"), Miss, ProbeFirst("a")]);
    assert RACE[6..] == [Subscribe(0), DropHandle(0), ProbeSecond];
    h9 := RaceEvicts(h6);
  }

  lemma RunThree(order: Order, h: Hub, a: Step, b: Step, c: Step)
    requires Enabled(h, a)
    requires Enabled(Apply(order, h, a), b)
    requires Enabled(Apply(order, Apply(order, h, a), b), c)
    ensures IsRun(order, h, [a, b, c])
    ensures After(order, h, [a, b, c]) == Apply(order, Apply(order, Apply(order, h, a), b), c)
  {
    var h1 := Apply(order, h, a);
    var h2 := Apply(order, h1, b);
    RunOne(order, h2, c, []);
    RunOne(order, h1, b, [c]);
    RunOne(order, h, a, [b, c]);
    assert [c] + [] == [c] && [b] + [c] == [b, c] && [a] + [b, c] == [a, b, c];
  }

  lemma RunOne(order: Order, h: Hub, s: Step, rest: seq<Step>)
    requires Enabled(h, s) && IsRun(order, Apply(order, h, s), rest)
    ensures IsRun(order, h, [s] + rest)
    ensures After(order, h, [s] + rest) == After(order, Apply(order, h, s), rest)
  {
    assert ([s] + rest)[1..] == rest;
  }

  lemma RaceCreates(h3: Hub)
    requires h3 == Hub(map["a" := 0], [Channel("a", 2, 1, 0)], Free)
    ensures IsRun(ReceiversFirst, EMPTY, [Enter("a"), Miss, Create])
    ensures After(ReceiversFirst, EMPTY, [Enter("a"), Miss, Create]) == h3
  {
    var h1 := Apply(ReceiversFirst, EMPTY, Enter("a"));
    var h2 := Apply(ReceiversFirst, h1, Miss);
    assert h2.lock.todo == {};
    RunThree(ReceiversFirst, EMPTY, Enter("a"), Miss, Create);
  }

  lemma RaceProbes(h3: Hub, h6: Hub)
    requires h3 == Hub(map["a" := 0], [Channel("a", 2, 1, 0)], Free)
    requires h6 == h3.(lock := Scanning("b", {"a"}, Some("a")))
    ensures IsRun(ReceiversFirst, h3, [Enter("b"), Miss, ProbeFirst("a")])
    ensures After(ReceiversFirst, h3, [Enter("b"), Miss, ProbeFirst("a")]) == h6
  {
    assert "a"[0] != "b"[0];
    var h5 := Apply(ReceiversFirst, Apply(ReceiversFirst, h3, Enter("b")), Miss);
    assert h5.lock.todo == {"a"};
    RunThree(ReceiversFirst, h3, Enter("b"), Miss, ProbeFirst("a"));
  }

  lemma RaceEvicts(h6: Hub) returns (h9: Hub)
    requires h6 == Hub(map["a" := 0], [Channel("a", 2, 1, 0)], Scanning("b", {"a"}, Some("a")))
    ensures IsRun(ReceiversFirst, h6, [Subscribe(0), DropHandle(0), ProbeSecond])
    ensures h9 == After(ReceiversFirst, h6, [Subscribe(0), DropHandle(0), ProbeSecond])
    ensures h9.rooms == map[] && h9.channels == [Channel("a", 0, 0, 1)]
  {
    RunThree(ReceiversFirst, h6, Subscribe(0), DropHandle(0), ProbeSecond);
    h9 := After(ReceiversFirst, h6, [Subscribe(0), DropHandle(0), ProbeSecond]);
  }

  lemma {:induction false} RunJoin(order: Order, h: Hub, a: seq<Step>, b: seq<Step>)
    requires IsRun(order, h, a) && IsRun(order, After(order, h, a), b)
    ensures IsRun(order, h, a + b) && After(order, h, a + b) == After(order, After(order, h, a), b)
    decreases |a|
  {
    if a == [] {
      assert a + b == b;
    } else {
      assert (a + b)[1..] == a[1..] + b;
      RunJoin(order, Apply(order, h, a[0]), a[1..], b);
    }
  }

  /** Reading the receiver count first would be wrong: the scan then evicts a room whose
      only user is a subscriber that arrived between the two reads. */
  lemma OtherOrderIsUnsafe()
    ensures IsRun(ReceiversFirst, EMPTY, RACE) && !Safe(After(ReceiversFirst, EMPTY, RACE))
  {
    var h3, h6, h9 := RaceStates();
    RunJoin(ReceiversFirst, EMPTY, RACE[..6], RACE[6..]);
    assert RACE == RACE[..6] + RACE[6..];
    assert Live(h9.channels[0]);
  }

  // ---- The lookup always completes ----

  predicate LockStep(s: Step) {
    s.Hit? || s.Miss? || s.ProbeFirst? || s.ProbeSecond? || s.Create?
  }

  /** The thread holding the lock always has a step to take. */
  lemma NextLockStep(h: Hub) returns (next: Step)
    requires Inv(h) && !h.lock.Free?
    ensures LockStep(next) && Enabled(h, next)
  {
    match h.lock
    case Entered(id) => next := if id in h.rooms then Hit else Miss;
    case Scanning(_, todo, probed) =>
      if probed.Some? {
        next := ProbeSecond;
      } else if todo == {} {
        next := Create;
      } else {
        var key :| key in todo;
        next := ProbeFirst(key);
      }
  }

  /** In no reachable state is the thread holding the lock stuck. */
  lemma LookupIsNeverStuck(steps: seq<Step>) returns (next: Step)
    requires IsRun(StrongFirst, EMPTY, steps) && !After(StrongFirst, EMPTY, steps).lock.Free?
    ensures LockStep(next) && Enabled(After(StrongFirst, EMPTY, steps), next)
  {
    RunKeepsInv(EMPTY, steps);
    next := NextLockStep(After(StrongFirst, EMPTY, steps));
  }

  /** Work left for the lookup: every lock step reduces it, whatever the other threads do. */
  function Remaining(h: Hub): nat {
    match h.lock
    case Free => 0
    case Entered(_) => 2 * |h.rooms| + 2
    case Scanning(_, todo, probed) => 2 * |todo| + 1 - if probed.Some? then 1 else 0
  }

  lemma StepMakesProgress(h: Hub, s: Step)
    requires Inv(h) && Enabled(h, s) && !s.Enter?
    ensures var h' := Apply(StrongFirst, h, s);
            if LockStep(s) then Remaining(h') < Remaining(h) else Remaining(h') == Remaining(h)
  {
    if s.Miss? {
      assert |h.rooms.Keys| == |h.rooms|;
    }
  }

  /** The steps of a run taken under the lock. */
  function LockSteps(steps: seq<Step>): nat
  {
    if steps == [] then 0 else (if LockStep(steps[0]) then 1 else 0) + LockSteps(steps[1..])
  }

  lemma {:induction false} RunMakesProgress(h: Hub, steps: seq<Step>)
    requires Inv(h) && IsRun(StrongFirst, h, steps) && forall i :: 0 <= i < |steps| ==> !steps[i].Enter?
    ensures LockSteps(steps) + Remaining(After(StrongFirst, h, steps)) <= Remaining(h)
    decreases |steps|
  {
    if steps == [] {
    } else {
      StepKeepsInv(h, steps[0]);
      StepMakesProgress(h, steps[0]);
      RunMakesProgress(Apply(StrongFirst, h, steps[0]), steps[1..]);
    }
  }

  /** In every interleaving a lookup completes within `2 * |rooms| + 2` locked steps, counting
      the rooms there were when it took the lock: as long as it holds the lock it has taken fewer. */
  lemma LookupIsBounded(before: seq<Step>, id: string, during: seq<Step>)
    requires IsRun(StrongFirst, EMPTY, before) && After(StrongFirst, EMPTY, before).lock.Free?
    requires IsRun(StrongFirst, Apply(StrongFirst, After(StrongFirst, EMPTY, before), Enter(id)), during)
    requires forall i :: 0 <= i < |during| ==> !during[i].Enter?
    ensures var start := After(StrongFirst, EMPTY, before);
            var end := After(StrongFirst, Apply(StrongFirst, start, Enter(id)), during);
            && LockSteps(during) <= 2 * |start.rooms| + 2
            && (!end.lock.Free? ==> LockSteps(during) < 2 * |start.rooms| + 2)
  {
    var start := After(StrongFirst, EMPTY, before);
    RunKeepsInv(EMPTY, before);
    StepKeepsInv(start, Enter(id));
    RunMakesProgress(Apply(StrongFirst, start, Enter(id)), during);
    RunKeepsInv(Apply(StrongFirst, start, Enter(id)), during);
    var end := After(StrongFirst, Apply(StrongFirst, start, Enter(id)), during);
    assert !end.lock.Free? ==> Remaining(end) > 0;
  }

  /** And it can: from every state of a lookup, its own steps alone release the lock in time. */
  lemma {:induction false} LookupCanComplete(h: Hub) returns (rest: seq<Step>)
    requires Inv(h)
    ensures IsRun(StrongFirst, h, rest) && After(StrongFirst, h, rest).lock.Free?
    ensures LockSteps(rest) == |rest| <= Remaining(h)
    decreases Remaining(h)
  {
    if h.lock.Free? {
      rest := [];
    } else {
      var next := NextLockStep(h);
      StepKeepsInv(h, next);
      StepMakesProgress(h, next);
      var more := LookupCanComplete(Apply(StrongFirst, h, next));
      rest := [next] + more;
      RunOne(StrongFirst, h, next, more);
      assert rest[1..] == more;
    }
  }
}
