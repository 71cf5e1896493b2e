/** The hub as an object: `room`, handle clones and drops, subscriptions and broadcasts, each
    run without interruption, and each shown to be a run of the interleaved machine. */
module BroadcastHub {
  import opened Prelude
  import opened HubMachine

  /** The rooms eviction keeps: those some handle or receiver still uses. */
  function UsedRooms(rooms: map<string, nat>, channels: seq<Channel>): map<string, nat>
    requires forall key :: key in rooms ==> rooms[key] < |channels|
  {
    map key | key in rooms && Live(channels[rooms[key]]) :: rooms[key]
  }

  class BroadcastHub {
    var rooms: map<string, nat>
    var channels: seq<Channel>

    constructor ()
      ensures State() == EMPTY && Valid()
    {
      rooms := map[];
      channels := [];
    }

    ghost function State(): Hub
      reads this
    {
      Hub(rooms, channels, Free)
    }

    ghost predicate Valid()
      reads this
    {
      Inv(State())
    }

    /** The hub as it stands while a lookup for `id` is scanning. */
    ghost function Scan(id: string, todo: set<string>): Hub
      reads this
    {
      Hub(rooms, channels, Scanning(id, todo, None))
    }

    /** The room for `id`. A new id first evicts the rooms nobody uses any more; an existing
        id changes no mapping. `steps` is the run of the machine that this call performs. */
    method Room(id: string) returns (ch: nat, ghost steps: seq<Step>)
      requires Valid()
      modifies this
      ensures Valid() && IsRunTo(old(State()), steps, State())
      ensures ch < |channels| && channels[ch].id == id && channels[ch].handles > 0 && Mapped(State(), ch)
      ensures id in old(rooms) ==> ch < |old(channels)| && channels[ch].handles == old(channels)[ch].handles + 1
      ensures id !in old(rooms) ==> channels[ch].handles == 1 && channels[ch].receivers == 0
      ensures |channels| == |old(channels)| + if id in old(rooms) then 0 else 1
      ensures forall i :: 0 <= i < |old(channels)| ==>
                && channels[i].id == old(channels)[i].id && channels[i].receivers == old(channels)[i].receivers
                && (i != ch ==> channels[i].handles == old(channels)[i].handles)
      ensures id in old(rooms) ==> rooms == old(rooms) && ch == old(rooms)[id]
      ensures id !in old(rooms) ==>
                rooms == UsedRooms(old(rooms), old(channels))[id := ch] && ch == |old(channels)|
    {
      ghost var start := State();
      ghost var entered := start.(lock := Entered(id));
      RunNone(start);
      steps := Perform(start, [], start, Enter(id));
      if id in rooms {
        ch := rooms[id];
        steps := Perform(start, steps, entered, Hit);
        StepKeepsInv(entered, Hit);
        var c := channels[ch];
        channels := channels[ch := c.(strong := c.strong + 1, handles := c.handles + 1)];
      } else {
        steps := Perform(start, steps, entered, Miss);
        ghost var more := Retain(id);
        RunJoin(StrongFirst, start, steps, more);
        steps := steps + more;
        ghost var scanned := Scan(id, {});
        StepKeepsInv(scanned, Create);
        steps := Perform(start, steps, scanned, Create);
        ch := |channels|;
        rooms := rooms[id := ch];
        channels := channels + [Channel(id, 2, 1, 0)];
      }
    }

    /** `retain` over the map: keeps exactly the rooms in use, visiting the entries in any order. */
    method Retain(id: string) returns (ghost steps: seq<Step>)
      requires Inv(Scan(id, rooms.Keys))
      modifies this
      ensures Inv(Scan(id, {})) && IsRunTo(old(Scan(id, rooms.Keys)), steps, Scan(id, {}))
      ensures rooms == UsedRooms(old(rooms), old(channels)) && SameUsers(old(channels), channels)
    {
      ghost var start := Scan(id, rooms.Keys);
      var todo := rooms.Keys;
      RunNone(start);
      ScanStarts(start);
      steps := [];
      while todo != {}
        invariant Inv(Scan(id, todo)) && IsRunTo(start, steps, Scan(id, todo))
        invariant ScannedSoFar(start, rooms, channels, todo)
        decreases todo
      {
        var key :| key in todo;
        ghost var (before, was) := (rooms, channels);
        ghost var more := Decide(id, key, todo);
        RunJoin(StrongFirst, start, steps, more);
        steps := steps + more;
        EntryDecided(start, before, rooms, was, channels, todo, key);
        todo := todo - {key};
      }
      ScanIsDone(start, rooms, channels);
    }

    /** The eviction test for one entry: strong count first, then the receivers. */
    method Decide(id: string, key: string, ghost todo: set<string>) returns (ghost steps: seq<Step>)
      requires Inv(Scan(id, todo)) && key in todo
      modifies this
      ensures Inv(Scan(id, todo - {key})) && IsRunTo(old(Scan(id, todo)), steps, Scan(id, todo - {key}))
      ensures SameUsers(old(channels), channels)
      ensures rooms == if Live(old(channels)[old(rooms)[key]]) then old(rooms) else old(rooms) - {key}
    {
      ghost var start := Scan(id, todo);
      RunNone(start);
      steps := Perform(start, [], start, ProbeFirst(key));
      StepKeepsInv(start, ProbeFirst(key));
      assert Mapped(start, rooms[key]);
      if channels[rooms[key]].strong > 1 {
        return;
      }
      ghost var probed := Apply(StrongFirst, start, ProbeFirst(key));
      steps := Perform(start, steps, probed, ProbeSecond);
      StepKeepsInv(probed, ProbeSecond);
      if channels[rooms[key]].receivers > 0 {
        return;
      }
      var dead := rooms[key];
      rooms := rooms - {key};
      channels := channels[dead := channels[dead].(strong := channels[dead].strong - 1)];
    }

    function RoomCount(): (count: nat)
      reads this
      ensures count == |rooms.Keys|
    {
      |rooms|
    }

    /** Cloning a `Room`. */
    method CloneHandle(ch: nat)
      requires Valid() && ch < |channels| && channels[ch].handles > 0
      modifies this`channels
      ensures Valid() && State() == Apply(StrongFirst, old(State()), Step.CloneHandle(ch))
      ensures channels == old(channels)[ch := old(channels)[ch].(strong := old(channels)[ch].strong + 1,
                                                                handles := old(channels)[ch].handles + 1)]
    {
      StepKeepsInv(State(), Step.CloneHandle(ch));
      channels := channels[ch := channels[ch].(strong := channels[ch].strong + 1, handles := channels[ch].handles + 1)];
    }

    /** Dropping a `Room`. */
    method DropHandle(ch: nat)
      requires Valid() && ch < |channels| && channels[ch].handles > 0
      modifies this`channels
      ensures Valid() && State() == Apply(StrongFirst, old(State()), Step.DropHandle(ch))
      ensures channels == old(channels)[ch := old(channels)[ch].(strong := old(channels)[ch].strong - 1,
                                                                handles := old(channels)[ch].handles - 1)]
    {
      StepKeepsInv(State(), Step.DropHandle(ch));
      channels := channels[ch := channels[ch].(strong := channels[ch].strong - 1, handles := channels[ch].handles - 1)];
    }

    method Subscribe(ch: nat)
      requires Valid() && ch < |channels| && channels[ch].handles > 0
      modifies this`channels
      ensures Valid() && State() == Apply(StrongFirst, old(State()), Step.Subscribe(ch))
      ensures channels == old(channels)[ch := old(channels)[ch].(receivers := old(channels)[ch].receivers + 1)]
    {
      StepKeepsInv(State(), Step.Subscribe(ch));
      channels := channels[ch := channels[ch].(receivers := channels[ch].receivers + 1)];
    }

    method DropReceiver(ch: nat)
      requires Valid() && ch < |channels| && channels[ch].receivers > 0
      modifies this`channels
      ensures Valid() && State() == Apply(StrongFirst, old(State()), Step.DropReceiver(ch))
      ensures channels == old(channels)[ch := old(channels)[ch].(receivers := old(channels)[ch].receivers - 1)]
    {
      StepKeepsInv(State(), Step.DropReceiver(ch));
      channels := channels[ch := channels[ch].(receivers := channels[ch].receivers - 1)];
    }

    /** Sending reaches the receivers of the handle's channel, which are all the receivers of
        the room's id. */
    method Broadcast(ch: nat) returns (reached: nat)
      requires Valid() && ch < |channels| && channels[ch].handles > 0
      ensures reached == ReceiversOf(channels, channels[ch].id)
    {
      ReceiversOnOneChannel(channels, channels[ch].id, ch);
      reached := channels[ch].receivers;
    }
  }

  ghost predicate IsRunTo(start: Hub, steps: seq<Step>, end: Hub) {
    IsRun(StrongFirst, start, steps) && After(StrongFirst, start, steps) == end
  }

  predicate SameUsers(a: seq<Channel>, b: seq<Channel>) {
    |a| == |b| && forall ch :: 0 <= ch < |a| ==>
      b[ch].id == a[ch].id && b[ch].handles == a[ch].handles && b[ch].receivers == a[ch].receivers
  }

  /** Of the entries at the start of the scan, the undecided ones and the used ones are left. */
  ghost predicate ScannedSoFar(start: Hub, rooms: map<string, nat>, channels: seq<Channel>, todo: set<string>) {
    && RoomsWellFormed(start) && SameUsers(start.channels, channels) && rooms.Keys <= start.rooms.Keys
    && forall key :: key in start.rooms ==>
         && (key in rooms <==> key in todo || Live(start.channels[start.rooms[key]]))
         && (key in rooms ==> rooms[key] == start.rooms[key])
  }

  lemma ScanStarts(start: Hub)
    requires RoomsWellFormed(start)
    ensures ScannedSoFar(start, start.rooms, start.channels, start.rooms.Keys)
  {}

  lemma EntryDecided(start: Hub, before: map<string, nat>, after: map<string, nat>, was: seq<Channel>,
                     channels: seq<Channel>, todo: set<string>, key: string)
    requires ScannedSoFar(start, before, was, todo) && key in todo && key in start.rooms && SameUsers(was, channels)
    requires after == if Live(was[start.rooms[key]]) then before else before - {key}
    ensures ScannedSoFar(start, after, channels, todo - {key})
  {}

  lemma ScanIsDone(start: Hub, rooms: map<string, nat>, channels: seq<Channel>)
    requires ScannedSoFar(start, rooms, channels, {})
    ensures rooms == UsedRooms(start.rooms, start.channels)
  {}

  lemma RunNone(h: Hub)
    ensures IsRunTo(h, [], h)
  {}

  /** Extends a run by one step. */
  lemma Perform(start: Hub, steps: seq<Step>, h: Hub, s: Step) returns (longer: seq<Step>)
    requires IsRunTo(start, steps, h) && Enabled(h, s)
    ensures longer == steps + [s] && IsRunTo(start, longer, Apply(StrongFirst, h, s))
  {
    longer := steps + [s];
    RunOne(StrongFirst, h, s, []);
    assert [s] + [] == [s];
    RunJoin(StrongFirst, start, steps, [s]);
  }
}
