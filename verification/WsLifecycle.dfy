/** When a WebSocket connection's disconnect hooks run: inline in `recv`, or from the drop. */
module WsLifecycle {
  import opened Prelude

  /** One call of a disconnect hook, with the close code it was given. */
  datatype HookCall = HookCall(hook: nat, closeCode: Option<nat>)

  /** The fields the hooks depend on, and the calls made so far. */
  datatype Conn = Conn(closeCode: Option<nat>, hooksFired: bool, calls: seq<HookCall>)

  const OPENED := Conn(None, false, [])

  /** What one frame turns out to be: a close with or without a code, a raw frame the protocol
      layer keeps to itself, or any other message. */
  datatype Message = Close(code: Option<nat>) | RawFrame | Payload

  datatype Outcome = Shutdown | Idle | Closed | Error | Message(message: Message)

  /** One round of the receive loop: whether the server is already shutting down, and
      otherwise what the wait ends with. */
  datatype Round = Round(alreadyShuttingDown: bool, outcome: Outcome)

  /** How `recv` returned. `Waiting` is a call still waiting for a frame after its rounds. */
  datatype Received = NoMore | Failed | Got(message: Message) | Waiting

  /** What a handler does with its connection. `alive` tells whether the hook table still
      exists at that point (the connection only holds a weak reference to it). */
  datatype Op = Recv(rounds: seq<Round>, alive: bool) | Send | LocalClose(code: nat)

  function CallsFrom(first: nat, hooks: nat, code: Option<nat>): seq<HookCall>
    decreases hooks - first
  {
    if first >= hooks then [] else [HookCall(first, code)] + CallsFrom(first + 1, hooks, code)
  }

  /** Every hook once, in order, with one close code. */
  function AllHooks(hooks: nat, code: Option<nat>): seq<HookCall> {
    CallsFrom(0, hooks, code)
  }

  /** `fire_disconnect_hooks`. */
  function Fired(c: Conn, hooks: nat, alive: bool): Conn {
    if !alive then c.(hooksFired := true)
    else if c.hooksFired || hooks == 0 then c
    else c.(hooksFired := true, calls := c.calls + AllHooks(hooks, c.closeCode))
  }

  function AfterRecv(c: Conn, hooks: nat, rounds: seq<Round>, alive: bool): (Conn, Received)
    decreases |rounds|
  {
    if rounds == [] then (c, Waiting)
    else if rounds[0].alreadyShuttingDown then (Fired(c, hooks, alive), NoMore)
    else match rounds[0].outcome
      case Shutdown => (Fired(c, hooks, alive), NoMore)
      case Idle => (Fired(c, hooks, alive), NoMore)
      case Closed => (Fired(c, hooks, alive), NoMore)
      case Error => (c, Failed)
      case Message(Close(code)) =>
        (Fired(if code.Some? then c.(closeCode := code) else c, hooks, alive), Got(Close(code)))
      case Message(RawFrame) => AfterRecv(c, hooks, rounds[1..], alive)
      case Message(Payload) => (c, Got(Payload))
  }

  /** The first round that is decisive: the server is shutting down, or the wait ends with
      anything but a raw frame. */
  function FirstDecisive(rounds: seq<Round>): (k: nat)
    ensures k <= |rounds|
    ensures k < |rounds| ==> rounds[k].alreadyShuttingDown || rounds[k].outcome != Message(RawFrame)
    ensures forall i :: 0 <= i < k ==> !rounds[i].alreadyShuttingDown && rounds[i].outcome == Message(RawFrame)
  {
    if rounds == [] || rounds[0].alreadyShuttingDown || rounds[0].outcome != Message(RawFrame) then 0
    else 1 + FirstDecisive(rounds[1..])
  }

  /** How a receive returns: by its first decisive round, or not yet without one. */
  function Answer(rounds: seq<Round>): Received {
    var k := FirstDecisive(rounds);
    if k == |rounds| then Waiting
    else if rounds[k].alreadyShuttingDown then NoMore
    else match rounds[k].outcome
      case Message(m) => Got(m)
      case Error => Failed
      case Shutdown => NoMore
      case Idle => NoMore
      case Closed => NoMore
  }

  /** `recv` gives the handler every message but raw frames, an error as an error, and the end
      only on a shutdown, an idle timeout or a closed stream. */
  lemma {:induction false} ReceivedIs(c: Conn, hooks: nat, rounds: seq<Round>, alive: bool)
    ensures AfterRecv(c, hooks, rounds, alive).1 == Answer(rounds)
    decreases |rounds|
  {
    if rounds != [] && !rounds[0].alreadyShuttingDown && rounds[0].outcome == Message(RawFrame) {
      ReceivedIs(c, hooks, rounds[1..], alive);
    }
  }

  function AfterOp(c: Conn, hooks: nat, op: Op): Conn {
    match op
    case Recv(rounds, alive) => AfterRecv(c, hooks, rounds, alive).0
    case Send => c
    case LocalClose(code) => c.(closeCode := Some(code))
  }

  function AfterOps(c: Conn, hooks: nat, ops: seq<Op>): Conn
    decreases |ops|
  {
    if ops == [] then c else AfterOps(AfterOp(c, hooks, ops[0]), hooks, ops[1..])
  }

  /** Dropping the connection: the fallback that spawns the hooks when nothing ran them. */
  function AfterDrop(c: Conn, hooks: nat, alive: bool, runtime: bool): Conn {
    if !alive || c.hooksFired || hooks == 0 || !runtime then c
    else c.(calls := c.calls + AllHooks(hooks, c.closeCode))
  }

  // ---- The connection as an object ----

  class WebSocketConn {
    var closeCode: Option<nat>
    var hooksFired: bool
    var calls: seq<HookCall>
    const hooks: nat

    constructor (hooks: nat)
      ensures State() == OPENED && this.hooks == hooks
    {
      this.hooks := hooks;
      closeCode := None;
      hooksFired := false;
      calls := [];
    }

    ghost function State(): Conn
      reads this
    {
      Conn(closeCode, hooksFired, calls)
    }

    method FireDisconnectHooks(alive: bool)
      modifies this`hooksFired, this`calls
      ensures State() == Fired(old(State()), hooks, alive)
    {
      if !alive {
        hooksFired := true;
        return;
      }
      if hooksFired || hooks == 0 {
        return;
      }
      hooksFired := true;
      RunHooks();
    }

    /** Awaits every hook in turn. */
    method RunHooks()
      modifies this`calls
      ensures calls == old(calls) + AllHooks(hooks, closeCode)
    {
      for i := 0 to hooks
        invariant calls + CallsFrom(i, hooks, closeCode) == old(calls) + AllHooks(hooks, closeCode)
      {
        assert CallsFrom(i, hooks, closeCode) == [HookCall(i, closeCode)] + CallsFrom(i + 1, hooks, closeCode);
        calls := calls + [HookCall(i, closeCode)];
      }
    }

    method Recv(rounds: seq<Round>, alive: bool) returns (r: Received)
      modifies this
      ensures (State(), r) == AfterRecv(old(State()), hooks, rounds, alive)
      ensures r == Answer(rounds)
    {
      ReceivedIs(State(), hooks, rounds, alive);
      var i := 0;
      while i < |rounds|
        invariant 0 <= i <= |rounds| && State() == old(State())
        invariant AfterRecv(old(State()), hooks, rounds, alive) == AfterRecv(old(State()), hooks, rounds[i..], alive)
      {
        var round := rounds[i];
        assert rounds[i..][1..] == rounds[i + 1..];
        if round.alreadyShuttingDown {
          FireDisconnectHooks(alive);
          return NoMore;
        }
        match round.outcome {
          case Shutdown =>
            FireDisconnectHooks(alive);
            return NoMore;
          case Idle =>
            FireDisconnectHooks(alive);
            return NoMore;
          case Closed =>
            FireDisconnectHooks(alive);
            return NoMore;
          case Error =>
            return Failed;
          case Message(message) =>
            if message != RawFrame {
              if message.Close? {
                if message.code.Some? {
                  closeCode := message.code;
                }
                FireDisconnectHooks(alive);
              }
              return Got(message);
            }
        }
        i := i + 1;
      }
      return Waiting;
    }

    method Close(code: nat)
      modifies this`closeCode
      ensures State() == AfterOp(old(State()), hooks, LocalClose(code))
      ensures closeCode == Some(code)
    {
      closeCode := Some(code);
    }

    method Drop(alive: bool, runtime: bool)
      modifies this`calls
      ensures State() == AfterDrop(old(State()), hooks, alive, runtime)
    {
      if !alive {
        return;
      }
      if hooksFired || hooks == 0 {
        return;
      }
      if runtime {
        RunHooks();
      }
    }
  }

  // ---- Whole connections ----

  /** The op completed a receive that ended the connection for the hooks' purposes. */
  predicate Ends(op: Op) {
    op.Recv? && EndsWithin(op.rounds)
  }

  predicate EndsWithin(rounds: seq<Round>)
    decreases |rounds|
  {
    rounds != [] && (
      rounds[0].alreadyShuttingDown
      || match rounds[0].outcome
         case Error => false
         case Message(message) => message.Close? || (message.RawFrame? && EndsWithin(rounds[1..]))
         case _ => true)
  }

  /** The close code known after some ops: the last one a peer's close or `close` recorded. */
  function CodeAfter(code: Option<nat>, ops: seq<Op>): Option<nat>
    decreases |ops|
  {
    if ops == [] then code
    else
      var next := match ops[0]
        case Recv(rounds, _) => CodeIn(code, rounds)
        case Send => code
        case LocalClose(c) => Some(c);
      CodeAfter(next, ops[1..])
  }

  /** The code after one receive: a peer close with a code replaces it. */
  function CodeIn(code: Option<nat>, rounds: seq<Round>): Option<nat>
    decreases |rounds|
  {
    if rounds == [] || rounds[0].alreadyShuttingDown then code
    else match rounds[0].outcome
      case Message(Close(c)) => if c.Some? then c else code
      case Message(RawFrame) => CodeIn(code, rounds[1..])
      case _ => code
  }

  lemma {:induction false} RecvAccount(c: Conn, hooks: nat, rounds: seq<Round>, alive: bool)
    ensures AfterRecv(c, hooks, rounds, alive).0 ==
            var coded := c.(closeCode := CodeIn(c.closeCode, rounds));
            if EndsWithin(rounds) then Fired(coded, hooks, alive) else coded
    decreases |rounds|
  {
    if rounds != [] && !rounds[0].alreadyShuttingDown && rounds[0].outcome == Message(RawFrame) {
      RecvAccount(c, hooks, rounds[1..], alive);
    }
  }

  /** The first op that ends the connection, or `|ops|` if none does. */
  function FirstEnd(ops: seq<Op>): nat
  {
    if ops == [] || Ends(ops[0]) then 0 else 1 + FirstEnd(ops[1..])
  }

  lemma {:induction false} FirstEndBound(ops: seq<Op>)
    ensures FirstEnd(ops) <= |ops|
    ensures FirstEnd(ops) < |ops| ==> Ends(ops[FirstEnd(ops)])
  {
    if ops != [] && !Ends(ops[0]) {
      FirstEndBound(ops[1..]);
    }
  }

  lemma {:induction false} AfterFired(c: Conn, hooks: nat, ops: seq<Op>)
    requires c.hooksFired
    ensures AfterOps(c, hooks, ops).hooksFired && AfterOps(c, hooks, ops).calls == c.calls
    decreases |ops|
  {
    if ops == [] {
    } else {
      if ops[0].Recv? {
        RecvAccount(c, hooks, ops[0].rounds, ops[0].alive);
      }
      AfterFired(AfterOp(c, hooks, ops[0]), hooks, ops[1..]);
    }
  }

  /** Until some op ends the connection nothing fires; the op that does decides for good. */
  lemma {:induction false} OpsAccount(c: Conn, hooks: nat, ops: seq<Op>)
    requires !c.hooksFired && c.calls == [] && hooks > 0
    ensures var (end, k) := (AfterOps(c, hooks, ops), FirstEnd(ops));
            && k <= |ops| && (end.hooksFired <==> k < |ops|)
            && end.calls == (if k < |ops| && Ends(ops[k]) && ops[k].alive
                             then AllHooks(hooks, CodeAfter(c.closeCode, ops[..k + 1])) else [])
            && (k == |ops| ==> end.closeCode == CodeAfter(c.closeCode, ops))
    decreases |ops|
  {
    if ops == [] {
    } else {
      var op := ops[0];
      var next := AfterOp(c, hooks, op);
      if op.Recv? {
        RecvAccount(c, hooks, op.rounds, op.alive);
      }
      FirstEndBound(ops);
      if Ends(op) {
        AfterFired(next, hooks, ops[1..]);
        assert ops[..1][1..] == [] && CodeAfter(next.closeCode, []) == next.closeCode;
        assert [] + AllHooks(hooks, next.closeCode) == AllHooks(hooks, next.closeCode);
      } else {
        OpsAccount(next, hooks, ops[1..]);
        if FirstEnd(ops) < |ops| {
          assert ops[..FirstEnd(ops) + 1][1..] == ops[1..][..FirstEnd(ops[1..]) + 1];
        }
      }
    }
  }

  /** When the hooks run, for every connection: at the first op that ends it, if the hook table
      is alive then; if no op ends it, at the drop, if the table and a runtime are alive. They
      run once each, in order, and report the close code last recorded before they ran. */
  function ExpectedCalls(hooks: nat, ops: seq<Op>, alive: bool, runtime: bool): seq<HookCall> {
    var k := FirstEnd(ops);
    if k < |ops| then if Ends(ops[k]) && ops[k].alive then AllHooks(hooks, CodeAfter(None, ops[..k + 1])) else []
    else if alive && runtime then AllHooks(hooks, CodeAfter(None, ops))
    else []
  }

  lemma HooksRunExactlyWhen(hooks: nat, ops: seq<Op>, alive: bool, runtime: bool)
    ensures AfterDrop(AfterOps(OPENED, hooks, ops), hooks, alive, runtime).calls ==
            ExpectedCalls(hooks, ops, alive, runtime)
  {
    FirstEndBound(ops);
    if hooks > 0 {
      OpsAccount(OPENED, hooks, ops);
      var code := CodeAfter(None, ops);
      assert [] + AllHooks(hooks, code) == AllHooks(hooks, code);
    } else {
      NoHooksNoCalls(OPENED, ops);
    }
  }

  /** How often a hook was called. */
  function CallCount(calls: seq<HookCall>, hook: nat): nat
  {
    if calls == [] then 0 else (if calls[0].hook == hook then 1 else 0) + CallCount(calls[1..], hook)
  }

  lemma {:induction false} EachHookOnce(first: nat, hooks: nat, code: Option<nat>, hook: nat)
    requires first <= hooks
    ensures CallCount(CallsFrom(first, hooks, code), hook) == if first <= hook < hooks then 1 else 0
    decreases hooks - first
  {
    if first == hooks {
    } else {
      EachHookOnce(first + 1, hooks, code, hook);
    }
  }

  /** With the table and a runtime alive throughout, every disconnect hook runs exactly once,
      whichever way the connection ends; and never twice, whatever dies when. */
  lemma HooksRunOnce(hooks: nat, ops: seq<Op>, alive: bool, runtime: bool, hook: nat)
    requires hook < hooks
    ensures CallCount(AfterDrop(AfterOps(OPENED, hooks, ops), hooks, alive, runtime).calls, hook) <= 1
    ensures alive && runtime && (forall i :: 0 <= i < |ops| && ops[i].Recv? ==> ops[i].alive) ==>
              CallCount(AfterDrop(AfterOps(OPENED, hooks, ops), hooks, alive, runtime).calls, hook) == 1
  {
    HooksRunExactlyWhen(hooks, ops, alive, runtime);
    FirstEndBound(ops);
    var k := FirstEnd(ops);
    EachHookOnce(0, hooks, CodeAfter(None, if k < |ops| then ops[..k + 1] else ops), hook);
  }

  lemma {:induction false} NoHooksNoCalls(c: Conn, ops: seq<Op>)
    ensures AfterOps(c, 0, ops).calls == c.calls
    decreases |ops|
  {
    if ops == [] {
    } else {
      if ops[0].Recv? {
        RecvAccount(c, 0, ops[0].rounds, ops[0].alive);
      }
      NoHooksNoCalls(AfterOp(c, 0, ops[0]), ops[1..]);
    }
  }

  /** The hooks are called in order, each with the same close code. */
  lemma {:induction false} CallsFromAre(first: nat, hooks: nat, code: Option<nat>, i: nat)
    requires first + i < hooks
    ensures |CallsFrom(first, hooks, code)| == hooks - first
    ensures CallsFrom(first, hooks, code)[i] == HookCall(first + i, code)
    decreases hooks - first
  {
    if first + 1 == hooks {
      assert CallsFrom(first + 1, hooks, code) == [];
    } else {
      CallsFromAre(first + 1, hooks, code, if i == 0 then 0 else i - 1);
    }
  }

  /** When the calls of a connection are made at all, call `i` is hook `i`, with the close code
      last recorded by the op that ended the connection, or by the time of the drop. */
  lemma CallsAre(hooks: nat, ops: seq<Op>, alive: bool, runtime: bool, i: nat)
    requires i < hooks
    requires ExpectedCalls(hooks, ops, alive, runtime) != []
    ensures var (calls, k) := (AfterDrop(AfterOps(OPENED, hooks, ops), hooks, alive, runtime).calls, FirstEnd(ops));
            && |calls| == hooks && k <= |ops|
            && calls[i] == HookCall(i, CodeAfter(None, if k < |ops| then ops[..k + 1] else ops))
  {
    HooksRunExactlyWhen(hooks, ops, alive, runtime);
    FirstEndBound(ops);
    var k := FirstEnd(ops);
    CallsFromAre(0, hooks, CodeAfter(None, if k < |ops| then ops[..k + 1] else ops), i);
  }

  /** The answers of the receives of a connection. */
  function Answers(ops: seq<Op>): seq<Received>
  {
    if ops == [] then [] else (if ops[0].Recv? then [Answer(ops[0].rounds)] else []) + Answers(ops[1..])
  }

  /** A whole connection, from the upgrade through the handler's calls to the drop: the receives
      return what arrived, and the hook calls are exactly those `ExpectedCalls` says, so no hook
      runs twice. */
  method RunConnection(hooks: nat, ops: seq<Op>, alive: bool, runtime: bool)
    returns (calls: seq<HookCall>, received: seq<Received>)
    ensures calls == ExpectedCalls(hooks, ops, alive, runtime)
    ensures forall hook :: 0 <= hook < hooks ==> CallCount(calls, hook) <= 1
    ensures received == Answers(ops)
  {
    var conn := new WebSocketConn(hooks);
    received := [];
    for i := 0 to |ops|
      invariant conn.hooks == hooks
      invariant AfterOps(conn.State(), hooks, ops[i..]) == AfterOps(OPENED, hooks, ops)
      invariant received + Answers(ops[i..]) == Answers(ops)
    {
      assert ops[i..][1..] == ops[i + 1..];
      match ops[i] {
        case Recv(rounds, tableAlive) =>
          var answer := conn.Recv(rounds, tableAlive);
          ConcatAssoc(received, [answer], Answers(ops[i + 1..]));
          received := received + [answer];
        case Send =>
        case LocalClose(code) =>
          conn.Close(code);
      }
    }
    conn.Drop(alive, runtime);
    HooksRunExactlyWhen(hooks, ops, alive, runtime);
    forall hook | 0 <= hook < hooks
      ensures CallCount(conn.calls, hook) <= 1
    {
      HooksRunOnce(hooks, ops, alive, runtime, hook);
    }
    calls := conn.calls;
  }
}
