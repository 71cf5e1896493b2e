/** The per-address cap on WebSocket connections: permits taken on accept, returned on drop. */
module WsLimiter {
  /** A client address. */
  type Ip = nat

  /** The shared count table, and who holds a permit right now. */
  datatype Table = Table(counts: map<Ip, nat>, live: multiset<Ip>)

  const EMPTY := Table(map[], multiset{})

  datatype Step = TryAcquire(ip: Ip) | DropPermit(ip: Ip)

  function Stored(counts: map<Ip, nat>, ip: Ip): nat {
    if ip in counts then counts[ip] else 0
  }

  /** Looking an address up inserts a zero entry for it, even when the attempt then fails. */
  function AfterAcquire(counts: map<Ip, nat>, max: nat, ip: Ip): map<Ip, nat> {
    counts[ip := if Stored(counts, ip) >= max then Stored(counts, ip) else Stored(counts, ip) + 1]
  }

  predicate Acquires(counts: map<Ip, nat>, max: nat, ip: Ip) {
    Stored(counts, ip) < max
  }

  function AfterDrop(counts: map<Ip, nat>, ip: Ip): map<Ip, nat> {
    if ip !in counts then counts
    else if counts[ip] <= 1 then counts - {ip}
    else counts[ip := counts[ip] - 1]
  }

  predicate Enabled(t: Table, s: Step) {
    s.DropPermit? ==> s.ip in t.live
  }

  function Apply(t: Table, max: nat, s: Step): Table
    requires Enabled(t, s)
  {
    match s
    case TryAcquire(ip) =>
      Table(AfterAcquire(t.counts, max, ip), if Acquires(t.counts, max, ip) then t.live + multiset{ip} else t.live)
    case DropPermit(ip) => Table(AfterDrop(t.counts, ip), t.live - multiset{ip})
  }

  predicate IsRun(t: Table, max: nat, steps: seq<Step>)
    decreases |steps|
  {
    steps == [] || (Enabled(t, steps[0]) && IsRun(Apply(t, max, steps[0]), max, steps[1..]))
  }

  function After(t: Table, max: nat, steps: seq<Step>): Table
    requires IsRun(t, max, steps)
    decreases |steps|
  {
    if steps == [] then t else After(Apply(t, max, steps[0]), max, steps[1..])
  }

  /** The answer to one step: an attempt gets a permit exactly while the address holds fewer
      than the cap. */
  function Answer(t: Table, max: nat, s: Step): seq<bool> {
    if s.TryAcquire? then [t.live[s.ip] < max] else []
  }

  function Answers(t: Table, max: nat, steps: seq<Step>): seq<bool>
    requires IsRun(t, max, steps)
    decreases |steps|
  {
    if steps == [] then [] else Answer(t, max, steps[0]) + Answers(Apply(t, max, steps[0]), max, steps[1..])
  }

  /** Every count is the number of permits out, within the cap; entries left at zero exist
      only when the cap is zero. */
  ghost predicate Balanced(t: Table, max: nat) {
    && (forall ip :: Stored(t.counts, ip) == t.live[ip])
    && (forall ip :: t.live[ip] <= max)
    && (max > 0 ==> forall ip :: ip in t.counts ==> t.counts[ip] > 0)
  }

  lemma AcquireKeepsBalance(t: Table, max: nat, ip: Ip)
    requires Balanced(t, max)
    ensures Balanced(Apply(t, max, TryAcquire(ip)), max)
    ensures Acquires(t.counts, max, ip) <==> t.live[ip] != max
  {
    var t' := Apply(t, max, TryAcquire(ip));
    assert Stored(t.counts, ip) == t.live[ip] <= max;
    assert Stored(t'.counts, ip) == t'.live[ip];
    forall other | other != ip
      ensures Stored(t'.counts, other) == t'.live[other] <= max
    {
      assert Stored(t.counts, other) == t.live[other];
    }
  }

  lemma DropKeepsBalance(t: Table, max: nat, ip: Ip)
    requires Balanced(t, max) && ip in t.live
    ensures Balanced(Apply(t, max, DropPermit(ip)), max)
    ensures ip in t.counts && t.counts[ip] >= 1
  {
    var t' := Apply(t, max, DropPermit(ip));
    assert Stored(t.counts, ip) == t.live[ip] <= max;
    assert Stored(t'.counts, ip) == t'.live[ip];
    forall other | other != ip
      ensures Stored(t'.counts, other) == t'.live[other] <= max
    {
      assert Stored(t.counts, other) == t.live[other];
    }
  }

  lemma StepKeepsBalance(t: Table, max: nat, s: Step)
    requires Balanced(t, max) && Enabled(t, s)
    ensures Balanced(Apply(t, max, s), max)
    ensures s.DropPermit? ==> s.ip in t.counts && t.counts[s.ip] >= 1
    ensures s.TryAcquire? ==> (Acquires(t.counts, max, s.ip) <==> t.live[s.ip] != max)
  {
    match s
    case TryAcquire(ip) => AcquireKeepsBalance(t, max, ip);
    case DropPermit(ip) => DropKeepsBalance(t, max, ip);
  }

  lemma {:induction false} RunKeepsBalance(t: Table, max: nat, steps: seq<Step>)
    requires Balanced(t, max) && IsRun(t, max, steps)
    ensures Balanced(After(t, max, steps), max)
    decreases |steps|
  {
    if steps == [] {
    } else {
      StepKeepsBalance(t, max, steps[0]);
      RunKeepsBalance(Apply(t, max, steps[0]), max, steps[1..]);
    }
  }

  /** In every reachable state the stored counts are the live permits, never above the cap;
      with a positive cap the table's keys are exactly the addresses holding permits. */
  lemma PermitsAreConserved(max: nat, steps: seq<Step>)
    requires IsRun(EMPTY, max, steps)
    ensures var t := After(EMPTY, max, steps);
            && (forall ip :: Stored(t.counts, ip) == t.live[ip] <= max)
            && (max > 0 ==> forall ip :: ip in t.counts <==> ip in t.live)
  {
    RunKeepsBalance(EMPTY, max, steps);
    var t := After(EMPTY, max, steps);
    forall ip
      ensures Stored(t.counts, ip) == t.live[ip] <= max
    {
    }
  }

  /** The next attempt fails exactly when the address is at the cap, and dropping a live
      permit never takes a count below zero. */
  lemma NextStepIsExact(max: nat, steps: seq<Step>, s: Step)
    requires IsRun(EMPTY, max, steps) && Enabled(After(EMPTY, max, steps), s)
    ensures var t := After(EMPTY, max, steps);
            match s
            case TryAcquire(ip) => Acquires(t.counts, max, ip) <==> t.live[ip] != max
            case DropPermit(ip) => ip in t.counts && t.counts[ip] >= 1
  {
    RunKeepsBalance(EMPTY, max, steps);
    StepKeepsBalance(After(EMPTY, max, steps), max, s);
  }

  /** How many attempts of a run get a permit for the address. */
  function PermitsGiven(t: Table, max: nat, steps: seq<Step>, ip: Ip): nat
    requires IsRun(t, max, steps)
    decreases |steps|
  {
    if steps == [] then 0
    else (if steps[0] == TryAcquire(ip) && (if ip in t.counts then t.counts[ip] else 0) < max then 1 else 0)
         + PermitsGiven(Apply(t, max, steps[0]), max, steps[1..], ip)
  }

  function Drops(steps: seq<Step>, ip: Ip): nat
  {
    if steps == [] then 0 else (if steps[0] == DropPermit(ip) then 1 else 0) + Drops(steps[1..], ip)
  }

  lemma {:induction false} RunLedger(t: Table, max: nat, steps: seq<Step>, ip: Ip)
    requires IsRun(t, max, steps)
    ensures After(t, max, steps).live[ip] + Drops(steps, ip) == t.live[ip] + PermitsGiven(t, max, steps, ip)
    decreases |steps|
  {
    if steps == [] {
    } else {
      RunLedger(Apply(t, max, steps[0]), max, steps[1..], ip);
    }
  }

  /** Counted over any run: the stored count of an address is the permits given out for it less
      those dropped. */
  lemma CountsAreLedger(max: nat, steps: seq<Step>, ip: Ip)
    requires IsRun(EMPTY, max, steps)
    ensures Stored(After(EMPTY, max, steps).counts, ip) == PermitsGiven(EMPTY, max, steps, ip) - Drops(steps, ip)
  {
    PermitsAreConserved(max, steps);
    RunLedger(EMPTY, max, steps, ip);
  }

  /** A cap of zero is the exception: every refused address stays in the table for good, so
      the keys are the addresses with permits only as long as nobody has tried. */
  lemma {:induction false} ZeroCapKeepsRefusedAddresses(t: Table, steps: seq<Step>)
    requires t.live == multiset{} && IsRun(t, 0, steps)
    ensures After(t, 0, steps).live == multiset{}
    ensures After(t, 0, steps).counts.Keys == t.counts.Keys + set s | s in steps :: s.ip
    decreases |steps|
  {
    if steps == [] {
    } else {
      assert steps == [steps[0]] + steps[1..];
      assert steps[0].TryAcquire?;
      ZeroCapKeepsRefusedAddresses(Apply(t, 0, steps[0]), steps[1..]);
    }
  }

  /** The keys are the permit holders in exactly the runs with a positive cap or no attempt. */
  lemma KeysAreHoldersIff(max: nat, steps: seq<Step>)
    requires IsRun(EMPTY, max, steps)
    ensures (forall ip :: ip in After(EMPTY, max, steps).counts <==> ip in After(EMPTY, max, steps).live)
       <==> max > 0 || steps == []
  {
    PermitsAreConserved(max, steps);
    if max == 0 {
      ZeroCapKeepsRefusedAddresses(EMPTY, steps);
      if steps != [] {
        var ip := steps[0].ip;
        assert steps[0] in steps;
        assert ip in After(EMPTY, max, steps).counts;
      }
    }
  }

  /** Inserting the entry first and counting it afterwards comes to `AfterAcquire`. */
  lemma AcquireInTwoSteps(counts: map<Ip, nat>, max: nat, ip: Ip)
    ensures var (count, entered) := (Stored(counts, ip), counts[ip := Stored(counts, ip)]);
            AfterAcquire(counts, max, ip) == if count >= max then entered else entered[ip := count + 1]
  {}

  lemma AcquireStores(counts: map<Ip, nat>, max: nat, ip: Ip)
    ensures Stored(AfterAcquire(counts, max, ip), ip) == Stored(counts, ip) + if Stored(counts, ip) < max then 1 else 0
    ensures forall other :: other != ip ==> Stored(AfterAcquire(counts, max, ip), other) == Stored(counts, other)
  {}

  /** Counting down and removing an entry that has come to zero is `AfterDrop`. */
  lemma DropInTwoSteps(counts: map<Ip, nat>, ip: Ip)
    requires ip in counts && counts[ip] >= 1
    ensures var counted := counts[ip := counts[ip] - 1];
            AfterDrop(counts, ip) == if counted[ip] == 0 then counted - {ip} else counted
  {}

  class WsIpLimiter {
    var counts: map<Ip, nat>
    const max: nat
    ghost var live: multiset<Ip>

    constructor (max: nat)
      ensures Valid() && this.max == max && State() == EMPTY
    {
      this.max := max;
      counts := map[];
      live := multiset{};
    }

    ghost function State(): Table
      reads this
    {
      Table(counts, live)
    }

    ghost predicate Valid()
      reads this
    {
      Balanced(State(), max)
    }

    /** True when a permit for `ip` was handed out. */
    method TryAcquire(ip: Ip) returns (acquired: bool)
      requires Valid()
      modifies this
      ensures Valid() && State() == Apply(old(State()), max, Step.TryAcquire(ip))
      ensures acquired <==> old(live)[ip] < max
      ensures live == if acquired then old(live) + multiset{ip} else old(live)
      ensures Stored(counts, ip) == Stored(old(counts), ip) + if acquired then 1 else 0
      ensures forall other :: other != ip ==> Stored(counts, other) == Stored(old(counts), other)
    {
      AcquireKeepsBalance(State(), max, ip);
      AcquireInTwoSteps(counts, max, ip);
      AcquireStores(counts, max, ip);
      assert Stored(counts, ip) == live[ip];
      var count := if ip in counts then counts[ip] else 0;
      counts := counts[ip := count];
      if count >= max {
        return false;
      }
      counts := counts[ip := count + 1];
      live := live + multiset{ip};
      return true;
    }

    /** Dropping a permit for `ip`. Subtracting from the stored `nat` is proved safe. */
    method Release(ip: Ip)
      requires Valid() && ip in live
      modifies this
      ensures Valid() && State() == Apply(old(State()), max, DropPermit(ip))
      ensures live == old(live) - multiset{ip} && Stored(counts, ip) + 1 == Stored(old(counts), ip)
      ensures forall other :: other != ip ==> Stored(counts, other) == Stored(old(counts), other)
    {
      DropKeepsBalance(State(), max, ip);
      DropInTwoSteps(counts, ip);
      if ip in counts {
        counts := counts[ip := counts[ip] - 1];
        if counts[ip] == 0 {
          counts := counts - {ip};
        }
      }
      live := live - multiset{ip};
    }

    method Perform(s: Step) returns (answer: seq<bool>)
      requires Valid() && Enabled(State(), s)
      modifies this
      ensures Valid() && State() == Apply(old(State()), max, s) && answer == Answer(old(State()), max, s)
    {
      match s {
        case TryAcquire(ip) =>
          var acquired := TryAcquire(ip);
          answer := [acquired];
        case DropPermit(ip) =>
          Release(ip);
          answer := [];
      }
    }
  }

  /** With `t` reached and `granted` answered, what is left of `all` to do is `rest`. */
  ghost predicate LeftToRun(t: Table, max: nat, granted: seq<bool>, rest: seq<Step>, all: seq<Step>)
    requires IsRun(EMPTY, max, all)
  {
    && IsRun(t, max, rest) && After(t, max, rest) == After(EMPTY, max, all)
    && granted + Answers(t, max, rest) == Answers(EMPTY, max, all)
  }

  lemma RunStep(t: Table, max: nat, granted: seq<bool>, rest: seq<Step>, all: seq<Step>)
    requires IsRun(EMPTY, max, all) && rest != [] && LeftToRun(t, max, granted, rest, all)
    ensures Enabled(t, rest[0])
    ensures LeftToRun(Apply(t, max, rest[0]), max, granted + Answer(t, max, rest[0]), rest[1..], all)
  {
    var later := Answers(Apply(t, max, rest[0]), max, rest[1..]);
    assert granted + (Answer(t, max, rest[0]) + later) == granted + Answer(t, max, rest[0]) + later;
  }

  /** Any interleaving of attempts and drops on one limiter: it ends in the table of the run,
      with every count the number of permits out and none above the cap. */
  method RunLimiter(max: nat, steps: seq<Step>) returns (limiter: WsIpLimiter, granted: seq<bool>)
    requires IsRun(EMPTY, max, steps)
    ensures fresh(limiter) && limiter.Valid() && limiter.State() == After(EMPTY, max, steps)
    ensures forall ip :: Stored(limiter.counts, ip) == limiter.live[ip] <= max
    ensures granted == Answers(EMPTY, max, steps)
  {
    limiter := new WsIpLimiter(max);
    granted := [];
    for i := 0 to |steps|
      invariant fresh(limiter) && limiter.Valid() && limiter.max == max
      invariant LeftToRun(limiter.State(), max, granted, steps[i..], steps)
    {
      RunStep(limiter.State(), max, granted, steps[i..], steps);
      assert steps[i..][1..] == steps[i + 1..];
      var answer := limiter.Perform(steps[i]);
      granted := granted + answer;
    }
    PermitsAreConserved(max, steps);
  }
}
