/** Starting and stopping the application's lifespans. */
module Lifespan {
  import opened Prelude

  /** The resource container a lifespan's startup produced; the number is its identity. */
  type Container = nat

  /** What is stopped when a cell with this content is shut down. */
  function Stopped(content: Option<Container>): seq<Container> {
    if content.Some? then [content.value] else []
  }

  /** Holds a lifespan and, after startup, the container it produced. */
  class LifespanCell {
    var container: Option<Container>

    constructor ()
      ensures container == None
    {
      container := None;
    }

    /** `outcome` is what the lifespan's own startup returned. */
    method Startup(outcome: Result<Container, string>, registry: seq<Container>)
      returns (r: Result<(), string>, registered: seq<Container>)
      modifies this
      ensures outcome.Ok? ==>
                r == Ok(()) && container == Some(outcome.value) && registered == registry + [outcome.value]
      ensures outcome.Err? ==> r == Err(outcome.error) && container == old(container) && registered == registry
    {
      if outcome.Err? {
        return Err(outcome.error), registry;
      }
      registered := registry + [outcome.value];
      container := Some(outcome.value);
      r := Ok(());
    }

    /** Gives the container, if any, to the lifespan's own shutdown, whose result is `outcome`.
        The cell is empty afterwards even when that shutdown fails. */
    method Shutdown(outcome: Result<(), string>) returns (r: Result<(), string>, stopped: seq<Container>)
      modifies this
      ensures container == None
      ensures stopped == Stopped(old(container))
      ensures r == if old(container).Some? then outcome else Ok(())
    {
      match container {
        case None => return Ok(()), [];
        case Some(c) =>
          container := None;
          return outcome, [c];
      }
    }
  }

  predicate Distinct(cells: seq<LifespanCell>) {
    forall i, j :: 0 <= i < |cells| && 0 <= j < |cells| && i != j ==> cells[i] != cells[j]
  }

  /** What each cell holds. */
  ghost function Contents(cells: seq<LifespanCell>): (contents: seq<Option<Container>>)
    reads cells
    ensures |contents| == |cells| && forall i :: 0 <= i < |cells| ==> contents[i] == cells[i].container
  {
    if cells == [] then [] else [cells[0].container] + Contents(cells[1..])
  }

  /** The containers actually held, in registration order. */
  function Held(contents: seq<Option<Container>>): seq<Container>
  {
    if contents == [] then []
    else (if contents[0].Some? then [contents[0].value] else []) + Held(contents[1..])
  }

  /** The containers of the startups that succeed. */
  function Produced(plan: seq<Result<Container, string>>): seq<Container>
  {
    if plan == [] then [] else (if plan[0].Ok? then [plan[0].value] else []) + Produced(plan[1..])
  }

  /** The index of the first startup that fails, or the number of them. */
  function FirstFailure(plan: seq<Result<Container, string>>): (i: nat)
    ensures i <= |plan| && (i < |plan| ==> plan[i].Err?) && forall j :: 0 <= j < i ==> plan[j].Ok?
  {
    if plan == [] || plan[0].Err? then 0 else 1 + FirstFailure(plan[1..])
  }

  lemma {:induction false} ProducedStep(plan: seq<Result<Container, string>>, i: nat)
    requires i < |plan|
    ensures Produced(plan[..i + 1]) == Produced(plan[..i]) + if plan[i].Ok? then [plan[i].value] else []
  {
    if i == 0 {
      assert plan[..1] == [plan[0]] && plan[..1][1..] == [] && plan[..0] == [];
    } else {
      assert plan[..i + 1][1..] == plan[1..][..i] && plan[..i][1..] == plan[1..][..i - 1];
      ProducedStep(plan[1..], i - 1);
    }
  }

  lemma {:induction false} AllProduced(plan: seq<Result<Container, string>>)
    requires forall j :: 0 <= j < |plan| ==> plan[j].Ok?
    ensures |Produced(plan)| == |plan| && forall j :: 0 <= j < |plan| ==> Produced(plan)[j] == plan[j].value
  {
    if plan == [] {
    } else {
      AllProduced(plan[1..]);
    }
  }

  lemma {:induction false} ReverseAppend<T>(a: seq<T>, b: seq<T>)
    ensures Reverse(a + b) == Reverse(b) + Reverse(a)
  {
    if a == [] {
      assert a + b == b && Reverse(b) + [] == Reverse(b);
    } else {
      assert (a + b)[1..] == a[1..] + b;
      ReverseAppend(a[1..], b);
      assert Reverse(b) + Reverse(a[1..]) + [a[0]] == Reverse(b) + (Reverse(a[1..]) + [a[0]]);
    }
  }

  lemma {:induction false} ReverseLength<T>(s: seq<T>)
    ensures |Reverse(s)| == |s| && multiset(Reverse(s)) == multiset(s)
  {
    if s == [] {
    } else {
      ReverseLength(s[1..]);
      assert s == [s[0]] + s[1..];
    }
  }

  lemma {:induction false} HeldStep(contents: seq<Option<Container>>, i: nat)
    requires i < |contents|
    ensures Held(contents[..i + 1]) == Held(contents[..i]) + if contents[i].Some? then [contents[i].value] else []
  {
    if i == 0 {
      assert contents[..1] == [contents[0]] && contents[..1][1..] == [] && contents[..0] == [];
    } else {
      assert contents[..i + 1][1..] == contents[1..][..i] && contents[..i][1..] == contents[1..][..i - 1];
      HeldStep(contents[1..], i - 1);
    }
  }

  lemma {:induction false} HeldIsProduced(contents: seq<Option<Container>>,
                                          plan: seq<Result<Container, string>>, i: nat)
    requires i <= |contents| && i <= |plan|
    requires forall j :: 0 <= j < i ==> plan[j].Ok? && contents[j] == Some(plan[j].value)
    ensures Held(contents[..i]) == Produced(plan[..i])
  {
    if i == 0 {
      assert contents[..0] == [] && plan[..0] == [];
    } else {
      HeldStep(contents, i - 1);
      ProducedStep(plan, i - 1);
      HeldIsProduced(contents, plan, i - 1);
    }
  }

  /** The last of the first `i + 1` cells comes out first. */
  lemma ReverseHeldStep(contents: seq<Option<Container>>, i: nat)
    requires i < |contents|
    ensures Reverse(Held(contents[..i + 1])) == Stopped(contents[i]) + Reverse(Held(contents[..i]))
  {
    HeldStep(contents, i);
    var last := if contents[i].Some? then [contents[i].value] else [];
    ReverseAppend(Held(contents[..i]), last);
    if last != [] {
      assert last[1..] == [] && Reverse(last) == last;
    }
  }

  /** Stopping one more cell leaves the ones before it to stop. */
  lemma OneMoreStopped(contents: seq<Option<Container>>, i: nat, stopped: seq<Container>, all: seq<Container>)
    requires i < |contents| && stopped + Reverse(Held(contents[..i + 1])) == all
    ensures (stopped + Stopped(contents[i])) + Reverse(Held(contents[..i])) == all
  {
    ReverseHeldStep(contents, i);
    assert stopped + (Stopped(contents[i]) + Reverse(Held(contents[..i]))) == all;
  }

  /** Of the cells that held `was`, those from `i` up to `count` have been emptied. */
  ghost predicate EmptiedDownTo(cells: seq<LifespanCell>, was: seq<Option<Container>>, i: nat, count: nat)
    requires count <= |cells| == |was|
    reads cells
  {
    forall j :: 0 <= j < |cells| ==> cells[j].container == if i <= j < count then None else was[j]
  }

  /** One step of a shutdown: cell `i` gives away what it held. */
  method ShutdownCell(cells: seq<LifespanCell>, i: nat, ghost was: seq<Option<Container>>, ghost count: nat,
                      outcome: Result<(), string>)
    returns (stopped: seq<Container>)
    requires i < count <= |cells| == |was| && Distinct(cells) && EmptiedDownTo(cells, was, i + 1, count)
    modifies cells[i]
    ensures EmptiedDownTo(cells, was, i, count) && stopped == Stopped(was[i])
  {
    assert cells[i].container == was[i];
    var r, out := cells[i].Shutdown(outcome);
    stopped := out;
  }

  /** Shuts the first `count` cells down, last first, each with its own outcome; a failure
      stops nothing. Both the rollback and `run_shutdown` are this loop. */
  method ShutdownInReverse(cells: seq<LifespanCell>, count: nat, outcomes: seq<Result<(), string>>)
    returns (stopped: seq<Container>)
    requires count <= |cells| && |outcomes| == |cells| && Distinct(cells)
    modifies cells
    ensures stopped == Reverse(Held(old(Contents(cells))[..count]))
    ensures forall i :: 0 <= i < count ==> cells[i].container == None
    ensures forall i :: count <= i < |cells| ==> cells[i].container == old(cells[i].container)
  {
    ghost var was := Contents(cells);
    stopped := [];
    var i := count;
    while i > 0
      invariant 0 <= i <= count && EmptiedDownTo(cells, was, i, count)
      invariant stopped + Reverse(Held(was[..i])) == Reverse(Held(was[..count]))
    {
      i := i - 1;
      OneMoreStopped(was, i, stopped, Reverse(Held(was[..count])));
      var out := ShutdownCell(cells, i, was, count, outcomes[i]);
      stopped := stopped + out;
    }
    assert was[..0] == [];
  }

  /** Undoes the first `count` startups: the containers they produced are stopped, last first. */
  method Rollback(cells: seq<LifespanCell>, count: nat, ghost plan: seq<Result<Container, string>>,
                  outcomes: seq<Result<(), string>>)
    returns (stopped: seq<Container>)
    requires count <= |cells| == |plan| == |outcomes| && Distinct(cells)
    requires forall j :: 0 <= j < count ==> plan[j].Ok? && cells[j].container == Some(plan[j].value)
    requires forall j :: count <= j < |cells| ==> cells[j].container == None
    modifies cells
    ensures stopped == Reverse(Produced(plan[..count]))
    ensures forall j :: 0 <= j < |cells| ==> cells[j].container == None
  {
    HeldIsProduced(Contents(cells), plan, count);
    stopped := ShutdownInReverse(cells, count, outcomes);
  }

  /** `run_startup` over lifespans. `plan` holds the results of their own startups, `outcomes`
      those of their own shutdowns. If startup `i` fails, cells `i - 1` down to 0 are shut down
      in that order, no cell keeps a container, and the error is the one of startup `i`. */
  method RunStartup(cells: seq<LifespanCell>, plan: seq<Result<Container, string>>, outcomes: seq<Result<(), string>>)
    returns (r: Result<(), string>, registered: seq<Container>, stopped: seq<Container>)
    requires |plan| == |cells| == |outcomes| && Distinct(cells)
    requires forall i :: 0 <= i < |cells| ==> cells[i].container == None
    modifies cells
    ensures var i := FirstFailure(plan);
            && registered == Produced(plan[..i])
            && (r.Ok? <==> i == |plan|)
            && (r.Err? ==> r.error == plan[i].error && stopped == Reverse(registered)
                           && forall j :: 0 <= j < |cells| ==> cells[j].container == None)
            && |registered| == i && (forall j :: 0 <= j < i ==> registered[j] == plan[j].value)
            && (r.Ok? ==> stopped == [] && forall j :: 0 <= j < |cells| ==> cells[j].container == Some(plan[j].value))
  {
    registered := [];
    stopped := [];
    for index := 0 to |cells|
      invariant forall j :: 0 <= j < index ==> plan[j].Ok? && cells[j].container == Some(plan[j].value)
      invariant forall j :: index <= j < |cells| ==> cells[j].container == None
      invariant registered == Produced(plan[..index]) && stopped == []
    {
      ProducedStep(plan, index);
      var result;
      result, registered := cells[index].Startup(plan[index], registered);
      if result.Err? {
        FirstFailureIs(plan, index);
        AllProduced(plan[..index]);
        stopped := Rollback(cells, index, plan, outcomes);
        r := Err(result.error);
        return;
      }
    }
    FirstFailureIs(plan, |plan|);
    AllProduced(plan);
    assert plan[..|plan|] == plan;
    r := Ok(());
  }

  lemma {:induction false} FirstFailureIs(plan: seq<Result<Container, string>>, i: nat)
    requires i <= |plan| && (i < |plan| ==> plan[i].Err?) && forall j :: 0 <= j < i ==> plan[j].Ok?
    ensures FirstFailure(plan) == i
  {
    if i == 0 {
    } else {
      FirstFailureIs(plan[1..], i - 1);
    }
  }

  /** `run_shutdown` over lifespans: every held container is stopped, in reverse order, even
      when some shutdowns fail, and the cells are left empty. */
  method RunShutdown(cells: seq<LifespanCell>, outcomes: seq<Result<(), string>>)
    returns (stopped: seq<Container>)
    requires |outcomes| == |cells| && Distinct(cells)
    modifies cells
    ensures stopped == Reverse(Held(old(Contents(cells))))
    ensures forall i :: 0 <= i < |cells| ==> cells[i].container == None
  {
    ghost var was := Contents(cells);
    stopped := ShutdownInReverse(cells, |cells|, outcomes);
    assert was[..|cells|] == was;
  }

  /** A whole run: startup, and if it succeeds, serving and shutdown; then shutdown once more.
      Whatever fails, the containers stopped are exactly those produced, each once, last
      produced first stopped, and the extra shutdown stops nothing. */
  method RunLifecycle(cells: seq<LifespanCell>, plan: seq<Result<Container, string>>, outcomes: seq<Result<(), string>>)
    returns (r: Result<(), string>, produced: seq<Container>, stopped: seq<Container>, again: seq<Container>)
    requires |plan| == |cells| == |outcomes| && Distinct(cells)
    requires forall i :: 0 <= i < |cells| ==> cells[i].container == None
    modifies cells
    ensures r.Ok? <==> FirstFailure(plan) == |plan|
    ensures produced == Produced(plan[..FirstFailure(plan)])
    ensures stopped == Reverse(produced) && multiset(stopped) == multiset(produced) && again == []
    ensures |stopped| == |produced| == FirstFailure(plan)
    ensures forall k :: 0 <= k < |stopped| ==> stopped[k] == plan[|stopped| - 1 - k].value
    ensures forall i :: 0 <= i < |cells| ==> cells[i].container == None
  {
    r, produced, stopped := RunStartup(cells, plan, outcomes);
    if r.Ok? {
      HeldIsProduced(Contents(cells), plan, |plan|);
      assert Contents(cells)[..|plan|] == Contents(cells);
      stopped := RunShutdown(cells, outcomes);
    }
    ReverseLength(produced);
    forall k | 0 <= k < |stopped|
      ensures stopped[k] == plan[|stopped| - 1 - k].value
    {
      ReverseAt(produced, k);
    }
    EmptyHeld(Contents(cells));
    again := RunShutdown(cells, outcomes);
  }

  lemma {:induction false} EmptyHeld(contents: seq<Option<Container>>)
    requires forall i :: 0 <= i < |contents| ==> contents[i] == None
    ensures Held(contents) == []
  {
    if contents == [] {
    } else {
      EmptyHeld(contents[1..]);
    }
  }
}
