/**
  Planning of buffer reuse over the lines of a generated wrapper.  Planning lines are
  planned with the state on top of a stack; entering a subgraph pushes a fresh state and
  leaving it pops one.  The reference semantics has no stack: every subgraph instance is
  planned on its own.

  Planning one line is code outside this project: it is the parameter `plan`, which gives
  the line that replaces the old one and the new state.
 */
module MemoryPlanning {

  datatype Line<L> =
    | Planning(node: string, body: L)
    | EnterSubgraph
    | ExitSubgraph
    | Other(body: L)

  // ----- nesting -------------------------------------------------------------------

  /** Subgraphs entered minus subgraphs left in the first m lines. */
  function Depth<L>(lines: seq<Line<L>>, m: nat): int
    requires m <= |lines|
  {
    if m == 0 then 0
    else match lines[m - 1]
      case EnterSubgraph => Depth(lines, m - 1) + 1
      case ExitSubgraph => Depth(lines, m - 1) - 1
      case _ => Depth(lines, m - 1)
  }

  ghost predicate Balanced<L>(lines: seq<Line<L>>) {
    && Depth(lines, |lines|) == 0
    && forall m :: 0 <= m <= |lines| ==> Depth(lines, m) >= 0
  }

  /** Line i sits directly in the subgraph instance entered at line e (-1: the graph
      itself): since e, every subgraph entered has been left and nothing more. */
  ghost predicate DirectlyIn<L>(lines: seq<Line<L>>, e: int, i: nat)
    requires i <= |lines|
  {
    && -1 <= e < i
    && (e >= 0 ==> lines[e].EnterSubgraph?)
    && Depth(lines, i) == Depth(lines, e + 1)
    && forall m :: e < m <= i ==> Depth(lines, m) >= Depth(lines, e + 1)
  }

  /** No line sits directly in two subgraph instances. */
  lemma InstanceIsUnique<L>(lines: seq<Line<L>>, e: int, e': int, i: nat)
    requires i <= |lines| && DirectlyIn(lines, e, i) && DirectlyIn(lines, e', i)
    ensures e == e'
  {
    if e < e' {
      assert Depth(lines, e') >= Depth(lines, e + 1);
    }
    if e' < e {
      assert Depth(lines, e) >= Depth(lines, e' + 1);
    }
  }

  /** In balanced lines every line sits directly in some subgraph instance. */
  lemma {:induction false} InstanceExists<L>(lines: seq<Line<L>>, i: nat) returns (e: int)
    requires i <= |lines| && forall m :: 0 <= m <= i ==> Depth(lines, m) >= 0
    ensures DirectlyIn(lines, e, i)
  {
    if i == 0 || Depth(lines, i) == 0 {
      e := -1;
    } else {
      e := LastEntered(lines, i, i);
    }
  }

  /** The last line before k that entered depth Depth(lines, i), when the lines from k to i
      stay at least that deep. */
  lemma {:induction false} LastEntered<L>(lines: seq<Line<L>>, i: nat, k: nat) returns (e: int)
    requires k <= i <= |lines| && Depth(lines, i) > 0
    requires forall m :: k <= m <= i ==> Depth(lines, m) >= Depth(lines, i)
    ensures DirectlyIn(lines, e, i)
    decreases k
  {
    assert Depth(lines, k) >= Depth(lines, i);
    if Depth(lines, k - 1) < Depth(lines, i) {
      e := k - 1;
    } else {
      e := LastEntered(lines, i, k - 1);
    }
  }

  // ----- trimming ------------------------------------------------------------------

  predicate Pointless<L>(line: Line<L>, outNames: set<string>) {
    line.Planning? && line.node !in outNames
  }

  /** The lines without the pointless planning lines at their end. */
  function Trim<L>(lines: seq<Line<L>>, outNames: set<string>): (r: seq<Line<L>>)
    ensures r <= lines
    ensures forall i :: |r| <= i < |lines| ==> lines[i].Planning? && lines[i].node !in outNames
    ensures r != [] && r[|r| - 1].Planning? ==> r[|r| - 1].node in outNames
  {
    if lines != [] && Pointless(lines[|lines| - 1], outNames) then Trim(lines[..|lines| - 1], outNames) else lines
  }

  lemma {:induction false} DepthOfPrefix<L>(lines: seq<Line<L>>, short: seq<Line<L>>, m: nat)
    requires short <= lines && m <= |short|
    ensures Depth(short, m) == Depth(lines, m)
  {
    if m > 0 {
      DepthOfPrefix(lines, short, m - 1);
    }
  }

  lemma {:induction false} PlanningKeepsDepth<L>(lines: seq<Line<L>>, from: nat, m: nat)
    requires from <= m <= |lines|
    requires forall i :: from <= i < m ==> lines[i].Planning?
    ensures Depth(lines, m) == Depth(lines, from)
  {
    if from < m {
      PlanningKeepsDepth(lines, from, m - 1);
    }
  }

  /** Trimming keeps the lines balanced. */
  lemma TrimKeepsBalance<L>(lines: seq<Line<L>>, outNames: set<string>)
    requires Balanced(lines)
    ensures Balanced(Trim(lines, outNames))
  {
    var short := Trim(lines, outNames);
    forall m | 0 <= m <= |short| ensures Depth(short, m) == Depth(lines, m) {
      DepthOfPrefix(lines, short, m);
    }
    PlanningKeepsDepth(lines, |short|, |lines|);
  }

  // ----- planning one subgraph instance on its own ---------------------------------

  /** The state in which the instance entered at e has planned its own lines before i. */
  ghost function StateOf<L, S>(lines: seq<Line<L>>, plan: (Line<L>, S) -> (Line<L>, S), fresh0: S, e: int, i: nat): S
    requires -1 <= e < i <= |lines|
    decreases i
  {
    if i == e + 1 then fresh0
    else
      var before := StateOf(lines, plan, fresh0, e, i - 1);
      if lines[i - 1].Planning? && DirectlyIn(lines, e, i - 1) then plan(lines[i - 1], before).1 else before
  }

  /** Line i planned within its own instance; other lines stay as they are. */
  ghost predicate PlannedAlone<L, S>(
    lines: seq<Line<L>>, plan: (Line<L>, S) -> (Line<L>, S), fresh0: S, i: nat, r: Line<L>)
    requires i < |lines|
  {
    if lines[i].Planning? then
      exists e :: DirectlyIn(lines, e, i) && r == plan(lines[i], StateOf(lines, plan, fresh0, e, i)).0
    else
      r == lines[i]
  }

  /** The first |r| lines planned, each within its own instance. */
  ghost predicate PlansAlone<L, S>(
    lines: seq<Line<L>>, plan: (Line<L>, S) -> (Line<L>, S), fresh0: S, r: seq<Line<L>>)
  {
    |r| <= |lines| && forall i :: 0 <= i < |r| ==> PlannedAlone(lines, plan, fresh0, i, r[i])
  }

  /** The stack never runs out and exactly one state is left at the end. */
  ghost predicate StackSuffices<L>(lines: seq<Line<L>>) {
    && (forall m :: 0 <= m <= |lines| ==> Depth(lines, m) >= -1)
    && (forall m :: 0 <= m < |lines| && lines[m].Planning? ==> Depth(lines, m) >= 0)
    && Depth(lines, |lines|) == 0
  }

  ghost predicate SameShape<L>(lines: seq<Line<L>>, other: seq<Line<L>>) {
    && |lines| == |other|
    && forall j :: 0 <= j < |lines| ==>
         && (lines[j].Planning? <==> other[j].Planning?)
         && (lines[j].EnterSubgraph? <==> other[j].EnterSubgraph?)
         && (lines[j].ExitSubgraph? <==> other[j].ExitSubgraph?)
  }

  lemma {:induction false} SameShapeSameDepth<L>(lines: seq<Line<L>>, other: seq<Line<L>>, m: nat)
    requires SameShape(lines, other) && m <= |lines|
    ensures Depth(lines, m) == Depth(other, m)
  {
    if m > 0 {
      SameShapeSameDepth(lines, other, m - 1);
    }
  }

  /** The state of an instance depends on its own lines only: planning lines of other
      instances can be anything. */
  lemma {:induction false} OtherInstancesDoNotMatter<L, S>(
    lines: seq<Line<L>>, other: seq<Line<L>>, plan: (Line<L>, S) -> (Line<L>, S), fresh0: S, e: int, i: nat)
    requires SameShape(lines, other) && -1 <= e < i <= |lines|
    requires forall j :: e < j < i && DirectlyIn(lines, e, j) ==> lines[j] == other[j]
    ensures StateOf(lines, plan, fresh0, e, i) == StateOf(other, plan, fresh0, e, i)
    decreases i
  {
    if i > e + 1 {
      OtherInstancesDoNotMatter(lines, other, plan, fresh0, e, i - 1);
      forall m | 0 <= m <= i ensures Depth(lines, m) == Depth(other, m) {
        SameShapeSameDepth(lines, other, m);
      }
      assert DirectlyIn(lines, e, i - 1) <==> DirectlyIn(other, e, i - 1);
    }
  }

  // ----- the states, from line to line ---------------------------------------------

  /** Two lines sit directly in one subgraph instance. */
  ghost predicate SameInstance<L>(lines: seq<Line<L>>, i: nat, j: nat)
    requires i <= |lines| && j <= |lines|
  {
    exists e :: DirectlyIn(lines, e, i) && DirectlyIn(lines, e, j)
  }

  /** Line p is the last planning line before i in the instance of i. */
  ghost predicate IsPrevious<L>(lines: seq<Line<L>>, p: nat, i: nat)
    requires i < |lines|
  {
    && p < i && lines[p].Planning? && SameInstance(lines, p, i)
    && forall q: nat {:trigger SameInstance(lines, q, i)} :: p < q < i && lines[q].Planning? ==> !SameInstance(lines, q, i)
  }

  ghost predicate HasPrevious<L>(lines: seq<Line<L>>, i: nat)
    requires i < |lines|
  {
    exists q: nat :: q < i && lines[q].Planning? && SameInstance(lines, q, i)
  }

  /** The state for planning line i is the one that the previous planning line of its instance
      left, or a fresh one. */
  ghost predicate IsHandedOn<L, S>(
    lines: seq<Line<L>>, plan: (Line<L>, S) -> (Line<L>, S), fresh0: S, states: seq<S>, i: nat)
    requires i < |lines| == |states|
  {
    && (!HasPrevious(lines, i) ==> states[i] == fresh0)
    && (forall p: nat :: IsPrevious(lines, p, i) ==> states[i] == plan(lines[p], states[p]).1)
  }

  /** Every planning line is planned with the state that its instance hands on, and all other
      lines stay as they are. */
  ghost predicate PlansInTurn<L, S(!new)>(
    lines: seq<Line<L>>, plan: (Line<L>, S) -> (Line<L>, S), fresh0: S, r: seq<Line<L>>)
  {
    |r| == |lines| && exists states: seq<S> :: |states| == |lines| && UsesStates(lines, plan, fresh0, states, r)
  }

  ghost predicate UsesStates<L, S>(
    lines: seq<Line<L>>, plan: (Line<L>, S) -> (Line<L>, S), fresh0: S, states: seq<S>, r: seq<Line<L>>)
    requires |states| == |lines| == |r|
  {
    forall i: nat :: i < |lines| ==>
      if lines[i].Planning? then IsHandedOn(lines, plan, fresh0, states, i) && r[i] == plan(lines[i], states[i]).0
      else r[i] == lines[i]
  }

  /** The state in which line i is planned. */
  ghost function StateAt<L, S>(lines: seq<Line<L>>, plan: (Line<L>, S) -> (Line<L>, S), fresh0: S, i: nat): S
    requires i < |lines|
  {
    if e :| DirectlyIn(lines, e, i) then StateOf(lines, plan, fresh0, e, i) else fresh0
  }

  lemma StateAtInstance<L, S>(lines: seq<Line<L>>, plan: (Line<L>, S) -> (Line<L>, S), fresh0: S, e: int, i: nat)
    requires i < |lines| && DirectlyIn(lines, e, i)
    ensures StateAt(lines, plan, fresh0, i) == StateOf(lines, plan, fresh0, e, i)
  {
    forall e' | DirectlyIn(lines, e', i) ensures e' == e {
      InstanceIsUnique(lines, e, e', i);
    }
  }

  /** Where no planning line sits in the instance, its state stays. */
  lemma {:induction false} StateStays<L, S>(
    lines: seq<Line<L>>, plan: (Line<L>, S) -> (Line<L>, S), fresh0: S, e: int, from: nat, i: nat)
    requires -1 <= e < from <= i <= |lines|
    requires forall q: nat :: from <= q < i && lines[q].Planning? ==> !DirectlyIn(lines, e, q)
    ensures StateOf(lines, plan, fresh0, e, i) == StateOf(lines, plan, fresh0, e, from)
    decreases i
  {
    if from < i {
      StateStays(lines, plan, fresh0, e, from, i - 1);
    }
  }

  lemma StateIsHandedOn<L, S>(
    lines: seq<Line<L>>, plan: (Line<L>, S) -> (Line<L>, S), fresh0: S, e: int, p: nat, i: nat)
    requires i < |lines| && DirectlyIn(lines, e, i) && IsPrevious(lines, p, i)
    ensures StateOf(lines, plan, fresh0, e, i) == plan(lines[p], StateAt(lines, plan, fresh0, p)).1
  {
    var e' :| DirectlyIn(lines, e', p) && DirectlyIn(lines, e', i);
    InstanceIsUnique(lines, e, e', i);
    forall q: nat | p + 1 <= q < i && lines[q].Planning? ensures !DirectlyIn(lines, e, q) {
      assert !SameInstance(lines, q, i);
    }
    StateStays(lines, plan, fresh0, e, p + 1, i);
    StateAtInstance(lines, plan, fresh0, e, p);
  }

  lemma FirstStateIsFresh<L, S>(lines: seq<Line<L>>, plan: (Line<L>, S) -> (Line<L>, S), fresh0: S, e: int, i: nat)
    requires i < |lines| && DirectlyIn(lines, e, i) && !HasPrevious(lines, i)
    ensures StateOf(lines, plan, fresh0, e, i) == fresh0
  {
    forall q: nat | e + 1 <= q < i && lines[q].Planning? ensures !DirectlyIn(lines, e, q) {
      assert !SameInstance(lines, q, i);
    }
    StateStays(lines, plan, fresh0, e, e + 1, i);
  }

  /** Planning every instance on its own hands the states on from line to line. */
  lemma AloneIsInTurn<L, S(!new)>(
    lines: seq<Line<L>>, plan: (Line<L>, S) -> (Line<L>, S), fresh0: S, r: seq<Line<L>>)
    requires PlansAlone(lines, plan, fresh0, r) && |r| == |lines|
    ensures PlansInTurn(lines, plan, fresh0, r)
  {
    var states := seq(|lines|, i requires 0 <= i < |lines| => StateAt(lines, plan, fresh0, i));
    forall i: nat | i < |lines| && lines[i].Planning?
      ensures IsHandedOn(lines, plan, fresh0, states, i) && r[i] == plan(lines[i], states[i]).0
    {
      assert PlannedAlone(lines, plan, fresh0, i, r[i]);
      var e :| DirectlyIn(lines, e, i) && r[i] == plan(lines[i], StateOf(lines, plan, fresh0, e, i)).0;
      StateAtInstance(lines, plan, fresh0, e, i);
      LineIsHandedOn(lines, plan, fresh0, states, e, i);
    }
    forall i: nat | i < |lines| && !lines[i].Planning? ensures r[i] == lines[i] {
      assert PlannedAlone(lines, plan, fresh0, i, r[i]);
    }
    assert UsesStates(lines, plan, fresh0, states, r);
  }

  lemma LineIsHandedOn<L, S>(
    lines: seq<Line<L>>, plan: (Line<L>, S) -> (Line<L>, S), fresh0: S, states: seq<S>, e: int, i: nat)
    requires i < |lines| == |states| && DirectlyIn(lines, e, i)
    requires forall j :: 0 <= j < |lines| ==> states[j] == StateAt(lines, plan, fresh0, j)
    ensures IsHandedOn(lines, plan, fresh0, states, i)
  {
    StateAtInstance(lines, plan, fresh0, e, i);
    if !HasPrevious(lines, i) {
      FirstStateIsFresh(lines, plan, fresh0, e, i);
    }
    forall p: nat | IsPrevious(lines, p, i) ensures states[i] == plan(lines[p], states[p]).1 {
      StateIsHandedOn(lines, plan, fresh0, e, p, i);
    }
  }

  /** The final assertion does not reject every unbalanced list. */
  lemma UnbalancedLinesCanPass()
    ensures exists lines: seq<Line<int>> :: StackSuffices(lines) && !Balanced(lines)
  {
    var lines: seq<Line<int>> := [ExitSubgraph, EnterSubgraph];
    assert Depth(lines, 1) == -1 && Depth(lines, 2) == 0;
    assert StackSuffices(lines);
  }

  /** The states on the stack belong to the open instances, outermost first. */
  ghost predicate Represents<L, S>(
    lines: seq<Line<L>>, plan: (Line<L>, S) -> (Line<L>, S), fresh0: S, i: nat, open: seq<int>, states: seq<S>)
    requires i <= |lines|
  {
    && |open| == |states| == Depth(lines, i) + 1
    && forall d {:trigger open[d]} {:trigger states[d]} :: 0 <= d < |open| ==>
         && -1 <= open[d] < i
         && (open[d] >= 0 ==> lines[open[d]].EnterSubgraph?)
         && Depth(lines, open[d] + 1) == d
         && (forall m :: open[d] < m <= i ==> Depth(lines, m) >= d)
         && states[d] == StateOf(lines, plan, fresh0, open[d], i)
  }

  /** The first i lines have been walked without an exception. */
  ghost predicate Walked<L, S>(
    lines: seq<Line<L>>, plan: (Line<L>, S) -> (Line<L>, S), fresh0: S,
    i: nat, open: seq<int>, states: seq<S>, done: seq<Line<L>>)
  {
    && i == |done| <= |lines|
    && Represents(lines, plan, fresh0, i, open, states)
    && PlansAlone(lines, plan, fresh0, done)
    && (forall m :: 0 <= m <= i ==> Depth(lines, m) >= -1)
    && (forall m :: 0 <= m < i && lines[m].Planning? ==> Depth(lines, m) >= 0)
  }

  lemma WalkPlanning<L, S>(
    lines: seq<Line<L>>, plan: (Line<L>, S) -> (Line<L>, S), fresh0: S,
    i: nat, open: seq<int>, states: seq<S>, done: seq<Line<L>>)
    requires i < |lines| && lines[i].Planning?
    requires Walked(lines, plan, fresh0, i, open, states, done)
    ensures states == [] ==> !StackSuffices(lines)
    ensures states != [] ==>
              var top := |states| - 1;
              var (planned, state) := plan(lines[i], states[top]);
              Walked(lines, plan, fresh0, i + 1, open, states[top := state], done + [planned])
  {
    if states == [] {
      assert Depth(lines, i) == -1;
    } else {
      var top := |states| - 1;
      assert DirectlyIn(lines, open[top], i);
      var planned := plan(lines[i], states[top]).0;
      assert PlannedAlone(lines, plan, fresh0, i, planned);
    }
  }

  lemma WalkEnter<L, S>(
    lines: seq<Line<L>>, plan: (Line<L>, S) -> (Line<L>, S), fresh0: S,
    i: nat, open: seq<int>, states: seq<S>, done: seq<Line<L>>)
    requires i < |lines| && lines[i].EnterSubgraph?
    requires Walked(lines, plan, fresh0, i, open, states, done)
    ensures Walked(lines, plan, fresh0, i + 1, open + [i], states + [fresh0], done + [lines[i]])
  {
    assert PlannedAlone(lines, plan, fresh0, i, lines[i]);
  }

  lemma WalkExit<L, S>(
    lines: seq<Line<L>>, plan: (Line<L>, S) -> (Line<L>, S), fresh0: S,
    i: nat, open: seq<int>, states: seq<S>, done: seq<Line<L>>)
    requires i < |lines| && lines[i].ExitSubgraph?
    requires Walked(lines, plan, fresh0, i, open, states, done)
    ensures states == [] ==> !StackSuffices(lines)
    ensures states != [] ==>
              Walked(lines, plan, fresh0, i + 1, open[..|open| - 1], states[..|states| - 1], done + [lines[i]])
  {
    assert PlannedAlone(lines, plan, fresh0, i, lines[i]);
    assert states == [] ==> Depth(lines, i + 1) == -2;
  }

  lemma WalkOther<L, S>(
    lines: seq<Line<L>>, plan: (Line<L>, S) -> (Line<L>, S), fresh0: S,
    i: nat, open: seq<int>, states: seq<S>, done: seq<Line<L>>)
    requires i < |lines| && lines[i].Other?
    requires Walked(lines, plan, fresh0, i, open, states, done)
    ensures Walked(lines, plan, fresh0, i + 1, open, states, done + [lines[i]])
  {
    assert PlannedAlone(lines, plan, fresh0, i, lines[i]);
  }

  lemma WalkStart<L, S>(lines: seq<Line<L>>, plan: (Line<L>, S) -> (Line<L>, S), fresh0: S)
    ensures Walked(lines, plan, fresh0, 0, [-1], [fresh0], [])
  {
  }

  lemma WalkEnd<L, S>(
    lines: seq<Line<L>>, plan: (Line<L>, S) -> (Line<L>, S), fresh0: S,
    i: nat, open: seq<int>, states: seq<S>, done: seq<Line<L>>)
    requires i == |lines| && Walked(lines, plan, fresh0, i, open, states, done)
    ensures |states| == 1 <==> StackSuffices(lines)
    ensures done + lines[i..] == done
  {
  }

  lemma Advance<T>(done: seq<T>, all: seq<T>, x: T)
    requires |done| < |all|
    ensures (done + all[|done|..])[|done| := x] == (done + [x]) + all[|done| + 1..]
    ensures done + all[|done|..] == (done + [all[|done|]]) + all[|done| + 1..]
  {
  }

  class WrapperCodegen<L(!new), S(!new)> {
    var lines: seq<Line<L>>

    /** Drops the pointless lines at the end, in place. */
    method TrimLines(outNames: set<string>)
      modifies this
      ensures lines == Trim(old(lines), outNames)
    {
      while lines != [] && Pointless(lines[|lines| - 1], outNames)
        invariant Trim(lines, outNames) == Trim(old(lines), outNames)
        decreases |lines|
      {
        lines := lines[..|lines| - 1];
      }
    }

    /** Plans line i in place with the top of the stack, or pushes or pops a state. */
    method PlanLine(
      plan: (Line<L>, S) -> (Line<L>, S), fresh0: S, i: nat, states: seq<S>,
      ghost all: seq<Line<L>>, ghost open: seq<int>, ghost done: seq<Line<L>>)
      returns (ok: bool, states': seq<S>, ghost open': seq<int>, ghost done': seq<Line<L>>)
      requires i < |all| && Walked(all, plan, fresh0, i, open, states, done) && lines == done + all[i..]
      modifies this
      ensures !ok ==> !StackSuffices(all)
      ensures ok ==> Walked(all, plan, fresh0, i + 1, open', states', done') && lines == done' + all[i + 1..]
    {
      var line := lines[i];
      states', open', done' := states, open, done + [all[i]];
      Advance(done, all, line);
      match line
      case Planning(_, _) =>
        WalkPlanning(all, plan, fresh0, i, open, states, done);
        if states == [] { return false, states', open', done'; }
        var top := |states| - 1;
        var (planned, state) := plan(line, states[top]);
        Advance(done, all, planned);
        lines := lines[i := planned];
        return true, states[top := state], open, done + [planned];
      case EnterSubgraph =>
        WalkEnter(all, plan, fresh0, i, open, states, done);
        return true, states + [fresh0], open + [i], done';
      case ExitSubgraph =>
        WalkExit(all, plan, fresh0, i, open, states, done);
        if states == [] { return false, states', open', done'; }
        return true, states[..|states| - 1], open[..|open| - 1], done';
      case Other(_) =>
        WalkOther(all, plan, fresh0, i, open, states, done);
        return true, states, open, done';
    }

    /** Plans every line in place, with the stack of states. */
    method PlanLines(plan: (Line<L>, S) -> (Line<L>, S), fresh0: S) returns (ok: bool)
      modifies this
      ensures ok <==> StackSuffices(old(lines))
      ensures ok ==> |lines| == |old(lines)| && PlansAlone(old(lines), plan, fresh0, lines)
      ensures ok ==> PlansInTurn(old(lines), plan, fresh0, lines)
    {
      ghost var all := lines;
      var states := [fresh0];
      ghost var open, done := [-1], [];
      WalkStart(all, plan, fresh0);
      for i := 0 to |lines|
        invariant |lines| == |all| && lines == done + all[i..]
        invariant Walked(all, plan, fresh0, i, open, states, done)
      {
        ok, states, open, done := PlanLine(plan, fresh0, i, states, all, open, done);
        if !ok { return; }
      }
      WalkEnd(all, plan, fresh0, |all|, open, states, done);
      if |states| == 0 { return false; }
      states := states[..|states| - 1];
      ok := |states| == 0;
      AloneIsInTurn(all, plan, fresh0, done);
    }

    /** Trims and plans the lines in place.  False stands for the exceptions of the
        original: popping or reading an empty stack, and the final assertion. */
    method MemoryPlanReuse(outNames: set<string>, plan: (Line<L>, S) -> (Line<L>, S), fresh0: S) returns (ok: bool)
      modifies this
      ensures ok <==> StackSuffices(Trim(old(lines), outNames))
      ensures Balanced(old(lines)) ==> ok
      ensures ok ==>
                var trimmed := Trim(old(lines), outNames);
                && |lines| == |trimmed| && PlansAlone(trimmed, plan, fresh0, lines)
                && PlansInTurn(trimmed, plan, fresh0, lines)
    {
      TrimLines(outNames);
      if Balanced(old(lines)) {
        TrimKeepsBalance(old(lines), outNames);
      }
      ok := PlanLines(plan, fresh0);
    }
  }
}
