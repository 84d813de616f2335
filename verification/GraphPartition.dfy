/**
  Signatures of graph partitions: which names a partition takes as inputs, which it
  returns, and which inputs it deallocates.  The signatures are computed by one backward
  pass over the partitions; the theorems are about running the partitions forwards.

  A node is identified by its name, and the ordered sets of the pass are sets.
 */
module GraphPartition {
  import opened Basics

  type Name = string

  /** What is_none_layout looks at in a scheduler buffer. */
  datatype Buffer = Buffer(noneLayout: bool, mutationOutput: bool)

  datatype Node = Node(outputs: set<Name>, readNames: set<Name>, writeNames: set<Name>, lastUsage: set<Name>)

  type Partition = seq<Node>

  datatype Scheduler = Scheduler(
    buffers: map<Name, Buffer>,   // name_to_buf
    realNames: map<Name, Name>,   // mutation_real_name
    nodes: set<Name>,             // names known to get_name_to_nodes
    constants: set<Name>,
    graphOutputs: set<Name>)

  datatype Signature = Signature(
    inputNodes: set<Name>,
    outputNodes: set<Name>,
    inputDeallocation: map<Name, bool>,
    skipCudagraph: bool,
    constantNames: set<Name>)

  datatype Result<T> = Ok(value: T) | Raised

  // ----- layouts -------------------------------------------------------------------

  /** The answer of is_none_layout; Endless when the recursion never returns. */
  datatype Layout = Stored | NoStorage | Endless

  /** The name is_none_layout recurses on: a mutation output without storage and with a
      (non-empty) real name. */
  predicate Forwards(s: Scheduler, name: Name) {
    && name in s.buffers
    && s.buffers[name].noneLayout
    && s.buffers[name].mutationOutput
    && name in s.realNames
    && s.realNames[name] != ""
  }

  function Verdict(s: Scheduler, name: Name): Layout {
    if name in s.buffers && s.buffers[name].noneLayout then NoStorage else Stored
  }

  function LayoutFrom(s: Scheduler, name: Name, seen: set<Name>): Layout
    decreases s.buffers.Keys - seen
  {
    if !Forwards(s, name) then Verdict(s, name)
    else if name in seen then Endless
    else LayoutFrom(s, s.realNames[name], seen + {name})
  }

  function LayoutOf(s: Scheduler, name: Name): Layout {
    LayoutFrom(s, name, {})
  }

  /** A chain of real names from its first name to one that is not forwarded any more. */
  ghost predicate IsChain(s: Scheduler, chain: seq<Name>) {
    && |chain| > 0
    && (forall i :: 0 <= i < |chain| - 1 ==> Forwards(s, chain[i]) && s.realNames[chain[i]] == chain[i + 1])
    && !Forwards(s, chain[|chain| - 1])
  }

  /** is_none_layout answers by the end of the chain of real names, and fails to answer
      exactly when that chain has no end. */
  lemma LayoutIsEndOfChain(s: Scheduler, name: Name)
    ensures LayoutOf(s, name) != Endless <==> exists chain :: IsChain(s, chain) && chain[0] == name
    ensures forall chain :: IsChain(s, chain) && chain[0] == name ==>
              LayoutOf(s, name) == Verdict(s, chain[|chain| - 1])
  {
    if LayoutOf(s, name) != Endless {
      var chain := ChainOf(s, name, {});
    }
    forall chain | IsChain(s, chain) && chain[0] == name
      ensures LayoutOf(s, name) == Verdict(s, chain[|chain| - 1])
    {
      FollowChain(s, chain, {});
    }
  }

  lemma {:induction false} ChainOf(s: Scheduler, name: Name, seen: set<Name>) returns (chain: seq<Name>)
    requires LayoutFrom(s, name, seen) != Endless
    ensures IsChain(s, chain) && chain[0] == name
    decreases s.buffers.Keys - seen
  {
    if !Forwards(s, name) {
      chain := [name];
    } else {
      var rest := ChainOf(s, s.realNames[name], seen + {name});
      chain := [name] + rest;
    }
  }

  lemma {:induction false} FollowChain(s: Scheduler, chain: seq<Name>, seen: set<Name>)
    requires IsChain(s, chain)
    requires forall i :: 0 <= i < |chain| ==> chain[i] !in seen
    ensures LayoutFrom(s, chain[0], seen) == Verdict(s, chain[|chain| - 1])
    decreases |chain|
  {
    if |chain| > 1 {
      forall i | 0 < i < |chain| ensures chain[i] != chain[0] {
        if chain[i] == chain[0] { ChainIsUnique(s, chain[i..], chain); }
      }
      assert IsChain(s, chain[1..]);
      FollowChain(s, chain[1..], seen + {chain[0]});
    }
  }

  /** Forwarding is a function, so a name starts at most one chain. */
  lemma {:induction false} ChainIsUnique(s: Scheduler, chain: seq<Name>, other: seq<Name>)
    requires IsChain(s, chain) && IsChain(s, other) && chain[0] == other[0]
    ensures chain == other
  {
    if |chain| > 1 && |other| > 1 {
      ChainIsUnique(s, chain[1..], other[1..]);
      assert chain == [chain[0]] + chain[1..] == [other[0]] + other[1..] == other;
    }
  }

  // ----- what the nodes of a partition do ------------------------------------------

  /** Some node of the partition produces the name. */
  ghost predicate IsMade(p: Partition, x: Name) {
    exists i :: 0 <= i < |p| && x in p[i].outputs
  }

  ghost predicate IsAccessed(p: Partition, x: Name) {
    exists i :: 0 <= i < |p| && (x in p[i].readNames || x in p[i].writeNames)
  }

  ghost predicate IsLastUsed(p: Partition, x: Name) {
    exists i :: 0 <= i < |p| && x in p[i].lastUsage
  }

  ghost predicate IsRealNameOf(s: Scheduler, y: Name, x: Name) {
    if x in s.realNames then y == s.realNames[x] else y == x
  }

  /** A stored name that a node reads or writes and no node makes, under its real name. */
  ghost predicate IsRead(s: Scheduler, p: Partition, y: Name) {
    exists x :: IsAccessed(p, x) && !IsMade(p, x) && LayoutOf(s, x) == Stored && IsRealNameOf(s, y, x)
  }

  /** The partition needs the name from outside, to read or write it or to free it. */
  ghost predicate Needs(s: Scheduler, p: Partition, y: Name) {
    IsRead(s, p, y) || (IsLastUsed(p, y) && !IsMade(p, y) && y in s.nodes)
  }

  /** The partition makes a name that is wanted later, or it keeps a known one that it needs
      and does not free. */
  ghost predicate MakesOrKeeps(s: Scheduler, p: Partition, wanted: iset<Name>, x: Name) {
    (IsMade(p, x) && x in wanted) || (Needs(s, p, x) && x in s.nodes && !IsLastUsed(p, x))
  }

  /** The partition gives the name back: it is the real name of one that it makes or keeps. */
  ghost predicate GivesBack(s: Scheduler, p: Partition, wanted: iset<Name>, y: Name) {
    exists x :: MakesOrKeeps(s, p, wanted, x) && IsRealNameOf(s, y, x)
  }

  // ----- one partition -------------------------------------------------------------

  function Real(s: Scheduler, name: Name): Name {
    if name in s.realNames then s.realNames[name] else name
  }

  function Produced(p: Partition): set<Name> {
    set i, x | 0 <= i < |p| && x in p[i].outputs :: x
  }

  function Accessed(p: Partition): set<Name> {
    set i, x | 0 <= i < |p| && x in p[i].readNames + p[i].writeNames :: x
  }

  function LastUsed(p: Partition): set<Name> {
    set i, x | 0 <= i < |p| && x in p[i].lastUsage :: x
  }

  /** partition_input_names */
  function InputNames(s: Scheduler, p: Partition): set<Name> {
    (set x | x in Accessed(p) - Produced(p) && LayoutOf(s, x) == Stored :: Real(s, x))
    + (set x | x in LastUsed(p) - Produced(p) && x in s.nodes)
  }

  /** returned_output_names, for the names unmet after the partition */
  function ReturnedNames(s: Scheduler, p: Partition, unmet: set<Name>): set<Name> {
    var kept := set x | x in InputNames(s, p) && x in s.nodes && x !in LastUsed(p);
    set x | x in (Produced(p) * unmet) + kept :: Real(s, x)
  }

  function SignatureOf(s: Scheduler, p: Partition, skip: bool, unmet: set<Name>): Signature {
    Signature(
      InputNames(s, p) * s.nodes,
      set x | x in ReturnedNames(s, p, unmet) && LayoutOf(s, x) == Stored,
      map x | x in InputNames(s, p) * s.nodes :: x in LastUsed(p),
      skip,
      InputNames(s, p) * s.constants)
  }

  lemma NamesOfNodes(p: Partition, x: Name)
    ensures x in Produced(p) <==> IsMade(p, x)
    ensures x in Accessed(p) <==> IsAccessed(p, x)
    ensures x in LastUsed(p) <==> IsLastUsed(p, x)
  {
    if IsAccessed(p, x) {
      var i :| 0 <= i < |p| && (x in p[i].readNames || x in p[i].writeNames);
      assert x in p[i].readNames + p[i].writeNames;
    }
  }

  /** The input names are what the nodes need. */
  lemma InputsAreNeeds(s: Scheduler, p: Partition, y: Name)
    ensures y in InputNames(s, p) <==> Needs(s, p, y)
  {
    NamesOfNodes(p, y);
    if IsRead(s, p, y) {
      var x :| IsAccessed(p, x) && !IsMade(p, x) && LayoutOf(s, x) == Stored && IsRealNameOf(s, y, x);
      NamesOfNodes(p, x);
    }
    if y in InputNames(s, p) && !(y in LastUsed(p) - Produced(p) && y in s.nodes) {
      var x :| x in Accessed(p) - Produced(p) && LayoutOf(s, x) == Stored && Real(s, x) == y;
      NamesOfNodes(p, x);
      assert IsRealNameOf(s, y, x);
    }
  }

  lemma ReturnedAreGivenBack(s: Scheduler, p: Partition, unmet: set<Name>, wanted: iset<Name>, y: Name)
    requires forall x :: x in unmet <==> x in wanted
    ensures y in ReturnedNames(s, p, unmet) <==> GivesBack(s, p, wanted, y)
  {
    if y in ReturnedNames(s, p, unmet) {
      var x :| Real(s, x) == y && ((x in Produced(p) && x in unmet) || (x in InputNames(s, p) && x in s.nodes && x !in LastUsed(p)));
      NamesOfNodes(p, x);
      InputsAreNeeds(s, p, x);
      assert MakesOrKeeps(s, p, wanted, x) && IsRealNameOf(s, y, x);
    }
    if GivesBack(s, p, wanted, y) {
      var x :| MakesOrKeeps(s, p, wanted, x) && IsRealNameOf(s, y, x);
      NamesOfNodes(p, x);
      InputsAreNeeds(s, p, x);
      assert Real(s, x) == y;
    }
  }

  /** The step raises when is_none_layout does not return, or when a stored name to return
      is not a known node. */
  predicate StepRaises(s: Scheduler, p: Partition, unmet: set<Name>) {
    || (exists x :: x in Accessed(p) && LayoutOf(s, x) == Endless)
    || (exists x :: x in ReturnedNames(s, p, unmet) && LayoutOf(s, x) == Endless)
    || (exists x :: x in ReturnedNames(s, p, unmet) && LayoutOf(s, x) == Stored && x !in s.nodes)
  }

  function Outcome(s: Scheduler, p: Partition, skip: bool, unmet: set<Name>): Result<Signature> {
    if StepRaises(s, p, unmet) then Raised else Ok(SignatureOf(s, p, skip, unmet))
  }

  // ----- the backward pass ---------------------------------------------------------

  /** unmet_output_names before a partition, from those after it */
  function UnmetBefore(s: Scheduler, p: Partition, unmet: set<Name>): set<Name> {
    InputNames(s, p) + (unmet - ReturnedNames(s, p, unmet))
  }

  /** unmet_output_names before partition k, as the pass leaves it */
  function Unmet(s: Scheduler, ps: seq<Partition>, k: nat): set<Name>
    requires k <= |ps|
    decreases |ps| - k
  {
    if k == |ps| then s.graphOutputs else UnmetBefore(s, ps[k], Unmet(s, ps, k + 1))
  }

  /** What partition k returns. */
  function Returned(s: Scheduler, ps: seq<Partition>, k: nat): set<Name>
    requires k < |ps|
  {
    ReturnedNames(s, ps[k], Unmet(s, ps, k + 1))
  }

  /** The outcome of the pass at partition k. */
  function OutcomeAt(s: Scheduler, ps: seq<Partition>, skips: seq<bool>, k: nat): Result<Signature>
    requires k < |ps| == |skips|
  {
    Outcome(s, ps[k], skips[k], Unmet(s, ps, k + 1))
  }

  /** The signatures that the pass produces when it does not raise. */
  ghost predicate AreSignatures(s: Scheduler, ps: seq<Partition>, skips: seq<bool>, sigs: seq<Signature>) {
    && |skips| == |ps| == |sigs|
    && forall k {:trigger OutcomeAt(s, ps, skips, k)} ::
         0 <= k < |ps| ==> OutcomeAt(s, ps, skips, k) == Ok(sigs[k])
  }

  function Last<T>(xs: seq<T>, n: nat): (r: seq<T>)
    requires n <= |xs|
  {
    xs[|xs| - n..]
  }

  function Reversed<T>(xs: seq<T>): (r: seq<T>)
    ensures |r| == |xs| && forall k :: 0 <= k < |xs| ==> r[k] == xs[|xs| - 1 - k]
  {
    if xs == [] then [] else Reversed(xs[1..]) + [xs[0]]
  }

  /** The sets gathered by the loops over the nodes of one partition. */
  method Gather(p: Partition) returns (outputNames: set<Name>, accessed: set<Name>, toFree: set<Name>)
    ensures outputNames == Produced(p) && accessed == Accessed(p) && toFree == LastUsed(p)
  {
    outputNames, accessed, toFree := {}, {}, {};
    for i := 0 to |p|
      invariant outputNames == Produced(p[..i])
      invariant accessed == Accessed(p[..i])
      invariant toFree == LastUsed(p[..i])
    {
      assert forall j :: 0 <= j < i ==> p[..i + 1][j] == p[..i][j];
      assert p[..i + 1][i] == p[i];
      outputNames := outputNames + p[i].outputs;
      accessed := accessed + (p[i].readNames + p[i].writeNames);
      toFree := toFree + p[i].lastUsage;
    }
    assert p[..|p|] == p;
  }

  method CollectInputs(
    s: Scheduler, outputNames: set<Name>, accessed: set<Name>, toFree: set<Name>, ghost p: Partition)
    returns (inputs: set<Name>)
    requires outputNames == Produced(p) && accessed == Accessed(p) && toFree == LastUsed(p)
    ensures inputs == InputNames(s, p)
  {
    inputs := (set x | x in accessed && LayoutOf(s, x) == Stored) - outputNames;
    inputs := set x | x in inputs :: Real(s, x);
    inputs := inputs + (set x | x in toFree - outputNames && x in s.nodes);
  }

  method CollectReturned(
    s: Scheduler, met: set<Name>, inputs: set<Name>, toFree: set<Name>, ghost p: Partition, ghost unmet: set<Name>)
    returns (returned: set<Name>)
    requires met == Produced(p) * unmet && inputs == InputNames(s, p) && toFree == LastUsed(p)
    ensures returned == ReturnedNames(s, p, unmet)
  {
    returned := met + (set x | x in inputs && x in s.nodes && x !in toFree);
    returned := set x | x in returned :: Real(s, x);
  }

  lemma InBoth(a: set<Name>, b: set<Name>, toFree: set<Name>)
    ensures (set x | x in a && x in b) == a * b
    ensures (map x | x in a && x in b :: x in toFree) == map x | x in a * b :: x in toFree
  {
  }

  /** One round of the loop of the pass: the signature and the new unmet names. */
  method Step(s: Scheduler, p: Partition, skip: bool, unmet: set<Name>)
    returns (r: Result<Signature>, unmet': set<Name>)
    ensures r == Outcome(s, p, skip, unmet)
    ensures unmet' == UnmetBefore(s, p, unmet)
  {
    var outputNames, accessed, toFree := Gather(p);
    var inputs := CollectInputs(s, outputNames, accessed, toFree, p);
    var inputNodes := set x | x in inputs && x in s.nodes;
    var deallocation := map x | x in inputs && x in s.nodes :: x in toFree;
    var returned := CollectReturned(s, outputNames * unmet, inputs, toFree, p, unmet);
    unmet' := inputs + (unmet - returned);
    if (exists x :: x in accessed && LayoutOf(s, x) == Endless)
       || (exists x :: x in returned && (LayoutOf(s, x) == Endless || (LayoutOf(s, x) == Stored && x !in s.nodes)))
    {
      return Raised, unmet';
    }
    var outputNodes := set x | x in returned && LayoutOf(s, x) == Stored;
    var constantNames := set x | x in inputs && x in s.constants;
    InBoth(inputs, s.nodes, toFree);
    InBoth(inputs, s.constants, toFree);
    r := Ok(Signature(inputNodes, outputNodes, deallocation, skip, constantNames));
  }

  /** The signatures of the partitions from k on, last one first. */
  ghost predicate AreLastSignatures(
    s: Scheduler, ps: seq<Partition>, skips: seq<bool>, signatures: seq<Signature>, k: nat)
    requires k <= |ps| == |skips|
  {
    && |signatures| == |ps| - k
    && forall j {:trigger OutcomeAt(s, ps, skips, j)} ::
         k <= j < |ps| ==> OutcomeAt(s, ps, skips, j) == Ok(signatures[|ps| - 1 - j])
  }

  lemma OneSignatureMore(
    s: Scheduler, ps: seq<Partition>, skips: seq<bool>, signatures: seq<Signature>, k: nat, signature: Signature)
    requires k < |ps| == |skips| && AreLastSignatures(s, ps, skips, signatures, k + 1)
    requires OutcomeAt(s, ps, skips, k) == Ok(signature)
    ensures AreLastSignatures(s, ps, skips, signatures + [signature], k)
  {
  }

  /** The pass, last partition first, over as many partitions as flags. */
  method BackwardPass(s: Scheduler, ps: seq<Partition>, skips: seq<bool>) returns (r: Result<seq<Signature>>)
    requires |ps| == |skips|
    ensures r.Ok? ==> AreSignatures(s, ps, skips, r.value)
    ensures r.Raised? ==> exists k :: 0 <= k < |ps| && OutcomeAt(s, ps, skips, k).Raised?
  {
    var unmet := s.graphOutputs;
    var signatures := [];
    var k := |ps|;
    while k > 0
      invariant 0 <= k <= |ps|
      invariant unmet == Unmet(s, ps, k)
      invariant AreLastSignatures(s, ps, skips, signatures, k)
    {
      k := k - 1;
      var signature, unmet' := Step(s, ps[k], skips[k], unmet);
      assert signature == OutcomeAt(s, ps, skips, k);
      if signature.Raised? {
        return Raised;
      }
      OneSignatureMore(s, ps, skips, signatures, k, signature.value);
      signatures, unmet := signatures + [signature.value], unmet';
    }
    r := Ok(Reversed(signatures));
  }

  /** The pass pairs partitions and flags from the back, so only the last ones common to
      both lists are visited. */
  method GetGraphPartitionSignature(s: Scheduler, partitions: seq<Partition>, skips: seq<bool>)
    returns (r: Result<seq<Signature>>)
    ensures
      var n := Min(|partitions|, |skips|);
      var ps, fs := Last(partitions, n), Last(skips, n);
      && (r.Ok? ==> AreSignatures(s, ps, fs, r.value))
      && (r.Raised? ==> exists k :: 0 <= k < n && OutcomeAt(s, ps, fs, k).Raised?)
  {
    var n := Min(|partitions|, |skips|);
    r := BackwardPass(s, Last(partitions, n), Last(skips, n));
  }

  // ----- closed form of the pass ---------------------------------------------------

  /** Partition j needs x; the end of the graph takes the graph outputs. */
  ghost predicate Takes(s: Scheduler, ps: seq<Partition>, j: nat, x: Name)
    requires j <= |ps|
  {
    if j == |ps| then x in s.graphOutputs else Needs(s, ps[j], x)
  }

  /** j takes x, and no partition from k up to j returns it. */
  ghost predicate TakenAtFirst(s: Scheduler, ps: seq<Partition>, k: nat, j: nat, x: Name)
    requires k <= j <= |ps|
  {
    Takes(s, ps, j, x) && NotReturned(s, ps, k, j, x)
  }

  ghost predicate NotReturned(s: Scheduler, ps: seq<Partition>, k: nat, j: nat, x: Name)
    requires k <= j <= |ps|
  {
    forall i {:trigger Returned(s, ps, i)} :: k <= i < j ==> x !in Returned(s, ps, i)
  }

  /** Some j from k onward takes x, and no partition from k up to j returns it. */
  ghost predicate TakenBeforeReturned(s: Scheduler, ps: seq<Partition>, k: nat, x: Name)
    requires k <= |ps|
  {
    exists j: nat :: k <= j <= |ps| && TakenAtFirst(s, ps, k, j, x)
  }

  lemma UnmetAt(s: Scheduler, ps: seq<Partition>, k: nat, x: Name)
    requires k < |ps|
    ensures x in Unmet(s, ps, k) <==> Takes(s, ps, k, x) || (x in Unmet(s, ps, k + 1) && x !in Returned(s, ps, k))
  {
    InputsAreNeeds(s, ps[k], x);
  }

  lemma TakenAt(s: Scheduler, ps: seq<Partition>, k: nat, x: Name)
    requires k < |ps|
    ensures TakenBeforeReturned(s, ps, k, x) <==>
              Takes(s, ps, k, x) || (TakenBeforeReturned(s, ps, k + 1, x) && x !in Returned(s, ps, k))
  {
    if Takes(s, ps, k, x) {
      assert TakenAtFirst(s, ps, k, k, x);
    } else if TakenBeforeReturned(s, ps, k, x) {
      var j: nat :| k <= j <= |ps| && TakenAtFirst(s, ps, k, j, x);
      TakenLater(s, ps, k, j, x);
    } else if TakenBeforeReturned(s, ps, k + 1, x) && x !in Returned(s, ps, k) {
      var j: nat :| k + 1 <= j <= |ps| && TakenAtFirst(s, ps, k + 1, j, x);
      TakenLater(s, ps, k, j, x);
    }
  }

  lemma TakenLater(s: Scheduler, ps: seq<Partition>, k: nat, j: nat, x: Name)
    requires k < j <= |ps|
    ensures TakenAtFirst(s, ps, k, j, x) <==> TakenAtFirst(s, ps, k + 1, j, x) && x !in Returned(s, ps, k)
  {
    if NotReturned(s, ps, k, j, x) {
      assert x !in Returned(s, ps, k);
    }
    if NotReturned(s, ps, k + 1, j, x) && x !in Returned(s, ps, k) {
      forall i | k <= i < j ensures x !in Returned(s, ps, i) {
        assert i == k || k + 1 <= i < j;
      }
    }
  }

  lemma {:induction false} UnmetClosedForm(s: Scheduler, ps: seq<Partition>, k: nat, x: Name)
    requires k <= |ps|
    ensures x in Unmet(s, ps, k) <==> TakenBeforeReturned(s, ps, k, x)
    decreases |ps| - k
  {
    if k < |ps| {
      UnmetClosedForm(s, ps, k + 1, x);
      UnmetAt(s, ps, k, x);
      TakenAt(s, ps, k, x);
    } else if x in Unmet(s, ps, k) {
      assert TakenAtFirst(s, ps, k, k, x);
    }
  }

  // ----- the signatures, from the nodes alone --------------------------------------

  /** Some partition from k on, or the end, takes x before a partition from k on returns it. */
  ghost function TakenFrom(s: Scheduler, ps: seq<Partition>, k: nat): iset<Name>
    requires k <= |ps|
  {
    iset x | TakenBeforeReturned(s, ps, k, x)
  }

  /** What every part of a signature has, by what the nodes of its partition do. */
  lemma SignatureOfNodes(s: Scheduler, ps: seq<Partition>, skips: seq<bool>, sigs: seq<Signature>, k: nat, y: Name)
    requires AreSignatures(s, ps, skips, sigs) && k < |ps|
    ensures y in sigs[k].inputNodes <==> Needs(s, ps[k], y) && y in s.nodes
    ensures y in sigs[k].constantNames <==> Needs(s, ps[k], y) && y in s.constants
    ensures y in sigs[k].outputNodes <==> LayoutOf(s, y) == Stored && GivesBack(s, ps[k], TakenFrom(s, ps, k + 1), y)
    ensures sigs[k].inputDeallocation.Keys == sigs[k].inputNodes
    ensures y in sigs[k].inputNodes ==> (sigs[k].inputDeallocation[y] <==> IsLastUsed(ps[k], y))
    ensures sigs[k].skipCudagraph == skips[k]
  {
    assert OutcomeAt(s, ps, skips, k) == Ok(sigs[k]);
    InputsAreNeeds(s, ps[k], y);
    NamesOfNodes(ps[k], y);
    GivenBackAt(s, ps, k, y);
  }

  lemma GivenBackAt(s: Scheduler, ps: seq<Partition>, k: nat, y: Name)
    requires k < |ps|
    ensures y in Returned(s, ps, k) <==> GivesBack(s, ps[k], TakenFrom(s, ps, k + 1), y)
  {
    var unmet, wanted := Unmet(s, ps, k + 1), TakenFrom(s, ps, k + 1);
    forall x ensures x in unmet <==> x in wanted {
      UnmetClosedForm(s, ps, k + 1, x);
    }
    ReturnedAreGivenBack(s, ps[k], unmet, wanted, y);
  }

  /** The pass raises at a partition exactly when is_none_layout does not return for a name
      that one of its nodes reads or writes or that it gives back, or when it gives back a
      stored name that is not known. */
  lemma RaisesOnNodes(s: Scheduler, ps: seq<Partition>, skips: seq<bool>, k: nat)
    requires k < |ps| == |skips|
    ensures OutcomeAt(s, ps, skips, k).Raised? <==>
              || (exists x :: IsAccessed(ps[k], x) && LayoutOf(s, x) == Endless)
              || (exists y :: GivesBack(s, ps[k], TakenFrom(s, ps, k + 1), y) && CannotBeReturned(s, y))
  {
    if OutcomeAt(s, ps, skips, k).Raised? {
      if x :| x in Accessed(ps[k]) && LayoutOf(s, x) == Endless {
        NamesOfNodes(ps[k], x);
      } else {
        var y :| y in Returned(s, ps, k) && CannotBeReturned(s, y);
        GivenBackAt(s, ps, k, y);
      }
    } else {
      forall x ensures !(IsAccessed(ps[k], x) && LayoutOf(s, x) == Endless) {
        NamesOfNodes(ps[k], x);
      }
      forall y ensures !(GivesBack(s, ps[k], TakenFrom(s, ps, k + 1), y) && CannotBeReturned(s, y)) {
        GivenBackAt(s, ps, k, y);
      }
    }
  }

  ghost predicate CannotBeReturned(s: Scheduler, y: Name) {
    LayoutOf(s, y) == Endless || (LayoutOf(s, y) == Stored && y !in s.nodes)
  }

  // ----- running the partitions forwards -------------------------------------------

  function Deallocated(sig: Signature): set<Name> {
    set x | x in sig.inputDeallocation && sig.inputDeallocation[x]
  }

  /** The names available before partition k: a call drops the inputs it deallocates and
      binds the outputs it returns. */
  function Available(sigs: seq<Signature>, start: set<Name>, k: nat): set<Name>
    requires k <= |sigs|
  {
    if k == 0 then start
    else (Available(sigs, start, k - 1) - Deallocated(sigs[k - 1])) + sigs[k - 1].outputNodes
  }

  /** What a call hands to a partition. */
  function Handed(sig: Signature): set<Name> {
    sig.inputNodes + sig.constantNames
  }

  /** Every partition is handed the stored names that its nodes need, and they are available;
      the end finds the stored graph outputs. */
  ghost predicate RunsToCompletion(s: Scheduler, ps: seq<Partition>, sigs: seq<Signature>, start: set<Name>)
    requires |ps| == |sigs|
  {
    forall j: nat, x :: j <= |ps| ==> !MissedAt(s, ps, sigs, start, j, x)
  }

  /** Every stored name that a partition needs is a known node or a constant. */
  ghost predicate KnowsNames(s: Scheduler, ps: seq<Partition>) {
    forall j: nat, x :: j < |ps| && Takes(s, ps, j, x) && LayoutOf(s, x) == Stored ==> x in s.nodes || x in s.constants
  }

  ghost predicate StartHasUnmet(s: Scheduler, ps: seq<Partition>, start: set<Name>) {
    forall x :: x in Unmet(s, ps, 0) && LayoutOf(s, x) == Stored ==> x in start
  }

  /** The known inputs of a partition that one of its nodes uses last. */
  function Freed(s: Scheduler, p: Partition): set<Name> {
    InputNames(s, p) * s.nodes * LastUsed(p)
  }

  /** Partition k frees a stored name that is still unmet after it, and does not return it. */
  predicate DropsTooEarly(s: Scheduler, ps: seq<Partition>, k: nat, x: Name)
    requires k < |ps|
  {
    && LayoutOf(s, x) == Stored
    && x in Freed(s, ps[k])
    && x in Unmet(s, ps, k + 1)
    && x !in Returned(s, ps, k)
  }

  ghost predicate NeverDropsTooEarly(s: Scheduler, ps: seq<Partition>) {
    forall k, x :: 0 <= k < |ps| ==> !DropsTooEarly(s, ps, k, x)
  }

  /** One call of the run, for a stored name. */
  lemma AvailableAfter(s: Scheduler, ps: seq<Partition>, skips: seq<bool>, sigs: seq<Signature>, start: set<Name>, k: nat, x: Name)
    requires k < |ps| == |skips| == |sigs| && OutcomeAt(s, ps, skips, k) == Ok(sigs[k]) && LayoutOf(s, x) == Stored
    ensures x in Available(sigs, start, k + 1) <==>
              x in Returned(s, ps, k) || (x in Available(sigs, start, k) && x !in Freed(s, ps[k]))
  {
  }

  lemma UnmetStaysAvailableAt(
    s: Scheduler, ps: seq<Partition>, skips: seq<bool>, sigs: seq<Signature>, start: set<Name>, k: nat, x: Name)
    requires k < |ps| == |skips| == |sigs| && OutcomeAt(s, ps, skips, k) == Ok(sigs[k]) && LayoutOf(s, x) == Stored
    requires !DropsTooEarly(s, ps, k, x) && (x in Unmet(s, ps, k) ==> x in Available(sigs, start, k))
    ensures x in Unmet(s, ps, k + 1) ==> x in Available(sigs, start, k + 1)
  {
    UnmetAt(s, ps, k, x);
    AvailableAfter(s, ps, skips, sigs, start, k, x);
  }

  lemma UnmetStaysAvailable(
    s: Scheduler, ps: seq<Partition>, skips: seq<bool>, sigs: seq<Signature>, start: set<Name>, k: nat, x: Name)
    requires AreSignatures(s, ps, skips, sigs)
    requires StartHasUnmet(s, ps, start) && NeverDropsTooEarly(s, ps)
    requires k <= |ps| && LayoutOf(s, x) == Stored
    ensures x in Unmet(s, ps, k) ==> x in Available(sigs, start, k)
  {
    for i := 0 to k
      invariant x in Unmet(s, ps, i) ==> x in Available(sigs, start, i)
    {
      assert OutcomeAt(s, ps, skips, i) == Ok(sigs[i]) && !DropsTooEarly(s, ps, i, x);
      UnmetStaysAvailableAt(s, ps, skips, sigs, start, i, x);
    }
  }

  /** Partition j, or the end, takes a stored name that is not available or not handed over. */
  ghost predicate MissedAt(s: Scheduler, ps: seq<Partition>, sigs: seq<Signature>, start: set<Name>, j: nat, x: Name)
    requires j <= |ps| == |sigs|
  {
    Takes(s, ps, j, x) && LayoutOf(s, x) == Stored && (x !in Available(sigs, start, j) || (j < |ps| && x !in Handed(sigs[j])))
  }

  /** A pass that did not raise, with its signatures. */
  datatype Pass = Pass(s: Scheduler, ps: seq<Partition>, skips: seq<bool>, sigs: seq<Signature>) {
    ghost predicate Returns() {
      AreSignatures(s, ps, skips, sigs)
    }
  }

  type ReturnedPass = p: Pass | p.Returns() ghost witness Pass(Scheduler(map[], map[], {}, {}, {}), [], [], [])

  lemma StillMissing(r: ReturnedPass, start: set<Name>, k: nat, x: Name)
    requires IsMissing(r, start, k, x) && k < |r.ps| && !Takes(r.s, r.ps, k, x)
    ensures IsMissing(r, start, k + 1, x)
  {
    assert OutcomeAt(r.s, r.ps, r.skips, k) == Ok(r.sigs[k]);
    UnmetAt(r.s, r.ps, k, x);
    AvailableAfter(r.s, r.ps, r.skips, r.sigs, start, k, x);
  }

  /** A stored unmet name that is not available before partition k. */
  ghost predicate IsMissing(r: ReturnedPass, start: set<Name>, k: nat, x: Name) {
    k <= |r.ps| && x in Unmet(r.s, r.ps, k) && LayoutOf(r.s, x) == Stored && x !in Available(r.sigs, start, k)
  }

  lemma MissingAtEnd(r: ReturnedPass, start: set<Name>, x: Name)
    requires IsMissing(r, start, |r.ps|, x)
    ensures Takes(r.s, r.ps, |r.ps|, x)
  {
  }

  lemma {:induction false} NextTaker(r: ReturnedPass, start: set<Name>, k: nat, x: Name) returns (j: nat)
    requires IsMissing(r, start, k, x)
    ensures IsMissing(r, start, j, x) && Takes(r.s, r.ps, j, x)
    decreases |r.ps| - k
  {
    j := k;
    if k == |r.ps| {
      MissingAtEnd(r, start, x);
    } else if !Takes(r.s, r.ps, k, x) {
      StillMissing(r, start, k, x);
      j := NextTaker(r, start, k + 1, x);
    }
  }

  /** A stored unmet name that is not available is missed by whoever takes it next. */
  lemma MissingNameIsMissed(r: ReturnedPass, start: set<Name>, k: nat, x: Name) returns (j: nat)
    requires IsMissing(r, start, k, x)
    ensures j <= |r.ps| && MissedAt(r.s, r.ps, r.sigs, start, j, x)
  {
    j := NextTaker(r, start, k, x);
  }

  lemma TakenIsUnmet(s: Scheduler, ps: seq<Partition>, j: nat, x: Name)
    requires j <= |ps| && Takes(s, ps, j, x)
    ensures x in Unmet(s, ps, j)
  {
    if j < |ps| {
      UnmetAt(s, ps, j, x);
    }
  }

  /** The signatures are sound exactly when the names left unmet at the front are there at
      the start, no partition drops a name too early, and every name that is needed is known. */
  lemma ForwardSoundness(s: Scheduler, ps: seq<Partition>, skips: seq<bool>, sigs: seq<Signature>, start: set<Name>)
    requires AreSignatures(s, ps, skips, sigs)
    ensures RunsToCompletion(s, ps, sigs, start) <==>
              StartHasUnmet(s, ps, start) && NeverDropsTooEarly(s, ps) && KnowsNames(s, ps)
  {
    if StartHasUnmet(s, ps, start) && NeverDropsTooEarly(s, ps) && KnowsNames(s, ps) {
      forall j: nat, x | j <= |ps| ensures !MissedAt(s, ps, sigs, start, j, x) {
        if Takes(s, ps, j, x) && LayoutOf(s, x) == Stored {
          TakenIsAvailable(s, ps, skips, sigs, start, j, x);
          if j < |ps| {
            SignatureOfNodes(s, ps, skips, sigs, j, x);
          }
        }
      }
    } else if !StartHasUnmet(s, ps, start) {
      var x :| x in Unmet(s, ps, 0) && LayoutOf(s, x) == Stored && x !in start;
      var j := MissingNameIsMissed(Pass(s, ps, skips, sigs), start, 0, x);
    } else if !NeverDropsTooEarly(s, ps) {
      var k: nat, x :| k < |ps| && DropsTooEarly(s, ps, k, x);
      var j := EarlyDropIsMissed(Pass(s, ps, skips, sigs), start, k, x);
    } else {
      var j: nat, x :| j < |ps| && Takes(s, ps, j, x) && LayoutOf(s, x) == Stored && x !in s.nodes && x !in s.constants;
      SignatureOfNodes(s, ps, skips, sigs, j, x);
      assert MissedAt(s, ps, sigs, start, j, x);
    }
  }

  lemma TakenIsAvailable(
    s: Scheduler, ps: seq<Partition>, skips: seq<bool>, sigs: seq<Signature>, start: set<Name>, j: nat, x: Name)
    requires AreSignatures(s, ps, skips, sigs) && StartHasUnmet(s, ps, start) && NeverDropsTooEarly(s, ps)
    requires j <= |ps| && Takes(s, ps, j, x) && LayoutOf(s, x) == Stored
    ensures x in Available(sigs, start, j)
  {
    TakenIsUnmet(s, ps, j, x);
    UnmetStaysAvailable(s, ps, skips, sigs, start, j, x);
  }

  lemma {:induction false} EarlyDropIsMissed(r: ReturnedPass, start: set<Name>, k: nat, x: Name) returns (j: nat)
    requires k < |r.ps| && DropsTooEarly(r.s, r.ps, k, x)
    ensures j <= |r.ps| && MissedAt(r.s, r.ps, r.sigs, start, j, x)
  {
    DroppedIsGone(r, start, k, x);
    j := MissingNameIsMissed(r, start, k + 1, x);
  }

  lemma DroppedIsGone(r: ReturnedPass, start: set<Name>, k: nat, x: Name)
    requires k < |r.ps| && DropsTooEarly(r.s, r.ps, k, x)
    ensures x !in Available(r.sigs, start, k + 1)
  {
    assert OutcomeAt(r.s, r.ps, r.skips, k) == Ok(r.sigs[k]);
    AvailableAfter(r.s, r.ps, r.skips, r.sigs, start, k, x);
  }

  /** The last usages are right: what a partition frees, nothing later takes. */
  ghost predicate LastUsagesAreLast(s: Scheduler, ps: seq<Partition>) {
    forall k, j, x :: 0 <= k < j <= |ps| && x in LastUsed(ps[k]) ==> !Takes(s, ps, j, x)
  }

  lemma RightLastUsagesNeverDropTooEarly(s: Scheduler, ps: seq<Partition>, k: nat, x: Name)
    requires LastUsagesAreLast(s, ps) && k < |ps|
    ensures !DropsTooEarly(s, ps, k, x)
  {
    UnmetClosedForm(s, ps, k + 1, x);
  }

  /** A name without storage is never returned, so only the start can supply it. */
  lemma {:induction false} UnstoredComesFromStart(
    s: Scheduler, ps: seq<Partition>, skips: seq<bool>, sigs: seq<Signature>, start: set<Name>, k: nat, x: Name)
    requires AreSignatures(s, ps, skips, sigs) && k <= |ps| && LayoutOf(s, x) != Stored
    ensures x in Available(sigs, start, k) <==> x in start && forall i :: 0 <= i < k ==> x !in Freed(s, ps[i])
  {
    for j := 0 to k
      invariant x in Available(sigs, start, j) <==> x in start && forall i :: 0 <= i < j ==> x !in Freed(s, ps[i])
    {
      assert OutcomeAt(s, ps, skips, j) == Ok(sigs[j]);
      UnstoredAfter(s, ps, skips, sigs, start, j, x);
    }
  }

  lemma UnstoredAfter(
    s: Scheduler, ps: seq<Partition>, skips: seq<bool>, sigs: seq<Signature>, start: set<Name>, k: nat, x: Name)
    requires k < |ps| == |skips| == |sigs| && OutcomeAt(s, ps, skips, k) == Ok(sigs[k]) && LayoutOf(s, x) != Stored
    ensures x in Available(sigs, start, k + 1) <==> x in Available(sigs, start, k) && x !in Freed(s, ps[k])
  {
  }

  /** With right last usages the run completes exactly when every name that is needed is known.
      A stored name that a node reads or writes and no node makes is handed over under its real
      name when that is known, and is available under it, unless that real name has no storage
      and is not there at the start. */
  lemma EveryAccessIsServed(
    s: Scheduler, ps: seq<Partition>, skips: seq<bool>, sigs: seq<Signature>, start: set<Name>, k: nat, x: Name)
    requires AreSignatures(s, ps, skips, sigs)
    requires LastUsagesAreLast(s, ps) && StartHasUnmet(s, ps, start)
    requires k < |ps| && IsAccessed(ps[k], x) && !IsMade(ps[k], x) && LayoutOf(s, x) == Stored
    ensures Real(s, x) in Available(sigs, start, k) <==> LayoutOf(s, Real(s, x)) == Stored || Real(s, x) in start
    ensures Real(s, x) in sigs[k].inputNodes <==> Real(s, x) in s.nodes
    ensures Real(s, x) in sigs[k].constantNames <==> Real(s, x) in s.constants
    ensures Forwards(s, x) ==> LayoutOf(s, Real(s, x)) == Stored
    ensures RunsToCompletion(s, ps, sigs, start) <==> KnowsNames(s, ps)
  {
    var y := Real(s, x);
    forall i, z | 0 <= i < |ps| ensures !DropsTooEarly(s, ps, i, z) {
      RightLastUsagesNeverDropTooEarly(s, ps, i, z);
    }
    ForwardSoundness(s, ps, skips, sigs, start);
    if Forwards(s, x) {
      LayoutFollowsRealName(s, x);
    }
    assert IsRealNameOf(s, y, x);
    assert IsRead(s, ps[k], y) && Takes(s, ps, k, y);
    SignatureOfNodes(s, ps, skips, sigs, k, y);
    if LayoutOf(s, y) == Stored {
      TakenIsAvailable(s, ps, skips, sigs, start, k, y);
    } else {
      ReadIsNotFreedBefore(s, ps, skips, sigs, start, k, y);
    }
  }

  lemma ReadIsNotFreedBefore(
    s: Scheduler, ps: seq<Partition>, skips: seq<bool>, sigs: seq<Signature>, start: set<Name>, k: nat, y: Name)
    requires AreSignatures(s, ps, skips, sigs) && LastUsagesAreLast(s, ps)
    requires k < |ps| && Takes(s, ps, k, y) && LayoutOf(s, y) != Stored
    ensures y in Available(sigs, start, k) <==> y in start
  {
    UnstoredComesFromStart(s, ps, skips, sigs, start, k, y);
    forall i | 0 <= i < k ensures y !in Freed(s, ps[i]) {
      assert y !in LastUsed(ps[i]);
    }
  }

  /** A forwarded name has the layout of its real name. */
  lemma LayoutFollowsRealName(s: Scheduler, name: Name)
    requires Forwards(s, name)
    ensures LayoutOf(s, name) == LayoutOf(s, Real(s, name))
  {
    var target := Real(s, name);
    LayoutIsEndOfChain(s, name);
    LayoutIsEndOfChain(s, target);
    if LayoutOf(s, target) != Endless {
      var chain :| IsChain(s, chain) && chain[0] == target;
      assert IsChain(s, [name] + chain);
      assert ([name] + chain)[|chain|] == chain[|chain| - 1];
    }
    if LayoutOf(s, name) != Endless {
      var chain :| IsChain(s, chain) && chain[0] == name;
      assert IsChain(s, chain[1..]) && chain[1..][0] == target;
    }
  }

  // ----- a name that is freed too early --------------------------------------------

  const EARLY: Scheduler := Scheduler(map[], map[], {"x"}, {}, {})

  /** Two nodes read a name, and the first claims to be the last to use it. */
  const EARLY_PARTITIONS: seq<Partition> := [[Node({}, {"x"}, {}, {"x"})], [Node({}, {"x"}, {}, {})]]

  lemma EarlyNames()
    ensures InputNames(EARLY, EARLY_PARTITIONS[0]) == InputNames(EARLY, EARLY_PARTITIONS[1]) == {"x"}
    ensures Produced(EARLY_PARTITIONS[0]) == Produced(EARLY_PARTITIONS[1]) == {}
    ensures LastUsed(EARLY_PARTITIONS[0]) == {"x"} && LastUsed(EARLY_PARTITIONS[1]) == {}
    ensures Accessed(EARLY_PARTITIONS[0]) == Accessed(EARLY_PARTITIONS[1]) == {"x"} && LayoutOf(EARLY, "x") == Stored
  {
    NamesOfOneNode(EARLY_PARTITIONS[0][0]);
    NamesOfOneNode(EARLY_PARTITIONS[1][0]);
    assert Real(EARLY, "x") == "x";
  }

  lemma NamesOfOneNode(n: Node)
    ensures Produced([n]) == n.outputs && Accessed([n]) == n.readNames + n.writeNames && LastUsed([n]) == n.lastUsage
  {
    assert [n][0] == n;
  }

  lemma EarlyReturns(unmet: set<Name>)
    ensures ReturnedNames(EARLY, EARLY_PARTITIONS[0], unmet) == {} && ReturnedNames(EARLY, EARLY_PARTITIONS[1], unmet) == {"x"}
    ensures !StepRaises(EARLY, EARLY_PARTITIONS[0], unmet) && !StepRaises(EARLY, EARLY_PARTITIONS[1], unmet)
  {
    EarlyNames();
    var kept := set x | x in InputNames(EARLY, EARLY_PARTITIONS[1]) && x in EARLY.nodes && x !in LastUsed(EARLY_PARTITIONS[1]);
    assert "x" in kept && Real(EARLY, "x") == "x";
  }

  /** The pass accepts these partitions, and from no start does their run complete. */
  lemma EarlyFreeBreaksTheRun(skips: seq<bool>) returns (sigs: seq<Signature>)
    requires |skips| == 2
    ensures AreSignatures(EARLY, EARLY_PARTITIONS, skips, sigs)
    ensures forall start :: !RunsToCompletion(EARLY, EARLY_PARTITIONS, sigs, start)
  {
    var s, ps := EARLY, EARLY_PARTITIONS;
    EarlyReturns(Unmet(s, ps, 2));
    EarlyReturns(Unmet(s, ps, 1));
    EarlyNames();
    sigs := [OutcomeAt(s, ps, skips, 0).value, OutcomeAt(s, ps, skips, 1).value];
    TakenIsUnmet(s, ps, 1, "x");
    assert DropsTooEarly(s, ps, 0, "x");
    forall start ensures !RunsToCompletion(s, ps, sigs, start) {
      var j := EarlyDropIsMissed(Pass(s, ps, skips, sigs), start, 0, "x");
    }
  }

  // ----- a name that is not known --------------------------------------------------

  const UNKNOWING: Scheduler := Scheduler(map[], map[], {}, {}, {})

  /** A node reads a name that is neither a known node nor a constant. */
  const UNKNOWN_PARTITIONS: seq<Partition> := [[Node({}, {"x"}, {}, {})]]

  /** The pass accepts the partition and lists no input for it, so from no start does its run
      complete. */
  lemma UnknownNameBreaksTheRun(skips: seq<bool>) returns (sigs: seq<Signature>)
    requires |skips| == 1
    ensures AreSignatures(UNKNOWING, UNKNOWN_PARTITIONS, skips, sigs) && sigs[0].inputNodes == {}
    ensures forall start :: !RunsToCompletion(UNKNOWING, UNKNOWN_PARTITIONS, sigs, start)
  {
    var s, ps := UNKNOWING, UNKNOWN_PARTITIONS;
    NamesOfOneNode(ps[0][0]);
    assert ReturnedNames(s, ps[0], Unmet(s, ps, 1)) == {};
    assert LayoutOf(s, "x") == Stored && Real(s, "x") == "x";
    sigs := [OutcomeAt(s, ps, skips, 0).value];
    InputsAreNeeds(s, ps[0], "x");
    assert Takes(s, ps, 0, "x") && !KnowsNames(s, ps);
    forall start ensures !RunsToCompletion(s, ps, sigs, start) {
      ForwardSoundness(s, ps, skips, sigs, start);
    }
  }
}
