/**
  Printing a module tree.  Numbered children with the same signature are printed once, under
  the ranges of their indices.  Expanding every group over its indices, at every level, gives
  the meaning of the tree back: its descriptions, its other children in order, and its
  numbered children by index.  A meaning has neither the order of the numbered children nor
  the spelling of their names; "01" and "1" are both printed as 1.

  Reading an index from a child name is Python's int(); it is the parameter `parse`.
 */
module ModuleTree {
  import opened Basics
  import opened ModuleSignature
  import opened IndexRanges

  type Parse = string -> Option<int>

  datatype Numbered = Numbered(index: int, body: Module)

  type Group = g: seq<Numbered> | g != [] witness [Numbered(0, Module("", []))]

  // ----- numbered and other children -----------------------------------------------

  function NumberedOf(children: seq<Child>, parse: Parse): seq<Numbered> {
    if children == [] then []
    else
      var rest := NumberedOf(children[1..], parse);
      match parse(children[0].name)
      case Some(index) => [Numbered(index, children[0].body)] + rest
      case None => rest
  }

  function OthersOf(children: seq<Child>, parse: Parse): seq<Child> {
    if children == [] then []
    else
      var rest := OthersOf(children[1..], parse);
      if parse(children[0].name).None? then [children[0]] + rest else rest
  }

  ghost predicate IsNumberedAt(children: seq<Child>, parse: Parse, x: Numbered, i: nat) {
    i < |children| && parse(children[i].name) == Some(x.index) && children[i].body == x.body
  }

  /** The numbered children at some positions. */
  ghost predicate AreNumberedAt(children: seq<Child>, parse: Parse, xs: seq<Numbered>, at: seq<nat>) {
    && ArePositions(at, |children|) && |at| == |xs|
    && forall k :: 0 <= k < |at| ==> IsNumberedAt(children, parse, xs[k], at[k])
  }

  lemma NumberedLater(children: seq<Child>, parse: Parse, xs: seq<Numbered>, at: seq<nat>)
    requires children != [] && AreNumberedAt(children[1..], parse, xs, at)
    ensures AreNumberedAt(children, parse, xs, OneLater(at))
  {
    OnePositionBefore(at, |children| - 1);
    forall k | 0 <= k < |at| ensures IsNumberedAt(children, parse, xs[k], OneLater(at)[k]) {
      assert IsNumberedAt(children[1..], parse, xs[k], at[k]);
    }
  }

  lemma NumberedFirst(children: seq<Child>, parse: Parse, x: Numbered, xs: seq<Numbered>, at: seq<nat>)
    requires IsNumberedAt(children, parse, x, 0) && AreNumberedAt(children, parse, xs, at)
    requires forall k :: 0 <= k < |at| ==> at[k] > 0
    ensures AreNumberedAt(children, parse, [x] + xs, [0] + at)
  {
    forall k | 0 <= k < |at| + 1 ensures IsNumberedAt(children, parse, ([x] + xs)[k], ([0] + at)[k]) {
      if k > 0 {
        assert IsNumberedAt(children, parse, xs[k - 1], at[k - 1]);
      }
    }
  }

  function HasNumber(parse: Parse): Child -> bool {
    (c: Child) => parse(c.name).Some?
  }

  function HasNoNumber(parse: Parse): Child -> bool {
    (c: Child) => parse(c.name).None?
  }

  /** The numbered children are those whose names are numbers, in order. */
  lemma {:induction false} NumberedComeInOrder(children: seq<Child>, parse: Parse) returns (at: seq<nat>)
    ensures AreNumberedAt(children, parse, NumberedOf(children, parse), at)
    ensures ListsAll(children, HasNumber(parse), at)
  {
    at := [];
    if children != [] {
      var rest := NumberedComeInOrder(children[1..], parse);
      NumberedLater(children, parse, NumberedOf(children[1..], parse), rest);
      ListsOneBefore(children, HasNumber(parse), rest);
      at := OneLater(rest);
      if parse(children[0].name).Some? {
        var x := Numbered(parse(children[0].name).value, children[0].body);
        NumberedFirst(children, parse, x, NumberedOf(children[1..], parse), at);
        at := [0] + at;
      }
    }
  }

  ghost predicate AreOthersAt(children: seq<Child>, parse: Parse, others: seq<Child>, at: seq<nat>) {
    && ArePositions(at, |children|) && |at| == |others|
    && forall k :: 0 <= k < |at| ==> others[k] == children[at[k]] && parse(others[k].name).None?
  }

  lemma OthersLater(children: seq<Child>, parse: Parse, others: seq<Child>, at: seq<nat>)
    requires children != [] && AreOthersAt(children[1..], parse, others, at)
    ensures AreOthersAt(children, parse, others, OneLater(at))
    ensures parse(children[0].name).None? ==> AreOthersAt(children, parse, [children[0]] + others, [0] + OneLater(at))
  {
    OnePositionBefore(at, |children| - 1);
    forall k | 0 <= k < |at| ensures others[k] == children[OneLater(at)[k]] && parse(others[k].name).None? {
      assert children[1..][at[k]] == children[at[k] + 1];
    }
  }

  /** The other children are the rest, in order. */
  lemma {:induction false} OthersComeInOrder(children: seq<Child>, parse: Parse) returns (at: seq<nat>)
    ensures AreOthersAt(children, parse, OthersOf(children, parse), at)
    ensures ListsAll(children, HasNoNumber(parse), at)
  {
    at := [];
    if children != [] {
      var rest := OthersComeInOrder(children[1..], parse);
      OthersLater(children, parse, OthersOf(children[1..], parse), rest);
      ListsOneBefore(children, HasNoNumber(parse), rest);
      at := if parse(children[0].name).None? then [0] + OneLater(rest) else OneLater(rest);
    }
  }

  // ----- groups --------------------------------------------------------------------

  /** The dictionary of groups after one more child, as the list of its values. */
  function AddToGroups(groups: seq<Group>, x: Numbered): (r: seq<Group>)
    ensures |r| > 0
  {
    if groups == [] then [[x]]
    else if Signature(groups[0][0].body) == Signature(x.body) then [groups[0] + [x]] + groups[1..]
    else [groups[0]] + AddToGroups(groups[1..], x)
  }

  function GroupsOf(numbered: seq<Numbered>): seq<Group> {
    if numbered == [] then []
    else AddToGroups(GroupsOf(numbered[..|numbered| - 1]), numbered[|numbered| - 1])
  }

  function InsertGroup(g: Group, groups: seq<Group>): seq<Group> {
    if groups == [] then [g]
    else if g[0].index <= groups[0][0].index then [g] + groups
    else [groups[0]] + InsertGroup(g, groups[1..])
  }

  /** The groups by their first index; groups with the same one keep their order. */
  function SortGroups(groups: seq<Group>): seq<Group> {
    if groups == [] then [] else InsertGroup(groups[0], SortGroups(groups[1..]))
  }

  function PrintedGroups(children: seq<Child>, parse: Parse): seq<Group> {
    SortGroups(GroupsOf(NumberedOf(children, parse)))
  }

  // ----- what the groups hold ------------------------------------------------------

  /** All children in all groups. */
  function Content(groups: seq<Group>): multiset<Numbered> {
    if groups == [] then multiset{} else multiset(groups[0]) + Content(groups[1..])
  }

  lemma {:induction false} AddKeepsContent(groups: seq<Group>, x: Numbered)
    ensures Content(AddToGroups(groups, x)) == Content(groups) + multiset{x}
  {
    if groups != [] && Signature(groups[0][0].body) != Signature(x.body) {
      AddKeepsContent(groups[1..], x);
    }
  }

  lemma {:induction false} GroupsKeepContent(numbered: seq<Numbered>)
    ensures Content(GroupsOf(numbered)) == multiset(numbered)
  {
    if numbered != [] {
      var n := |numbered| - 1;
      GroupsKeepContent(numbered[..n]);
      AddKeepsContent(GroupsOf(numbered[..n]), numbered[n]);
      assert numbered == numbered[..n] + [numbered[n]];
    }
  }

  lemma {:induction false} InsertKeepsContent(g: Group, groups: seq<Group>)
    ensures Content(InsertGroup(g, groups)) == multiset(g) + Content(groups)
  {
    if groups != [] && g[0].index > groups[0][0].index {
      InsertKeepsContent(g, groups[1..]);
    }
  }

  lemma {:induction false} SortKeepsContent(groups: seq<Group>)
    ensures Content(SortGroups(groups)) == Content(groups)
  {
    if groups != [] {
      SortKeepsContent(groups[1..]);
      InsertKeepsContent(groups[0], SortGroups(groups[1..]));
    }
  }

  /** No numbered child is lost or repeated. */
  lemma PrintedGroupsKeepChildren(children: seq<Child>, parse: Parse)
    ensures Content(PrintedGroups(children, parse)) == multiset(NumberedOf(children, parse))
  {
    GroupsKeepContent(NumberedOf(children, parse));
    SortKeepsContent(GroupsOf(NumberedOf(children, parse)));
  }

  lemma {:induction false} InContent(groups: seq<Group>, k: nat, x: Numbered)
    requires k < |groups| && x in groups[k]
    ensures x in Content(groups)
  {
    if k > 0 {
      InContent(groups[1..], k - 1, x);
    }
  }

  lemma {:induction false} NumberedIsChild(children: seq<Child>, parse: Parse, x: Numbered)
    requires x in NumberedOf(children, parse)
    ensures exists i :: 0 <= i < |children| && children[i].body == x.body && parse(children[i].name) == Some(x.index)
  {
    if parse(children[0].name).Some? && x == Numbered(parse(children[0].name).value, children[0].body) {
      assert children[0].body == x.body;
    } else {
      NumberedIsChild(children[1..], parse, x);
      var i :| 0 <= i < |children[1..]| && children[1..][i].body == x.body && parse(children[1..][i].name) == Some(x.index);
      assert children[i + 1] == children[1..][i];
    }
  }

  /** The first child of every printed group is a child. */
  lemma PrintedIsChild(children: seq<Child>, parse: Parse, k: nat) returns (i: nat)
    requires k < |PrintedGroups(children, parse)|
    ensures i < |children| && children[i].body == PrintedGroups(children, parse)[k][0].body
  {
    var groups := PrintedGroups(children, parse);
    InContent(groups, k, groups[k][0]);
    PrintedGroupsKeepChildren(children, parse);
    assert groups[k][0] in multiset(NumberedOf(children, parse));
    NumberedIsChild(children, parse, groups[k][0]);
    i :| 0 <= i < |children| && children[i].body == groups[k][0].body;
  }

  // ----- the children in a group are the same tree ---------------------------------

  /** Every child in a group has the signature of the first. */
  predicate IsUniform(g: Group) {
    forall i :: 0 <= i < |g| ==> Signature(g[i].body) == Signature(g[0].body)
  }

  predicate AllUniform(groups: seq<Group>) {
    forall k :: 0 <= k < |groups| ==> IsUniform(groups[k])
  }

  lemma {:induction false} AddKeepsUniform(groups: seq<Group>, x: Numbered)
    requires AllUniform(groups)
    ensures AllUniform(AddToGroups(groups, x))
  {
    if groups != [] && Signature(groups[0][0].body) != Signature(x.body) {
      AddKeepsUniform(groups[1..], x);
    }
  }

  lemma {:induction false} GroupsAreUniform(numbered: seq<Numbered>)
    ensures AllUniform(GroupsOf(numbered))
  {
    if numbered != [] {
      GroupsAreUniform(numbered[..|numbered| - 1]);
      AddKeepsUniform(GroupsOf(numbered[..|numbered| - 1]), numbered[|numbered| - 1]);
    }
  }

  lemma {:induction false} InsertKeepsUniform(g: Group, groups: seq<Group>)
    requires IsUniform(g) && AllUniform(groups)
    ensures AllUniform(InsertGroup(g, groups))
  {
    if groups != [] && g[0].index > groups[0][0].index {
      InsertKeepsUniform(g, groups[1..]);
    }
  }

  lemma {:induction false} SortKeepsUniform(groups: seq<Group>)
    requires AllUniform(groups)
    ensures AllUniform(SortGroups(groups))
  {
    if groups != [] {
      SortKeepsUniform(groups[1..]);
      InsertKeepsUniform(groups[0], SortGroups(groups[1..]));
    }
  }

  lemma {:induction false} ChildIsWellNamed(children: seq<Child>, i: nat)
    requires AllWellNamed(children) && i < |children|
    ensures WellNamed(children[i].body)
  {
    if i > 0 {
      ChildIsWellNamed(children[1..], i - 1);
    }
  }

  /** All children in a printed group are the same tree. */
  lemma GroupIsOneTree(children: seq<Child>, parse: Parse, k: nat, j: nat)
    requires AllWellNamed(children)
    requires k < |PrintedGroups(children, parse)| && j < |PrintedGroups(children, parse)[k]|
    ensures PrintedGroups(children, parse)[k][j].body == PrintedGroups(children, parse)[k][0].body
  {
    var groups := PrintedGroups(children, parse);
    GroupsAreUniform(NumberedOf(children, parse));
    SortKeepsUniform(GroupsOf(NumberedOf(children, parse)));
    assert IsUniform(groups[k]);
    MemberIsWellNamed(children, parse, k, j);
    MemberIsWellNamed(children, parse, k, 0);
    SameSignatureSameTree(groups[k][j].body, groups[k][0].body);
  }

  lemma MemberIsWellNamed(children: seq<Child>, parse: Parse, k: nat, j: nat)
    requires AllWellNamed(children)
    requires k < |PrintedGroups(children, parse)| && j < |PrintedGroups(children, parse)[k]|
    ensures WellNamed(PrintedGroups(children, parse)[k][j].body)
  {
    var groups := PrintedGroups(children, parse);
    var x := groups[k][j];
    InContent(groups, k, x);
    PrintedGroupsKeepChildren(children, parse);
    assert x in multiset(NumberedOf(children, parse));
    NumberedIsChild(children, parse, x);
    var i :| 0 <= i < |children| && children[i].body == x.body;
    ChildIsWellNamed(children, i);
  }

  // ----- equal children are in one group -------------------------------------------

  function Heads(groups: seq<Group>): set<string> {
    if groups == [] then {} else {Signature(groups[0][0].body)} + Heads(groups[1..])
  }

  /** No two groups have the same signature. */
  predicate AllApart(groups: seq<Group>) {
    groups == [] || (Signature(groups[0][0].body) !in Heads(groups[1..]) && AllApart(groups[1..]))
  }

  lemma {:induction false} AddKeepsApart(groups: seq<Group>, x: Numbered)
    requires AllApart(groups)
    ensures AllApart(AddToGroups(groups, x))
    ensures Heads(AddToGroups(groups, x)) == Heads(groups) + {Signature(x.body)}
  {
    if groups == [] {
      assert AddToGroups(groups, x)[1..] == [];
    } else {
      var r := AddToGroups(groups, x);
      if Signature(groups[0][0].body) == Signature(x.body) {
        assert r[1..] == groups[1..];
      } else {
        AddKeepsApart(groups[1..], x);
        assert r[1..] == AddToGroups(groups[1..], x);
      }
    }
  }

  lemma {:induction false} GroupsAreApart(numbered: seq<Numbered>)
    ensures AllApart(GroupsOf(numbered))
  {
    if numbered != [] {
      GroupsAreApart(numbered[..|numbered| - 1]);
      AddKeepsApart(GroupsOf(numbered[..|numbered| - 1]), numbered[|numbered| - 1]);
    }
  }

  lemma {:induction false} InsertKeepsApart(g: Group, groups: seq<Group>)
    requires AllApart(groups) && Signature(g[0].body) !in Heads(groups)
    ensures AllApart(InsertGroup(g, groups))
    ensures Heads(InsertGroup(g, groups)) == Heads(groups) + {Signature(g[0].body)}
  {
    var r := InsertGroup(g, groups);
    if groups == [] {
      assert r[1..] == [];
    } else if g[0].index <= groups[0][0].index {
      assert r[1..] == groups;
    } else {
      InsertKeepsApart(g, groups[1..]);
      assert r[1..] == InsertGroup(g, groups[1..]);
    }
  }

  lemma {:induction false} SortKeepsApart(groups: seq<Group>)
    requires AllApart(groups)
    ensures AllApart(SortGroups(groups)) && Heads(SortGroups(groups)) == Heads(groups)
  {
    if groups != [] {
      SortKeepsApart(groups[1..]);
      InsertKeepsApart(groups[0], SortGroups(groups[1..]));
    }
  }

  /** The printed groups have different signatures, so equal children are never apart. */
  lemma PrintedGroupsAreApart(children: seq<Child>, parse: Parse)
    ensures AllApart(PrintedGroups(children, parse))
  {
    GroupsAreApart(NumberedOf(children, parse));
    SortKeepsApart(GroupsOf(NumberedOf(children, parse)));
  }

  // ----- the order of the groups ---------------------------------------------------

  /** The group begins with child i, the first one with its signature. */
  ghost predicate BeginsAt(numbered: seq<Numbered>, g: Group, i: nat) {
    && i < |numbered| && numbered[i] == g[0]
    && forall h :: 0 <= h < i ==> Signature(numbered[h].body) != Signature(g[0].body)
  }

  /** By the first index, and where that is the same by the position. */
  predicate ComesBefore(g: Group, i: nat, g': Group, i': nat) {
    g[0].index < g'[0].index || (g[0].index == g'[0].index && i < i')
  }

  lemma {:induction false} SignaturesAreHeads(numbered: seq<Numbered>, h: nat)
    requires h < |numbered|
    ensures Signature(numbered[h].body) in Heads(GroupsOf(numbered))
  {
    var n := |numbered| - 1;
    GroupsAreApart(numbered[..n]);
    AddKeepsApart(GroupsOf(numbered[..n]), numbered[n]);
    if h < n {
      SignaturesAreHeads(numbered[..n], h);
    }
  }

  lemma {:induction false} HeadIsIn(groups: seq<Group>, s: string)
    ensures s in Heads(groups) <==> exists k :: 0 <= k < |groups| && Signature(groups[k][0].body) == s
  {
    if groups != [] {
      HeadIsIn(groups[1..], s);
      if s in Heads(groups[1..]) {
        var k :| 0 <= k < |groups[1..]| && Signature(groups[1..][k][0].body) == s;
        assert groups[k + 1] == groups[1..][k];
      }
      if k :| 0 < k < |groups| && Signature(groups[k][0].body) == s {
        assert groups[1..][k - 1] == groups[k];
      }
    }
  }

  /** Where the groups begin, in order. */
  ghost predicate AreBeginnings(numbered: seq<Numbered>, groups: seq<Group>, at: seq<nat>) {
    && |at| == |groups|
    && (forall k :: 0 <= k < |at| ==> BeginsAt(numbered, groups[k], at[k]))
    && (forall i, j :: 0 <= i < j < |at| ==> at[i] < at[j])
  }

  /** The groups are in the order in which their first children come. */
  lemma {:induction false} GroupsComeInOrder(numbered: seq<Numbered>) returns (at: seq<nat>)
    ensures AreBeginnings(numbered, GroupsOf(numbered), at)
  {
    at := [];
    if numbered != [] {
      var n := |numbered| - 1;
      var before, x := GroupsOf(numbered[..n]), numbered[n];
      at := GroupsComeInOrder(numbered[..n]);
      StillBegins(numbered, n, before, at);
      if k: nat :| k < |before| && IsFirstWith(before, x, k) {
        JoinsGroup(numbered, before, at, x, k);
      } else {
        NoneBefore(numbered, n);
        StartsGroup(numbered, before, at, n);
        at := at + [n];
      }
    }
  }

  lemma {:induction false} JoinsGroup(numbered: seq<Numbered>, groups: seq<Group>, at: seq<nat>, x: Numbered, k: nat)
    requires AreBeginnings(numbered, groups, at) && k < |groups| && IsFirstWith(groups, x, k)
    ensures AreBeginnings(numbered, AddToGroups(groups, x), at)
  {
    AddAtHead(groups, x, k);
    forall i | 0 <= i < |at| ensures BeginsAt(numbered, AddToGroups(groups, x)[i], at[i]) {
      assert BeginsAt(numbered, groups[i], at[i]);
    }
  }

  /** A child with a new signature has none with it before. */
  lemma NoneBefore(numbered: seq<Numbered>, n: nat)
    requires n < |numbered|
    requires forall k: nat :: k < |GroupsOf(numbered[..n])| ==> !IsFirstWith(GroupsOf(numbered[..n]), numbered[n], k)
    ensures forall h :: 0 <= h < n ==> Signature(numbered[h].body) != Signature(numbered[n].body)
    ensures forall k :: 0 <= k < |GroupsOf(numbered[..n])| ==>
              Signature(GroupsOf(numbered[..n])[k][0].body) != Signature(numbered[n].body)
  {
    var groups, s := GroupsOf(numbered[..n]), Signature(numbered[n].body);
    NoneWith(groups, numbered[n]);
    HeadIsIn(groups, s);
    forall h | 0 <= h < n ensures Signature(numbered[h].body) != s {
      SignaturesAreHeads(numbered[..n], h);
      assert numbered[..n][h] == numbered[h];
    }
  }

  lemma {:induction false} StartsGroup(numbered: seq<Numbered>, groups: seq<Group>, at: seq<nat>, n: nat)
    requires AreBeginnings(numbered, groups, at) && n < |numbered| && forall k :: 0 <= k < |at| ==> at[k] < n
    requires forall h :: 0 <= h < n ==> Signature(numbered[h].body) != Signature(numbered[n].body)
    requires forall k :: 0 <= k < |groups| ==> Signature(groups[k][0].body) != Signature(numbered[n].body)
    ensures AreBeginnings(numbered, AddToGroups(groups, numbered[n]), at + [n])
  {
    var g: Group := [numbered[n]];
    assert BeginsAt(numbered, g, n);
    OneBeginningMore(numbered, groups, at, g, n);
    AddAtEnd(groups, numbered[n]);
  }

  lemma {:induction false} OneBeginningMore(numbered: seq<Numbered>, groups: seq<Group>, at: seq<nat>, g: Group, n: nat)
    requires AreBeginnings(numbered, groups, at) && BeginsAt(numbered, g, n) && forall k :: 0 <= k < |at| ==> at[k] < n
    ensures AreBeginnings(numbered, groups + [g], at + [n])
  {
    var groups', at' := groups + [g], at + [n];
    forall k | 0 <= k < |at'| ensures BeginsAt(numbered, groups'[k], at'[k]) {
      if k < |at| {
        assert BeginsAt(numbered, groups[k], at[k]);
      }
    }
  }

  ghost predicate IsFirstWith(groups: seq<Group>, x: Numbered, k: nat)
    requires k < |groups|
  {
    && Signature(groups[k][0].body) == Signature(x.body)
    && forall j :: 0 <= j < k ==> Signature(groups[j][0].body) != Signature(x.body)
  }

  lemma NoneWith(groups: seq<Group>, x: Numbered)
    requires forall k: nat :: k < |groups| ==> !IsFirstWith(groups, x, k)
    ensures forall j :: 0 <= j < |groups| ==> Signature(groups[j][0].body) != Signature(x.body)
  {
    for j := 0 to |groups|
      invariant forall i :: 0 <= i < j ==> Signature(groups[i][0].body) != Signature(x.body)
    {
      assert !IsFirstWith(groups, x, j);
    }
  }

  /** One more child does not change where the groups begin. */
  lemma StillBegins(numbered: seq<Numbered>, n: nat, groups: seq<Group>, at: seq<nat>)
    requires n <= |numbered| && AreBeginnings(numbered[..n], groups, at)
    ensures AreBeginnings(numbered, groups, at) && forall k :: 0 <= k < |at| ==> at[k] < n
  {
    forall k | 0 <= k < |groups| ensures BeginsAt(numbered, groups[k], at[k]) && at[k] < n {
      assert BeginsAt(numbered[..n], groups[k], at[k]);
      assert forall h :: 0 <= h <= at[k] ==> numbered[..n][h] == numbered[h];
    }
  }

  lemma {:induction false} InsertAt(g: Group, groups: seq<Group>) returns (p: nat)
    ensures p <= |groups| && InsertGroup(g, groups) == groups[..p] + [g] + groups[p..]
    ensures forall k :: 0 <= k < p ==> groups[k][0].index < g[0].index
    ensures p < |groups| ==> g[0].index <= groups[p][0].index
  {
    if groups == [] || g[0].index <= groups[0][0].index {
      p := 0;
      assert groups[..0] + [g] + groups[0..] == [g] + groups;
    } else {
      var q := InsertAt(g, groups[1..]);
      p := q + 1;
      assert groups[..p] == [groups[0]] + groups[1..][..q] && groups[p..] == groups[1..][q..];
      assert groups[..p] + [g] + groups[p..] == [groups[0]] + (groups[1..][..q] + [g] + groups[1..][q..]);
      forall k | 0 <= k < p ensures groups[k][0].index < g[0].index {
        assert k > 0 ==> groups[k] == groups[1..][k - 1];
      }
    }
  }

  /** Sorted by the first index, and stable. */
  ghost predicate IsStableSort(groups: seq<Group>, sorted: seq<Group>, at: seq<nat>) {
    && |at| == |sorted| == |groups|
    && (forall k :: 0 <= k < |at| ==> at[k] < |groups| && sorted[k] == groups[at[k]])
    && (forall i, j :: 0 <= i < j < |at| ==> ComesBefore(sorted[i], at[i], sorted[j], at[j]))
  }

  lemma {:induction false} SortIsStable(groups: seq<Group>) returns (at: seq<nat>)
    ensures IsStableSort(groups, SortGroups(groups), at)
  {
    at := [];
    if groups != [] {
      var rest := SortGroups(groups[1..]);
      var at' := SortIsStable(groups[1..]);
      var p := InsertAt(groups[0], rest);
      var later := seq(|at'|, k requires 0 <= k < |at'| => at'[k] + 1);
      at := later[..p] + [0] + later[p..];
      InsertIsStable(groups, rest, at', p, later);
    }
  }

  lemma InsertIsStable(groups: seq<Group>, rest: seq<Group>, at': seq<nat>, p: nat, later: seq<nat>)
    requires groups != [] && IsStableSort(groups[1..], rest, at') && p <= |rest|
    requires forall k :: 0 <= k < p ==> rest[k][0].index < groups[0][0].index
    requires p < |rest| ==> groups[0][0].index <= rest[p][0].index
    requires |later| == |at'| && forall k :: 0 <= k < |at'| ==> later[k] == at'[k] + 1
    ensures IsStableSort(groups, rest[..p] + [groups[0]] + rest[p..], later[..p] + [0] + later[p..])
  {
    var sorted, at := rest[..p] + [groups[0]] + rest[p..], later[..p] + [0] + later[p..];
    forall k | 0 <= k < |at|
      ensures at[k] < |groups| && sorted[k] == groups[at[k]]
      ensures k < p ==> sorted[k] == rest[k] && at[k] == at'[k] + 1
      ensures k > p ==> sorted[k] == rest[k - 1] && at[k] == at'[k - 1] + 1
    {
      assert forall i :: 0 <= i < |at'| ==> groups[at'[i] + 1] == groups[1..][at'[i]] == rest[i];
    }
    forall i, j | 0 <= i < j < |at| ensures ComesBefore(sorted[i], at[i], sorted[j], at[j]) {
      if i == p {
        assert j - 1 == p || ComesBefore(rest[p], at'[p], rest[j - 1], at'[j - 1]);
      } else if j != p {
        var i', j' := if i < p then i else i - 1, if j < p then j else j - 1;
        assert ComesBefore(rest[i'], at'[i'], rest[j'], at'[j']);
      }
    }
  }

  /** The printed groups are sorted by their first index; groups with the same one come in the
      order of their first children. */
  lemma PrintedGroupsAreSorted(children: seq<Child>, parse: Parse) returns (at: seq<nat>)
    ensures
      var numbered, groups := NumberedOf(children, parse), PrintedGroups(children, parse);
      && |at| == |groups|
      && (forall k :: 0 <= k < |at| ==> BeginsAt(numbered, groups[k], at[k]))
      && (forall i, j :: 0 <= i < j < |at| ==> ComesBefore(groups[i], at[i], groups[j], at[j]))
  {
    var numbered := NumberedOf(children, parse);
    var first := GroupsComeInOrder(numbered);
    var from := SortIsStable(GroupsOf(numbered));
    at := seq(|from|, k requires 0 <= k < |from| => first[from[k]]);
    var groups := PrintedGroups(children, parse);
    forall k | 0 <= k < |at| ensures BeginsAt(numbered, groups[k], at[k]) {
      assert groups[k] == GroupsOf(numbered)[from[k]];
    }
    forall i, j | 0 <= i < j < |at| ensures ComesBefore(groups[i], at[i], groups[j], at[j]) {
      assert ComesBefore(groups[i], from[i], groups[j], from[j]);
    }
  }

  // ----- the dictionary of groups --------------------------------------------------

  /** The dictionary, in the order of its keys, holds these groups. */
  ghost predicate Holds(dict: map<string, Group>, keys: seq<string>, groups: seq<Group>) {
    && |keys| == |groups|
    && (forall k :: 0 <= k < |keys| ==>
          keys[k] in dict && dict[keys[k]] == groups[k] && keys[k] == Signature(groups[k][0].body))
    && (forall i, j :: 0 <= i < j < |keys| ==> keys[i] != keys[j])
    && (forall s :: s in dict ==> s in keys)
  }

  lemma {:induction false} AddAtHead(groups: seq<Group>, x: Numbered, k: nat)
    requires k < |groups| && Signature(groups[k][0].body) == Signature(x.body)
    requires forall j :: 0 <= j < k ==> Signature(groups[j][0].body) != Signature(x.body)
    ensures AddToGroups(groups, x) == groups[k := groups[k] + [x]]
  {
    if k > 0 {
      AddAtHead(groups[1..], x, k - 1);
      assert groups == [groups[0]] + groups[1..];
    }
  }

  lemma {:induction false} AddAtEnd(groups: seq<Group>, x: Numbered)
    requires forall j :: 0 <= j < |groups| ==> Signature(groups[j][0].body) != Signature(x.body)
    ensures AddToGroups(groups, x) == groups + [[x]]
  {
    if groups != [] {
      AddAtEnd(groups[1..], x);
      assert groups == [groups[0]] + groups[1..];
    }
  }

  /** One child into the dictionary: setdefault and append. */
  method AddToDictionary(dict: map<string, Group>, keys: seq<string>, x: Numbered, ghost groups: seq<Group>)
    returns (dict': map<string, Group>, keys': seq<string>)
    requires Holds(dict, keys, groups)
    ensures Holds(dict', keys', AddToGroups(groups, x))
  {
    var sig := Signature(x.body);
    if sig in dict {
      ghost var k :| 0 <= k < |keys| && keys[k] == sig;
      AddAtHead(groups, x, k);
      HoldsLonger(dict, keys, groups, k, dict[sig] + [x]);
      dict', keys' := dict[sig := dict[sig] + [x]], keys;
    } else {
      AddAtEnd(groups, x);
      HoldsOneMore(dict, keys, groups, sig, [x]);
      dict', keys' := dict[sig := [x]], keys + [sig];
    }
  }

  lemma HoldsLonger(dict: map<string, Group>, keys: seq<string>, groups: seq<Group>, k: nat, g: Group)
    requires Holds(dict, keys, groups) && k < |keys| && Signature(g[0].body) == keys[k]
    ensures Holds(dict[keys[k] := g], keys, groups[k := g])
  {
  }

  lemma HoldsOneMore(dict: map<string, Group>, keys: seq<string>, groups: seq<Group>, key: string, g: Group)
    requires Holds(dict, keys, groups) && key !in dict && Signature(g[0].body) == key
    ensures Holds(dict[key := g], keys + [key], groups + [g])
  {
  }

  method GroupNumbered(numbered: seq<Numbered>) returns (groups: seq<Group>)
    ensures groups == GroupsOf(numbered)
  {
    var dict: map<string, Group>, keys: seq<string> := map[], [];
    for i := 0 to |numbered|
      invariant Holds(dict, keys, GroupsOf(numbered[..i]))
    {
      assert numbered[..i + 1][..i] == numbered[..i];
      dict, keys := AddToDictionary(dict, keys, numbered[i], GroupsOf(numbered[..i]));
    }
    assert numbered[..|numbered|] == numbered;
    groups := seq(|keys|, k requires 0 <= k < |keys| && keys[k] in dict => dict[keys[k]]);
  }
}
