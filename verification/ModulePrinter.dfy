/**
  The text of a module tree, and what it means.  The text is that of a document in which
  every group of numbered children stands for each of its indices.
 */
module ModulePrinter {
  import opened Basics
  import opened ModuleSignature
  import opened IndexRanges
  import opened ModuleTree

  // ----- the printer ---------------------------------------------------------------

  function Indent(n: nat): string {
    if n == 0 then "" else "  " + Indent(n - 1)
  }

  predicate IsSpace(c: char) {
    c == ' ' || c == '\t' || c == '\n' || c == '\r' || c == '\U{0B}' || c == '\U{0C}'
  }

  /** str.lstrip */
  function StripLeft(s: string): string {
    if s != [] && IsSpace(s[0]) then StripLeft(s[1..]) else s
  }

  /** The beginning of the first line of a module. */
  function Head(name: string, info: string, indent: nat): string {
    if name != "" then Indent(indent) + "(" + name + "): " + info else Indent(indent) + info
  }

  /** What stands before the first line of a group. */
  function Label(indices: seq<int>): string
    requires indices != []
  {
    if |indices| > 1 then "(" + RangesText(indices) + "): " + ShowNat(|indices|) + " x "
    else "(" + ShowInt(indices[0]) + "): "
  }

  /** The lines of a child with its first line labelled. */
  function Labelled(lines: seq<string>, tag: string, indent: nat): seq<string>
    requires lines != []
  {
    [Indent(indent) + tag + StripLeft(lines[0])] + lines[1..]
  }

  function IndicesOf(g: seq<Numbered>): (r: seq<int>)
    ensures |r| == |g| && forall i :: 0 <= i < |g| ==> r[i] == g[i].index
  {
    seq(|g|, i requires 0 <= i < |g| => g[i].index)
  }

  lemma GroupsAreBelow(m: Module, parse: Parse)
    ensures forall k :: 0 <= k < |PrintedGroups(m.children, parse)| ==> PrintedGroups(m.children, parse)[k][0].body < m
  {
    forall k | 0 <= k < |PrintedGroups(m.children, parse)|
      ensures PrintedGroups(m.children, parse)[k][0].body < m
    {
      var i := PrintedIsChild(m.children, parse, k);
      assert m.children[i].body < m;
    }
  }

  lemma {:induction false} OtherIsChild(children: seq<Child>, parse: Parse, k: nat) returns (i: nat)
    requires k < |OthersOf(children, parse)|
    ensures i < |children| && children[i] == OthersOf(children, parse)[k]
  {
    if parse(children[0].name).None? {
      if k == 0 {
        i := 0;
      } else {
        i := OtherIsChild(children[1..], parse, k - 1);
        i := i + 1;
      }
    } else {
      i := OtherIsChild(children[1..], parse, k);
      i := i + 1;
    }
  }

  lemma OthersAreBelow(m: Module, parse: Parse)
    ensures forall k :: 0 <= k < |OthersOf(m.children, parse)| ==> OthersOf(m.children, parse)[k].body < m
  {
    forall k | 0 <= k < |OthersOf(m.children, parse)| ensures OthersOf(m.children, parse)[k].body < m {
      var i := OtherIsChild(m.children, parse, k);
      assert m.children[i].body < m;
    }
  }

  /** _format_module_tree */
  function Format(m: Module, name: string, indent: nat, parse: Parse): (lines: seq<string>)
    ensures lines != []
    decreases m, 2
  {
    if m.children == [] then [Head(name, m.info, indent)]
    else
      GroupsAreBelow(m, parse);
      OthersAreBelow(m, parse);
      [Head(name, m.info, indent) + "("]
      + FormatGroups(m, PrintedGroups(m.children, parse), indent, parse)
      + FormatOthers(m, OthersOf(m.children, parse), indent, parse)
      + [Indent(indent) + ")"]
  }

  function FormatGroups(m: Module, groups: seq<Group>, indent: nat, parse: Parse): seq<string>
    requires forall k :: 0 <= k < |groups| ==> groups[k][0].body < m
    decreases m, 1, |groups|
  {
    if groups == [] then []
    else
      Labelled(Format(groups[0][0].body, "", indent + 1, parse), Label(IndicesOf(groups[0])), indent + 1)
      + FormatGroups(m, groups[1..], indent, parse)
  }

  function FormatOthers(m: Module, others: seq<Child>, indent: nat, parse: Parse): seq<string>
    requires forall k :: 0 <= k < |others| ==> others[k].body < m
    decreases m, 1, |others|
  {
    if others == [] then []
    else
      Format(others[0].body, others[0].name, indent + 1, parse) + FormatOthers(m, others[1..], indent, parse)
  }

  /** The lines that a numbered child has when it is printed by itself. */
  function ChildBlock(x: Numbered, indent: nat, parse: Parse): seq<string> {
    Labelled(Format(x.body, "", indent + 1, parse), Label([x.index]), indent + 1)
  }

  /** The lines that a group has, with one index for its label. */
  function GroupBlock(g: Group, index: int, indent: nat, parse: Parse): seq<string> {
    Labelled(Format(g[0].body, "", indent + 1, parse), Label([index]), indent + 1)
  }

  /** Expanding a printed group over its indices gives every child the lines it has by
      itself, and the printed ranges are the indices of the group. */
  lemma GroupExpandsToBlocks(children: seq<Child>, parse: Parse, k: nat, j: nat, indent: nat)
    requires AllWellNamed(children)
    requires k < |PrintedGroups(children, parse)| && j < |PrintedGroups(children, parse)[k]|
    ensures
      var g := PrintedGroups(children, parse)[k];
      && ChildBlock(g[j], indent, parse) == GroupBlock(g, g[j].index, indent, parse)
      && ParseRanges(RangesText(IndicesOf(g))) == Some(Sorted(IndicesOf(g)))
  {
    GroupIsOneTree(children, parse, k, j);
    RangesTextRoundTrip(IndicesOf(PrintedGroups(children, parse)[k]));
  }

  // ----- the document --------------------------------------------------------------

  datatype Doc = Leaf(info: string) | Node(info: string, groups: seq<GroupDoc>, others: seq<NamedDoc>)

  /** One printed block that stands for every one of the indices. */
  datatype GroupDoc = GroupDoc(indices: seq<int>, doc: Doc)

  datatype NamedDoc = NamedDoc(name: string, doc: Doc)

  function DocOf(m: Module, parse: Parse): Doc
    decreases m, 2
  {
    if m.children == [] then Leaf(m.info)
    else
      GroupsAreBelow(m, parse);
      OthersAreBelow(m, parse);
      Node(
        m.info,
        DocsOfGroups(m, PrintedGroups(m.children, parse), parse),
        DocsOfOthers(m, OthersOf(m.children, parse), parse))
  }

  function DocsOfGroups(m: Module, groups: seq<Group>, parse: Parse): seq<GroupDoc>
    requires forall k :: 0 <= k < |groups| ==> groups[k][0].body < m
    decreases m, 1, |groups|
  {
    if groups == [] then []
    else [GroupDoc(IndicesOf(groups[0]), DocOf(groups[0][0].body, parse))] + DocsOfGroups(m, groups[1..], parse)
  }

  function DocsOfOthers(m: Module, others: seq<Child>, parse: Parse): seq<NamedDoc>
    requires forall k :: 0 <= k < |others| ==> others[k].body < m
    decreases m, 1, |others|
  {
    if others == [] then []
    else [NamedDoc(others[0].name, DocOf(others[0].body, parse))] + DocsOfOthers(m, others[1..], parse)
  }

  /** The groups of the document are the printed groups, in their order. */
  lemma {:induction false} GroupDocAt(m: Module, groups: seq<Group>, parse: Parse, k: nat)
    requires (forall k :: 0 <= k < |groups| ==> groups[k][0].body < m) && k < |groups|
    ensures |DocsOfGroups(m, groups, parse)| == |groups|
    ensures DocsOfGroups(m, groups, parse)[k] == GroupDoc(IndicesOf(groups[k]), DocOf(groups[k][0].body, parse))
    decreases |groups|
  {
    if |groups| > 1 {
      GroupDocAt(m, groups[1..], parse, if k > 0 then k - 1 else 0);
    }
  }

  /** The groups of the document come by their first index, and groups with the same one in the
      order of their first children. */
  lemma DocGroupsAreSorted(m: Module, parse: Parse) returns (at: seq<nat>)
    requires m.children != []
    ensures
      var numbered, doc := NumberedOf(m.children, parse), DocOf(m, parse);
      && |at| == |doc.groups|
      && (forall k :: 0 <= k < |at| ==>
            && at[k] < |numbered| && doc.groups[k].indices != [] && doc.groups[k].indices[0] == numbered[at[k]].index
            && doc.groups[k].doc == DocOf(numbered[at[k]].body, parse))
      && (forall i, j :: 0 <= i < j < |at| ==>
            var a, b := numbered[at[i]].index, numbered[at[j]].index;
            a < b || (a == b && at[i] < at[j]))
  {
    var groups, doc := PrintedGroups(m.children, parse), DocOf(m, parse);
    at := PrintedGroupsAreSorted(m.children, parse);
    GroupsAreBelow(m, parse);
    if groups != [] {
      GroupDocAt(m, groups, parse, 0);
    }
    forall k | 0 <= k < |at| ensures doc.groups[k] == GroupDoc(IndicesOf(groups[k]), DocOf(groups[k][0].body, parse)) {
      GroupDocAt(m, groups, parse, k);
    }
    forall i, j | 0 <= i < j < |at|
      ensures
        var a, b := groups[i][0].index, groups[j][0].index;
        a < b || (a == b && at[i] < at[j])
    {
      assert ComesBefore(groups[i], at[i], groups[j], at[j]);
    }
    assert forall k :: 0 <= k < |at| ==> BeginsAt(NumberedOf(m.children, parse), groups[k], at[k]);
  }

  function Render(doc: Doc, name: string, indent: nat): (lines: seq<string>)
    ensures lines != []
    decreases doc, 1
  {
    match doc
    case Leaf(info) => [Head(name, info, indent)]
    case Node(info, groups, others) =>
      [Head(name, info, indent) + "("]
      + RenderGroups(groups, indent) + RenderOthers(others, indent)
      + [Indent(indent) + ")"]
  }

  function RenderGroups(groups: seq<GroupDoc>, indent: nat): seq<string>
    decreases groups, 0
  {
    if groups == [] then []
    else
      Labelled(
        Render(groups[0].doc, "", indent + 1),
        if groups[0].indices == [] then "" else Label(groups[0].indices), indent + 1)
      + RenderGroups(groups[1..], indent)
  }

  function RenderOthers(others: seq<NamedDoc>, indent: nat): seq<string>
    decreases others, 0
  {
    if others == [] then []
    else Render(others[0].doc, others[0].name, indent + 1) + RenderOthers(others[1..], indent)
  }

  /** The printed lines are the text of the document. */
  lemma {:induction false} FormatRendersDoc(m: Module, name: string, indent: nat, parse: Parse)
    ensures Format(m, name, indent, parse) == Render(DocOf(m, parse), name, indent)
    decreases m, 2
  {
    if m.children != [] {
      GroupsAreBelow(m, parse);
      OthersAreBelow(m, parse);
      GroupsRender(m, PrintedGroups(m.children, parse), indent, parse);
      OthersRender(m, OthersOf(m.children, parse), indent, parse);
    }
  }

  lemma {:induction false} GroupsRender(m: Module, groups: seq<Group>, indent: nat, parse: Parse)
    requires forall k :: 0 <= k < |groups| ==> groups[k][0].body < m
    ensures FormatGroups(m, groups, indent, parse) == RenderGroups(DocsOfGroups(m, groups, parse), indent)
    decreases m, 1, |groups|
  {
    if groups != [] {
      FormatRendersDoc(groups[0][0].body, "", indent + 1, parse);
      GroupsRender(m, groups[1..], indent, parse);
    }
  }

  lemma {:induction false} OthersRender(m: Module, others: seq<Child>, indent: nat, parse: Parse)
    requires forall k :: 0 <= k < |others| ==> others[k].body < m
    ensures FormatOthers(m, others, indent, parse) == RenderOthers(DocsOfOthers(m, others, parse), indent)
    decreases m, 1, |others|
  {
    if others != [] {
      FormatRendersDoc(others[0].body, others[0].name, indent + 1, parse);
      OthersRender(m, others[1..], indent, parse);
    }
  }

  // ----- meanings ------------------------------------------------------------------

  /** A tree in which numbered children have no order. */
  datatype Meaning = Meaning(info: string, numbered: multiset<Indexed>, others: seq<Named>)

  datatype Indexed = Indexed(index: int, meaning: Meaning)

  datatype Named = Named(name: string, meaning: Meaning)

  function MeaningOf(m: Module, parse: Parse): Meaning
    decreases m, 1
  {
    Meaning(m.info, NumberedMeanings(m.children, parse), OtherMeanings(m.children, parse))
  }

  function NumberedMeanings(children: seq<Child>, parse: Parse): multiset<Indexed>
    decreases children, 0
  {
    if children == [] then multiset{}
    else
      var rest := NumberedMeanings(children[1..], parse);
      match parse(children[0].name)
      case Some(index) => multiset{Indexed(index, MeaningOf(children[0].body, parse))} + rest
      case None => rest
  }

  function OtherMeanings(children: seq<Child>, parse: Parse): seq<Named>
    decreases children, 0
  {
    if children == [] then []
    else
      var rest := OtherMeanings(children[1..], parse);
      if parse(children[0].name).None? then [Named(children[0].name, MeaningOf(children[0].body, parse))] + rest else rest
  }

  /** A block means its document once for every index. */
  function Repeated(indices: seq<int>, meaning: Meaning): multiset<Indexed> {
    if indices == [] then multiset{} else multiset{Indexed(indices[0], meaning)} + Repeated(indices[1..], meaning)
  }

  function MeaningOfDoc(doc: Doc): Meaning
    decreases doc, 1
  {
    match doc
    case Leaf(info) => Meaning(info, multiset{}, [])
    case Node(info, groups, others) => Meaning(info, MeaningOfGroups(groups), MeaningOfOthers(others))
  }

  function MeaningOfGroups(groups: seq<GroupDoc>): multiset<Indexed>
    decreases groups, 0
  {
    if groups == [] then multiset{}
    else Repeated(groups[0].indices, MeaningOfDoc(groups[0].doc)) + MeaningOfGroups(groups[1..])
  }

  function MeaningOfOthers(others: seq<NamedDoc>): seq<Named>
    decreases others, 0
  {
    if others == [] then [] else [Named(others[0].name, MeaningOfDoc(others[0].doc))] + MeaningOfOthers(others[1..])
  }

  /** The meaning of a numbered child. */
  function MeaningWith(parse: Parse): Numbered -> Indexed {
    (x: Numbered) => Indexed(x.index, MeaningOf(x.body, parse))
  }

  function MeaningsOf(xs: seq<Numbered>, parse: Parse): multiset<Indexed> {
    Images(xs, MeaningWith(parse))
  }

  function Flatten(groups: seq<Group>): seq<Numbered> {
    if groups == [] then [] else groups[0] + Flatten(groups[1..])
  }

  lemma {:induction false} FlattenHasContent(groups: seq<Group>)
    ensures multiset(Flatten(groups)) == Content(groups)
  {
    if groups != [] {
      FlattenHasContent(groups[1..]);
    }
  }

  lemma {:induction false} NumberedMeaningsAre(children: seq<Child>, parse: Parse)
    ensures NumberedMeanings(children, parse) == MeaningsOf(NumberedOf(children, parse), parse)
  {
    if children != [] {
      NumberedMeaningsAre(children[1..], parse);
      if parse(children[0].name).Some? {
        assert NumberedOf(children, parse)[1..] == NumberedOf(children[1..], parse);
      }
    }
  }

  /** A group of one tree means that tree once for every index. */
  lemma {:induction false} RepeatedIsMeanings(g: seq<Numbered>, body: Module, parse: Parse)
    requires forall i :: 0 <= i < |g| ==> g[i].body == body
    ensures Repeated(IndicesOf(g), MeaningOf(body, parse)) == MeaningsOf(g, parse)
  {
    if g != [] {
      RepeatedIsMeanings(g[1..], body, parse);
      assert IndicesOf(g)[1..] == IndicesOf(g[1..]);
    }
  }

  /** Printing loses nothing: the document means the tree, at every level. */
  lemma {:induction false} DocMeansTree(m: Module, parse: Parse)
    requires WellNamed(m)
    ensures MeaningOfDoc(DocOf(m, parse)) == MeaningOf(m, parse)
    decreases m, 2
  {
    if m.children != [] {
      var groups := PrintedGroups(m.children, parse);
      GroupsAreBelow(m, parse);
      OthersAreBelow(m, parse);
      forall k | 0 <= k < |groups| ensures IsOneTree(groups[k]) {
        OneTree(m.children, parse, k);
      }
      GroupsMean(m, groups, parse);
      PrintedGroupsKeepChildren(m.children, parse);
      FlattenHasContent(groups);
      ImagesOfPermutation(Flatten(groups), NumberedOf(m.children, parse), MeaningWith(parse));
      NumberedMeaningsAre(m.children, parse);
      OthersMean(m, m.children, parse);
    }
  }

  predicate IsOneTree(g: Group) {
    WellNamed(g[0].body) && forall j :: 0 <= j < |g| ==> g[j].body == g[0].body
  }

  lemma OneTree(children: seq<Child>, parse: Parse, k: nat)
    requires AllWellNamed(children) && k < |PrintedGroups(children, parse)|
    ensures IsOneTree(PrintedGroups(children, parse)[k])
  {
    var g := PrintedGroups(children, parse)[k];
    MemberIsWellNamed(children, parse, k, 0);
    forall j | 0 <= j < |g| ensures g[j].body == g[0].body {
      GroupIsOneTree(children, parse, k, j);
    }
  }

  lemma {:induction false} GroupsMean(m: Module, groups: seq<Group>, parse: Parse)
    requires forall k :: 0 <= k < |groups| ==> groups[k][0].body < m
    requires forall k :: 0 <= k < |groups| ==> IsOneTree(groups[k])
    ensures MeaningOfGroups(DocsOfGroups(m, groups, parse)) == MeaningsOf(Flatten(groups), parse)
    decreases m, 1, |groups|
  {
    if groups != [] {
      assert IsOneTree(groups[0]);
      DocMeansTree(groups[0][0].body, parse);
      RepeatedIsMeanings(groups[0], groups[0][0].body, parse);
      GroupsMean(m, groups[1..], parse);
      ImagesOfConcat(groups[0], Flatten(groups[1..]), MeaningWith(parse));
      assert DocsOfGroups(m, groups, parse)[1..] == DocsOfGroups(m, groups[1..], parse);
    }
  }

  lemma {:induction false} OthersMean(m: Module, children: seq<Child>, parse: Parse)
    requires AllWellNamed(children)
    requires forall k :: 0 <= k < |children| ==> children[k].body < m
    requires forall k :: 0 <= k < |OthersOf(children, parse)| ==> OthersOf(children, parse)[k].body < m
    ensures MeaningOfOthers(DocsOfOthers(m, OthersOf(children, parse), parse)) == OtherMeanings(children, parse)
    decreases m, 1, |children|
  {
    if children != [] {
      var others, rest := OthersOf(children, parse), OthersOf(children[1..], parse);
      if parse(children[0].name).None? {
        DocMeansTree(children[0].body, parse);
        assert others[1..] == rest;
        assert forall k :: 0 <= k < |rest| ==> rest[k] == others[k + 1];
        OthersMean(m, children[1..], parse);
        assert DocsOfOthers(m, others, parse)[1..] == DocsOfOthers(m, rest, parse);
      } else {
        OthersMean(m, children[1..], parse);
      }
    }
  }
}
