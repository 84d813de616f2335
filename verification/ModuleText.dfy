/**
  The printed text of a module tree determines what the tree means.  The lines determine the
  blocks, by their indentation, and the first line of a block determines its label and its
  description.  There is one exception: a child whose name looks like ranges and whose
  description looks like a count.
 */
module ModuleText {
  import opened Basics
  import opened ModuleSignature
  import opened IndexRanges
  import opened ModuleTree
  import opened ModulePrinter

  // ----- blocks of lines -----------------------------------------------------------

  /** A printed block: its first line without indentation and bracket, and the blocks in it. */
  datatype Block = Block(head: string, inner: seq<Block>)

  /** The first line after its indentation. */
  function HeadText(b: Block): string {
    if b.inner == [] then b.head else b.head + "("
  }

  function Lines(b: Block, n: nat): seq<string>
    decreases b, 2
  {
    [Indent(n) + HeadText(b)] + Body(b, n)
  }

  function Body(b: Block, n: nat): seq<string>
    decreases b, 1
  {
    if b.inner == [] then [] else InnerLines(b.inner, n + 1) + [Indent(n) + ")"]
  }

  function InnerLines(bs: seq<Block>, n: nat): seq<string>
    decreases bs, 0
  {
    if bs == [] then [] else Lines(bs[0], n) + InnerLines(bs[1..], n)
  }

  /** Every block within a block begins with a bracket. */
  predicate IsTagged(b: Block)
    decreases b, 1
  {
    AreTagged(b.inner)
  }

  predicate AreTagged(bs: seq<Block>)
    decreases bs, 0
  {
    bs == [] || (bs[0].head != "" && bs[0].head[0] == '(' && IsTagged(bs[0]) && AreTagged(bs[1..]))
  }

  lemma {:induction false} IndentIsSpaces(n: nat)
    ensures |Indent(n)| == 2 * n && forall i :: 0 <= i < 2 * n ==> Indent(n)[i] == ' '
  {
    if n > 0 {
      IndentIsSpaces(n - 1);
    }
  }

  /** The line begins a block at this depth. */
  predicate Begins(line: string, n: nat) {
    |line| > 2 * n && line[2 * n] == '(' && forall i :: 0 <= i < 2 * n ==> line[i] == ' '
  }

  lemma TaggedLineBegins(n: nat, text: string, k: nat)
    requires text != "" && text[0] == '('
    ensures Begins(Indent(n) + text, k) <==> k == n
  {
    var line := Indent(n) + text;
    IndentIsSpaces(n);
    assert line[2 * n] == '(' && forall i :: 0 <= i < 2 * n ==> line[i] == ' ';
  }

  lemma ClosingLineBeginsNothing(n: nat, k: nat)
    ensures !Begins(Indent(n) + ")", k)
  {
    var line := Indent(n) + ")";
    IndentIsSpaces(n);
    assert line[2 * n] == ')' && forall i :: 0 <= i < 2 * n ==> line[i] == ' ';
  }

  /** What comes after a block does not begin a block within it. */
  predicate EndsBlock(rest: seq<string>, n: nat) {
    rest == [] || !Begins(rest[0], n + 1)
  }

  /** What comes after the blocks at a depth begins neither a block there nor one within. */
  predicate EndsBlocks(rest: seq<string>, n: nat) {
    EndsBlock(rest, n) && (rest == [] || !Begins(rest[0], n))
  }

  lemma FirstOfInner(bs: seq<Block>, n: nat, rest: seq<string>)
    requires AreTagged(bs) && EndsBlocks(rest, n)
    ensures
      var lines := InnerLines(bs, n) + rest;
      && (bs == [] ==> lines == rest)
      && (bs != [] ==> lines != [] && Begins(lines[0], n))
      && EndsBlock(lines, n)
  {
    if bs != [] {
      var text := HeadText(bs[0]);
      TaggedLineBegins(n, text, n);
      TaggedLineBegins(n, text, n + 1);
      assert Lines(bs[0], n)[0] == Indent(n) + text;
    }
  }

  /** The lines of a block, whatever follows them, are those of one block only. */
  lemma {:induction false} LinesOfOneBlock(b: Block, b': Block, n: nat, rest: seq<string>, rest': seq<string>)
    requires IsTagged(b) && IsTagged(b') && EndsBlock(rest, n) && EndsBlock(rest', n)
    requires Lines(b, n) + rest == Lines(b', n) + rest'
    ensures b == b' && rest == rest'
    decreases b, 1
  {
    var body, body' := Body(b, n) + rest, Body(b', n) + rest';
    var first, first' := Indent(n) + HeadText(b), Indent(n) + HeadText(b');
    HeadAndBody(b, n, rest);
    HeadAndBody(b', n, rest');
    SameHead(first, body, first', body');
    SameSuffix(Indent(n), HeadText(b), HeadText(b'));
    BodyBegins(b, n, rest);
    BodyBegins(b', n, rest');
    if b.inner == [] {
      assert b == Block(b.head, []) && b' == Block(b'.head, []);
      assert body == rest && body' == rest';
    } else {
      var close, close' := [Indent(n) + ")"] + rest, [Indent(n) + ")"] + rest';
      assert b.head == HeadText(b)[..|HeadText(b)| - 1] && b'.head == HeadText(b')[..|HeadText(b')| - 1];
      Regroup(InnerLines(b.inner, n + 1), [Indent(n) + ")"], rest);
      Regroup(InnerLines(b'.inner, n + 1), [Indent(n) + ")"], rest');
      ClosingLineBeginsNothing(n, n + 1);
      ClosingLineBeginsNothing(n, n + 2);
      LinesOfOneForest(b.inner, b'.inner, n + 1, close, close');
      SameHead(Indent(n) + ")", rest, Indent(n) + ")", rest');
    }
  }

  lemma HeadAndBody(b: Block, n: nat, rest: seq<string>)
    ensures Lines(b, n) + rest == [Indent(n) + HeadText(b)] + (Body(b, n) + rest)
  {
  }

  lemma SameHead(first: string, rest: seq<string>, first': string, rest': seq<string>)
    requires [first] + rest == [first'] + rest'
    ensures first == first' && rest == rest'
  {
    assert ([first] + rest)[0] == first && ([first'] + rest')[0] == first';
    assert ([first] + rest)[1..] == rest && ([first'] + rest')[1..] == rest';
  }

  lemma SameSuffix(p: string, s: string, s': string)
    requires p + s == p + s'
    ensures s == s'
  {
    assert s == (p + s)[|p|..] && s' == (p + s')[|p|..];
  }

  /** A block has blocks within exactly when the next line begins one. */
  lemma BodyBegins(b: Block, n: nat, rest: seq<string>)
    requires IsTagged(b) && EndsBlock(rest, n)
    ensures b.inner == [] <==> EndsBlock(Body(b, n) + rest, n)
  {
    if b.inner == [] {
      assert Body(b, n) + rest == rest;
    } else {
      var close := [Indent(n) + ")"] + rest;
      Regroup(InnerLines(b.inner, n + 1), [Indent(n) + ")"], rest);
      ClosingLineBeginsNothing(n, n + 1);
      ClosingLineBeginsNothing(n, n + 2);
      FirstOfInner(b.inner, n + 1, close);
    }
  }

  lemma {:induction false} LinesOfOneForest(
    bs: seq<Block>, bs': seq<Block>, n: nat, rest: seq<string>, rest': seq<string>)
    requires AreTagged(bs) && AreTagged(bs') && EndsBlocks(rest, n) && EndsBlocks(rest', n)
    requires InnerLines(bs, n) + rest == InnerLines(bs', n) + rest'
    ensures bs == bs' && rest == rest'
    decreases bs, 0
  {
    FirstOfInner(bs, n, rest);
    FirstOfInner(bs', n, rest');
    if bs != [] && bs' != [] {
      var more, more' := InnerLines(bs[1..], n) + rest, InnerLines(bs'[1..], n) + rest';
      assert InnerLines(bs, n) + rest == Lines(bs[0], n) + more;
      assert InnerLines(bs', n) + rest' == Lines(bs'[0], n) + more';
      FirstOfInner(bs[1..], n, rest);
      FirstOfInner(bs'[1..], n, rest');
      LinesOfOneBlock(bs[0], bs'[0], n, more, more');
      LinesOfOneForest(bs[1..], bs'[1..], n, rest, rest');
      assert bs == [bs[0]] + bs[1..] && bs' == [bs'[0]] + bs'[1..];
    }
  }

  // ----- documents as blocks -------------------------------------------------------

  function Tag(name: string): string {
    "(" + name + "): "
  }

  function BlockOf(doc: Doc, tag: string): Block
    decreases doc, 1
  {
    match doc
    case Leaf(info) => Block(tag + info, [])
    case Node(info, groups, others) => Block(tag + info, GroupBlocks(groups) + OtherBlocks(others))
  }

  function GroupBlocks(groups: seq<GroupDoc>): seq<Block>
    decreases groups, 0
  {
    if groups == [] then []
    else
      [BlockOf(groups[0].doc, if groups[0].indices == [] then "" else Label(groups[0].indices))] + GroupBlocks(groups[1..])
  }

  function OtherBlocks(others: seq<NamedDoc>): seq<Block>
    decreases others, 0
  {
    if others == [] then [] else [BlockOf(others[0].doc, Tag(others[0].name))] + OtherBlocks(others[1..])
  }

  predicate HasLeadingSpace(s: string) {
    s != "" && IsSpace(s[0])
  }

  /** The name is the text of several indices, and the description begins with their number. */
  ghost predicate IsAmbiguous(name: string, info: string) {
    exists indices, rest :: LooksLikeGroup(name, info, indices, rest)
  }

  ghost predicate LooksLikeGroup(name: string, info: string, indices: seq<int>, rest: string) {
    && |indices| > 1 && name == RangesText(indices)
    && info == ShowNat(|indices|) + " x " + rest && !HasLeadingSpace(rest)
  }

  /** A name that is neither an index nor mistaken for ranges. */
  ghost predicate IsClear(name: string, info: string) {
    IsName(name) && (forall i :: name != ShowInt(i)) && !IsAmbiguous(name, info)
  }

  ghost predicate IsClearDoc(doc: Doc)
    decreases doc, 1
  {
    && !HasLeadingSpace(doc.info)
    && (doc.Node? ==> (doc.groups != [] || doc.others != []) && AreClearGroups(doc.groups) && AreClearOthers(doc.others))
  }

  ghost predicate AreClearGroups(groups: seq<GroupDoc>)
    decreases groups, 0
  {
    groups == [] || (groups[0].indices != [] && IsClearDoc(groups[0].doc) && AreClearGroups(groups[1..]))
  }

  ghost predicate AreClearOthers(others: seq<NamedDoc>)
    decreases others, 0
  {
    others == [] ||
    (IsClear(others[0].name, others[0].doc.info) && IsClearDoc(others[0].doc) && AreClearOthers(others[1..]))
  }

  // ----- rendering gives the lines of the blocks -----------------------------------

  lemma {:induction false} StripIndent(n: nat, text: string)
    requires !HasLeadingSpace(text)
    ensures StripLeft(Indent(n) + text) == text
  {
    if n > 0 {
      StripIndent(n - 1, text);
      var s := Indent(n) + text;
      assert s[1..][1..] == Indent(n - 1) + text;
      assert IsSpace(s[0]) && IsSpace(s[1..][0]);
    } else {
      assert Indent(0) + text == text;
    }
  }

  lemma {:induction false} InnerLinesOfConcat(a: seq<Block>, b: seq<Block>, n: nat)
    ensures InnerLines(a + b, n) == InnerLines(a, n) + InnerLines(b, n)
  {
    if a == [] {
      assert a + b == b;
    } else {
      assert (a + b)[1..] == a[1..] + b;
      InnerLinesOfConcat(a[1..], b, n);
    }
  }

  /** The lines of a document with any tag. */
  lemma {:induction false} RenderIsLines(doc: Doc, name: string, n: nat)
    requires IsClearDoc(doc)
    ensures Render(doc, name, n) == Lines(BlockOf(doc, if name != "" then Tag(name) else ""), n)
    decreases doc, 1
  {
    HeadIsTag(name, doc.info, n);
    if doc.Node? {
      GroupsAreLines(doc.groups, n);
      OthersAreLines(doc.others, n);
      NodeIsLines(doc, name, n);
    }
  }

  lemma NodeIsLines(doc: Doc, name: string, n: nat)
    requires doc.Node? && (doc.groups != [] || doc.others != [])
    requires RenderGroups(doc.groups, n) == InnerLines(GroupBlocks(doc.groups), n + 1)
    requires RenderOthers(doc.others, n) == InnerLines(OtherBlocks(doc.others), n + 1)
    ensures Render(doc, name, n) == Lines(BlockOf(doc, if name != "" then Tag(name) else ""), n)
  {
    var tag := if name != "" then Tag(name) else "";
    var groups, others, close := GroupBlocks(doc.groups), OtherBlocks(doc.others), Indent(n) + ")";
    var b := Block(tag + doc.info, groups + others);
    var head := Head(name, doc.info, n) + "(";
    HeadIsTag(name, doc.info, n);
    Regroup(Indent(n), tag + doc.info, "(");
    InnerLinesOfConcat(groups, others, n + 1);
    RegroupLines(head, InnerLines(groups, n + 1), InnerLines(others, n + 1), close);
    assert groups + others != [] && BlockOf(doc, tag) == b;
    assert Lines(b, n) == [head] + (InnerLines(groups + others, n + 1) + [close]);
    assert Render(doc, name, n) == [head] + RenderGroups(doc.groups, n) + RenderOthers(doc.others, n) + [close];
  }

  lemma HeadIsTag(name: string, info: string, n: nat)
    ensures Head(name, info, n) == Indent(n) + ((if name != "" then Tag(name) else "") + info)
  {
    if name != "" {
      assert Indent(n) + "(" + name + "): " + info == Indent(n) + (Tag(name) + info);
    } else {
      assert "" + info == info;
    }
  }

  lemma RegroupLines(head: string, groups: seq<string>, others: seq<string>, close: string)
    ensures [head] + groups + others + [close] == [head] + ((groups + others) + [close])
  {
  }

  lemma {:induction false} GroupsAreLines(groups: seq<GroupDoc>, n: nat)
    requires AreClearGroups(groups)
    ensures RenderGroups(groups, n) == InnerLines(GroupBlocks(groups), n + 1)
    decreases groups, 0
  {
    if groups != [] {
      var doc, tag := groups[0].doc, Label(groups[0].indices);
      RenderIsLines(doc, "", n + 1);
      GroupsAreLines(groups[1..], n);
      RelabelLines(doc, tag, n + 1);
      assert GroupBlocks(groups)[1..] == GroupBlocks(groups[1..]);
    }
  }

  /** Labelling the lines of a block gives the lines of the block with that label. */
  lemma RelabelLines(doc: Doc, tag: string, n: nat)
    requires IsClearDoc(doc)
    ensures Lines(BlockOf(doc, ""), n) != []
    ensures Labelled(Lines(BlockOf(doc, ""), n), tag, n) == Lines(BlockOf(doc, tag), n)
  {
    var plain, tagged := BlockOf(doc, ""), BlockOf(doc, tag);
    PlainHead(doc);
    var text, body := HeadText(plain), Body(plain, n);
    StripIndent(n, text);
    TaggedHead(doc, tag);
    Regroup(Indent(n), tag, text);
    assert ([Indent(n) + text] + body)[0] == Indent(n) + text && ([Indent(n) + text] + body)[1..] == body;
  }

  lemma PlainHead(doc: Doc)
    requires IsClearDoc(doc)
    ensures !HasLeadingSpace(HeadText(BlockOf(doc, "")))
  {
    assert BlockOf(doc, "").head == "" + doc.info == doc.info;
  }

  lemma TaggedHead(doc: Doc, tag: string)
    ensures BlockOf(doc, tag).inner == BlockOf(doc, "").inner
    ensures HeadText(BlockOf(doc, tag)) == tag + HeadText(BlockOf(doc, ""))
    ensures forall n :: Body(BlockOf(doc, tag), n) == Body(BlockOf(doc, ""), n)
  {
    assert "" + doc.info == doc.info;
    Regroup(tag, doc.info, "(");
  }

  lemma {:induction false} OthersAreLines(others: seq<NamedDoc>, n: nat)
    requires AreClearOthers(others)
    ensures RenderOthers(others, n) == InnerLines(OtherBlocks(others), n + 1)
    decreases others, 0
  {
    if others != [] {
      RenderIsLines(others[0].doc, others[0].name, n + 1);
      OthersAreLines(others[1..], n);
      assert OtherBlocks(others)[1..] == OtherBlocks(others[1..]);
    }
  }

  // ----- labels --------------------------------------------------------------------

  lemma {:induction false} ShowNatHasNoColon(n: nat)
    ensures ShowNat(n) != "" && ':' !in ShowNat(n)
  {
    if n < 10 {
      DigitIsDigit(n);
    } else {
      ShowNatHasNoColon(n / 10);
      DigitIsDigit(n % 10);
    }
  }

  lemma ShowIntHasNoColon(i: int)
    ensures ShowInt(i) != "" && ':' !in ShowInt(i)
  {
    ShowNatHasNoColon(if i < 0 then -i else i);
  }

  lemma ShowRunHasNoColon(run: Run)
    ensures ShowRun(run) != "" && ':' !in ShowRun(run)
  {
    ShowIntHasNoColon(run.first);
    ShowIntHasNoColon(run.last);
  }

  lemma {:induction false} RunsHaveNoColon(runs: seq<Run>)
    requires runs != []
    ensures Join(ShowRuns(runs)) != "" && ':' !in Join(ShowRuns(runs))
  {
    ShowRunHasNoColon(runs[0]);
    JoinShowRuns(runs);
    if |runs| > 1 {
      RunsHaveNoColon(runs[1..]);
    }
  }

  lemma RangesTextHasNoColon(indices: seq<int>)
    requires indices != []
    ensures RangesText(indices) != "" && ':' !in RangesText(indices)
  {
    RunsOfAreRuns(Sorted(indices));
    RunsHaveNoColon(RunsOf(Sorted(indices)));
  }

  /** The text of one index is that of its range. */
  lemma RangesTextOfOne(i: int)
    ensures RangesText([i]) == ShowInt(i)
  {
    assert Sorted([i]) == [i] by {
      assert i in multiset(Sorted([i]));
    }
    assert [i][..0] == [];
    assert RunsOf([i]) == [Run(i, i)];
    assert ShowRuns([Run(i, i)]) == [ShowInt(i)];
  }

  /** The ranges determine the indices, but for their order. */
  lemma RangesDetermineIndices(a: seq<int>, b: seq<int>)
    requires a != [] && b != [] && RangesText(a) == RangesText(b)
    ensures multiset(a) == multiset(b) && |a| == |b|
  {
    RangesTextRoundTrip(a);
    RangesTextRoundTrip(b);
    assert multiset(a) == multiset(Sorted(a)) == multiset(Sorted(b)) == multiset(b);
  }

  function Count(indices: seq<int>): string {
    if |indices| > 1 then ShowNat(|indices|) + " x " else ""
  }

  lemma LabelIsTagAndCount(indices: seq<int>, info: string)
    requires indices != []
    ensures Label(indices) + info == Tag(RangesText(indices)) + (Count(indices) + info)
    ensures Label(indices) != "" && Label(indices)[0] == '('
  {
    if |indices| > 1 {
      var text, count := RangesText(indices), ShowNat(|indices|);
      Regroup(Tag(text), count, " x ");
      Regroup(Tag(text), count + " x ", info);
    } else {
      assert indices == [indices[0]];
      RangesTextOfOne(indices[0]);
      assert "" + info == info;
    }
  }

  /** A label ends at its only bracket that a colon follows. */
  lemma TagSplitsOnce(a: string, b: string, a': string, b': string)
    requires a != "" && a' != "" && ':' !in a[1..] && ':' !in a'[1..] && Tag(a) + b == Tag(a') + b'
    ensures a == a' && b == b'
  {
    var s := Tag(a) + b;
    assert forall i :: 1 <= i < |a| ==> a[i] == a[1..][i - 1];
    assert forall i :: 1 <= i < |a'| ==> a'[i] == a'[1..][i - 1];
    assert forall i :: 0 <= i < |a| ==> s[1 + i] == a[i];
    assert forall i :: 0 <= i < |a'| ==> s[1 + i] == a'[i];
    assert s[1 + |a|] == ')' && s[2 + |a|] == ':' && s[1 + |a'|] == ')' && s[2 + |a'|] == ':';
    assert |a| == |a'|;
    assert a == s[1..1 + |a|] && a' == s[1..1 + |a'|];
    assert b == s[4 + |a|..] && b' == s[4 + |a'|..];
  }

  lemma GroupHeads(indices: seq<int>, info: string, indices': seq<int>, info': string)
    requires indices != [] && indices' != [] && Label(indices) + info == Label(indices') + info'
    ensures multiset(indices) == multiset(indices') && info == info'
  {
    LabelIsTagAndCount(indices, info);
    LabelIsTagAndCount(indices', info');
    RangesTextHasNoColon(indices);
    RangesTextHasNoColon(indices');
    TagSplitsOnce(RangesText(indices), Count(indices) + info, RangesText(indices'), Count(indices') + info');
    RangesDetermineIndices(indices, indices');
    SameSuffix(Count(indices), info, info');
  }

  lemma GroupIsNotOther(indices: seq<int>, info: string, name: string, info': string)
    requires indices != [] && IsClear(name, info') && !HasLeadingSpace(info)
    ensures Label(indices) + info != Tag(name) + info'
  {
    if Label(indices) + info == Tag(name) + info' {
      LabelIsTagAndCount(indices, info);
      RangesTextHasNoColon(indices);
      TagSplitsOnce(RangesText(indices), Count(indices) + info, name, info');
      if |indices| > 1 {
        assert LooksLikeGroup(name, info', indices, info);
      } else {
        assert indices == [indices[0]];
        RangesTextOfOne(indices[0]);
      }
    }
  }

  // ----- blocks determine meanings -------------------------------------------------

  lemma {:induction false} RepeatedIsImages(indices: seq<int>, meaning: Meaning)
    ensures Repeated(indices, meaning) == Images(indices, (i: int) => Indexed(i, meaning))
  {
    if indices != [] {
      RepeatedIsImages(indices[1..], meaning);
    }
  }

  lemma RepeatedOfPermutation(a: seq<int>, b: seq<int>, meaning: Meaning)
    requires multiset(a) == multiset(b)
    ensures Repeated(a, meaning) == Repeated(b, meaning)
  {
    RepeatedIsImages(a, meaning);
    RepeatedIsImages(b, meaning);
    ImagesOfPermutation(a, b, (i: int) => Indexed(i, meaning));
  }

  lemma {:induction false} SameBlockSameMeaning(doc: Doc, doc': Doc, tag: string)
    requires IsClearDoc(doc) && IsClearDoc(doc') && BlockOf(doc, tag) == BlockOf(doc', tag)
    ensures MeaningOfDoc(doc) == MeaningOfDoc(doc')
    decreases doc, 1
  {
    SameSuffix(tag, doc.info, doc'.info);
    if doc.Node? && doc'.Node? {
      SameGroups(doc.groups, OtherBlocks(doc.others), doc'.groups, OtherBlocks(doc'.others), doc.others, doc'.others);
      SameOthers(doc.others, doc'.others);
    }
  }

  lemma {:induction false} SameGroups(
    gs: seq<GroupDoc>, rest: seq<Block>, gs': seq<GroupDoc>, rest': seq<Block>, os: seq<NamedDoc>, os': seq<NamedDoc>)
    requires AreClearGroups(gs) && AreClearGroups(gs') && AreClearOthers(os) && AreClearOthers(os')
    requires rest == OtherBlocks(os) && rest' == OtherBlocks(os')
    requires GroupBlocks(gs) + rest == GroupBlocks(gs') + rest'
    ensures MeaningOfGroups(gs) == MeaningOfGroups(gs') && rest == rest'
    decreases gs, 0
  {
    if gs == [] && gs' == [] {
      assert [] + rest == rest && [] + rest' == rest';
    } else if gs == [] {
      GroupBlocksAreNotOthers(gs', rest', os);
    } else if gs' == [] {
      GroupBlocksAreNotOthers(gs, rest, os');
    } else {
      SameFirstGroup(gs, rest, gs', rest');
      SameBlockSameMeaning(gs[0].doc, gs'[0].doc, "");
      RepeatedOfPermutation(gs[0].indices, gs'[0].indices, MeaningOfDoc(gs[0].doc));
      SameGroups(gs[1..], rest, gs'[1..], rest', os, os');
    }
  }

  lemma SameFirstGroup(gs: seq<GroupDoc>, rest: seq<Block>, gs': seq<GroupDoc>, rest': seq<Block>)
    requires gs != [] && gs' != [] && gs[0].indices != [] && gs'[0].indices != []
    requires GroupBlocks(gs) + rest == GroupBlocks(gs') + rest'
    ensures multiset(gs[0].indices) == multiset(gs'[0].indices)
    ensures BlockOf(gs[0].doc, "") == BlockOf(gs'[0].doc, "")
    ensures GroupBlocks(gs[1..]) + rest == GroupBlocks(gs'[1..]) + rest'
  {
    var b, b' := BlockOf(gs[0].doc, Label(gs[0].indices)), BlockOf(gs'[0].doc, Label(gs'[0].indices));
    var more, more' := GroupBlocks(gs[1..]) + rest, GroupBlocks(gs'[1..]) + rest';
    Regroup([b], GroupBlocks(gs[1..]), rest);
    Regroup([b'], GroupBlocks(gs'[1..]), rest');
    SameHeadSameTail(b, more, b', more');
    GroupHeads(gs[0].indices, gs[0].doc.info, gs'[0].indices, gs'[0].doc.info);
    SameGroup(gs[0], gs'[0]);
  }

  lemma SameHeadSameTail(b: Block, more: seq<Block>, b': Block, more': seq<Block>)
    requires [b] + more == [b'] + more'
    ensures b == b' && more == more'
  {
    assert b == ([b] + more)[0] && b' == ([b'] + more')[0];
    assert more == ([b] + more)[1..] && more' == ([b'] + more')[1..];
  }

  /** Blocks that differ in their tags only. */
  lemma SameGroup(g: GroupDoc, g': GroupDoc)
    requires g.indices != [] && g'.indices != [] && g.doc.info == g'.doc.info
    requires BlockOf(g.doc, Label(g.indices)) == BlockOf(g'.doc, Label(g'.indices))
    ensures BlockOf(g.doc, "") == BlockOf(g'.doc, "")
  {
    TaggedHead(g.doc, Label(g.indices));
    TaggedHead(g'.doc, Label(g'.indices));
    assert BlockOf(g.doc, "") == Block("" + g.doc.info, BlockOf(g.doc, "").inner);
    assert BlockOf(g'.doc, "") == Block("" + g'.doc.info, BlockOf(g'.doc, "").inner);
  }

  lemma GroupBlocksAreNotOthers(gs: seq<GroupDoc>, rest: seq<Block>, os: seq<NamedDoc>)
    requires gs != [] && AreClearGroups(gs) && AreClearOthers(os)
    ensures GroupBlocks(gs) + rest != [] + OtherBlocks(os)
  {
    var blocks := GroupBlocks(gs) + rest;
    assert blocks[0] == BlockOf(gs[0].doc, Label(gs[0].indices));
    assert [] + OtherBlocks(os) == OtherBlocks(os);
    if os != [] {
      GroupIsNotOther(gs[0].indices, gs[0].doc.info, os[0].name, os[0].doc.info);
      assert blocks[0].head == Label(gs[0].indices) + gs[0].doc.info;
      assert OtherBlocks(os)[0].head == Tag(os[0].name) + os[0].doc.info;
    }
  }

  lemma {:induction false} SameOthers(os: seq<NamedDoc>, os': seq<NamedDoc>)
    requires AreClearOthers(os) && AreClearOthers(os') && OtherBlocks(os) == OtherBlocks(os')
    ensures MeaningOfOthers(os) == MeaningOfOthers(os')
    decreases os, 0
  {
    if os != [] && os' != [] {
      var b, b' := BlockOf(os[0].doc, Tag(os[0].name)), BlockOf(os'[0].doc, Tag(os'[0].name));
      assert b == OtherBlocks(os)[0] == OtherBlocks(os')[0] == b';
      assert OtherBlocks(os[1..]) == OtherBlocks(os)[1..] == OtherBlocks(os')[1..] == OtherBlocks(os'[1..]);
      TagSplitsOnce(os[0].name, os[0].doc.info, os'[0].name, os'[0].doc.info);
      SameBlockSameMeaning(os[0].doc, os'[0].doc, Tag(os[0].name));
      SameOthers(os[1..], os'[1..]);
    }
  }

  lemma {:induction false} BlockIsTagged(doc: Doc, tag: string)
    requires IsClearDoc(doc)
    ensures IsTagged(BlockOf(doc, tag))
    decreases doc, 1
  {
    if doc.Node? {
      GroupsAreTagged(doc.groups);
      OthersAreTagged(doc.others);
      TaggedConcat(GroupBlocks(doc.groups), OtherBlocks(doc.others));
    }
  }

  lemma {:induction false} GroupsAreTagged(gs: seq<GroupDoc>)
    requires AreClearGroups(gs)
    ensures AreTagged(GroupBlocks(gs))
    decreases gs, 0
  {
    if gs != [] {
      LabelIsTagAndCount(gs[0].indices, "");
      BlockIsTagged(gs[0].doc, Label(gs[0].indices));
      GroupsAreTagged(gs[1..]);
      assert GroupBlocks(gs)[1..] == GroupBlocks(gs[1..]);
    }
  }

  lemma {:induction false} OthersAreTagged(os: seq<NamedDoc>)
    requires AreClearOthers(os)
    ensures AreTagged(OtherBlocks(os))
    decreases os, 0
  {
    if os != [] {
      BlockIsTagged(os[0].doc, Tag(os[0].name));
      OthersAreTagged(os[1..]);
      assert OtherBlocks(os)[1..] == OtherBlocks(os[1..]);
    }
  }

  lemma {:induction false} TaggedConcat(a: seq<Block>, b: seq<Block>)
    requires AreTagged(a) && AreTagged(b)
    ensures AreTagged(a + b)
  {
    if a == [] {
      assert a + b == b;
    } else {
      TaggedConcat(a[1..], b);
      assert (a + b)[1..] == a[1..] + b;
    }
  }

  /** The text of a document determines what it means. */
  lemma TextDeterminesDoc(doc: Doc, doc': Doc, n: nat)
    requires IsClearDoc(doc) && IsClearDoc(doc') && Render(doc, "", n) == Render(doc', "", n)
    ensures MeaningOfDoc(doc) == MeaningOfDoc(doc')
  {
    var b, b' := BlockOf(doc, ""), BlockOf(doc', "");
    RenderIsLines(doc, "", n);
    RenderIsLines(doc', "", n);
    BlockIsTagged(doc, "");
    BlockIsTagged(doc', "");
    assert Lines(b, n) + [] == Lines(b, n) && Lines(b', n) + [] == Lines(b', n);
    LinesOfOneBlock(b, b', n, [], []);
    SameBlockSameMeaning(doc, doc', "");
  }

  // ----- trees ---------------------------------------------------------------------

  /** Python's int() reads the text of a number. */
  ghost predicate ReadsNumbers(parse: Parse) {
    forall i :: parse(ShowInt(i)) == Some(i)
  }

  /** No description begins with a space, and no name that is not a number is mistaken. */
  ghost predicate IsClearTree(m: Module, parse: Parse)
    decreases m, 1
  {
    !HasLeadingSpace(m.info) && AreClearChildren(m.children, parse)
  }

  ghost predicate AreClearChildren(children: seq<Child>, parse: Parse)
    decreases children, 0
  {
    children == [] ||
    (&& IsClearTree(children[0].body, parse)
     && (parse(children[0].name).None? ==> !IsAmbiguous(children[0].name, children[0].body.info))
     && AreClearChildren(children[1..], parse))
  }

  lemma {:induction false} ChildIsClear(children: seq<Child>, parse: Parse, i: nat)
    requires AreClearChildren(children, parse) && AllWellNamed(children) && i < |children|
    ensures IsClearTree(children[i].body, parse) && WellNamed(children[i].body) && IsName(children[i].name)
    ensures parse(children[i].name).None? ==> !IsAmbiguous(children[i].name, children[i].body.info)
  {
    if i > 0 {
      ChildIsClear(children[1..], parse, i - 1);
    }
  }

  lemma {:induction false} DocIsClear(m: Module, parse: Parse)
    requires WellNamed(m) && IsClearTree(m, parse) && ReadsNumbers(parse)
    ensures IsClearDoc(DocOf(m, parse)) && DocOf(m, parse).info == m.info
    decreases m, 2
  {
    if m.children != [] {
      GroupsAreBelow(m, parse);
      OthersAreBelow(m, parse);
      forall k | 0 <= k < |PrintedGroups(m.children, parse)|
        ensures CanBePrinted(PrintedGroups(m.children, parse)[k][0].body, parse)
      {
        var i := PrintedIsChild(m.children, parse, k);
        ChildIsClear(m.children, parse, i);
      }
      forall k | 0 <= k < |OthersOf(m.children, parse)|
        ensures IsClearOther(OthersOf(m.children, parse)[k], parse)
      {
        var i := OtherIsChild(m.children, parse, k);
        OtherIsNoNumber(m.children, parse, k);
        ChildIsClear(m.children, parse, i);
      }
      GroupDocsAreClear(m, PrintedGroups(m.children, parse), parse);
      OtherDocsAreClear(m, OthersOf(m.children, parse), parse);
      SomeChildIsPrinted(m, parse);
    }
  }

  ghost predicate CanBePrinted(m: Module, parse: Parse) {
    WellNamed(m) && IsClearTree(m, parse)
  }

  ghost predicate IsClearOther(c: Child, parse: Parse) {
    CanBePrinted(c.body, parse) && IsName(c.name) && parse(c.name).None? && !IsAmbiguous(c.name, c.body.info)
  }

  lemma {:induction false} OtherIsNoNumber(children: seq<Child>, parse: Parse, k: nat)
    requires k < |OthersOf(children, parse)|
    ensures parse(OthersOf(children, parse)[k].name).None?
  {
    if parse(children[0].name).None? {
      if k > 0 {
        OtherIsNoNumber(children[1..], parse, k - 1);
      }
    } else {
      OtherIsNoNumber(children[1..], parse, k);
    }
  }

  lemma {:induction false} GroupDocsAreClear(m: Module, groups: seq<Group>, parse: Parse)
    requires ReadsNumbers(parse)
    requires forall k :: 0 <= k < |groups| ==> groups[k][0].body < m
    requires forall k :: 0 <= k < |groups| ==> CanBePrinted(groups[k][0].body, parse)
    ensures AreClearGroups(DocsOfGroups(m, groups, parse)) && |DocsOfGroups(m, groups, parse)| == |groups|
    decreases m, 1, |groups|
  {
    if groups != [] {
      DocIsClear(groups[0][0].body, parse);
      GroupDocsAreClear(m, groups[1..], parse);
      assert DocsOfGroups(m, groups, parse)[1..] == DocsOfGroups(m, groups[1..], parse);
    }
  }

  lemma {:induction false} OtherDocsAreClear(m: Module, others: seq<Child>, parse: Parse)
    requires ReadsNumbers(parse)
    requires forall k :: 0 <= k < |others| ==> others[k].body < m
    requires forall k :: 0 <= k < |others| ==> IsClearOther(others[k], parse)
    ensures AreClearOthers(DocsOfOthers(m, others, parse)) && |DocsOfOthers(m, others, parse)| == |others|
    decreases m, 1, |others|
  {
    if others != [] {
      assert IsClearOther(others[0], parse);
      DocIsClear(others[0].body, parse);
      OtherDocsAreClear(m, others[1..], parse);
      assert DocsOfOthers(m, others, parse)[1..] == DocsOfOthers(m, others[1..], parse);
    }
  }

  lemma SomeChildIsPrinted(m: Module, parse: Parse)
    requires m.children != []
    ensures PrintedGroups(m.children, parse) != [] || OthersOf(m.children, parse) != []
  {
    if parse(m.children[0].name).Some? {
      PrintedGroupsKeepChildren(m.children, parse);
      assert NumberedOf(m.children, parse)[0] in multiset(NumberedOf(m.children, parse));
      assert Content([]) == multiset{};
    }
  }

  /** Trees with the same text mean the same. */
  lemma TextDeterminesTree(m: Module, m': Module, parse: Parse)
    requires WellNamed(m) && WellNamed(m') && IsClearTree(m, parse) && IsClearTree(m', parse) && ReadsNumbers(parse)
    requires Format(m, "", 0, parse) == Format(m', "", 0, parse)
    ensures MeaningOf(m, parse) == MeaningOf(m', parse)
  {
    FormatRendersDoc(m, "", 0, parse);
    FormatRendersDoc(m', "", 0, parse);
    DocIsClear(m, parse);
    DocIsClear(m', parse);
    TextDeterminesDoc(DocOf(m, parse), DocOf(m', parse), 0);
    DocMeansTree(m, parse);
    DocMeansTree(m', parse);
  }

  /** No description begins with a space or a digit, as for every class that a class statement
      defines. */
  ghost predicate IsPlainTree(m: Module)
    decreases m, 1
  {
    NoDigitFirst(m.info) && !HasLeadingSpace(m.info) && ArePlainChildren(m.children)
  }

  ghost predicate ArePlainChildren(children: seq<Child>)
    decreases children, 0
  {
    children == [] || (IsPlainTree(children[0].body) && ArePlainChildren(children[1..]))
  }

  lemma GroupInfoBeginsWithDigit(name: string, info: string, indices: seq<int>, rest: string)
    requires LooksLikeGroup(name, info, indices, rest)
    ensures info != "" && IsDigit(info[0])
  {
    ShowNatStartsWithDigit(|indices|);
    assert info[0] == ShowNat(|indices|)[0];
  }

  lemma PlainIsNotAmbiguous(name: string, info: string)
    requires NoDigitFirst(info)
    ensures !IsAmbiguous(name, info)
  {
    if IsAmbiguous(name, info) {
      var indices, rest :| LooksLikeGroup(name, info, indices, rest);
      GroupInfoBeginsWithDigit(name, info, indices, rest);
      assert false;
    }
  }

  lemma {:induction false} PlainTreeIsClear(m: Module, parse: Parse)
    requires IsPlainTree(m)
    ensures IsClearTree(m, parse)
    decreases m, 1
  {
    PlainChildrenAreClear(m.children, parse);
  }

  lemma {:induction false} PlainChildrenAreClear(children: seq<Child>, parse: Parse)
    requires ArePlainChildren(children)
    ensures AreClearChildren(children, parse)
    decreases children, 0
  {
    if children != [] {
      PlainTreeIsClear(children[0].body, parse);
      PlainIsNotAmbiguous(children[0].name, children[0].body.info);
      PlainChildrenAreClear(children[1..], parse);
    }
  }

  /** For plain descriptions the text determines the meaning without exception. */
  lemma TextDeterminesPlainTree(m: Module, m': Module, parse: Parse)
    requires WellNamed(m) && WellNamed(m') && IsPlainTree(m) && IsPlainTree(m') && ReadsNumbers(parse)
    requires Format(m, "", 0, parse) == Format(m', "", 0, parse)
    ensures MeaningOf(m, parse) == MeaningOf(m', parse)
  {
    PlainTreeIsClear(m, parse);
    PlainTreeIsClear(m', parse);
    TextDeterminesTree(m, m', parse);
  }

  // ----- the exception -------------------------------------------------------------

  /** A network with this child has the text of a clear tree that means something else. */
  ghost predicate SharesText(name: string, info: string, parse: Parse) {
    exists m: Module :: SharesTextWith(name, info, parse, m)
  }

  ghost predicate SharesTextWith(name: string, info: string, parse: Parse, m: Module) {
    && WellNamed(m) && IsClearTree(m, parse)
    && MeaningOf(m, parse) != MeaningOf(OneChild(name, info), parse)
    && Format(m, "", 0, parse) == Format(OneChild(name, info), "", 0, parse)
  }

  /** The exception is exact. */
  lemma SharesTextIffAmbiguous(name: string, info: string, parse: Parse)
    requires ReadsNumbers(parse) && IsName(name) && parse(name).None? && '\n' !in info && !HasLeadingSpace(info)
    ensures SharesText(name, info, parse) <==> IsAmbiguous(name, info)
  {
    if IsAmbiguous(name, info) {
      var indices, rest :| LooksLikeGroup(name, info, indices, rest);
      GroupSharesText(name, info, indices, rest, parse);
    } else {
      forall m: Module ensures !SharesTextWith(name, info, parse, m) {
        if WellNamed(m) && IsClearTree(m, parse) && Format(m, "", 0, parse) == Format(OneChild(name, info), "", 0, parse) {
          OneChildIsClear(name, info, parse);
          TextDeterminesTree(m, OneChild(name, info), parse);
        }
      }
    }
  }

  lemma OneChildIsClear(name: string, info: string, parse: Parse)
    requires IsName(name) && '\n' !in info && !HasLeadingSpace(info) && !IsAmbiguous(name, info)
    ensures WellNamed(OneChild(name, info)) && IsClearTree(OneChild(name, info), parse)
  {
    var children := OneChild(name, info).children;
    LeafIsWellNamed(name, info, []);
    assert children + [] == children && children[1..] == [];
    assert AreClearChildren([], parse);
    assert IsClearTree(Module(info, []), parse);
  }

  /** Children with these indices and one description. */
  function Repeats(indices: seq<int>, info: string): (r: seq<Child>)
    ensures |r| == |indices| && forall i :: 0 <= i < |r| ==> r[i] == Child(ShowInt(indices[i]), Module(info, []))
  {
    if indices == [] then [] else [Child(ShowInt(indices[0]), Module(info, []))] + Repeats(indices[1..], info)
  }

  function RepeatedNumbers(indices: seq<int>, body: Module): (r: seq<Numbered>)
    ensures |r| == |indices| && forall i :: 0 <= i < |r| ==> r[i] == Numbered(indices[i], body)
  {
    seq(|indices|, i requires 0 <= i < |indices| => Numbered(indices[i], body))
  }

  lemma {:induction false} RepeatsAreNumbered(indices: seq<int>, info: string, parse: Parse)
    requires ReadsNumbers(parse)
    ensures NumberedOf(Repeats(indices, info), parse) == RepeatedNumbers(indices, Module(info, []))
    ensures OthersOf(Repeats(indices, info), parse) == [] && OtherMeanings(Repeats(indices, info), parse) == []
  {
    if indices != [] {
      RepeatsAreNumbered(indices[1..], info, parse);
      assert Repeats(indices, info)[1..] == Repeats(indices[1..], info);
      assert parse(ShowInt(indices[0])) == Some(indices[0]);
    }
  }

  lemma {:induction false} RepeatsAreClear(indices: seq<int>, info: string, parse: Parse)
    requires ReadsNumbers(parse) && '\n' !in info && !HasLeadingSpace(info)
    ensures AllWellNamed(Repeats(indices, info)) && AreClearChildren(Repeats(indices, info), parse)
  {
    if indices != [] {
      RepeatsAreClear(indices[1..], info, parse);
      assert Repeats(indices, info)[1..] == Repeats(indices[1..], info);
      IndexIsName(indices[0]);
      assert AllWellNamed([]) && AreClearChildren([], parse);
      assert WellNamed(Module(info, [])) && IsClearTree(Module(info, []), parse);
      assert parse(ShowInt(indices[0])) == Some(indices[0]);
    }
  }

  lemma {:induction false} ShowNatHasNoDot(n: nat)
    ensures '.' !in ShowNat(n)
  {
    if n < 10 {
      DigitIsDigit(n);
    } else {
      ShowNatHasNoDot(n / 10);
      DigitIsDigit(n % 10);
    }
  }

  lemma IndexIsName(i: int)
    ensures IsName(ShowInt(i))
  {
    ShowIntHasNoColon(i);
    ShowNatHasNoDot(if i < 0 then -i else i);
  }

  lemma {:induction false} RepeatsAreOneGroup(xs: seq<Numbered>, body: Module)
    requires xs != [] && forall i :: 0 <= i < |xs| ==> xs[i].body == body
    ensures GroupsOf(xs) == [xs]
  {
    var n := |xs| - 1;
    SplitLast(xs);
    if n > 0 {
      RepeatsAreOneGroup(xs[..n], body);
      assert [xs[..n]][1..] == [];
    } else {
      assert xs[..0] == [] && xs == [xs[0]];
    }
  }

  lemma SortOfOne(g: Group)
    ensures SortGroups([g]) == [g]
  {
    assert [g][1..] == [];
  }

  lemma RepeatsPrintAsOneGroup(indices: seq<int>, info: string, parse: Parse)
    requires ReadsNumbers(parse) && indices != []
    ensures PrintedGroups(Repeats(indices, info), parse) == [RepeatedNumbers(indices, Module(info, []))]
    ensures OthersOf(Repeats(indices, info), parse) == []
  {
    var g: Group := RepeatedNumbers(indices, Module(info, []));
    RepeatsAreNumbered(indices, info, parse);
    RepeatsAreOneGroup(g, Module(info, []));
    SortOfOne(g);
  }

  lemma FormatOfRepeats(indices: seq<int>, info: string, parse: Parse)
    requires ReadsNumbers(parse) && indices != [] && !HasLeadingSpace(info)
    ensures Format(Module("Net()", Repeats(indices, info)), "", 0, parse) == ["Net()(", "  " + (Label(indices) + info), ")"]
  {
    var m, g := Module("Net()", Repeats(indices, info)), RepeatedNumbers(indices, Module(info, []));
    var line := "  " + (Label(indices) + info);
    RepeatsPrintAsOneGroup(indices, info, parse);
    GroupsAreBelow(m, parse);
    OthersAreBelow(m, parse);
    assert PrintedGroups(m.children, parse)[0] == g;
    FormatOfOneGroup(m, g, indices, info, parse);
    FormatOfNet(m, line, parse);
  }

  lemma FormatOfOneGroup(m: Module, g: Group, indices: seq<int>, info: string, parse: Parse)
    requires g == RepeatedNumbers(indices, Module(info, [])) && !HasLeadingSpace(info) && g[0].body < m
    ensures FormatGroups(m, [g], 0, parse) == ["  " + (Label(indices) + info)]
  {
    assert IndicesOf(g) == indices && [g][1..] == [];
    FormatOfLeaf(info, parse);
    LabelOnLeaf(indices, info);
    assert FormatGroups(m, [], 0, parse) == [];
  }

  lemma FormatOfLeaf(info: string, parse: Parse)
    ensures Format(Module(info, []), "", 1, parse) == ["  " + info]
  {
    HeadIsTag("", info, 1);
    assert Indent(1) == "  ";
    assert "" + info == info;
  }

  lemma LabelOnLeaf(indices: seq<int>, info: string)
    requires indices != [] && !HasLeadingSpace(info)
    ensures Labelled(["  " + info], Label(indices), 1) == ["  " + (Label(indices) + info)]
  {
    StripIndent(1, info);
    assert Indent(1) == "  ";
    assert ["  " + info][1..] == [];
    Regroup("  ", Label(indices), info);
  }

  /** A network whose children take one line. */
  lemma FormatOfNet(m: Module, line: string, parse: Parse)
    requires m.info == "Net()" && m.children != []
    requires forall k :: 0 <= k < |PrintedGroups(m.children, parse)| ==> PrintedGroups(m.children, parse)[k][0].body < m
    requires forall k :: 0 <= k < |OthersOf(m.children, parse)| ==> OthersOf(m.children, parse)[k].body < m
    requires FormatGroups(m, PrintedGroups(m.children, parse), 0, parse)
             + FormatOthers(m, OthersOf(m.children, parse), 0, parse) == [line]
    ensures Format(m, "", 0, parse) == ["Net()(", line, ")"]
  {
    FormatUnfolds(m, parse);
    var groups := FormatGroups(m, PrintedGroups(m.children, parse), 0, parse);
    var others := FormatOthers(m, OthersOf(m.children, parse), 0, parse);
    RegroupLines("Net()" + "(", groups, others, ")");
    NetLines(groups + others, line);
  }

  lemma FormatUnfolds(m: Module, parse: Parse)
    requires m.children != []
    requires forall k :: 0 <= k < |PrintedGroups(m.children, parse)| ==> PrintedGroups(m.children, parse)[k][0].body < m
    requires forall k :: 0 <= k < |OthersOf(m.children, parse)| ==> OthersOf(m.children, parse)[k].body < m
    ensures Format(m, "", 0, parse) ==
              [m.info + "("] + FormatGroups(m, PrintedGroups(m.children, parse), 0, parse)
              + FormatOthers(m, OthersOf(m.children, parse), 0, parse) + [")"]
  {
    HeadIsTag("", m.info, 0);
    assert Indent(0) == "";
    assert "" + ("" + m.info) == m.info && "" + ")" == ")";
  }

  lemma NetLines(inner: seq<string>, line: string)
    requires inner == [line]
    ensures ["Net()" + "("] + (inner + [")"]) == ["Net()(", line, ")"]
  {
    assert "Net()" + "(" == "Net()(";
  }

  lemma FormatOfOneChild(name: string, info: string, parse: Parse)
    requires parse(name).None? && name != ""
    ensures Format(OneChild(name, info), "", 0, parse) == ["Net()(", "  " + (Tag(name) + info), ")"]
  {
    var m := OneChild(name, info);
    assert m.children[1..] == [];
    assert NumberedOf([], parse) == [] && OthersOf([], parse) == [];
    assert NumberedOf(m.children, parse) == [] && OthersOf(m.children, parse) == m.children;
    assert PrintedGroups(m.children, parse) == [];
    GroupsAreBelow(m, parse);
    OthersAreBelow(m, parse);
    HeadIsTag(name, info, 1);
    assert Indent(1) == "  " && Indent(0) == "";
    assert Format(Module(info, []), name, 1, parse) == ["  " + (Tag(name) + info)];
    assert FormatGroups(m, [], 0, parse) == [] && FormatOthers(m, [], 0, parse) == [];
    assert FormatOthers(m, m.children, 0, parse) == ["  " + (Tag(name) + info)];
    FormatOfNet(m, "  " + (Tag(name) + info), parse);
  }

  lemma GroupSharesText(name: string, info: string, indices: seq<int>, rest: string, parse: Parse)
    requires ReadsNumbers(parse) && name != "" && parse(name).None? && '\n' !in info
    requires LooksLikeGroup(name, info, indices, rest)
    ensures SharesTextWith(name, info, parse, Module("Net()", Repeats(indices, rest)))
  {
    NoBreakInSuffix(ShowNat(|indices|) + " x ", rest);
    RepeatsAreClear(indices, rest, parse);
    RepeatsMeanOther(name, info, indices, rest, parse);
    SameTextAsRepeats(name, info, indices, rest, parse);
    assert !HasLeadingSpace("Net()") && '\n' !in "Net()";
  }

  lemma NoBreakInSuffix(a: string, b: string)
    requires '\n' !in a + b
    ensures '\n' !in b
  {
    assert forall i :: 0 <= i < |b| ==> b[i] == (a + b)[|a| + i];
  }

  lemma RepeatsMeanOther(name: string, info: string, indices: seq<int>, rest: string, parse: Parse)
    requires ReadsNumbers(parse) && parse(name).None?
    ensures MeaningOf(Module("Net()", Repeats(indices, rest)), parse) != MeaningOf(OneChild(name, info), parse)
  {
    RepeatsAreNumbered(indices, rest, parse);
    assert OtherMeanings(OneChild(name, info).children, parse) != [];
  }

  lemma SameTextAsRepeats(name: string, info: string, indices: seq<int>, rest: string, parse: Parse)
    requires ReadsNumbers(parse) && name != "" && parse(name).None? && LooksLikeGroup(name, info, indices, rest)
    ensures Format(Module("Net()", Repeats(indices, rest)), "", 0, parse) == Format(OneChild(name, info), "", 0, parse)
  {
    FormatOfRepeats(indices, rest, parse);
    FormatOfOneChild(name, info, parse);
    LabelIsTagAndCount(indices, rest);
  }

  /** A child "0-1" with the description "2 x Foo()" prints like two children Foo().  Such a
      description takes a class that was made with the name "2 x Foo" by a call of type(). */
  lemma TwoChildrenOrOne(parse: Parse, name: string, info: string, indices: seq<int>)
    requires ReadsNumbers(parse) && name == "0-1" && info == "2 x Foo()" && indices == [0, 1] && parse(name).None?
    ensures SharesTextWith(name, info, parse, Module("Net()", Repeats(indices, "Foo()")))
  {
    LooksLikeTwo(name, info, indices);
    GroupSharesText(name, info, indices, "Foo()", parse);
  }

  lemma LooksLikeTwo(name: string, info: string, indices: seq<int>)
    requires name == "0-1" && info == "2 x Foo()" && indices == [0, 1]
    ensures LooksLikeGroup(name, info, indices, "Foo()") && '\n' !in info
  {
    NameOfTwo(name, indices);
    InfoOfTwo(info);
    NoBreakInInfo(info);
    assert |indices| == 2;
  }

  lemma NameOfTwo(name: string, indices: seq<int>)
    requires name == "0-1" && indices == [0, 1]
    ensures name == RangesText(indices)
  {
    RangesOfTwo(0, indices);
    ShowDigits();
    assert "0" + "-" + "1" == "0-1";
  }

  lemma InfoOfTwo(info: string)
    requires info == "2 x Foo()"
    ensures info == ShowNat(2) + " x " + "Foo()" && !HasLeadingSpace("Foo()")
  {
    ShowDigits();
    assert "2" + " x " + "Foo()" == "2 x Foo()";
  }

  lemma NoBreakInInfo(info: string)
    requires info == "2 x Foo()"
    ensures '\n' !in info
  {
  }

  lemma ShowDigits()
    ensures ShowInt(0) == "0" && ShowInt(1) == "1" && ShowNat(2) == "2"
  {
  }

  lemma RangesOfTwo(a: int, indices: seq<int>)
    requires indices == [a, a + 1]
    ensures RangesText(indices) == ShowInt(a) + "-" + ShowInt(a + 1)
  {
    SortedOfTwo(a, a + 1);
    RunsOfTwo(a);
    var runs := [Run(a, a + 1)];
    assert ShowRuns(runs) == [ShowRun(runs[0])];
  }

  lemma SortedOfTwo(a: int, b: int)
    requires a <= b
    ensures Sorted([a, b]) == [a, b]
  {
    assert [b][1..] == [] && [a, b][1..] == [b];
    assert Sorted([b]) == Insert(b, []) == [b];
    assert Sorted([a, b]) == Insert(a, [b]);
  }

  lemma RunsOfTwo(a: int)
    ensures RunsOf([a, a + 1]) == [Run(a, a + 1)]
  {
    assert [a][..0] == [] && [a, a + 1][..1] == [a];
    assert RunsOf([a]) == Extend([], a) == [Run(a, a)];
    assert [Run(a, a)][..0] == [];
    assert RunsOf([a, a + 1]) == Extend([Run(a, a)], a + 1);
  }

  // ----- what a printed network looks like -----------------------------------------

  /** Two layers next to each other and one apart, and a child with a name. */
  lemma PrintedNetworks(parse: Parse, indices: seq<int>, name: string)
    requires ReadsNumbers(parse) && indices == [0, 1, 3] && name == "norm" && parse(name).None?
    ensures Format(Module("Net()", Repeats(indices, "Foo()")), "", 0, parse) ==
              ["Net()(", "  (0-1, 3): 3 x Foo()", ")"]
    ensures Format(OneChild(name, "Bar()"), "", 0, parse) == ["Net()(", "  (norm): Bar()", ")"]
  {
    FormatOfRepeats(indices, "Foo()", parse);
    LineOfThree(indices);
    FormatOfOneChild(name, "Bar()", parse);
    LineOfNorm(name);
  }

  lemma LineOfNorm(name: string)
    requires name == "norm"
    ensures "  " + (Tag(name) + "Bar()") == "  (norm): Bar()"
  {
    assert "(" + "norm" + "): " == "(norm): ";
    assert "(norm): " + "Bar()" == "(norm): Bar()";
  }

  lemma LineOfThree(indices: seq<int>)
    requires indices == [0, 1, 3]
    ensures "  " + (Label(indices) + "Foo()") == "  (0-1, 3): 3 x Foo()"
  {
    RangesOfThree(indices);
    LabelOfThree(indices);
    LineWithLabel(Label(indices));
  }

  lemma LineWithLabel(text: string)
    requires text == "(0-1, 3): 3 x "
    ensures "  " + (text + "Foo()") == "  (0-1, 3): 3 x Foo()"
  {
    assert text + "Foo()" == "(0-1, 3): 3 x Foo()";
  }

  lemma LabelOfThree(indices: seq<int>)
    requires |indices| == 3 && RangesText(indices) == "0-1, 3"
    ensures Label(indices) == "(0-1, 3): 3 x "
  {
    assert ShowNat(3) == "3";
    assert "(" + "0-1, 3" + "): " == "(0-1, 3): ";
    assert "(0-1, 3): " + "3" + " x " == "(0-1, 3): 3 x ";
  }

  lemma RangesOfThree(indices: seq<int>)
    requires indices == [0, 1, 3]
    ensures RangesText(indices) == "0-1, 3"
  {
    SortedOfThree(indices);
    RunsOfThree(indices);
    TextOfRuns(RunsOf(indices));
  }

  lemma TextOfRuns(runs: seq<Run>)
    requires runs == [Run(0, 1), Run(3, 3)]
    ensures Join(ShowRuns(runs)) == "0-1, 3"
  {
    assert ShowRuns(runs) == [ShowRun(runs[0]), ShowRun(runs[1])];
    TextOfThree(ShowRuns(runs));
  }

  lemma SortedOfThree(indices: seq<int>)
    requires indices == [0, 1, 3]
    ensures Sorted(indices) == indices
  {
    SortedOfTwo(1, 3);
    assert indices[1..] == [1, 3];
    assert Sorted(indices) == Insert(0, [1, 3]);
  }

  lemma RunsOfThree(indices: seq<int>)
    requires indices == [0, 1, 3]
    ensures RunsOf(indices) == [Run(0, 1), Run(3, 3)]
  {
    RunsOfTwo(0);
    assert indices[..2] == [0, 1];
    assert RunsOf(indices) == Extend([Run(0, 1)], 3);
  }

  lemma TextOfThree(texts: seq<string>)
    requires texts == [ShowRun(Run(0, 1)), ShowRun(Run(3, 3))]
    ensures Join(texts) == "0-1, 3"
  {
    ShowDigits();
    assert texts[1] == "3";
    NameOfPair(texts[0]);
    JoinOfPair(texts);
  }

  lemma NameOfPair(text: string)
    requires text == "0" + "-" + "1"
    ensures text == "0-1"
  {
  }

  lemma JoinOfPair(texts: seq<string>)
    requires texts == ["0-1", "3"]
    ensures Join(texts) == "0-1, 3"
  {
    assert texts[1..] == [texts[1]];
    assert texts[0] + ", " + texts[1] == "0-1, 3";
  }
}
