/**
  Module trees and their signatures.  The signature of a module is the text of a preorder
  walk: one line for every submodule, with its dotted path and its description.  Two modules
  with the same signature are the same tree, as long as no name has a colon after its first
  character; every other name has a tree with the signature of another one.
 */
module ModuleSignature {
  import opened Basics

  /** A module as the printer sees it: its description and its named children.  A module
      occurs once in the tree. */
  datatype Module = Module(info: string, children: seq<Child>)

  datatype Child = Child(name: string, body: Module)

  // ----- signatures ----------------------------------------------------------------

  function SubmodulePath(prefix: string, name: string): string {
    prefix + (if prefix == "" then "" else ".") + name
  }

  /** The lines of the walk over named_modules. */
  function SignatureLines(m: Module, path: string): seq<string>
    decreases m, 1
  {
    [path + ":" + m.info] + ChildLines(m.children, path)
  }

  function ChildLines(children: seq<Child>, path: string): seq<string>
    decreases children, 0
  {
    if children == [] then []
    else SignatureLines(children[0].body, SubmodulePath(path, children[0].name)) + ChildLines(children[1..], path)
  }

  function JoinLines(lines: seq<string>): string {
    if lines == [] then "" else if |lines| == 1 then lines[0] else lines[0] + "\n" + JoinLines(lines[1..])
  }

  function Signature(m: Module): string {
    JoinLines(SignatureLines(m, ""))
  }

  /** What PyTorch asks of a child name. */
  predicate IsAllowed(name: string) {
    name != "" && '.' !in name
  }

  /** An allowed name without a colon, but perhaps as its first character. */
  predicate IsName(name: string) {
    IsAllowed(name) && ':' !in name[1..]
  }

  /** The names in the tree are names, and no description has a line break. */
  predicate WellNamed(m: Module)
    decreases m, 1
  {
    '\n' !in m.info && AllWellNamed(m.children)
  }

  predicate AllWellNamed(children: seq<Child>)
    decreases children, 0
  {
    children == [] || (IsName(children[0].name) && WellNamed(children[0].body) && AllWellNamed(children[1..]))
  }

  // ----- the walk as a list of paths -----------------------------------------------

  datatype Entry = Entry(path: seq<string>, info: string)

  function Entries(m: Module, path: seq<string>): seq<Entry>
    decreases m, 1
  {
    [Entry(path, m.info)] + ChildEntries(m.children, path)
  }

  function ChildEntries(children: seq<Child>, path: seq<string>): seq<Entry>
    decreases children, 0
  {
    if children == [] then []
    else Entries(children[0].body, path + [children[0].name]) + ChildEntries(children[1..], path)
  }

  predicate IsBelow(path: seq<string>, top: seq<string>) {
    |top| < |path| && path[..|top|] == top
  }

  /** What follows a subtree in a walk is not below its root. */
  predicate Follows(rest: seq<Entry>, top: seq<string>) {
    rest == [] || !IsBelow(rest[0].path, top)
  }

  /** A walk of a tree, whatever follows it, is the walk of one tree only. */
  lemma {:induction false} WalkOfOneTree(m: Module, m': Module, path: seq<string>, rest: seq<Entry>, rest': seq<Entry>)
    requires Entries(m, path) + rest == Entries(m', path) + rest'
    requires Follows(rest, path) && Follows(rest', path)
    ensures m == m' && rest == rest'
    decreases m, 1
  {
    var walk, walk' := ChildEntries(m.children, path) + rest, ChildEntries(m'.children, path) + rest';
    assert Entries(m, path) + rest == [Entry(path, m.info)] + walk;
    assert Entries(m', path) + rest' == [Entry(path, m'.info)] + walk';
    assert ([Entry(path, m.info)] + walk)[1..] == walk && ([Entry(path, m'.info)] + walk')[1..] == walk';
    assert ([Entry(path, m.info)] + walk)[0] == ([Entry(path, m'.info)] + walk')[0];
    WalkOfOneForest(m.children, m'.children, path, rest, rest');
  }

  lemma {:induction false} WalkOfOneForest(
    cs: seq<Child>, cs': seq<Child>, path: seq<string>, rest: seq<Entry>, rest': seq<Entry>)
    requires ChildEntries(cs, path) + rest == ChildEntries(cs', path) + rest'
    requires Follows(rest, path) && Follows(rest', path)
    ensures cs == cs' && rest == rest'
    decreases cs, 0
  {
    FirstOfForest(cs, path, rest);
    FirstOfForest(cs', path, rest');
    if cs != [] && cs' != [] {
      var top := path + [cs[0].name];
      var more, more' := ChildEntries(cs[1..], path) + rest, ChildEntries(cs'[1..], path) + rest';
      assert path + [cs[0].name] == path + [cs'[0].name];
      assert cs[0].name == (path + [cs[0].name])[|path|] == (path + [cs'[0].name])[|path|] == cs'[0].name;
      assert ChildEntries(cs, path) + rest == Entries(cs[0].body, top) + more;
      assert ChildEntries(cs', path) + rest' == Entries(cs'[0].body, top) + more';
      FollowsChild(cs[1..], path, rest, cs[0].name);
      FollowsChild(cs'[1..], path, rest', cs'[0].name);
      WalkOfOneTree(cs[0].body, cs'[0].body, top, more, more');
      WalkOfOneForest(cs[1..], cs'[1..], path, rest, rest');
      assert cs == [cs[0]] + cs[1..] && cs' == [cs'[0]] + cs'[1..];
    }
  }

  /** A forest is empty exactly when the walk goes on outside, or ends. */
  lemma FirstOfForest(cs: seq<Child>, path: seq<string>, rest: seq<Entry>)
    requires Follows(rest, path)
    ensures
      var walk := ChildEntries(cs, path) + rest;
      && (cs == [] <==> Follows(walk, path))
      && (cs == [] ==> walk == rest)
      && (cs != [] ==> walk != [] && walk[0].path == path + [cs[0].name])
  {
    if cs != [] {
      assert Entries(cs[0].body, path + [cs[0].name])[0].path == path + [cs[0].name];
      assert (path + [cs[0].name])[..|path|] == path;
    }
  }

  /** The walk after a child is not below the child. */
  lemma FollowsChild(cs: seq<Child>, path: seq<string>, rest: seq<Entry>, name: string)
    requires Follows(rest, path)
    ensures Follows(ChildEntries(cs, path) + rest, path + [name])
  {
    FirstOfForest(cs, path, rest);
    if cs == [] && rest != [] {
      BelowChild(rest[0].path, path, name);
    }
  }

  lemma BelowChild(path: seq<string>, top: seq<string>, name: string)
    ensures IsBelow(path, top + [name]) ==> IsBelow(path, top)
  {
    if |path| > |top| + 1 {
      assert path[..|top|] == path[..|top| + 1][..|top|];
      assert (top + [name])[..|top|] == top;
    }
  }

  // ----- the text of the walk ------------------------------------------------------

  function Dotted(path: seq<string>): string {
    if path == [] then "" else SubmodulePath(Dotted(path[..|path| - 1]), path[|path| - 1])
  }

  function LineOf(e: Entry): string {
    Dotted(e.path) + ":" + e.info
  }

  function LinesOf(entries: seq<Entry>): (lines: seq<string>)
    ensures |lines| == |entries| && forall i :: 0 <= i < |entries| ==> lines[i] == LineOf(entries[i])
  {
    if entries == [] then [] else [LineOf(entries[0])] + LinesOf(entries[1..])
  }

  lemma {:induction false} LinesOfConcat(a: seq<Entry>, b: seq<Entry>)
    ensures LinesOf(a + b) == LinesOf(a) + LinesOf(b)
  {
  }

  lemma {:induction false} LinesAreLinesOf(m: Module, path: seq<string>)
    ensures SignatureLines(m, Dotted(path)) == LinesOf(Entries(m, path))
    decreases m, 1
  {
    ChildLinesAreLinesOf(m.children, path);
    LinesOfConcat([Entry(path, m.info)], ChildEntries(m.children, path));
  }

  lemma {:induction false} ChildLinesAreLinesOf(cs: seq<Child>, path: seq<string>)
    ensures ChildLines(cs, Dotted(path)) == LinesOf(ChildEntries(cs, path))
    decreases cs, 0
  {
    if cs != [] {
      var below := path + [cs[0].name];
      assert below[..|path|] == path;
      LinesAreLinesOf(cs[0].body, below);
      ChildLinesAreLinesOf(cs[1..], path);
      LinesOfConcat(Entries(cs[0].body, below), ChildEntries(cs[1..], path));
    }
  }

  /** Paths of names, and descriptions without line breaks. */
  predicate IsEntry(e: Entry) {
    '\n' !in e.info && forall i :: 0 <= i < |e.path| ==> IsName(e.path[i])
  }

  lemma {:induction false} EntriesAreEntries(m: Module, path: seq<string>, i: nat)
    requires WellNamed(m) && (forall k :: 0 <= k < |path| ==> IsName(path[k])) && i < |Entries(m, path)|
    ensures IsEntry(Entries(m, path)[i])
    decreases m, 1
  {
    if i > 0 {
      ChildEntriesAreEntries(m.children, path, i - 1);
    }
  }

  lemma {:induction false} ChildEntriesAreEntries(cs: seq<Child>, path: seq<string>, i: nat)
    requires AllWellNamed(cs) && (forall k :: 0 <= k < |path| ==> IsName(path[k])) && i < |ChildEntries(cs, path)|
    ensures IsEntry(ChildEntries(cs, path)[i])
    decreases cs, 0
  {
    var first := Entries(cs[0].body, path + [cs[0].name]);
    if i < |first| {
      EntriesAreEntries(cs[0].body, path + [cs[0].name], i);
    } else {
      ChildEntriesAreEntries(cs[1..], path, i - |first|);
    }
  }

  /** A text with a separator splits in one way at its last separator. */
  lemma SplitsOnceAtLast(a: string, b: string, a': string, b': string, c: char)
    requires a + [c] + b == a' + [c] + b' && c !in b && c !in b'
    ensures a == a' && b == b'
  {
    var s := a + [c] + b;
    assert s[|a|] == c && s[|a'|] == c;
    assert forall i :: 0 <= i < |b| ==> s[|a| + 1 + i] == b[i];
    assert forall i :: 0 <= i < |b'| ==> s[|a'| + 1 + i] == b'[i];
    assert |a| == |a'|;
    assert a == s[..|a|] && a' == s[..|a'|];
    assert b == s[|a| + 1..] && b' == s[|a'| + 1..];
  }

  /** A path that is not empty, ends in a name, and has a colon only where a name begins. */
  ghost predicate IsCleanPath(p: string) {
    && p != "" && p[|p| - 1] != '.'
    && forall i :: 0 < i < |p| && p[i] == ':' ==> p[i - 1] == '.'
  }

  /** The first colon that does not begin a name ends the path. */
  lemma PathSplitsOnce(p: string, r: string, p': string, r': string)
    requires IsCleanPath(p) && IsCleanPath(p') && p + ":" + r == p' + ":" + r'
    ensures p == p' && r == r'
  {
    var s := p + ":" + r;
    assert s[|p|] == ':' && s[|p'|] == ':';
    assert forall i :: 0 <= i < |p| ==> s[i] == p[i];
    assert forall i :: 0 <= i < |p'| ==> s[i] == p'[i];
    assert |p| == |p'|;
    assert p == s[..|p|] && p' == s[..|p'|];
    assert r == s[|p| + 1..] && r' == s[|p'| + 1..];
  }

  /** Dotted paths are clean, but for the root. */
  lemma {:induction false} DottedIsClean(path: seq<string>)
    requires forall i :: 0 <= i < |path| ==> IsName(path[i])
    ensures if path == [] then Dotted(path) == "" else IsCleanPath(Dotted(path))
  {
    if path != [] {
      var init, name := path[..|path| - 1], path[|path| - 1];
      DottedIsClean(init);
      CleanWithName(Dotted(init), name);
    }
  }

  lemma CleanWithName(prefix: string, name: string)
    requires IsName(name) && (prefix == "" || IsCleanPath(prefix))
    ensures IsCleanPath(SubmodulePath(prefix, name))
  {
    var p, n := SubmodulePath(prefix, name), |prefix| + if prefix == "" then 0 else 1;
    assert p[n..] == name && forall i :: n <= i < |p| ==> p[i] == name[i - n];
    forall j | 1 <= j < |name| ensures name[j] != ':' {
      assert name[j] == name[1..][j - 1];
    }
  }

  lemma {:induction false} DottedIsInjective(path: seq<string>, path': seq<string>)
    requires forall i :: 0 <= i < |path| ==> IsName(path[i])
    requires forall i :: 0 <= i < |path'| ==> IsName(path'[i])
    requires Dotted(path) == Dotted(path')
    ensures path == path'
    decreases |path|
  {
    DottedIsClean(path);
    DottedIsClean(path');
    if path != [] {
      var n, n' := |path| - 1, |path'| - 1;
      DotInDotted(path);
      DotInDotted(path');
      SplitDotted(path);
      SplitDotted(path');
      if n > 0 {
        SplitsOnceAtLast(Dotted(path[..n]), path[n], Dotted(path'[..n']), path'[n'], '.');
        DottedIsInjective(path[..n], path'[..n']);
      }
    }
  }

  lemma SplitDotted(path: seq<string>)
    requires path != [] && forall i :: 0 <= i < |path| ==> IsName(path[i])
    ensures
      var n := |path| - 1;
      && path == path[..n] + [path[n]]
      && (n == 0 ==> Dotted(path) == path[0])
      && (n > 0 ==> Dotted(path) == Dotted(path[..n]) + ['.'] + path[n])
  {
    var init, name := path[..|path| - 1], path[|path| - 1];
    DottedIsClean(init);
    AppendName(Dotted(init), name);
    SplitLast(path);
  }

  lemma AppendName(prefix: string, name: string)
    ensures SubmodulePath(prefix, name) == if prefix == "" then name else prefix + ['.'] + name
  {
  }

  lemma DotInDotted(path: seq<string>)
    requires path != [] && forall i :: 0 <= i < |path| ==> IsName(path[i])
    ensures '.' in Dotted(path) <==> |path| > 1
  {
    var init := path[..|path| - 1];
    DottedIsClean(init);
    if init != [] {
      assert Dotted(path)[|Dotted(init)|] == '.';
    }
  }

  /** The lines of a walk after its first line, each with the line break before it. */
  function TailText(es: seq<Entry>): string {
    if es == [] then "" else "\n" + LineOf(es[0]) + TailText(es[1..])
  }

  lemma {:induction false} JoinIsTailText(es: seq<Entry>)
    requires es != []
    ensures JoinLines(LinesOf(es)) == LineOf(es[0]) + TailText(es[1..])
  {
    if |es| > 1 {
      JoinIsTailText(es[1..]);
      assert LinesOf(es)[1..] == LinesOf(es[1..]);
    }
  }

  /** A description ends at the first line break, or at the end of the text. */
  lemma InfoSplitsOnce(a: string, t: string, a': string, t': string)
    requires a + t == a' + t' && '\n' !in a && '\n' !in a'
    requires (t == "" || t[0] == '\n') && (t' == "" || t'[0] == '\n')
    ensures a == a' && t == t'
  {
    var s := a + t;
    assert forall i :: 0 <= i < |a| ==> s[i] == a[i];
    assert forall i :: 0 <= i < |a'| ==> s[i] == a'[i];
    assert t != "" ==> s[|a|] == '\n';
    assert t' != "" ==> s[|a'|] == '\n';
    assert |a| == |a'|;
    assert a == s[..|a|] && a' == s[..|a'|] && t == s[|a|..] && t' == s[|a'|..];
  }

  /** Line breaks in names do not matter: a line determines its entry and the text after it. */
  lemma LineIsInjective(e: Entry, t: string, e': Entry, t': string)
    requires IsEntry(e) && IsEntry(e') && (e.path == [] <==> e'.path == []) && LineOf(e) + t == LineOf(e') + t'
    requires (t == "" || t[0] == '\n') && (t' == "" || t'[0] == '\n')
    ensures e == e' && t == t'
  {
    var p, p' := Dotted(e.path), Dotted(e'.path);
    DottedIsClean(e.path);
    DottedIsClean(e'.path);
    assert p + ":" + (e.info + t) == LineOf(e) + t == LineOf(e') + t' == p' + ":" + (e'.info + t');
    if e.path == [] {
      assert e.info + t == (p + ":" + (e.info + t))[1..] && e'.info + t' == (p' + ":" + (e'.info + t'))[1..];
    } else {
      PathSplitsOnce(p, e.info + t, p', e'.info + t');
    }
    InfoSplitsOnce(e.info, t, e'.info, t');
    DottedIsInjective(e.path, e'.path);
  }

  ghost predicate AreBelowRoot(es: seq<Entry>) {
    forall i :: 0 <= i < |es| ==> IsEntry(es[i]) && es[i].path != []
  }

  lemma {:induction false} TailTextIsInjective(es: seq<Entry>, es': seq<Entry>)
    requires AreBelowRoot(es) && AreBelowRoot(es') && TailText(es) == TailText(es')
    ensures es == es'
  {
    if es != [] && es' != [] {
      var line, line' := LineOf(es[0]) + TailText(es[1..]), LineOf(es'[0]) + TailText(es'[1..]);
      assert TailText(es) == "\n" + line && TailText(es') == "\n" + line';
      assert line == TailText(es)[1..] == TailText(es')[1..] == line';
      LineIsInjective(es[0], TailText(es[1..]), es'[0], TailText(es'[1..]));
      TailTextIsInjective(es[1..], es'[1..]);
      assert es == [es[0]] + es[1..] && es' == [es'[0]] + es'[1..];
    }
  }

  /** Modules with the same signature are the same tree. */
  lemma SameSignatureSameTree(m: Module, m': Module)
    requires WellNamed(m) && WellNamed(m') && Signature(m) == Signature(m')
    ensures m == m'
  {
    var es, es' := Entries(m, []), Entries(m', []);
    LinesAreLinesOf(m, []);
    LinesAreLinesOf(m', []);
    WalkIsBelowRoot(m);
    WalkIsBelowRoot(m');
    JoinIsTailText(es);
    JoinIsTailText(es');
    LineIsInjective(es[0], TailText(es[1..]), es'[0], TailText(es'[1..]));
    TailTextIsInjective(es[1..], es'[1..]);
    assert es == [es[0]] + es[1..] && es' == [es'[0]] + es'[1..];
    assert es + [] == es && es' + [] == es';
    WalkOfOneTree(m, m', [], [], []);
  }

  lemma WalkIsBelowRoot(m: Module)
    requires WellNamed(m)
    ensures
      var es := Entries(m, []);
      es != [] && es[0].path == [] && IsEntry(es[0]) && AreBelowRoot(es[1..])
  {
    var es := Entries(m, []);
    forall i | 0 <= i < |es| ensures IsEntry(es[i]) {
      EntriesAreEntries(m, [], i);
    }
    forall i | 0 <= i < |es[1..]| ensures es[1..][i].path != [] {
      ChildPathsAreBelow(m.children, [], i);
      assert es[1..] == ChildEntries(m.children, []);
    }
  }

  lemma {:induction false} PathsAreBelow(m: Module, path: seq<string>, i: nat)
    requires i < |Entries(m, path)|
    ensures |Entries(m, path)[i].path| >= |path|
    decreases m, 1
  {
    if i > 0 {
      ChildPathsAreBelow(m.children, path, i - 1);
    }
  }

  lemma {:induction false} ChildPathsAreBelow(cs: seq<Child>, path: seq<string>, i: nat)
    requires i < |ChildEntries(cs, path)|
    ensures |ChildEntries(cs, path)[i].path| > |path|
    decreases cs, 0
  {
    var first := Entries(cs[0].body, path + [cs[0].name]);
    if i < |first| {
      PathsAreBelow(cs[0].body, path + [cs[0].name], i);
    } else {
      ChildPathsAreBelow(cs[1..], path, i - |first|);
    }
  }

  // ----- names that collide --------------------------------------------------------

  /** A network with one child. */
  function OneChild(name: string, info: string): Module {
    Module("Net()", [Child(name, Module(info, []))])
  }

  /** A network with this child has the signature of another tree with good names. */
  ghost predicate Collides(name: string) {
    exists info, m: Module :: CollidesWith(name, info, m)
  }

  ghost predicate CollidesWith(name: string, info: string, m: Module) {
    '\n' !in info && WellNamed(m) && m != OneChild(name, info) && Signature(m) == Signature(OneChild(name, info))
  }

  /** Of the names that PyTorch allows, exactly those with a colon after their first character
      collide. */
  lemma CollidesIffColon(name: string)
    requires IsAllowed(name)
    ensures Collides(name) <==> ':' in name[1..]
  {
    if ':' in name[1..] {
      var children := SplitName(name);
      var m := Module("Net()", children);
      SignatureOfNet(children);
      SignatureOfNet(OneChild(name, "x:y").children);
      LinesOfLeaf(name, "x:y", []);
      assert [Child(name, Module("x:y", []))] + [] == [Child(name, Module("x:y", []))];
      assert name + ":" + "x:y" == name + ":x:y";
      LeafIsWellNamed(name, "x:y", []);
      assert !WellNamed(OneChild(name, "x:y"));
      assert CollidesWith(name, "x:y", m);
    } else {
      forall info, m: Module ensures !CollidesWith(name, info, m) {
        if '\n' !in info && WellNamed(m) && Signature(m) == Signature(OneChild(name, info)) {
          LeafIsWellNamed(name, info, []);
          assert OneChild(name, info).children + [] == OneChild(name, info).children;
          SameSignatureSameTree(m, OneChild(name, info));
        }
      }
    }
  }

  lemma LeafIsWellNamed(name: string, info: string, more: seq<Child>)
    ensures AllWellNamed([Child(name, Module(info, []))] + more) <==>
              IsName(name) && '\n' !in info && AllWellNamed(more)
  {
    var all := [Child(name, Module(info, []))] + more;
    assert all[1..] == more && AllWellNamed([]);
    assert WellNamed(Module(info, [])) <==> '\n' !in info;
  }

  lemma SignatureOfNet(children: seq<Child>)
    requires children != []
    ensures Signature(Module("Net()", children)) == ":Net()\n" + JoinLines(ChildLines(children, ""))
  {
    var lines := ChildLines(children, "");
    assert SignatureLines(children[0].body, SubmodulePath("", children[0].name)) != [];
    assert "" + ":" + "Net()" == ":Net()";
    assert SignatureLines(Module("Net()", children), "") == [":Net()"] + lines;
    assert ([":Net()"] + lines)[1..] == lines;
  }

  lemma LinesOfLeaf(name: string, info: string, more: seq<Child>)
    ensures ChildLines([Child(name, Module(info, []))] + more, "") == [name + ":" + info] + ChildLines(more, "")
  {
    var all := [Child(name, Module(info, []))] + more;
    assert all[1..] == more && SubmodulePath("", name) == name;
    assert ChildLines([], name) == [];
    assert SignatureLines(Module(info, []), name) == [name + ":" + info];
  }

  /** Children with good names whose lines are any text without dots, and two colons more. */
  lemma {:induction false} SplitName(u: string) returns (children: seq<Child>)
    requires '.' !in u
    ensures HasText(children, u + ":x:y")
    decreases |u|, 1
  {
    if u == "" {
      children := WithLeaf(":x", "y", []);
      assert ":x" + ":" + "y" == "" + ":x:y";
    } else if ':' in u[1..] {
      var k := First(u, ':', 1);
      children := SplitAtColon(u, k);
    } else {
      children := WithLeaf(u, "x:y", []);
      assert u + ":" + "x:y" == u + ":x:y";
    }
  }

  /** Children with good names and these lines. */
  ghost predicate HasText(children: seq<Child>, text: string) {
    children != [] && AllWellNamed(children) && ChildLines(children, "") != [] && JoinLines(ChildLines(children, "")) == text
  }

  lemma {:induction false} SplitAtColon(u: string, k: nat) returns (children: seq<Child>)
    requires '.' !in u && 1 <= k < |u| && u[k] == ':' && ':' !in u[1..k]
    ensures HasText(children, u + ":x:y")
    decreases |u|, 0
  {
    var rest := u[k + 1..];
    NameBeforeColon(u, k);
    if '\n' in rest {
      var j := First(rest, '\n', 0);
      var more := SplitName(rest[j + 1..]);
      children := WithLeaf(u[..k], rest[..j], more);
      JoinParts(u, k, j);
    } else {
      children := WithLeaf(u[..k], rest + ":x:y", []);
      JoinLastPart(u, k);
    }
  }

  lemma WithLeaf(name: string, info: string, more: seq<Child>) returns (children: seq<Child>)
    requires IsName(name) && '\n' !in info
    requires more != [] ==> AllWellNamed(more) && ChildLines(more, "") != []
    ensures HasText(
              children, name + ":" + info + if more == [] then "" else "\n" + JoinLines(ChildLines(more, "")))
  {
    children := [Child(name, Module(info, []))] + more;
    LinesOfLeaf(name, info, more);
    LeafIsWellNamed(name, info, more);
    assert AllWellNamed([]) && ChildLines([], "") == [];
    JoinWithFirst(name + ":" + info, ChildLines(more, ""));
    EmptyEnd(name + ":" + info);
    Regroup(name + ":" + info, "\n", JoinLines(ChildLines(more, "")));
  }

  lemma EmptyEnd(s: string)
    ensures s + "" == s
  {
  }

  lemma NameBeforeColon(u: string, k: nat)
    requires '.' !in u && 1 <= k < |u| && ':' !in u[1..k]
    ensures IsName(u[..k])
  {
    assert u[..k][1..] == u[1..k];
  }

  lemma JoinParts(u: string, k: nat, j: nat)
    requires k < |u| && u[k] == ':' && j < |u[k + 1..]| && u[k + 1..][j] == '\n'
    ensures
      var rest := u[k + 1..];
      u + ":x:y" == u[..k] + ":" + rest[..j] + ("\n" + (rest[j + 1..] + ":x:y"))
  {
    var rest := u[k + 1..];
    assert rest == rest[..j] + "\n" + rest[j + 1..];
    assert u == u[..k] + ":" + rest;
  }

  lemma JoinLastPart(u: string, k: nat)
    requires k < |u| && u[k] == ':'
    ensures u + ":x:y" == u[..k] + ":" + (u[k + 1..] + ":x:y") + ""
  {
    assert u == u[..k] + ":" + u[k + 1..];
  }

  lemma JoinWithFirst(line: string, lines: seq<string>)
    ensures JoinLines([line] + lines) == if lines == [] then line else line + "\n" + JoinLines(lines)
  {
    assert ([line] + lines)[1..] == lines;
  }

  lemma First(s: string, c: char, from: nat) returns (k: nat)
    requires from <= |s| && c in s[from..]
    ensures from <= k < |s| && s[k] == c && c !in s[from..k]
  {
    k := from;
    while s[k] != c
      invariant from <= k < |s| && c in s[k..] && c !in s[from..k]
      decreases |s| - k
    {
      assert s[k..] == [s[k]] + s[k + 1..];
      assert s[from..k + 1] == s[from..k] + [s[k]];
      k := k + 1;
    }
  }

  /** A colon moves from the name into the description without a trace. */
  lemma ColonMoves(name: string, k: nat, info: string)
    requires 1 <= k < |name| && name[k] == ':'
    ensures
      var m, m' := OneChild(name, info), OneChild(name[..k], name[k + 1..] + ":" + info);
      m != m' && Signature(m) == Signature(m')
  {
    var m, m' := OneChild(name, info), OneChild(name[..k], name[k + 1..] + ":" + info);
    SignatureOfNet(m.children);
    SignatureOfNet(m'.children);
    LinesOfLeaf(name, info, []);
    LinesOfLeaf(name[..k], name[k + 1..] + ":" + info, []);
    assert m.children + [] == m.children && m'.children + [] == m'.children;
    assert name[..k] + ":" + (name[k + 1..] + ":" + info) == name + ":" + info;
    assert m.children[0].name != m'.children[0].name;
  }

  /** Two networks with descriptions as PyTorch prints them. */
  lemma ColonsCanCollide()
    ensures OneChild("a", "Foo(x:Bar(y))") != OneChild("a:Foo(x", "Bar(y))")
    ensures Signature(OneChild("a", "Foo(x:Bar(y))")) == Signature(OneChild("a:Foo(x", "Bar(y))"))
  {
    var name := "a:Foo(x";
    ColonMoves(name, 1, "Bar(y))");
    assert name[..1] == "a" && name[2..] + ":" + "Bar(y))" == "Foo(x:Bar(y))";
  }
}
