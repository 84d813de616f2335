/**
  Index ranges as text: the indices 0, 1, 2, 4 are printed as "0-2, 4".  A parser for the
  printed form gives the sorted indices back.
 */
module IndexRanges {
  import opened Basics

  // ----- sorting -------------------------------------------------------------------

  ghost predicate Ascending(xs: seq<int>) {
    forall i, j :: 0 <= i < j < |xs| ==> xs[i] <= xs[j]
  }

  function Insert(x: int, xs: seq<int>): (r: seq<int>)
    ensures multiset(r) == multiset(xs) + multiset{x}
  {
    if xs == [] then [x]
    else if x <= xs[0] then [x] + xs
    else
      assert xs == [xs[0]] + xs[1..];
      [xs[0]] + Insert(x, xs[1..])
  }

  lemma {:induction false} InsertAscends(x: int, xs: seq<int>)
    requires Ascending(xs)
    ensures Ascending(Insert(x, xs))
  {
    if xs != [] && x > xs[0] {
      InsertAscends(x, xs[1..]);
      var rest := Insert(x, xs[1..]);
      forall j | 0 <= j < |rest| ensures xs[0] <= rest[j] {
        assert rest[j] in multiset(rest);
      }
      PrependAscends(xs[0], rest);
    }
  }

  lemma PrependAscends(x: int, xs: seq<int>)
    requires Ascending(xs) && forall j :: 0 <= j < |xs| ==> x <= xs[j]
    ensures Ascending([x] + xs)
  {
  }

  function Sorted(xs: seq<int>): (r: seq<int>)
    ensures Ascending(r) && multiset(r) == multiset(xs) && |r| == |xs|
  {
    if xs == [] then []
    else
      assert xs == [xs[0]] + xs[1..];
      InsertAscends(xs[0], Sorted(xs[1..]));
      var r := Insert(xs[0], Sorted(xs[1..]));
      assert |multiset(r)| == |r| && |multiset(xs)| == |xs|;
      r
  }

  // ----- runs of indices -----------------------------------------------------------

  datatype Run = Run(first: int, last: int)

  function Members(run: Run): (r: seq<int>)
    ensures |r| == if run.first <= run.last then run.last - run.first + 1 else 0
    ensures forall i :: 0 <= i < |r| ==> r[i] == run.first + i
  {
    if run.first <= run.last then seq(run.last - run.first + 1, i => run.first + i) else []
  }

  function Expand(runs: seq<Run>): seq<int> {
    if runs == [] then [] else Expand(runs[..|runs| - 1]) + Members(runs[|runs| - 1])
  }

  /** No run is empty, and none continues the one before it. */
  ghost predicate AreRuns(runs: seq<Run>) {
    runs == [] ||
    var n := |runs| - 1;
    && AreRuns(runs[..n])
    && runs[n].first <= runs[n].last
    && (n > 0 ==> runs[n].first != runs[n - 1].last + 1)
  }

  lemma {:induction false} RunsAreNotEmpty(runs: seq<Run>, k: nat)
    requires AreRuns(runs) && k < |runs|
    ensures runs[k].first <= runs[k].last
  {
    if k < |runs| - 1 {
      RunsAreNotEmpty(runs[..|runs| - 1], k);
    }
  }

  // ----- text ----------------------------------------------------------------------

  function Digit(d: nat): char
    requires d < 10
  {
    "0123456789"[d]
  }

  predicate IsDigit(c: char) {
    '0' <= c <= '9'
  }

  function ValueOf(c: char): nat
    requires IsDigit(c)
  {
    (c - '0') as int
  }

  function ShowNat(n: nat): string {
    if n < 10 then [Digit(n)] else ShowNat(n / 10) + [Digit(n % 10)]
  }

  function ShowInt(i: int): string {
    if i < 0 then "-" + ShowNat(-i) else ShowNat(i)
  }

  function ShowRun(run: Run): string {
    if run.first == run.last then ShowInt(run.first) else ShowInt(run.first) + "-" + ShowInt(run.last)
  }

  /** The texts joined by a comma and a space. */
  function Join(items: seq<string>): string {
    if items == [] then ""
    else if |items| == 1 then items[0]
    else items[0] + ", " + Join(items[1..])
  }

  function ShowRuns(runs: seq<Run>): seq<string> {
    seq(|runs|, k requires 0 <= k < |runs| => ShowRun(runs[k]))
  }

  // ----- parsing -------------------------------------------------------------------

  /** The digits at the front of the text, as a number after what was read before. */
  function ParseDigits(s: string, read: nat): (nat, string) {
    if s != [] && IsDigit(s[0]) then ParseDigits(s[1..], 10 * read + ValueOf(s[0])) else (read, s)
  }

  function ParseInt(s: string): (r: Option<(int, string)>)
    ensures r.Some? ==> |r.value.1| < |s|
  {
    if s != [] && IsDigit(s[0]) then
      DigitsShrink(s[1..], ValueOf(s[0]));
      var (n, rest) := ParseDigits(s, 0);
      Some((n, rest))
    else if |s| > 1 && s[0] == '-' && IsDigit(s[1]) then
      DigitsShrink(s[1..], 0);
      var (n, rest) := ParseDigits(s[1..], 0);
      Some((-(n as int), rest))
    else None
  }

  lemma {:induction false} DigitsShrink(s: string, read: nat)
    ensures |ParseDigits(s, read).1| <= |s|
  {
    if s != [] && IsDigit(s[0]) {
      DigitsShrink(s[1..], 10 * read + ValueOf(s[0]));
    }
  }

  /** A list of indices and ranges, separated by a comma and a space. */
  function ParseRanges(s: string): Option<seq<int>>
    decreases |s|
  {
    match ParseInt(s)
    case None => None
    case Some((first, rest)) =>
      if rest != [] && rest[0] == '-' then
        match ParseInt(rest[1..])
        case None => None
        case Some((last, rest')) => ParseMore(Members(Run(first, last)), rest')
      else ParseMore([first], rest)
  }

  function ParseMore(read: seq<int>, s: string): Option<seq<int>>
    decreases |s|, 0
  {
    if s == [] then Some(read)
    else if |s| >= 2 && s[0] == ',' && s[1] == ' ' then
      match ParseRanges(s[2..])
      case None => None
      case Some(more) => Some(read + more)
    else None
  }

  // ----- round trip ----------------------------------------------------------------

  predicate NoDigitFirst(s: string) {
    s != [] ==> !IsDigit(s[0])
  }

  lemma DigitIsDigit(d: nat)
    requires d < 10
    ensures IsDigit(Digit(d)) && ValueOf(Digit(d)) == d
  {
  }

  lemma {:induction false} ShowNatStartsWithDigit(n: nat)
    ensures ShowNat(n) != [] && IsDigit(ShowNat(n)[0])
  {
    if n < 10 {
      DigitIsDigit(n);
    } else {
      ShowNatStartsWithDigit(n / 10);
    }
  }

  lemma ParseOneDigit(d: nat, rest: string, read: nat)
    requires d < 10
    ensures ParseDigits([Digit(d)] + rest, read) == ParseDigits(rest, 10 * read + d)
  {
    DigitIsDigit(d);
    assert ([Digit(d)] + rest)[1..] == rest;
  }

  lemma {:induction false} ParseShowNat(n: nat, rest: string)
    ensures ParseDigits(ShowNat(n) + rest, 0) == ParseDigits(rest, n)
  {
    if n < 10 {
      ParseOneDigit(n, rest, 0);
    } else {
      var d := [Digit(n % 10)];
      assert ShowNat(n) + rest == ShowNat(n / 10) + (d + rest);
      ParseShowNat(n / 10, d + rest);
      ParseOneDigit(n % 10, rest, n / 10);
    }
  }

  lemma ParseShowNatural(n: nat, rest: string)
    requires NoDigitFirst(rest)
    ensures ParseInt(ShowNat(n) + rest) == Some((n, rest))
    ensures ParseInt("-" + ShowNat(n) + rest) == Some((-(n as int), rest))
  {
    ShowNatStartsWithDigit(n);
    ParseShowNat(n, rest);
    var s := "-" + ShowNat(n) + rest;
    assert s[1..] == ShowNat(n) + rest;
    assert ParseDigits(rest, n) == (n, rest);
  }

  lemma ParseShowInt(i: int, rest: string)
    requires NoDigitFirst(rest)
    ensures ParseInt(ShowInt(i) + rest) == Some((i, rest))
  {
    ParseShowNatural(if i < 0 then -i else i, rest);
  }

  lemma {:induction false} ParseShowRun(run: Run, rest: string)
    requires run.first <= run.last && NoDigitFirst(rest) && (rest != [] ==> rest[0] != '-')
    ensures ParseRanges(ShowRun(run) + rest) == ParseMore(Members(run), rest)
  {
    if run.first == run.last {
      ParseShowInt(run.first, rest);
      assert Members(run) == [run.first];
    } else {
      ParseShowLongRun(run, rest);
    }
  }

  lemma {:induction false} ParseShowLongRun(run: Run, rest: string)
    requires run.first < run.last && NoDigitFirst(rest)
    ensures ParseRanges(ShowRun(run) + rest) == ParseMore(Members(run), rest)
  {
    var tail := "-" + ShowInt(run.last) + rest;
    assert ShowRun(run) + rest == ShowInt(run.first) + tail;
    assert tail[0] == '-' && NoDigitFirst(tail);
    ParseShowInt(run.first, tail);
    assert tail[1..] == ShowInt(run.last) + rest;
    ParseShowInt(run.last, rest);
  }

  lemma {:induction false} ExpandStep(runs: seq<Run>)
    requires runs != []
    ensures Expand(runs) == Members(runs[0]) + Expand(runs[1..])
  {
    var n := |runs| - 1;
    if n > 0 {
      ExpandStep(runs[..n]);
      assert runs[..n][1..] == runs[1..][..n - 1];
    }
  }

  lemma JoinShowRuns(runs: seq<Run>)
    requires runs != []
    ensures |runs| == 1 ==> Join(ShowRuns(runs)) == ShowRun(runs[0]) + ""
    ensures |runs| > 1 ==> Join(ShowRuns(runs)) == ShowRun(runs[0]) + (", " + Join(ShowRuns(runs[1..])))
  {
    assert ShowRuns(runs)[1..] == ShowRuns(runs[1..]);
  }

  lemma ParseMoreRuns(read: seq<int>, s: string)
    ensures ParseMore(read, ", " + s) ==
              match ParseRanges(s) { case None => None case Some(more) => Some(read + more) }
  {
    assert (", " + s)[2..] == s;
  }

  /** Parsing the printed runs gives their members. */
  lemma {:induction false} ParseShowRuns(runs: seq<Run>)
    requires runs != [] && forall k :: 0 <= k < |runs| ==> runs[k].first <= runs[k].last
    ensures ParseRanges(Join(ShowRuns(runs))) == Some(Expand(runs))
  {
    ExpandStep(runs);
    JoinShowRuns(runs);
    if |runs| == 1 {
      ParseShowRun(runs[0], "");
      assert Members(runs[0]) + Expand([]) == Members(runs[0]);
    } else {
      ParseShowRuns(runs[1..]);
      var text := Join(ShowRuns(runs[1..]));
      ParseShowRun(runs[0], ", " + text);
      ParseMoreRuns(Members(runs[0]), text);
    }
  }

  // ----- formatting ----------------------------------------------------------------

  /** The next index extends the last run or starts a new one. */
  function Extend(runs: seq<Run>, x: int): (r: seq<Run>)
    ensures r != []
  {
    var k := |runs| - 1;
    if runs != [] && x == runs[k].last + 1 then runs[..k] + [Run(runs[k].first, x)] else runs + [Run(x, x)]
  }

  /** The runs that a walk over the indices finds. */
  function RunsOf(xs: seq<int>): seq<Run> {
    if xs == [] then [] else Extend(RunsOf(xs[..|xs| - 1]), xs[|xs| - 1])
  }

  lemma {:induction false} ExtendKeepsRuns(runs: seq<Run>, x: int)
    requires AreRuns(runs)
    ensures AreRuns(Extend(runs, x)) && Expand(Extend(runs, x)) == Expand(runs) + [x]
  {
    var k := |runs| - 1;
    if runs != [] && x == runs[k].last + 1 {
      ExtendLastRun(runs);
      assert Extend(runs, x) == runs[..k] + [Run(runs[k].first, runs[k].last + 1)];
    } else {
      AddRun(runs, x);
      assert Extend(runs, x) == runs + [Run(x, x)];
    }
  }

  lemma {:induction false} ExtendLastRun(runs: seq<Run>)
    requires AreRuns(runs) && runs != []
    ensures
      var k := |runs| - 1;
      var longer := runs[..k] + [Run(runs[k].first, runs[k].last + 1)];
      AreRuns(longer) && Expand(longer) == Expand(runs) + [runs[k].last + 1]
  {
    var k := |runs| - 1;
    SplitLast(runs);
    ExtendRun(runs[..k], runs[k]);
  }

  /** They are runs, and together they are the indices. */
  lemma {:induction false} RunsOfAreRuns(xs: seq<int>)
    ensures AreRuns(RunsOf(xs)) && Expand(RunsOf(xs)) == xs
  {
    if xs != [] {
      var n := |xs| - 1;
      RunsOfAreRuns(xs[..n]);
      ExtendKeepsRuns(RunsOf(xs[..n]), xs[n]);
      SplitLast(xs);
    }
  }

  lemma AppendRun(runs: seq<Run>, run: Run)
    ensures AreRuns(runs + [run]) <==>
              && AreRuns(runs) && run.first <= run.last
              && (runs != [] ==> run.first != runs[|runs| - 1].last + 1)
    ensures Expand(runs + [run]) == Expand(runs) + Members(run)
  {
    assert (runs + [run])[..|runs|] == runs;
  }

  lemma {:induction false} ExtendRun(init: seq<Run>, run: Run)
    requires AreRuns(init + [run])
    ensures
      var longer := init + [Run(run.first, run.last + 1)];
      AreRuns(longer) && Expand(longer) == Expand(init + [run]) + [run.last + 1]
  {
    AppendRun(init, run);
    AppendRun(init, Run(run.first, run.last + 1));
    MembersOneMore(run);
    Regroup(Expand(init), Members(run), [run.last + 1]);
  }

  lemma MembersOneMore(run: Run)
    requires run.first <= run.last
    ensures Members(Run(run.first, run.last + 1)) == Members(run) + [run.last + 1]
  {
  }

  lemma {:induction false} AddRun(runs: seq<Run>, x: int)
    requires AreRuns(runs) && (runs != [] ==> x != runs[|runs| - 1].last + 1)
    ensures AreRuns(runs + [Run(x, x)]) && Expand(runs + [Run(x, x)]) == Expand(runs) + [x]
  {
    AppendRun(runs, Run(x, x));
    assert Members(Run(x, x)) == [x];
  }

  /** The text for a list of indices. */
  function RangesText(indices: seq<int>): string {
    Join(ShowRuns(RunsOf(Sorted(indices))))
  }

  /** It parses to the sorted list. */
  lemma RangesTextRoundTrip(indices: seq<int>)
    requires indices != []
    ensures ParseRanges(RangesText(indices)) == Some(Sorted(indices))
  {
    var runs := RunsOf(Sorted(indices));
    RunsOfAreRuns(Sorted(indices));
    forall k | 0 <= k < |runs| ensures runs[k].first <= runs[k].last {
      RunsAreNotEmpty(runs, k);
    }
    ParseShowRuns(runs);
  }

  /** None is the IndexError on an empty list. */
  method FormatIndexRanges(indices: seq<int>) returns (r: Option<string>)
    ensures r == if indices == [] then None else Some(RangesText(indices))
  {
    if indices == [] {
      return None;
    }
    var ranges := CollectRanges(Sorted(indices));
    r := Some(Join(ranges));
  }

  /** The loop over the sorted indices. */
  method CollectRanges(sorted: seq<int>) returns (ranges: seq<string>)
    requires sorted != []
    ensures ranges == ShowRuns(RunsOf(sorted))
  {
    ranges := [];
    var start, end := sorted[0], sorted[0];
    ghost var closed := [];
    assert sorted[..1] == [sorted[0]];
    for i := 1 to |sorted|
      invariant RunsOf(sorted[..i]) == closed + [Run(start, end)] && ranges == ShowRuns(closed)
    {
      WalkOn(sorted, i, closed, Run(start, end));
      if sorted[i] == end + 1 {
        end := sorted[i];
      } else {
        ShowOneMore(closed, Run(start, end));
        ranges, closed := ranges + [ShowRun(Run(start, end))], closed + [Run(start, end)];
        start, end := sorted[i], sorted[i];
      }
    }
    assert sorted[..|sorted|] == sorted;
    ShowOneMore(closed, Run(start, end));
    ranges := ranges + [ShowRun(Run(start, end))];
  }

  lemma ShowOneMore(runs: seq<Run>, run: Run)
    ensures ShowRuns(runs + [run]) == ShowRuns(runs) + [ShowRun(run)]
  {
  }

  lemma WalkOn(xs: seq<int>, i: nat, closed: seq<Run>, open: Run)
    requires i < |xs| && RunsOf(xs[..i]) == closed + [open]
    ensures RunsOf(xs[..i + 1]) ==
              if xs[i] == open.last + 1 then closed + [Run(open.first, xs[i])] else closed + [open] + [Run(xs[i], xs[i])]
  {
    assert xs[..i + 1][..i] == xs[..i];
    assert (closed + [open])[..|closed|] == closed;
  }

  // ----- maximal runs --------------------------------------------------------------

  ghost predicate Distinct(xs: seq<int>) {
    forall i, j :: 0 <= i < j < |xs| ==> xs[i] != xs[j]
  }

  ghost predicate Increasing(xs: seq<int>) {
    forall i, j :: 0 <= i < j < |xs| ==> xs[i] < xs[j]
  }

  lemma {:induction false} DistinctOccursOnce(xs: seq<int>, x: int)
    requires Distinct(xs)
    ensures multiset(xs)[x] <= 1
  {
    if xs != [] {
      var n := |xs| - 1;
      DistinctOccursOnce(xs[..n], x);
      SplitLast(xs);
      if xs[n] == x {
        assert x !in xs[..n];
      }
    }
  }

  lemma SortedIsIncreasing(indices: seq<int>)
    requires Distinct(indices)
    ensures Increasing(Sorted(indices))
  {
    var xs := Sorted(indices);
    forall i, j | 0 <= i < j < |xs| ensures xs[i] < xs[j] {
      if xs[i] == xs[j] {
        OccursTwice(xs, i, j);
        DistinctOccursOnce(indices, xs[i]);
      }
    }
  }

  /** All indices of the run are there, and neither neighbour of the run is. */
  ghost predicate IsMaximal(run: Run, xs: seq<int>) {
    && (forall x :: run.first <= x <= run.last ==> x in xs)
    && (forall i :: 0 <= i < |xs| ==> xs[i] != run.first - 1 && xs[i] != run.last + 1)
  }

  /** When no index is repeated, every printed range is a maximal run of the indices. */
  lemma RangesAreMaximal(indices: seq<int>, k: nat)
    requires Distinct(indices) && k < |RunsOf(Sorted(indices))|
    ensures IsMaximal(RunsOf(Sorted(indices))[k], indices)
  {
    var xs := Sorted(indices);
    SortedIsIncreasing(indices);
    RunsOfAreRuns(xs);
    RunsAreMaximal(RunsOf(xs), xs, k);
    MaximalInPermutation(RunsOf(xs)[k], xs, indices);
  }

  lemma MaximalInPermutation(run: Run, xs: seq<int>, ys: seq<int>)
    requires IsMaximal(run, xs) && multiset(xs) == multiset(ys)
    ensures IsMaximal(run, ys)
  {
    forall x | run.first <= x <= run.last ensures x in ys {
      assert x in xs;
      assert x in multiset(xs);
    }
    forall i | 0 <= i < |ys| ensures ys[i] != run.first - 1 && ys[i] != run.last + 1 {
      assert ys[i] in multiset(ys);
      assert ys[i] in xs;
    }
  }

  lemma RunsAreMaximal(runs: seq<Run>, xs: seq<int>, k: nat)
    requires AreRuns(runs) && Expand(runs) == xs && Increasing(xs) && k < |runs|
    ensures IsMaximal(runs[k], xs)
  {
    forall x | runs[k].first <= x <= runs[k].last ensures x in xs {
      InExpand(runs, |runs|, k, x);
      assert runs[..|runs|] == runs;
    }
    forall i | 0 <= i < |xs| ensures xs[i] != runs[k].first - 1 && xs[i] != runs[k].last + 1 {
      NotBeside(runs, k, xs[i]);
    }
  }

  lemma {:induction false} NotBeside(runs: seq<Run>, k: nat, y: int)
    requires AreRuns(runs) && Increasing(Expand(runs)) && k < |runs| && y in Expand(runs)
    ensures y != runs[k].first - 1 && y != runs[k].last + 1
  {
    var j := RunOf(runs, y);
    RunsAreNotEmpty(runs, k);
    if j < k {
      RunsAreApart(runs, j, k);
    } else if j > k {
      RunsAreApart(runs, k, j);
    }
  }

  lemma {:induction false} InExpand(runs: seq<Run>, n: nat, k: nat, x: int)
    requires k < n <= |runs| && runs[k].first <= x <= runs[k].last
    ensures x in Expand(runs[..n])
  {
    var some := runs[..n];
    assert some[..n - 1] == runs[..n - 1];
    if k == n - 1 {
      assert Members(runs[k])[x - runs[k].first] == x;
    } else {
      InExpand(runs, n - 1, k, x);
    }
  }

  lemma {:induction false} RunOf(runs: seq<Run>, y: int) returns (j: nat)
    requires y in Expand(runs)
    ensures j < |runs| && runs[j].first <= y <= runs[j].last
  {
    var n := |runs| - 1;
    if y in Members(runs[n]) {
      j := n;
    } else {
      j := RunOf(runs[..n], y);
    }
  }

  /** Between two runs of distinct sorted indices there is room for at least one index. */
  lemma {:induction false} RunsAreApart(runs: seq<Run>, j: nat, k: nat)
    requires AreRuns(runs) && Increasing(Expand(runs)) && j < k < |runs|
    ensures runs[j].last + 1 < runs[k].first
  {
    NextIsLater(runs, k - 1);
    if j < k - 1 {
      RunsAreApart(runs, j, k - 1);
      RunsAreNotEmpty(runs, k - 1);
    }
  }

  lemma {:induction false} NextIsLater(runs: seq<Run>, j: nat)
    requires AreRuns(runs) && Increasing(Expand(runs)) && j + 1 < |runs|
    ensures runs[j].last + 1 < runs[j + 1].first
  {
    var n := |runs| - 1;
    if j + 1 < n {
      PrefixIsFine(runs, n);
      NextIsLater(runs[..n], j);
    } else {
      ExpandEndsWithLast(runs[..n]);
      NextToEachOther(Expand(runs[..n]), Members(runs[n]));
    }
  }

  lemma ExpandEndsWithLast(runs: seq<Run>)
    requires runs != [] && runs[|runs| - 1].first <= runs[|runs| - 1].last
    ensures Expand(runs) != [] && Expand(runs)[|Expand(runs)| - 1] == runs[|runs| - 1].last
  {
    var last := Members(runs[|runs| - 1]);
    assert last[|last| - 1] == runs[|runs| - 1].last;
  }

  lemma NextToEachOther(xs: seq<int>, ys: seq<int>)
    requires xs != [] && ys != [] && Increasing(xs + ys)
    ensures xs[|xs| - 1] < ys[0]
  {
    assert (xs + ys)[|xs| - 1] == xs[|xs| - 1] && (xs + ys)[|xs|] == ys[0];
  }

  lemma PrefixIsFine(runs: seq<Run>, n: nat)
    requires AreRuns(runs) && Increasing(Expand(runs)) && n == |runs| - 1
    ensures AreRuns(runs[..n]) && Increasing(Expand(runs[..n]))
  {
    var all, init := Expand(runs), Expand(runs[..n]);
    assert forall i :: 0 <= i < |init| ==> init[i] == all[i];
  }
}
