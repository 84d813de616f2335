/**
  Log-probabilities of a request in flat lists.  The container stands for a list of
  dictionaries, one for every position.  F is the type of a log-probability.
 */
module FlatLogprobs {
  import opened Basics

  datatype Logprob<F> = Logprob(logprob: F, rank: Option<int>, decodedToken: Option<string>)

  /** A token with its information: an item of a dictionary, or a row of the flat lists. */
  datatype Item<F> = Item(token: int, info: Logprob<F>)

  type Dict<F> = map<int, Logprob<F>>

  /** The dictionary of the items; of items with one token the last one counts. */
  function DictOf<F>(items: seq<Item<F>>): Dict<F> {
    if items == [] then map[]
    else DictOf(items[..|items| - 1])[items[|items| - 1].token := items[|items| - 1].info]
  }

  /** zip of four lists */
  function Zip<F>(tokens: seq<int>, logprobs: seq<F>, ranks: seq<Option<int>>, decoded: seq<Option<string>>, n: nat):
    (items: seq<Item<F>>)
    requires n <= |tokens| && n <= |logprobs| && n <= |ranks| && n <= |decoded|
    ensures |items| == n
    ensures forall i :: 0 <= i < n ==> items[i] == Item(tokens[i], Logprob(logprobs[i], ranks[i], decoded[i]))
  {
    seq(n, i requires 0 <= i < n => Item(tokens[i], Logprob(logprobs[i], ranks[i], decoded[i])))
  }

  lemma ZipOneMore<F>(
    tokens: seq<int>, logprobs: seq<F>, ranks: seq<Option<int>>, decoded: seq<Option<string>>, item: Item<F>)
    requires |tokens| == |logprobs| == |ranks| == |decoded|
    ensures
      var info := item.info;
      Zip(tokens + [item.token], logprobs + [info.logprob], ranks + [info.rank], decoded + [info.decodedToken], |tokens| + 1) ==
        Zip(tokens, logprobs, ranks, decoded, |tokens|) + [item]
  {
  }

  // ----- Python slices -------------------------------------------------------------

  /** A bound of a slice: negative ones count from the end, and all are clamped. */
  function Clamp(bound: int, n: nat): (r: nat)
    ensures r <= n
  {
    if bound < 0 then (if bound + n < 0 then 0 else bound + n) else if bound > n then n else bound
  }

  /** lo, lo + step, ... below hi */
  function Range(lo: nat, hi: nat, step: nat): (r: seq<nat>)
    requires step > 0
    ensures forall i :: 0 <= i < |r| ==> lo <= r[i] < hi
    ensures forall i, j :: 0 <= i < j < |r| ==> r[i] < r[j]
    decreases hi - lo
  {
    if lo >= hi then [] else [lo] + Range(lo + step, hi, step)
  }

  /** hi, hi - step, ... above lo */
  function RangeDown(hi: int, lo: int, step: nat): (r: seq<nat>)
    requires step > 0 && lo >= -1
    ensures forall i :: 0 <= i < |r| ==> lo < r[i] <= hi
    ensures forall i, j :: 0 <= i < j < |r| ==> r[i] > r[j]
    decreases hi - lo
  {
    if hi <= lo then [] else [hi] + RangeDown(hi - step, lo, step)
  }

  /** A bound of a slice that goes down; -1 is before the first position. */
  function ClampDown(bound: int, n: nat): (r: int)
    ensures -1 <= r < n
  {
    if bound < 0 then (if bound + n < 0 then -1 else bound + n) else if bound >= n then n - 1 else bound
  }

  ghost predicate Ascending(at: seq<nat>) {
    forall i, j :: 0 <= i < j < |at| ==> at[i] < at[j]
  }

  ghost predicate Descending(at: seq<nat>) {
    forall i, j :: 0 <= i < j < |at| ==> at[i] > at[j]
  }

  /** The positions that a slice selects from n. */
  function Selected(start: Option<int>, stop: Option<int>, step: int, n: nat): (r: seq<nat>)
    requires step != 0
    ensures forall i :: 0 <= i < |r| ==> r[i] < n
    ensures if step > 0 then Ascending(r) else Descending(r)
  {
    if step > 0 then
      Range(if start.None? then 0 else Clamp(start.value, n), if stop.None? then n else Clamp(stop.value, n), step)
    else
      RangeDown(
        if start.None? then n - 1 else ClampDown(start.value, n), if stop.None? then -1 else ClampDown(stop.value, n), -step)
  }

  /** The position that a bound of a slice stands for, possibly outside of the list. */
  function PositionOf(bound: int, n: nat): int {
    if bound < 0 then bound + n else bound
  }

  /** The first position of a slice, when the list goes far enough. */
  function FirstOf(start: Option<int>, step: int, n: nat): int {
    if step > 0 then
      if start.None? || PositionOf(start.value, n) < 0 then 0 else PositionOf(start.value, n)
    else
      if start.None? || PositionOf(start.value, n) >= n then n - 1 else PositionOf(start.value, n)
  }

  /** The slice has not yet reached its end at this position. */
  predicate BeforeStop(k: int, stop: Option<int>, step: int, n: nat) {
    && 0 <= k < n
    && (stop.Some? ==> if step > 0 then k < PositionOf(stop.value, n) else k > PositionOf(stop.value, n))
  }

  lemma {:induction false} RangeSteps(lo: nat, hi: nat, step: nat, i: nat)
    requires step > 0
    ensures i < |Range(lo, hi, step)| <==> lo + i * step < hi
    ensures i < |Range(lo, hi, step)| ==> Range(lo, hi, step)[i] == lo + i * step
    decreases i
  {
    if i > 0 {
      OneStepLess(i, step);
      if lo < hi {
        RangeSteps(lo + step, hi, step, i - 1);
      } else {
        NotNegative(i, step);
      }
    }
  }

  lemma {:induction false} RangeDownSteps(hi: int, lo: int, step: nat, i: nat)
    requires step > 0 && lo >= -1
    ensures i < |RangeDown(hi, lo, step)| <==> hi - i * step > lo
    ensures i < |RangeDown(hi, lo, step)| ==> RangeDown(hi, lo, step)[i] == hi - i * step
    decreases i
  {
    if i > 0 {
      OneStepLess(i, step);
      if hi > lo {
        RangeDownSteps(hi - step, lo, step, i - 1);
      } else {
        NotNegative(i, step);
      }
    }
  }

  lemma OneStepLess(i: nat, step: nat)
    requires i > 0
    ensures i * step == (i - 1) * step + step
  {
  }

  lemma NotNegative(i: nat, step: nat)
    ensures i * step >= 0
  {
  }

  lemma TimesNegative(i: nat, step: int)
    ensures i * (-step) == -(i * step)
  {
  }

  /** A slice selects, in order, every position that a number of steps from the first one
      reaches before the stop. */
  lemma SelectedSteps(start: Option<int>, stop: Option<int>, step: int, n: nat, i: nat)
    requires step != 0
    ensures
      var at, k := Selected(start, stop, step, n), FirstOf(start, step, n) + i * step;
      && (i < |at| <==> BeforeStop(k, stop, step, n))
      && (i < |at| ==> at[i] == k)
  {
    if step > 0 {
      var lo := if start.None? then 0 else Clamp(start.value, n);
      var hi := if stop.None? then n else Clamp(stop.value, n);
      RangeSteps(lo, hi, step, i);
      NotNegative(i, step);
    } else {
      var hi := if start.None? then n - 1 else ClampDown(start.value, n);
      var lo := if stop.None? then -1 else ClampDown(stop.value, n);
      RangeDownSteps(hi, lo, -step, i);
      TimesNegative(i, step);
      NotNegative(i, -step);
    }
  }

  /** The elements at some positions. */
  function Pick<T>(xs: seq<T>, at: seq<nat>): (r: seq<T>)
    requires forall i :: 0 <= i < |at| ==> at[i] < |xs|
    ensures |r| == |at| && forall i :: 0 <= i < |at| ==> r[i] == xs[at[i]]
  {
    seq(|at|, i requires 0 <= i < |at| => xs[at[i]])
  }

  // ----- flat lists ----------------------------------------------------------------

  /** Ranges of rows, one for every position, in order and without overlap. */
  ghost predicate AreRanges(starts: seq<int>, ends: seq<int>, n: nat) {
    && |starts| == |ends|
    && (forall k :: 0 <= k < |starts| ==> 0 <= starts[k] <= ends[k] <= n)
    && (forall k, j :: 0 <= k < j < |starts| ==> ends[k] <= starts[j])
  }

  /** The ranges follow each other and use every row. */
  ghost predicate AreContiguous(starts: seq<int>, ends: seq<int>, n: nat) {
    && |starts| == |ends|
    && (if |starts| == 0 then n == 0 else starts[0] == 0 && ends[|ends| - 1] == n)
    && (forall k, j :: 0 <= k < |starts| && j == k + 1 < |starts| ==> ends[k] == starts[j])
  }

  /** The dictionaries of the ranges. */
  function DictsOf<F>(rows: seq<Item<F>>, starts: seq<int>, ends: seq<int>): (r: seq<Dict<F>>)
    requires |starts| == |ends| && forall k :: 0 <= k < |starts| ==> 0 <= starts[k] <= ends[k] <= |rows|
    ensures |r| == |starts| && forall k :: 0 <= k < |starts| ==> r[k] == DictOf(rows[starts[k]..ends[k]])
  {
    seq(|starts|, k requires 0 <= k < |starts| => DictOf(rows[starts[k]..ends[k]]))
  }

  lemma AppendRange(starts: seq<int>, ends: seq<int>, n: nat, more: nat)
    requires AreRanges(starts, ends, n)
    ensures AreRanges(starts + [n], ends + [n + more], n + more)
    ensures AreContiguous(starts, ends, n) ==> AreContiguous(starts + [n], ends + [n + more], n + more)
  {
  }

  lemma PrefixUnchanged<F>(rows: seq<Item<F>>, items: seq<Item<F>>, lo: nat, hi: nat)
    requires lo <= hi <= |rows|
    ensures (rows + items)[lo..hi] == rows[lo..hi]
  {
  }

  /** Rows added at the end are one more position. */
  lemma AppendPosition<F>(rows: seq<Item<F>>, starts: seq<int>, ends: seq<int>, items: seq<Item<F>>)
    requires AreRanges(starts, ends, |rows|)
    ensures AreRanges(starts + [|rows|], ends + [|rows| + |items|], |rows + items|)
    ensures DictsOf(rows + items, starts + [|rows|], ends + [|rows| + |items|]) ==
              DictsOf(rows, starts, ends) + [DictOf(items)]
  {
    AppendRange(starts, ends, |rows|, |items|);
    AppendDicts(rows, starts, ends, items);
  }

  lemma AppendDicts<F>(rows: seq<Item<F>>, starts: seq<int>, ends: seq<int>, items: seq<Item<F>>)
    requires |starts| == |ends| && forall k :: 0 <= k < |starts| ==> 0 <= starts[k] <= ends[k] <= |rows|
    ensures
      var all, starts', ends' := rows + items, starts + [|rows|], ends + [|rows| + |items|];
      && (forall k :: 0 <= k < |starts'| ==> 0 <= starts'[k] <= ends'[k] <= |all|)
      && DictsOf(all, starts', ends') == DictsOf(rows, starts, ends) + [DictOf(items)]
  {
    var all, starts', ends' := rows + items, starts + [|rows|], ends + [|rows| + |items|];
    var dicts, dicts' := DictsOf(rows, starts, ends), DictsOf(all, starts', ends');
    forall k | 0 <= k < |starts| ensures dicts'[k] == dicts[k] {
      PrefixUnchanged(rows, items, starts[k], ends[k]);
    }
    SuffixIs(rows, items);
    SameButLast(dicts, dicts', DictOf(items));
  }

  lemma SuffixIs<T>(rows: seq<T>, items: seq<T>)
    ensures (rows + items)[|rows|..|rows| + |items|] == items
  {
  }

  lemma SameButLast<T>(xs: seq<T>, ys: seq<T>, last: T)
    requires |ys| == |xs| + 1 && ys[|xs|] == last && forall k :: 0 <= k < |xs| ==> ys[k] == xs[k]
    ensures ys == xs + [last]
  {
  }

  function Shifted(xs: seq<int>, base: int): (r: seq<int>)
    ensures |r| == |xs| && forall k :: 0 <= k < |xs| ==> r[k] == xs[k] - base
  {
    seq(|xs|, k requires 0 <= k < |xs| => xs[k] - base)
  }

  /** Cutting the rows at the first start and the last end of a selection, and shifting the
      ranges, gives the selected positions. */
  lemma SliceRows<F>(rows: seq<Item<F>>, starts: seq<int>, ends: seq<int>, at: seq<nat>)
    requires AreRanges(starts, ends, |rows|) && at != [] && Ascending(at)
    requires forall i :: 0 <= i < |at| ==> at[i] < |starts|
    ensures
      var lo, hi := starts[at[0]], ends[at[|at| - 1]];
      var starts', ends' := Shifted(Pick(starts, at), lo), Shifted(Pick(ends, at), lo);
      && 0 <= lo <= hi <= |rows|
      && AreRanges(starts', ends', hi - lo)
      && DictsOf(rows[lo..hi], starts', ends') == Pick(DictsOf(rows, starts, ends), at)
  {
    var lo, hi := starts[at[0]], ends[at[|at| - 1]];
    var starts', ends' := Shifted(Pick(starts, at), lo), Shifted(Pick(ends, at), lo);
    SliceRanges(starts, ends, |rows|, at);
    forall i | 0 <= i < |at| ensures rows[lo..hi][starts'[i]..ends'[i]] == rows[starts[at[i]]..ends[at[i]]] {
      SliceOfSlice(rows, lo, hi, starts[at[i]], ends[at[i]]);
    }
  }

  lemma SliceRanges(starts: seq<int>, ends: seq<int>, n: nat, at: seq<nat>)
    requires AreRanges(starts, ends, n) && at != [] && Ascending(at)
    requires forall i :: 0 <= i < |at| ==> at[i] < |starts|
    ensures
      var lo, hi := starts[at[0]], ends[at[|at| - 1]];
      && 0 <= lo <= hi <= n
      && AreRanges(Shifted(Pick(starts, at), lo), Shifted(Pick(ends, at), lo), hi - lo)
      && forall i :: 0 <= i < |at| ==> lo <= starts[at[i]] <= ends[at[i]] <= hi
  {
    var lo, hi := starts[at[0]], ends[at[|at| - 1]];
    forall i | 0 <= i < |at| ensures lo <= starts[at[i]] <= ends[at[i]] <= hi {
    }
  }

  lemma SliceOfSlice<T>(xs: seq<T>, lo: int, hi: int, a: int, b: int)
    requires 0 <= lo <= a <= b <= hi <= |xs|
    ensures xs[lo..hi][a - lo..b - lo] == xs[a..b]
  {
    var ys := xs[lo..hi];
    forall k | 0 <= k < b - a ensures ys[a - lo..b - lo][k] == xs[a..b][k] {
      assert ys[a - lo + k] == xs[a + k];
    }
  }

  // ----- reading a range, whether it fits or not -----------------------------------

  /** The index of a list that Python reads, where negative ones count from the end. */
  predicate IsIndex(i: int, n: nat) {
    0 <= i + n && i < n
  }

  function At<T>(xs: seq<T>, i: int): T
    requires IsIndex(i, |xs|)
  {
    if i < 0 then xs[i + |xs|] else xs[i]
  }

  /** The dictionary of the rows from lo up to hi; None stands for the IndexError. */
  function ReadRows<F>(rows: seq<Item<F>>, lo: int, hi: int): Option<Dict<F>>
    decreases hi - lo
  {
    if hi <= lo then Some(map[])
    else
      match ReadRows(rows, lo, hi - 1)
      case None => None
      case Some(dict) =>
        if IsIndex(hi - 1, |rows|) then Some(dict[At(rows, hi - 1).token := At(rows, hi - 1).info]) else None
  }

  /** A range that fits is read as its rows. */
  lemma {:induction false} ReadFittingRows<F>(rows: seq<Item<F>>, lo: nat, hi: nat)
    requires lo <= hi <= |rows|
    ensures ReadRows(rows, lo, hi) == Some(DictOf(rows[lo..hi]))
  {
    if lo < hi {
      ReadFittingRows(rows, lo, hi - 1);
      assert rows[lo..hi][..hi - 1 - lo] == rows[lo..hi - 1];
    }
  }

  /** Without rows only an empty range can be read. */
  lemma {:induction false} ReadNoRows<F>(rows: seq<Item<F>>, lo: int, hi: int)
    requires rows == []
    ensures ReadRows(rows, lo, hi) == if hi <= lo then Some(map[]) else None
    decreases hi - lo
  {
    if lo < hi {
      ReadNoRows(rows, lo, hi - 1);
    }
  }

  ghost predicate AreNeighbours(at: seq<nat>) {
    forall i, j :: 0 <= i < |at| && j == i + 1 < |at| ==> at[j] == at[i] + 1
  }

  /** Selecting neighbours from contiguous ranges gives contiguous ranges. */
  lemma SliceIsContiguous(starts: seq<int>, ends: seq<int>, n: nat, at: seq<nat>)
    requires AreRanges(starts, ends, n) && AreContiguous(starts, ends, n) && at != []
    requires (forall i :: 0 <= i < |at| ==> at[i] < |starts|) && AreNeighbours(at)
    ensures
      var lo, hi := starts[at[0]], ends[at[|at| - 1]];
      hi >= lo ==> AreContiguous(Shifted(Pick(starts, at), lo), Shifted(Pick(ends, at), lo), hi - lo)
  {
    forall i, j | 0 <= i < |at| && j == i + 1 < |at| ensures ends[at[i]] == starts[at[j]] {
    }
  }

  lemma {:induction false} RangeOfNeighbours(lo: nat, hi: nat)
    ensures AreNeighbours(Range(lo, hi, 1))
    decreases hi - lo
  {
    if lo < hi {
      RangeOfNeighbours(lo + 1, hi);
    }
  }

  // ----- the container -------------------------------------------------------------

  /** None and the empty dictionary are the same position. */
  function ItemsOf<F>(position: Option<seq<Item<F>>>): seq<Item<F>> {
    if position.None? then [] else position.value
  }

  function DictsOfPositions<F>(positions: seq<Option<seq<Item<F>>>>): (r: seq<Dict<F>>)
    ensures |r| == |positions| && forall k :: 0 <= k < |positions| ==> r[k] == DictOf(ItemsOf(positions[k]))
  {
    seq(|positions|, k requires 0 <= k < |positions| => DictOf(ItemsOf(positions[k])))
  }

  class FlatLogprobs<F> {
    var startIndices: seq<int>
    var endIndices: seq<int>
    var tokenIds: seq<int>
    var logprobs: seq<F>
    var ranks: seq<Option<int>>
    var decodedTokens: seq<Option<string>>

    /** The four flat lists have one length, and every position has a range. */
    ghost predicate Aligned()
      reads this
    {
      |tokenIds| == |logprobs| == |ranks| == |decodedTokens| && |startIndices| == |endIndices|
    }

    /** The ranges of the positions fit. */
    ghost predicate Valid()
      reads this
    {
      Aligned() && AreRanges(startIndices, endIndices, |logprobs|)
    }

    ghost predicate Contiguous()
      reads this
    {
      AreContiguous(startIndices, endIndices, |logprobs|)
    }

    ghost function Rows(): seq<Item<F>>
      requires Aligned()
      reads this
    {
      Zip(tokenIds, logprobs, ranks, decodedTokens, |logprobs|)
    }

    /** What the container stands for. */
    ghost function Dicts(): seq<Dict<F>>
      requires Valid()
      reads this
    {
      DictsOf(Rows(), startIndices, endIndices)
    }

    /** What position k reads as. */
    ghost function Reads(k: nat): Option<Dict<F>>
      requires Aligned() && k < |startIndices|
      reads this
    {
      ReadRows(Rows(), startIndices[k], endIndices[k])
    }

    constructor ()
      ensures Valid() && Contiguous() && Dicts() == []
    {
      startIndices, endIndices, tokenIds, logprobs, ranks, decodedTokens := [], [], [], [], [], [];
    }

    constructor FromLists(
      starts: seq<int>, ends: seq<int>, tokens: seq<int>, values: seq<F>,
      newRanks: seq<Option<int>>, decoded: seq<Option<string>>)
      ensures startIndices == starts && endIndices == ends && tokenIds == tokens
      ensures logprobs == values && ranks == newRanks && decodedTokens == decoded
    {
      startIndices, endIndices, tokenIds := starts, ends, tokens;
      logprobs, ranks, decodedTokens := values, newRanks, decoded;
    }

    /** Rows at the end of the flat lists, one by one, and then the range of the position. */
    method AppendItems(items: seq<Item<F>>)
      requires Valid()
      modifies this
      ensures Valid() && Dicts() == old(Dicts()) + [DictOf(items)]
      ensures old(Contiguous()) ==> Contiguous()
    {
      ghost var rows, starts, ends := Rows(), startIndices, endIndices;
      startIndices := startIndices + [|logprobs|];
      AppendRows(items);
      endIndices := endIndices + [|logprobs|];
      AppendRange(starts, ends, |rows|, |items|);
      AppendPosition(rows, starts, ends, items);
    }

    /** The four flat lists with the rows at their ends. */
    method AppendRows(items: seq<Item<F>>)
      requires |tokenIds| == |logprobs| == |ranks| == |decodedTokens|
      modifies this`tokenIds, this`logprobs, this`ranks, this`decodedTokens
      ensures |tokenIds| == |logprobs| == |ranks| == |decodedTokens| == |old(logprobs)| + |items|
      ensures Zip(tokenIds, logprobs, ranks, decodedTokens, |logprobs|) ==
                old(Zip(tokenIds, logprobs, ranks, decodedTokens, |logprobs|)) + items
    {
      ghost var rows := Zip(tokenIds, logprobs, ranks, decodedTokens, |logprobs|);
      for i := 0 to |items|
        invariant |tokenIds| == |logprobs| == |ranks| == |decodedTokens| == |rows| + i
        invariant Zip(tokenIds, logprobs, ranks, decodedTokens, |logprobs|) == rows + items[..i]
      {
        ZipOneMore(tokenIds, logprobs, ranks, decodedTokens, items[i]);
        Regroup(rows, items[..i], [items[i]]);
        assert items[..i + 1] == items[..i] + [items[i]];
        tokenIds := tokenIds + [items[i].token];
        logprobs := logprobs + [items[i].info.logprob];
        ranks := ranks + [items[i].info.rank];
        decodedTokens := decodedTokens + [items[i].info.decodedToken];
      }
      assert items[..|items|] == items;
    }

    method Append(position: Option<seq<Item<F>>>)
      requires Valid()
      modifies this
      ensures Valid() && Dicts() == old(Dicts()) + [DictOf(ItemsOf(position))]
      ensures old(Contiguous()) ==> Contiguous()
    {
      AppendItems(ItemsOf(position));
    }

    /** Appends a position from four lists, without a dictionary; the shortest list counts. */
    method AppendFast(tokens: seq<int>, values: seq<F>, newRanks: seq<Option<int>>, decoded: seq<Option<string>>)
      requires Valid()
      modifies this
      ensures Valid()
      ensures
        var n := Min(Min(|tokens|, |values|), Min(|newRanks|, |decoded|));
        Dicts() == old(Dicts()) + [DictOf(Zip(tokens, values, newRanks, decoded, n))]
      ensures old(Contiguous()) ==> Contiguous()
    {
      var n := Min(Min(|tokens|, |values|), Min(|newRanks|, |decoded|));
      AppendItems(Zip(tokens, values, newRanks, decoded, n));
    }

    method Extend(positions: seq<Option<seq<Item<F>>>>)
      requires Valid()
      modifies this
      ensures Valid() && Dicts() == old(Dicts()) + DictsOfPositions(positions)
      ensures old(Contiguous()) ==> Contiguous()
    {
      for i := 0 to |positions|
        invariant Valid() && Dicts() == old(Dicts()) + DictsOfPositions(positions)[..i]
        invariant old(Contiguous()) ==> Contiguous()
      {
        Append(positions[i]);
      }
    }

    /** One position; None is the IndexError of a list. */
    method GetItem(index: int) returns (r: Option<Dict<F>>)
      requires Aligned()
      ensures
        var n := |startIndices|;
        r == if IsIndex(index, n) then Reads(if index < 0 then index + n else index) else None
      ensures Valid() ==> r == if IsIndex(index, |Dicts()|) then Some(At(Dicts(), index)) else None
    {
      var n := |startIndices|;
      if !IsIndex(index, n) {
        return None;
      }
      var k := if index < 0 then index + n else index;
      if Valid() {
        ReadFittingRows(Rows(), startIndices[k], endIndices[k]);
      }
      r := ReadItem(startIndices[k], endIndices[k]);
    }

    /** The comprehension over the rows of a range. */
    method ReadItem(lo: int, hi: int) returns (r: Option<Dict<F>>)
      requires Aligned()
      ensures r == ReadRows(Rows(), lo, hi)
    {
      var dict: Dict<F> := map[];
      if hi <= lo {
        return Some(dict);
      }
      for i := lo to hi
        invariant ReadRows(Rows(), lo, i) == Some(dict)
      {
        if !IsIndex(i, |logprobs|) {
          StaysUnread(Rows(), lo, i + 1, hi);
          return None;
        }
        dict := dict[At(tokenIds, i) := Logprob(At(logprobs, i), At(ranks, i), At(decodedTokens, i))];
      }
      r := Some(dict);
    }

    /** A slice; None stands for the exceptions: a step of zero, and the IndexError on an empty
        selection, for which a list gives the empty list.  A slice that goes up, or selects one
        position, stands for the slice of the list.  In any other a position can be read exactly
        when it has no rows. */
    method Slice(start: Option<int>, stop: Option<int>, step: int) returns (r: Option<FlatLogprobs<F>>)
      requires Valid()
      ensures r.None? <==> step == 0 || Selected(start, stop, step, |Dicts()|) == []
      ensures r.Some? ==> fresh(r.value) && MeansSlice(r.value, this, Selected(start, stop, step, |Dicts()|), step)
    {
      if step == 0 {
        return None;
      }
      var at := Selected(start, stop, step, |startIndices|);
      if at == [] {
        return None;
      }
      var flat := SliceAt(at);
      if step == 1 {
        SelectedAreNeighbours(start, stop, |startIndices|);
      }
      SliceMeans(flat, this, at, step);
      r := Some(flat);
    }

    ghost predicate HasRows(k: nat)
      requires Valid() && k < |startIndices|
      reads this
    {
      startIndices[k] < endIndices[k]
    }

    /** The rows from the first start to the last end, and the ranges shifted to begin at
        zero. */
    method SliceAt(at: seq<nat>) returns (flat: FlatLogprobs<F>)
      requires Valid() && at != []
      requires forall i :: 0 <= i < |at| ==> at[i] < |startIndices|
      ensures fresh(flat) && IsSliceOf(flat, this, at)
    {
      var lo, hi := startIndices[at[0]], endIndices[at[|at| - 1]];
      flat := new FlatLogprobs<F>.FromLists(
        Shifted(Pick(startIndices, at), lo), Shifted(Pick(endIndices, at), lo),
        PythonSlice(tokenIds, lo, hi), PythonSlice(logprobs, lo, hi), PythonSlice(ranks, lo, hi),
        PythonSlice(decodedTokens, lo, hi));
    }
  }

  /** The lists of a slice. */
  ghost predicate IsSliceOf<F>(flat: FlatLogprobs<F>, whole: FlatLogprobs<F>, at: seq<nat>)
    requires whole.Valid() && at != [] && forall i :: 0 <= i < |at| ==> at[i] < |whole.startIndices|
    reads flat, whole
  {
    var lo, hi := whole.startIndices[at[0]], whole.endIndices[at[|at| - 1]];
    && flat.startIndices == Shifted(Pick(whole.startIndices, at), lo)
    && flat.endIndices == Shifted(Pick(whole.endIndices, at), lo)
    && flat.tokenIds == PythonSlice(whole.tokenIds, lo, hi)
    && flat.logprobs == PythonSlice(whole.logprobs, lo, hi)
    && flat.ranks == PythonSlice(whole.ranks, lo, hi)
    && flat.decodedTokens == PythonSlice(whole.decodedTokens, lo, hi)
  }

  /** What a slice of some positions stands for, or how its positions read. */
  ghost predicate MeansSlice<F>(flat: FlatLogprobs<F>, whole: FlatLogprobs<F>, at: seq<nat>, step: int)
    requires whole.Valid() && forall i :: 0 <= i < |at| ==> at[i] < |whole.startIndices|
    reads flat, whole
  {
    && flat.Aligned() && |flat.startIndices| == |at|
    && (step > 0 || |at| == 1 ==> flat.Valid() && flat.Dicts() == Pick(whole.Dicts(), at))
    && (step == 1 && whole.Contiguous() ==> flat.Contiguous())
    && (step < 0 && |at| > 1 ==>
          forall i :: 0 <= i < |at| ==> flat.Reads(i) == if whole.HasRows(at[i]) then None else Some(map[]))
  }

  lemma SliceMeans<F>(flat: FlatLogprobs<F>, whole: FlatLogprobs<F>, at: seq<nat>, step: int)
    requires whole.Valid() && at != [] && forall i :: 0 <= i < |at| ==> at[i] < |whole.startIndices|
    requires IsSliceOf(flat, whole, at) && step != 0 && (if step > 0 then Ascending(at) else Descending(at))
    requires step == 1 ==> AreNeighbours(at)
    ensures MeansSlice(flat, whole, at, step)
  {
    if step > 0 || |at| == 1 {
      ForwardSliceStands(flat, whole, at);
    } else {
      forall i | 0 <= i < |at| ensures flat.Reads(i) == if whole.HasRows(at[i]) then None else Some(map[]) {
        BackwardSliceReads(flat, whole, at, i);
      }
    }
  }

  /** A slice that goes up stands for the slice of the list. */
  lemma ForwardSliceStands<F>(flat: FlatLogprobs<F>, whole: FlatLogprobs<F>, at: seq<nat>)
    requires whole.Valid() && at != [] && forall i :: 0 <= i < |at| ==> at[i] < |whole.startIndices|
    requires IsSliceOf(flat, whole, at) && Ascending(at)
    ensures flat.Valid() && flat.Dicts() == Pick(whole.Dicts(), at)
    ensures whole.Contiguous() && AreNeighbours(at) ==> flat.Contiguous()
  {
    var lo, hi := whole.startIndices[at[0]], whole.endIndices[at[|at| - 1]];
    SliceRows(whole.Rows(), whole.startIndices, whole.endIndices, at);
    ZipOfSlices(whole.tokenIds, whole.logprobs, whole.ranks, whole.decodedTokens, lo, hi);
    assert flat.Rows() == whole.Rows()[lo..hi];
    if whole.Contiguous() && AreNeighbours(at) {
      SliceIsContiguous(whole.startIndices, whole.endIndices, |whole.logprobs|, at);
    }
  }

  /** A slice that goes down over several positions has no rows, so a position can be read
      exactly when it has none. */
  lemma BackwardSliceReads<F>(flat: FlatLogprobs<F>, whole: FlatLogprobs<F>, at: seq<nat>, i: nat)
    requires whole.Valid() && at != [] && forall i :: 0 <= i < |at| ==> at[i] < |whole.startIndices|
    requires IsSliceOf(flat, whole, at) && Descending(at) && |at| > 1 && i < |at|
    ensures flat.Aligned() && flat.Reads(i) == if whole.HasRows(at[i]) then None else Some(map[])
  {
    ReadNoRows(flat.Rows(), flat.startIndices[i], flat.endIndices[i]);
  }

  /** xs[lo:hi] for bounds that are not negative. */
  function PythonSlice<T>(xs: seq<T>, lo: nat, hi: nat): seq<T>
    requires lo <= |xs| && hi <= |xs|
  {
    if lo <= hi then xs[lo..hi] else []
  }

  lemma {:induction false} StaysUnread<F>(rows: seq<Item<F>>, lo: int, i: int, hi: int)
    requires i <= hi && ReadRows(rows, lo, i) == None
    ensures ReadRows(rows, lo, hi) == None
    decreases hi - i
  {
    if i < hi {
      StaysUnread(rows, lo, i, hi - 1);
    }
  }

  lemma ZipOfSlices<F>(
    tokens: seq<int>, logprobs: seq<F>, ranks: seq<Option<int>>, decoded: seq<Option<string>>, lo: nat, hi: nat)
    requires lo <= hi <= |tokens| == |logprobs| == |ranks| == |decoded|
    ensures Zip(tokens[lo..hi], logprobs[lo..hi], ranks[lo..hi], decoded[lo..hi], hi - lo) ==
              Zip(tokens, logprobs, ranks, decoded, |tokens|)[lo..hi]
  {
  }

  lemma SelectedAreNeighbours(start: Option<int>, stop: Option<int>, n: nat)
    ensures AreNeighbours(Selected(start, stop, 1, n))
  {
    RangeOfNeighbours(if start.None? then 0 else Clamp(start.value, n), if stop.None? then n else Clamp(stop.value, n));
  }

  // ----- what a position holds -----------------------------------------------------

  /** Exactly the tokens of the items are there, each as its last item says. */
  ghost predicate HoldsLast<F>(dict: Dict<F>, items: seq<Item<F>>) {
    && (forall x :: x in dict <==> exists k :: 0 <= k < |items| && items[k].token == x)
    && (forall k :: 0 <= k < |items| && IsLast(items, k) ==> items[k].token in dict && dict[items[k].token] == items[k].info)
  }

  ghost predicate IsLast<F>(items: seq<Item<F>>, k: nat)
    requires k < |items|
  {
    forall j :: k < j < |items| ==> items[j].token != items[k].token
  }

  lemma {:induction false} TokenIsInDict<F>(items: seq<Item<F>>, x: int)
    ensures x in DictOf(items) <==> exists k :: 0 <= k < |items| && items[k].token == x
  {
    if items != [] {
      var n := |items| - 1;
      TokenIsInDict(items[..n], x);
      if k :| 0 <= k < n && items[..n][k].token == x {
        assert items[k].token == x;
      }
      if k :| 0 <= k < |items| && items[k].token == x {
        assert k == n || items[..n][k].token == x;
      }
    }
  }

  lemma {:induction false} LastItemCounts<F>(items: seq<Item<F>>, k: nat)
    requires k < |items| && IsLast(items, k)
    ensures items[k].token in DictOf(items) && DictOf(items)[items[k].token] == items[k].info
  {
    var n := |items| - 1;
    if k < n {
      assert items[n].token != items[k].token;
      assert items[..n][k] == items[k] && IsLast(items[..n], k);
      LastItemCounts(items[..n], k);
    }
  }

  lemma DictHoldsLast<F>(items: seq<Item<F>>)
    ensures HoldsLast(DictOf(items), items)
  {
    forall x ensures x in DictOf(items) <==> exists k :: 0 <= k < |items| && items[k].token == x {
      TokenIsInDict(items, x);
    }
    forall k | 0 <= k < |items| && IsLast(items, k)
      ensures items[k].token in DictOf(items) && DictOf(items)[items[k].token] == items[k].info
    {
      LastItemCounts(items, k);
    }
  }

  /** The number of rows of the next position: as many as asked for, -1 standing for all, next
      to the one of the sampled token, and not more than there are tokens, values or decoded
      tokens. */
  function NumRows(tokens: nat, values: nat, decoded: nat, numLogprobs: int): nat {
    var asked := if numLogprobs == -1 then values else if numLogprobs < 0 then 0 else numLogprobs;
    Min(Min(tokens, values), Min(decoded, asked + 1))
  }

  /** The first row has the rank of the sampled token, and row k the rank k; of rows with one
      token the last one counts. */
  ghost predicate IsNextPosition<F>(
    dict: Dict<F>, tokens: seq<int>, values: seq<F>, decoded: seq<Option<string>>, rank: int, numLogprobs: int)
  {
    var n := NumRows(|tokens|, |values|, |decoded|, numLogprobs);
    && (forall x :: x in dict <==> exists k :: 0 <= k < n && tokens[k] == x)
    && (forall k :: 0 <= k < n && tokens[k] !in tokens[k + 1..n] ==>
          tokens[k] in dict && dict[tokens[k]] == Logprob(values[k], Some(if k == 0 then rank else k), decoded[k]))
  }

  // ----- runs ----------------------------------------------------------------------

  /** The rank of the sampled token, and then the ranks from one on. */
  function RanksFor(rank: int, numLogprobs: int, numValues: nat): seq<Option<int>> {
    var num := if numLogprobs == -1 then numValues else numLogprobs;
    [Some(rank)] + seq(if num < 0 then 0 else num, i => Some(i + 1))
  }

  datatype Op<F> =
    | Append(position: Option<seq<Item<F>>>)
    | Extend(positions: seq<Option<seq<Item<F>>>>)
    | AppendFast(tokens: seq<int>, values: seq<F>, ranks: seq<Option<int>>, decoded: seq<Option<string>>)
    | AppendNext(tokens: seq<int>, values: seq<F>, decoded: seq<Option<string>>, rank: int, numLogprobs: int)
    | Slice(start: Option<int>, stop: Option<int>, step: int)

  function FastDict<F>(tokens: seq<int>, values: seq<F>, ranks: seq<Option<int>>, decoded: seq<Option<string>>): Dict<F> {
    DictOf(Zip(tokens, values, ranks, decoded, Min(Min(|tokens|, |values|), Min(|ranks|, |decoded|))))
  }

  /** What becomes of a list: an operation may raise on the flat container, or it may slice
      several positions backwards, after which the container does not stand for a list. */
  datatype ListResult<F> = Raises | Backwards | List(list: seq<Dict<F>>)

  /** The operation on a list of dictionaries. */
  function ListStep<F>(list: seq<Dict<F>>, op: Op<F>): ListResult<F> {
    match op
    case Append(position) => List(list + [DictOf(ItemsOf(position))])
    case Extend(positions) => List(list + DictsOfPositions(positions))
    case AppendFast(tokens, values, ranks, decoded) => List(list + [FastDict(tokens, values, ranks, decoded)])
    case AppendNext(tokens, values, decoded, rank, numLogprobs) =>
      List(list + [FastDict(tokens, values, RanksFor(rank, numLogprobs, |values|), decoded)])
    case Slice(start, stop, step) =>
      if step == 0 then Raises
      else
        var at := Selected(start, stop, step, |list|);
        if at == [] then Raises else if step < 0 && |at| > 1 then Backwards else List(Pick(list, at))
  }

  /** The next position holds the rows of the tokens with their ranks. */
  lemma NextPositionHasRanks<F>(list: seq<Dict<F>>, op: Op<F>)
    requires op.AppendNext?
    ensures
      var r := ListStep(list, op);
      && r.List? && |r.list| == |list| + 1 && r.list[..|list|] == list
      && IsNextPosition(r.list[|list|], op.tokens, op.values, op.decoded, op.rank, op.numLogprobs)
  {
    var ranks := RanksFor(op.rank, op.numLogprobs, |op.values|);
    var n := Min(Min(|op.tokens|, |op.values|), Min(|ranks|, |op.decoded|));
    var items := Zip(op.tokens, op.values, ranks, op.decoded, n);
    RanksOfRows(op.rank, op.numLogprobs, |op.values|);
    DictHoldsLast(items);
    RowsHold(DictOf(items), items, op.tokens, op.values, op.decoded, op.rank, op.numLogprobs);
  }

  lemma RanksOfRows(rank: int, numLogprobs: int, numValues: nat)
    ensures
      var ranks := RanksFor(rank, numLogprobs, numValues);
      && |ranks| == 1 + (if numLogprobs == -1 then numValues else if numLogprobs < 0 then 0 else numLogprobs)
      && forall k :: 0 <= k < |ranks| ==> ranks[k] == Some(if k == 0 then rank else k)
  {
  }

  lemma RowsHold<F>(
    dict: Dict<F>, items: seq<Item<F>>, tokens: seq<int>, values: seq<F>, decoded: seq<Option<string>>,
    rank: int, numLogprobs: int)
    requires HoldsLast(dict, items) && |items| == NumRows(|tokens|, |values|, |decoded|, numLogprobs)
    requires forall k :: 0 <= k < |items| ==>
               items[k] == Item(tokens[k], Logprob(values[k], Some(if k == 0 then rank else k), decoded[k]))
    ensures IsNextPosition(dict, tokens, values, decoded, rank, numLogprobs)
  {
    var n := |items|;
    forall x ensures x in dict <==> exists k :: 0 <= k < n && tokens[k] == x {
      if k :| 0 <= k < n && tokens[k] == x {
        assert items[k].token == x;
      }
    }
    forall k | 0 <= k < n && tokens[k] !in tokens[k + 1..n] ensures IsLast(items, k) {
      forall j | k < j < n ensures items[j].token != items[k].token {
        assert tokens[k + 1..n][j - k - 1] == tokens[j];
      }
    }
  }

  function ListRun<F>(ops: seq<Op<F>>): ListResult<F> {
    if ops == [] then List([])
    else
      var before := ListRun(ops[..|ops| - 1]);
      if before.List? then ListStep(before.list, ops[|ops| - 1]) else before
  }

  /** One operation on the flat container. */
  method FlatStep<F>(flat: FlatLogprobs<F>, op: Op<F>) returns (r: Option<FlatLogprobs<F>>)
    requires flat.Valid()
    modifies flat
    ensures
      var list := ListStep(old(flat.Dicts()), op);
      && (r.None? <==> list.Raises?)
      && (list.List? ==> r.value.Valid() && r.value.Dicts() == list.list)
    ensures ListStep(old(flat.Dicts()), op).List? && old(flat.Contiguous()) && (op.Slice? ==> op.step == 1) ==>
              r.value.Contiguous()
    ensures r.Some? ==> r.value == flat || fresh(r.value)
    ensures op.AppendNext? ==>
              && r.Some? && r.value.Valid() && |r.value.Dicts()| == |old(flat.Dicts())| + 1
              && IsNextPosition(
                   r.value.Dicts()[|old(flat.Dicts())|], op.tokens, op.values, op.decoded, op.rank, op.numLogprobs)
    ensures ListStep(old(flat.Dicts()), op).Backwards? <==>
              r.Some? && op.Slice? && op.step < 0 && |r.value.startIndices| > 1
  {
    if op.AppendNext? {
      NextPositionHasRanks(flat.Dicts(), op);
    }
    r := Some(flat);
    match op
    case Append(position) => flat.Append(position);
    case Extend(positions) => flat.Extend(positions);
    case AppendFast(tokens, values, ranks, decoded) => flat.AppendFast(tokens, values, ranks, decoded);
    case AppendNext(tokens, values, decoded, rank, numLogprobs) =>
      flat.AppendFast(tokens, values, RanksFor(rank, numLogprobs, |values|), decoded);
    case Slice(start, stop, step) => r := flat.Slice(start, stop, step);
  }

  /** Any run on the flat container gives, position by position, the dictionaries of the same
      run on a list, up to the first operation that raises or slices backwards; it raises
      exactly at a slice with a step of zero or one that selects nothing. */
  method FlatRun<F>(ops: seq<Op<F>>) returns (r: Option<FlatLogprobs<F>>)
    ensures r.None? <==> ListRun(ops).Raises?
    ensures ListRun(ops).List? ==> r.value.Valid() && r.value.Dicts() == ListRun(ops).list
    ensures ListRun(ops).List? && (forall i :: 0 <= i < |ops| && ops[i].Slice? ==> ops[i].step == 1) ==>
              r.value.Contiguous()
  {
    var flat := new FlatLogprobs<F>();
    r := Some(flat);
    for i := 0 to |ops|
      invariant r.Some? && ListRun(ops[..i]).List?
      invariant fresh(r.value) && r.value.Valid() && r.value.Dicts() == ListRun(ops[..i]).list
      invariant (forall j :: 0 <= j < i && ops[j].Slice? ==> ops[j].step == 1) ==> r.value.Contiguous()
    {
      assert ops[..i + 1][..i] == ops[..i];
      ghost var list := ListStep(r.value.Dicts(), ops[i]);
      r := FlatStep(r.value, ops[i]);
      assert ListRun(ops[..i + 1]) == list;
      if r.None? || (ops[i].Slice? && ops[i].step < 0 && |r.value.startIndices| > 1) {
        StaysEnded(ops, i + 1);
        return;
      }
    }
    assert ops[..|ops|] == ops;
  }

  lemma {:induction false} StaysEnded<F>(ops: seq<Op<F>>, i: nat)
    requires i <= |ops| && !ListRun(ops[..i]).List?
    ensures ListRun(ops) == ListRun(ops[..i])
    decreases |ops| - i
  {
    if i < |ops| {
      assert ops[..i + 1][..i] == ops[..i];
      StaysEnded(ops, i + 1);
    } else {
      assert ops[..i] == ops;
    }
  }

  /** A list has an empty slice where the flat container raises. */
  method EmptySliceRaises() returns (flat: FlatLogprobs<real>, r: Option<FlatLogprobs<real>>)
    ensures flat.Valid() && flat.Dicts() == [map[]] && Selected(Some(0), Some(0), 1, |flat.Dicts()|) == []
    ensures r.None?
  {
    flat := new FlatLogprobs<real>();
    flat.Append(None);
    assert |flat.Dicts()| == 1 && Selected(Some(0), Some(0), 1, 1) == [];
    r := flat.Slice(Some(0), Some(0), 1);
  }

  /** Two positions with one token each, sliced backwards, cannot be read any more. */
  method BackwardSliceCannotBeRead()
    returns (flat: FlatLogprobs<real>, back: FlatLogprobs<real>, r: Option<Dict<real>>)
    ensures flat.Valid() && flat.Dicts() == [map[7 := Logprob(0.0, None, None)], map[7 := Logprob(0.0, None, None)]]
    ensures Selected(None, None, -1, 2) == [1, 0] && MeansSlice(back, flat, [1, 0], -1)
    ensures back.Aligned() && back.Reads(0) == r && r.None?
  {
    flat := TwoPositions();
    SelectTwoBackwards();
    var slice := flat.Slice(None, None, -1);
    back := slice.value;
    r := back.GetItem(0);
  }

  method TwoPositions() returns (flat: FlatLogprobs<real>)
    ensures fresh(flat) && flat.Valid()
    ensures flat.Dicts() == [map[7 := Logprob(0.0, None, None)], map[7 := Logprob(0.0, None, None)]]
    ensures |flat.Dicts()| == 2 && flat.HasRows(1)
  {
    flat := new FlatLogprobs<real>();
    var item := Item(7, Logprob(0.0, None, None));
    flat.Append(Some([item]));
    flat.Append(Some([item]));
    DictOfOne(item);
    assert 7 in flat.Dicts()[1];
    EmptyRangeEmptyDict(flat, 1);
  }

  lemma DictOfOne<F>(item: Item<F>)
    ensures DictOf([item]) == map[item.token := item.info]
  {
    assert [item][..0] == [];
  }

  lemma EmptyRangeEmptyDict<F>(flat: FlatLogprobs<F>, k: nat)
    requires flat.Valid() && k < |flat.startIndices|
    ensures !flat.HasRows(k) ==> flat.Dicts()[k] == map[]
  {
  }

  lemma SelectTwoBackwards()
    ensures Selected(None, None, -1, 2) == [1, 0]
  {
    assert RangeDown(0, -1, 1) == [0] + RangeDown(-1, -1, 1);
  }
}
