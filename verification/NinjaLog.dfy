/**
  Reading a ninja log.  The reader keeps the steps of the last build only: it throws its
  targets away when an end time goes backwards, or when a command turns up again with
  other times.  Splitting a line into its fields is outside this model.
 */
module NinjaLog {
  import opened Basics


  class Target {
    const start: real
    const end: real
    var targets: seq<string>
    var weightedDuration: real

    constructor (start: real, end: real)
      ensures this.start == start && this.end == end && targets == [] && weightedDuration == 0.0
    {
      this.start, this.end := start, end;
      targets, weightedDuration := [], 0.0;
    }
  }

  datatype Line =
    | Corrupt   // not five fields
    | Record(start: real, end: real, name: string, hash: string)

  type Record = r: Line | r.Record? witness Record(0.0, 0.0, "", "")

  function Records(lines: seq<Line>): seq<Record> {
    if lines == [] then []
    else
      var n := |lines| - 1;
      if lines[n].Record? then Records(lines[..n]) + [lines[n]] else Records(lines[..n])
  }

  lemma RecordsOfPrefix(lines: seq<Line>, i: nat)
    requires i < |lines|
    ensures Records(lines[..i + 1]) == if lines[i].Record? then Records(lines[..i]) + [lines[i]] else Records(lines[..i])
  {
    assert lines[..i + 1][..i] == lines[..i];
  }

  // ----- builds --------------------------------------------------------------------

  /** Records of one build: ends never go back, and a command has the same times always. */
  ghost predicate OneBuild(recs: seq<Record>) {
    forall i, j :: 0 <= i < j < |recs| ==>
      && recs[i].end <= recs[j].end
      && (recs[i].hash == recs[j].hash ==> recs[i].start == recs[j].start && recs[i].end == recs[j].end)
  }

  ghost function Flatten(builds: seq<seq<Record>>): seq<Record> {
    if builds == [] then [] else Flatten(builds[..|builds| - 1]) + builds[|builds| - 1]
  }

  /** A log cut into builds, none of which could have taken the first record of the next. */
  ghost predicate AreBuilds(recs: seq<Record>, builds: seq<seq<Record>>) {
    && Flatten(builds) == recs
    && (forall k :: 0 <= k < |builds| ==> builds[k] != [] && OneBuild(builds[k]))
    && (forall k, j :: 0 <= k < |builds| && j == k + 1 < |builds| ==> !OneBuild(builds[k] + [builds[j][0]]))
  }

  ghost function LastBuild(recs: seq<Record>): (r: seq<Record>)
  {
    if recs == [] then []
    else
      var n := |recs| - 1;
      var before := LastBuild(recs[..n]);
      if OneBuild(before + [recs[n]]) then before + [recs[n]] else [recs[n]]
  }

  /** The last build is a suffix of the log, and one build. */
  lemma {:induction false} LastBuildIsSuffix(recs: seq<Record>) returns (before: seq<Record>)
    ensures recs == before + LastBuild(recs)
    ensures OneBuild(LastBuild(recs)) && (recs != [] ==> LastBuild(recs) != [])
  {
    before := [];
    if recs != [] {
      var n := |recs| - 1;
      var init := LastBuildIsSuffix(recs[..n]);
      assert recs == recs[..n] + [recs[n]];
      before := if OneBuild(LastBuild(recs[..n]) + [recs[n]]) then init else recs[..n];
    }
  }

  /** Every log has a cut into builds ... */
  lemma {:induction false} BuildsExist(recs: seq<Record>) returns (builds: seq<seq<Record>>)
    ensures AreBuilds(recs, builds)
  {
    if recs == [] {
      builds := [];
    } else {
      var n := |recs| - 1;
      var before := BuildsExist(recs[..n]);
      var k := |before| - 1;
      assert recs == recs[..n] + [recs[n]];
      if before != [] && OneBuild(before[k] + [recs[n]]) {
        builds := LastBuildTakes(recs[..n], before, recs[n]);
      } else {
        builds := NewBuildTakes(recs[..n], before, recs[n]);
      }
    }
  }

  lemma LastBuildTakes(recs: seq<Record>, builds: seq<seq<Record>>, r: Record) returns (builds': seq<seq<Record>>)
    requires AreBuilds(recs, builds) && builds != [] && OneBuild(builds[|builds| - 1] + [r])
    ensures AreBuilds(recs + [r], builds')
  {
    var k := |builds| - 1;
    builds' := builds[..k] + [builds[k] + [r]];
    assert builds'[..k] == builds[..k];
  }

  lemma NewBuildTakes(recs: seq<Record>, builds: seq<seq<Record>>, r: Record) returns (builds': seq<seq<Record>>)
    requires AreBuilds(recs, builds) && (builds == [] || !OneBuild(builds[|builds| - 1] + [r]))
    ensures AreBuilds(recs + [r], builds')
  {
    builds' := builds + [[r]];
    assert builds'[..|builds|] == builds;
  }

  /** ... and the last build of any such cut is the last build. */
  lemma {:induction false} LastBuildOfAnyCut(recs: seq<Record>, builds: seq<seq<Record>>)
    requires AreBuilds(recs, builds)
    ensures LastBuild(recs) == if builds == [] then [] else builds[|builds| - 1]
    decreases |builds|
  {
    if builds != [] {
      var k := |builds| - 1;
      CutWithoutLast(recs, builds);
      LastBuildOfAnyCut(Flatten(builds[..k]), builds[..k]);
      assert k > 0 ==> !OneBuild(builds[k - 1] + [builds[k][0]]);
      LastBuildGrows(Flatten(builds[..k]), builds[k], |builds[k]|);
      assert builds[k][..|builds[k]|] == builds[k];
    }
  }

  lemma CutWithoutLast(recs: seq<Record>, builds: seq<seq<Record>>)
    requires AreBuilds(recs, builds) && builds != []
    ensures AreBuilds(Flatten(builds[..|builds| - 1]), builds[..|builds| - 1])
  {
  }

  lemma {:induction false} LastBuildGrows(init: seq<Record>, last: seq<Record>, m: nat)
    requires OneBuild(last) && 1 <= m <= |last|
    requires LastBuild(init) == [] || !OneBuild(LastBuild(init) + [last[0]])
    ensures LastBuild(init + last[..m]) == last[..m]
  {
    if m > 1 {
      LastBuildGrows(init, last, m - 1);
      PrefixIsOneBuild(last, m);
      AppendRecord(init + last[..m - 1], last[m - 1]);
      TakeOneMore(init, last, m);
    } else {
      AppendRecord(init, last[0]);
      assert last[..1] == [last[0]];
      assert [] + [last[0]] == [last[0]];
    }
  }

  lemma TakeOneMore<T>(init: seq<T>, last: seq<T>, m: nat)
    requires 1 <= m <= |last|
    ensures last[..m] == last[..m - 1] + [last[m - 1]]
    ensures init + last[..m] == init + last[..m - 1] + [last[m - 1]]
  {
  }

  lemma PrefixIsOneBuild(recs: seq<Record>, m: nat)
    requires OneBuild(recs) && m <= |recs|
    ensures OneBuild(recs[..m])
  {
  }

  lemma AppendRecord(recs: seq<Record>, r: Record)
    ensures LastBuild(recs + [r]) == if OneBuild(LastBuild(recs) + [r]) then LastBuild(recs) + [r] else [r]
  {
    assert (recs + [r])[..|recs|] == recs;
  }

  // ----- grouping by command -------------------------------------------------------

  datatype Group = Group(start: real, end: real, names: seq<string>)

  /** The groups after one more record. */
  function Add(groups: map<string, Group>, r: Record): map<string, Group> {
    groups[r.hash :=
      if r.hash in groups then groups[r.hash].(names := groups[r.hash].names + [r.name])
      else Group(r.start, r.end, [r.name])]
  }

  function GroupsOf(recs: seq<Record>): map<string, Group> {
    if recs == [] then map[] else Add(GroupsOf(recs[..|recs| - 1]), recs[|recs| - 1])
  }

  /** The commands in the order in which they first turn up. */
  function Commands(recs: seq<Record>): seq<string> {
    if recs == [] then []
    else
      var n := |recs| - 1;
      var before := Commands(recs[..n]);
      if recs[n].hash in before then before else before + [recs[n].hash]
  }

  /** The names of the records of a command, in order. */
  function NamesOf(recs: seq<Record>, hash: string): seq<string> {
    if recs == [] then []
    else
      var n := |recs| - 1;
      if recs[n].hash == hash then NamesOf(recs[..n], hash) + [recs[n].name] else NamesOf(recs[..n], hash)
  }

  ghost predicate IsFirst(recs: seq<Record>, hash: string, i: int) {
    0 <= i < |recs| && recs[i].hash == hash && forall j :: 0 <= j < i ==> recs[j].hash != hash
  }

  /** There is a group for every command and no other.  It has all the names of the command
      and the times of its first record. */
  lemma {:induction false} GroupIsOfCommand(recs: seq<Record>, hash: string)
    ensures hash in GroupsOf(recs) <==> exists i :: 0 <= i < |recs| && recs[i].hash == hash
    ensures hash in GroupsOf(recs) ==>
              var g := GroupsOf(recs)[hash];
              && g.names == NamesOf(recs, hash)
              && exists i :: IsFirst(recs, hash, i) && recs[i].start == g.start && recs[i].end == g.end
    ensures hash !in GroupsOf(recs) ==> NamesOf(recs, hash) == []
  {
    if recs != [] {
      var n := |recs| - 1;
      GroupIsOfCommand(recs[..n], hash);
      if hash in GroupsOf(recs[..n]) {
        var i :| IsFirst(recs[..n], hash, i) && recs[..n][i].start == GroupsOf(recs[..n])[hash].start
                 && recs[..n][i].end == GroupsOf(recs[..n])[hash].end;
        assert IsFirst(recs, hash, i) && recs[i] == recs[..n][i];
      } else if recs[n].hash == hash {
        forall j | 0 <= j < n ensures recs[j].hash != hash {
          assert recs[..n][j] == recs[j];
        }
        assert IsFirst(recs, hash, n);
      }
    }
  }

  /** The commands are the keys of the groups, each once. */
  lemma {:induction false} CommandsAreKeys(recs: seq<Record>)
    ensures forall h :: h in Commands(recs) <==> h in GroupsOf(recs)
    ensures forall i, j :: 0 <= i < j < |Commands(recs)| ==> Commands(recs)[i] != Commands(recs)[j]
  {
    if recs != [] {
      CommandsAreKeys(recs[..|recs| - 1]);
    }
  }

  function CountNames(recs: seq<Record>, hashes: seq<string>): nat {
    if hashes == [] then 0 else CountNames(recs, hashes[..|hashes| - 1]) + |NamesOf(recs, hashes[|hashes| - 1])|
  }

  /** Every record gives one name to one command. */
  lemma {:induction false} EveryNameOnce(recs: seq<Record>)
    ensures CountNames(recs, Commands(recs)) == |recs|
  {
    if recs != [] {
      var n := |recs| - 1;
      EveryNameOnce(recs[..n]);
      CommandsAreKeys(recs[..n]);
      var before, h := Commands(recs[..n]), recs[n].hash;
      CountOneMore(recs, before);
      if h !in before {
        GroupIsOfCommand(recs[..n], h);
        assert (before + [h])[..|before|] == before;
      }
    }
  }

  lemma {:induction false} CountOneMore(recs: seq<Record>, hashes: seq<string>)
    requires recs != []
    requires forall i, j :: 0 <= i < j < |hashes| ==> hashes[i] != hashes[j]
    ensures
      var n := |recs| - 1;
      CountNames(recs, hashes) == CountNames(recs[..n], hashes) + if recs[n].hash in hashes then 1 else 0
  {
    if hashes != [] {
      CountOneMore(recs, hashes[..|hashes| - 1]);
    }
  }

  // ----- the order of what is read -------------------------------------------------

  predicate IsRecord(line: Line) {
    line.Record?
  }

  /** The records at some positions. */
  ghost predicate AreRecordsAt(lines: seq<Line>, recs: seq<Record>, at: seq<nat>) {
    && ArePositions(at, |lines|) && |at| == |recs|
    && forall k :: 0 <= k < |at| ==> lines[at[k]] == recs[k]
  }

  lemma RecordsLonger(lines: seq<Line>, recs: seq<Record>, at: seq<nat>)
    requires lines != [] && AreRecordsAt(lines[..|lines| - 1], recs, at)
    ensures AreRecordsAt(lines, recs, at)
    ensures lines[|lines| - 1].Record? ==> AreRecordsAt(lines, recs + [lines[|lines| - 1]], at + [|lines| - 1])
  {
    OnePositionMore(at, |lines| - 1);
    forall k | 0 <= k < |at| ensures lines[at[k]] == recs[k] {
      assert lines[..|lines| - 1][at[k]] == recs[k];
    }
  }

  /** The records are the lines with five fields, in order. */
  lemma {:induction false} RecordsComeInOrder(lines: seq<Line>) returns (at: seq<nat>)
    ensures AreRecordsAt(lines, Records(lines), at) && ListsAll(lines, IsRecord, at)
  {
    at := [];
    if lines != [] {
      var n := |lines| - 1;
      at := RecordsComeInOrder(lines[..n]);
      RecordsLonger(lines, Records(lines[..n]), at);
      ListsOneMore(lines, IsRecord, at);
      at := if lines[n].Record? then at + [n] else at;
    }
  }

  function HasHash(hash: string): Record -> bool {
    (r: Record) => r.hash == hash
  }

  /** The names of the records at some positions. */
  ghost predicate AreNamesAt(recs: seq<Record>, hash: string, names: seq<string>, at: seq<nat>) {
    && ArePositions(at, |recs|) && |at| == |names|
    && forall k :: 0 <= k < |at| ==> recs[at[k]].hash == hash && recs[at[k]].name == names[k]
  }

  lemma NamesLonger(recs: seq<Record>, hash: string, names: seq<string>, at: seq<nat>)
    requires recs != [] && AreNamesAt(recs[..|recs| - 1], hash, names, at)
    ensures AreNamesAt(recs, hash, names, at)
    ensures
      var n := |recs| - 1;
      recs[n].hash == hash ==> AreNamesAt(recs, hash, names + [recs[n].name], at + [n])
  {
    OnePositionMore(at, |recs| - 1);
    forall k | 0 <= k < |at| ensures recs[at[k]].hash == hash && recs[at[k]].name == names[k] {
      assert recs[..|recs| - 1][at[k]] == recs[at[k]];
    }
  }

  /** The names of a command are those of its records, in order. */
  lemma {:induction false} NamesComeInOrder(recs: seq<Record>, hash: string) returns (at: seq<nat>)
    ensures AreNamesAt(recs, hash, NamesOf(recs, hash), at) && ListsAll(recs, HasHash(hash), at)
  {
    at := [];
    if recs != [] {
      var n := |recs| - 1;
      at := NamesComeInOrder(recs[..n], hash);
      NamesLonger(recs, hash, NamesOf(recs[..n], hash), at);
      ListsOneMore(recs, HasHash(hash), at);
      at := if recs[n].hash == hash then at + [n] else at;
    }
  }

  /** The commands come in the order of their first records. */
  lemma {:induction false} CommandsComeInOrder(recs: seq<Record>) returns (at: seq<nat>)
    ensures ArePositions(at, |recs|) && |at| == |Commands(recs)|
    ensures forall k :: 0 <= k < |at| ==> IsFirst(recs, Commands(recs)[k], at[k])
  {
    at := [];
    if recs != [] {
      var n := |recs| - 1;
      var hash := recs[n].hash;
      var before := CommandsComeInOrder(recs[..n]);
      OnePositionMore(before, n);
      FirstInLonger(recs, Commands(recs[..n]), before);
      if hash in Commands(recs[..n]) {
        at := before;
      } else {
        CommandsAreKeys(recs[..n]);
        GroupIsOfCommand(recs[..n], hash);
        forall j | 0 <= j < n ensures recs[j].hash != hash {
          assert recs[..n][j] == recs[j];
        }
        assert IsFirst(recs, hash, n);
        at := before + [n];
      }
    }
  }

  lemma FirstInLonger(recs: seq<Record>, hashes: seq<string>, at: seq<nat>)
    requires recs != [] && |at| == |hashes|
    requires forall k :: 0 <= k < |at| ==> IsFirst(recs[..|recs| - 1], hashes[k], at[k])
    ensures forall k :: 0 <= k < |at| ==> IsFirst(recs, hashes[k], at[k])
  {
    forall k | 0 <= k < |at| ensures IsFirst(recs, hashes[k], at[k]) {
      assert IsFirst(recs[..|recs| - 1], hashes[k], at[k]);
      assert forall j :: 0 <= j <= at[k] ==> recs[..|recs| - 1][j] == recs[j];
    }
  }

  // ----- the reader ----------------------------------------------------------------

  /** The records that the reader keeps. */
  ghost function Kept(recs: seq<Record>, showAll: bool): seq<Record> {
    if showAll then recs else LastBuild(recs)
  }

  /** A record belongs to the build exactly when its end is not before the last one and its
      command, if seen, had the same times. */
  lemma ExtendsBuild(recs: seq<Record>, r: Record)
    requires OneBuild(recs) && recs != []
    ensures
      var groups := GroupsOf(recs);
      OneBuild(recs + [r]) <==>
        && recs[|recs| - 1].end <= r.end
        && (r.hash in groups ==> groups[r.hash].start == r.start && groups[r.hash].end == r.end)
  {
    GroupIsOfCommand(recs, r.hash);
    OneRecordMore(recs, r);
    if r.hash in GroupsOf(recs) {
      var i :| IsFirst(recs, r.hash, i)
               && recs[i].start == GroupsOf(recs)[r.hash].start && recs[i].end == GroupsOf(recs)[r.hash].end;
    }
  }

  lemma OneRecordMore(recs: seq<Record>, r: Record)
    requires OneBuild(recs)
    ensures OneBuild(recs + [r]) <==>
              forall i :: 0 <= i < |recs| ==>
                && recs[i].end <= r.end
                && (recs[i].hash == r.hash ==> recs[i].start == r.start && recs[i].end == r.end)
  {
    var longer := recs + [r];
    assert longer[|recs|] == r && forall i :: 0 <= i < |recs| ==> longer[i] == recs[i];
  }

  /** The end time goes back, or the command has been seen with other times. */
  ghost predicate IsNewBuild(kept: seq<Record>, r: Record) {
    && kept != []
    && (|| r.end < kept[|kept| - 1].end
        || (r.hash in GroupsOf(kept) && (GroupsOf(kept)[r.hash].start != r.start || GroupsOf(kept)[r.hash].end != r.end)))
  }

  /** How the kept records change with one more record. */
  lemma KeepRecord(recs: seq<Record>, r: Record, showAll: bool)
    ensures
      var kept := Kept(recs, showAll);
      Kept(recs + [r], showAll) == (if !showAll && IsNewBuild(kept, r) then [] else kept) + [r]
  {
    if !showAll {
      var _ := LastBuildIsSuffix(recs);
      AppendRecord(recs, r);
      if LastBuild(recs) != [] {
        ExtendsBuild(LastBuild(recs), r);
      }
    }
  }

  /** The dictionary holds an object of its own for every group. */
  ghost predicate Holds(dict: map<string, Target>, groups: map<string, Group>)
    reads dict.Values
  {
    && dict.Keys == groups.Keys
    && (forall h, h' :: h in dict && h' in dict && h != h' ==> dict[h] != dict[h'])
    && forall h :: h in dict ==> HoldsGroup(dict[h], groups[h])
  }

  ghost predicate HoldsGroup(target: Target, g: Group)
    reads target
  {
    target.start == g.start && target.end == g.end && target.targets == g.names && target.weightedDuration == 0.0
  }

  /** Adds one record to the target of its command, making the target when there is none. */
  method AddRecord(dict: map<string, Target>, r: Record, ghost groups: map<string, Group>)
    returns (dict': map<string, Target>)
    requires Holds(dict, groups)
    modifies dict.Values
    ensures Holds(dict', Add(groups, r))
    ensures forall h :: h in dict' ==> (h in dict && dict'[h] == dict[h]) || fresh(dict'[h])
  {
    dict' := dict;
    var target;
    if r.hash in dict {
      target := dict[r.hash];
    } else {
      target := new Target(r.start, r.end);
      dict' := dict[r.hash := target];
    }
    target.targets := target.targets + [r.name];
  }

  /** The targets of these records, in the order of their commands. */
  ghost predicate AreTargets(result: seq<Target>, recs: seq<Record>)
    reads result
  {
    && |result| == |Commands(recs)|
    && (forall i, j :: 0 <= i < j < |result| ==> result[i] != result[j])
    && forall k :: 0 <= k < |result| ==>
         Commands(recs)[k] in GroupsOf(recs) && HoldsGroup(result[k], GroupsOf(recs)[Commands(recs)[k]])
  }

  /** The state of the reader after these records. */
  ghost predicate HasRead(dict: map<string, Target>, order: seq<string>, lastEnd: real, kept: seq<Record>)
    reads dict.Values
  {
    && Holds(dict, GroupsOf(kept))
    && order == Commands(kept)
    && (kept != [] ==> lastEnd == kept[|kept| - 1].end)
  }

  lemma OneMoreRecord(kept: seq<Record>, r: Record)
    ensures GroupsOf(kept + [r]) == Add(GroupsOf(kept), r)
    ensures Commands(kept + [r]) == if r.hash in GroupsOf(kept) then Commands(kept) else Commands(kept) + [r.hash]
  {
    assert (kept + [r])[..|kept|] == kept;
    CommandsAreKeys(kept);
  }

  /** Throws the targets away when the record is of a new build. */
  method DropOlder(
    dict: map<string, Target>, order: seq<string>, lastEnd: real, r: Record, showAll: bool, ghost kept: seq<Record>)
    returns (dict': map<string, Target>, order': seq<string>, ghost kept': seq<Record>)
    requires HasRead(dict, order, lastEnd, kept)
    ensures kept' == if !showAll && IsNewBuild(kept, r) then [] else kept
    ensures Holds(dict', GroupsOf(kept')) && order' == Commands(kept')
    ensures dict' == dict || dict' == map[]
  {
    dict', order', kept' := dict, order, kept;
    if !showAll && r.end < lastEnd {
      dict', order', kept' := map[], [], [];
    }
    if r.hash in dict' {
      var target := dict'[r.hash];
      if !showAll && (target.start != r.start || target.end != r.end) {
        dict', order', kept' := map[], [], [];
      }
    }
  }

  /** One well-formed line. */
  method ReadRecord(
    dict: map<string, Target>, order: seq<string>, lastEnd: real, r: Record, showAll: bool, ghost recs: seq<Record>)
    returns (dict': map<string, Target>, order': seq<string>, lastEnd': real)
    requires HasRead(dict, order, lastEnd, Kept(recs, showAll))
    modifies dict.Values
    ensures HasRead(dict', order', lastEnd', Kept(recs + [r], showAll))
    ensures forall h :: h in dict' ==> (h in dict && dict'[h] == dict[h]) || fresh(dict'[h])
  {
    ghost var kept;
    dict', order', kept := DropOlder(dict, order, lastEnd, r, showAll, Kept(recs, showAll));
    KeepRecord(recs, r, showAll);
    OneMoreRecord(kept, r);
    order' := if r.hash in dict' then order' else order' + [r.hash];
    dict' := AddRecord(dict', r, GroupsOf(kept));
    lastEnd' := r.end;
  }

  method ReadTargets(lines: seq<Line>, showAll: bool) returns (result: seq<Target>)
    ensures AreTargets(result, Kept(Records(lines), showAll))
    ensures forall k :: 0 <= k < |result| ==> fresh(result[k])
  {
    var dict: map<string, Target>, order: seq<string>, lastEnd := map[], [], 0.0;
    for i := 0 to |lines|
      invariant HasRead(dict, order, lastEnd, Kept(Records(lines[..i]), showAll))
      invariant forall h :: h in dict ==> fresh(dict[h])
    {
      RecordsOfPrefix(lines, i);
      if lines[i].Record? {
        dict, order, lastEnd := ReadRecord(dict, order, lastEnd, lines[i], showAll, Records(lines[..i]));
      }
    }
    assert lines[..|lines|] == lines;
    result := Values(dict, order, lastEnd, Kept(Records(lines), showAll));
  }

  /** The values of the dictionary in insertion order. */
  method Values(dict: map<string, Target>, order: seq<string>, ghost lastEnd: real, ghost kept: seq<Record>)
    returns (result: seq<Target>)
    requires HasRead(dict, order, lastEnd, kept)
    ensures AreTargets(result, kept)
    ensures forall k :: 0 <= k < |result| ==> result[k] in dict.Values
  {
    CommandsAreKeys(kept);
    result := seq(|order|, k requires 0 <= k < |order| && order[k] in dict => dict[order[k]]);
  }
}
