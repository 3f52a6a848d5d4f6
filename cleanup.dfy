/**
 * The pruner over the state of one target directory: the removal step,
 * the sweep that keeps the newest subdirectories and removes the rest, and
 * the command that checks the path and reports the result.
 */
module Cleanup {
  import opened Entries
  import opened Ranking
  import opened Pruning
  import opened Messages

  /** `listing` describes `children`: every listed entry is a child with
      exactly these attributes, and no name is listed twice. */
  ghost predicate ListingOf(listing: seq<Entry>, children: map<string, Entry>)
  {
    && DistinctNames(listing)
    && forall i :: 0 <= i < |listing| ==> listing[i].name in children && children[listing[i].name] == listing[i]
  }

  /** One run of the sweep over `listing` with retention `limit`, starting
      from `before` and ending in `after`: `ranked` is the listing's
      directories newest first, the first `KeepCount` of them are kept, the
      rest are removed front to back until one cannot be, and `tried` grows
      by exactly the names handed to the removal step. */
  ghost predicate Pruned(listing: seq<Entry>, limit: int, unremovable: set<string>,
                         before: map<string, Entry>, after: map<string, Entry>,
                         triedBefore: seq<string>, triedAfter: seq<string>,
                         ranked: seq<Entry>, removed: nat, err: Option<Error>)
  {
    && IsRankingOf(ranked, Directories(listing))
    && SweepOutcome(Doomed(ranked, limit), before.Keys * unremovable) == Sweep(removed, err)
    && after == before - NameSet(Doomed(ranked, limit)[..removed])
    && triedAfter == triedBefore + Names(Doomed(ranked, limit)[..removed + if err == None then 0 else 1])
  }

  /** Every ranked entry is a listed directory, and the directory's child
      of that name is that entry. */
  lemma RankedAreListedDirectories(listing: seq<Entry>, children: map<string, Entry>, ranked: seq<Entry>, i: nat)
    requires ListingOf(listing, children)
    requires IsRankingOf(ranked, Directories(listing))
    requires i < |ranked|
    ensures ranked[i].isDir
    ensures ranked[i].name in children && children[ranked[i].name] == ranked[i]
  {
    DirectoriesExactly(listing);
    assert ranked[i] in multiset(ranked);
    assert multiset(Directories(listing))[ranked[i]] > 0;
    assert ranked[i] in multiset(listing);
    var p :| 0 <= p < |listing| && listing[p] == ranked[i];
  }

  /** The run reports no error exactly when it removed all directories
      beyond the limit: `max(0, n - limit)` of the `n` subdirectories for a
      non-negative limit, all of them for a negative one. That happens
      whenever no directory beyond the limit is unremovable; an unremovable
      file or kept directory does not matter. */
  lemma PrunedCount(listing: seq<Entry>, limit: int, unremovable: set<string>,
                    before: map<string, Entry>, after: map<string, Entry>,
                    triedBefore: seq<string>, triedAfter: seq<string>,
                    ranked: seq<Entry>, removed: nat, err: Option<Error>)
    requires Pruned(listing, limit, unremovable, before, after, triedBefore, triedAfter, ranked, removed, err)
    ensures var n := |Directories(listing)|;
      err == None <==> removed == if limit < 0 then n else if n > limit then n - limit else 0
    ensures (forall i :: KeepCount(|ranked|, limit) <= i < |ranked| ==> ranked[i].name !in before.Keys * unremovable)
            ==> err == None
  {
    assert |ranked| == |multiset(ranked)| == |multiset(Directories(listing))| == |Directories(listing)|;
    var doomed := Doomed(ranked, limit);
    if forall i :: KeepCount(|ranked|, limit) <= i < |ranked| ==> ranked[i].name !in before.Keys * unremovable {
      SweepRemovesAll(doomed, before.Keys * unremovable);
    }
  }

  /** Entries that are not directories are never removed, whatever the
      limit and however the sweep ends. */
  lemma PrunedKeepsNonDirectories(listing: seq<Entry>, limit: int, unremovable: set<string>,
                                  before: map<string, Entry>, after: map<string, Entry>,
                                  triedBefore: seq<string>, triedAfter: seq<string>,
                                  ranked: seq<Entry>, removed: nat, err: Option<Error>)
    requires Pruned(listing, limit, unremovable, before, after, triedBefore, triedAfter, ranked, removed, err)
    requires ListingOf(listing, before)
    ensures forall n :: n in before && !before[n].isDir ==> n in after && after[n] == before[n]
  {
    var doomed := Doomed(ranked, limit);
    forall n | n in before && !before[n].isDir ensures n in after && after[n] == before[n] {
      if n in NameSet(doomed[..removed]) {
        var m :| 0 <= m < removed && Names(doomed[..removed])[m] == n;
        RankedAreListedDirectories(listing, before, ranked, KeepCount(|ranked|, limit) + m);
      }
    }
  }

  /** A listing with distinct names ranks into a list with distinct names. */
  lemma RankedNamesDistinct(listing: seq<Entry>, ranked: seq<Entry>)
    requires DistinctNames(listing)
    requires IsRankingOf(ranked, Directories(listing))
    ensures DistinctNames(ranked)
  {
    DirectoriesKeepNamesDistinct(listing);
    RankingKeepsNamesDistinct(ranked, Directories(listing));
  }

  /** Of the ranked directories, exactly those at positions `k + 1` to
      `k + removed` (1-based, `k` the number kept) are gone afterwards; the
      first `k`, the one whose removal failed and all after it remain as
      they were. */
  lemma PrunedRemovesExactlyTheSweptSlice(listing: seq<Entry>, limit: int, unremovable: set<string>,
                                          before: map<string, Entry>, after: map<string, Entry>,
                                          triedBefore: seq<string>, triedAfter: seq<string>,
                                          ranked: seq<Entry>, removed: nat, err: Option<Error>)
    requires Pruned(listing, limit, unremovable, before, after, triedBefore, triedAfter, ranked, removed, err)
    requires ListingOf(listing, before)
    ensures var k := KeepCount(|ranked|, limit);
      forall i :: 0 <= i < |ranked| ==>
        && (ranked[i].name in after <==> !(k <= i < k + removed))
        && (ranked[i].name in after ==> after[ranked[i].name] == ranked[i])
  {
    var k := KeepCount(|ranked|, limit);
    RankedNamesDistinct(listing, ranked);
    assert k + removed <= |ranked|;
    assert Doomed(ranked, limit)[..removed] == ranked[k..k + removed];
    var gone := NameSet(ranked[k..k + removed]);
    assert after == before - gone;
    forall i | 0 <= i < |ranked|
      ensures ranked[i].name in after <==> !(k <= i < k + removed)
      ensures ranked[i].name in after ==> after[ranked[i].name] == ranked[i]
    {
      RankedAreListedDirectories(listing, before, ranked, i);
      NameInSlice(ranked, k, k + removed, i);
      assert ranked[i].name in gone <==> k <= i < k + removed;
    }
  }

  /** The removal step is handed exactly the directories at positions
      beyond the limit, in rank order, up to and including the first that
      fails: the kept ones and those after a failure are never attempted. */
  lemma PrunedAttemptsOnlyBeyondLimit(listing: seq<Entry>, limit: int, unremovable: set<string>,
                                      before: map<string, Entry>, after: map<string, Entry>,
                                      triedBefore: seq<string>, triedAfter: seq<string>,
                                      ranked: seq<Entry>, removed: nat, err: Option<Error>)
    requires Pruned(listing, limit, unremovable, before, after, triedBefore, triedAfter, ranked, removed, err)
    requires DistinctNames(listing)
    ensures |triedAfter| >= |triedBefore|
    ensures forall i :: 0 <= i < |ranked| ==>
      (ranked[i].name in triedAfter[|triedBefore|..] <==>
       KeepCount(|ranked|, limit) <= i < KeepCount(|ranked|, limit) + removed + if err == None then 0 else 1)
  {
    var k := KeepCount(|ranked|, limit);
    var attempts := removed + if err == None then 0 else 1;
    RankedNamesDistinct(listing, ranked);
    var tried := Names(Doomed(ranked, limit)[..attempts]);
    assert triedAfter[|triedBefore|..] == tried;
    assert Doomed(ranked, limit)[..attempts] == ranked[k..k + attempts];
    forall i | 0 <= i < |ranked| ensures ranked[i].name in tried <==> k <= i < k + attempts {
      NameInSlice(ranked, k, k + attempts, i);
    }
  }

  /** `listing` describes `children` and leaves no subdirectory out. */
  ghost predicate CompleteListingOf(listing: seq<Entry>, children: map<string, Entry>)
  {
    && ListingOf(listing, children)
    && forall n :: n in children && children[n].isDir ==> exists i :: 0 <= i < |listing| && listing[i].name == n
  }

  /** A prefix of `s` has at most as many names as entries, and exactly as
      many when the names of `s` are distinct. */
  lemma {:induction false} NameSetSize(s: seq<Entry>, n: nat)
    requires n <= |s|
    ensures |NameSet(s[..n])| <= n
    ensures DistinctNames(s) ==> |NameSet(s[..n])| == n
  {
    if n == 0 {
      assert NameSet(s[..0]) == {};
    } else {
      NameSetSize(s, n - 1);
      NamesGrow(s, n - 1);
      if DistinctNames(s) {
        var names := Names(s[..n - 1]);
        forall m | 0 <= m < n - 1 ensures names[m] != s[n - 1].name {
          assert names[m] == s[m].name;
        }
        assert s[n - 1].name !in NameSet(s[..n - 1]);
      }
    }
  }

  /** A subset is no larger than its superset. */
  lemma {:induction false} SubsetSize(a: set<string>, b: set<string>)
    requires a <= b
    ensures |a| <= |b|
  {
    if a != {} {
      var x :| x in a;
      SubsetSize(a - {x}, b - {x});
    }
  }

  /** After a run that removed every directory beyond the first `k`, each
      subdirectory a later listing shows is one of those `k`. */
  lemma SurvivorsWereKept(listing1: seq<Entry>, before: map<string, Entry>, ranked1: seq<Entry>, k: nat,
                          mid: map<string, Entry>, listing2: seq<Entry>, ranked2: seq<Entry>)
    requires CompleteListingOf(listing1, before)
    requires IsRankingOf(ranked1, Directories(listing1))
    requires k <= |ranked1|
    requires mid == before - NameSet(ranked1[k..])
    requires ListingOf(listing2, mid)
    requires IsRankingOf(ranked2, Directories(listing2))
    ensures NameSet(ranked2) <= NameSet(ranked1[..k])
  {
    RankedNamesDistinct(listing1, ranked1);
    DirectoriesExactly(listing1);
    forall n | n in NameSet(ranked2) ensures n in NameSet(ranked1[..k]) {
      var i :| 0 <= i < |ranked2| && Names(ranked2)[i] == n;
      RankedAreListedDirectories(listing2, mid, ranked2, i);
      assert n in before && before[n] == ranked2[i];
      var p :| 0 <= p < |listing1| && listing1[p].name == n;
      assert listing1[p] == ranked2[i];
      assert listing1[p] in multiset(ranked1);
      var q :| 0 <= q < |ranked1| && ranked1[q] == listing1[p];
      NameInSlice(ranked1, k, |ranked1|, q);
      assert ranked1[..k][q] == ranked1[q];
    }
  }

  /** Running the sweep again with the same limit, after a run in which
      every removal succeeded, removes and attempts nothing: at most the
      kept directories are left, and they are all within the limit. */
  lemma PruneAgainRemovesNothing(limit: int, unremovable: set<string>,
                                 listing1: seq<Entry>, before: map<string, Entry>, mid: map<string, Entry>,
                                 tried0: seq<string>, tried1: seq<string>, ranked1: seq<Entry>, removed1: nat,
                                 listing2: seq<Entry>, after: map<string, Entry>,
                                 tried2: seq<string>, ranked2: seq<Entry>, removed2: nat, err2: Option<Error>)
    requires CompleteListingOf(listing1, before)
    requires Pruned(listing1, limit, unremovable, before, mid, tried0, tried1, ranked1, removed1, None)
    requires ListingOf(listing2, mid)
    requires Pruned(listing2, limit, unremovable, mid, after, tried1, tried2, ranked2, removed2, err2)
    ensures removed2 == 0 && err2 == None
    ensures after == mid && tried2 == tried1
  {
    var k1 := KeepCount(|ranked1|, limit);
    assert mid == before - NameSet(ranked1[k1..]) by {
      assert Doomed(ranked1, limit)[..removed1] == ranked1[k1..];
    }
    assert |ranked2| <= k1 by {
      SurvivorsWereKept(listing1, before, ranked1, k1, mid, listing2, ranked2);
      RankedNamesDistinct(listing2, ranked2);
      NameSetSize(ranked2, |ranked2|);
      NameSetSize(ranked1, k1);
      assert ranked2[..|ranked2|] == ranked2;
      SubsetSize(NameSet(ranked2), NameSet(ranked1[..k1]));
    }
    var doomed2 := Doomed(ranked2, limit);
    assert doomed2 == [];
    assert NameSet([]) == {} && Names([]) == [];
  }

  /** The directory the tests prune: the subdirectories `directory` and
      `directory1`, the latter the more recently modified, and the regular
      file `file`, listed by name. The modification times are illustrative;
      only their order matters. */
  const OlderDirectory := Entry("directory", true, 1_600_000_100)
  const NewerDirectory := Entry("directory1", true, 1_600_000_200)
  const PlainFile := Entry("file", false, 1_600_000_300)
  const FixtureListing := [OlderDirectory, NewerDirectory, PlainFile]
  const FixtureChildren := map[OlderDirectory.name := OlderDirectory, NewerDirectory.name := NewerDirectory, PlainFile.name := PlainFile]

  /** The fixture holds two subdirectories (cleanup_test.go expects two). */
  lemma FixtureDirectories()
    ensures Directories(FixtureListing) == [OlderDirectory, NewerDirectory]
  {
    assert FixtureListing[1..] == [NewerDirectory, PlainFile];
    assert FixtureListing[1..][1..] == [PlainFile];
    assert Directories([PlainFile]) == [];
  }

  /** The fixture's listing describes its children. */
  lemma FixtureListingMatches()
    ensures ListingOf(FixtureListing, FixtureChildren)
  {
    var n1, n2, n3 := OlderDirectory.name, NewerDirectory.name, PlainFile.name;
    assert n1 != n2 by { assert |n1| != |n2|; }
    assert n3 != n1 && n3 != n2 by { assert n3[0] != n1[0] && n3[0] != n2[0]; }
    assert FixtureChildren[n1] == OlderDirectory && FixtureChildren[n2] == NewerDirectory && FixtureChildren[n3] == PlainFile;
  }

  /** Two directories with different modification times have one ranking. */
  lemma RankingOfTwo(ranked: seq<Entry>, newer: Entry, older: Entry)
    requires newer.mtime > older.mtime
    requires IsRankingOf(ranked, [older, newer])
    ensures ranked == [newer, older]
  {
    assert |ranked| == |multiset(ranked)| == 2;
    assert ranked[0] in multiset([older, newer]) && ranked[1] in multiset([older, newer]);
  }

  /** The test's expectations: limits 2, 1 and 0 remove 0, 1 and 2
      directories, with no error. */
  lemma FixtureCounts(limit: int, after: map<string, Entry>, tried: seq<string>,
                      ranked: seq<Entry>, removed: nat, err: Option<Error>)
    requires 0 <= limit <= 2
    requires Pruned(FixtureListing, limit, {}, FixtureChildren, after, [], tried, ranked, removed, err)
    ensures err == None && removed == 2 - limit
  {
    FixtureDirectories();
    PrunedCount(FixtureListing, limit, {}, FixtureChildren, after, [], tried, ranked, removed, err);
  }

  /** With limit 1 the newer `directory1` is the one kept, as the test
      checks, `directory` is removed and the file survives. */
  lemma FixtureKeepsNewest(after: map<string, Entry>, tried: seq<string>,
                           ranked: seq<Entry>, removed: nat, err: Option<Error>)
    requires Pruned(FixtureListing, 1, {}, FixtureChildren, after, [], tried, ranked, removed, err)
    ensures NewerDirectory.name in after && OlderDirectory.name !in after && PlainFile.name in after
  {
    FixtureDirectories();
    RankingOfTwo(ranked, NewerDirectory, OlderDirectory);
    FixtureCounts(1, after, tried, ranked, removed, err);
    FixtureListingMatches();
    PrunedKeepsNonDirectories(FixtureListing, 1, {}, FixtureChildren, after, [], tried, ranked, removed, err);
    PrunedRemovesExactlyTheSweptSlice(FixtureListing, 1, {}, FixtureChildren, after, [], tried, ranked, removed, err);
  }

  /** Extending a slice by one entry adds that entry's name. */
  lemma NamesGrow(s: seq<Entry>, n: nat)
    requires n < |s|
    ensures Names(s[..n + 1]) == Names(s[..n]) + [s[n].name]
    ensures NameSet(s[..n + 1]) == NameSet(s[..n]) + {s[n].name}
  {
    assert s[..n + 1] == s[..n] + [s[n]];
    assert Names(s[..n + 1]) == Names(s[..n]) + [s[n].name];
  }

  /** A name the sweep has already removed successfully cannot be one that
      fails, and a name still present that is not unremovable does not fail
      either: so a successful removal is of a name outside `failing`. */
  lemma SucceededNotFailing(doomed: seq<Entry>, removed: nat, failing: set<string>,
                            before: map<string, Entry>, unremovable: set<string>)
    requires removed < |doomed|
    requires failing == before.Keys * unremovable
    requires forall j :: 0 <= j < removed ==> doomed[j].name !in failing
    requires !(doomed[removed].name in before - NameSet(doomed[..removed]) && doomed[removed].name in unremovable)
    ensures forall j :: 0 <= j <= removed ==> doomed[j].name !in failing
  {
    var name := doomed[removed].name;
    if name in NameSet(doomed[..removed]) {
      var m :| 0 <= m < removed && Names(doomed[..removed])[m] == name;
      assert doomed[m].name == name;
    }
  }

  /** Removing the names of a slice and then one more name is removing the
      names of the slice grown by one. */
  lemma MinusGrows(m: map<string, Entry>, names: set<string>, name: string)
    ensures (m - names) - {name} == m - (names + {name})
  {
  }

  class TargetDirectory {
    /** The path given on the command line. */
    const path: string
    /** Whether the path exists and is a directory, as a stat call reports it. */
    const isDirectory: bool
    /** The children of the directory, by name. */
    var children: map<string, Entry>
    /** The children whose recursive removal fails (permissions, a busy mount, ...). */
    const unremovable: set<string>
    /** Every name handed to the removal step so far, in order. */
    ghost var attempted: seq<string>

    constructor (path: string, isDirectory: bool, children: map<string, Entry>, unremovable: set<string>)
      ensures this.path == path && this.isDirectory == isDirectory
      ensures this.children == children && this.unremovable == unremovable
      ensures attempted == []
    {
      this.path := path;
      this.isDirectory := isDirectory;
      this.children := children;
      this.unremovable := unremovable;
      attempted := [];
    }

    /** Recursively removes the child `name`. Removing a name that is not a
        child succeeds and changes nothing; removing an unremovable child
        fails and leaves it in place. */
    method Remove(name: string) returns (err: Option<Error>)
      modifies this`children, this`attempted
      ensures attempted == old(attempted) + [name]
      ensures err == if name in old(children) && name in unremovable then Some(RemovalFailure(name)) else None
      ensures children == if err == None then old(children) - {name} else old(children)
    {
      attempted := attempted + [name];
      if name in children && name in unremovable {
        err := Some(RemovalFailure(name));
      } else {
        children := children - {name};
        err := None;
      }
    }

    /** Lists the directory (`listed` is what the listing call returned, or
        None when it failed), ranks its subdirectories newest first, keeps
        the first `limit` and removes the rest until a removal fails.
        Returns the number removed and the error that stopped the run. */
    method HandleDirectory(listed: Option<seq<Entry>>, limit: int)
      returns (removed: nat, err: Option<Error>, ghost ranked: seq<Entry>)
      modifies this`children, this`attempted
      ensures listed == None ==>
        && removed == 0 && err == Some(ListingFailure(path))
        && children == old(children) && attempted == old(attempted)
      ensures listed != None ==>
        Pruned(listed.value, limit, unremovable, old(children), children, old(attempted), attempted, ranked, removed, err)
    {
      ranked := [];
      if listed == None {
        return 0, Some(ListingFailure(path)), [];
      }
      var directories := FilterDirectories(listed.value);
      var a := new Entry[|directories|](i requires 0 <= i < |directories| => directories[i]);
      assert a[..] == directories;
      SortByModTime(a);
      ranked := a[..];
      removed, err := RemoveBeyondLimit(a[..], limit);
    }

    /** The loop over the ranked directories: counts positions from 1 and
        removes each directory whose position exceeds `limit`, returning
        early with the count so far when a removal fails. */
    method RemoveBeyondLimit(ranked: seq<Entry>, limit: int) returns (removed: nat, err: Option<Error>)
      modifies this`children, this`attempted
      ensures SweepOutcome(Doomed(ranked, limit), old(children).Keys * unremovable) == Sweep(removed, err)
      ensures children == old(children) - NameSet(Doomed(ranked, limit)[..removed])
      ensures attempted == old(attempted) + Names(Doomed(ranked, limit)[..removed + if err == None then 0 else 1])
    {
      ghost var k := KeepCount(|ranked|, limit);
      ghost var doomed := Doomed(ranked, limit);
      ghost var failing := children.Keys * unremovable;
      var count := 0;
      removed := 0;
      for i := 0 to |ranked|
        invariant count == i
        invariant i <= k ==> removed == 0
        invariant k < i ==> removed == i - k
        invariant forall j :: 0 <= j < removed ==> doomed[j].name !in failing
        invariant children == old(children) - NameSet(doomed[..removed])
        invariant attempted == old(attempted) + Names(doomed[..removed])
      {
        count := count + 1;
        assert BeyondLimit(count, limit) <==> k <= i;
        if BeyondLimit(count, limit) {
          var name := ranked[i].name;
          assert name == doomed[removed].name;
          NamesGrow(doomed, removed);
          err := Remove(name);
          if err != None {
            SweepStopsAtFirstFailure(doomed, failing, removed);
            assert attempted == old(attempted) + Names(doomed[..removed + 1]);
            return;
          }
          SucceededNotFailing(doomed, removed, failing, old(children), unremovable);
          MinusGrows(old(children), NameSet(doomed[..removed]), name);
          removed := removed + 1;
        }
      }
      SweepRemovesAll(doomed, failing);
      err := None;
    }

    /** The command: rejects a path that is not a directory, runs the sweep,
        and turns its count into the line to print. */
    method RunCommand(limit: int, listed: Option<seq<Entry>>)
      returns (text: string, err: Option<Error>, ghost removed: nat, ghost ranked: seq<Entry>)
      modifies this`children, this`attempted
      ensures err != None ==> text == ""
      ensures err == None ==> text == Message(removed)
      ensures !isDirectory ==>
        && removed == 0 && err == Some(NotADirectory(path))
        && ProgramErrorText(err.value) == Some(NotADirectoryMessage(path))
        && children == old(children) && attempted == old(attempted)
      ensures isDirectory && listed == None ==>
        && removed == 0 && err == Some(ListingFailure(path))
        && children == old(children) && attempted == old(attempted)
      ensures isDirectory && listed != None ==>
        Pruned(listed.value, limit, unremovable, old(children), children, old(attempted), attempted, ranked, removed, err)
    {
      if !isDirectory {
        return "", Some(NotADirectory(path)), 0, [];
      }
      var n;
      n, err, ranked := HandleDirectory(listed, limit);
      removed := n;
      if err != None {
        return "", err, removed, ranked;
      }
      if n > 0 {
        if n == 1 {
          text := SingleRemoval;
        } else {
          text := CountPrefix + Decimal(n) + CountSuffix;
        }
      } else {
        text := "";
      }
    }
  }
}
