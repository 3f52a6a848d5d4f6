/**
 * The partition of the ranked directories at the retention limit and the
 * fail-fast removal sweep over the part beyond it, as values.
 */
module Pruning {
  import opened Entries

  /** The sweep's test for the directory at 1-based position `count`:
      it is removed exactly when its position exceeds the limit. */
  predicate BeyondLimit(count: int, limit: int)
  {
    count > limit
  }

  /** How many of `n` ranked directories are kept under `limit`. A negative
      limit keeps none, like a limit of zero. */
  function KeepCount(n: nat, limit: int): (k: nat)
    ensures k <= n
    ensures forall count :: 1 <= count <= n ==> (BeyondLimit(count, limit) <==> count > k)
  {
    if limit <= 0 then 0 else if limit < n then limit else n
  }

  /** The ranked directories beyond the limit: the candidates for removal. */
  function Doomed(ranked: seq<Entry>, limit: int): seq<Entry>
  {
    ranked[KeepCount(|ranked|, limit)..]
  }

  /** What the sweep did: how many directories it removed, and the error
      that stopped it, if any. */
  datatype Sweep = Sweep(removed: nat, failure: Option<Error>)

  /** The outcome of removing `doomed` front to back when removing any name
      in `failing` fails: the sweep stops at the first such entry. */
  function SweepOutcome(doomed: seq<Entry>, failing: set<string>): (r: Sweep)
    ensures r.removed <= |doomed|
    ensures forall j :: 0 <= j < r.removed ==> doomed[j].name !in failing
    ensures r.failure == None <==> r.removed == |doomed|
    ensures r.failure != None ==>
      doomed[r.removed].name in failing && r.failure == Some(RemovalFailure(doomed[r.removed].name))
  {
    if doomed == [] then Sweep(0, None)
    else if doomed[0].name in failing then Sweep(0, Some(RemovalFailure(doomed[0].name)))
    else
      var rest := SweepOutcome(doomed[1..], failing);
      Sweep(rest.removed + 1, rest.failure)
  }

  /** The sweep's outcome is determined by the first entry that cannot be
      removed: everything before it is removed, and its failure is reported. */
  lemma SweepStopsAtFirstFailure(doomed: seq<Entry>, failing: set<string>, j: nat)
    requires j < |doomed| && doomed[j].name in failing
    requires forall i :: 0 <= i < j ==> doomed[i].name !in failing
    ensures SweepOutcome(doomed, failing) == Sweep(j, Some(RemovalFailure(doomed[j].name)))
  {
  }

  /** When no candidate fails, every candidate is removed and no error is reported. */
  lemma SweepRemovesAll(doomed: seq<Entry>, failing: set<string>)
    requires forall i :: 0 <= i < |doomed| ==> doomed[i].name !in failing
    ensures SweepOutcome(doomed, failing) == Sweep(|doomed|, None)
  {
  }

  /** The names of the entries of `s`, in order. */
  function Names(s: seq<Entry>): (names: seq<string>)
    ensures |names| == |s|
    ensures forall i :: 0 <= i < |s| ==> names[i] == s[i].name
  {
    seq(|s|, i requires 0 <= i < |s| => s[i].name)
  }

  /** The set of names of the entries of `s`. */
  function NameSet(s: seq<Entry>): (names: set<string>)
    ensures forall i :: 0 <= i < |s| ==> s[i].name in names
  {
    set n | n in Names(s)
  }

  /** In a list with distinct names, the name at position `i` belongs to the
      slice `s[lo..hi]` exactly when `i` lies in that slice. */
  lemma NameInSlice(s: seq<Entry>, lo: nat, hi: nat, i: nat)
    requires DistinctNames(s)
    requires lo <= hi <= |s| && i < |s|
    ensures s[i].name in NameSet(s[lo..hi]) <==> lo <= i < hi
  {
    if s[i].name in NameSet(s[lo..hi]) {
      var m :| 0 <= m < hi - lo && Names(s[lo..hi])[m] == s[i].name;
      assert s[lo + m].name == s[i].name;
    }
    if lo <= i < hi {
      assert s[lo..hi][i - lo] == s[i];
    }
  }
}
