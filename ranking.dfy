/**
 * Ranking the subdirectories by recency: the in-place sort of the
 * directory list by modification time, most recent first.
 */
module Ranking {
  import opened Entries

  /** Modification times never increase along `s`: the newest entry comes first. */
  ghost predicate NewestFirst(s: seq<Entry>)
  {
    forall i, j :: 0 <= i < j < |s| ==> s[i].mtime >= s[j].mtime
  }

  /** `ranked` holds exactly the entries of `dirs`, newest first. Nothing is
      said about the order of entries with equal modification times: the
      sort that produces it is not a stable sort. */
  ghost predicate IsRankingOf(ranked: seq<Entry>, dirs: seq<Entry>)
  {
    multiset(ranked) == multiset(dirs) && NewestFirst(ranked)
  }

  /** Sorts `a` in place, most recently modified first (insertion sort; any
      algorithm that meets this contract models the library sort). */
  method SortByModTime(a: array<Entry>)
    modifies a
    ensures IsRankingOf(a[..], old(a[..]))
  {
    for i := 0 to a.Length
      invariant NewestFirst(a[..i])
      invariant multiset(a[..]) == multiset(old(a[..]))
    {
      Insert(a, i);
    }
    assert a[..a.Length] == a[..];
  }

  /** Moves `a[i]` left past every older entry of the ranked prefix `a[..i]`. */
  method Insert(a: array<Entry>, i: nat)
    requires i < a.Length
    requires NewestFirst(a[..i])
    modifies a
    ensures NewestFirst(a[..i + 1])
    ensures multiset(a[..]) == multiset(old(a[..]))
  {
    var j := i;
    while j > 0 && a[j - 1].mtime < a[j].mtime
      invariant 0 <= j <= i
      invariant multiset(a[..]) == multiset(old(a[..]))
      invariant forall p, q :: 0 <= p < q <= i && p != j && q != j ==> a[p].mtime >= a[q].mtime
      invariant forall q :: j < q <= i ==> a[j].mtime > a[q].mtime
    {
      Swap(a, j - 1, j);
      j := j - 1;
    }
  }

  /** Exchanges two elements of `a`. */
  method Swap(a: array<Entry>, p: nat, q: nat)
    requires p < q < a.Length
    modifies a
    ensures a[p] == old(a[q]) && a[q] == old(a[p])
    ensures forall m :: 0 <= m < a.Length && m != p && m != q ==> a[m] == old(a[m])
    ensures multiset(a[..]) == multiset(old(a[..]))
  {
    a[p], a[q] := a[q], a[p];
  }

  /** Two entries at distinct positions of `s` when `x` occurs at least twice. */
  lemma {:induction false} TwoOccurrences(s: seq<Entry>, x: Entry)
    requires multiset(s)[x] >= 2
    ensures exists p, q :: 0 <= p < q < |s| && s[p] == x && s[q] == x
  {
    assert s != [];
    assert s == [s[0]] + s[1..];
    if s[0] == x {
      assert x in multiset(s[1..]);
      var q :| 0 <= q < |s[1..]| && s[1..][q] == x;
      assert s[q + 1] == x;
    } else {
      TwoOccurrences(s[1..], x);
      var p, q :| 0 <= p < q < |s[1..]| && s[1..][p] == x && s[1..][q] == x;
      assert s[p + 1] == x && s[q + 1] == x;
    }
  }

  /** Reordering a list whose names are distinct keeps them distinct. */
  lemma RankingKeepsNamesDistinct(ranked: seq<Entry>, dirs: seq<Entry>)
    requires multiset(ranked) == multiset(dirs)
    requires DistinctNames(dirs)
    ensures DistinctNames(ranked)
  {
    forall i, j | 0 <= i < j < |ranked| ensures ranked[i].name != ranked[j].name {
      if ranked[i] == ranked[j] {
        assert multiset(ranked)[ranked[i]] >= 2 by {
          assert ranked == ranked[..j] + [ranked[j]] + ranked[j + 1..];
          assert ranked[i] in ranked[..j];
        }
        TwoOccurrences(dirs, ranked[i]);
      } else {
        assert ranked[i] in multiset(dirs) && ranked[j] in multiset(dirs);
        var p :| 0 <= p < |dirs| && dirs[p] == ranked[i];
        var q :| 0 <= q < |dirs| && dirs[q] == ranked[j];
        assert p != q;
      }
    }
  }

  /** Cutting a ranking at `k` splits the directories into a kept prefix
      and a removed suffix; every kept entry is at least as recent as every
      removed one, so the kept ones are the `k` most recently modified. */
  lemma RankingPartition(ranked: seq<Entry>, dirs: seq<Entry>, k: nat)
    requires IsRankingOf(ranked, dirs)
    requires k <= |ranked|
    ensures multiset(ranked[..k]) + multiset(ranked[k..]) == multiset(dirs)
    ensures forall kept, gone :: kept in ranked[..k] && gone in ranked[k..] ==> kept.mtime >= gone.mtime
  {
    assert ranked == ranked[..k] + ranked[k..];
    forall kept, gone | kept in ranked[..k] && gone in ranked[k..] ensures kept.mtime >= gone.mtime {
      var p :| 0 <= p < k && ranked[..k][p] == kept;
      var q :| 0 <= q < |ranked| - k && ranked[k..][q] == gone;
      assert ranked[p] == kept && ranked[k + q] == gone;
    }
  }
}
