/**
 * The children of the target directory as the directory listing reports
 * them, and the filter that keeps only the subdirectories.
 */
module Entries {

  /** One child of the target directory: its base name, whether the listing
      reports it as a directory, and its modification time in Unix seconds. */
  datatype Entry = Entry(name: string, isDir: bool, mtime: int)

  datatype Option<+T> = None | Some(value: T)

  /** The failures the pruner reports to its caller. */
  datatype Error =
    | NotADirectory(path: string)   // the target path is missing or is not a directory
    | ListingFailure(path: string)  // the children of the target could not be enumerated
    | RemovalFailure(name: string)  // removing the named child failed

  /** `sub` is obtained from `s` by deleting some of its elements, so the
      elements it keeps are in their original relative order. */
  ghost predicate IsSubsequence<T>(sub: seq<T>, s: seq<T>)
    decreases |s|
  {
    || sub == []
    || (s != [] && ((sub[0] == s[0] && IsSubsequence(sub[1..], s[1..])) || IsSubsequence(sub, s[1..])))
  }

  /** The subdirectories among `files`, in listing order. */
  function Directories(files: seq<Entry>): (dirs: seq<Entry>)
    ensures |dirs| <= |files|
    ensures forall i :: 0 <= i < |dirs| ==> dirs[i].isDir
  {
    if files == [] then []
    else if files[0].isDir then [files[0]] + Directories(files[1..])
    else Directories(files[1..])
  }

  /** Every directory entry of the listing is kept, as often as it occurs,
      and nothing else is. */
  lemma {:induction false} DirectoriesExactly(files: seq<Entry>)
    ensures forall e :: multiset(Directories(files))[e] == if e.isDir then multiset(files)[e] else 0
  {
    if files != [] {
      assert files == [files[0]] + files[1..];
      DirectoriesExactly(files[1..]);
    }
  }

  /** The kept entries appear in their original relative order. */
  lemma {:induction false} DirectoriesInOrder(files: seq<Entry>)
    ensures IsSubsequence(Directories(files), files)
  {
    if files != [] {
      DirectoriesInOrder(files[1..]);
    }
  }

  /** Filtering distributes over concatenation of listings. */
  lemma {:induction false} DirectoriesAppend(a: seq<Entry>, b: seq<Entry>)
    ensures Directories(a + b) == Directories(a) + Directories(b)
  {
    if a != [] {
      var ab := a + b;
      assert ab[0] == a[0];
      assert ab[1..] == a[1..] + b;
      DirectoriesAppend(a[1..], b);
    } else {
      assert a + b == b;
    }
  }

  /** The filter loop: appends every directory entry to a fresh list. */
  method FilterDirectories(files: seq<Entry>) returns (filtered: seq<Entry>)
    ensures filtered == Directories(files)
  {
    filtered := [];
    for i := 0 to |files|
      invariant filtered == Directories(files[..i])
    {
      DirectoriesAppend(files[..i], [files[i]]);
      assert files[..i + 1] == files[..i] + [files[i]];
      if files[i].isDir {
        filtered := filtered + [files[i]];
      }
    }
    assert files[..|files|] == files;
  }

  /** No two entries of `s` share a name, as in one directory listing. */
  ghost predicate DistinctNames(s: seq<Entry>)
  {
    forall i, j :: 0 <= i < j < |s| ==> s[i].name != s[j].name
  }

  /** Filtering a listing with distinct names keeps the names distinct. */
  lemma {:induction false} DirectoriesKeepNamesDistinct(files: seq<Entry>)
    requires DistinctNames(files)
    ensures DistinctNames(Directories(files))
  {
    if files != [] {
      var rest := files[1..];
      assert DistinctNames(rest) by {
        forall i, j | 0 <= i < j < |rest| ensures rest[i].name != rest[j].name {
          assert rest[i] == files[i + 1] && rest[j] == files[j + 1];
        }
      }
      DirectoriesKeepNamesDistinct(rest);
      if files[0].isDir {
        DirectoriesExactly(rest);
        var d := Directories(rest);
        var r := [files[0]] + d;
        forall i, j | 0 <= i < j < |r| ensures r[i].name != r[j].name {
          if i == 0 {
            assert r[j] in d;
            assert multiset(d)[r[j]] > 0;
            assert r[j] in rest;
            var p :| 0 <= p < |rest| && rest[p] == r[j];
            assert files[p + 1] == r[j];
          } else {
            assert r[i] == d[i - 1] && r[j] == d[j - 1];
          }
        }
      }
    }
  }
}
