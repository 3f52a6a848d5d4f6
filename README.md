# cleanup — a verified model of the retention pruner

`cleanup` keeps the newest subdirectories of a directory and deletes the
rest. Given a path and a retention limit K, it checks that the path is a
directory and lists its children. It keeps only the subdirectories and sorts
them by modification time (Unix seconds), newest first. It keeps the first
K and removes every later one, in rank order. The sweep stops at the first
removal that fails and reports how many were removed before it. The
command turns the count into a line: nothing for zero,
`Removed a single directory.` for one, `Removed N directories.` otherwise.

The model has five modules, one per stage of that pipeline:

- `Entries` (entries.dfy): a listed child (`Entry`: name, directory flag,
  modification time), the error kinds, and the filter that keeps the
  subdirectories. The filter is a function plus the loop that builds it.
- `Ranking` (ranking.dfy): the in-place sort of the directory array, newest
  first. It is specified only as "a permutation whose times never increase".
  The library sort is not stable, so nothing is said about entries with
  equal times.
- `Pruning` (pruning.dfy): the keep/remove boundary (`KeepCount`) and the
  fail-fast sweep as a value (`SweepOutcome`).
- `Messages` (messages.dfy): the decimal rendering of the count, the result
  line, and a reader that recovers the count from a line.
- `Cleanup` (cleanup.dfy): the class `TargetDirectory`. It holds the target's
  children as a map from name to entry, which the removal step updates in
  place. Its methods are `Remove`, `HandleDirectory` (with its loop
  `RemoveBeyondLimit`) and `RunCommand`. The ghost predicate `Pruned` states
  a whole run. The lemmas about `Pruned` state what a run guarantees.

The three pieces of I/O are abstracted as follows, and a ghost log is added:
- The stat check is the constant field `isDirectory`.
- The directory listing is the parameter `listed`: the entries, or `None`
  when listing failed.
- Recursive removal is `Remove`. It deletes one key of the children map. It
  fails, leaving the child in place, for a child in the field `unremovable`.
  Removing a name that is not a child succeeds and changes nothing, as
  `os.RemoveAll` does for a missing path.
- The ghost field `attempted` logs every name handed to `Remove`, so the
  contracts can say which removals were never attempted.

## Model

| member | source | states |
|---|---|---|
| `Entries.Directories` | cleanup.go:37-47 | the filtered list is no longer than the listing and holds only directories |
| `Entries.DirectoriesExactly` | cleanup.go:37-47 | every directory entry of the listing is kept as often as it occurs, and no other entry is |
| `Entries.DirectoriesInOrder` | cleanup.go:37-47 | the kept entries are a subsequence of the listing: their relative order is preserved |
| `Entries.DirectoriesAppend` | cleanup.go:40-44 | filtering distributes over concatenation, which is what makes the append loop correct |
| `Entries.FilterDirectories` | cleanup.go:37-47 | the append loop returns exactly the filtered list |
| `Entries.DirectoriesKeepNamesDistinct` | cleanup.go:37-47 | filtering a listing whose names are distinct leaves the names distinct |
| `Ranking.SortByModTime` | cleanup.go:61-63 | after the in-place sort the array is a permutation of its old contents and modification times never increase along it |
| `Ranking.RankingKeepsNamesDistinct` | cleanup.go:61-63 | reordering a list with distinct names keeps them distinct |
| `Ranking.RankingPartition` | cleanup.go:61-69 | cutting the ranking at k splits the directories into kept and removed parts, and every kept directory is at least as recent as every removed one |
| `Pruning.KeepCount` | cleanup.go:65-68 | at most n are kept, and the directory at 1-based position `count` is removed exactly when `count > limit`, i.e. when it lies beyond the kept prefix |
| `Pruning.SweepOutcome` | cleanup.go:65-77 | the sweep removes a prefix of the candidates, none of which fails; it reports no error exactly when it removed all of them, and otherwise reports the removal error of the first candidate that fails |
| `Pruning.SweepStopsAtFirstFailure` | cleanup.go:69-73 | if candidate j is the first that fails, the outcome is j removed with that candidate's error |
| `Pruning.SweepRemovesAll` | cleanup.go:65-77 | if no candidate fails, all are removed and no error is reported |
| `Messages.Decimal` | cleanup.go:95 | the numeral of the count is non-empty and all digits, with no leading zero unless the count is 0 |
| `Messages.DecimalRoundTrip` | cleanup.go:95 | reading the numeral back gives the count |
| `Messages.Message` | cleanup.go:91-99 | the line is empty exactly when nothing was removed |
| `Messages.MessageRoundTrip` | cleanup.go:91-99 | the count can be read back from every line, so different counts give different lines |
| `Messages.MessageExamples` | cleanup_test.go:156-158 | 0, 1 and 2 removals give the lines the test expects ("", "Removed a single directory.", "Removed 2 directories."); 12 gives "Removed 12 directories.", a two-digit count |
| `Messages.NotADirectoryMessageInjective` | cleanup.go:81-83 | different paths give different error texts |
| `Messages.ProgramErrorTextInjective` | cleanup.go:81-83 | two errors with the same program-made text are the same error, so the text identifies the rejected path |
| `Messages.NotADirectoryExample` | cleanup_test.go:155 | the path `none/existent/path` gives the not-a-directory text the test expects |
| `Cleanup.TargetDirectory.Remove` | cleanup.go:69 | the name is logged as attempted; an unremovable child yields a removal error and stays; otherwise the key is deleted (a no-op for a missing name) |
| `Cleanup.TargetDirectory.RemoveBeyondLimit` | cleanup.go:65-77 | the counting loop's count and error equal `SweepOutcome` of the candidates beyond the limit; the children lose exactly the removed names; the log grows by the attempted names |
| `Cleanup.TargetDirectory.HandleDirectory` | cleanup.go:49-78 | a failed listing gives 0 removed with a listing error and changes nothing; otherwise the run satisfies `Pruned` for some ranking of the listing's directories |
| `Cleanup.TargetDirectory.RunCommand` | cleanup.go:80-100 | a non-directory path gives the not-a-directory error, whose text is `Not a directory or path "<path>" does not exist!`, and changes nothing; any error gives an empty line; success gives the line for the removal count; the sweep satisfies `Pruned` |
| `Cleanup.RankedAreListedDirectories` | cleanup.go:59-69 | every ranked entry is a directory of the listing, and the child of that name is that entry |
| `Cleanup.PrunedCount` | cleanup.go:65-77 | the run reports no error exactly when it removes `max(0, n - limit)` of the n subdirectories (all of them for a negative limit), and it does so whenever no directory beyond the limit is unremovable |
| `Cleanup.PrunedKeepsNonDirectories` | cleanup.go:59-69 | every child that is not a directory is still present and unchanged after the run, whatever the limit and however the sweep ends |
| `Cleanup.RankedNamesDistinct` | cleanup.go:59-63 | a listing with distinct names ranks into a list with distinct names |
| `Cleanup.PrunedRemovesExactlyTheSweptSlice` | cleanup.go:65-75 | a ranked directory is gone afterwards exactly when it is one of the removed candidates; the kept ones, the failing one and those after it stay unchanged |
| `Cleanup.PrunedAttemptsOnlyBeyondLimit` | cleanup.go:65-73 | the log never shrinks, and a ranked directory is among the newly logged names exactly when it lies beyond the kept prefix, up to and including the first removal that fails |
| `Cleanup.SurvivorsWereKept` | cleanup.go:49-78 | after a run that removed everything beyond the first k ranked directories, every subdirectory a later listing shows is one of those k |
| `Cleanup.PruneAgainRemovesNothing` | cleanup.go:49-78 | after a run in which every removal succeeded, a second run with the same limit removes nothing, attempts nothing and reports no error |
| `Cleanup.FixtureDirectories` | cleanup_test.go:98-113 | the test listing (`directory`, `directory1` and `file`) filters to its two directories |
| `Cleanup.FixtureCounts` | cleanup_test.go:115-124 | on the test listing, limits 2, 1 and 0 remove 0, 1 and 2 directories without error |
| `Cleanup.FixtureKeepsNewest` | cleanup_test.go:126-141 | on the test listing with limit 1, `directory1` (the newer) stays, `directory` is removed and the file remains |

## Left out

- `realMain` and `main`: flag parsing, usage text, exit codes, and writing the line to the output. These are command-line plumbing.
- The global `limit` and the accessors `Limit()` and `Path()`: the model passes the path and the limit explicitly.
- The system calls. `os.Stat` is the field `isDirectory`, `ioutil.ReadDir` is the parameter `listed`, and `os.RemoveAll` is `Remove` on the children map. `ioutil.ReadDir` returns the children sorted by file name; the model allows any order in `listed` and relies on none.
- The contents of a removed directory: removal deletes one key. A removal that fails partway through a subtree is modelled as leaving the child whole.
- `filepath.Join`: children are keyed by their base name under the one target directory.
- The error texts that the operating system produces for listing and removal failures: they are the constructors `ListingFailure` and `RemovalFailure`. Only the not-a-directory text comes from the program itself.
- Go's fixed-width `int` for the limit and counters: Dafny integers are unbounded, and the counters cannot reach the width in practice.
- The order of entries with equal modification times: they keep whatever order `sort.Slice` leaves them in, and the model promises no tie order, only a permutation whose times never increase.
- The contents of the test's `data/` directory are not part of this model. The fixture's names follow the test (`directory` and `file` are checked by path, and `directory1` must survive limit 1). Its modification times are invented, and only their order matters: `directory1` is the newer directory.
- The class's `isDirectory` is fixed at construction. A path that vanishes after the check is modelled by `listed == None`, which gives `ListingFailure`.
- Concurrent modification of the directory during a run.
