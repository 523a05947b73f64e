# Duplicate-coordinate removal of `test.py`, modelled in Dafny

`test.py` loads `city.csv` into a global list `COORDS` of `(x, y)` float
pairs. It then runs a nested loop over indices `a` and `b` meant to remove
duplicate pairs. When the one-element slice `COORDS[a:a+1]` equals
`COORDS[b:b+1]` and `a != b`, the script prints the slice at `a` and
deletes it with `del COORDS[a:a+1]`.

The loop is modelled exactly as written, including the following quirks:

- The outer `range(len(COORDS))` is evaluated once. Iterations whose index
  is past the end of the shrunken list therefore still run.
- The inner `range(len(COORDS))` is evaluated again at the start of every
  outer iteration.
- The snapshot of `COORDS[a:a+1]` (its first and second components) is
  taken once per outer iteration. It is never refreshed after a deletion.
- Every match deletes whatever sits at index `a` at that moment. That is
  not always the pair that matched.
- Slicing past the end gives `[]`, and deleting past the end does nothing.

The files are:

- `coordinates.dfy` (module `Coordinates`): the pair type and the loop's
  comparison test.
- `slices.dfy` (module `Slices`): the slice `s[i:i+1]`, the deletion
  `del s[i:i+1]` and concatenation of the printed slices.
- `interleave.dfy` (module `Interleave`): what it means for two lists to
  interleave into a third. The proof uses a flag per element saying which
  side it went to.
- `dedupe.dfy` (module `Removal`): the loops as functions and what is
  proved about them:
  - `Scan` is the inner loop;
  - `Sweep` is the outer loop;
  - `Dedupe` is the whole pass.

  A state is the list together with the log of printed slices. `print`
  is modelled as appending the printed slice to that log.
- `examples.dfy` (module `Examples`): complete runs on small inputs built
  from arbitrary distinct pairs. They show where the loop departs from
  "keep the first occurrence of each pair".
- `program.dfy` (module `Program`): the script as a class. `COORDS` and the
  output are fields. Loading and the two loops are methods.
  - `RemoveDuplicates` runs the outer loop.
  - `Iteration` runs one outer iteration, which contains the inner loop.

  Both are proved to produce exactly the state `Dedupe` and `Scan`
  describe.

Properties of the loop as written:

- The list never grows.
- A non-empty list never becomes empty.
- The pairs before index `a` are fixed from iteration `a` on.
- An iteration whose index is at or past the end is a no-op.
- Each printed slice holds at most one pair.
- The final list and the concatenated printed slices interleave to give the
  input. Both are subsequences of it, and together they hold the same
  multiset of pairs.
- Nothing is printed exactly when the input has no two equal pairs, and in
  that case the list is unchanged.

Where the loop departs from removing duplicates:

- The pass does not keep first occurrences, and it does not remove every
  duplicate. Because the snapshot is stale, the runs in `examples.dfy`
  show three things:
  - the later copy of a pair survives instead of the first;
  - duplicates can remain;
  - a pair with no duplicate at all can be deleted.
- The printed slice can be empty. This happens when an earlier deletion in
  the same iteration has shortened the list to `a` elements while another
  index still matches the snapshot.

Read as intended, the loop would turn `(1,2), (3,4), (1,2), (5,6)` into
`(1,2), (3,4), (5,6)`. The code as written deletes the pair at index 0, so
it gives `(3,4), (1,2), (5,6)`, with `(1,2)` printed once. The model follows
the code: see `Examples.FirstOccurrenceDeleted`.

## Model

| member | source | states |
|---|---|---|
| Coordinates.Matches | test.py:11-16 | The loop's test holds exactly when the two one-element slices are equal. The test compares the lists of first components and the lists of second components. In particular an empty slice never matches a one-element slice. |
| Slices.DelOneRestores | test.py:18-19 | The deleted slice `COORDS[a:a+1]` is exactly the slice printed just before. It holds at most one pair, and the list shrinks by its length. Putting it back at `a` gives the old list. Past the end it is `[]` and the deletion is a no-op. |
| Removal.Scan | test.py:13-19 | The inner loop with the snapshot fixed at the start. If it prints nothing, it leaves the list unchanged. It never makes the list longer. It keeps a non-empty list non-empty, provided the snapshot is non-empty or `a` is at or past the end. |
| Removal.Sweep | test.py:10-19 | The outer loop with its bound fixed at the starting length. If it prints nothing, it leaves the list unchanged. It never makes the list longer, and it keeps a non-empty list non-empty. |
| Removal.ScanPastEnd | test.py:11-19 | An iteration whose index `a` is at or past the end takes an empty snapshot. It then matches nothing, prints nothing and changes nothing. |
| Removal.SweepPastEnd | test.py:10-19 | The outer iterations left over after the list has shrunk below their index are all no-ops. |
| Removal.ScanKeepsPrefix | test.py:13-19 | During iteration `a` the list keeps at least `a` pairs, and `COORDS[:a]` is unchanged. |
| Removal.ScanDeletesRun | test.py:13-19 | During iteration `a` only index `a` is ever deleted: the iteration removes one run of consecutive pairs that starts at `a`, the pairs after the run keep their order, and the printed slices, concatenated, are exactly that run. |
| Removal.SweepKeepsPrefix | test.py:10-19 | Once the outer loop reaches `a`, the first `a` pairs are final. |
| Removal.SweepProgress | test.py:10-19 | The loop invariant: some choice of kept or deleted for each input pair yields the final list as the kept pairs. The same choice yields the printed pairs, concatenated in order, as the deleted pairs. |
| Removal.DedupeOnlyDeletes | test.py:10-19 | The final list and the concatenation of the printed slices interleave to give the input. Each is a subsequence of the input, their multisets add up to the input's, and so do their lengths. |
| Removal.ScanPrintsSmall | test.py:18 | Every slice printed by an inner loop holds zero or one pair. |
| Removal.SweepPrintsSmall | test.py:18 | Every slice printed by the outer loop holds zero or one pair. |
| Removal.DedupePrintsSmall | test.py:10-19 | Every entry of the output of the whole pass holds zero or one pair. |
| Removal.ScanDistinct | test.py:13-19 | On a list with no two equal pairs, an inner loop prints nothing and leaves the list unchanged. |
| Removal.SweepDistinct | test.py:10-19 | On a list with no two equal pairs, the outer loop prints nothing and leaves the list unchanged. |
| Removal.ScanFinds | test.py:13-19 | If the snapshot equals the slice at some index `j != a` that the inner loop still reaches, the loop prints something. |
| Removal.SweepFinds | test.py:10-19 | If the list holds equal pairs at positions `i < j` and iteration `i` is still ahead, the outer loop prints something. |
| Removal.DedupeSilentIffDistinct | test.py:10-19 | The pass prints nothing exactly when the input has no two equal pairs. In that case the list is left unchanged. |
| Examples.FirstOccurrenceDeleted | test.py:10-19 | On `p, q, p, r` the first `p` is the one printed and deleted, and the result is `q, p, r`. |
| Examples.DuplicatesSurvive | test.py:10-19 | On `x, w, y, w, x, y` the result is `w, w, x, y`, so a duplicate survives. |
| Examples.UniquePairDeleted | test.py:10-19 | On `y, x, y, z, y` the unique pair `x` is printed and deleted, and the result is `y, z`. |
| Examples.EmptySlicePrinted | test.py:17-19 | On `s, v, s, u, v, u, v`, iteration 4 prints `[v]` and then the empty slice `[]`. The result is `v, s, v, u`. |
| Program.Deduplicator.constructor | test.py:4 | The list starts empty and nothing has been printed. |
| Program.Deduplicator.Append | test.py:7-8 | Loading a row appends its pair to the end of the list and prints nothing. |
| Program.Deduplicator.Iteration | test.py:11-19 | The in-place inner loop. It takes the snapshot once, reads the bound once, and prints and deletes at `a` on every match with `b != a`. It leaves the list and the output exactly as `Scan` says. |
| Program.Deduplicator.RemoveDuplicates | test.py:10-19 | The in-place nested loops. They leave the list as `Dedupe` of the old list and extend the output by exactly what `Dedupe` prints. |

## Left out

- Reading `city.csv` (test.py:5-7) is file I/O and is not modelled. The rows
  arrive one pair at a time through `Append`.
- Parsing with `float` (test.py:8) is not modelled, and neither are its
  errors or its values. The pair components have an abstract type compared
  by exact equality. A NaN component, which Python never finds equal to
  itself, is therefore not modelled. Neither is the pair of floats `0.0`
  and `-0.0`: Python finds them equal although they print differently,
  while the model's equality cannot tell two such values apart.
- Short rows in `city.csv` raise errors at test.py:8, where the pair is
  built left to right. A blank line raises `IndexError` at `row[0]`. A row
  with one field first runs `float(row[0])`: a non-numeric field raises
  `ValueError` there, and a numeric one then raises `IndexError` at
  `row[1]`. Neither path is modelled, because `Append` always receives
  both components.
- The text that `print` writes is not modelled. The output is kept as the
  sequence of printed slices, one entry per `print`.
- Termination of both loops is shown by the `decreases` clauses of `Scan`,
  `Sweep` and the two methods. There is no separate lemma for it.
- Program.Deduplicator.RemoveDuplicates: its contract states only the
  final state, as `Dedupe` of the old list. The interleaving, subsequence
  and multiset facts are proved about `Dedupe` in `Removal.DedupeOnlyDeletes`
  and hold for the method through that equality.
