/** The duplicate-removal loops of test.py as functions: `Scan` is the inner
    loop over `b`, `Sweep` the outer loop over `a`, `Dedupe` the whole pass.
    Each returns the list as it is afterwards and what was printed, one
    printed slice per deletion. */
module Removal {
  import opened Coordinates
  import opened Slices
  import opened Interleave

  /** The list after some iterations and the slices printed by them. */
  datatype State<T> = State(coords: seq<Coord<T>>, printed: seq<seq<Coord<T>>>)

  /** No two positions of the list hold equal pairs. */
  predicate Distinct<T(==)>(s: seq<Coord<T>>)
  {
    forall i, j :: 0 <= i < j < |s| ==> s[i] != s[j]
  }

  /** Inner loop of iteration `a`, from index `b` up to the bound `m` that was
      read when the iteration started. `snap` is the slice `COORDS[a:a+1]`
      taken when the iteration started; it is never refreshed. When the
      current slice at `b` equals it (the loop compares first and second
      components, which `Matches` shows is the same test) and `a != b`, the
      current slice at `a` is printed and then deleted.
      Nothing printed means nothing deleted; the list never grows; and a
      non-empty list stays non-empty as long as an empty snapshot only occurs
      past the end of the list. */
  function Scan<T(==)>(c: seq<Coord<T>>, a: nat, snap: seq<Coord<T>>, b: nat, m: nat): (r: State<T>)
    ensures r.printed == [] ==> r.coords == c
    ensures |r.coords| <= |c|
    ensures |c| > 0 && (snap == [] ==> |c| <= a) ==> |r.coords| > 0
    decreases m - b
  {
    if m <= b then
      State(c, [])
    else if snap == One(c, b) && a != b then
      var r := Scan(DelOne(c, a), a, snap, b + 1, m);
      State(r.coords, [One(c, a)] + r.printed)
    else
      Scan(c, a, snap, b + 1, m)
  }

  /** Outer loop from iteration `a` up to the bound `n` fixed from the
      starting length. Each iteration takes its snapshot and its inner bound
      from the list as it is when the iteration starts. */
  function Sweep<T(==)>(c: seq<Coord<T>>, a: nat, n: nat): (r: State<T>)
    ensures r.printed == [] ==> r.coords == c
    ensures |r.coords| <= |c|
    ensures |c| > 0 ==> |r.coords| > 0
    decreases n - a
  {
    if n <= a then
      State(c, [])
    else
      var r := Scan(c, a, One(c, a), 0, |c|);
      var t := Sweep(r.coords, a + 1, n);
      State(t.coords, r.printed + t.printed)
  }

  /** The whole duplicate-removal pass over the loaded list. */
  function Dedupe<T(==)>(s: seq<Coord<T>>): State<T>
  {
    Sweep(s, 0, |s|)
  }

  // ---------------------------------------------------------------------
  // Stale iterations

  /** An inner loop whose snapshot is empty (its index was past the end when
      it started) changes nothing and prints nothing. */
  lemma {:induction false} ScanPastEnd<T>(c: seq<Coord<T>>, a: nat, b: nat, m: nat)
    requires |c| <= a && m <= |c|
    ensures Scan(c, a, [], b, m) == State(c, [])
    decreases m - b
  {
    if b < m {
      assert One(c, b) == [c[b]];
      ScanPastEnd(c, a, b + 1, m);
    }
  }

  /** Once the outer index has passed the end of the list, no later
      iteration changes anything. */
  lemma {:induction false} SweepPastEnd<T>(c: seq<Coord<T>>, a: nat, n: nat)
    requires |c| <= a
    ensures Sweep(c, a, n) == State(c, [])
    decreases n - a
  {
    if a < n {
      ScanPastEnd(c, a, 0, |c|);
      SweepPastEnd(c, a + 1, n);
    }
  }

  // ---------------------------------------------------------------------
  // The prefix before the outer index is never touched

  /** During iteration `a` the elements before `a` stay as they were and
      the list keeps at least `a` elements. */
  lemma {:induction false} ScanKeepsPrefix<T>(c: seq<Coord<T>>, a: nat, snap: seq<Coord<T>>, b: nat, m: nat)
    requires a <= |c|
    ensures var r := Scan(c, a, snap, b, m); a <= |r.coords| && r.coords[..a] == c[..a]
    decreases m - b
  {
    if b < m {
      if snap == One(c, b) && a != b {
        assert a <= |DelOne(c, a)| && DelOne(c, a)[..a] == c[..a];
        ScanKeepsPrefix(DelOne(c, a), a, snap, b + 1, m);
      } else {
        ScanKeepsPrefix(c, a, snap, b + 1, m);
      }
    }
  }

  /** `coords` is `c` with one run of consecutive elements removed from
      index `a` on, and `printed`, concatenated, is that run. */
  ghost predicate DeletesRun<T>(c: seq<Coord<T>>, a: nat, coords: seq<Coord<T>>, printed: seq<seq<Coord<T>>>)
  {
    var d := |Flatten(printed)|;
    a + d <= |c| && coords == c[..a] + c[a + d..] && Flatten(printed) == c[a..a + d]
  }

  /** Deleting nothing is deleting the empty run. */
  lemma DeletesRunNone<T>(c: seq<Coord<T>>, a: nat)
    requires a <= |c|
    ensures DeletesRun(c, a, c, [])
  {
    assert Flatten<Coord<T>>([]) == [];
    assert c == c[..a] + c[a..] && c[a..a] == [];
  }

  /** Printing and deleting `c[a:a+1]` in front of a run deleted from the
      shortened list deletes a run one longer from `c`. */
  lemma DeletesRunStep<T>(c: seq<Coord<T>>, a: nat, coords: seq<Coord<T>>, printed: seq<seq<Coord<T>>>)
    requires a <= |c| && DeletesRun(DelOne(c, a), a, coords, printed)
    ensures DeletesRun(c, a, coords, [One(c, a)] + printed)
  {
    var run := Flatten(printed);
    FlattenCons(One(c, a), printed);
    if a < |c| {
      DelOneRun(c, a, coords, run);
    } else {
      assert One(c, a) == [] && DelOne(c, a) == c;
      assert One(c, a) + run == run;
    }
  }

  /** A deleting step of the inner loop extends the run deleted by the rest
      of the loop by the slice at `a`. */
  lemma ScanHitRun<T>(c: seq<Coord<T>>, a: nat, snap: seq<Coord<T>>, b: nat, m: nat)
    requires a <= |c| && b < m && snap == One(c, b) && a != b
    requires DeletesRun(DelOne(c, a), a, Scan(DelOne(c, a), a, snap, b + 1, m).coords,
                        Scan(DelOne(c, a), a, snap, b + 1, m).printed)
    ensures DeletesRun(c, a, Scan(c, a, snap, b, m).coords, Scan(c, a, snap, b, m).printed)
  {
    var r' := Scan(DelOne(c, a), a, snap, b + 1, m);
    assert Scan(c, a, snap, b, m) == State(r'.coords, [One(c, a)] + r'.printed);
    DeletesRunStep(c, a, r'.coords, r'.printed);
  }

  /** A step of the inner loop that deletes nothing leaves the run to the
      rest of the loop. */
  lemma ScanMissRun<T>(c: seq<Coord<T>>, a: nat, snap: seq<Coord<T>>, b: nat, m: nat)
    requires b < m && !(snap == One(c, b) && a != b)
    requires DeletesRun(c, a, Scan(c, a, snap, b + 1, m).coords, Scan(c, a, snap, b + 1, m).printed)
    ensures DeletesRun(c, a, Scan(c, a, snap, b, m).coords, Scan(c, a, snap, b, m).printed)
  {
    assert Scan(c, a, snap, b, m) == Scan(c, a, snap, b + 1, m);
  }

  /** The loop past its bound deletes the empty run. */
  lemma ScanDoneRun<T>(c: seq<Coord<T>>, a: nat, snap: seq<Coord<T>>, b: nat, m: nat)
    requires a <= |c| && m <= b
    ensures DeletesRun(c, a, Scan(c, a, snap, b, m).coords, Scan(c, a, snap, b, m).printed)
  {
    assert Scan(c, a, snap, b, m) == State(c, []);
    DeletesRunNone(c, a);
  }

  /** One step of the inner loop, deleting or not, keeps the run shape,
      given that shape for both ways the rest of the loop can go on. */
  lemma ScanStepRun<T>(c: seq<Coord<T>>, a: nat, snap: seq<Coord<T>>, b: nat, m: nat)
    requires a <= |c| && b < m
    requires DeletesRun(DelOne(c, a), a, Scan(DelOne(c, a), a, snap, b + 1, m).coords,
                        Scan(DelOne(c, a), a, snap, b + 1, m).printed)
    requires DeletesRun(c, a, Scan(c, a, snap, b + 1, m).coords, Scan(c, a, snap, b + 1, m).printed)
    ensures DeletesRun(c, a, Scan(c, a, snap, b, m).coords, Scan(c, a, snap, b, m).printed)
  {
    if snap == One(c, b) && a != b {
      ScanHitRun(c, a, snap, b, m);
    } else {
      ScanMissRun(c, a, snap, b, m);
    }
  }

  /** During iteration `a` deletions happen only at index `a`: the
      iteration removes one run of consecutive elements starting at `a`,
      and what it prints, concatenated, is that same run. */
  lemma {:induction false} ScanDeletesRun<T>(c: seq<Coord<T>>, a: nat, snap: seq<Coord<T>>, b: nat, m: nat)
    requires a <= |c|
    ensures DeletesRun(c, a, Scan(c, a, snap, b, m).coords, Scan(c, a, snap, b, m).printed)
    decreases m - b
  {
    if b >= m {
      ScanDoneRun(c, a, snap, b, m);
    } else {
      DelOneRestores(c, a);
      ScanDeletesRun(DelOne(c, a), a, snap, b + 1, m);
      ScanDeletesRun(c, a, snap, b + 1, m);
      ScanStepRun(c, a, snap, b, m);
    }
  }

  /** Once the outer loop reaches index `a`, the elements before `a` are final. */
  lemma {:induction false} SweepKeepsPrefix<T>(c: seq<Coord<T>>, a: nat, n: nat)
    requires a <= |c|
    ensures var r := Sweep(c, a, n); a <= |r.coords| && r.coords[..a] == c[..a]
    decreases n - a
  {
    if a < n {
      var r := Scan(c, a, One(c, a), 0, |c|);
      var t := Sweep(r.coords, a + 1, n);
      ScanKeepsPrefix(c, a, One(c, a), 0, |c|);
      SweepUnfold(c, a, n);
      if a + 1 <= |r.coords| {
        SweepKeepsPrefix(r.coords, a + 1, n);
        SharedPrefix(t.coords, r.coords, a + 1, a);
      } else {
        SweepPastEnd(r.coords, a + 1, n);
      }
    }
  }

  /** One step of the outer loop. */
  lemma SweepUnfold<T>(c: seq<Coord<T>>, a: nat, n: nat)
    requires a < n
    ensures var s := Scan(c, a, One(c, a), 0, |c|);
            var t := Sweep(s.coords, a + 1, n);
            Sweep(c, a, n) == State(t.coords, s.printed + t.printed)
  {
  }

  // ---------------------------------------------------------------------
  // Only deletions: the final list and the printed slices interleave the input

  /** Invariant of the loops: `c[k..]` is still the untouched end of the
      input `init`; what comes before it in `init` (`consumed`) is split by
      one flag per element into `c[..k]` (kept, flag `true`) and `removed`
      (deleted, flag `false`), each in input order. */
  ghost predicate Progress<T>(init: seq<Coord<T>>, c: seq<Coord<T>>, k: nat, removed: seq<Coord<T>>,
                              consumed: seq<Coord<T>>, flags: seq<bool>)
  {
    k <= |c| && init == consumed + c[k..] && |flags| == |consumed| &&
    Pick(flags, consumed, true) == c[..k] && Pick(flags, consumed, false) == removed
  }

  /** Deleting the element at `k` moves it from the untouched end to the removed part. */
  lemma ProgressDelete<T>(init: seq<Coord<T>>, c: seq<Coord<T>>, k: nat, removed: seq<Coord<T>>,
                          consumed: seq<Coord<T>>, flags: seq<bool>)
    requires Progress(init, c, k, removed, consumed, flags) && k < |c|
    ensures Progress(init, DelOne(c, k), k, removed + [c[k]], consumed + [c[k]], flags + [false])
  {
    var c' := DelOne(c, k);
    assert c'[k..] == c[k + 1..] && c'[..k] == c[..k];
    assert c[k..] == [c[k]] + c[k + 1..];
    PickSnoc(flags, consumed, true, false, c[k]);
    PickSnoc(flags, consumed, false, false, c[k]);
  }

  /** Moving past the element at `k` moves it from the untouched end to the kept part. */
  lemma ProgressAdvance<T>(init: seq<Coord<T>>, c: seq<Coord<T>>, k: nat, removed: seq<Coord<T>>,
                           consumed: seq<Coord<T>>, flags: seq<bool>)
    requires Progress(init, c, k, removed, consumed, flags) && k < |c|
    ensures Progress(init, c, k + 1, removed, consumed + [c[k]], flags + [true])
  {
    assert c[k..] == [c[k]] + c[k + 1..];
    assert c[..k + 1] == c[..k] + [c[k]];
    PickSnoc(flags, consumed, true, true, c[k]);
    PickSnoc(flags, consumed, false, true, c[k]);
  }

  /** One deletion of the inner loop (print `c[a:a+1]`, then delete it) keeps the invariant. */
  lemma ProgressDeleteAt<T>(init: seq<Coord<T>>, c: seq<Coord<T>>, a: nat, removed: seq<Coord<T>>,
                            consumed: seq<Coord<T>>, flags: seq<bool>)
    returns (consumed': seq<Coord<T>>, flags': seq<bool>)
    requires Progress(init, c, Clamp(a, |c|), removed, consumed, flags)
    ensures Progress(init, DelOne(c, a), Clamp(a, |DelOne(c, a)|), removed + One(c, a), consumed', flags')
  {
    if a < |c| {
      ProgressDelete(init, c, a, removed, consumed, flags);
      consumed', flags' := consumed + [c[a]], flags + [false];
    } else {
      assert removed + One(c, a) == removed;
      consumed', flags' := consumed, flags;
    }
  }

  /** The inner loop keeps the invariant, with the index cut down to the length. */
  lemma {:induction false} ScanProgress<T>(init: seq<Coord<T>>, c: seq<Coord<T>>, a: nat, snap: seq<Coord<T>>,
                                           b: nat, m: nat, removed: seq<Coord<T>>,
                                           consumed: seq<Coord<T>>, flags: seq<bool>)
    returns (consumed': seq<Coord<T>>, flags': seq<bool>)
    requires Progress(init, c, Clamp(a, |c|), removed, consumed, flags)
    ensures var r := Scan(c, a, snap, b, m);
            Progress(init, r.coords, Clamp(a, |r.coords|), removed + Flatten(r.printed), consumed', flags')
    decreases m - b, 1
  {
    if m <= b {
      assert removed + [] == removed;
      consumed', flags' := consumed, flags;
    } else if snap == One(c, b) && a != b {
      consumed', flags' := ScanHitProgress(init, c, a, snap, b, m, removed, consumed, flags);
    } else {
      consumed', flags' := ScanProgress(init, c, a, snap, b + 1, m, removed, consumed, flags);
    }
  }

  /** A matching `b`: the slice at `a` is printed and deleted, then the loop goes on. */
  lemma {:induction false} ScanHitProgress<T>(init: seq<Coord<T>>, c: seq<Coord<T>>, a: nat, snap: seq<Coord<T>>,
                                              b: nat, m: nat, removed: seq<Coord<T>>,
                                              consumed: seq<Coord<T>>, flags: seq<bool>)
    returns (consumed': seq<Coord<T>>, flags': seq<bool>)
    requires b < m && snap == One(c, b) && a != b
    requires Progress(init, c, Clamp(a, |c|), removed, consumed, flags)
    ensures var r := Scan(c, a, snap, b, m);
            Progress(init, r.coords, Clamp(a, |r.coords|), removed + Flatten(r.printed), consumed', flags')
    decreases m - b, 0
  {
    var e := One(c, a);
    var r' := Scan(DelOne(c, a), a, snap, b + 1, m);
    var consumed1, flags1 := ProgressDeleteAt(init, c, a, removed, consumed, flags);
    consumed', flags' := ScanProgress(init, DelOne(c, a), a, snap, b + 1, m, removed + e, consumed1, flags1);
    assert removed + Flatten([e] + r'.printed) == (removed + e) + Flatten(r'.printed) by {
      FlattenCons(e, r'.printed);
    }
  }

  /** Moving the outer index on keeps the invariant, with the index cut down to the length. */
  lemma ProgressAdvanceAt<T>(init: seq<Coord<T>>, c: seq<Coord<T>>, a: nat, removed: seq<Coord<T>>,
                             consumed: seq<Coord<T>>, flags: seq<bool>)
    returns (consumed': seq<Coord<T>>, flags': seq<bool>)
    requires Progress(init, c, Clamp(a, |c|), removed, consumed, flags)
    ensures Progress(init, c, Clamp(a + 1, |c|), removed, consumed', flags')
  {
    if a < |c| {
      ProgressAdvance(init, c, a, removed, consumed, flags);
      consumed', flags' := consumed + [c[a]], flags + [true];
    } else {
      consumed', flags' := consumed, flags;
    }
  }

  /** When the outer index has gone past every element of the input, the
      flags split the whole input into the current list and the removed elements. */
  lemma ProgressFinished<T>(init: seq<Coord<T>>, c: seq<Coord<T>>, a: nat, removed: seq<Coord<T>>,
                            consumed: seq<Coord<T>>, flags: seq<bool>)
    requires |init| <= a && Progress(init, c, Clamp(a, |c|), removed, consumed, flags)
    ensures |flags| == |init| && Pick(flags, init, true) == c && Pick(flags, init, false) == removed
  {
    PickMerge(flags, consumed);
    MergeLength(consumed, c[..Clamp(a, |c|)], removed);
    assert Clamp(a, |c|) == |c|;
    assert c[..|c|] == c && init == consumed;
  }

  /** A whole iteration `a` of the outer loop keeps the invariant, for the next index. */
  lemma IterationProgress<T>(init: seq<Coord<T>>, c: seq<Coord<T>>, a: nat, removed: seq<Coord<T>>,
                             consumed: seq<Coord<T>>, flags: seq<bool>)
    returns (consumed': seq<Coord<T>>, flags': seq<bool>)
    requires Progress(init, c, Clamp(a, |c|), removed, consumed, flags)
    ensures var s := Scan(c, a, One(c, a), 0, |c|);
            Progress(init, s.coords, Clamp(a + 1, |s.coords|), removed + Flatten(s.printed), consumed', flags')
  {
    var s := Scan(c, a, One(c, a), 0, |c|);
    var consumed1, flags1 := ScanProgress(init, c, a, One(c, a), 0, |c|, removed, consumed, flags);
    consumed', flags' := ProgressAdvanceAt(init, s.coords, a, removed + Flatten(s.printed), consumed1, flags1);
  }

  /** The slices printed by the outer loop from iteration `a` are those of
      iteration `a` followed by those of the later iterations. */
  lemma SweepFlatten<T>(c: seq<Coord<T>>, a: nat, n: nat)
    requires a < n
    ensures var s := Scan(c, a, One(c, a), 0, |c|);
            var t := Sweep(s.coords, a + 1, n);
            Sweep(c, a, n).coords == t.coords &&
            Flatten(Sweep(c, a, n).printed) == Flatten(s.printed) + Flatten(t.printed)
  {
    var s := Scan(c, a, One(c, a), 0, |c|);
    SweepUnfold(c, a, n);
    FlattenAppend(s.printed, Sweep(s.coords, a + 1, n).printed);
  }

  /** The outer loop keeps the invariant; at its end one flag per input
      element splits the input into the final list and everything removed. */
  lemma {:induction false} SweepProgress<T>(init: seq<Coord<T>>, c: seq<Coord<T>>, a: nat, n: nat,
                                            removed: seq<Coord<T>>, consumed: seq<Coord<T>>, flags: seq<bool>)
    returns (split: seq<bool>)
    requires n == |init|
    requires Progress(init, c, Clamp(a, |c|), removed, consumed, flags)
    ensures var r := Sweep(c, a, n);
            |split| == |init| && Pick(split, init, true) == r.coords &&
            Pick(split, init, false) == removed + Flatten(r.printed)
    decreases n - a
  {
    if n <= a {
      ProgressFinished(init, c, a, removed, consumed, flags);
      assert removed + Flatten(Sweep(c, a, n).printed) == removed;
      split := flags;
    } else {
      var s := Scan(c, a, One(c, a), 0, |c|);
      var t := Sweep(s.coords, a + 1, n);
      var removed' := removed + Flatten(s.printed);
      var consumed', flags' := IterationProgress(init, c, a, removed, consumed, flags);
      split := SweepProgress(init, s.coords, a + 1, n, removed', consumed', flags');
      SweepFlatten(c, a, n);
      assert removed + (Flatten(s.printed) + Flatten(t.printed)) == removed' + Flatten(t.printed);
    }
  }

  /** The pass only deletes: the input is an interleaving of the final list
      and the concatenation of the printed slices, so the final list is a
      subsequence of the input, the printed pairs are the deleted ones in
      deletion order, and together they are exactly the input's elements. */
  lemma DedupeOnlyDeletes<T>(s: seq<Coord<T>>)
    ensures Merge(s, Dedupe(s).coords, Flatten(Dedupe(s).printed))
    ensures IsSubseq(Dedupe(s).coords, s) && IsSubseq(Flatten(Dedupe(s).printed), s)
    ensures multiset(s) == multiset(Dedupe(s).coords) + multiset(Flatten(Dedupe(s).printed))
    ensures |s| == |Dedupe(s).coords| + |Flatten(Dedupe(s).printed)|
  {
    var r := Dedupe(s);
    assert Progress(s, s, 0, [], [], []) by {
      assert s[..0] == [] && s[0..] == s;
    }
    var split := SweepProgress(s, s, 0, |s|, [], [], []);
    assert [] + Flatten(r.printed) == Flatten(r.printed);
    PickMerge(split, s);
    MergeSubseq(s, r.coords, Flatten(r.printed));
    MergeMultiset(s, r.coords, Flatten(r.printed));
    MergeLength(s, r.coords, Flatten(r.printed));
  }

  // ---------------------------------------------------------------------
  // What is printed

  /** Every slice the inner loop prints holds at most one pair. */
  lemma {:induction false} ScanPrintsSmall<T>(c: seq<Coord<T>>, a: nat, snap: seq<Coord<T>>, b: nat, m: nat)
    ensures forall i :: 0 <= i < |Scan(c, a, snap, b, m).printed| ==> |Scan(c, a, snap, b, m).printed[i]| <= 1
    decreases m - b
  {
    if b < m {
      if snap == One(c, b) && a != b {
        ScanPrintsSmall(DelOne(c, a), a, snap, b + 1, m);
      } else {
        ScanPrintsSmall(c, a, snap, b + 1, m);
      }
    }
  }

  /** Every slice the outer loop prints holds at most one pair. */
  lemma {:induction false} SweepPrintsSmall<T>(c: seq<Coord<T>>, a: nat, n: nat)
    ensures forall i :: 0 <= i < |Sweep(c, a, n).printed| ==> |Sweep(c, a, n).printed[i]| <= 1
    decreases n - a
  {
    if a < n {
      var s := Scan(c, a, One(c, a), 0, |c|);
      ScanPrintsSmall(c, a, One(c, a), 0, |c|);
      SweepPrintsSmall(s.coords, a + 1, n);
    }
  }

  /** Each line printed by the program is a slice of zero or one pair. */
  lemma DedupePrintsSmall<T>(s: seq<Coord<T>>)
    ensures forall i :: 0 <= i < |Dedupe(s).printed| ==> |Dedupe(s).printed[i]| <= 1
  {
    SweepPrintsSmall(s, 0, |s|);
  }

  // ---------------------------------------------------------------------
  // Inputs without duplicates

  /** With no two equal pairs, the inner loop only ever matches `b == a`. */
  lemma {:induction false} ScanDistinct<T>(c: seq<Coord<T>>, a: nat, b: nat, m: nat)
    requires Distinct(c) && m <= |c|
    ensures Scan(c, a, One(c, a), b, m) == State(c, [])
    decreases m - b
  {
    if b < m {
      assert One(c, b) == [c[b]];
      ScanDistinct(c, a, b + 1, m);
    }
  }

  /** With no two equal pairs, no iteration deletes or prints anything. */
  lemma {:induction false} SweepDistinct<T>(c: seq<Coord<T>>, a: nat, n: nat)
    requires Distinct(c)
    ensures Sweep(c, a, n) == State(c, [])
    decreases n - a
  {
    if a < n {
      ScanDistinct(c, a, 0, |c|);
      SweepDistinct(c, a + 1, n);
    }
  }

  /** An equal pair at `j`, still ahead of the inner loop, makes it print something. */
  lemma {:induction false} ScanFinds<T>(c: seq<Coord<T>>, a: nat, snap: seq<Coord<T>>, b: nat, m: nat, j: nat)
    requires b <= j < m && j < |c| && j != a && One(c, j) == snap
    ensures Scan(c, a, snap, b, m).printed != []
    decreases m - b
  {
    if !(snap == One(c, b) && a != b) {
      ScanFinds(c, a, snap, b + 1, m, j);
    }
  }

  /** Two equal pairs at `i < j`, with `i` not yet reached by the outer loop,
      make the loop print something: either an earlier iteration already
      printed, or the list is still untouched when iteration `i` finds `j`. */
  lemma {:induction false} SweepFinds<T>(c: seq<Coord<T>>, a: nat, n: nat, i: nat, j: nat)
    requires a <= i < n && i < j < |c| && c[i] == c[j]
    ensures Sweep(c, a, n).printed != []
    decreases n - a
  {
    var s := Scan(c, a, One(c, a), 0, |c|);
    if a == i {
      ScanFinds(c, a, One(c, a), 0, |c|, j);
    } else if s.printed == [] {
      SweepFinds(s.coords, a + 1, n, i, j);
    }
  }

  /** The program prints nothing exactly when no two positions of the input
      hold equal pairs, and then it leaves the list as it was. */
  lemma DedupeSilentIffDistinct<T>(s: seq<Coord<T>>)
    ensures Dedupe(s).printed == [] <==> Distinct(s)
    ensures Distinct(s) ==> Dedupe(s).coords == s
  {
    if Distinct(s) {
      SweepDistinct(s, 0, |s|);
    } else {
      var i, j :| 0 <= i < j < |s| && s[i] == s[j];
      SweepFinds(s, 0, |s|, i, j);
    }
  }
}
