/** Runs of the duplicate-removal pass on small inputs built from arbitrary
    distinct pairs. They show where the loop differs from "keep the first
    occurrence of each pair". Each run is traced one inner loop at a time. */
module Examples {
  import opened Coordinates
  import opened Slices
  import opened Removal

  /** p, q, p, r: the first p is the one deleted, so the survivor of the
      duplicate is the later one and the order of first occurrences is not
      kept. With p = (1,2), q = (3,4), r = (5,6) the final list is
      (3,4), (1,2), (5,6) and (1,2) is printed once. */
  lemma FirstOccurrenceDeleted<T>(p: Coord<T>, q: Coord<T>, r: Coord<T>)
    requires p != q && p != r && q != r
    ensures Dedupe([p, q, p, r]) == State([q, p, r], [[p]])
  {
    var l0, l1 := [p, q, p, r], [q, p, r];
    // iteration 0: b = 2 matches, p at index 0 is printed and deleted
    assert DelOne(l0, 0) == l1;
    assert Scan(l1, 0, [p], 3, 4) == State(l1, []);
    assert Scan(l0, 0, [p], 1, 4) == State(l1, [[p]]);
    // iterations 1 and 2 find nothing, 3 is past the end
    assert Scan(l1, 1, [p], 0, 3) == State(l1, []);
    assert Scan(l1, 2, [r], 0, 3) == State(l1, []);
    SweepPastEnd(l1, 3, 4);
    assert Sweep(l1, 2, 4) == State(l1, []);
  }

  lemma DuplicatesSurviveIteration0<T>(x: Coord<T>, w: Coord<T>, y: Coord<T>)
    requires x != w && x != y && w != y
    ensures Scan([x, w, y, w, x, y], 0, [x], 0, 6) == State([w, y, w, x, y], [[x]])
  {
    var l0, l1 := [x, w, y, w, x, y], [w, y, w, x, y];
    // b = 4 matches, x at index 0 is printed and deleted
    assert DelOne(l0, 0) == l1;
    assert Scan(l1, 0, [x], 5, 6) == State(l1, []);
    assert Scan(l0, 0, [x], 2, 6) == State(l1, [[x]]);
  }

  lemma DuplicatesSurviveIteration1<T>(x: Coord<T>, w: Coord<T>, y: Coord<T>)
    requires x != w && x != y && w != y
    ensures Scan([w, y, w, x, y], 1, [y], 0, 5) == State([w, w, x, y], [[y]])
  {
    var l1, l2 := [w, y, w, x, y], [w, w, x, y];
    // b = 4 matches, y at index 1 is printed and deleted
    assert DelOne(l1, 1) == l2;
    assert Scan(l1, 1, [y], 2, 5) == State(l2, [[y]]);
  }

  /** Iterations 2 to 5 find nothing to delete. */
  lemma DuplicatesSurviveFromIteration2<T>(x: Coord<T>, w: Coord<T>, y: Coord<T>)
    requires x != w && x != y && w != y
    ensures Sweep([w, w, x, y], 2, 6) == State([w, w, x, y], [])
  {
    var l2 := [w, w, x, y];
    assert Scan(l2, 2, [x], 0, 4) == State(l2, []);
    assert Scan(l2, 3, [y], 0, 4) == State(l2, []);
    SweepPastEnd(l2, 4, 6);
    SweepStep(l2, 3, 6, [y], l2, [], l2, []);
    SweepStep(l2, 2, 6, [x], l2, [], l2, []);
  }

  /** x, w, y, w, x, y: the first x and the first y are deleted, while the
      stale snapshot of iteration 0 never looks at the w that slides into
      index 0, so both w's survive. Duplicates can remain. */
  lemma DuplicatesSurvive<T>(x: Coord<T>, w: Coord<T>, y: Coord<T>)
    requires x != w && x != y && w != y
    ensures Dedupe([x, w, y, w, x, y]) == State([w, w, x, y], [[x], [y]])
  {
    var l0, l1, l2 := [x, w, y, w, x, y], [w, y, w, x, y], [w, w, x, y];
    DuplicatesSurviveIteration0(x, w, y);
    DuplicatesSurviveIteration1(x, w, y);
    DuplicatesSurviveFromIteration2(x, w, y);
    AppendEmpty([[y]]);
    SweepStep(l1, 1, 6, [y], l2, [[y]], l2, []);
    ConsTwo([x], [y]);
    SweepStep(l0, 0, 6, [x], l1, [[x]], l2, [[y]]);
  }

  /** y, x, y, z, y: in iteration 0 the deletion of the first y slides the
      unique x into index 0, and the stale snapshot y then matches the y at
      index 3, so x is printed and deleted although it has no duplicate. */
  lemma UniquePairDeleted<T>(y: Coord<T>, x: Coord<T>, z: Coord<T>)
    requires x != y && x != z && y != z
    ensures Dedupe([y, x, y, z, y]) == State([y, z], [[y], [x], [y]])
  {
    var l0, l1, l2, l3 := [y, x, y, z, y], [x, y, z, y], [y, z, y], [y, z];
    // iteration 0: b = 2 deletes y, then b = 3 deletes x
    assert DelOne(l0, 0) == l1 && DelOne(l1, 0) == l2;
    assert Scan(l2, 0, [y], 4, 5) == State(l2, []);
    assert Scan(l1, 0, [y], 3, 5) == State(l2, [[x]]);
    assert Scan(l0, 0, [y], 0, 5) == State(l2, [[y], [x]]);
    // iteration 1 finds nothing
    assert Scan(l2, 1, [z], 0, 3) == State(l2, []);
    // iteration 2: b = 0 deletes the last y
    assert DelOne(l2, 2) == l3;
    assert Scan(l3, 2, [y], 1, 3) == State(l3, []);
    assert Scan(l2, 2, [y], 0, 3) == State(l3, [[y]]);
    // iterations 3 and 4 are past the end
    SweepPastEnd(l3, 3, 5);
    assert Sweep(l2, 2, 5) == State(l3, [[y]]);
    assert Sweep(l2, 1, 5) == State(l3, [[y]]);
  }

  lemma EmptySliceIteration0<T>(s: Coord<T>, v: Coord<T>, u: Coord<T>)
    requires s != v && s != u && v != u
    ensures Scan([s, v, s, u, v, u, v], 0, [s], 0, 7) == State([v, s, u, v, u, v], [[s]])
  {
    var l0, l1 := [s, v, s, u, v, u, v], [v, s, u, v, u, v];
    // b = 2 deletes the first s
    assert DelOne(l0, 0) == l1;
    assert Scan(l1, 0, [s], 5, 7) == State(l1, []);
    assert Scan(l1, 0, [s], 3, 7) == State(l1, []);
  }

  lemma EmptySliceIterations1And2<T>(s: Coord<T>, v: Coord<T>, u: Coord<T>)
    requires s != v && s != u && v != u
    ensures Scan([v, s, u, v, u, v], 1, [s], 0, 6) == State([v, s, u, v, u, v], [])
    ensures Scan([v, s, u, v, u, v], 2, [u], 0, 6) == State([v, s, v, u, v], [[u]])
  {
    var l1, l2 := [v, s, u, v, u, v], [v, s, v, u, v];
    // iteration 1 finds nothing
    assert Scan(l1, 1, [s], 4, 6) == State(l1, []);
    assert Scan(l1, 1, [s], 2, 6) == State(l1, []);
    // iteration 2: b = 4 deletes the first u
    assert DelOne(l1, 2) == l2;
    assert Scan(l2, 2, [u], 5, 6) == State(l2, []);
    assert Scan(l1, 2, [u], 2, 6) == State(l2, [[u]]);
  }

  lemma EmptySliceIteration3<T>(s: Coord<T>, v: Coord<T>, u: Coord<T>)
    requires s != v && s != u && v != u
    ensures Scan([v, s, v, u, v], 3, [u], 0, 5) == State([v, s, v, u, v], [])
  {
    var l2 := [v, s, v, u, v];
    assert Scan(l2, 3, [u], 2, 5) == State(l2, []);
  }

  lemma EmptySliceIteration4<T>(s: Coord<T>, v: Coord<T>, u: Coord<T>)
    requires s != v && s != u && v != u
    ensures Scan([v, s, v, u, v], 4, [v], 0, 5) == State([v, s, v, u], [[v], []])
  {
    var l2, l3 := [v, s, v, u, v], [v, s, v, u];
    // b = 0 deletes the v at index 4; b = 2 prints [] and deletes nothing
    assert DelOne(l2, 4) == l3 && DelOne(l3, 4) == l3 && One(l3, 4) == [];
    assert Scan(l3, 4, [v], 3, 5) == State(l3, []);
    assert Scan(l3, 4, [v], 1, 5) == State(l3, [[]]);
  }

  /** Iterations 3 to 6, starting from the list left by iteration 2. */
  lemma EmptySliceFromIteration3<T>(s: Coord<T>, v: Coord<T>, u: Coord<T>)
    requires s != v && s != u && v != u
    ensures Sweep([v, s, v, u, v], 3, 7) == State([v, s, v, u], [[v], []])
  {
    var l2, l3 := [v, s, v, u, v], [v, s, v, u];
    EmptySliceIteration3(s, v, u);
    EmptySliceIteration4(s, v, u);
    // iterations 5 and 6 are past the end
    SweepPastEnd(l3, 5, 7);
    AppendEmpty([[v], []]);
    SweepStep(l2, 4, 7, [v], l3, [[v], []], l3, []);
    SweepStep(l2, 3, 7, [u], l2, [], l3, [[v], []]);
  }

  /** Iterations 1 to 6, starting from the list left by iteration 0. */
  lemma EmptySliceFromIteration1<T>(s: Coord<T>, v: Coord<T>, u: Coord<T>)
    requires s != v && s != u && v != u
    ensures Sweep([v, s, u, v, u, v], 1, 7) == State([v, s, v, u], [[u], [v], []])
  {
    var l1, l2, l3 := [v, s, u, v, u, v], [v, s, v, u, v], [v, s, v, u];
    EmptySliceIterations1And2(s, v, u);
    EmptySliceFromIteration3(s, v, u);
    ConsThree([u], [v], []);
    AppendEmpty([[u], [v], []]);
    SweepStep(l1, 2, 7, [u], l2, [[u]], l3, [[v], []]);
    SweepStep(l1, 1, 7, [s], l1, [], l3, [[u], [v], []]);
  }

  /** s, v, s, u, v, u, v: in iteration 4 the first match deletes the v at
      index 4, which leaves the list only 4 long; the next match then prints
      the empty slice `[]` and deletes nothing. */
  lemma EmptySlicePrinted<T>(s: Coord<T>, v: Coord<T>, u: Coord<T>)
    requires s != v && s != u && v != u
    ensures Dedupe([s, v, s, u, v, u, v]) == State([v, s, v, u], [[s], [u], [v], []])
  {
    var l0, l1, l3 := [s, v, s, u, v, u, v], [v, s, u, v, u, v], [v, s, v, u];
    EmptySliceIteration0(s, v, u);
    EmptySliceFromIteration1(s, v, u);
    ConsFour([s], [u], [v], []);
    SweepStep(l0, 0, 7, [s], l1, [[s]], l3, [[u], [v], []]);
  }

  /** One iteration of the outer loop, given its inner scan and the rest. */
  lemma SweepStep<T>(c: seq<Coord<T>>, a: nat, n: nat, snap: seq<Coord<T>>,
                     c1: seq<Coord<T>>, p1: seq<seq<Coord<T>>>,
                     c2: seq<Coord<T>>, p2: seq<seq<Coord<T>>>)
    requires a < n && One(c, a) == snap
    requires Scan(c, a, snap, 0, |c|) == State(c1, p1)
    requires Sweep(c1, a + 1, n) == State(c2, p2)
    ensures Sweep(c, a, n) == State(c2, p1 + p2)
  {
  }

  // The four lemmas below are list-literal facts, not claims about the loop.
  // They are stated on their own so the runs above stay cheap to check.
  lemma AppendEmpty<E>(s: seq<E>)
    ensures s + [] == s && [] + s == s
  {
  }

  lemma ConsTwo<E>(w: E, x: E)
    ensures [w] + [x] == [w, x]
  {
  }

  lemma ConsThree<E>(w: E, x: E, y: E)
    ensures [w] + [x, y] == [w, x, y]
  {
  }

  lemma ConsFour<E>(w: E, x: E, y: E, z: E)
    ensures [w] + [x, y, z] == [w, x, y, z]
  {
  }
}
