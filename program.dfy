/** The script of test.py as a stateful object: the global list `COORDS`
    becomes the field `coords`, and the console output of `print` becomes the
    log `printed`, one entry per printed slice. */
module Program {
  import opened Coordinates
  import opened Slices
  import opened Removal

  class Deduplicator<T(==)> {
    /** The global list of coordinate pairs. */
    var coords: seq<Coord<T>>
    /** Every slice printed so far, in order. */
    var printed: seq<seq<Coord<T>>>

    /** The list starts empty and nothing has been printed. */
    constructor ()
      ensures coords == [] && printed == []
    {
      coords := [];
      printed := [];
    }

    /** Loading one row: the parsed pair is appended to the list. */
    method Append(x: T, y: T)
      modifies this
      ensures coords == old(coords) + [Coord(x, y)]
      ensures printed == old(printed)
    {
      coords := coords + [Coord(x, y)];
    }

    /** The two nested loops over `a` and `b`. The outer bound is the length
        at the start; each outer iteration is `Iteration`. The list and the
        output end up exactly as `Dedupe` says (whose properties are proved in
        `Removal`). */
    method RemoveDuplicates()
      modifies this
      ensures coords == Dedupe(old(coords)).coords
      ensures printed == old(printed) + Dedupe(old(coords)).printed
    {
      ghost var p0 := printed;
      ghost var done: seq<seq<Coord<T>>> := [];
      ghost var goal := Dedupe(coords);
      var n := |coords|;
      var a := 0;
      while a < n
        invariant a <= n
        invariant printed == p0 + done
        invariant goal == State(Sweep(coords, a, n).coords, done + Sweep(coords, a, n).printed)
        decreases n - a
      {
        ghost var cA := coords;
        ghost var step := Scan(cA, a, One(cA, a), 0, |cA|).printed;
        Iteration(a);
        OuterStep(goal, cA, a, n, coords, done, step);
        assert printed == p0 + (done + step);
        done := done + step;
        a := a + 1;
      }
      assert Sweep(coords, a, n) == State(coords, []);
      assert done + [] == done;
    }

    /** Outer iteration `a`: the snapshot of `COORDS[a:a+1]` and the inner
        bound are taken once, then the inner loop over `b` prints and
        deletes the slice at `a` on every match at another index. The new
        list and the new output are what `Scan` says. */
    method Iteration(a: nat)
      modifies this
      ensures coords == Scan(old(coords), a, One(old(coords), a), 0, |old(coords)|).coords
      ensures printed == old(printed) + Scan(old(coords), a, One(old(coords), a), 0, |old(coords)|).printed
    {
      var tempx0 := Xs(One(coords, a));
      var tempx1 := Ys(One(coords, a));
      ghost var snap, pA := One(coords, a), printed;
      ghost var innerDone: seq<seq<Coord<T>>> := [];
      ghost var goal := Scan(coords, a, snap, 0, |coords|);
      var m := |coords|;
      var b := 0;
      while b < m
        invariant b <= m
        invariant printed == pA + innerDone
        invariant goal == State(Scan(coords, a, snap, b, m).coords, innerDone + Scan(coords, a, snap, b, m).printed)
        decreases m - b
      {
        var tempy0 := Xs(One(coords, b));
        var tempy1 := Ys(One(coords, b));
        if tempx0 == tempy0 && tempx1 == tempy1 {
          if a != b {
            InnerHit(goal, a, snap, m, coords, b, innerDone);
            assert printed + [One(coords, a)] == pA + (innerDone + [One(coords, a)]);
            printed := printed + [One(coords, a)];
            innerDone := innerDone + [One(coords, a)];
            coords := DelOne(coords, a);
          } else {
            InnerMiss(goal, a, snap, m, coords, b, innerDone);
          }
        } else {
          InnerMiss(goal, a, snap, m, coords, b, innerDone);
        }
        b := b + 1;
      }
      assert Scan(coords, a, snap, m, m) == State(coords, []);
      assert innerDone + [] == innerDone;
    }
  }

  /** The inner loop's invariant survives an iteration that deletes. */
  lemma InnerHit<T>(goal: State<T>, a: nat, snap: seq<Coord<T>>, m: nat,
                    c: seq<Coord<T>>, b: nat, done: seq<seq<Coord<T>>>)
    requires b < m && Xs(snap) == Xs(One(c, b)) && Ys(snap) == Ys(One(c, b)) && a != b
    requires goal == State(Scan(c, a, snap, b, m).coords, done + Scan(c, a, snap, b, m).printed)
    ensures goal == State(Scan(DelOne(c, a), a, snap, b + 1, m).coords, (done + [One(c, a)]) + Scan(DelOne(c, a), a, snap, b + 1, m).printed)
  {
    var rest := Scan(DelOne(c, a), a, snap, b + 1, m);
    assert Matches(snap, One(c, b));
    assert Scan(c, a, snap, b, m) == State(rest.coords, [One(c, a)] + rest.printed);
    assert done + ([One(c, a)] + rest.printed) == (done + [One(c, a)]) + rest.printed;
  }

  /** The inner loop's invariant survives an iteration that deletes nothing. */
  lemma InnerMiss<T>(goal: State<T>, a: nat, snap: seq<Coord<T>>, m: nat,
                     c: seq<Coord<T>>, b: nat, done: seq<seq<Coord<T>>>)
    requires b < m && !(Xs(snap) == Xs(One(c, b)) && Ys(snap) == Ys(One(c, b)) && a != b)
    requires goal == State(Scan(c, a, snap, b, m).coords, done + Scan(c, a, snap, b, m).printed)
    ensures goal == State(Scan(c, a, snap, b + 1, m).coords, done + Scan(c, a, snap, b + 1, m).printed)
  {
    assert !(Matches(snap, One(c, b)) && a != b);
  }

  /** The outer loop's invariant survives an iteration, given what its inner
      loop did. */
  lemma OuterStep<T>(goal: State<T>, cA: seq<Coord<T>>, a: nat, n: nat,
                     c: seq<Coord<T>>, done: seq<seq<Coord<T>>>, innerDone: seq<seq<Coord<T>>>)
    requires a < n
    requires goal == State(Sweep(cA, a, n).coords, done + Sweep(cA, a, n).printed)
    requires Scan(cA, a, One(cA, a), 0, |cA|) == State(c, innerDone)
    ensures goal == State(Sweep(c, a + 1, n).coords, (done + innerDone) + Sweep(c, a + 1, n).printed)
  {
    var t := Sweep(c, a + 1, n);
    assert Sweep(cA, a, n) == State(t.coords, innerDone + t.printed);
    assert done + (innerDone + t.printed) == (done + innerDone) + t.printed;
  }
}
