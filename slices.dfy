/** Python's list slicing `s[lo:hi]` and slice deletion `del s[lo:hi]`, for
    non-negative bounds (the only bounds the program uses). */
module Slices {

  /** A bound cut down to the length of the list, as slicing does. */
  function Clamp(i: nat, n: nat): (r: nat)
    ensures r <= n && r <= i && (r == i || r == n)
  {
    if i < n then i else n
  }

  /** `s[i:i+1]`: the one element at position `i`, or nothing past the end. */
  function One<E>(s: seq<E>, i: nat): seq<E>
  {
    if i < |s| then [s[i]] else []
  }

  /** `del s[i:i+1]`: removes the element at position `i`, if there is one. */
  function DelOne<E>(s: seq<E>, i: nat): seq<E>
  {
    if i < |s| then s[..i] + s[i + 1..] else s
  }

  /** Deleting a one-element slice removes exactly that slice: putting it back
      where it was gives the original list. Past the end both are no-ops. */
  lemma DelOneRestores<E>(s: seq<E>, i: nat)
    ensures |One(s, i)| <= 1 && |DelOne(s, i)| == |s| - |One(s, i)|
    ensures s == DelOne(s, i)[..Clamp(i, |s|)] + One(s, i) + DelOne(s, i)[Clamp(i, |s|)..]
  {
    if i < |s| {
      assert DelOne(s, i)[..i] == s[..i];
      assert DelOne(s, i)[i..] == s[i + 1..];
      assert s == s[..i] + [s[i]] + s[i + 1..];
    }
  }

  /** The concatenation of a list of lists, in order. */
  function Flatten<E>(ls: seq<seq<E>>): seq<E>
  {
    if ls == [] then [] else ls[0] + Flatten(ls[1..])
  }

  lemma FlattenCons<E>(e: seq<E>, ls: seq<seq<E>>)
    ensures Flatten([e] + ls) == e + Flatten(ls)
  {
    assert ([e] + ls)[1..] == ls;
  }

  lemma {:induction false} FlattenAppend<E>(xs: seq<seq<E>>, ys: seq<seq<E>>)
    ensures Flatten(xs + ys) == Flatten(xs) + Flatten(ys)
    decreases |xs|
  {
    if xs == [] {
      assert xs + ys == ys;
    } else {
      assert (xs + ys)[1..] == xs[1..] + ys;
      FlattenAppend(xs[1..], ys);
    }
  }

  /** Two sequences that agree on their first `k` elements agree on any shorter prefix. */
  lemma SharedPrefix<E>(s: seq<E>, t: seq<E>, k: nat, j: nat)
    requires j <= k <= |s| && k <= |t| && s[..k] == t[..k]
    ensures s[..j] == t[..j]
  {
    assert s[..j] == s[..k][..j];
    assert t[..j] == t[..k][..j];
  }

  /** If deleting the element at `a` and then a run of `|run|` elements
      starting at `a` leaves `rest`, then `rest` is what deleting the longer
      run that starts with `s[a]` leaves. */
  lemma DelOneRun<E>(s: seq<E>, a: nat, rest: seq<E>, run: seq<E>)
    requires a < |s|
    requires a + |run| <= |DelOne(s, a)|
    requires rest == DelOne(s, a)[..a] + DelOne(s, a)[a + |run|..]
    requires run == DelOne(s, a)[a..a + |run|]
    ensures a + 1 + |run| <= |s|
    ensures rest == s[..a] + s[a + 1 + |run|..] && [s[a]] + run == s[a..a + 1 + |run|]
  {
    var t := DelOne(s, a);
    assert t == s[..a] + s[a + 1..];
    assert t[..a] == s[..a];
    assert t[a + |run|..] == s[a + 1 + |run|..];
    assert t[a..a + |run|] == s[a + 1..a + 1 + |run|];
  }
}
