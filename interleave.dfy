/** Interleavings and subsequences of lists, used to say that the program
    only ever deletes elements. */
module Interleave {

  /** `s` is an interleaving of `kept` and `removed`: every position of `s`
      goes to exactly one of the two, and each of them lists its elements in
      the order they have in `s`. Read from the back of `s`. */
  ghost predicate Merge<E>(s: seq<E>, kept: seq<E>, removed: seq<E>)
    decreases |s|
  {
    if s == [] then
      kept == [] && removed == []
    else
      var last := s[|s| - 1];
      (kept != [] && kept[|kept| - 1] == last && Merge(s[..|s| - 1], kept[..|kept| - 1], removed)) ||
      (removed != [] && removed[|removed| - 1] == last && Merge(s[..|s| - 1], kept, removed[..|removed| - 1]))
  }

  /** `t` is `s` with some elements left out: what remains keeps its order. */
  ghost predicate IsSubseq<E>(t: seq<E>, s: seq<E>)
    decreases |s|
  {
    t == [] ||
    (s != [] &&
     ((t[|t| - 1] == s[|s| - 1] && IsSubseq(t[..|t| - 1], s[..|s| - 1])) ||
      IsSubseq(t, s[..|s| - 1])))
  }

  /** The elements of `s` whose flag is `side`, in order (one flag per element). */
  function Pick<E>(flags: seq<bool>, s: seq<E>, side: bool): seq<E>
    decreases |s|
  {
    if flags == [] || s == [] then []
    else Pick(flags[..|flags| - 1], s[..|s| - 1], side) + (if flags[|flags| - 1] == side then [s[|s| - 1]] else [])
  }

  /** Flagging one more element adds it to its side and leaves the other side alone. */
  lemma PickSnoc<E>(flags: seq<bool>, s: seq<E>, side: bool, f: bool, x: E)
    ensures Pick(flags + [f], s + [x], side) == Pick(flags, s, side) + (if f == side then [x] else [])
  {
    assert (flags + [f])[..|flags|] == flags;
    assert (s + [x])[..|s|] == s;
  }

  /** A flag per element splits a list into an interleaving of the flagged
      (`true`) and unflagged (`false`) elements. */
  lemma {:induction false} PickMerge<E>(flags: seq<bool>, s: seq<E>)
    requires |flags| == |s|
    ensures Merge(s, Pick(flags, s, true), Pick(flags, s, false))
    decreases |s|
  {
    if s != [] {
      var flags', s' := flags[..|flags| - 1], s[..|s| - 1];
      PickMerge(flags', s');
      var kept, removed := Pick(flags, s, true), Pick(flags, s, false);
      if flags[|flags| - 1] {
        assert kept[..|kept| - 1] == Pick(flags', s', true);
        assert removed == Pick(flags', s', false);
      } else {
        assert kept == Pick(flags', s', true);
        assert removed[..|removed| - 1] == Pick(flags', s', false);
      }
    }
  }

  /** An interleaving has exactly as many elements as its two parts together. */
  lemma {:induction false} MergeLength<E>(s: seq<E>, kept: seq<E>, removed: seq<E>)
    requires Merge(s, kept, removed)
    ensures |s| == |kept| + |removed|
    decreases |s|
  {
    if s != [] {
      if kept != [] && kept[|kept| - 1] == s[|s| - 1] && Merge(s[..|s| - 1], kept[..|kept| - 1], removed) {
        MergeLength(s[..|s| - 1], kept[..|kept| - 1], removed);
      } else {
        MergeLength(s[..|s| - 1], kept, removed[..|removed| - 1]);
      }
    }
  }

  /** Both parts of an interleaving are subsequences of it. */
  lemma {:induction false} MergeSubseq<E>(s: seq<E>, kept: seq<E>, removed: seq<E>)
    requires Merge(s, kept, removed)
    ensures IsSubseq(kept, s) && IsSubseq(removed, s)
    decreases |s|
  {
    if s != [] {
      var s' := s[..|s| - 1];
      if kept != [] && kept[|kept| - 1] == s[|s| - 1] && Merge(s', kept[..|kept| - 1], removed) {
        MergeSubseq(s', kept[..|kept| - 1], removed);
      } else {
        MergeSubseq(s', kept, removed[..|removed| - 1]);
      }
    }
  }

  /** The two parts of an interleaving split its elements between them. */
  lemma {:induction false} MergeMultiset<E>(s: seq<E>, kept: seq<E>, removed: seq<E>)
    requires Merge(s, kept, removed)
    ensures multiset(s) == multiset(kept) + multiset(removed)
    decreases |s|
  {
    if s != [] {
      var s' := s[..|s| - 1];
      assert s == s' + [s[|s| - 1]];
      if kept != [] && kept[|kept| - 1] == s[|s| - 1] && Merge(s', kept[..|kept| - 1], removed) {
        MergeMultiset(s', kept[..|kept| - 1], removed);
        assert kept == kept[..|kept| - 1] + [kept[|kept| - 1]];
      } else {
        MergeMultiset(s', kept, removed[..|removed| - 1]);
        assert removed == removed[..|removed| - 1] + [removed[|removed| - 1]];
      }
    }
  }
}
