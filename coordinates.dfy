/** Coordinates as the program holds them: `(x, y)` pairs compared by exact equality. */
module Coordinates {

  /** One row of the input file, turned into a pair. The component type is
      left abstract; only exact equality is used on it. */
  datatype Coord<T> = Coord(x: T, y: T)

  /** The list of first components of a slice (`[x[0] for x in slice]`). */
  function Xs<T>(s: seq<Coord<T>>): seq<T>
  {
    seq(|s|, i requires 0 <= i < |s| => s[i].x)
  }

  /** The list of second components of a slice (`[x[1] for x in slice]`). */
  function Ys<T>(s: seq<Coord<T>>): seq<T>
  {
    seq(|s|, i requires 0 <= i < |s| => s[i].y)
  }

  /** The loop's test: the two slices agree on their first components and on
      their second components. This is the same as the two slices being equal,
      so in particular an empty slice never matches a one-element slice. */
  function Matches<T(==)>(snap: seq<Coord<T>>, cur: seq<Coord<T>>): (r: bool)
    ensures r <==> snap == cur
  {
    if Xs(snap) == Xs(cur) && Ys(snap) == Ys(cur) then
      assert |snap| == |Xs(snap)| == |Xs(cur)| == |cur|;
      assert forall i :: 0 <= i < |snap| ==> snap[i].x == Xs(cur)[i] && snap[i].y == Ys(cur)[i];
      assert forall i :: 0 <= i < |snap| ==> snap[i] == cur[i];
      true
    else
      false
  }
}
