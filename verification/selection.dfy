// Order-preserving selection: Python's `[x for x in s if test(x)]`.

module Selection {
  /** The elements of `s` that pass `test`, in their order in `s`. */
  function Select<T(!new)>(s: seq<T>, test: T -> bool): (r: seq<T>)
    ensures |r| <= |s|
    ensures forall x :: x in r <==> x in s && test(x)
  {
    if s == [] then []
    else Select(s[..|s| - 1], test) + (if test(s[|s| - 1]) then [s[|s| - 1]] else [])
  }

  /** The positions of `s` whose element passes `test`, in increasing order. */
  function Positions<T>(s: seq<T>, test: T -> bool): (p: seq<nat>)
    ensures forall a, b :: 0 <= a < b < |p| ==> p[a] < p[b]
    ensures forall a :: 0 <= a < |p| ==> p[a] < |s|
    ensures forall k :: k in p <==> 0 <= k < |s| && test(s[k])
  {
    if s == [] then []
    else
      var init := s[..|s| - 1];
      var p := Positions(init, test);
      assert forall k :: 0 <= k < |init| ==> init[k] == s[k];
      assert forall a :: 0 <= a < |p| ==> p[a] < |init| by {
        forall a | 0 <= a < |p| ensures p[a] < |init| { assert p[a] in p; }
      }
      p + (if test(s[|s| - 1]) then [|s| - 1] else [])
  }

  /** The selection is `s` read at the passing positions: every element that
      passes is kept, once, and in its original order. */
  lemma {:induction false} SelectAtPositions<T(!new)>(s: seq<T>, test: T -> bool)
    ensures var p := Positions(s, test);
            var r := Select(s, test);
            |r| == |p| && forall k :: 0 <= k < |r| ==> r[k] == s[p[k]]
  {
    if s != [] {
      var init := s[..|s| - 1];
      SelectAtPositions(init, test);
      var p := Positions(init, test);
      assert forall a :: 0 <= a < |p| ==> p[a] < |init| by {
        forall a | 0 <= a < |p| ensures p[a] < |init| { assert p[a] in p; }
      }
      assert forall k :: 0 <= k < |init| ==> init[k] == s[k];
    }
  }
}
