/** Python's built-in `max` and `min` on a non-empty list of naturals. */
module Lists {

  /** `max(xs)`. */
  function MaxOf(xs: seq<nat>): (r: nat)
    requires xs != []
    ensures r in xs && forall i :: 0 <= i < |xs| ==> xs[i] <= r
  {
    if |xs| == 1 then xs[0]
    else
      var m := MaxOf(xs[1..]);
      assert forall i :: 1 <= i < |xs| ==> xs[i] == xs[1..][i - 1];
      if xs[0] > m then xs[0] else m
  }

  /** `min(xs)`. */
  function MinOf(xs: seq<nat>): (r: nat)
    requires xs != []
    ensures r in xs && forall i :: 0 <= i < |xs| ==> r <= xs[i]
  {
    if |xs| == 1 then xs[0]
    else
      var m := MinOf(xs[1..]);
      assert forall i :: 1 <= i < |xs| ==> xs[i] == xs[1..][i - 1];
      if xs[0] < m then xs[0] else m
  }
}
