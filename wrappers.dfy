/** Optional values and error results, used wherever the Python code returns
    `None` or raises an exception that a caller is expected to see. */
module Wrappers {

  datatype Option<+T> = None | Some(value: T) {
    function GetOr(default: T): T {
      match this
      case Some(v) => v
      case None => default
    }
  }

  datatype Result<+T, +E> = Ok(value: T) | Err(error: E)

  /** The values of the present entries, in order. */
  function Somes<T>(xs: seq<Option<T>>): (r: seq<T>)
    ensures |r| <= |xs|
    ensures r == [] <==> forall i :: 0 <= i < |xs| ==> xs[i].None?
    ensures forall k :: 0 <= k < |r| ==> exists i :: 0 <= i < |xs| && xs[i] == Some(r[k])
  {
    if xs == [] then []
    else
      var n := |xs| - 1;
      var front := Somes(xs[..n]);
      assert forall i :: 0 <= i < n ==> xs[..n][i] == xs[i];
      match xs[n]
      case None => front
      case Some(v) => front + [v]
  }

  /** Every present entry's value is among the values. */
  lemma {:induction false} SomesComplete<T>(xs: seq<Option<T>>, i: nat)
    requires i < |xs| && xs[i].Some?
    ensures xs[i].value in Somes(xs)
  {
    var n := |xs| - 1;
    if i < n {
      assert xs[..n][i] == xs[i];
      SomesComplete(xs[..n], i);
    }
  }

  /** Extending the entries by one extends the values by at most that one. */
  lemma SomesSnoc<T>(xs: seq<Option<T>>, i: nat)
    requires i < |xs|
    ensures Somes(xs[..i + 1]) == Somes(xs[..i]) + (if xs[i].Some? then [xs[i].value] else [])
  {
    assert xs[..i + 1][..i] == xs[..i];
  }
}
