/** JavaScript's `Array.prototype.filter`, with the facts about it that the upload step relies on. */
module JsArrays {

  /** `a.filter(keep)`: the elements for which `keep` holds, in their order in `a`. */
  function Filter<T>(a: seq<T>, keep: T -> bool): (r: seq<T>)
    ensures |r| <= |a|
    ensures forall i :: 0 <= i < |r| ==> r[i] in a && keep(r[i])
    decreases |a|
  {
    if a == [] then []
    else (if keep(a[0]) then [a[0]] else []) + Filter(a[1..], keep)
  }

  /** The filter is empty exactly when no element is kept. */
  lemma {:induction false} FilterEmpty<T>(a: seq<T>, keep: T -> bool)
    ensures Filter(a, keep) == [] <==> forall i :: 0 <= i < |a| ==> !keep(a[i])
    decreases |a|
  {
    if a != [] {
      FilterEmpty(a[1..], keep);
      if !keep(a[0]) {
        assert Filter(a, keep) == Filter(a[1..], keep);
        assert forall i :: 1 <= i < |a| ==> a[i] == a[1..][i - 1];
      }
    }
  }

  /** The first element of the filter is the first element of `a` that is kept. */
  lemma {:induction false} FilterFirst<T>(a: seq<T>, keep: T -> bool, k: nat)
    requires k < |a| && keep(a[k])
    requires forall j :: 0 <= j < k ==> !keep(a[j])
    ensures Filter(a, keep) != [] && Filter(a, keep)[0] == a[k]
    decreases k
  {
    if k > 0 {
      assert forall j :: 0 <= j < k - 1 ==> a[1..][j] == a[j + 1];
      FilterFirst(a[1..], keep, k - 1);
    }
  }
}
