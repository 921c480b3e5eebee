/**
 * `Array.prototype.find`, which both user stores use for lookup by id: the
 * first element that satisfies a predicate, or `undefined` (here `None`).
 */
module ArrayFind {

  datatype Option<T> = None | Some(value: T)

  /** `k` is the position of the first element of `s` that satisfies `p`. */
  predicate FirstMatchAt<T>(s: seq<T>, p: T -> bool, k: int)
  {
    0 <= k < |s| && p(s[k]) && forall j :: 0 <= j < k ==> !p(s[j])
  }

  /** A first-match linear search from the front of `s`. */
  function Find<T>(s: seq<T>, p: T -> bool): (r: Option<T>)
    ensures r.None? <==> forall i :: 0 <= i < |s| ==> !p(s[i])
    ensures r.Some? ==> exists k :: FirstMatchAt(s, p, k) && s[k] == r.value
  {
    if s == [] then None
    else if p(s[0]) then
      assert FirstMatchAt(s, p, 0);
      Some(s[0])
    else
      var r := Find(s[1..], p);
      assert forall i :: 1 <= i < |s| ==> s[i] == s[1..][i - 1];
      assert r.Some? ==> exists k :: FirstMatchAt(s, p, k) && s[k] == r.value by {
        if r.Some? {
          var k :| FirstMatchAt(s[1..], p, k) && s[1..][k] == r.value;
          assert FirstMatchAt(s, p, k + 1);
        }
      }
      r
  }

  /** Appending an element never changes an existing match, and the new
      element is found only when nothing before it matches. */
  lemma {:induction false} FindAppend<T>(s: seq<T>, x: T, p: T -> bool)
    ensures Find(s + [x], p) == match Find(s, p)
                                case Some(v) => Some(v)
                                case None => if p(x) then Some(x) else None
  {
    if s != [] {
      assert (s + [x])[0] == s[0];
      assert (s + [x])[1..] == s[1..] + [x];
      FindAppend(s[1..], x, p);
    }
  }
}
