/** Order-preserving selection from sequences, the model of `Array.prototype.filter`. */
module Lists {

  /** `a` can be obtained from `b` by deleting elements, without reordering the rest.
      Matching is greedy, which loses no solutions. */
  predicate IsSubsequence<T(==)>(a: seq<T>, b: seq<T>)
    decreases |b|
  {
    if a == [] then true
    else if b == [] then false
    else if a[0] == b[0] then IsSubsequence(a[1..], b[1..])
    else IsSubsequence(a, b[1..])
  }

  /** Every element of a subsequence is an element of the whole. */
  lemma {:induction false} SubsequenceElements<T>(a: seq<T>, b: seq<T>)
    requires IsSubsequence(a, b)
    ensures forall x :: x in a ==> x in b
  {
    if a != [] && b != [] {
      if a[0] == b[0] {
        SubsequenceElements(a[1..], b[1..]);
        assert forall x :: x in a ==> x == a[0] || x in a[1..];
      } else {
        SubsequenceElements(a, b[1..]);
      }
    }
  }

  /** The elements of `s` that satisfy `p`, in their original order. */
  function Filter<T(==,!new)>(s: seq<T>, p: T -> bool): (r: seq<T>)
    ensures |r| <= |s|
    ensures forall x :: x in r <==> x in s && p(x)
    ensures forall x :: multiset(r)[x] == if p(x) then multiset(s)[x] else 0
    ensures IsSubsequence(r, s)
    ensures (forall i :: 0 <= i < |s| ==> p(s[i])) ==> r == s
  {
    if s == [] then []
    else if p(s[0]) then
      var rest := Filter(s[1..], p);
      assert s == [s[0]] + s[1..];
      assert ([s[0]] + rest)[1..] == rest;
      assert forall x :: x in s <==> x == s[0] || x in s[1..];
      [s[0]] + rest
    else
      var rest := Filter(s[1..], p);
      assert s == [s[0]] + s[1..];
      assert forall x :: x in s <==> x == s[0] || x in s[1..];
      assert rest != [] ==> rest[0] in rest && rest[0] != s[0];
      rest
  }

  /** Filtering with two predicates that agree everywhere gives the same result. */
  lemma {:induction false} FilterCongruent<T(!new)>(s: seq<T>, p: T -> bool, q: T -> bool)
    requires forall x :: p(x) == q(x)
    ensures Filter(s, p) == Filter(s, q)
  {
    if s != [] {
      FilterCongruent(s[1..], p, q);
    }
  }
}
