/** The two string operations the search box uses: `toLowerCase` and `includes`. */
module Text {

  /** Lower-cases one ASCII upper-case letter and leaves every other character alone. */
  function LowerChar(c: char): (d: char)
    ensures 'A' <= c <= 'Z' ==> d as int == c as int + 32
    ensures !('A' <= c <= 'Z') ==> d == c
    ensures !('A' <= d <= 'Z')
  {
    if 'A' <= c <= 'Z' then (c as int + 32) as char else c
  }

  /** `s.toLowerCase()`, restricted to the ASCII letters. */
  function Lower(s: string): (r: string)
    ensures |r| == |s|
    ensures forall i :: 0 <= i < |s| ==> r[i] == LowerChar(s[i])
  {
    if s == [] then [] else [LowerChar(s[0])] + Lower(s[1..])
  }

  /** Lower-casing twice is lower-casing once. */
  lemma LowerIdempotent(s: string)
    ensures Lower(Lower(s)) == Lower(s)
  {
    var once := Lower(s);
    forall i | 0 <= i < |s|
      ensures Lower(once)[i] == once[i]
    {
      assert LowerChar(once[i]) == once[i];
    }
  }

  /** `q` occurs in `t` starting at position `i`. */
  ghost predicate OccursAt(t: string, q: string, i: int) {
    0 <= i && i + |q| <= |t| && t[i..i + |q|] == q
  }

  /** An occurrence in `t[1..]` is an occurrence in `t` one position further on, and back. */
  lemma OccursShift(t: string, q: string)
    requires t != []
    ensures forall j :: 0 <= j ==> (OccursAt(t[1..], q, j) <==> OccursAt(t, q, j + 1))
  {
    forall j | 0 <= j
      ensures OccursAt(t[1..], q, j) <==> OccursAt(t, q, j + 1)
    {
      if 0 <= j && j + |q| <= |t| - 1 {
        assert t[1..][j..j + |q|] == t[j + 1..j + 1 + |q|];
      }
    }
  }

  /** `t.includes(q)`: true exactly when `q` occurs somewhere in `t`. */
  function Includes(t: string, q: string): (r: bool)
    ensures r <==> exists i :: OccursAt(t, q, i)
    decreases |t|
  {
    if |q| > |t| then false
    else if t[..|q|] == q then
      assert OccursAt(t, q, 0);
      true
    else
      OccursShift(t, q);
      assert !OccursAt(t, q, 0);
      assert forall i :: OccursAt(t, q, i) ==> i >= 1 && OccursAt(t[1..], q, i - 1);
      Includes(t[1..], q)
  }

  /** Every string includes the empty string. */
  lemma IncludesEmpty(t: string)
    ensures Includes(t, "")
  {
    assert OccursAt(t, "", 0);
  }
}
