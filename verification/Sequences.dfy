/** Sequences without repetitions, and the order of their elements. */
module Sequences {
  predicate Distinct(s: seq<string>) {
    forall i, j :: 0 <= i < j < |s| ==> s[i] != s[j]
  }

  /** One key is before another. */
  ghost predicate Precedes(s: seq<string>, p: string, q: string) {
    exists i, j :: 0 <= i < j < |s| && s[i] == p && s[j] == q
  }

  lemma PrecedesCons(x: string, s: seq<string>, p: string, q: string)
    ensures Precedes([x] + s, p, q) <==> (x == p && q in s) || Precedes(s, p, q)
  {
    var r := [x] + s;
    if x == p && q in s {
      var j :| 0 <= j < |s| && s[j] == q;
      assert r[0] == p && r[j + 1] == q;
    }
    if Precedes(s, p, q) {
      var i, j :| 0 <= i < j < |s| && s[i] == p && s[j] == q;
      assert r[i + 1] == p && r[j + 1] == q;
    }
    if Precedes(r, p, q) {
      var i, j :| 0 <= i < j < |r| && r[i] == p && r[j] == q;
      assert r[j] == s[j - 1];
      if i > 0 { assert r[i] == s[i - 1]; }
    }
  }

  lemma PrecedesIn(s: seq<string>, p: string, q: string)
    ensures Precedes(s, p, q) ==> p in s && q in s
  {
  }
}
