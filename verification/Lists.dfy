/** Lists of distinct numbers. */
module Lists {
  predicate Distinct(s: seq<nat>) {
    forall i, j | 0 <= i < j < |s| :: s[i] != s[j]
  }

  predicate Below(s: seq<nat>, n: nat) {
    forall i | 0 <= i < |s| :: s[i] < n
  }

  lemma {:induction false} Pigeonhole(s: seq<nat>, n: nat)
    requires Distinct(s) && Below(s, n)
    ensures |s| <= n
  {
    if |s| > 0 {
      assert s[0] < n;
      if i :| 0 <= i < |s| && s[i] == n - 1 {
        Pigeonhole(s[..i] + s[i + 1..], n - 1);
      } else {
        Pigeonhole(s, n - 1);
      }
    }
  }

  /** A list that names every number below `n` has at least `n` entries. */
  lemma {:induction false} Onto(s: seq<nat>, n: nat)
    requires forall v | 0 <= v < n :: v in s
    ensures n <= |s|
  {
    if n > 0 {
      assert n - 1 in s;
      var i :| 0 <= i < |s| && s[i] == n - 1;
      var rest := s[..i] + s[i + 1..];
      forall v | 0 <= v < n - 1 ensures v in rest {
        assert v in s;
        var j :| 0 <= j < |s| && s[j] == v;
        assert v == rest[if j < i then j else j - 1];
      }
      Onto(rest, n - 1);
    }
  }
}
