/** Byte-wise string order, the order of storage keys and recipient fingerprints. */
module Ordering {
  predicate Leq(a: string, b: string) {
    a == "" || (b != "" && (a[0] < b[0] || (a[0] == b[0] && Leq(a[1..], b[1..]))))
  }

  predicate Less(a: string, b: string) {
    Leq(a, b) && a != b
  }

  lemma {:induction false} LeqTotal(a: string, b: string)
    ensures Leq(a, b) || Leq(b, a)
  {
    if a != "" && b != "" && a[0] == b[0] { LeqTotal(a[1..], b[1..]); }
  }

  lemma {:induction false} LeqAntisymmetric(a: string, b: string)
    requires Leq(a, b) && Leq(b, a)
    ensures a == b
  {
    if a != "" {
      LeqAntisymmetric(a[1..], b[1..]);
      assert a == [a[0]] + a[1..] && b == [b[0]] + b[1..];
    }
  }

  lemma {:induction false} LeqTransitive(a: string, b: string, c: string)
    requires Leq(a, b) && Leq(b, c)
    ensures Leq(a, c)
  {
    if a != "" && a[0] == b[0] == c[0] { LeqTransitive(a[1..], b[1..], c[1..]); }
  }

  ghost predicate Sorted(s: seq<string>) {
    forall i, j | 0 <= i < j < |s| :: Leq(s[i], s[j])
  }

  // Sorted without repetition.
  ghost predicate StrictlySorted(s: seq<string>) {
    forall i, j | 0 <= i < j < |s| :: Less(s[i], s[j])
  }

  // Adjacent comparisons are enough, as an order is transitive.
  lemma {:induction false} AdjacentSorted(s: seq<string>)
    requires forall i | 0 < i < |s| :: Leq(s[i - 1], s[i])
    ensures Sorted(s)
  {
    hide Leq;
    if s != [] {
      var n := |s| - 1;
      AdjacentSorted(s[..n]);
      forall i | 0 <= i < n ensures Leq(s[i], s[n]) {
        if i < n - 1 {
          assert Leq(s[..n][i], s[..n][n - 1]);
          LeqTransitive(s[i], s[n - 1], s[n]);
        }
      }
      forall i, j | 0 <= i < j < |s| ensures Leq(s[i], s[j]) {
        if j < n { assert Leq(s[..n][i], s[..n][j]); }
      }
    }
  }

  lemma SortedHead(a: seq<string>, b: seq<string>)
    requires a != [] && b != [] && Sorted(a) && Sorted(b)
    requires a[0] in b && b[0] in a
    ensures a[0] == b[0]
  {
    hide Leq;
    var i :| 0 <= i < |b| && b[i] == a[0];
    var j :| 0 <= j < |a| && a[j] == b[0];
    if i > 0 && j > 0 { LeqAntisymmetric(a[0], b[0]); }
  }

  // One multiset has only one sorted arrangement.
  lemma {:induction false} SortedUnique(a: seq<string>, b: seq<string>)
    requires Sorted(a) && Sorted(b) && multiset(a) == multiset(b)
    ensures a == b
  {
    hide Leq;
    assert |multiset(a)| == |a| && |multiset(b)| == |b|;
    if a != [] {
      assert a[0] in multiset(a) && b[0] in multiset(b);
      SortedHead(a, b);
      assert a == [a[0]] + a[1..] && b == [b[0]] + b[1..];
      assert multiset(a[1..]) == multiset(a) - multiset{a[0]};
      assert multiset(b[1..]) == multiset(b) - multiset{b[0]};
      SortedUnique(a[1..], b[1..]);
    }
  }

  method Sort(s: seq<string>) returns (r: seq<string>)
    ensures Sorted(r) && multiset(r) == multiset(s)
  {
    hide Leq;
    r := [];
    for i := 0 to |s|
      invariant Sorted(r) && multiset(r) == multiset(s[..i])
    {
      r := Insert(r, s[i]);
      assert s[..i + 1] == s[..i] + [s[i]];
    }
    assert s[..|s|] == s;
  }

  method Insert(r: seq<string>, x: string) returns (q: seq<string>)
    requires Sorted(r)
    ensures Sorted(q) && multiset(q) == multiset(r) + multiset{x}
  {
    hide Leq;
    var k := |r|;
    while k > 0 && !Leq(r[k - 1], x)
      invariant 0 <= k <= |r|
      invariant forall i | k <= i < |r| :: Leq(x, r[i])
    {
      LeqTotal(r[k - 1], x);
      k := k - 1;
    }
    q := r[..k] + [x] + r[k..];
    assert r == r[..k] + r[k..];
    forall i | 0 <= i < k ensures Leq(r[i], x) {
      if i < k - 1 { LeqTransitive(r[i], r[k - 1], x); }
    }
  }
}
