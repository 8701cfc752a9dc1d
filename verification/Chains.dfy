/** Chains of bundle descriptors, as text and as ancestry. */
module Chains {
  import opened Names
  import opened Commits

  // The descriptors run without a gap from start to end.
  predicate Linked(refs: seq<BundleRef>, start: Hash, end: Hash) {
    if refs == [] then start == end else
      var n := |refs| - 1;
      && ParseRange(refs[n].range).Some?
      && RangeEnd(refs[n].range) == end
      && Linked(refs[..n], start, RangeBase(refs[n].range))
  }

  lemma {:induction false} LinkedConcat(a: seq<BundleRef>, b: seq<BundleRef>, start: Hash, middle: Hash, end: Hash)
    requires Linked(a, start, middle) && Linked(b, middle, end)
    ensures Linked(a + b, start, end)
  {
    hide ParseRange, RangeBase, RangeEnd;
    if b == [] {
      assert a + b == a;
    } else {
      var n := |b| - 1;
      LinkedConcat(a, b[..n], start, middle, RangeBase(b[n].range));
      assert (a + b)[..|a| + n] == a + b[..n];
    }
  }

  // Linking read from the front: each descriptor starts where the one before it ended.
  lemma {:induction false} LinkedAt(refs: seq<BundleRef>, start: Hash, end: Hash, i: nat)
    requires Linked(refs, start, end) && i < |refs|
    ensures ParseRange(refs[i].range).Some?
    ensures RangeBase(refs[i].range) == if i == 0 then start else RangeEnd(refs[i - 1].range)
    ensures Linked(refs[..i], start, RangeBase(refs[i].range))
    ensures Linked(refs[..i + 1], start, RangeEnd(refs[i].range))
  {
    hide ParseRange, RangeBase, RangeEnd;
    var n := |refs| - 1;
    if i < n {
      LinkedAt(refs[..n], start, RangeBase(refs[n].range), i);
      assert refs[..n][..i] == refs[..i] && refs[..n][..i + 1] == refs[..i + 1];
    } else {
      assert refs[..i + 1] == refs;
      if i > 0 { assert refs[..n][n - 1] == refs[n - 1]; }
    }
  }

  // Every end is a commit, and every base but the zero base is an ancestor of its end.
  ghost predicate Ancestral(g: Dag, refs: seq<BundleRef>) {
    forall i | 0 <= i < |refs| :: Grounded(g, refs[i].range)
  }

  ghost predicate Grounded(g: Dag, range: string) {
    && RangeEnd(range) in g.parents
    && (RangeBase(range) == Zeros(g.width) || IsAncestor(g, RangeBase(range), RangeEnd(range)))
  }

  lemma BaseIsOlder(g: Dag, range: string)
    requires ParseRange(range).Some? && Grounded(g, range) && RangeBase(range) in g.parents
    ensures g.generation[RangeBase(range)] < g.generation[RangeEnd(range)]
  {
    hide Reach;
    RangeNameRoundTrip(range);
    ProperAncestorIsOlder(g, RangeBase(range), RangeEnd(range));
  }

  // Along an ancestral chain every earlier end is an ancestor of every later one.
  lemma {:induction false} EarlierEndIsAncestor(g: Dag, refs: seq<BundleRef>, start: Hash, end: Hash, i: nat, j: nat)
    requires Linked(refs, start, end) && Ancestral(g, refs) && i <= j < |refs|
    ensures IsAncestor(g, RangeEnd(refs[i].range), RangeEnd(refs[j].range))
    ensures i < j ==> RangeEnd(refs[i].range) != RangeEnd(refs[j].range)
    decreases j
  {
    hide Reach, ParseRange, RangeBase, RangeEnd, Linked;
    assert Grounded(g, refs[i].range) && Grounded(g, refs[j].range);
    if i < j {
      EarlierEndIsAncestor(g, refs, start, end, i, j - 1);
      LinkedAt(refs, start, end, j);
      var previous := RangeEnd(refs[j - 1].range);
      assert Grounded(g, refs[j - 1].range);
      EndIsNotZero(g, refs[j - 1].range);
      AncestorTransitive(g, RangeEnd(refs[i].range), previous, RangeEnd(refs[j].range));
      BaseIsOlder(g, refs[j].range);
      if RangeEnd(refs[i].range) != previous {
        ProperAncestorIsOlder(g, RangeEnd(refs[i].range), previous);
      }
    }
  }

  lemma EndIsNotZero(g: Dag, range: string)
    requires Grounded(g, range)
    ensures RangeEnd(range) != Zeros(g.width)
  {
    hide Reach;
  }
}
