/** The commit graph every component reasons about, and the Git queries asked of it. */
module Commits {
  import opened Names

  // A finite commit graph: ordered parents, and a generation number that grows from parent to child.
  datatype Graph = Graph(parents: map<Hash, seq<Hash>>, generation: map<Hash, nat>, width: nat) {
    predicate WellFormed() {
      && (width == 40 || width == 64)
      && generation.Keys == parents.Keys
      && (forall c | c in parents :: IsObjectId(c) && |c| == width && c != Zeros(width))
      && (forall c, p | c in parents && p in parents[c] :: p in parents && generation[p] < generation[c])
    }
  }

  type Dag = g: Graph | g.WellFormed() witness Graph(map[], map[], 40)

  // A commit and all its ancestors. An unknown commit, and the all-zero base, reach nothing.
  function Reach(g: Dag, c: Hash): (r: set<Hash>)
    ensures r <= g.parents.Keys
    ensures if c in g.parents then c in r else r == {}
    decreases if c in g.parents then g.generation[c] + 1 else 0
  {
    if c !in g.parents then {} else
      {c} + (set p, x | p in g.parents[c] && x in Reach(g, p) :: x)
  }

  // git merge-base --is-ancestor ancestor commit, false also when either is unknown.
  predicate IsAncestor(g: Dag, ancestor: Hash, commit: Hash) {
    ancestor in Reach(g, commit)
  }

  ghost predicate Closed(g: Dag, s: set<Hash>) {
    s <= g.parents.Keys && forall c, p | c in s && p in g.parents[c] :: p in s
  }

  lemma {:induction false} ReachClosed(g: Dag, s: set<Hash>, c: Hash)
    requires Closed(g, s) && c in s
    ensures Reach(g, c) <= s
    decreases g.generation[c]
  {
    forall x | x in Reach(g, c) ensures x in s {
      if x != c {
        var p :| p in g.parents[c] && x in Reach(g, p);
        ReachClosed(g, s, p);
      }
    }
  }

  lemma {:induction false} ReachIsClosed(g: Dag, c: Hash)
    ensures Closed(g, Reach(g, c))
    decreases if c in g.parents then g.generation[c] + 1 else 0
  {
    forall a, p | a in Reach(g, c) && p in g.parents[a] ensures p in Reach(g, c) {
      if a == c {
        assert p in Reach(g, p);
      } else {
        var q :| q in g.parents[c] && a in Reach(g, q);
        ReachIsClosed(g, q);
        assert p in Reach(g, q);
      }
    }
  }

  lemma ReachSubset(g: Dag, a: Hash, c: Hash)
    requires IsAncestor(g, a, c)
    ensures Reach(g, a) <= Reach(g, c)
  {
    ReachIsClosed(g, c);
    ReachClosed(g, Reach(g, c), a);
  }

  lemma AncestorTransitive(g: Dag, a: Hash, b: Hash, c: Hash)
    requires IsAncestor(g, a, b) && IsAncestor(g, b, c)
    ensures IsAncestor(g, a, c)
  {
    ReachSubset(g, b, c);
  }

  lemma {:induction false} ProperAncestorIsOlder(g: Dag, a: Hash, c: Hash)
    requires IsAncestor(g, a, c) && a != c
    ensures g.generation[a] < g.generation[c]
    decreases g.generation[c]
  {
    var p :| p in g.parents[c] && a in Reach(g, p);
    if a != p {
      ProperAncestorIsOlder(g, a, p);
    }
  }

  lemma AncestorAntisymmetric(g: Dag, a: Hash, c: Hash)
    requires IsAncestor(g, a, c) && IsAncestor(g, c, a)
    ensures a == c
  {
    if a != c {
      ProperAncestorIsOlder(g, a, c);
      ProperAncestorIsOlder(g, c, a);
    }
  }

  // ----- Walks -----

  // git rev-list --count base..tip
  function RevListCount(g: Dag, base: Hash, tip: Hash): nat {
    |Reach(g, tip) - Reach(g, base)|
  }

  // Moving the base towards the tip never leaves more commits to send.
  lemma CountAntitone(g: Dag, a: Hash, b: Hash, tip: Hash)
    requires IsAncestor(g, a, b)
    ensures RevListCount(g, b, tip) <= RevListCount(g, a, tip)
  {
    ReachSubset(g, a, b);
    SubsetSize(Reach(g, tip) - Reach(g, b), Reach(g, tip) - Reach(g, a));
  }

  // And moving it to a proper descendant inside the tip's history leaves fewer.
  lemma CountShrinks(g: Dag, a: Hash, b: Hash, tip: Hash)
    requires IsAncestor(g, a, b) && a != b && IsAncestor(g, b, tip)
    ensures RevListCount(g, b, tip) < RevListCount(g, a, tip)
  {
    hide Reach;
    ReachSubset(g, a, b);
    if IsAncestor(g, b, a) { AncestorAntisymmetric(g, a, b); }
    CommitReachesItself(g, a, b);
    FewerLeft(Reach(g, tip), Reach(g, a), Reach(g, b), b);
  }

  lemma CommitReachesItself(g: Dag, a: Hash, b: Hash)
    requires IsAncestor(g, a, b)
    ensures b in Reach(g, b)
  {}

  lemma FewerLeft<T>(all: set<T>, some: set<T>, more: set<T>, x: T)
    requires some <= more && x in all && x in more && x !in some
    ensures |all - more| < |all - some|
  {
    SubsetSize((all - more) + {x}, all - some);
    assert |(all - more) + {x}| == |all - more| + 1;
  }

  lemma {:induction false} SubsetSize<T>(s: set<T>, t: set<T>)
    requires s <= t
    ensures |s| <= |t|
  {
    if s != {} {
      var x :| x in s;
      SubsetSize(s - {x}, t - {x});
    }
  }

  // The whole first-parent line of tip, oldest first.
  function FirstParentLine(g: Dag, tip: Hash): (line: seq<Hash>)
    ensures tip in g.parents ==> |line| > 0 && line[|line| - 1] == tip
    ensures forall c | c in line :: c in g.parents
    decreases if tip in g.parents then g.generation[tip] + 1 else 0
  {
    if tip !in g.parents then []
    else (if g.parents[tip] == [] then [] else FirstParentLine(g, g.parents[tip][0])) + [tip]
  }

  // git rev-list --first-parent --reverse [base..]tip: the walk stops at anything the base reaches.
  function RevListFirstParent(g: Dag, base: Hash, tip: Hash): (commits: seq<Hash>)
    ensures tip in g.parents && tip !in Reach(g, base) ==> |commits| > 0 && commits[|commits| - 1] == tip
    decreases if tip in g.parents then g.generation[tip] + 1 else 0
  {
    if tip !in g.parents || tip in Reach(g, base) then []
    else (if g.parents[tip] == [] then [] else RevListFirstParent(g, base, g.parents[tip][0])) + [tip]
  }

  // Each commit of a line is an ancestor of every later one, and so they are all distinct.
  ghost predicate AncestryLine(g: Dag, line: seq<Hash>) {
    && (forall c | c in line :: c in g.parents)
    && (forall i, j | 0 <= i < j < |line| :: IsAncestor(g, line[i], line[j]) && line[i] != line[j])
  }

  lemma LineStepsUp(g: Dag, c: Hash, p: Hash, tip: Hash)
    requires tip in g.parents && p in g.parents[tip] && IsAncestor(g, c, p)
    ensures IsAncestor(g, c, tip) && c != tip
  {
    if c == tip { ProperAncestorIsOlder(g, tip, p); }
  }

  lemma {:induction false} FirstParentLineIsAncestry(g: Dag, tip: Hash)
    requires tip in g.parents
    ensures AncestryLine(g, FirstParentLine(g, tip))
    decreases g.generation[tip]
  {
    hide Reach;
    if g.parents[tip] != [] {
      var p := g.parents[tip][0];
      assert p in g.parents[tip];
      FirstParentLineIsAncestry(g, p);
      var line, shorter := FirstParentLine(g, tip), FirstParentLine(g, p);
      forall i | 0 <= i < |shorter| ensures IsAncestor(g, line[i], tip) && line[i] != tip {
        LineStepsUp(g, line[i], p, tip);
      }
    }
  }

  // The line begins at a root, and each commit's first parent is the one before it.
  lemma {:induction false} LineFollowsFirstParents(g: Dag, tip: Hash, i: nat)
    requires tip in g.parents && i < |FirstParentLine(g, tip)|
    ensures var line := FirstParentLine(g, tip);
      if i == 0 then g.parents[line[0]] == [] else g.parents[line[i]] != [] && g.parents[line[i]][0] == line[i - 1]
    decreases g.generation[tip]
  {
    if g.parents[tip] != [] {
      var p := g.parents[tip][0];
      assert p in g.parents[tip];
      if i < |FirstParentLine(g, p)| { LineFollowsFirstParents(g, p, i); }
    }
  }

  lemma LineIsReached(g: Dag, tip: Hash, c: Hash)
    requires tip in g.parents && c in FirstParentLine(g, tip)
    ensures IsAncestor(g, c, tip)
  {
    hide Reach;
    FirstParentLineIsAncestry(g, tip);
    var line := FirstParentLine(g, tip);
    var i :| 0 <= i < |line| && line[i] == c;
    if i < |line| - 1 { assert IsAncestor(g, line[i], line[|line| - 1]); }
  }

  // Exactly the first k commits of a line are reached by base.
  ghost predicate ReachedUpTo(g: Dag, line: seq<Hash>, base: Hash, k: nat) {
    k <= |line| && forall i | 0 <= i < |line| :: i < k <==> IsAncestor(g, line[i], base)
  }

  lemma ReachedExtends(g: Dag, shorter: seq<Hash>, tip: Hash, base: Hash, k: nat)
    requires ReachedUpTo(g, shorter, base, k) && !IsAncestor(g, tip, base)
    ensures ReachedUpTo(g, shorter + [tip], base, k)
    ensures (shorter + [tip])[k..] == shorter[k..] + [tip]
  {}

  // The walk is exactly the part of the first-parent line the base does not reach, and that part is a suffix.
  lemma {:induction false} RevListIsSuffix(g: Dag, base: Hash, tip: Hash) returns (k: nat)
    requires tip in g.parents
    ensures ReachedUpTo(g, FirstParentLine(g, tip), base, k)
    ensures RevListFirstParent(g, base, tip) == FirstParentLine(g, tip)[k..]
    decreases g.generation[tip]
  {
    hide Reach;
    var line := FirstParentLine(g, tip);
    if tip in Reach(g, base) {
      k := |line|;
      forall i | 0 <= i < |line| ensures IsAncestor(g, line[i], base) {
        LineIsReached(g, tip, line[i]);
        AncestorTransitive(g, line[i], tip, base);
      }
    } else if g.parents[tip] == [] {
      k := 0;
      ReachedExtends(g, [], tip, base, 0);
    } else {
      var p := g.parents[tip][0];
      assert p in g.parents[tip];
      k := RevListIsSuffix(g, base, p);
      ReachedExtends(g, FirstParentLine(g, p), tip, base, k);
    }
  }

  // ----- Bundles -----

  // The commits a bundle base..end carries.
  function Carried(g: Dag, base: Hash, end: Hash): set<Hash> {
    Reach(g, end) - Reach(g, base)
  }

  // Commits the receiving repository must already hold: excluded parents of carried commits.
  function Prerequisites(g: Dag, base: Hash, end: Hash): set<Hash> {
    set c, p | c in Carried(g, base, end) && p in g.parents[c] && p !in Carried(g, base, end) :: p
  }

  lemma PrerequisitesAreInBase(g: Dag, base: Hash, end: Hash)
    ensures Prerequisites(g, base, end) <= Reach(g, base)
  {
    ReachIsClosed(g, end);
  }

  // Receiving a bundle keeps a parent-closed repository parent-closed and completes its end.
  lemma UnbundleCompletes(g: Dag, local: set<Hash>, base: Hash, end: Hash)
    requires Closed(g, local) && Reach(g, base) <= local
    ensures Prerequisites(g, base, end) <= local
    ensures Closed(g, local + Carried(g, base, end))
    ensures Reach(g, end) <= local + Carried(g, base, end)
  {
    PrerequisitesAreInBase(g, base, end);
    ReachIsClosed(g, end);
  }
}
