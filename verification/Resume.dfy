/** Resuming an interrupted push: discovery of its completed bundles and choice of the prefix to keep. */
module Resume {
  import opened Wrappers
  import opened Ordering
  import opened Names
  import opened Planner

  // ----- Discovery -----

  datatype ListedObject = ListedObject(key: string, size: int, etag: string)

  datatype ResumeError = InvalidObject(key: string) | ConflictingDescriptors(key: string) | Plan(error: PlanError)
    | InvalidRange

  // A listed object names a completed range of this push.
  predicate Acceptable(prefix: string, tip: Hash, listed: ListedObject) {
    && prefix <= listed.key
    && ParseRange(listed.key[|prefix|..]).Some?
    && |RangeEnd(listed.key[|prefix|..])| == |tip|
    && listed.size > 0 && listed.etag != ""
  }

  // Discovery takes exactly the objects that could stand in a manifest under this push's own key.
  lemma AcceptableIffStorable(repo: Repository, tip: Hash, listed: ListedObject)
    requires IsObjectId(tip) && repo.BundleKey(tip, "") <= listed.key
    ensures var prefix := repo.BundleKey(tip, "");
      Acceptable(prefix, tip, listed) <==>
        && ParseRange(listed.key[|prefix|..]).Some? && PushTipKey(repo, Described(prefix, [], listed))
        && listed.size > 0 && listed.etag != ""
  {
    hide ParseRange, Split, IsObjectId, RangeEnd, Repository.Bundles;
    var prefix := repo.BundleKey(tip, "");
    var name := listed.key[|prefix|..];
    if ParseRange(name).Some? {
      RangeNameRoundTrip(name);
      ObjectIdHasNoSlash(tip);
      ConcatAssociates(repo.Bundles(), tip + "/", name);
      assert listed.key == prefix + name == repo.Bundles() + (tip + "/" + name);
      PrefixDrops(repo.Bundles(), tip + "/" + name);
      SplitPair(tip, name);
    }
  }

  function Described(prefix: string, recipients: seq<string>, listed: ListedObject): BundleRef
    requires prefix <= listed.key
  {
    BundleRef(listed.key[|prefix|..], listed.key, listed.size, listed.etag, recipients)
  }

  // What discovery promises: one descriptor per listed object, keyed by its range, and nothing else.
  ghost predicate Discovered(refs: map<string, BundleRef>, prefix: string, tip: Hash, recipients: seq<string>,
    objects: seq<ListedObject>) {
    && (forall o | o in objects ::
      Acceptable(prefix, tip, o) && o.key[|prefix|..] in refs
      && refs[o.key[|prefix|..]] == Described(prefix, recipients, o))
    && (forall name | name in refs :: exists o :: o in objects && prefix <= o.key && name == o.key[|prefix|..])
  }

  // Some listed object is no completed range of this push, or two listings of one key disagree.
  ghost predicate Unusable(prefix: string, tip: Hash, objects: seq<ListedObject>) {
    || (exists o :: o in objects && !Acceptable(prefix, tip, o))
    || (exists o, p :: o in objects && p in objects && o.key == p.key && o != p)
  }

  method AddPage(refs: map<string, BundleRef>, page: seq<ListedObject>, prefix: string, tip: Hash,
    recipients: seq<string>, ghost seen: seq<ListedObject>)
    returns (result: Result<map<string, BundleRef>, ResumeError>)
    requires Discovered(refs, prefix, tip, recipients, seen)
    ensures result.Success? ==> Discovered(result.value, prefix, tip, recipients, seen + page)
    ensures result.Failure? ==> Unusable(prefix, tip, seen + page)
  {
    hide Acceptable, Described, Discovered;
    var found := refs;
    assert seen + page[..0] == seen;
    for j := 0 to |page|
      invariant Discovered(found, prefix, tip, recipients, seen + page[..j])
    {
      var listed := page[j];
      ghost var before := seen + page[..j];
      assert listed in seen + page && forall o | o in before :: o in seen + page;
      if !Acceptable(prefix, tip, listed) {
        return Failure(InvalidObject(listed.key));
      }
      AcceptableKey(prefix, tip, listed);
      var name, ref := listed.key[|prefix|..], Described(prefix, recipients, listed);
      if name in found && found[name] != ref {
        KeysTell(found, prefix, tip, recipients, before, listed);
        return Failure(ConflictingDescriptors(listed.key));
      }
      DiscoverOne(found, prefix, tip, recipients, before, listed);
      found := found[name := ref];
      assert seen + page[..j + 1] == before + [listed];
    }
    assert page[..|page|] == page;
    return Success(found);
  }

  lemma AcceptableKey(prefix: string, tip: Hash, listed: ListedObject)
    requires Acceptable(prefix, tip, listed)
    ensures prefix <= listed.key
  {}

  // Pages of an object listing; a later page that repeats an object must repeat its identity.
  method ListPushBundles(pages: seq<seq<ListedObject>>, repo: Repository, tip: Hash, recipients: seq<string>)
    returns (result: Result<map<string, BundleRef>, ResumeError>)
    ensures result.Success? ==> Discovered(result.value, repo.BundleKey(tip, ""), tip, recipients, Concat(pages))
    ensures result.Failure? <==> Unusable(repo.BundleKey(tip, ""), tip, Concat(pages))
  {
    var prefix := repo.BundleKey(tip, "");
    result := Success(map[]);
    for i := 0 to |pages|
      invariant result.Success? && Discovered(result.value, prefix, tip, recipients, Concat(pages[..i]))
    {
      hide Acceptable, Described, Discovered;
      ConcatStep(pages, i);
      result := AddPage(result.value, pages[i], prefix, tip, recipients, Concat(pages[..i]));
      if result.Failure? {
        ConcatPrefix(pages, i + 1);
        return;
      }
    }
    assert pages[..|pages|] == pages;
    DiscoveredIsUsable(result.value, prefix, tip, recipients, Concat(pages));
  }

  // One descriptor per range leaves no room for two listings of one key that disagree.
  lemma DiscoveredIsUsable(refs: map<string, BundleRef>, prefix: string, tip: Hash, recipients: seq<string>,
    objects: seq<ListedObject>)
    requires Discovered(refs, prefix, tip, recipients, objects)
    ensures !Unusable(prefix, tip, objects)
  {
    hide Acceptable;
    forall o, p | o in objects && p in objects && o.key == p.key ensures o == p {
      assert Acceptable(prefix, tip, o) && Acceptable(prefix, tip, p);
      AcceptableKey(prefix, tip, o);
      AcceptableKey(prefix, tip, p);
    }
  }

  function Concat<T>(pages: seq<seq<T>>): seq<T> {
    if pages == [] then [] else Concat(pages[..|pages| - 1]) + pages[|pages| - 1]
  }

  lemma ConcatStep<T>(pages: seq<seq<T>>, i: nat)
    requires i < |pages|
    ensures Concat(pages[..i + 1]) == Concat(pages[..i]) + pages[i]
  {
    assert pages[..i + 1][..i] == pages[..i];
  }

  lemma {:induction false} ConcatPrefix<T>(pages: seq<seq<T>>, i: nat)
    requires i <= |pages|
    ensures forall x | x in Concat(pages[..i]) :: x in Concat(pages)
    decreases |pages| - i
  {
    if i == |pages| {
      assert pages[..i] == pages;
    } else {
      ConcatStep(pages, i);
      ConcatPrefix(pages, i + 1);
    }
  }

  lemma KeysTell(refs: map<string, BundleRef>, prefix: string, tip: Hash, recipients: seq<string>,
    seen: seq<ListedObject>, listed: ListedObject)
    requires Discovered(refs, prefix, tip, recipients, seen) && prefix <= listed.key
    requires listed.key[|prefix|..] in refs && refs[listed.key[|prefix|..]] != Described(prefix, recipients, listed)
    ensures exists o :: o in seen && o.key == listed.key && o != listed
  {
    hide ParseRange, RangeEnd;
    var o :| o in seen && prefix <= o.key && listed.key[|prefix|..] == o.key[|prefix|..];
    assert o.key == prefix + o.key[|prefix|..] && listed.key == prefix + listed.key[|prefix|..];
  }

  lemma DiscoverOne(refs: map<string, BundleRef>, prefix: string, tip: Hash, recipients: seq<string>,
    seen: seq<ListedObject>, listed: ListedObject)
    requires Discovered(refs, prefix, tip, recipients, seen) && Acceptable(prefix, tip, listed)
    requires var name := listed.key[|prefix|..]; name in refs ==> refs[name] == Described(prefix, recipients, listed)
    ensures Discovered(refs[listed.key[|prefix|..] := Described(prefix, recipients, listed)], prefix, tip, recipients,
      seen + [listed])
  {
    hide ParseRange, RangeEnd;
    var more, name := seen + [listed], listed.key[|prefix|..];
    assert listed in more;
    assert forall o | o in seen :: o in more;
  }

  // ----- Edges -----

  // A completed range as a forward step between boundary positions.
  datatype Edge = Edge(ref: BundleRef, from: nat, to: nat)

  function Positions(start: Hash, commits: seq<Hash>): map<Hash, nat> {
    if commits == [] then map[start := 0] else
      var n := |commits| - 1;
      Positions(start, commits[..n])[commits[n] := n + 1]
  }

  function EdgeOf(ref: BundleRef, position: map<Hash, nat>): Option<Edge> {
    var first, last := RangeBase(ref.range), RangeEnd(ref.range);
    if ParseRange(ref.range).Some? && first in position && last in position && position[first] < position[last]
    then Some(Edge(ref, position[first], position[last])) else None
  }

  function EdgesOf(refs: map<string, BundleRef>, position: map<Hash, nat>): set<Edge> {
    set name | name in refs.Keys && EdgeOf(refs[name], position).Some? :: EdgeOf(refs[name], position).value
  }

  predicate Before(a: Edge, b: Edge) {
    a.to < b.to || (a.to == b.to && Leq(a.ref.key, b.ref.key))
  }

  ghost predicate Ordered(edges: seq<Edge>) {
    forall i, j | 0 <= i < j < |edges| :: Before(edges[i], edges[j])
  }

  lemma BeforeTotal(a: Edge, b: Edge)
    ensures Before(a, b) || Before(b, a)
  {
    LeqTotal(a.ref.key, b.ref.key);
  }

  lemma BeforeTransitive(a: Edge, b: Edge, c: Edge)
    requires Before(a, b) && Before(b, c)
    ensures Before(a, c)
  {
    if a.to == b.to == c.to { LeqTransitive(a.ref.key, b.ref.key, c.ref.key); }
  }

  method InsertEdge(edges: seq<Edge>, e: Edge) returns (r: seq<Edge>)
    requires Ordered(edges)
    ensures Ordered(r) && multiset(r) == multiset(edges) + multiset{e}
  {
    hide Before;
    var k := |edges|;
    while k > 0 && !Before(edges[k - 1], e)
      invariant 0 <= k <= |edges|
      invariant forall i | k <= i < |edges| :: Before(e, edges[i])
    {
      BeforeTotal(edges[k - 1], e);
      k := k - 1;
    }
    r := edges[..k] + [e] + edges[k..];
    assert edges == edges[..k] + edges[k..];
    forall i | 0 <= i < k ensures Before(edges[i], e) {
      if i < k - 1 { BeforeTransitive(edges[i], edges[k - 1], e); }
    }
  }

  method SortEdges(edges: seq<Edge>) returns (r: seq<Edge>)
    ensures Ordered(r)
    ensures forall e :: e in r <==> e in edges
  {
    hide Before;
    r := [];
    for i := 0 to |edges|
      invariant Ordered(r) && multiset(r) == multiset(edges[..i])
    {
      r := InsertEdge(r, edges[i]);
      assert edges[..i + 1] == edges[..i] + [edges[i]];
    }
    assert edges[..|edges|] == edges;
    forall e ensures e in r <==> e in edges {
      assert e in r <==> e in multiset(r);
      assert e in edges <==> e in multiset(edges);
    }
  }

  // ----- What the best prefix is -----

  ghost predicate Path(edges: set<Edge>, p: seq<Edge>, from: nat, to: nat) {
    if p == [] then from == to else
      var e := p[|p| - 1];
      e in edges && e.to == to && Path(edges, p[..|p| - 1], from, e.from)
  }

  function EndOf(p: seq<Edge>): nat {
    if p == [] then 0 else p[|p| - 1].to
  }

  // No shorter path reaches where step i ends, and no equally short one ends with a smaller key.
  ghost predicate Stable(edges: set<Edge>, p: seq<Edge>, i: nat)
    requires i < |p|
  {
    forall q: seq<Edge> | Path(edges, q, 0, p[i].to) && q != [] ::
      i + 1 <= |q| && (|q| == i + 1 ==> Leq(p[i].ref.key, q[|q| - 1].ref.key))
  }

  // The furthest boundary, by the fewest ranges, with ties to the smallest key at each backward step.
  ghost predicate Selected(edges: set<Edge>, p: seq<Edge>) {
    && Path(edges, p, 0, EndOf(p))
    && (forall q, k: nat | Path(edges, q, 0, k) :: k <= EndOf(p))
    && (forall i | 0 <= i < |p| :: Stable(edges, p, i))
  }

  ghost predicate Forward(edges: set<Edge>) {
    forall e | e in edges :: e.from < e.to
  }

  ghost predicate DistinctKeys(edges: set<Edge>) {
    forall a, b | a in edges && b in edges && a.ref.key == b.ref.key :: a == b
  }

  lemma {:induction false} PathPrefix(edges: set<Edge>, p: seq<Edge>, to: nat, i: nat)
    requires Path(edges, p, 0, to) && i <= |p|
    ensures Path(edges, p[..i], 0, EndOf(p[..i]))
    ensures i > 0 ==> p[i - 1] in edges && EndOf(p[..i - 1]) == p[i - 1].from
  {
    if i == |p| {
      assert p[..i] == p;
      if i > 1 { PathPrefix(edges, p[..i - 1], p[i - 1].from, i - 1); assert p[..i - 1][..i - 1] == p[..i - 1]; }
    } else {
      var n := |p| - 1;
      PathPrefix(edges, p[..n], p[n].from, i);
      assert p[..n][..i] == p[..i];
      if i > 0 { assert p[..n][..i - 1] == p[..i - 1]; }
    }
  }

  // The selection is a function of the set of completed ranges: map and completion order cannot matter.
  lemma SelectionIsUnique(edges: set<Edge>, p: seq<Edge>, q: seq<Edge>)
    requires Forward(edges) && DistinctKeys(edges)
    requires Selected(edges, p) && Selected(edges, q)
    ensures p == q
  {
    hide Leq;
    assert EndOf(p) == EndOf(q);
    assert |p| == |q| by {
      if p != [] { StepsMoveForward(edges, p); }
      if q != [] { StepsMoveForward(edges, q); }
      if p != [] && q != [] {
        assert Stable(edges, p, |p| - 1) && Stable(edges, q, |q| - 1);
      }
    }
    assert p[..|p|] == p && q[..|q|] == q;
    SameSuffix(edges, p, q, |p|);
    assert p == p[0..] && q == q[0..];
  }

  lemma StepsMoveForward(edges: set<Edge>, p: seq<Edge>)
    requires Forward(edges) && p != [] && Path(edges, p, 0, EndOf(p))
    ensures EndOf(p) > 0
  {
    assert p[|p| - 1] in edges;
  }

  lemma {:induction false} SameSuffix(edges: set<Edge>, p: seq<Edge>, q: seq<Edge>, i: nat)
    requires DistinctKeys(edges) && Selected(edges, p) && Selected(edges, q)
    requires i <= |p| == |q| && EndOf(p[..i]) == EndOf(q[..i])
    ensures p[..i] == q[..i]
  {
    hide Leq;
    if i > 0 {
      PathPrefix(edges, p, EndOf(p), i);
      PathPrefix(edges, q, EndOf(q), i);
      assert Stable(edges, p, i - 1) && Stable(edges, q, i - 1);
      assert p[..i][i - 1] == p[i - 1] && q[..i][i - 1] == q[i - 1];
      LeqAntisymmetric(p[i - 1].ref.key, q[i - 1].ref.key);
      SameSuffix(edges, p, q, i - 1);
      assert p[..i] == p[..i - 1] + [p[i - 1]] && q[..i] == q[..i - 1] + [q[i - 1]];
    }
  }
}
