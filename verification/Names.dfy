/** Textual names shared by every component: object IDs, bundle ranges, storage keys. */
module Wrappers {
  datatype Option<+T> = None | Some(value: T)

  datatype Result<+T, +E> = Success(value: T) | Failure(error: E)
}

module Names {
  import opened Wrappers

  type Hash = string

  predicate HexDigit(c: char) {
    '0' <= c <= '9' || 'a' <= c <= 'f'
  }

  predicate IsHex(s: string) {
    forall i | 0 <= i < |s| :: HexDigit(s[i])
  }

  // SHA-1 or SHA-256, lower-case hexadecimal.
  predicate IsObjectId(s: string) {
    (|s| == 40 || |s| == 64) && IsHex(s)
  }

  function Zeros(n: nat): string {
    seq(n, _ => '0')
  }

  // ----- Bundle ranges: BASE..END -----

  function RangeName(base: Hash, end: Hash): string {
    base + ".." + end
  }

  predicate ValidRange(base: Hash, end: Hash) {
    IsObjectId(base) && IsObjectId(end) && |base| == |end| && base != end && end != Zeros(|end|)
  }

  // Both halves of a range name have one length, so the separator's place is fixed.
  function ParseRange(name: string): Option<(Hash, Hash)> {
    if |name| == 82 || |name| == 130 then
      var n := (|name| - 2) / 2;
      var base, end := name[..n], name[n + 2..];
      if name[n..n + 2] == ".." && ValidRange(base, end) then Some((base, end)) else None
    else
      None
  }

  function RangeBase(name: string): Hash {
    if ParseRange(name).Some? then ParseRange(name).value.0 else ""
  }

  function RangeEnd(name: string): Hash {
    if ParseRange(name).Some? then ParseRange(name).value.1 else ""
  }

  lemma ParseRangeRoundTrip(base: Hash, end: Hash)
    ensures |base| == |end| ==> ParseRange(RangeName(base, end)) == if ValidRange(base, end) then Some((base, end))
      else None
  {
    if |base| == |end| {
      var name := RangeName(base, end);
      var n := |base|;
      assert name[..n] == base && name[n..n + 2] == ".." && name[n + 2..] == end;
    }
  }

  // Said of the text alone: two lower-case hexadecimal halves of 40 or 64 digits, different, the second not all zeros.
  lemma RangeTextIsExact(base: Hash, end: Hash)
    requires |base| == |end|
    ensures ParseRange(RangeName(base, end)).Some? <==>
      && |base| in {40, 64} && base != end && (exists i | 0 <= i < |end| :: end[i] != '0')
      && forall c | c in base + end :: '0' <= c <= '9' || 'a' <= c <= 'f'
  {
    hide ParseRange;
    ParseRangeRoundTrip(base, end);
    var all := base + end;
    assert forall i | 0 <= i < |base| :: all[i] == base[i] && all[|base| + i] == end[i];
    assert (forall i | 0 <= i < |end| :: end[i] == '0') ==> end == Zeros(|end|);
    assert (forall c | c in all :: HexDigit(c)) ==> IsHex(base) && IsHex(end) by {
      assert forall i | 0 <= i < |base| :: base[i] in all && end[i] in all;
    }
  }

  lemma RangeNameRoundTrip(name: string)
    requires ParseRange(name).Some?
    ensures name == RangeName(RangeBase(name), RangeEnd(name))
    ensures ValidRange(RangeBase(name), RangeEnd(name))
    ensures '/' !in name
  {
    var n := (|name| - 2) / 2;
    assert name == name[..n] + name[n..n + 2] + name[n + 2..];
    forall i | 0 <= i < |name| ensures name[i] != '/' {
      if i < n {
        assert name[i] == RangeBase(name)[i];
      } else if i < n + 2 {
        assert name[i] == ".."[i - n];
      } else {
        assert name[i] == RangeEnd(name)[i - n - 2];
      }
    }
  }

  // ----- Path splitting -----

  function CutPrefix(s: string, prefix: string): Option<string> {
    if prefix <= s then Some(s[|prefix|..]) else None
  }

  // The first slash of s, or |s| when there is none.
  function FirstSlash(s: string): (i: nat)
    ensures i <= |s| && '/' !in s[..i]
    ensures i < |s| ==> s[i] == '/'
  {
    if s == "" || s[0] == '/' then 0 else
      var j := FirstSlash(s[1..]);
      assert s[..j + 1] == [s[0]] + s[1..][..j];
      j + 1
  }

  function Split(s: string): seq<string> {
    var i := FirstSlash(s);
    if i == |s| then [s] else [s[..i]] + Split(s[i + 1..])
  }

  lemma SplitLeaf(s: string)
    requires '/' !in s
    ensures Split(s) == [s]
  {}

  lemma SplitCons(a: string, rest: string)
    requires '/' !in a
    ensures Split(a + "/" + rest) == [a] + Split(rest)
  {
    var s := a + "/" + rest;
    var i := FirstSlash(s);
    assert s[|a|] == '/';
    assert forall k | 0 <= k < |a| :: s[k] == a[k];
    assert forall k | 0 <= k < i :: s[..i][k] != '/';
    assert i == |a|;
    assert s[..i] == a && s[i + 1..] == rest;
  }

  lemma SplitTwo(s: string)
    requires |Split(s)| == 2
    ensures s == Split(s)[0] + "/" + Split(s)[1]
    ensures '/' !in Split(s)[0] && '/' !in Split(s)[1]
  {
    var i := FirstSlash(s);
    assert i < |s|;
    var t := s[i + 1..];
    assert s == s[..i] + [s[i]] + t;
    assert Split(s) == [s[..i]] + Split(t);
    assert FirstSlash(t) == |t| && t[..|t|] == t;
  }

  // ----- Repositories and storage keys -----

  predicate ComponentStart(c: char) {
    'A' <= c <= 'Z' || 'a' <= c <= 'z' || '0' <= c <= '9'
  }

  predicate IsComponent(s: string) {
    && |s| > 0 && ComponentStart(s[0])
    && forall i | 0 <= i < |s| :: ComponentStart(s[i]) || s[i] == '.' || s[i] == '_' || s[i] == '-'
  }

  datatype Repository = Repository(namespace: string, name: string) {
    function Canonical(): string { namespace + "/" + name }

    function Id(): string { if name == "1" then namespace else Canonical() }

    function Root(): string { namespace + "/" + (".remote-aws-v2" + "/") }

    function Bundles(): string { Root() + ("bundles" + "/") }

    function Manifests(): string { Root() + ("repos" + "/") + (name + "/" + ("manifests" + "/")) }

    function BundleKey(tip: Hash, name: string): string { Bundles() + tip + "/" + name }

    predicate Valid() { IsComponent(namespace) && IsComponent(name) }
  }

  // A repository as it is named on the command line: a namespace, or a namespace and a name, with or without a final
  // slash.
  function ParseRepository(prefix: string): Option<Repository> {
    var trimmed := if prefix != "" && prefix[|prefix| - 1] == '/' then prefix[..|prefix| - 1] else prefix;
    var split := Split(trimmed);
    var parts := if |split| == 1 then split + ["1"] else split;
    if |parts| == 2 && IsComponent(parts[0]) && IsComponent(parts[1]) then Some(Repository(parts[0], parts[1]))
    else None
  }

  // A text names a repository exactly if it is that repository's identity or its canonical name, up to a final slash;
  // so the default repository answers to both, and no text names two repositories.
  lemma ParsedIsNamed(prefix: string, repo: Repository)
    ensures ParseRepository(prefix) == Some(repo) <==>
      repo.Valid() && prefix in {repo.Id(), repo.Canonical(), repo.Id() + "/", repo.Canonical() + "/"}
  {
    hide Split, IsComponent;
    var trimmed := if prefix != "" && prefix[|prefix| - 1] == '/' then prefix[..|prefix| - 1] else prefix;
    assert prefix == trimmed || prefix == trimmed + "/";
    OneIsComponent();
    if ParseRepository(prefix) == Some(repo) {
      if |Split(trimmed)| == 1 { SplitOne(trimmed); } else { SplitTwo(trimmed); }
    }
    if repo.Valid() {
      NoSlashInComponent(repo.namespace);
      NoSlashInComponent(repo.name);
      SplitLeaf(repo.namespace);
      SplitPair(repo.namespace, repo.name);
      Trims(repo.namespace, repo.name);
    }
  }

  // A repository's names do not end with a slash themselves.
  lemma Trims(namespace: string, name: string)
    requires IsComponent(namespace) && IsComponent(name)
    ensures namespace[|namespace| - 1] != '/' && (namespace + "/" + name)[|namespace| + |name|] != '/'
    ensures (namespace + "/")[..|namespace|] == namespace
    ensures (namespace + "/" + name + "/")[..|namespace| + 1 + |name|] == namespace + "/" + name
  {
    NoSlashInComponent(namespace);
    NoSlashInComponent(name);
  }

  lemma OneIsComponent()
    ensures IsComponent("1")
  {}

  lemma SplitOne(s: string)
    requires |Split(s)| == 1
    ensures Split(s) == [s] && '/' !in s
  {
    assert s[..|s|] == s;
  }

  datatype BundleRef = BundleRef(range: string, key: string, size: int, etag: string, recipients: seq<string>)

  predicate LegacyDefaultKey(repo: Repository, bundle: BundleRef) {
    bundle.key == repo.namespace + "/" + bundle.range
  }

  predicate LegacyNamedKey(repo: Repository, bundle: BundleRef) {
    var tail := CutPrefix(bundle.key, repo.namespace + "/");
    tail.Some? && var parts := Split(tail.value);
    |parts| == 2 && IsComponent(parts[0]) && parts[1] == bundle.range
  }

  predicate PushTipKey(repo: Repository, bundle: BundleRef) {
    var tail := CutPrefix(bundle.key, repo.Bundles());
    tail.Some? && var parts := Split(tail.value);
    |parts| == 2 && IsObjectId(parts[0]) && |parts[0]| == |RangeEnd(bundle.range)| && parts[1] == bundle.range
  }

  predicate ValidBundleKey(repo: Repository, bundle: BundleRef) {
    LegacyDefaultKey(repo, bundle) || LegacyNamedKey(repo, bundle) || PushTipKey(repo, bundle)
  }

  lemma ConcatAssociates(p: string, q: string, r: string)
    ensures p + q + r == p + (q + r)
  {}

  lemma PrefixDrops(prefix: string, tail: string)
    ensures prefix <= prefix + tail && (prefix + tail)[|prefix|..] == tail
    ensures CutPrefix(prefix + tail, prefix) == Some(tail)
  {}

  lemma ObjectIdHasNoSlash(id: string)
    requires IsObjectId(id)
    ensures '/' !in id
  {
    forall i | 0 <= i < |id| ensures id[i] != '/' { assert HexDigit(id[i]); }
  }

  lemma SplitPair(a: string, b: string)
    requires '/' !in a && '/' !in b
    ensures Split(a + "/" + b) == [a, b]
  {
    hide Split;
    SplitCons(a, b);
    SplitLeaf(b);
  }

  // A push's own key is the bundles prefix followed by the tip and the range.
  lemma BundleKeyTail(repo: Repository, tip: Hash, name: string)
    ensures repo.BundleKey(tip, name) == repo.Bundles() + (tip + "/" + name)
  {
    hide Repository.Bundles;
    ConcatAssociates(repo.Bundles() + tip, "/", name);
    ConcatAssociates(repo.Bundles(), tip, "/" + name);
    ConcatAssociates(tip, "/", name);
  }

  // Every key a push writes is one that manifest validation accepts.
  lemma BundleKeyIsValid(repo: Repository, tip: Hash, bundle: BundleRef)
    requires ParseRange(bundle.range).Some?
    requires IsObjectId(tip) && |tip| == |RangeEnd(bundle.range)|
    requires bundle.key == repo.BundleKey(tip, bundle.range)
    ensures ValidBundleKey(repo, bundle)
  {
    hide ParseRange, RangeEnd, Split, CutPrefix, IsObjectId, Repository.Bundles, Repository.BundleKey,
      LegacyDefaultKey, LegacyNamedKey;
    RangeNameRoundTrip(bundle.range);
    ObjectIdHasNoSlash(tip);
    BundleKeyTail(repo, tip, bundle.range);
    PrefixDrops(repo.Bundles(), tip + "/" + bundle.range);
    SplitPair(tip, bundle.range);
  }

  // The three places a bundle may be stored at: beside a default or a named legacy list, and under its push's tip.
  ghost predicate Placed(repo: Repository, bundle: BundleRef) {
    || bundle.key == repo.namespace + "/" + bundle.range
    || (exists name :: IsComponent(name) && bundle.key == repo.namespace + "/" + (name + "/" + bundle.range))
    || (exists tip :: IsObjectId(tip) && |tip| == |RangeEnd(bundle.range)|
                      && bundle.key == repo.namespace + "/.remote-aws-v2/bundles/" + (tip + "/" + bundle.range))
  }

  lemma BundlesPlace(repo: Repository)
    ensures repo.Bundles() == repo.namespace + "/.remote-aws-v2/bundles/"
  {
    ConcatAssociates(repo.namespace, "/", ".remote-aws-v2" + "/");
    ConcatAssociates(repo.namespace, "/" + (".remote-aws-v2" + "/"), "bundles" + "/");
    assert "/" + (".remote-aws-v2" + "/") + ("bundles" + "/") == "/.remote-aws-v2/bundles/";
  }

  // The key check accepts exactly those places.
  lemma ValidIffPlaced(repo: Repository, bundle: BundleRef)
    requires ParseRange(bundle.range).Some?
    ensures ValidBundleKey(repo, bundle) <==> Placed(repo, bundle)
  {
    hide ParseRange, RangeEnd, Split, IsObjectId, IsComponent, Repository.Bundles, CutPrefix;
    RangeNameRoundTrip(bundle.range);
    BundlesPlace(repo);
    if LegacyNamedKey(repo, bundle) {
      var name := TwoParts(bundle.key, repo.namespace + "/", bundle.range);
      assert IsComponent(name);
    }
    if PushTipKey(repo, bundle) {
      var tip := TwoParts(bundle.key, repo.Bundles(), bundle.range);
      assert IsObjectId(tip);
    }
    forall name | IsComponent(name) && bundle.key == repo.namespace + "/" + (name + "/" + bundle.range)
      ensures LegacyNamedKey(repo, bundle)
    {
      NoSlashInComponent(name);
      PrefixDrops(repo.namespace + "/", name + "/" + bundle.range);
      SplitPair(name, bundle.range);
    }
    forall tip | IsObjectId(tip) && |tip| == |RangeEnd(bundle.range)|
                 && bundle.key == repo.namespace + "/.remote-aws-v2/bundles/" + (tip + "/" + bundle.range)
      ensures PushTipKey(repo, bundle)
    {
      ObjectIdHasNoSlash(tip);
      PrefixDrops(repo.Bundles(), tip + "/" + bundle.range);
      SplitPair(tip, bundle.range);
    }
  }

  // What is left of a key below a prefix, in two parts.
  lemma TwoParts(key: string, prefix: string, leaf: string) returns (first: string)
    requires CutPrefix(key, prefix).Some?
    requires |Split(CutPrefix(key, prefix).value)| == 2 && Split(CutPrefix(key, prefix).value)[1] == leaf
    ensures first == Split(CutPrefix(key, prefix).value)[0] && key == prefix + (first + "/" + leaf)
  {
    hide Split;
    var tail := key[|prefix|..];
    SplitTwo(tail);
    first := Split(tail)[0];
    assert key == prefix + tail;
  }

  lemma TailEndsWithRange(key: string, prefix: string, range: string) returns (stem: string)
    requires prefix <= key
    requires |Split(key[|prefix|..])| == 2 && Split(key[|prefix|..])[1] == range
    ensures key == stem + "/" + range
  {
    var tail := key[|prefix|..];
    SplitTwo(tail);
    stem := prefix + Split(tail)[0];
    assert key == prefix + tail;
  }

  // An accepted key ends with a slash and the range it stores.
  lemma KeyEndsWithRange(repo: Repository, bundle: BundleRef) returns (stem: string)
    requires ValidBundleKey(repo, bundle)
    ensures bundle.key == stem + "/" + bundle.range
  {
    if LegacyDefaultKey(repo, bundle) {
      stem := repo.namespace;
    } else if LegacyNamedKey(repo, bundle) {
      stem := TailEndsWithRange(bundle.key, repo.namespace + "/", bundle.range);
    } else {
      stem := TailEndsWithRange(bundle.key, repo.Bundles(), bundle.range);
    }
  }

  lemma LastSlashUnique(a: string, x: string, b: string, y: string)
    requires a + "/" + x == b + "/" + y
    requires '/' !in x && '/' !in y
    ensures x == y
  {
    var s := a + "/" + x;
    var t := b + "/" + y;
    assert s[|a|] == '/' && t[|b|] == '/';
    assert forall k | |a| < k < |s| :: s[k] == x[k - |a| - 1];
    assert forall k | |b| < k < |t| :: t[k] == y[k - |b| - 1];
    assert x == s[|a| + 1..] && y == t[|b| + 1..];
  }

  // Two descriptors of one object always name the same range, whichever key layout they use.
  lemma KeyDeterminesRange(repo: Repository, x: BundleRef, y: BundleRef)
    requires ParseRange(x.range).Some? && ParseRange(y.range).Some?
    requires ValidBundleKey(repo, x) && ValidBundleKey(repo, y)
    requires x.key == y.key
    ensures x.range == y.range
  {
    RangeNameRoundTrip(x.range);
    RangeNameRoundTrip(y.range);
    var a := KeyEndsWithRange(repo, x);
    var b := KeyEndsWithRange(repo, y);
    LastSlashUnique(a, x.range, b, y.range);
  }

  // ----- Manifest pointers -----

  predicate ModernPointer(repo: Repository, key: string) {
    var tail := CutPrefix(key, repo.Manifests());
    tail.Some? && '/' !in tail.value
  }

  predicate LegacyPointer(repo: Repository, key: string) {
    var tail := CutPrefix(key, repo.Id() + "/bundles_");
    tail.Some? && '/' !in tail.value
  }

  // The guard of every manifest read.
  predicate ManifestPointer(repo: Repository, key: string) {
    ModernPointer(repo, key) || LegacyPointer(repo, key)
  }

  lemma NoSlashInComponent(s: string)
    requires IsComponent(s)
    ensures '/' !in s
  {
    forall i | 0 <= i < |s| ensures s[i] != '/' {
      assert ComponentStart(s[i]) || s[i] == '.' || s[i] == '_' || s[i] == '-';
    }
  }

  // How a bundle key splits below its namespace: one, two or four components.
  lemma BundleKeyParts(repo: Repository, bundle: BundleRef)
    requires repo.Valid() && ParseRange(bundle.range).Some? && ValidBundleKey(repo, bundle)
    ensures
      var p := Split(bundle.key);
      || (|p| == 2 && p[1] == bundle.range)
      || (|p| == 3 && p[2] == bundle.range)
      || (|p| == 5 && p[2] == "bundles")
  {
    hide Split, ParseRange, RangeEnd, PushTipKey, IsComponent;
    RangeNameRoundTrip(bundle.range);
    NoSlashInComponent(repo.namespace);
    if LegacyDefaultKey(repo, bundle) {
      SplitCons(repo.namespace, bundle.range);
      SplitLeaf(bundle.range);
    } else if LegacyNamedKey(repo, bundle) {
      SplitBelow1(repo.namespace, bundle.key);
    } else {
      PushTipKeyParts(repo, bundle);
    }
  }

  lemma PushTipKeyParts(repo: Repository, bundle: BundleRef)
    requires '/' !in repo.namespace && PushTipKey(repo, bundle)
    ensures |Split(bundle.key)| == 5 && Split(bundle.key)[2] == "bundles"
  {
    hide Split, ParseRange, RangeEnd;
    var tail := bundle.key[|repo.Bundles()|..];
    assert bundle.key == repo.Bundles() + tail;
    SplitCons3(repo.namespace, ".remote-aws-v2", "bundles", tail);
  }

  lemma SplitBelow1(a: string, key: string)
    requires '/' !in a && a + "/" <= key
    ensures Split(key) == [a] + Split(key[|a| + 1..])
  {
    hide Split;
    assert key == a + "/" + key[|a| + 1..];
    SplitCons(a, key[|a| + 1..]);
  }

  lemma ThreeFirst(a: string, b: string, c: string, below: seq<string>)
    ensures [a] + ([b] + ([c] + below)) == [a, b, c] + below
  {}

  lemma SplitCons3(a: string, b: string, c: string, rest: string)
    requires '/' !in a && '/' !in b && '/' !in c
    ensures Split(a + "/" + (b + "/") + (c + "/") + rest) == [a, b, c] + Split(rest)
  {
    hide Split;
    var x, y, z := a + "/", b + "/", c + "/";
    ConcatAssociates(x + y, z, rest);
    ConcatAssociates(x, y, z + rest);
    SplitCons(c, rest);
    SplitCons(b, z + rest);
    SplitCons(a, y + (z + rest));
    ThreeFirst(a, b, c, Split(rest));
  }

  lemma PointerParts(repo: Repository, key: string)
    requires repo.Valid() && ManifestPointer(repo, key)
    ensures
      var p := Split(key);
      || (|p| == 6 && p[2] == "repos")
      || ((|p| == 2 || |p| == 3) && "bundles_" <= p[|p| - 1])
  {
    NoSlashInComponent(repo.namespace);
    NoSlashInComponent(repo.name);
    if ModernPointer(repo, key) {
      ModernPointerParts(repo, key);
    } else {
      LegacyPointerParts(repo, key);
    }
  }

  lemma ModernPointerParts(repo: Repository, key: string)
    requires '/' !in repo.namespace && '/' !in repo.name && ModernPointer(repo, key)
    ensures |Split(key)| == 6 && Split(key)[2] == "repos"
  {
    hide Split;
    var tail := key[|repo.Manifests()|..];
    var rest := repo.name + "/" + ("manifests" + "/" + tail);
    assert key == repo.Root() + ("repos" + "/") + rest by {
      assert key == repo.Manifests() + tail;
      ConcatAssociates(repo.Root() + ("repos" + "/"), repo.name + "/" + ("manifests" + "/"), tail);
      ConcatAssociates(repo.name + "/", "manifests" + "/", tail);
    }
    SplitCons3(repo.namespace, ".remote-aws-v2", "repos", rest);
    SplitCons(repo.name, "manifests" + "/" + tail);
    SplitCons("manifests", tail);
    SplitLeaf(tail);
  }

  lemma LegacyPointerParts(repo: Repository, key: string)
    requires '/' !in repo.namespace && '/' !in repo.name && LegacyPointer(repo, key)
    ensures
      var p := Split(key);
      (|p| == 2 || |p| == 3) && "bundles_" <= p[|p| - 1]
  {
    hide Split;
    var tail := "bundles_" + key[|repo.Id() + "/bundles_"|..];
    assert key == repo.Id() + "/" + tail;
    SplitLeaf(tail);
    if repo.name == "1" {
      SplitCons(repo.namespace, tail);
    } else {
      assert key == repo.namespace + "/" + (repo.name + "/" + tail);
      SplitCons(repo.namespace, repo.name + "/" + tail);
      SplitCons(repo.name, tail);
    }
  }

  // The directory of modern lists and bundles holds no legacy list or legacy bundle: it is no repository's name.
  lemma ReservedIsApart(repo: Repository, reader: Repository, leaf: string)
    requires repo.Valid() && reader.Valid() && '/' !in leaf
    ensures !(reader.Root() <= repo.Id() + "/" + leaf)
  {
    hide Split, IsComponent;
    var key, inner := repo.Id() + "/" + leaf, ".remote-aws-v2";
    NoSlashInComponent(repo.namespace);
    NoSlashInComponent(repo.name);
    NoSlashInComponent(reader.namespace);
    if reader.Root() <= key {
      var rest := key[|reader.Root()|..];
      assert key == reader.namespace + "/" + (inner + "/" + rest);
      SplitCons(reader.namespace, inner + "/" + rest);
      SplitCons(inner, rest);
      SplitLeaf(leaf);
      AnyPart(rest);
      assert Split(key)[1] == inner && |Split(key)| > 2;
      DotIsNoComponent(repo.name);
      if repo.name == "1" {
        SplitCons(repo.namespace, leaf);
      } else {
        assert key == repo.namespace + "/" + (repo.name + "/" + leaf);
        SplitCons(repo.namespace, repo.name + "/" + leaf);
        SplitCons(repo.name, leaf);
      }
    }
  }

  lemma AnyPart(s: string)
    ensures |Split(s)| > 0
  {}

  lemma DotIsNoComponent(name: string)
    requires IsComponent(name)
    ensures name != ".remote-aws-v2"
  {
    assert ComponentStart(name[0]);
  }

  lemma RangeIsNoLegacyList(name: string)
    requires ParseRange(name).Some?
    ensures !("bundles_" <= name)
  {
    RangeNameRoundTrip(name);
    assert name[1] == RangeBase(name)[1];
    assert HexDigit(RangeBase(name)[1]);
    assert !HexDigit("bundles_"[1]);
  }

  // Deleting a superseded manifest can never delete a bundle: no key passes both guards.
  lemma PointerIsNeverABundle(owner: Repository, key: string, reader: Repository, bundle: BundleRef)
    requires owner.Valid() && reader.Valid()
    requires ManifestPointer(owner, key)
    requires ParseRange(bundle.range).Some? && ValidBundleKey(reader, bundle)
    ensures key != bundle.key
  {
    PointerParts(owner, key);
    BundleKeyParts(reader, bundle);
    RangeIsNoLegacyList(bundle.range);
    assert "repos"[0] != "bundles"[0];
  }
}
