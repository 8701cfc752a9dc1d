/** Reading one manifest: pointer guard, legacy lists, and the checks every accepted manifest passed. */
module Reading {
  import opened Wrappers
  import opened Names
  import opened Chains
  import opened Manifests

  // A stored list: legacy text, one range a line, or what decoding a document gives.
  datatype Body = Text(lines: seq<string>) | Document(decoded: Option<Manifest>)

  datatype Listed = Listed(body: Body, size: nat)

  const MAX_MANIFEST_BYTES: nat := 0x100_0000

  datatype ReadError =
    | OutsideRepository | NoSuchKey | Oversized | EmptyList | BadRange | BadDocument | Rejected | BranchNotLiteral
      | BranchDisagrees

  // ----- Legacy lists -----

  function LegacyRef(repo: Repository, name: string): BundleRef {
    BundleRef(name, repo.Id() + "/" + name, 0, "", [])
  }

  function NamesOf(lines: seq<string>): seq<string> {
    if lines == [] then [] else if lines[0] == "" then NamesOf(lines[1..]) else [lines[0]] + NamesOf(lines[1..])
  }

  // Which lines count: the nonempty ones, in order.
  lemma NamesOfOne(line: string)
    ensures NamesOf([line]) == if line == "" then [] else [line]
  {}

  lemma {:induction false} NamesOfConcat(a: seq<string>, b: seq<string>)
    ensures NamesOf(a + b) == NamesOf(a) + NamesOf(b)
  {
    if a == [] {
      assert a + b == b;
    } else {
      assert (a + b)[0] == a[0] && (a + b)[1..] == a[1..] + b;
      NamesOfConcat(a[1..], b);
    }
  }

  function LegacyRefs(repo: Repository, names: seq<string>): seq<BundleRef> {
    seq(|names|, i requires 0 <= i < |names| => LegacyRef(repo, names[i]))
  }

  // The common model of a legacy list: the tip is where its last range ends.
  function LegacyManifest(repo: Repository, branch: string, names: seq<string>): Manifest
    requires names != []
  {
    NewManifest(repo, branch, RangeEnd(names[|names| - 1]), LegacyRefs(repo, names)).(legacy := true)
  }

  // The place of a legacy bundle is one its repository accepts, for the default repository and for a named one.
  lemma LegacyKeyIsValid(repo: Repository, name: string)
    requires repo.Valid() && ParseRange(name).Some?
    ensures ValidBundleKey(repo, LegacyRef(repo, name))
  {
    hide ParseRange, PushTipKey;
    RangeNameRoundTrip(name);
    if repo.name != "1" {
      var key := LegacyRef(repo, name).key;
      var tail := repo.name + "/" + name;
      assert key == repo.namespace + "/" + tail;
      assert key[|repo.namespace + "/"|..] == tail;
      NoSlashInComponent(repo.name);
      SplitCons(repo.name, name);
      SplitLeaf(name);
    }
  }

  lemma TipIsObjectId(name: string)
    requires ParseRange(name).Some?
    ensures IsObjectId(RangeEnd(name))
  {}

  // A legacy list of parsed ranges is a complete manifest exactly when its ranges chain from zero without repeating an
  // end.
  lemma LegacyIsCompleteIffChained(repo: Repository, branch: string, names: seq<string>)
    requires repo.Valid() && branch != "" && names != [] && forall n | n in names :: ParseRange(n).Some?
    ensures var m := LegacyManifest(repo, branch, names);
      Complete(m, repo) <==> Linked(m.bundles, Zeros(|m.tip|), m.tip) && DistinctEnds(m.bundles)
                             && forall n | n in names :: |RangeEnd(n)| == |m.tip|
  {
    hide ParseRange, RangeEnd, RangeBase, Linked, DistinctEnds, ValidBundleKey, IsObjectId;
    var m := LegacyManifest(repo, branch, names);
    TipIsObjectId(names[|names| - 1]);
    assert Header(m, repo) by { LegacyHeader(repo, branch, names); }
    forall b | b in m.bundles ensures ValidBundleKey(repo, b) && b.range in names {
      var i :| 0 <= i < |names| && m.bundles[i] == b;
      assert names[i] in names;
      LegacyKeyIsValid(repo, names[i]);
    }
    forall n | n in names ensures exists b :: b in m.bundles && b.range == n {
      var i :| 0 <= i < |names| && names[i] == n;
      assert m.bundles[i] in m.bundles;
    }
  }

  lemma LegacyHeader(repo: Repository, branch: string, names: seq<string>)
    requires branch != "" && names != [] && IsObjectId(RangeEnd(names[|names| - 1]))
    ensures Header(LegacyManifest(repo, branch, names), repo)
  {
    hide ParseRange, RangeEnd;
  }

  method ReadLegacyList(lines: seq<string>, repo: Repository) returns (result: Result<seq<string>, ReadError>)
    ensures result.Success? <==> NamesOf(lines) != [] && forall n | n in NamesOf(lines) :: ParseRange(n).Some?
    ensures result.Success? ==> result.value == NamesOf(lines)
  {
    hide ParseRange;
    var names: seq<string> := [];
    for i := 0 to |lines|
      invariant NamesOf(lines) == names + NamesOf(lines[i..])
      invariant forall n | n in names :: ParseRange(n).Some?
    {
      assert lines[i..][1..] == lines[i + 1..];
      if lines[i] != "" {
        if ParseRange(lines[i]).None? {
          assert lines[i] in NamesOf(lines);
          return Failure(BadRange);
        }
        names := names + [lines[i]];
      }
    }
    result := if |names| == 0 then Failure(EmptyList) else Success(names);
  }

  // A legacy list stored beside its bundles: one for each of its nonempty lines, in order, in the list's own place, of
  // which nothing but the range is known.
  ghost predicate AsListed(m: Manifest, place: string, branch: string, lines: seq<string>) {
    && m.legacy && m.branch == branch && |m.bundles| == |NamesOf(lines)| > 0
    && m.tip == RangeEnd(m.bundles[|m.bundles| - 1].range)
    && forall i | 0 <= i < |m.bundles| ::
         m.bundles[i] == BundleRef(NamesOf(lines)[i], place + "/" + NamesOf(lines)[i], 0, "", [])
  }

  lemma LegacyIsAsListed(repo: Repository, branch: string, key: string, lines: seq<string>, place: string, rest: string)
    requires LegacyPointer(repo, key) && key == place + "/" + ("bundles_" + rest) && '/' !in rest
    requires NamesOf(lines) != []
    ensures AsListed(LegacyManifest(repo, branch, NamesOf(lines)), place, branch, lines)
  {
    hide NamesOf, RangeEnd, Repository.Id;
    var tail := key[|repo.Id() + "/bundles_"|..];
    assert key == repo.Id() + "/" + ("bundles_" + tail);
    LastSlashUnique(place, "bundles_" + rest, repo.Id(), "bundles_" + tail);
    assert place == key[..|key| - |"bundles_" + rest| - 1] == repo.Id();
  }

  lemma IdDetermines(a: Repository, b: Repository)
    requires a.Valid() && b.Valid() && a.Id() == b.Id()
    ensures a == b
  {
    NoSlashInComponent(a.namespace);
    NoSlashInComponent(b.namespace);
    NoSlashInComponent(a.name);
    NoSlashInComponent(b.name);
    if a.name != "1" && b.name != "1" {
      LastSlashUnique(a.namespace, a.name, b.namespace, b.name);
      assert a.namespace == a.Id()[..|a.Id()| - |a.name| - 1] == b.namespace;
    } else {
      assert a.name != "1" ==> '/' in a.Id();
      assert b.name != "1" ==> '/' in b.Id();
    }
  }

  // Legacy lists of two repositories never share an object, within a namespace or across namespaces.
  lemma LegacyPlacesAreApart(a: Repository, b: Repository, m: Manifest, n: Manifest, x: BundleRef, y: BundleRef,
    branch: string, names: seq<string>, more: seq<string>)
    requires a.Valid() && b.Valid() && a != b && names != [] && more != []
    requires m == LegacyManifest(a, branch, names) && n == LegacyManifest(b, branch, more)
    requires forall name | name in names + more :: ParseRange(name).Some?
    requires x in m.bundles && y in n.bundles
    ensures x.key != y.key
  {
    hide ParseRange, RangeEnd, Repository.Valid, Repository.Id;
    var i :| 0 <= i < |names| && x == LegacyRef(a, names[i]);
    var j :| 0 <= j < |more| && y == LegacyRef(b, more[j]);
    assert names[i] in names + more && more[j] in names + more;
    RangeNameRoundTrip(names[i]);
    RangeNameRoundTrip(more[j]);
    if x.key == y.key {
      LastSlashUnique(a.Id(), names[i], b.Id(), more[j]);
      assert a.Id() == x.key[..|x.key| - |names[i]| - 1] == b.Id();
      IdDetermines(a, b);
    }
  }

  // ----- Any list -----

  // What a stored list stands for, read under this pointer.
  function Decoded(repo: Repository, branch: string, key: string, body: Body): Option<Manifest> {
    if LegacyPointer(repo, key) then
      if body.Text? && NamesOf(body.lines) != [] && forall n | n in NamesOf(body.lines) :: ParseRange(n).Some?
      then Some(LegacyManifest(repo, branch, NamesOf(body.lines))) else None
    else if body.Document? && body.decoded.Some? then Some(body.decoded.value.(legacy := false)) else None
  }

  // Everything a reader may rely on, and all that is asked: a pointer inside the repository, a list of bounded size,
  // a complete manifest, a literal branch name, the recorded branch. literal is what git check-ref-format answers.
  ghost predicate Readable(repo: Repository, key: string, branch: string, objects: map<string, Listed>,
    literal: string -> bool, m: Manifest) {
    && ManifestPointer(repo, key) && key in objects && objects[key].size <= MAX_MANIFEST_BYTES
    && Decoded(repo, branch, key, objects[key].body) == Some(m)
    && Complete(m, repo) && literal(m.branch) && (branch != "" ==> m.branch == branch)
  }

  // What is read is what is stored there, whichever layout it has.
  ghost predicate AsStored(m: Manifest, repo: Repository, key: string, branch: string, body: Body) {
    if LegacyPointer(repo, key) then
      && body.Text?
      && forall place, rest | key == place + "/" + ("bundles_" + rest) && '/' !in rest ::
           AsListed(m, place, branch, body.lines)
    else
      body.Document? && body.decoded.Some? && m == body.decoded.value.(legacy := false)
  }

  lemma ReadableIsAsStored(repo: Repository, key: string, branch: string, objects: map<string, Listed>,
    literal: string -> bool, m: Manifest)
    requires Readable(repo, key, branch, objects, literal, m)
    ensures AsStored(m, repo, key, branch, objects[key].body)
  {
    hide ParseRange, NamesOf, LegacyPointer, ManifestPointer, Complete, LegacyManifest, AsListed;
    var body := objects[key].body;
    if LegacyPointer(repo, key) {
      forall place, rest | key == place + "/" + ("bundles_" + rest) && '/' !in rest
        ensures AsListed(m, place, branch, body.lines)
      {
        LegacyIsAsListed(repo, branch, key, body.lines, place, rest);
      }
    }
  }

  method GetManifest(objects: map<string, Listed>, repo: Repository, key: string, branch: string,
    literal: string -> bool)
    returns (result: Result<Option<Manifest>, ReadError>)
    ensures key == "" ==> result == Success(None)
    ensures key != "" ==> forall m :: result == Success(Some(m)) <==> Readable(repo, key, branch, objects, literal, m)
    ensures result == Failure(NoSuchKey) <==> key != "" && ManifestPointer(repo, key) && key !in objects
    ensures result.Success? && result.value.Some? ==>
      key in objects && AsStored(result.value.value, repo, key, branch, objects[key].body)
  {
    hide ParseRange, RangeEnd, Complete, NamesOf, Linked, LegacyManifest, ManifestPointer, AsStored;
    if key == "" {
      return Success(None);
    }
    if !ManifestPointer(repo, key) {
      return Failure(OutsideRepository);
    }
    if key !in objects {
      return Failure(NoSuchKey);
    }
    if objects[key].size > MAX_MANIFEST_BYTES {
      return Failure(Oversized);
    }
    var m: Manifest;
    var body := objects[key].body;
    if LegacyPointer(repo, key) {
      if !body.Text? {
        return Failure(BadRange);
      }
      var names := ReadLegacyList(body.lines, repo);
      if names.Failure? {
        return Failure(BadRange);
      }
      m := LegacyManifest(repo, branch, names.value);
    } else {
      if !body.Document? || body.decoded.None? {
        return Failure(BadDocument);
      }
      m := body.decoded.value.(legacy := false);
    }
    var ok := Validate(m, repo);
    if !ok {
      return Failure(Rejected);
    }
    if !literal(m.branch) {
      return Failure(BranchNotLiteral);
    }
    if branch != "" && m.branch != branch {
      return Failure(BranchDisagrees);
    }
    ReadableIsAsStored(repo, key, branch, objects, literal, m);
    result := Success(Some(m));
  }
}
