/** Inspecting bundles through an in-memory map and a persistent cache, as if neither were there. */
module Validation {
  import opened Wrappers
  import opened Names
  import opened Manifests
  import opened Envelope

  // An object as the store answers for it; size is the length of its body.
  datatype StoredObject = StoredObject(body: seq<byte>, etag: string, pushTip: string)

  // What a persistent entry is filed under. The stored name is a digest of these, taken as injective.
  datatype Identity = Identity(endpoint: string, bucket: string, key: string, range: string, etag: string, size: int)

  // A cache file; intact means that its checksum matches what it holds.
  datatype CacheFile = CacheFile(identity: Identity, bundle: BundleRef, intact: bool)

  // The identity of an object's bytes, wherever it is read from.
  datatype Place = Place(endpoint: string, bucket: string, key: string, etag: string, size: int)

  function PlaceOf(id: Identity): Place {
    Place(id.endpoint, id.bucket, id.key, id.etag, id.size)
  }

  // The one standing assumption: ETag and size fix an object's bytes, for every operation past and future alike.
  ghost predicate Obeys(content: Place -> seq<byte>, endpoint: string, bucket: string,
    objects: map<string, StoredObject>) {
    forall key | key in objects :: objects[key].body ==
      content(Place(endpoint, bucket, key, objects[key].etag, |objects[key].body|))
  }

  predicate Describes(bundle: BundleRef, id: Identity) {
    bundle.key == id.key && bundle.range == id.range && bundle.etag == id.etag && bundle.size == id.size
  }

  // What an entry filed under an identity claims about the bytes of that identity.
  ghost predicate Truthful(content: Place -> seq<byte>, id: Identity, bundle: BundleRef) {
    Describes(bundle, id) ==> Yields(content(PlaceOf(id)), id.size, bundle.recipients)
  }

  // Every intact entry is truthful; corrupt, misfiled and foreign ones may hold anything. No object store is mentioned:
  // files that satisfy this serve any operation over objects that obey the same content.
  ghost predicate Genuine(content: Place -> seq<byte>, files: map<Identity, CacheFile>) {
    forall id | id in files && files[id].intact && files[id].identity == id :: Truthful(content, id, files[id].bundle)
  }

  // ----- The plain reading -----

  predicate HeadAccepts(held: StoredObject, ref: BundleRef, pushTip: string) {
    && |held.body| > 0 && held.etag != ""
    && (ref.size == 0 || ref.size == |held.body|)
    && (ref.etag == "" || ref.etag == held.etag)
    && (pushTip == "" || held.pushTip == pushTip)
  }

  // A fresh HEAD and a fresh envelope read, with nothing remembered.
  ghost predicate Plain(objects: map<string, StoredObject>, ref: BundleRef, pushTip: string, seen: BundleRef) {
    && ref.key in objects && HeadAccepts(objects[ref.key], ref, pushTip)
    && seen == BundleRef(ref.range, ref.key, |objects[ref.key].body|, objects[ref.key].etag, seen.recipients)
    && Yields(objects[ref.key].body, |objects[ref.key].body|, seen.recipients)
    && (ref.recipients == [] || ref.recipients == seen.recipients)
  }

  // A method's answer is the plain reading's answer: accepted with the same descriptor, or refused alike.
  ghost predicate Agrees(objects: map<string, StoredObject>, ref: BundleRef, pushTip: string,
    answer: Option<BundleRef>) {
    match answer
    case Some(seen) => Plain(objects, ref, pushTip, seen)
    case None => forall seen :: !Plain(objects, ref, pushTip, seen)
  }

  lemma PlainUnique(objects: map<string, StoredObject>, ref: BundleRef, pushTip: string, a: BundleRef, b: BundleRef)
    requires Plain(objects, ref, pushTip, a) && Plain(objects, ref, pushTip, b)
    ensures a == b
  {
    hide Yields;
    YieldsUnique(objects[ref.key].body, |objects[ref.key].body|, a.recipients, b.recipients);
  }

  // An accepted descriptor is complete: it keeps the name and key asked for and records identity and policy.
  lemma AcceptedIsIdentified(objects: map<string, StoredObject>, ref: BundleRef, pushTip: string, seen: BundleRef)
    requires Plain(objects, ref, pushTip, seen)
    ensures seen.range == ref.range && seen.key == ref.key && Identified(seen)
  {
    hide Yields, Policy;
    YieldsPolicy(objects[ref.key].body, |objects[ref.key].body|, seen.recipients);
  }

  // What an answer says of the object: it was accepted exactly if it is there with a body and a tag, is the one the
  // descriptor records as far as it records one, carries the push tip asked for, and holds the recorded recipients.
  lemma AcceptedExactly(objects: map<string, StoredObject>, ref: BundleRef, pushTip: string, answer: Option<BundleRef>)
    requires Agrees(objects, ref, pushTip, answer)
    ensures answer.Some? <==>
      && ref.key in objects
      && var held := objects[ref.key];
         && held.body != [] && held.etag != "" && ref.size in {0, |held.body|} && ref.etag in {"", held.etag}
         && pushTip in {"", held.pushTip}
         && exists r :: Yields(held.body, |held.body|, r) && ref.recipients in {[], r}
    ensures answer.Some? ==>
      && answer.value.size == |objects[ref.key].body| && answer.value.etag == objects[ref.key].etag
      && Yields(objects[ref.key].body, |objects[ref.key].body|, answer.value.recipients)
  {
    hide Yields;
    if ref.key in objects && answer.None? {
      var held := objects[ref.key];
      forall r | Yields(held.body, |held.body|, r) && ref.recipients in {[], r}
        ensures !HeadAccepts(held, ref, pushTip)
      {
        var seen := BundleRef(ref.range, ref.key, |held.body|, held.etag, r);
        assert Plain(objects, ref, pushTip, seen) <==> HeadAccepts(held, ref, pushTip);
      }
    }
  }

  // ----- Descriptor comparison -----

  function CheckedBundleDescriptor(want: BundleRef, actual: BundleRef): Option<BundleRef> {
    if want.key != actual.key || want.range != actual.range || (want.size != 0 && want.size != actual.size)
       || (want.etag != "" && want.etag != actual.etag) then None
    else if want.recipients != [] && want.recipients != actual.recipients then None
    else Some(actual)
  }

  // Comparing with an earlier plain reading of the same object under the same range is a plain reading.
  lemma ComparisonIsPlain(objects: map<string, StoredObject>, want: BundleRef, earlier: BundleRef, pushTip: string,
    seen: BundleRef)
    requires Plain(objects, earlier, pushTip, seen) && want.key == earlier.key && want.range == earlier.range
    ensures Agrees(objects, want, pushTip, CheckedBundleDescriptor(want, seen))
  {
    hide Yields;
    var answer := CheckedBundleDescriptor(want, seen);
    if answer.None? {
      forall other ensures !Plain(objects, want, pushTip, other) {
        if Plain(objects, want, pushTip, other) {
          YieldsUnique(objects[want.key].body, |objects[want.key].body|, seen.recipients, other.recipients);
        }
      }
    }
  }

  // ----- The caches -----

  class BundleValidation {
    const objects: map<string, StoredObject>
    const endpoint: Option<string>
    const bucket: string
    const repo: Repository
    var inspected: map<string, BundleRef>
    var files: map<Identity, CacheFile>
    var enabled: bool

    ghost const content: Place -> seq<byte>

    // This operation's objects have the bytes their identities stand for.
    ghost predicate Settled() {
      endpoint.Some? ==> Obeys(content, endpoint.value, bucket, objects)
    }

    // Everything remembered in this operation is a plain reading of its object under its only range.
    ghost predicate Remembered()
      reads this
    {
      forall key | key in inspected ::
        && inspected[key].key == key && ParseRange(inspected[key].range).Some? && ValidBundleKey(repo, inspected[key])
        && exists earlier: BundleRef :: earlier.key == key && Plain(objects, earlier, "", inspected[key])
    }

    constructor (objects: map<string, StoredObject>, endpoint: Option<string>, bucket: string, repo: Repository,
                 files: map<Identity, CacheFile>, enabled: bool, ghost content: Place -> seq<byte>)
      ensures this.objects == objects && this.endpoint == endpoint && this.bucket == bucket && this.repo == repo
      ensures this.files == files && this.enabled == enabled && this.content == content && inspected == map[]
      ensures Remembered()
    {
      this.objects, this.endpoint, this.bucket, this.repo := objects, endpoint, bucket, repo;
      this.inspected, this.files, this.enabled := map[], files, enabled;
      this.content := content;
    }

    function IdentityOf(ref: BundleRef): Option<Identity> {
      match endpoint
      case None => None
      case Some(url) => Some(Identity(url, bucket, ref.key, ref.range, ref.etag, ref.size))
    }

    // An entry that may answer for this descriptor: intact, filed under this identity, describing it, with a valid
    // policy.
    ghost predicate Usable(identity: Option<Identity>, ref: BundleRef)
      reads this
    {
      && enabled && identity.Some? && identity.value in files
      && var entry := files[identity.value];
      && entry.intact && entry.identity == identity.value
      && entry.bundle == BundleRef(ref.range, ref.key, ref.size, ref.etag, entry.bundle.recipients)
      && |entry.bundle.recipients| <= MAXIMUM && Policy(entry.bundle.recipients)
    }

    // Exactly the usable entries hit; corrupt, missing or foreign ones are misses.
    method Load(identity: Option<Identity>, ref: BundleRef) returns (hit: Option<BundleRef>)
      ensures hit.Some? <==> Usable(identity, ref)
      ensures hit.Some? ==> hit.value == files[identity.value].bundle
      ensures hit.Some? ==>
        Policy(hit.value.recipients)
        && hit.value == BundleRef(ref.range, ref.key, ref.size, ref.etag, hit.value.recipients)
    {
      hide Policy;
      if !enabled || identity.None? || identity.value !in files {
        return None;
      }
      var entry := files[identity.value];
      if !entry.intact || entry.identity != identity.value {
        return None;
      }
      var cached := entry.bundle;
      if cached.key != ref.key || cached.range != ref.range || cached.etag != ref.etag || cached.size != ref.size
         || |cached.recipients| > MAXIMUM {
        return None;
      }
      var ok := ValidPolicy(cached.recipients);
      return if ok then Some(cached) else None;
    }

    // Best effort: a disabled cache, or a request without transport identity, stores nothing.
    method Store(identity: Option<Identity>, ref: BundleRef)
      requires Genuine(content, files) && (identity.Some? ==> Truthful(content, identity.value, ref))
      modifies this`files
      ensures Genuine(content, files)
      ensures files == if enabled && identity.Some?
        then old(files)[identity.value := CacheFile(identity.value, ref, true)] else old(files)
    {
      if enabled && identity.Some? {
        files := files[identity.value := CacheFile(identity.value, ref, true)];
      }
    }

    method HeadBundle(ref: BundleRef, pushTip: string) returns (headed: Option<BundleRef>)
      ensures headed == if ref.key in objects && HeadAccepts(objects[ref.key], ref, pushTip)
        then Some(ref.(size := |objects[ref.key].body|, etag := objects[ref.key].etag)) else None
    {
      if ref.key !in objects || !HeadAccepts(objects[ref.key], ref, pushTip) {
        return None;
      }
      return Some(ref.(size := |objects[ref.key].body|, etag := objects[ref.key].etag));
    }

    // The persistent cache never changes an answer, and what it leaves behind is as truthful as what it found.
    method InspectPush(ref: BundleRef, pushTip: string) returns (answer: Option<BundleRef>)
      requires Settled() && Genuine(content, files)
      modifies this`files
      ensures Genuine(content, files)
      ensures Agrees(objects, ref, pushTip, answer)
      ensures answer.Some? ==> ref.key in objects && (pushTip == "" || objects[ref.key].pushTip == pushTip)
      ensures answer.Some? && enabled && endpoint.Some? ==> Usable(IdentityOf(answer.value), answer.value)
    {
      hide Yields, Policy;
      var headed := HeadBundle(ref, pushTip);
      if headed.None? {
        return None;
      }
      var identity := IdentityOf(headed.value);
      var cached := Load(identity, headed.value);
      var seen: BundleRef;
      if cached.Some? {
        seen := cached.value;
      } else {
        var read := ReadBundleRecipients(objects[ref.key].body, headed.value.size, ref.recipients);
        if read.Failure? {
          forall other ensures !Plain(objects, ref, pushTip, other) {
            assert Plain(objects, ref, pushTip, other) ==>
              Yields(objects[ref.key].body, |objects[ref.key].body|, other.recipients);
          }
          return None;
        }
        seen := headed.value.(recipients := read.value);
        YieldsPolicy(objects[ref.key].body, headed.value.size, read.value);
        Store(identity, seen);
      }
      assert Plain(objects, ref.(recipients := []), pushTip, seen);
      ComparisonIsPlain(objects, ref, ref.(recipients := []), pushTip, seen);
      answer := CheckedBundleDescriptor(ref, seen);
    }

    // The in-memory map never changes an answer either, because an accepted key has only one range.
    method Inspect(ref: BundleRef) returns (answer: Option<BundleRef>)
      requires Settled() && Genuine(content, files) && Remembered()
      requires ParseRange(ref.range).Some? && ValidBundleKey(repo, ref)
      modifies this`files, this`inspected
      ensures Genuine(content, files) && Remembered()
      ensures Agrees(objects, ref, "", answer)
      ensures inspected == if ref.key in old(inspected) || answer.None? then old(inspected)
        else old(inspected)[ref.key := answer.value]
    {
      hide Yields, ParseRange, ValidBundleKey;
      if ref.key in inspected {
        var previous := inspected[ref.key];
        KeyDeterminesRange(repo, ref, previous);
        ghost var earlier: BundleRef :| earlier.key == ref.key && Plain(objects, earlier, "", previous);
        ComparisonIsPlain(objects, ref, earlier, "", previous);
        return CheckedBundleDescriptor(ref, previous);
      }
      var checked := InspectPush(ref, "");
      if checked.None? {
        return None;
      }
      var seen := checked.value;
      SameKeyStaysValid(repo, ref, seen);
      inspected := inspected[ref.key := seen];
      answer := CheckedBundleDescriptor(ref, seen);
      assert answer == checked;
    }
  }

  lemma SameKeyStaysValid(repo: Repository, ref: BundleRef, seen: BundleRef)
    requires ValidBundleKey(repo, ref) && seen.key == ref.key && seen.range == ref.range
    ensures ValidBundleKey(repo, seen)
  {
    hide ParseRange, Split;
  }

  // The files one operation leaves serve the next, over whatever objects are there by then.
  method InspectTwice(first: BundleValidation, a: BundleRef, later: map<string, StoredObject>, b: BundleRef,
    pushTip: string)
    returns (now: Option<BundleRef>, next: Option<BundleRef>, ghost files: map<Identity, CacheFile>)
    requires first.Settled() && Genuine(first.content, first.files)
    requires first.endpoint.Some? ==> Obeys(first.content, first.endpoint.value, first.bucket, later)
    modifies first
    ensures Agrees(first.objects, a, pushTip, now) && Agrees(later, b, pushTip, next)
    ensures Genuine(first.content, files)
  {
    hide Plain, Yields, Genuine, Obeys;
    now := first.InspectPush(a, pushTip);
    var second := new BundleValidation(later, first.endpoint, first.bucket, first.repo, first.files, first.enabled,
      first.content);
    next := second.InspectPush(b, pushTip);
    files := second.files;
  }
}
