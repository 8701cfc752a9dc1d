/** Uploading one encrypted bundle: bounded part sizes, an exact partition, and creation that never overwrites. */
module Upload {
  import opened Wrappers

  newtype int64 = x: int | -0x8000_0000_0000_0000 <= x < 0x8000_0000_0000_0000
  newtype int32 = x: int | -0x8000_0000 <= x < 0x8000_0000

  const PART_SIZE: int64 := 0x400_0000
  const MAX_PART_SIZE: int64 := 0x1_4000_0000
  const MAX_PARTS: int64 := 10000

  type Bytes = seq<bv8>

  datatype UploadError = TooLarge | NotStarted | Interrupted | PartFailed(number: int32) | Conflict | Unconfirmed
    | AbortFailed

  // ----- Part sizes -----

  function PartsNeeded(size: int, part: int): int
    requires part > 0
  {
    if size <= 0 then 0 else (size + part - 1) / part
  }

  // The count fits exactly when that many parts cover the size.
  lemma PartsFit(size: int, part: int, limit: int)
    requires part > 0 && limit >= 0
    ensures PartsNeeded(size, part) <= limit <==> size <= limit * part
  {
    if size > 0 {
      var q := PartsNeeded(size, part);
      assert q * part >= size && (q - 1) * part < size by { DivisionBounds(size + part - 1, part); }
      if q <= limit { Multiply(q, limit, part); }
      if limit < q { Multiply(limit, q - 1, part); }
    }
  }

  lemma DivisionBounds(a: int, b: int)
    requires b > 0
    ensures (a / b) * b <= a < (a / b) * b + b
  {}

  lemma Multiply(a: int, b: int, c: int)
    requires a <= b && c > 0
    ensures a * c <= b * c
  {}

  // The least part size at or above the minimum that needs at most ten thousand parts.
  ghost predicate LeastPartSize(size: int, part: int) {
    && PART_SIZE as int <= part && PartsNeeded(size, part) <= MAX_PARTS as int
    && forall p | PART_SIZE as int <= p < part :: PartsNeeded(size, p) > MAX_PARTS as int
  }

  method MultipartBundlePartSize(size: int64) returns (r: Result<int64, UploadError>)
    ensures r.Success? ==> LeastPartSize(size as int, r.value as int) && r.value <= MAX_PART_SIZE
    ensures r.Failure? <==> size as int > 10000 * 0x1_4000_0000
    ensures r.Success? ==>
      && 0x400_0000 <= r.value <= 0x1_4000_0000 && size as int <= 10000 * r.value as int
      && (r.value > 0x400_0000 ==> size as int > 10000 * (r.value as int - 1))
  {
    RoundedCovers(size as int);
    var share := size / MAX_PARTS;
    var partSize := if PART_SIZE < share then share else PART_SIZE;
    if size / partSize >= MAX_PARTS && size % partSize != 0 {
      partSize := partSize + 1;
    }
    assert partSize as int == RoundedPartSize(size as int);
    LeastIsFound(size as int);
    if partSize > MAX_PART_SIZE {
      return Failure(TooLarge);
    }
    return Success(partSize);
  }

  // What the two divisions and the rounding step compute.
  function RoundedPartSize(size: int): int {
    var share := size / MAX_PARTS as int;
    var part := if PART_SIZE as int < share then share else PART_SIZE as int;
    if size / part >= MAX_PARTS as int && size % part != 0 then part + 1 else part
  }

  lemma DivisionUnique(a: int, b: int, q: int, r: int)
    requires 0 <= r < b && a == b * q + r
    ensures a / b == q && a % b == r
  {
    var k := a / b - q;
    DivisionBounds(a, b);
    assert b * k == b * (a / b) - b * q;
    if k > 0 { Multiply(1, k, b); }
    if k < 0 { Multiply(k, -1, b); }
  }

  // Rounding down loses less than one part, so the remainder says whether one more byte per part is needed.
  lemma ShareBounds(size: int)
    requires size >= 0
    ensures var share := size / MAX_PARTS as int; MAX_PARTS as int * share <= size < MAX_PARTS as int * (share + 1)
    ensures var share := size / MAX_PARTS as int; share > MAX_PARTS as int ==>
      (size / share == MAX_PARTS as int && size % share == size - MAX_PARTS as int * share)
  {
    var share := size / MAX_PARTS as int;
    DivisionBounds(size, MAX_PARTS as int);
    if share > MAX_PARTS as int { DivisionUnique(size, share, MAX_PARTS as int, size - MAX_PARTS as int * share); }
  }

  lemma BelowShare(size: int, part: int)
    requires part > 0
    ensures size / part >= MAX_PARTS as int <==> size >= MAX_PARTS as int * part
  {
    DivisionBounds(size, part);
    if size / part >= MAX_PARTS as int { Multiply(MAX_PARTS as int, size / part, part); }
    if size / part < MAX_PARTS as int { Multiply(size / part + 1, MAX_PARTS as int, part); }
  }

  // The rounded size is the first one whose ten thousand parts cover the file.
  lemma RoundedCovers(size: int)
    ensures var part := RoundedPartSize(size);
      && size <= MAX_PARTS as int * part && part >= PART_SIZE as int
      && (part > PART_SIZE as int ==> size > MAX_PARTS as int * (part - 1))
  {
    var share := size / MAX_PARTS as int;
    if size < 0 {
      BelowShare(size, PART_SIZE as int);
    } else {
      ShareBounds(size);
      BelowShare(size, PART_SIZE as int);
    }
  }

  lemma LeastIsFound(size: int)
    ensures LeastPartSize(size, RoundedPartSize(size))
    ensures RoundedPartSize(size) > MAX_PART_SIZE as int <==> size > MAX_PARTS as int * MAX_PART_SIZE as int
  {
    hide PartsNeeded, RoundedPartSize;
    var part := RoundedPartSize(size);
    RoundedCovers(size);
    PartsFit(size, part, MAX_PARTS as int);
    forall p | PART_SIZE as int <= p < part ensures PartsNeeded(size, p) > MAX_PARTS as int {
      PartsFit(size, p, MAX_PARTS as int);
    }
  }

  // ----- The object store's side -----

  datatype Stored = Stored(body: Bytes, pushTip: string)

  // What becomes of a request: carried out and answered, carried out with the answer lost, or refused.
  datatype Reply = Served | AnswerLost | Refused

  datatype Part = Part(number: int32, body: Bytes)

  function Assembled(parts: seq<Part>): Bytes {
    if parts == [] then [] else Assembled(parts[..|parts| - 1]) + parts[|parts| - 1].body
  }

  // How the service answers one upload: by part index where there are several requests.
  datatype World = World(
    start: Reply, named: bool, interrupted: int -> bool, part: int -> Reply, complete: Reply, tagged: bool,
      head: Reply, abort: Reply)

  // Nothing stops the first n parts.
  ghost predicate PartsAnswered(interrupted: int -> bool, part: int -> Reply, n: int) {
    forall k | 0 <= k < n :: !interrupted(k) && part(k) == Served
  }

  // The multipart requests up to and including the answer to completion went through.
  ghost predicate ReachesCompletion(w: World, size: int) {
    && size <= MAX_PARTS as int * MAX_PART_SIZE as int && w.start == Served && w.named && w.complete == Served
    && forall part | LeastPartSize(size, part) :: PartsAnswered(w.interrupted, w.part, PartsNeeded(size, part))
  }

  // An earlier attempt of this very push left its object there, and asking for it was answered.
  predicate LeftByThisPush(objects: map<string, Stored>, key: string, pushTip: string, head: Reply) {
    head == Served && key in objects && objects[key].pushTip == pushTip && |objects[key].body| > 0
  }

  class Bucket {
    var objects: map<string, Stored>
    var upload: Option<seq<Part>> // the open multipart upload, if any

    constructor (objects: map<string, Stored>)
      ensures this.objects == objects && upload == None
    {
      this.objects, upload := objects, None;
    }

    // Create only if absent. The answer tells a conflict apart from every other failure.
    method Create(key: string, held: Stored, reply: Reply) returns (error: Option<UploadError>)
      modifies this`objects
      ensures objects == if reply == Refused || key in old(objects) then old(objects) else old(objects)[key := held]
      ensures error.None? <==> reply == Served && key !in old(objects)
      ensures error == Some(Conflict) <==> reply == Served && key in old(objects)
    {
      if reply == Refused {
        return Some(Unconfirmed);
      }
      var taken := key in objects;
      if !taken {
        objects := objects[key := held];
      }
      if reply == AnswerLost {
        return Some(Unconfirmed);
      }
      error := if taken then Some(Conflict) else None;
    }

    // A conflict is success only when the existing object carries this push's tip; anything else stays the error it
    // was.
    method UploadResult(key: string, pushTip: string, error: Option<UploadError>, head: Reply)
      returns (result: Option<UploadError>)
      ensures result.None? <==>
        || error.None?
        || (error == Some(Conflict) && LeftByThisPush(objects, key, pushTip, head))
      ensures result.Some? ==> result == error
    {
      if error != Some(Conflict) {
        return error;
      }
      if head != Served || key !in objects || objects[key].pushTip != pushTip || |objects[key].body| == 0 {
        return error;
      }
      return None;
    }

    // Consecutive sections of the file, numbered from one. Cancellation and part failures stop the loop.
    method UploadParts(file: Bytes, size: int64, partSize: int64, interrupted: int -> bool, partReply: int -> Reply)
      returns (parts: seq<Part>, error: Option<UploadError>)
      requires |file| == size as int && 0 < partSize <= MAX_PART_SIZE
        && PartsNeeded(size as int, partSize as int) <= MAX_PARTS as int
      requires upload == Some([])
      modifies this`upload
      ensures upload == Some(parts)
      ensures error.None? ==> Partition(parts, file, partSize as int)
      ensures error.None? <==> PartsAnswered(interrupted, partReply, PartsNeeded(size as int, partSize as int))
    {
      hide Assembled, SoFar, Partition;
      PartsFit(size as int, partSize as int, MAX_PARTS as int);
      Multiply(partSize as int, MAX_PART_SIZE as int, MAX_PARTS as int);
      parts := [];
      NothingUploaded(file, partSize as int);
      var offset: int64 := 0;
      while offset < size
        invariant 0 <= offset as int == |parts| * partSize as int && offset as int < size as int + partSize as int
        invariant upload == Some(parts) && SoFar(parts, file, partSize as int)
        invariant PartsAnswered(interrupted, partReply, |parts|)
        decreases size as int - offset as int
      {
        PartIsNeeded(|parts|, size as int, partSize as int);
        if interrupted(|parts|) {
          return parts, Some(Interrupted);
        }
        NumberFits(|parts|, file, partSize as int);
        var number := (|parts| + 1) as int32;
        var length := if partSize < size - offset then partSize else size - offset;
        if partReply(|parts|) != Served {
          return parts, Some(PartFailed(number));
        }
        var part := Part(number, file[offset as int..offset as int + length as int]);
        NextPart(parts, file, partSize as int, part);
        parts := parts + [part];
        upload := Some(parts);
        offset := offset + partSize;
      }
      AllParts(parts, file, partSize as int);
      PartsFit(size as int, partSize as int, |parts|);
      error := None;
    }

    // Completion is a conditional create of the assembled parts. Once the object exists, the upload is gone.
    method Complete(key: string, pushTip: string, parts: seq<Part>, reply: Reply) returns (error: Option<UploadError>)
      modifies this
      ensures objects == if reply == Refused || key in old(objects) then old(objects)
        else old(objects)[key := Stored(Assembled(parts), pushTip)]
      ensures error.None? <==> reply == Served && key !in old(objects)
      ensures error == Some(Conflict) <==> reply == Served && key in old(objects)
      ensures upload == if reply == Refused || key in old(objects) then old(upload) else None
    {
      var taken := key in objects;
      error := Create(key, Stored(Assembled(parts), pushTip), reply);
      if reply != Refused && !taken {
        upload := None;
      }
    }

    // Start, send the parts, complete. Every way out but a confirmed completion aborts this upload.
    method MultipartUpload(key: string, pushTip: string, file: Bytes, size: int64, w: World)
      returns (result: Option<UploadError>)
      requires |file| == size as int && upload.None?
      modifies this
      ensures objects == old(objects) || (key !in old(objects) && objects == old(objects)[key := Stored(file, pushTip)])
      ensures result.None? ==> key in objects && objects[key].pushTip == pushTip
      ensures result.None? && key in old(objects) ==> |old(objects)[key].body| > 0
      ensures upload.None? || w.abort == Refused || w.start == AnswerLost || !w.named
      ensures result.None? <==>
        && ReachesCompletion(w, size as int)
        && if key !in old(objects) then w.tagged
           else LeftByThisPush(old(objects), key, pushTip, w.head) && w.abort == Served
    {
      hide Assembled, PartSound, LeastPartSize, PartsNeeded;
      var partSize := MultipartBundlePartSize(size);
      if partSize.Failure? {
        return Some(partSize.error);
      }
      LeastFits(size as int, partSize.value as int);
      ReachesAtLeast(w, size as int, partSize.value as int);
      if w.start != Refused {
        upload := Some([]);
      }
      if w.start != Served || !w.named {
        return Some(NotStarted);
      }
      var completed := false;
      var parts, error := UploadParts(file, size, partSize.value, w.interrupted, w.part);
      result := error;
      if error.None? {
        var answer := Complete(key, pushTip, parts, w.complete);
        if answer.Some? {
          result := UploadResult(key, pushTip, answer, w.head);
        } else if !w.tagged {
          result := Some(Unconfirmed);
        } else {
          completed := true;
        }
      }
      if !completed {
        if w.abort != Refused {
          upload := None;
        }
        if result.None? && w.abort != Served {
          result := Some(AbortFailed);
        }
      }
    }

    // One conditional put up to the part size, a multipart upload above it.
    method UploadBundle(key: string, pushTip: string, file: Bytes, size: int64, w: World)
      returns (result: Option<UploadError>)
      requires |file| == size as int && upload.None?
      modifies this
      ensures objects == old(objects) || (key !in old(objects) && objects == old(objects)[key := Stored(file, pushTip)])
      ensures result.None? ==> key in objects && objects[key].pushTip == pushTip
      ensures result.None? && key in old(objects) ==> |old(objects)[key].body| > 0
      ensures upload.None? || w.abort == Refused || w.start == AnswerLost || !w.named
      ensures size <= PART_SIZE ==>
        (result.None? <==>
          w.complete == Served && (key !in old(objects) || LeftByThisPush(old(objects), key, pushTip, w.head)))
      ensures size > PART_SIZE ==>
        (result.None? <==>
          && ReachesCompletion(w, size as int)
          && if key !in old(objects) then w.tagged
             else LeftByThisPush(old(objects), key, pushTip, w.head) && w.abort == Served)
    {
      if size > PART_SIZE {
        result := MultipartUpload(key, pushTip, file, size, w);
      } else {
        var answer := Create(key, Stored(file, pushTip), w.complete);
        result := UploadResult(key, pushTip, answer, w.head);
      }
    }
  }

  lemma LeastFits(size: int, part: int)
    requires LeastPartSize(size, part)
    ensures part > 0 && PartsNeeded(size, part) <= MAX_PARTS as int
  {}

  // Part k is needed exactly if it begins inside the file.
  lemma PartIsNeeded(k: nat, size: int, part: int)
    requires part > 0 && k * part < size
    ensures k < PartsNeeded(size, part)
  {
    PartsFit(size, part, k);
  }

  lemma ReachesAtLeast(w: World, size: int, part: int)
    requires LeastPartSize(size, part) && size <= MAX_PARTS as int * MAX_PART_SIZE as int
    ensures ReachesCompletion(w, size) <==>
      && w.start == Served && w.named && w.complete == Served
      && PartsAnswered(w.interrupted, w.part, PartsNeeded(size, part))
  {
    hide PartsNeeded, PartsAnswered;
  }

  // ----- The partition -----

  function Covered(n: int, file: Bytes, size: int): int {
    if n * size < |file| then n * size else |file|
  }

  // Part k, numbered k + 1, is a nonempty section: full-sized unless the file ends in it.
  predicate PartSound(part: Part, k: int, file: Bytes, size: int) {
    && part.number as int == k + 1 && 0 <= k * size < Covered(k + 1, file, size) <= |file|
    && part.body == file[k * size..Covered(k + 1, file, size)]
  }

  ghost predicate SoFar(parts: seq<Part>, file: Bytes, size: int) {
    && size > 0 && 0 <= Covered(|parts|, file, size) <= |file|
    && Assembled(parts) == file[..Covered(|parts|, file, size)]
    && (forall k | 0 <= k < |parts| :: PartSound(parts[k], k, file, size))
    && (parts != [] ==> (|parts| - 1) * size < |file|)
  }

  // Consecutive sections whose concatenation is the file.
  ghost predicate Partition(parts: seq<Part>, file: Bytes, size: int) {
    && Assembled(parts) == file && |parts| <= MAX_PARTS as int
    && forall k | 0 <= k < |parts| :: PartSound(parts[k], k, file, size)
  }

  lemma NothingUploaded(file: Bytes, size: int)
    requires size > 0
    ensures SoFar([], file, size)
  {}

  // Every part number fits, as no more than ten thousand parts start inside the file.
  lemma NumberFits(n: int, file: Bytes, size: int)
    requires n >= 0 && size > 0 && n * size < |file| <= MAX_PARTS as int * size
    ensures n < MAX_PARTS as int
  {
    if n >= MAX_PARTS as int { Multiply(MAX_PARTS as int, n, size); }
  }

  lemma CoveredNext(n: nat, file: Bytes, size: int)
    requires size > 0 && n * size < |file|
    ensures 0 <= n * size == Covered(n, file, size)
    ensures Covered(n + 1, file, size) == n * size + if size < |file| - n * size then size else |file| - n * size
  {
    assert (n + 1) * size == n * size + size;
  }

  lemma NextPart(parts: seq<Part>, file: Bytes, size: int, part: Part)
    requires SoFar(parts, file, size) && |parts| * size < |file|
    requires part.number as int == |parts| + 1
    requires var offset := |parts| * size;
      part.body == file[offset..offset + if size < |file| - offset then size else |file| - offset]
    ensures SoFar(parts + [part], file, size)
  {
    hide Covered, PartSound;
    var grown := parts + [part];
    CoveredNext(|parts|, file, size);
    assert grown[..|grown| - 1] == parts;
    assert file[..Covered(|parts|, file, size)] + part.body == file[..Covered(|grown|, file, size)];
    assert PartSound(part, |parts|, file, size) by { NextIsSound(part, |parts|, file, size); }
  }

  lemma NextIsSound(part: Part, k: nat, file: Bytes, size: int)
    requires size > 0 && k * size < |file| && part.number as int == k + 1
    requires 0 <= k * size < Covered(k + 1, file, size) <= |file|
      && part.body == file[k * size..Covered(k + 1, file, size)]
    ensures PartSound(part, k, file, size)
  {}

  lemma AllParts(parts: seq<Part>, file: Bytes, size: int)
    requires SoFar(parts, file, size) && |file| <= |parts| * size && |file| <= MAX_PARTS as int * size
    ensures Partition(parts, file, size)
  {
    if parts != [] { NumberFits(|parts| - 1, file, size); }
    assert file[..|file|] == file;
  }
}
