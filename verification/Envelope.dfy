/** Reading the recipient fingerprints from a bundle's encrypted envelope. */
module Envelope {
  import opened Wrappers
  import opened Ordering
  import opened Names
  import opened Manifests

  newtype byte = x: int | 0 <= x < 256

  const FINGERPRINT := 64
  // A fingerprint, the sealed-box overhead and the stream key.
  const RECORD := FINGERPRINT + 48 + 32
  const ENTRY := 4 + RECORD
  const MAXIMUM := 0x1_0000

  datatype EnvelopeError = Incomplete | InvalidCount | InvalidRecord | Duplicate | PolicyDisagrees

  function LittleEndian(b: seq<byte>): nat
    requires |b| >= 4
  {
    b[0] as int + 0x100 * b[1] as int + 0x1_0000 * b[2] as int + 0x100_0000 * b[3] as int
  }

  function HexChar(n: int): char
    requires 0 <= n < 16
  {
    "0123456789abcdef"[n]
  }

  // Taking the count apart gives its bytes, the first one least significant.
  lemma CountBytes(b: seq<byte>)
    requires |b| >= 4
    ensures var n := LittleEndian(b);
      && n % 0x100 == b[0] as int && n / 0x100 % 0x100 == b[1] as int
      && n / 0x100 / 0x100 % 0x100 == b[2] as int && n / 0x100 / 0x100 / 0x100 == b[3] as int
  {
    var top := b[3] as nat;
    var upper := b[2] as nat + 0x100 * top;
    var rest := b[1] as nat + 0x100 * upper;
    assert LittleEndian(b) == b[0] as nat + 0x100 * rest;
    LowByte(b[0] as nat, rest);
    LowByte(b[1] as nat, upper);
    LowByte(b[2] as nat, top);
  }

  lemma LowByte(low: nat, rest: nat)
    requires low < 0x100
    ensures (low + 0x100 * rest) % 0x100 == low && (low + 0x100 * rest) / 0x100 == rest
  {}

  // The value a lower-case hexadecimal digit stands for.
  function DigitValue(c: char): int {
    if '0' <= c <= '9' then c as int - '0' as int else c as int - 'a' as int + 10
  }

  lemma HexCharReads(n: int)
    requires 0 <= n < 16
    ensures HexDigit(HexChar(n)) && DigitValue(HexChar(n)) == n
  {}

  // Two digits a byte, the high one first, read back as the byte.
  lemma HexReadsBack(bytes: seq<byte>, i: nat)
    requires i < |bytes|
    ensures |Hex(bytes)| == 2 * |bytes| && HexDigit(Hex(bytes)[2 * i]) && HexDigit(Hex(bytes)[2 * i + 1])
    ensures 16 * DigitValue(Hex(bytes)[2 * i]) + DigitValue(Hex(bytes)[2 * i + 1]) == bytes[i] as int
  {
    hide HexChar;
    HexCharReads(bytes[i] as int / 16);
    HexCharReads(bytes[i] as int % 16);
  }

  function Hex(bytes: seq<byte>): string {
    seq(2 * |bytes|, i requires 0 <= i < 2 * |bytes| =>
      HexChar(if i % 2 == 0 then bytes[i / 2] as int / 16 else bytes[i / 2] as int % 16))
  }

  // A conditional range read: all the requested bytes, or nothing.
  function HeaderRange(body: seq<byte>, offset: nat, size: nat): Option<seq<byte>> {
    if offset + size <= |body| then Some(body[offset..offset + size]) else None
  }

  predicate CountAllowed(count: nat, size: int) {
    0 < count <= MAXIMUM && 4 + count * ENTRY < size
  }

  // The fingerprints of consecutive records, in stored order.
  function Records(header: seq<byte>): Option<seq<string>>
    requires |header| % ENTRY == 0
  {
    if header == [] then Some([]) else
      assert |header| >= ENTRY;
      if LittleEndian(header) != RECORD then None else
        match Records(header[ENTRY..])
        case None => None
        case Some(rest) => Some([Hex(header[4..4 + FINGERPRINT])] + rest)
  }

  // The recipients an envelope declares: sorted, without repetition.
  ghost predicate Yields(body: seq<byte>, size: int, recipients: seq<string>) {
    && |body| >= 4
    && var count := LittleEndian(body);
    && CountAllowed(count, size) && 4 + count * ENTRY <= |body|
    && Records(body[4..4 + count * ENTRY]).Some?
    && multiset(recipients) == multiset(Records(body[4..4 + count * ENTRY]).value)
    && StrictlySorted(recipients)
  }

  lemma YieldsUnique(body: seq<byte>, size: int, a: seq<string>, b: seq<string>)
    requires Yields(body, size, a) && Yields(body, size, b)
    ensures a == b
  {
    hide Leq;
    SortedUnique(a, b);
  }

  lemma {:induction false} RecordsCount(header: seq<byte>)
    requires |header| % ENTRY == 0 && Records(header).Some?
    ensures |Records(header).value| * ENTRY == |header|
    ensures forall r | r in Records(header).value :: IsRecipient(r)
  {
    if header != [] {
      RecordsCount(header[ENTRY..]);
      HexIsRecipient(header[4..4 + FINGERPRINT]);
    }
  }

  lemma HexIsRecipient(bytes: seq<byte>)
    requires |bytes| == FINGERPRINT
    ensures IsRecipient(Hex(bytes))
  {}

  // Whatever an envelope yields is a policy a manifest may record.
  lemma YieldsPolicy(body: seq<byte>, size: int, recipients: seq<string>)
    requires Yields(body, size, recipients)
    ensures Policy(recipients) && |recipients| == LittleEndian(body) <= MAXIMUM
    ensures 4 + |recipients| * ENTRY < size && 4 + |recipients| * ENTRY <= |body|
  {
    hide Leq, IsRecipient, LittleEndian, Records;
    var header := body[4..4 + LittleEndian(body) * ENTRY];
    RecordsCount(header);
    var stored := Records(header).value;
    assert |multiset(recipients)| == |recipients| && |multiset(stored)| == |stored|;
    forall r | r in recipients ensures IsRecipient(r) {
      assert r in multiset(recipients);
      assert r in stored;
    }
  }

  method ReadRecords(header: seq<byte>) returns (found: Option<seq<string>>)
    requires |header| % ENTRY == 0
    ensures found == Records(header)
  {
    hide LittleEndian, Hex, Records;
    var names: seq<string> := [];
    var offset := 0;
    assert header[0..] == header;
    while offset < |header|
      invariant 0 <= offset <= |header| && offset % ENTRY == 0
      invariant Records(header).Some? <==> Records(header[offset..]).Some?
      invariant Records(header).Some? ==> Records(header).value == names + Records(header[offset..]).value
    {
      NextRecord(|header|, offset);
      var rest := header[offset..];
      assert rest[ENTRY..] == header[offset + ENTRY..];
      RecordsStep(rest);
      if LittleEndian(rest) != RECORD {
        return None;
      }
      names := names + [Hex(rest[4..4 + FINGERPRINT])];
      offset := offset + ENTRY;
    }
    NoRecords(header[offset..]);
    assert names + [] == names;
    return Some(names);
  }

  lemma NextRecord(length: nat, offset: nat)
    requires length % ENTRY == 0 && offset % ENTRY == 0 && offset < length
    ensures offset + ENTRY <= length && (offset + ENTRY) % ENTRY == 0 && (length - offset) % ENTRY == 0
  {
    var a, b := length / ENTRY, offset / ENTRY;
    assert length == ENTRY * a && offset == ENTRY * b && length - offset == ENTRY * (a - b);
  }

  lemma NoRecords(header: seq<byte>)
    requires header == []
    ensures Records(header) == Some([])
  {}

  lemma RecordsStep(header: seq<byte>)
    requires |header| % ENTRY == 0 && header != []
    ensures |header| >= ENTRY
    ensures
      var rest := Records(header[ENTRY..]);
      Records(header) == if LittleEndian(header) != RECORD || rest.None? then None
        else Some([Hex(header[4..4 + FINGERPRINT])] + rest.value)
  {
    hide LittleEndian, Hex;
  }

  method HasDuplicates(sorted: seq<string>) returns (found: bool)
    requires Sorted(sorted)
    ensures found <==> !StrictlySorted(sorted)
  {
    hide Leq;
    if |sorted| == 0 {
      return false;
    }
    for i := 1 to |sorted|
      invariant forall j, k | 0 <= j < k < i && k < |sorted| :: sorted[j] != sorted[k]
    {
      if sorted[i - 1] == sorted[i] {
        return true;
      }
      forall j | 0 <= j < i ensures sorted[j] != sorted[i] {
        if sorted[j] == sorted[i] { LeqAntisymmetric(sorted[i - 1], sorted[i]); }
      }
    }
    return false;
  }

  // One read bounded by a known policy accepts exactly when the two discovery reads find that policy.
  method ReadBundleRecipients(body: seq<byte>, size: int, recorded: seq<string>)
    returns (result: Result<seq<string>, EnvelopeError>)
    ensures result.Success? ==> Yields(body, size, result.value)
    ensures recorded == [] ==> (result.Success? <==> exists r :: Yields(body, size, r))
    ensures recorded != [] ==> (result.Success? <==> Yields(body, size, recorded))
    ensures recorded != [] && result.Success? ==> result.value == recorded
  {
    hide Leq, Records, LittleEndian;
    var count := |recorded|;
    if Yields(body, size, recorded) { YieldsPolicy(body, size, recorded); }
    if count == 0 {
      var bytes := HeaderRange(body, 0, 4);
      if bytes.None? {
        return Failure(Incomplete);
      }
      SamePrefix(body, 4);
      count := LittleEndian(bytes.value);
    }
    if !CountAllowed(count, size) {
      return Failure(InvalidCount);
    }
    // Every later quantity fits a signed 32-bit integer, so no conversion can truncate.
    assert 4 + count * ENTRY < 0x8000_0000;
    var offset, length := 4, count * ENTRY;
    if |recorded| != 0 {
      offset, length := 0, length + 4;
    }
    var read := HeaderRange(body, offset, length);
    if read.None? {
      return Failure(Incomplete);
    }
    var header := read.value;
    if |recorded| != 0 {
      SamePrefix(body, length);
      if LittleEndian(header) != count {
        return Failure(PolicyDisagrees);
      }
      header := header[4..];
    }
    assert header == body[4..4 + count * ENTRY] && LittleEndian(body) == count;
    var stored := ReadRecords(header);
    if stored.None? {
      return Failure(InvalidRecord);
    }
    var recipients := Sort(stored.value);
    var duplicates := HasDuplicates(recipients);
    if duplicates {
      NoYield(body, size, recipients);
      return Failure(Duplicate);
    }
    assert Yields(body, size, recipients);
    if |recorded| != 0 && recorded != recipients {
      if Yields(body, size, recorded) { YieldsUnique(body, size, recorded, recipients); }
      return Failure(PolicyDisagrees);
    }
    return Success(recipients);
  }

  lemma SamePrefix(body: seq<byte>, n: nat)
    requires 4 <= n <= |body|
    ensures LittleEndian(body[0..n]) == LittleEndian(body)
  {}

  // A repeated fingerprint leaves no strictly sorted arrangement.
  lemma NoYield(body: seq<byte>, size: int, recipients: seq<string>)
    requires Sorted(recipients) && !StrictlySorted(recipients)
    requires |body| >= 4 && 4 + LittleEndian(body) * ENTRY <= |body|
    requires Records(body[4..4 + LittleEndian(body) * ENTRY]).Some?
    requires multiset(recipients) == multiset(Records(body[4..4 + LittleEndian(body) * ENTRY]).value)
    ensures forall r :: !Yields(body, size, r)
  {
    hide Leq, Records, LittleEndian;
    forall r ensures !Yields(body, size, r) {
      if Yields(body, size, r) { SortedUnique(r, recipients); }
    }
  }

  // ----- Round trip -----

  // Four bytes, least significant first.
  function Encode(n: nat): seq<byte>
    requires n < 0x1_0000_0000
  {
    var a := n / 0x100;
    var b := a / 0x100;
    [(n % 0x100) as byte, (a % 0x100) as byte, (b % 0x100) as byte, (b / 0x100) as byte]
  }

  lemma OneByte(n: nat)
    ensures n == n % 0x100 + 0x100 * (n / 0x100)
  {}

  lemma EncodeRoundTrip(n: nat, rest: seq<byte>)
    requires n < 0x1_0000_0000
    ensures LittleEndian(Encode(n) + rest) == n
  {
    var a := n / 0x100;
    var b := a / 0x100;
    OneByte(n);
    OneByte(a);
    OneByte(b);
    var e := Encode(n) + rest;
    assert e[0] == Encode(n)[0] && e[1] == Encode(n)[1] && e[2] == Encode(n)[2] && e[3] == Encode(n)[3];
  }

  // An envelope as the encryptor writes it: each record's fingerprint is followed by 80 sealed bytes.
  datatype Sealed = Sealed(fingerprint: seq<byte>, key: seq<byte>) {
    predicate Valid() { |fingerprint| == FINGERPRINT && |key| == RECORD - FINGERPRINT }
  }

  function WriteRecords(records: seq<Sealed>): seq<byte> {
    if records == [] then [] else
      Encode(RECORD) + (records[0].fingerprint + records[0].key) + WriteRecords(records[1..])
  }

  function Fingerprints(records: seq<Sealed>): seq<string> {
    seq(|records|, i requires 0 <= i < |records| => Hex(records[i].fingerprint))
  }

  lemma {:induction false} RecordsRoundTrip(records: seq<Sealed>)
    requires forall r | r in records :: r.Valid()
    ensures |WriteRecords(records)| == |records| * ENTRY
    ensures Records(WriteRecords(records)) == Some(Fingerprints(records))
  {
    hide Hex, LittleEndian, Encode;
    if records != [] {
      var r, rest := records[0], WriteRecords(records[1..]);
      RecordsRoundTrip(records[1..]);
      OneRecord(r, rest);
      assert Fingerprints(records) == [Hex(r.fingerprint)] + Fingerprints(records[1..]);
    }
  }

  lemma OneRecord(r: Sealed, rest: seq<byte>)
    requires r.Valid()
    ensures
      var all := Encode(RECORD) + (r.fingerprint + r.key) + rest;
      && |all| == ENTRY + |rest| && LittleEndian(all) == RECORD
      && all[ENTRY..] == rest && all[4..4 + FINGERPRINT] == r.fingerprint
  {
    EncodeRoundTrip(RECORD, r.fingerprint + r.key);
    var head := Encode(RECORD) + (r.fingerprint + r.key);
    assert head[4..4 + FINGERPRINT] == r.fingerprint;
  }

  // A written envelope is read back as its sorted fingerprints.
  lemma EnvelopeRoundTrip(records: seq<Sealed>, payload: seq<byte>, recipients: seq<string>)
    requires 0 < |records| <= MAXIMUM && payload != []
    requires forall r | r in records :: r.Valid()
    requires StrictlySorted(recipients) && multiset(recipients) == multiset(Fingerprints(records))
    ensures
      var body := Encode(|records|) + WriteRecords(records) + payload;
      Yields(body, |body|, recipients)
  {
    hide Leq, Hex, LittleEndian, WriteRecords, Records, Fingerprints;
    var body := Encode(|records|) + WriteRecords(records) + payload;
    RecordsRoundTrip(records);
    EncodeRoundTrip(|records|, WriteRecords(records) + payload);
    assert body == Encode(|records|) + (WriteRecords(records) + payload);
    assert body[4..4 + |records| * ENTRY] == WriteRecords(records);
  }

  lemma HexInjective(a: seq<byte>, b: seq<byte>)
    requires Hex(a) == Hex(b)
    ensures a == b
  {
    assert |Hex(a)| == 2 * |a| && |Hex(b)| == 2 * |b|;
    forall i | 0 <= i < |a| ensures a[i] == b[i] {
      assert Hex(a)[2 * i] == HexChar(a[i] as int / 16) && Hex(a)[2 * i + 1] == HexChar(a[i] as int % 16);
      assert Hex(b)[2 * i] == HexChar(b[i] as int / 16) && Hex(b)[2 * i + 1] == HexChar(b[i] as int % 16);
      HexCharInjective(a[i] as int / 16, b[i] as int / 16);
      HexCharInjective(a[i] as int % 16, b[i] as int % 16);
    }
  }

  lemma HexCharInjective(m: int, n: int)
    requires 0 <= m < 16 && 0 <= n < 16 && HexChar(m) == HexChar(n)
    ensures m == n
  {}
}
