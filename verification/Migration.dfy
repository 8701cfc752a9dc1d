/** Migrating legacy lease records: the pure migration, the conditional update that performs it, and reruns. */
module Migration {
  import opened Wrappers

  datatype AttributeValue =
    | S(text: string)
    | N(digits: string)
    | Null(flag: bool)
    | M(fields: map<string, AttributeValue>)
    | Other(kind: string, raw: string)

  type Item = map<string, AttributeValue>

  function Lookup(item: Item, name: string): Option<AttributeValue> {
    if name in item then Some(item[name]) else None
  }

  // ----- What the migration means -----

  const LEGACY_FIELDS: seq<string> := ["branch", "bundles", "uid", "unix"]
  const PAYLOAD_FIELDS: seq<string> := ["branch", "bundles"]

  predicate Legacy(item: Item) {
    exists name | name in LEGACY_FIELDS :: name in item
  }

  predicate Payload(fields: Item) {
    forall name | name in fields :: name in PAYLOAD_FIELDS && fields[name].S?
  }

  // The branch and pointer as they stand, absent or present.
  function PayloadOf(item: Item): Item {
    map name | name in item && name in PAYLOAD_FIELDS :: item[name]
  }

  // A record that can be migrated without losing anything: known attributes, one schema, nobody holding the lock.
  predicate Migratable(item: Item) {
    && "id" in item && item["id"].S? && item["id"].text != ""
    && if Legacy(item) then
         && (forall name | name in item :: name == "id" || name in LEGACY_FIELDS)
         && ("uid" in item ==> item["uid"] == S("") || item["uid"] == Null(true))
         && ("unix" in item ==> item["unix"] == N("0"))
         && Payload(PayloadOf(item))
       else
         && (forall name | name in item :: name == "id" || name == "data")
         && ("data" in item ==> item["data"].M? && Payload(item["data"].fields))
  }

  // Absent payload stays absent, an explicitly empty one stays empty.
  function Migrated(item: Item): Item
    requires "id" in item
  {
    if !Legacy(item) then item
    else if PayloadOf(item) == map[] then map["id" := item["id"]]
    else map["id" := item["id"], "data" := M(PayloadOf(item))]
  }

  // Migration is idempotent: what it produced is accepted again and left alone.
  lemma MigratedIsSettled(item: Item)
    requires Migratable(item)
    ensures Migratable(Migrated(item)) && !Legacy(Migrated(item)) && Migrated(Migrated(item)) == Migrated(item)
  {
    var done := Migrated(item);
    forall name | name in LEGACY_FIELDS ensures name !in done {
      assert name == "branch" || name == "bundles" || name == "uid" || name == "unix";
      if !Legacy(item) { assert name !in item; }
    }
  }

  // A legacy record nobody holds: these are all the ways to write no owner and no heartbeat.
  predicate Cleared(owner: Option<AttributeValue>, heartbeat: Option<AttributeValue>) {
    && (owner == None || owner == Some(S("")) || owner == Some(Null(true)))
    && (heartbeat == None || heartbeat == Some(N("0")))
  }

  function With(item: Item, name: string, value: Option<AttributeValue>): Item {
    if value.None? then item else item[name := value.value]
  }

  function LegacyRecord(id: string, branch: Option<string>, bundles: Option<string>, owner: Option<AttributeValue>,
    heartbeat: Option<AttributeValue>): Item
  {
    With(With(With(With(map["id" := S(id)], "branch", Text(branch)), "bundles", Text(bundles)), "uid", owner), "unix",
      heartbeat)
  }

  function Text(value: Option<string>): Option<AttributeValue> {
    if value.None? then None else Some(S(value.value))
  }

  function TextOf(item: Item, name: string): Option<string> {
    if name in item && item[name].S? then Some(item[name].text) else None
  }

  // The accepted legacy records are exactly those made of an id, a branch and a list, each text or absent, and a lock
  // that nobody holds; so a record with an owner or a heartbeat is refused.
  lemma AcceptedLegacyRecords(item: Item)
    requires Legacy(item)
    ensures Migratable(item) <==> exists id, branch, bundles, owner, heartbeat ::
      id != "" && Cleared(owner, heartbeat) && item == LegacyRecord(id, branch, bundles, owner, heartbeat)
  {
    hide Migratable, LegacyRecord, Legacy;
    if Migratable(item) {
      var id := MigratableIsRecord(item);
      var owner, heartbeat := Lookup(item, "uid"), Lookup(item, "unix");
      assert id != "" && Cleared(owner, heartbeat)
        && item == LegacyRecord(id, TextOf(item, "branch"), TextOf(item, "bundles"), owner, heartbeat);
    }
    if exists id, branch, bundles, owner, heartbeat ::
      id != "" && Cleared(owner, heartbeat) && item == LegacyRecord(id, branch, bundles, owner, heartbeat)
    {
      var id, branch, bundles, owner, heartbeat :|
        id != "" && Cleared(owner, heartbeat) && item == LegacyRecord(id, branch, bundles, owner, heartbeat);
      MigrationIsLossless(id, branch, bundles, owner, heartbeat);
    }
  }

  lemma MigratableIsRecord(item: Item) returns (id: string)
    requires Legacy(item) && Migratable(item)
    ensures id != "" && Cleared(Lookup(item, "uid"), Lookup(item, "unix"))
    ensures item == LegacyRecord(id, TextOf(item, "branch"), TextOf(item, "bundles"), Lookup(item, "uid"),
                                 Lookup(item, "unix"))
  {
    hide LegacyRecord, Payload, PayloadOf, TextOf;
    id := item["id"].text;
    var branch, bundles := TextOf(item, "branch"), TextOf(item, "bundles");
    var owner, heartbeat := Lookup(item, "uid"), Lookup(item, "unix");
    PayloadIsText(item, "branch");
    PayloadIsText(item, "bundles");
    RecordReads(id, branch, bundles, owner, heartbeat);
    SameItems(item, LegacyRecord(id, branch, bundles, owner, heartbeat));
  }

  // Two accepted legacy records with one migration differ at most in how they write that nobody holds them.
  lemma OnlyTheLockIsLost(a: Item, b: Item, name: string)
    requires Legacy(a) && Legacy(b) && Migratable(a) && Migratable(b) && Migrated(a) == Migrated(b)
    requires Lookup(a, name) != Lookup(b, name)
    ensures name == "uid" || name == "unix"
    ensures Cleared(Lookup(a, "uid"), Lookup(a, "unix")) && Cleared(Lookup(b, "uid"), Lookup(b, "unix"))
  {
    hide Legacy, LegacyRecord, TextOf, Payload;
    var _ := MigratableIsRecord(a);
    var _ := MigratableIsRecord(b);
    if name == "branch" || name == "bundles" {
      PayloadIsKept(a, name);
      PayloadIsKept(b, name);
    }
    assert Lookup(Migrated(a), "id") == Lookup(a, "id") && Lookup(Migrated(b), "id") == Lookup(b, "id");
  }

  // The migrated payload answers for branch and list as the record did.
  lemma PayloadIsKept(item: Item, name: string)
    requires Legacy(item) && Migratable(item) && (name == "branch" || name == "bundles")
    ensures Lookup(item, name) ==
      if "data" in Migrated(item) && Migrated(item)["data"].M? then Lookup(Migrated(item)["data"].fields, name)
      else None
  {
    hide Payload, Legacy;
    assert name in PAYLOAD_FIELDS;
    assert name in item <==> name in PayloadOf(item);
  }

  lemma PayloadIsText(item: Item, name: string)
    requires Payload(PayloadOf(item)) && name in PAYLOAD_FIELDS
    ensures Lookup(item, name) == Text(TextOf(item, name))
  {
    if name in item { assert name in PayloadOf(item); }
  }

  // Migration keeps id, branch and list, present or absent as they were, and nothing else there is to keep.
  lemma MigrationIsLossless(id: string, branch: Option<string>, bundles: Option<string>, owner: Option<AttributeValue>,
    heartbeat: Option<AttributeValue>)
    requires id != "" && Cleared(owner, heartbeat)
    requires Legacy(LegacyRecord(id, branch, bundles, owner, heartbeat))
    ensures var item := LegacyRecord(id, branch, bundles, owner, heartbeat);
      && Migratable(item)
      && Migrated(item) == With(map["id" := S(id)], "data", if branch.None? && bundles.None? then None
         else Some(M(With(With(map[], "branch", Text(branch)), "bundles", Text(bundles)))))
  {
    hide LegacyRecord;
    var item := LegacyRecord(id, branch, bundles, owner, heartbeat);
    RecordReads(id, branch, bundles, owner, heartbeat);
    assert "branch" in PAYLOAD_FIELDS && "bundles" in PAYLOAD_FIELDS;
    var payload := With(With(map[], "branch", Text(branch)), "bundles", Text(bundles));
    forall name ensures Lookup(PayloadOf(item), name) == Lookup(payload, name) {
      assert Lookup(item, name) == if name in item then Some(item[name]) else None;
    }
    SameItems(PayloadOf(item), payload);
    assert branch.Some? ==> "branch" in payload;
    assert bundles.Some? ==> "bundles" in payload;
    forall name | name in item ensures name == "id" || name in LEGACY_FIELDS {
      assert Lookup(item, name).Some?;
    }
    assert Lookup(item, "id") == Some(S(id)) && Lookup(item, "uid") == owner && Lookup(item, "unix") == heartbeat;
  }

  lemma SameItems(a: Item, b: Item)
    requires forall name :: Lookup(a, name) == Lookup(b, name)
    ensures a == b
  {
    forall name ensures name in a <==> name in b {
      assert Lookup(a, name) == Lookup(b, name);
    }
    forall name | name in a ensures a[name] == b[name] {
      assert Lookup(a, name) == Lookup(b, name);
    }
  }

  lemma RecordReads(id: string, branch: Option<string>, bundles: Option<string>, owner: Option<AttributeValue>,
    heartbeat: Option<AttributeValue>)
    ensures var item := LegacyRecord(id, branch, bundles, owner, heartbeat);
      forall name :: Lookup(item, name) ==
        if name == "id" then Some(S(id)) else if name == "branch" then Text(branch)
        else if name == "bundles" then Text(bundles) else if name == "uid" then owner
        else if name == "unix" then heartbeat else None
  {}

  // ----- The migration as it is computed -----

  datatype MigrationError = NoId | UnknownAttribute | Held | InvalidOwner | HeartbeatNotCleared | DataIsNotMap
    | BadPayload

  method IsLegacy(item: Item) returns (legacy: bool)
    ensures legacy == Legacy(item)
  {
    legacy := false;
    for i := 0 to |LEGACY_FIELDS|
      invariant legacy <==> exists j | 0 <= j < i :: LEGACY_FIELDS[j] in item
    {
      legacy := legacy || LEGACY_FIELDS[i] in item;
    }
  }

  method KnownAttributes(item: Item, legacy: bool) returns (ok: bool)
    ensures ok <==> forall name | name in item ::
      name == "id" || (legacy && name in LEGACY_FIELDS) || (!legacy && name == "data")
  {
    var rest := item.Keys;
    while rest != {}
      invariant rest <= item.Keys
      invariant forall name | name in item && name !in rest ::
        name == "id" || (legacy && name in LEGACY_FIELDS) || (!legacy && name == "data")
      decreases rest
    {
      var name :| name in rest;
      if !(name == "id" || (legacy && name in LEGACY_FIELDS) || (!legacy && name == "data")) {
        return false;
      }
      rest := rest - {name};
    }
    ok := true;
  }

  // The legacy lock must be cleared: no owner, no heartbeat.
  method LockError(item: Item) returns (error: Option<MigrationError>)
    ensures error.None? <==>
      && ("uid" in item ==> item["uid"] == S("") || item["uid"] == Null(true))
      && ("unix" in item ==> item["unix"] == N("0"))
  {
    if "uid" in item {
      match item["uid"] {
        case S(owner) => if owner != "" { return Some(Held); }
        case Null(flag) => if !flag { return Some(InvalidOwner); }
        case _ => return Some(InvalidOwner);
      }
    }
    if "unix" in item {
      if !item["unix"].N? || item["unix"].digits != "0" {
        return Some(HeartbeatNotCleared);
      }
    }
    return None;
  }

  function PayloadUpTo(item: Item, n: nat): Item
    requires n <= |PAYLOAD_FIELDS|
  {
    map name | name in item && name in PAYLOAD_FIELDS[..n] :: item[name]
  }

  lemma NextPayload(item: Item, n: nat)
    requires n < |PAYLOAD_FIELDS|
    ensures var name := PAYLOAD_FIELDS[n];
      PayloadUpTo(item, n + 1) == if name in item then PayloadUpTo(item, n)[name := item[name]]
        else PayloadUpTo(item, n)
  {
    assert PAYLOAD_FIELDS[..n + 1] == PAYLOAD_FIELDS[..n] + [PAYLOAD_FIELDS[n]];
  }

  method CollectPayload(item: Item) returns (data: Option<Item>)
    ensures data == if PayloadOf(item) == map[] then None else Some(PayloadOf(item))
  {
    data := None;
    for i := 0 to |PAYLOAD_FIELDS|
      invariant data == if PayloadUpTo(item, i) == map[] then None else Some(PayloadUpTo(item, i))
    {
      var name := PAYLOAD_FIELDS[i];
      NextPayload(item, i);
      if name in item {
        if data.None? {
          data := Some(map[]);
        }
        data := Some(data.value[name := item[name]]);
        assert name in data.value;
      }
    }
    assert PAYLOAD_FIELDS[..|PAYLOAD_FIELDS|] == PAYLOAD_FIELDS;
  }

  method IsPayload(data: Item) returns (ok: bool)
    ensures ok <==> Payload(data)
  {
    var rest := data.Keys;
    while rest != {}
      invariant rest <= data.Keys
      invariant forall name | name in data && name !in rest :: name in PAYLOAD_FIELDS && data[name].S?
      decreases rest
    {
      var name :| name in rest;
      if !data[name].S? || (name != "branch" && name != "bundles") {
        return false;
      }
      rest := rest - {name};
    }
    ok := true;
  }

  method MigratedRepoItem(item: Item) returns (result: Result<Item, MigrationError>)
    ensures result.Success? <==> Migratable(item)
    ensures result.Success? ==> result.value == Migrated(item)
    ensures Legacy(item) && !Cleared(Lookup(item, "uid"), Lookup(item, "unix")) ==> result.Failure?
  {
    if "id" !in item || !item["id"].S? || item["id"].text == "" {
      return Failure(NoId);
    }
    var legacy := IsLegacy(item);
    var known := KnownAttributes(item, legacy);
    if !known {
      return Failure(UnknownAttribute);
    }
    var data: Option<Item> := None;
    if legacy {
      var locked := LockError(item);
      if locked.Some? {
        return Failure(locked.value);
      }
      data := CollectPayload(item);
    } else if "data" in item {
      if !item["data"].M? {
        return Failure(DataIsNotMap);
      }
      data := Some(item["data"].fields);
    }
    if data.Some? {
      var payload := IsPayload(data.value);
      if !payload {
        return Failure(BadPayload);
      }
    }
    result := Success(if data.None? then map["id" := item["id"]] else map["id" := item["id"], "data" := M(data.value)]);
  }

  // ----- The conditional update -----

  // A clause of a condition expression over aliases and placeholders.
  datatype Clause = Exists(alias: string) | Absent(alias: string) | Equals(alias: string, placeholder: string)

  // One UpdateItem request: every clause must hold, then assignments and removals apply.
  datatype Request = Request(
    key: AttributeValue, conditions: seq<Clause>, assign: Option<(string, string)>, remove: seq<string>,
    names: map<string, string>, values: map<string, AttributeValue>)

  predicate Resolves(r: Request, clause: Clause) {
    clause.alias in r.names && (clause.Equals? ==> clause.placeholder in r.values)
  }

  // The service refuses a request with an undefined alias or placeholder.
  predicate Defined(r: Request) {
    && (forall i | 0 <= i < |r.conditions| :: Resolves(r, r.conditions[i]))
    && (forall alias | alias in r.remove :: alias in r.names)
    && (r.assign.Some? ==> r.assign.value.0 in r.names && r.assign.value.1 in r.values)
  }

  predicate NameUsed(r: Request, alias: string) {
    || (exists i :: 0 <= i < |r.conditions| && r.conditions[i].alias == alias)
    || alias in r.remove || (r.assign.Some? && r.assign.value.0 == alias)
  }

  predicate ValueUsed(r: Request, placeholder: string) {
    || (exists i :: 0 <= i < |r.conditions| && r.conditions[i].Equals? && r.conditions[i].placeholder == placeholder)
    || (r.assign.Some? && r.assign.value.1 == placeholder)
  }

  // It also refuses names or values that no expression uses, and an empty list of values.
  predicate Accepted(r: Request) {
    && Defined(r) && r.values != map[]
    && (forall alias | alias in r.names :: NameUsed(r, alias))
    && (forall placeholder | placeholder in r.values :: ValueUsed(r, placeholder))
  }

  predicate Holds(r: Request, clause: Clause, item: Item)
    requires Resolves(r, clause)
  {
    var found := Lookup(item, r.names[clause.alias]);
    match clause
    case Exists(_) => found.Some?
    case Absent(_) => found.None?
    case Equals(_, placeholder) => found == Some(r.values[placeholder])
  }

  predicate Passes(r: Request, item: Item) {
    Accepted(r) && forall i | 0 <= i < |r.conditions| :: Holds(r, r.conditions[i], item)
  }

  function Updated(r: Request, item: Item): Item
    requires r.assign.Some? ==> r.assign.value.0 in r.names && r.assign.value.1 in r.values
    requires forall alias | alias in r.remove :: alias in r.names
  {
    var removed := set alias | alias in r.remove :: r.names[alias];
    var kept := item - removed;
    if r.assign.None? then kept else kept[r.names[r.assign.value.0] := r.values[r.assign.value.1]]
  }

  // ----- The request a migration sends -----

  const FENCED: seq<string> := ["branch", "bundles", "uid", "unix", "owner_token", "expires_at"]

  function Alias(name: string): string { "#" + name }

  function Placeholder(name: string): string { ":" + name }

  lemma AliasInjective(a: string, b: string)
    ensures Alias(a) == Alias(b) ==> a == b
    ensures Placeholder(a) == Placeholder(b) ==> a == b
  {
    assert Alias(a)[1..] == a && Alias(b)[1..] == b;
    assert Placeholder(a)[1..] == a && Placeholder(b)[1..] == b;
  }

  // The item still stands, on every fenced attribute, as the snapshot had it.
  predicate Agrees(before: Item, item: Item) {
    forall name | name in FENCED :: Lookup(item, name) == Lookup(before, name)
  }

  // Its other attributes with the payload moved into data.
  function Moved(item: Item, data: Option<AttributeValue>): Item {
    var kept := map name | name in item && name !in LEGACY_FIELDS :: item[name];
    if data.None? then kept else kept["data" := data.value]
  }

  function Fence(before: Item, name: string): Clause {
    if name in before then Equals(Alias(name), Placeholder(name)) else Absent(Alias(name))
  }

  // The clauses for the first n fenced attributes.
  function Fences(before: Item, n: nat): seq<Clause>
    requires n <= |FENCED|
  {
    [Exists(Alias("id")), Absent(Alias("data"))] + seq(n, i requires 0 <= i < n => Fence(before, FENCED[i]))
  }

  ghost predicate NamesUpTo(names: map<string, string>, n: nat)
    requires n <= |FENCED|
  {
    && (forall alias | alias in names ::
      alias == Alias(names[alias]) && (names[alias] in ["id", "data"] || names[alias] in FENCED[..n]))
    && Alias("id") in names && Alias("data") in names && forall j | 0 <= j < n :: Alias(FENCED[j]) in names
  }

  ghost predicate ValuesUpTo(values: map<string, AttributeValue>, before: Item, n: nat)
    requires n <= |FENCED|
  {
    && (forall j | 0 <= j < n && FENCED[j] in before ::
      Placeholder(FENCED[j]) in values && values[Placeholder(FENCED[j])] == before[FENCED[j]])
    && (forall p | p in values :: exists j :: 0 <= j < n && p == Placeholder(FENCED[j]) && FENCED[j] in before)
  }

  lemma NextName(names: map<string, string>, n: nat)
    requires n < |FENCED| && NamesUpTo(names, n)
    ensures NamesUpTo(names[Alias(FENCED[n]) := FENCED[n]], n + 1)
  {
    assert FENCED[..n + 1] == FENCED[..n] + [FENCED[n]];
  }

  lemma NextValue(values: map<string, AttributeValue>, before: Item, n: nat)
    requires n < |FENCED| && ValuesUpTo(values, before, n) && FENCED[n] in before
    ensures ValuesUpTo(values[Placeholder(FENCED[n]) := before[FENCED[n]]], before, n + 1)
  {
    hide Placeholder;
    var grown := values[Placeholder(FENCED[n]) := before[FENCED[n]]];
    forall j | 0 <= j < n + 1 && FENCED[j] in before
      ensures Placeholder(FENCED[j]) in grown && grown[Placeholder(FENCED[j])] == before[FENCED[j]]
    {
      AliasInjective(FENCED[j], FENCED[n]);
    }
    forall p | p in grown ensures exists j :: 0 <= j < n + 1 && p == Placeholder(FENCED[j]) && FENCED[j] in before {
      if p != Placeholder(FENCED[n]) {
        var j :| 0 <= j < n && p == Placeholder(FENCED[j]) && FENCED[j] in before;
      }
    }
  }

  lemma SkipValue(values: map<string, AttributeValue>, before: Item, n: nat)
    requires n < |FENCED| && ValuesUpTo(values, before, n) && FENCED[n] !in before
    ensures ValuesUpTo(values, before, n + 1)
  {
    hide Placeholder;
    forall p | p in values ensures exists j :: 0 <= j < n + 1 && p == Placeholder(FENCED[j]) && FENCED[j] in before {
      var j :| 0 <= j < n && p == Placeholder(FENCED[j]) && FENCED[j] in before;
    }
  }

  lemma NextFence(before: Item, n: nat)
    requires n < |FENCED|
    ensures Fences(before, n + 1) == Fences(before, n) + [Fence(before, FENCED[n])]
  {
    assert seq(n + 1, i requires 0 <= i < n + 1 => Fence(before, FENCED[i]))
      == seq(n, i requires 0 <= i < n => Fence(before, FENCED[i])) + [Fence(before, FENCED[n])];
  }

  lemma NoFences(before: Item)
    ensures Fences(before, 0) == [Exists(Alias("id")), Absent(Alias("data"))]
    ensures NamesUpTo(map[Alias("id") := "id", Alias("data") := "data"], 0) && ValuesUpTo(map[], before, 0)
  {
    hide Alias, Placeholder;
  }

  // What the built request is, clause by clause.
  ghost predicate Built(r: Request, before: Item, data: Option<AttributeValue>) {
    && r.conditions == Fences(before, |FENCED|) && NamesUpTo(r.names, |FENCED|)
    && r.remove == [Alias("branch"), Alias("bundles"), Alias("uid"), Alias("unix")]
    && match data
       case None => r.assign.None? && ValuesUpTo(r.values, before, |FENCED|)
       case Some(value) =>
         && r.assign == Some((Alias("data"), Placeholder("data")))
         && exists fenced :: ValuesUpTo(fenced, before, |FENCED|) && r.values == fenced[Placeholder("data") := value]
  }

  method MigrationUpdate(before: Item, after: Item) returns (r: Request)
    requires "id" in before
    ensures r.key == before["id"] && Built(r, before, Lookup(after, "data"))
  {
    hide Placeholder, Alias, NamesUpTo, ValuesUpTo, Fences;
    NoFences(before);
    var names := map[Alias("id") := "id", Alias("data") := "data"];
    var values: map<string, AttributeValue> := map[];
    var conditions := [Exists(Alias("id")), Absent(Alias("data"))];
    for i := 0 to |FENCED|
      invariant conditions == Fences(before, i)
      invariant NamesUpTo(names, i) && ValuesUpTo(values, before, i)
    {
      var name := FENCED[i];
      NextFence(before, i);
      NextName(names, i);
      names := names[Alias(name) := name];
      if name in before {
        NextValue(values, before, i);
        values := values[Placeholder(name) := before[name]];
        conditions := conditions + [Equals(Alias(name), Placeholder(name))];
      } else {
        SkipValue(values, before, i);
        conditions := conditions + [Absent(Alias(name))];
      }
    }
    var remove := [Alias("branch"), Alias("bundles"), Alias("uid"), Alias("unix")];
    if "data" in after {
      r := Request(before["id"], conditions, Some((Alias("data"), Placeholder("data"))), remove, names,
        values[Placeholder("data") := after["data"]]);
    } else {
      r := Request(before["id"], conditions, None, remove, names, values);
    }
  }

  // ----- What the request does -----

  lemma FenceAt(before: Item, j: nat)
    requires j < |FENCED|
    ensures |Fences(before, |FENCED|)| == 2 + |FENCED| && Fences(before, |FENCED|)[2 + j] == Fence(before, FENCED[j])
    ensures Fences(before, |FENCED|)[0] == Exists(Alias("id")) && Fences(before, |FENCED|)[1] == Absent(Alias("data"))
  {}

  lemma NamesResolve(names: map<string, string>, name: string)
    requires NamesUpTo(names, |FENCED|) && (name in ["id", "data"] || name in FENCED)
    ensures Alias(name) in names && names[Alias(name)] == name
  {
    if name in FENCED {
      var j :| 0 <= j < |FENCED| && FENCED[j] == name;
    }
    AliasInjective(name, names[Alias(name)]);
  }

  // Every fenced value of the snapshot is bound to its own placeholder.
  lemma ValuesResolve(r: Request, before: Item, data: Option<AttributeValue>, j: nat)
    requires Built(r, before, data) && j < |FENCED| && FENCED[j] in before
    ensures Placeholder(FENCED[j]) in r.values && r.values[Placeholder(FENCED[j])] == before[FENCED[j]]
  {
    hide NamesUpTo, Placeholder, Alias, Fences;
    AliasInjective(FENCED[j], "data");
  }

  lemma ClauseMeaning(r: Request, before: Item, data: Option<AttributeValue>, item: Item, j: nat)
    requires Built(r, before, data) && j < |FENCED|
    ensures Resolves(r, Fence(before, FENCED[j]))
    ensures Holds(r, Fence(before, FENCED[j]), item) <==> Lookup(item, FENCED[j]) == Lookup(before, FENCED[j])
  {
    hide NamesUpTo, ValuesUpTo, Placeholder, Alias, Fences;
    NamesResolve(r.names, FENCED[j]);
    if FENCED[j] in before { ValuesResolve(r, before, data, j); }
  }

  lemma BuiltIsDefined(r: Request, before: Item, data: Option<AttributeValue>)
    requires Built(r, before, data)
    ensures Defined(r)
  {
    hide NamesUpTo, ValuesUpTo, Placeholder, Alias, Fences, Fence;
    NamesResolve(r.names, "id");
    NamesResolve(r.names, "data");
    forall i | 0 <= i < |r.conditions| ensures Resolves(r, r.conditions[i]) {
      FenceAt(before, 0);
      if i >= 2 {
        FenceAt(before, i - 2);
        ClauseMeaning(r, before, data, before, i - 2);
      }
    }
    NamesResolve(r.names, "branch");
    NamesResolve(r.names, "bundles");
    NamesResolve(r.names, "uid");
    NamesResolve(r.names, "unix");
  }

  lemma FenceIsUsed(r: Request, before: Item, data: Option<AttributeValue>, j: nat)
    requires Built(r, before, data) && j < |FENCED|
    ensures NameUsed(r, Alias(FENCED[j])) && (FENCED[j] in before ==> ValueUsed(r, Placeholder(FENCED[j])))
  {
    hide NamesUpTo, ValuesUpTo, Placeholder, Alias, Fences;
    FenceAt(before, j);
    assert r.conditions[2 + j].alias == Alias(FENCED[j]);
    if FENCED[j] in before { assert r.conditions[2 + j].Equals?; }
  }

  lemma NamesAreUsed(r: Request, before: Item, data: Option<AttributeValue>)
    requires Built(r, before, data)
    ensures forall alias | alias in r.names :: NameUsed(r, alias)
  {
    hide Placeholder, Alias, Fences, Fence, ValuesUpTo;
    forall alias | alias in r.names ensures NameUsed(r, alias) {
      FenceAt(before, 0);
      if r.names[alias] == "id" {
        assert r.conditions[0].alias == alias;
      } else if r.names[alias] == "data" {
        assert r.conditions[1].alias == alias;
      } else {
        var j :| 0 <= j < |FENCED| && FENCED[j] == r.names[alias];
        FenceIsUsed(r, before, data, j);
      }
    }
  }

  lemma ValuesAreUsed(r: Request, before: Item, data: Option<AttributeValue>)
    requires Built(r, before, data)
    ensures forall p | p in r.values :: ValueUsed(r, p)
  {
    hide Placeholder, Alias, Fences, Fence, NamesUpTo;
    forall p | p in r.values ensures ValueUsed(r, p) {
      if !(r.assign.Some? && r.assign.value.1 == p) {
        var j :| 0 <= j < |FENCED| && p == Placeholder(FENCED[j]) && FENCED[j] in before;
        FenceIsUsed(r, before, data, j);
      }
    }
  }

  // The service accepts the request of every legacy record: nothing undefined, nothing unused.
  lemma BuiltIsAccepted(r: Request, before: Item, data: Option<AttributeValue>)
    requires Built(r, before, data) && Legacy(before)
    ensures Accepted(r)
  {
    hide Placeholder, Alias, Fences, Fence, NameUsed, ValueUsed;
    BuiltIsDefined(r, before, data);
    NamesAreUsed(r, before, data);
    ValuesAreUsed(r, before, data);
    var name :| name in LEGACY_FIELDS && name in before;
    assert FENCED == LEGACY_FIELDS + FENCED[4..];
    var k :| 0 <= k < |FENCED| && FENCED[k] == name;
    ValuesResolve(r, before, data, k);
  }

  // The condition holds exactly of records that exist, are not migrated, and agree on every fenced attribute.
  lemma ConditionIsExact(r: Request, before: Item, data: Option<AttributeValue>, item: Item)
    requires Built(r, before, data) && Legacy(before)
    ensures Passes(r, item) <==> "id" in item && "data" !in item && Agrees(before, item)
  {
    hide NamesUpTo, ValuesUpTo, Placeholder, Alias, Fences, Fence, Accepted, Holds, Lookup;
    BuiltIsAccepted(r, before, data);
    BuiltIsDefined(r, before, data);
    FenceAt(before, 0);
    FirstClauses(r, before, data, item);
    forall j | 0 <= j < |FENCED|
      ensures Holds(r, r.conditions[2 + j], item) <==> Lookup(item, FENCED[j]) == Lookup(before, FENCED[j])
    {
      FenceAt(before, j);
      ClauseMeaning(r, before, data, item, j);
    }
    if "id" in item && "data" !in item && Agrees(before, item) {
      forall i | 0 <= i < |r.conditions| ensures Holds(r, r.conditions[i], item) {
        if i >= 2 {
          assert FENCED[i - 2] in FENCED;
          assert r.conditions[i] == r.conditions[2 + (i - 2)];
        }
      }
    }
    if Passes(r, item) {
      forall name | name in FENCED ensures Lookup(item, name) == Lookup(before, name) {
        var j :| 0 <= j < |FENCED| && FENCED[j] == name;
        assert Holds(r, r.conditions[2 + j], item);
      }
      assert Holds(r, r.conditions[0], item) && Holds(r, r.conditions[1], item);
    }
  }

  // The write meets only a record with the snapshot's branch and list, that has no migrated data and that nobody holds
  // under the old lock or the new lease.
  lemma OnlyFreeRecordsPass(r: Request, before: Item, data: Option<AttributeValue>, item: Item)
    requires Built(r, before, data) && Legacy(before) && Migratable(before) && Passes(r, item)
    ensures "data" !in item && "owner_token" !in item && "expires_at" !in item
    ensures Cleared(Lookup(item, "uid"), Lookup(item, "unix"))
    ensures Lookup(item, "branch") == Lookup(before, "branch") && Lookup(item, "bundles") == Lookup(before, "bundles")
  {
    hide Built, Passes, LegacyRecord, TextOf;
    ConditionIsExact(r, before, data, item);
    var _ := MigratableIsRecord(before);
    FencedNames();
    RecordHasNoLease(before);
    assert Lookup(item, "owner_token") == Lookup(before, "owner_token");
    assert Lookup(item, "expires_at") == Lookup(before, "expires_at");
  }

  lemma RecordHasNoLease(item: Item)
    requires Legacy(item) && Migratable(item)
    ensures "owner_token" !in item && "expires_at" !in item
  {
    hide Legacy, Payload;
    forall name | name in item ensures name == "id" || name in {"branch", "bundles", "uid", "unix"} {
      if name in LEGACY_FIELDS { var j :| 0 <= j < |LEGACY_FIELDS| && LEGACY_FIELDS[j] == name; }
    }
  }

  lemma FencedNames()
    ensures forall name :: name in FENCED <==>
      name in {"branch", "bundles", "uid", "unix", "owner_token", "expires_at"}
  {
    var all := {"branch", "bundles", "uid", "unix", "owner_token", "expires_at"};
    assert FENCED == ["branch", "bundles", "uid", "unix", "owner_token", "expires_at"];
    forall name | name in FENCED ensures name in all {
      var j :| 0 <= j < |FENCED| && FENCED[j] == name;
    }
    forall name | name in all ensures name in FENCED {
      assert exists j | 0 <= j < |FENCED| :: FENCED[j] == name by {
        assert FENCED[0] == "branch" && FENCED[1] == "bundles" && FENCED[2] == "uid" && FENCED[3] == "unix";
        assert FENCED[4] == "owner_token" && FENCED[5] == "expires_at";
      }
    }
  }

  lemma FirstClauses(r: Request, before: Item, data: Option<AttributeValue>, item: Item)
    requires Built(r, before, data) && Defined(r)
    ensures |r.conditions| == 2 + |FENCED|
    ensures Holds(r, r.conditions[0], item) <==> "id" in item
    ensures Holds(r, r.conditions[1], item) <==> "data" !in item
  {
    hide NamesUpTo, ValuesUpTo, Alias, Fences, Placeholder;
    FenceAt(before, 0);
    NamesResolve(r.names, "id");
    NamesResolve(r.names, "data");
  }

  // The update removes the four legacy fields, sets the payload if there is one, and leaves every other attribute.
  lemma UpdateIsExact(r: Request, before: Item, data: Option<AttributeValue>, item: Item)
    requires Built(r, before, data)
    ensures Defined(r) && Updated(r, item) == Moved(item, data)
  {
    hide NamesUpTo, ValuesUpTo, Alias, Fences, Placeholder;
    BuiltIsDefined(r, before, data);
    NamesResolve(r.names, "data");
    NamesResolve(r.names, "branch");
    NamesResolve(r.names, "bundles");
    NamesResolve(r.names, "uid");
    NamesResolve(r.names, "unix");
    assert (set alias | alias in r.remove :: r.names[alias]) == {"branch", "bundles", "uid", "unix"};
    assert forall name :: name in LEGACY_FIELDS <==> name in {"branch", "bundles", "uid", "unix"};
  }

  // Evaluated on the record it was made for, the request gives exactly the pure migration.
  lemma UpdateMigrates(r: Request, before: Item)
    requires Migratable(before) && Legacy(before) && Built(r, before, Lookup(Migrated(before), "data"))
    ensures Passes(r, before) && Updated(r, before) == Migrated(before)
  {
    hide Built, Passes, Payload, Defined, Accepted;
    ConditionIsExact(r, before, Lookup(Migrated(before), "data"), before);
    UpdateIsExact(r, before, Lookup(Migrated(before), "data"), before);
    assert forall name | name in before :: name == "id" || name in LEGACY_FIELDS;
    assert "id" !in LEGACY_FIELDS && "data" !in LEGACY_FIELDS;
  }
}
