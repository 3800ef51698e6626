// The named fields of a block's Merkle record: they can always be hashed and decoded, and they determine what the
// block says.
module BlockFields {
  import opened CanonicalRecord
  import opened BlockMerkle
  import opened Chain
  import opened HistoryBinding
  import opened EventJson
  import opened IpfsReferences
  import opened Sorting

  // The columns of a batch that its blocks repeat.
  datatype Batch = Batch(batchId: string, product: string, harvestDate: string, farmLocation: string,
      certificateId: string)

  // What a block says besides the columns of its record: the form's values, the references in the order they are
  // listed, the typed name, and the account's id and organization.
  datatype Event = Event(values: map<string, string>, references: seq<IpfsReference>, confirmationName: string,
      uid: string, organizationId: string)

  const CONFIRMATION: string := "typed_name"

  // ---- the parts ----

  function BatchFields(r: Record, batch: Batch): (fields: seq<Field>)
    ensures |fields| == 7
  {
    [Field("blockId", IntText(r.blockId)), Field("batchId", batch.batchId), Field("product", batch.product),
     Field("harvestDate", batch.harvestDate), Field("farmLocation", batch.farmLocation),
     Field("certificateId", batch.certificateId), Field("stage", r.role)]
  }

  // A field that is there only under a condition.
  function Maybe(there: bool, name: string, value: string): seq<Field> {
    if there then [Field(name, value)] else []
  }

  function ParentText(id: int): string {
    if id >= 0 then IntText(id) else GENESIS
  }

  function ConfirmationFields(r: Record, e: Event): (fields: seq<Field>)
    ensures |fields| == 6
  {
    [Field("parentBlockId", ParentText(r.parentBlockId)), Field("parentBlockHash", r.parentBlockHash),
     Field("confirmationMethod", CONFIRMATION), Field("confirmationName", e.confirmationName),
     Field("signaturePublicKeyHash", r.signaturePublicKeyHash), Field("signedPayloadHash", r.signedPayloadHash)]
  }

  function EventFields(names: seq<string>, values: map<string, string>): (fields: seq<Field>)
    ensures |fields| == |names|
    ensures forall i :: 0 <= i < |names| ==> fields[i] == Field("event." + names[i], ValueIn(values, names[i]))
  {
    seq(|names|, i requires 0 <= i < |names| => Field("event." + names[i], ValueIn(values, names[i])))
  }

  function Prefix(i: nat): string {
    "ipfs." + Decimal(i) + "."
  }

  function OneReference(i: nat, ref: IpfsReference): (fields: seq<Field>)
    ensures |fields| == 5
  {
    [Field(Prefix(i) + "category", ref.category), Field(Prefix(i) + "cid", ref.cid),
     Field(Prefix(i) + "filename", ref.filename), Field(Prefix(i) + "contentType", ref.contentType),
     Field(Prefix(i) + "size", IntText(ref.size))]
  }

  // The fields of the first n references.
  function ReferenceFields(refs: seq<IpfsReference>, n: nat): (fields: seq<Field>)
    requires n <= |refs|
    ensures |fields| == 5 * n
  {
    if n == 0 then [] else ReferenceFields(refs, n - 1) + OneReference(n - 1, refs[n - 1])
  }

  function AccountFields(r: Record, e: Event): (fields: seq<Field>)
    ensures |fields| == 4
  {
    [Field("confirmedBy", r.confirmedBy), Field("uid", e.uid), Field("role", r.role),
     Field("organizationId", e.organizationId)]
  }

  function EventPart(r: Record, e: Event): seq<Field> {
    EventFields(RoleEventFields(r.role), e.values)
    + (ReferenceFields(e.references, |e.references|) + AccountFields(r, e))
  }

  function RoutePart(r: Record, e: Event): seq<Field> {
    Maybe(r.routeId != "", "routeId", r.routeId)
    + (Maybe(r.routeNodeId != "", "routeNodeId", r.routeNodeId)
    + (Maybe(r.routeStepIndex >= 0, "routeStepIndex", IntText(r.routeStepIndex))
    + (ConfirmationFields(r, e) + EventPart(r, e))))
  }

  // All fields of a block that repeats this batch and says this.
  function FieldsOf(r: Record, batch: Batch, e: Event): seq<Field> {
    BatchFields(r, batch) + RoutePart(r, e)
  }

  // ---- the loop ----

  predicate ReferenceBefore(a: IpfsReference, b: IpfsReference) {
    if a.category != b.category then TextLess(a.category, b.category) else TextLess(a.cid, b.cid)
  }

  // A sorted copy; references of one category and content may come in any order.
  ghost predicate ListedFrom(listed: seq<IpfsReference>, refs: seq<IpfsReference>) {
    multiset(listed) == multiset(refs) && Sorted(listed, ReferenceBefore)
  }

  method SortReferences(refs: seq<IpfsReference>) returns (sortedReferences: seq<IpfsReference>)
    ensures ListedFrom(sortedReferences, refs)
  {
    hide TextLess, Sort;
    TextOrder();
    forall x: IpfsReference, y: IpfsReference, z: IpfsReference | !ReferenceBefore(x, y) && !ReferenceBefore(y, z)
      ensures !ReferenceBefore(x, z) { NotBefore(x, y, z); }
    SortSorted(refs, ReferenceBefore);
    sortedReferences := Sort(refs, ReferenceBefore);
  }

  lemma NotBefore(x: IpfsReference, y: IpfsReference, z: IpfsReference)
    requires Order(TextLess) && forall a, b :: !TextLess(a, b) && !TextLess(b, a) ==> a == b
    requires !ReferenceBefore(x, y) && !ReferenceBefore(y, z)
    ensures !ReferenceBefore(x, z)
  {
    hide TextLess;
  }

  ghost predicate Shows(e: Event, values: map<string, string>, references: seq<IpfsReference>, confirmationName: string,
      uid: string, organizationId: string) {
    && e.values == values && ListedFrom(e.references, references) && e.confirmationName == confirmationName
    && e.uid == uid && e.organizationId == organizationId
  }

  // block_merkle_fields for the block r, whose Merkle columns are still empty.
  method BlockMerkleFields(r: Record, batch: Batch, values: map<string, string>, references: seq<IpfsReference>,
      confirmationName: string, uid: string, organizationId: string) returns (fields: seq<Field>)
    ensures exists e: Event ::
      Shows(e, values, references, confirmationName, uid, organizationId) && fields == FieldsOf(r, batch, e)
  {
    hide IntText, RoleEventFields, ReferenceFields, OneReference, EventFields, ListedFrom;
    var sortedReferences := SortReferences(references);
    var event := Event(values, sortedReferences, confirmationName, uid, organizationId);
    fields := BatchFields(r, batch);
    if r.routeId != "" {
      fields := fields + [Field("routeId", r.routeId)];
    }
    if r.routeNodeId != "" {
      fields := fields + [Field("routeNodeId", r.routeNodeId)];
    }
    if r.routeStepIndex >= 0 {
      fields := fields + [Field("routeStepIndex", IntText(r.routeStepIndex))];
    }
    ghost var front := fields;
    fields := fields + ConfirmationFields(r, event);
    var names := RoleEventFields(r.role);
    var i := 0;
    ghost var events := EventFields(names, values);
    while i < |names|
      invariant 0 <= i <= |names| && fields == front + ConfirmationFields(r, event) + events[..i]
    {
      EventAt(names, values, i);
      fields := fields + [Field("event." + names[i], ValueIn(values, names[i]))];
      i := i + 1;
    }
    assert events[..i] == events;
    var index := 0;
    NoReferences(sortedReferences);
    while index < |sortedReferences|
      invariant 0 <= index <= |sortedReferences|
      invariant fields == front + ConfirmationFields(r, event) + events + ReferenceFields(sortedReferences, index)
    {
      MoreReferences(sortedReferences, index);
      fields := fields + OneReference(index, sortedReferences[index]);
      index := index + 1;
    }
    fields := fields + AccountFields(r, event);
    Assembled(r, batch, event, front, fields);
  }

  lemma EventAt(names: seq<string>, values: map<string, string>, i: nat)
    requires i < |names|
    ensures var events := EventFields(names, values);
      |events| == |names| && events[..i + 1] == events[..i] + [Field("event." + names[i], ValueIn(values, names[i]))]
  {}

  lemma NoReferences(refs: seq<IpfsReference>)
    ensures ReferenceFields(refs, 0) == []
  {}

  lemma MoreReferences(refs: seq<IpfsReference>, i: nat)
    requires i < |refs|
    ensures ReferenceFields(refs, i + 1) == ReferenceFields(refs, i) + OneReference(i, refs[i])
  {
    hide OneReference;
  }

  lemma Assembled(r: Record, batch: Batch, e: Event, front: seq<Field>, fields: seq<Field>)
    requires front == BatchFields(r, batch) + Maybe(r.routeId != "", "routeId", r.routeId)
      + Maybe(r.routeNodeId != "", "routeNodeId", r.routeNodeId)
      + Maybe(r.routeStepIndex >= 0, "routeStepIndex", IntText(r.routeStepIndex))
    requires fields == front + ConfirmationFields(r, e) + EventFields(RoleEventFields(r.role), e.values)
      + ReferenceFields(e.references, |e.references|) + AccountFields(r, e)
    ensures fields == FieldsOf(r, batch, e)
  {
    hide IntText, RoleEventFields, ReferenceFields, EventFields, BatchFields, ConfirmationFields, AccountFields, Maybe;
  }

  // ---- every name is usable ----

  predicate Usable(f: Field) {
    f.name != "" && NoColon(f.name)
  }

  predicate AllUsable(fields: seq<Field>) {
    forall i :: 0 <= i < |fields| ==> Usable(fields[i])
  }

  lemma UsableBoth(a: seq<Field>, b: seq<Field>)
    ensures AllUsable(a + b) <==> AllUsable(a) && AllUsable(b)
  {
    hide Usable;
    forall i | 0 <= i < |b| ensures (a + b)[|a| + i] == b[i] {}
    if AllUsable(a + b) {
      forall i | 0 <= i < |a| ensures Usable(a[i]) { assert (a + b)[i] == a[i]; }
      forall i | 0 <= i < |b| ensures Usable(b[i]) { assert (a + b)[|a| + i] == b[i]; }
    }
  }

  lemma PlainBoth(a: string, b: string)
    requires NoColon(a) && NoColon(b)
    ensures NoColon(a + b)
  {}

  lemma BatchNames()
    ensures NoColon("blockId") && NoColon("batchId") && NoColon("product") && NoColon("harvestDate")
    ensures NoColon("farmLocation") && NoColon("certificateId") && NoColon("stage")
  {}

  lemma AccountNames()
    ensures NoColon("confirmedBy") && NoColon("uid") && NoColon("role") && NoColon("organizationId")
  {}

  lemma ConfirmationNames()
    ensures NoColon("parentBlockId") && NoColon("parentBlockHash") && NoColon("confirmationMethod")
    ensures NoColon("confirmationName") && NoColon("signaturePublicKeyHash") && NoColon("signedPayloadHash")
  {}

  lemma FixedUsable(r: Record, batch: Batch, e: Event)
    ensures AllUsable(BatchFields(r, batch)) && AllUsable(ConfirmationFields(r, e))
    ensures AllUsable(AccountFields(r, e))
  {
    hide IntText, ParentText, NoColon;
    BatchNames();
    AccountNames();
    ConfirmationNames();
  }

  lemma MaybeUsable(there: bool, name: string, value: string)
    requires name in ["routeId", "routeNodeId", "routeStepIndex"]
    ensures AllUsable(Maybe(there, name, value))
  {}

  lemma SupplierNames()
    ensures NoColon("harvestDate") && NoColon("farmLocation") && NoColon("certificateId")
  {}

  lemma LogisticsNames()
    ensures NoColon("shipmentId") && NoColon("pickupLocation") && NoColon("deliveryLocation")
    ensures NoColon("departureTime")
    ensures NoColon("arrivalTime") && NoColon("vehicleContainerId")
  {}

  lemma WarehouseNames()
    ensures NoColon("storageLotId") && NoColon("inboundTime") && NoColon("outboundTime") && NoColon("storageZoneRackId")
    ensures NoColon("temperature") && NoColon("temperatureUnit") && NoColon("humidity")
  {}

  lemma SupermarketNames()
    ensures NoColon("shelfPlacementDate") && NoColon("expirationSellByDate") && NoColon("storeLocationId")
  {}

  lemma EventNamePlain(role: string, i: nat)
    requires i < |RoleEventFields(role)|
    ensures NoColon(RoleEventFields(role)[i])
  {
    hide NoColon;
    SupplierNames();
    LogisticsNames();
    WarehouseNames();
    SupermarketNames();
  }

  lemma EventsUsable(role: string, values: map<string, string>)
    ensures AllUsable(EventFields(RoleEventFields(role), values))
  {
    hide RoleEventFields, NoColon;
    var names := RoleEventFields(role);
    var fields := EventFields(names, values);
    forall i | 0 <= i < |fields| ensures Usable(fields[i]) {
      EventNamePlain(role, i);
      EventPrefix();
      PlainBoth("event.", names[i]);
      assert fields[i].name == "event." + names[i];
    }
  }

  lemma EventPrefix()
    ensures NoColon("event.")
  {}

  lemma PrefixPlain(i: nat)
    ensures NoColon(Prefix(i)) && Prefix(i) != ""
  {
    hide Decimal;
    DecimalParses(i);
    assert NoColon("ipfs.") && NoColon(".");
    PlainBoth("ipfs.", Decimal(i));
    PlainBoth("ipfs." + Decimal(i), ".");
  }

  lemma ReferencePlain(i: nat, ref: IpfsReference)
    ensures AllUsable(OneReference(i, ref))
  {
    hide Prefix, IntText, NoColon;
    var p := Prefix(i);
    PrefixPlain(i);
    ReferenceNames();
    PlainBoth(p, "category"); PlainBoth(p, "cid"); PlainBoth(p, "filename"); PlainBoth(p, "contentType");
    PlainBoth(p, "size");
  }

  lemma ReferenceNames()
    ensures NoColon("category") && NoColon("cid") && NoColon("filename") && NoColon("contentType") && NoColon("size")
  {}

  lemma {:induction false} ReferencesUsable(refs: seq<IpfsReference>, n: nat)
    requires n <= |refs|
    ensures AllUsable(ReferenceFields(refs, n))
    decreases n
  {
    hide OneReference, Usable;
    if n > 0 {
      ReferencesUsable(refs, n - 1);
      ReferencePlain(n - 1, refs[n - 1]);
      UsableBoth(ReferenceFields(refs, n - 1), OneReference(n - 1, refs[n - 1]));
    }
  }

  // Whatever is recorded, the Merkle record can be built and its text be decoded.
  lemma FieldsUsable(r: Record, batch: Batch, e: Event)
    ensures FieldsOf(r, batch, e) != [] && Named(FieldsOf(r, batch, e)) && NamesOk(FieldsOf(r, batch, e))
  {
    hide Usable, BatchFields, ConfirmationFields, EventFields, ReferenceFields, Maybe, IntText, RoleEventFields,
      AllUsable;
    FixedUsable(r, batch, e);
    MaybeUsable(r.routeId != "", "routeId", r.routeId);
    MaybeUsable(r.routeNodeId != "", "routeNodeId", r.routeNodeId);
    MaybeUsable(r.routeStepIndex >= 0, "routeStepIndex", IntText(r.routeStepIndex));
    EventsUsable(r.role, e.values);
    ReferencesUsable(e.references, |e.references|);
    var refs, last := ReferenceFields(e.references, |e.references|), AccountFields(r, e);
    UsableBoth(refs, last);
    UsableBoth(EventFields(RoleEventFields(r.role), e.values), refs + last);
    var part3 := ConfirmationFields(r, e) + EventPart(r, e);
    UsableBoth(ConfirmationFields(r, e), EventPart(r, e));
    var step := Maybe(r.routeStepIndex >= 0, "routeStepIndex", IntText(r.routeStepIndex));
    var node := Maybe(r.routeNodeId != "", "routeNodeId", r.routeNodeId);
    UsableBoth(step, part3);
    UsableBoth(node, step + part3);
    UsableBoth(Maybe(r.routeId != "", "routeId", r.routeId), node + (step + part3));
    UsableBoth(BatchFields(r, batch), RoutePart(r, e));
    UsableMeans(FieldsOf(r, batch, e));
  }

  lemma UsableMeans(fields: seq<Field>)
    requires AllUsable(fields)
    ensures Named(fields) && NamesOk(fields)
  {
    hide NoColon;
  }

  // ---- the fields determine what the block says ----

  lemma SameLength<T>(a: seq<T>, b: seq<T>, c: seq<T>, d: seq<T>)
    requires a + b == c + d && |a| == |c|
    ensures a == c && b == d
  {
    assert (a + b)[..|a|] == a && (c + d)[..|c|] == c && (a + b)[|a|..] == b && (c + d)[|c|..] == d;
  }

  lemma MaybeSplit(name: string, x: bool, v: string, a: seq<Field>, y: bool, w: string, b: seq<Field>)
    requires Maybe(x, name, v) + a == Maybe(y, name, w) + b
    requires a != [] && b != [] && a[0].name != name && b[0].name != name
    ensures x == y && (x ==> v == w) && a == b
  {
    var s, t := Maybe(x, name, v) + a, Maybe(y, name, w) + b;
    assert s[0] == if x then Field(name, v) else a[0];
    assert t[0] == if y then Field(name, w) else b[0];
    SameLength(Maybe(x, name, v), a, Maybe(y, name, w), b);
  }

  // The blocks and events agree in everything that the Merkle record shows.
  predicate SameContent(r: Record, e: Event, q: Record, f: Event) {
    && r.blockId == q.blockId && r.role == q.role && r.confirmedBy == q.confirmedBy
    && r.routeId == q.routeId && r.routeNodeId == q.routeNodeId
    && (r.routeStepIndex == q.routeStepIndex || (r.routeStepIndex < 0 && q.routeStepIndex < 0))
    && (r.parentBlockId == q.parentBlockId || (r.parentBlockId < 0 && q.parentBlockId < 0))
    && r.parentBlockHash == q.parentBlockHash
    && r.signaturePublicKeyHash == q.signaturePublicKeyHash && r.signedPayloadHash == q.signedPayloadHash
    && e.references == f.references && e.confirmationName == f.confirmationName
    && e.uid == f.uid && e.organizationId == f.organizationId
    && forall name :: name in RoleEventFields(r.role) ==> ValueIn(e.values, name) == ValueIn(f.values, name)
  }

  lemma FieldsDetermine(r: Record, batch: Batch, e: Event, q: Record, other: Batch, f: Event)
    requires FieldsOf(r, batch, e) == FieldsOf(q, other, f)
    ensures batch == other && SameContent(r, e, q, f)
  {
    hide BatchFields, RoutePart, EventFields, ReferenceFields, RoleEventFields, ConfirmationFields, EventPart;
    SameLength(BatchFields(r, batch), RoutePart(r, e), BatchFields(q, other), RoutePart(q, f));
    BatchDetermine(r, batch, q, other);
    RouteDetermine(r, e, q, f);
    SameLength(ConfirmationFields(r, e), EventPart(r, e), ConfirmationFields(q, f), EventPart(q, f));
    ConfirmationDetermine(r, e, q, f);
    EventDetermine(r, e, q, f);
  }

  lemma BatchDetermine(r: Record, batch: Batch, q: Record, other: Batch)
    requires BatchFields(r, batch) == BatchFields(q, other)
    ensures batch == other && r.blockId == q.blockId && r.role == q.role
  {
    hide IntText;
    var a, b := BatchFields(r, batch), BatchFields(q, other);
    assert a[0] == b[0] && a[1] == b[1] && a[2] == b[2] && a[3] == b[3] && a[4] == b[4] && a[5] == b[5] && a[6] == b[6];
    IntTextInjective(r.blockId, q.blockId);
  }

  lemma RouteDetermine(r: Record, e: Event, q: Record, f: Event)
    requires RoutePart(r, e) == RoutePart(q, f)
    ensures r.routeId == q.routeId && r.routeNodeId == q.routeNodeId
    ensures r.routeStepIndex == q.routeStepIndex || (r.routeStepIndex < 0 && q.routeStepIndex < 0)
    ensures ConfirmationFields(r, e) + EventPart(r, e) == ConfirmationFields(q, f) + EventPart(q, f)
  {
    var a3, b3 := ConfirmationFields(r, e) + EventPart(r, e), ConfirmationFields(q, f) + EventPart(q, f);
    assert a3[0].name == "parentBlockId" && b3[0].name == "parentBlockId";
    hide EventPart, ConfirmationFields, IntText;
    var x, y := IntText(r.routeStepIndex), IntText(q.routeStepIndex);
    var a2, b2 := Maybe(r.routeStepIndex >= 0, "routeStepIndex", x) + a3,
        Maybe(q.routeStepIndex >= 0, "routeStepIndex", y) + b3;
    var a1, b1 := Maybe(r.routeNodeId != "", "routeNodeId", r.routeNodeId) + a2,
        Maybe(q.routeNodeId != "", "routeNodeId", q.routeNodeId) + b2;
    MaybeSplit("routeId", r.routeId != "", r.routeId, a1, q.routeId != "", q.routeId, b1);
    MaybeSplit("routeNodeId", r.routeNodeId != "", r.routeNodeId, a2, q.routeNodeId != "", q.routeNodeId, b2);
    MaybeSplit("routeStepIndex", r.routeStepIndex >= 0, x, a3, q.routeStepIndex >= 0, y, b3);
    if r.routeStepIndex >= 0 { IntTextInjective(r.routeStepIndex, q.routeStepIndex); }
  }

  lemma ParentDetermine(m: int, n: int)
    requires ParentText(m) == ParentText(n)
    ensures m == n || (m < 0 && n < 0)
  {
    hide Decimal;
    if m >= 0 && n >= 0 {
      IntTextInjective(m, n);
    } else if m >= 0 {
      DecimalStarts(m);
    } else if n >= 0 {
      DecimalStarts(n);
    }
  }

  lemma {:induction false} DecimalStarts(n: nat)
    ensures '0' <= Decimal(n)[0] <= '9'
    decreases n
  {
    if n >= 10 { DecimalStarts(n / 10); }
  }

  lemma ConfirmationDetermine(r: Record, e: Event, q: Record, f: Event)
    requires ConfirmationFields(r, e) == ConfirmationFields(q, f)
    ensures r.parentBlockId == q.parentBlockId || (r.parentBlockId < 0 && q.parentBlockId < 0)
    ensures r.parentBlockHash == q.parentBlockHash && e.confirmationName == f.confirmationName
    ensures r.signaturePublicKeyHash == q.signaturePublicKeyHash && r.signedPayloadHash == q.signedPayloadHash
  {
    hide ParentText;
    var a, b := ConfirmationFields(r, e), ConfirmationFields(q, f);
    assert a[0] == b[0] && a[1] == b[1] && a[3] == b[3] && a[4] == b[4] && a[5] == b[5];
    ParentDetermine(r.parentBlockId, q.parentBlockId);
  }

  lemma SameAccount(r: Record, e: Event, q: Record, f: Event)
    requires AccountFields(r, e) == AccountFields(q, f)
    ensures r.confirmedBy == q.confirmedBy && e.uid == f.uid && e.organizationId == f.organizationId
  {
    var a, b := AccountFields(r, e), AccountFields(q, f);
    assert a[0] == b[0] && a[1] == b[1] && a[3] == b[3];
  }

  lemma EventDetermine(r: Record, e: Event, q: Record, f: Event)
    requires r.role == q.role && EventPart(r, e) == EventPart(q, f)
    ensures e.references == f.references
    ensures r.confirmedBy == q.confirmedBy && e.uid == f.uid && e.organizationId == f.organizationId
    ensures forall name :: name in RoleEventFields(r.role) ==> ValueIn(e.values, name) == ValueIn(f.values, name)
  {
    hide RoleEventFields, ReferenceFields, AccountFields;
    var names := RoleEventFields(r.role);
    var a, b := EventFields(names, e.values), EventFields(names, f.values);
    var m, n := |e.references|, |f.references|;
    var ra, rb := ReferenceFields(e.references, m), ReferenceFields(f.references, n);
    var la, lb := AccountFields(r, e), AccountFields(q, f);
    SameLength(a, ra + la, b, rb + lb);
    assert |ra + la| == 5 * m + 4 && |rb + lb| == 5 * n + 4;
    SameLength(ra, la, rb, lb);
    SameAccount(r, e, q, f);
    forall name | name in names ensures ValueIn(e.values, name) == ValueIn(f.values, name) {
      var i :| 0 <= i < |names| && names[i] == name;
      assert a[i] == b[i];
    }
    ReferencesDetermine(e.references, f.references, m);
  }

  lemma {:induction false} ReferencesDetermine(refs: seq<IpfsReference>, others: seq<IpfsReference>, n: nat)
    requires n <= |refs| && n <= |others| && ReferenceFields(refs, n) == ReferenceFields(others, n)
    ensures refs[..n] == others[..n]
    decreases n
  {
    hide OneReference;
    if n > 0 {
      SameLength(ReferenceFields(refs, n - 1), OneReference(n - 1, refs[n - 1]),
                 ReferenceFields(others, n - 1), OneReference(n - 1, others[n - 1]));
      ReferencesDetermine(refs, others, n - 1);
      OneDetermine(n - 1, refs[n - 1], others[n - 1]);
      assert refs[..n] == refs[..n - 1] + [refs[n - 1]] && others[..n] == others[..n - 1] + [others[n - 1]];
    }
  }

  lemma OneDetermine(i: nat, ref: IpfsReference, other: IpfsReference)
    requires OneReference(i, ref) == OneReference(i, other)
    ensures ref == other
  {
    hide Prefix, IntText;
    var a, b := OneReference(i, ref), OneReference(i, other);
    assert a[0] == b[0] && a[1] == b[1] && a[2] == b[2] && a[3] == b[3] && a[4] == b[4];
    IntTextInjective(ref.size, other.size);
  }
}
