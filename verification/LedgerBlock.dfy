// The checks before a commit and the block that a commit adds.
module LedgerBlock {
  import opened Options
  import opened TextSpaces
  import opened Routes
  import opened RouteValidity
  import opened RouteTables
  import opened MerkleSpec
  import opened CanonicalRecord
  import opened BlockMerkle
  import opened Chain
  import opened Progress
  import opened EventJson
  import opened IpfsReferences
  import opened BlockFields
  import opened CommitForm
  import opened LedgerRules
  import opened LedgerCommit

  datatype User = User(uid: string, username: string, role: string, organizationId: string)

  // A request to commit a block. newBatchId is the batch id generated for a supplier, signed whether the challenge, the
  // signed text and the signature are right, and stored whether the database takes the block.
  datatype CommitRequest = CommitRequest(user: User, newBatchId: Option<string>, values: map<string, string>,
    references: seq<IpfsReference>, confirmationName: string, signatureAlgorithm: string, signature: string,
    publicKey: string, payload: string, signed: bool, stored: bool)

  datatype CommitError = Committed | NotSigned | NoBatchId | NoRoute | NoProgress(error: ProgressError) | BatchInUse
    | NoSuchBatch | NoPrevious | RouteComplete | OtherStage | NobodyAssigned | OtherAccount | RouteChanged
    | StageChanged | WrongForm(detail: DetailError) | NotStored

  const ALGORITHM: string := "ECDSA-P256-SHA256"
  const MAX_KEY: nat := 4096
  const MAX_PAYLOAD: nat := 1024 * 1024

  predicate SignatureComplete(req: CommitRequest) {
    && req.signatureAlgorithm == ALGORITHM && req.publicKey != "" && req.signature != "" && req.payload != ""
    && |req.publicKey| <= MAX_KEY && |req.signature| <= MAX_KEY && |req.payload| <= MAX_PAYLOAD && req.signed
  }

  // ---- the checks before a commit ----

  predicate IsSupplier(user: User) {
    user.role == "supplier"
  }

  // The batch that a request is about.
  function BatchOf(req: CommitRequest): string {
    if !IsSupplier(req.user) then Trimmed(req.values, "batchId") else if req.newBatchId.Some? then req.newBatchId.value
    else ""
  }

  // The batch's columns: those of the form for a new batch, those stored for another.
  function BatchFor(details: map<string, Batch>, req: CommitRequest): Batch {
    var b := BatchOf(req);
    if b in details && !IsSupplier(req.user) then details[b]
    else Batch(b, Trimmed(req.values, "product"), ValueIn(req.values, "harvestDate"),
               ValueIn(req.values, "farmLocation"), ValueIn(req.values, "certificateId"))
  }

  ghost predicate CommitAllowed(w: Workflow, progress: WorkflowProgress, known: bool, req: CommitRequest) {
    && progress.error == NoError && progress.nextNode.Some?
    && (if IsSupplier(req.user) then progress.parentRecord.None? && !known else progress.parentRecord.Some? && known)
    && var n := progress.nextNode.value;
    && n.role == req.user.role && n.username != "" && n.username == req.user.username
    && (!IsSupplier(req.user) ==>
         Trimmed(req.values, "routeId") == w.routeId && Trimmed(req.values, "routeNodeId") == n.nodeId)
    && DetailsOk(w, n, req.user.role, req.values)
  }

  method CheckCommit(w: Workflow, progress: WorkflowProgress, known: bool, req: CommitRequest)
    returns (error: CommitError)
    ensures error == Committed <==> CommitAllowed(w, progress, known, req)
    ensures error.NoProgress? ==> progress.error != NoError && error.error == progress.error
    ensures error != NotSigned && error != NotStored
  {
    hide DetailsOk, Trim;
    var isSupplier := IsSupplier(req.user);
    if progress.error != NoError {
      return NoProgress(progress.error);
    } else if isSupplier && (progress.parentRecord.Some? || known) {
      return BatchInUse;
    } else if !isSupplier && !known {
      return NoSuchBatch;
    } else if !isSupplier && progress.parentRecord.None? {
      return NoPrevious;
    } else if progress.nextNode.None? {
      return RouteComplete;
    }
    var requiredNode := progress.nextNode.value;
    if requiredNode.role != req.user.role {
      return OtherStage;
    } else if requiredNode.username == "" {
      return NobodyAssigned;
    } else if requiredNode.username != req.user.username {
      return OtherAccount;
    } else if !isSupplier && Trimmed(req.values, "routeId") != w.routeId {
      return RouteChanged;
    } else if !isSupplier && Trimmed(req.values, "routeNodeId") != requiredNode.nodeId {
      return StageChanged;
    }
    var detail := CheckDetails(w, requiredNode, req.user.role, req.values);
    if detail != DetailsFine {
      return WrongForm(detail);
    }
    return Committed;
  }

  // ---- the new block ----

  // The block for stage n after parent, without its Merkle record and hash.
  function Draft(h: Hash, blockId: int, w: Workflow, n: RouteNode, b: string, parent: Option<Record>,
      req: CommitRequest): Record {
    Record(blockId, if parent.Some? then parent.value.blockId else -1,
           if parent.Some? then parent.value.blockHash else GENESIS,
           b, req.user.role, req.user.username, [], "", "", [], false,
           req.signatureAlgorithm, req.signature, h(req.publicKey), h(req.payload), true,
           w.routeId, n.nodeId, n.stepIndex, "in_progress", "")
  }

  // A block with its Merkle record.
  function WithMerkle(r: Record, fields: seq<Field>, merkle: BlockMerkleResult): Record {
    r.(merkleFields := fields, canonicalRecord := merkle.canonicalRecord, rootHash := merkle.rootHash,
       merkleLeaves := merkle.leaves, verified := merkle.verified)
  }

  function Unhashed(h: Hash, blockId: int, w: Workflow, n: RouteNode, b: string, parent: Option<Record>,
      req: CommitRequest, fields: seq<Field>, merkle: BlockMerkleResult): Record
  {
    WithMerkle(Draft(h, blockId, w, n, b, parent, req), fields, merkle)
  }

  // The batch's last record, as an evaluation reports it.
  predicate LastRecord(records: seq<Record>, b: string, parent: Option<Record>) {
    parent == if LastIn(records, b) < 0 then None else Some(records[LastIn(records, b)])
  }

  predicate Merkled(h: Hash, fields: seq<Field>, merkle: BlockMerkleResult) {
    && merkle.canonicalRecord == CanonicalText(fields) && merkle.verified && fields != [] && Named(fields)
    && merkle.rootHash == Root(h, FieldHashes(h, fields), 2) && |merkle.leaves| == |fields|
    && forall i :: 0 <= i < |fields| ==> merkle.leaves[i] == LeafOf(h, fields, i)
  }

  lemma UnhashedOk(h: Hash, records: seq<Record>, w: Workflow, n: RouteNode, b: string, parent: Option<Record>,
      req: CommitRequest, fields: seq<Field>, merkle: BlockMerkleResult, status: string)
    requires Merkled(h, fields, merkle) && LastRecord(records, b, parent)
    ensures var u := Unhashed(h, |records|, w, n, b, parent, req, fields, merkle).(chainStatus := status);
      BlockOk(h, records, u.(blockHash := CalculateBlockHash(h, u)))
  {
    hide LastIn, Named, CanonicalText, Root, FieldHashes, LeafOf, IntText, Line;
  }

  // The parts of the block that do not depend on its status and hash.
  lemma UnhashedFor(h: Hash, records: seq<Record>, w: Workflow, n: RouteNode, b: string, parent: Option<Record>,
      req: CommitRequest, fields: seq<Field>, merkle: BlockMerkleResult)
    requires Linkage(records) && merkle.verified && n.role == req.user.role && n.username == req.user.username
    requires LastRecord(records, b, parent) && (IsSupplier(req.user) <==> parent.None?)
    ensures var u := Unhashed(h, |records|, w, n, b, parent, req, fields, merkle);
      ForStage(u, b, n) && ParentOk(records, u) && Linkage(records + [u])
  {
    hide LastIn, Linkage;
    if parent.Some? { Sequential(records, LastIn(records, b)); }
    LinkageGrows(records, Unhashed(h, |records|, w, n, b, parent, req, fields, merkle));
  }

  lemma LinkageGrows(records: seq<Record>, r: Record)
    requires Linkage(records) && r.blockId == |records| && ParentOk(records, r)
    ensures Linkage(records + [r])
  {
    hide ParentOk;
    var all := records + [r];
    forall i | 0 <= i < |all| ensures all[i].blockId == i && ParentOk(all[..i], all[i]) {
      assert all[..i] == records[..i];
      if i < |records| { assert all[i] == records[i]; } else { assert records[..i] == records; }
    }
  }

  // Would the route be complete with the block u?
  method Project(w: Workflow, records: seq<Record>, b: string, n: RouteNode, u: Record,
      ghost byNode: map<string, Record>)
    returns (complete: bool)
    requires Linkage(records + [u]) && AllRecorded(records) && OnePerStage(records) && ByNode(w, records, b, byNode)
    requires RowsOk(w.nodes) && n in w.nodes && n.nodeId !in byNode && ForStage(u, b, n)
    ensures ValidRoute(w) ==> (complete <==> Pending(w, records, b) == {n.nodeId})
  {
    hide ByNode, Evaluated, ByBlock, Complete, ValidRoute, Pending, RowsOk, HeldTwice, OrderOf, Linkage, AllRecorded,
      OnePerStage, ForStage;
    var projectedRecords := records + [u];
    StagesGrow(records, w, b, n, byNode, u);
    NeverTwice(w, projectedRecords, b);
    ghost var byNode';
    var projected;
    projected, byNode' := EvaluateWorkflowProgress(w, projectedRecords, b);
    complete := projected.error == NoError && projected.complete;
    if ValidRoute(w) {
      ValidIsOrdered(w);
      ProgressMeans(w, projectedRecords, b, byNode', projected);
      CommitPending(w, records, b, n, byNode, u);
    }
  }

  lemma ValidIsOrdered(w: Workflow)
    requires ValidRoute(w)
    ensures exists s :: Complete(w, s)
  {
    hide ValidNodes, ValidEdges, Degrees, Complete;
    var s :| InStepOrder(w, s);
  }

  // What the request's event is recorded as.
  ghost predicate Says(e: Event, w: Workflow, n: RouteNode, req: CommitRequest) {
    Shows(e, FormValues(w, n, req.user.role, req.values), req.references, req.confirmationName, req.user.uid,
      req.user.organizationId)
  }

  // The fields of a block do not depend on its Merkle record, status and hash.
  lemma FieldsStay(r: Record, u: Record, batch: Batch, e: Event)
    requires u == r.(merkleFields := u.merkleFields, canonicalRecord := u.canonicalRecord, rootHash := u.rootHash,
      merkleLeaves := u.merkleLeaves, verified := u.verified, chainStatus := u.chainStatus, blockHash := u.blockHash)
    ensures FieldsOf(u, batch, e) == FieldsOf(r, batch, e)
  {
    hide IntText, RoleEventFields, ReferenceFields, EventFields, Maybe;
  }

  // The block carries the route, the stage, the batch and the request.
  ghost predicate Carries(h: Hash, r: Record, w: Workflow, n: RouteNode, batch: Batch, req: CommitRequest) {
    && r.routeId == w.routeId && r.routeStepIndex == n.stepIndex
    && r.signature == req.signature && r.signatureAlgorithm == req.signatureAlgorithm
    && r.signaturePublicKeyHash == h(req.publicKey) && r.signedPayloadHash == h(req.payload)
    && exists e: Event :: Says(e, w, n, req) && r.merkleFields == FieldsOf(r, batch, e)
  }

  predicate Stamped(r: Record, complete: bool) {
    r.chainStatus == if complete then "completed" else "in_progress"
  }

  // The Merkle record of a draft. It can always be built, so the message about a failed Merkle tree is never given.
  method MerkleRecord(h: Hash, draft: Record, w: Workflow, n: RouteNode, batch: Batch, req: CommitRequest)
    returns (fields: seq<Field>, merkle: BlockMerkleResult)
    requires IsDigest(h)
    ensures Merkled(h, fields, merkle) && exists e: Event :: fields == FieldsOf(draft, batch, e) && Says(e, w, n, req)
  {
    hide IsDigest, FieldsOf, FieldHashes, Root, CanonicalText, LeafOf, Named, FormValues, ListedFrom;
    var values := FormValues(w, n, req.user.role, req.values);
    var confirmation, uid, organization := req.confirmationName, req.user.uid, req.user.organizationId;
    fields := BlockMerkleFields(draft, batch, values, req.references, confirmation, uid, organization);
    ghost var e: Event :|
      Shows(e, values, req.references, confirmation, uid, organization) && fields == FieldsOf(draft, batch, e);
    FieldsUsable(draft, batch, e);
    var built := BuildBlockMerkle(h, fields);
    merkle := built.value;
  }

  // The block of the next stage.
  method MakeBlock(h: Hash, records: seq<Record>, w: Workflow, b: string, n: RouteNode, parent: Option<Record>,
      batch: Batch, req: CommitRequest, ghost byNode: map<string, Record>) returns (r: Record)
    requires IsDigest(h) && Linkage(records) && AllRecorded(records) && OnePerStage(records)
    requires ByNode(w, records, b, byNode)
    requires RowsOk(w.nodes) && n in w.nodes && n.nodeId !in byNode
    requires n.role == req.user.role && n.username == req.user.username
    requires LastRecord(records, b, parent) && (IsSupplier(req.user) <==> parent.None?)
    ensures BlockOk(h, records, r) && ForStage(r, b, n) && Carries(h, r, w, n, batch, req)
    ensures ValidRoute(w) ==> Stamped(r, Pending(w, records, b) == {n.nodeId})
  {
    hide IsDigest, Linkage, AllRecorded, OnePerStage, ByNode, RowsOk, LastRecord, Merkled, BlockOk, ForStage,
      ValidRoute, Pending, Unhashed, FieldHashes, Root, CanonicalText, LeafOf, Named, FieldsOf, Says, Draft, Carries;
    var draft := Draft(h, |records|, w, n, b, parent, req);
    var fields, merkle := MerkleRecord(h, draft, w, n, batch, req);
    ghost var e: Event :| fields == FieldsOf(draft, batch, e) && Says(e, w, n, req);
    var u := Unhashed(h, |records|, w, n, b, parent, req, fields, merkle);
    MerkledVerified(h, fields, merkle);
    UnhashedFor(h, records, w, n, b, parent, req, fields, merkle);
    var complete := Project(w, records, b, n, u, byNode);
    var status := if complete then "completed" else "in_progress";
    UnhashedOk(h, records, w, n, b, parent, req, fields, merkle, status);
    r := u.(chainStatus := status);
    r := r.(blockHash := CalculateBlockHash(h, r));
    Finished(h, u, r, w, b, n, batch, req, |records|, parent, fields, merkle, e);
  }

  lemma MerkledVerified(h: Hash, fields: seq<Field>, merkle: BlockMerkleResult)
    requires Merkled(h, fields, merkle)
    ensures merkle.verified
  {
    hide CanonicalText, Named, Root, FieldHashes, LeafOf;
  }

  lemma Finished(h: Hash, u: Record, r: Record, w: Workflow, b: string, n: RouteNode, batch: Batch, req: CommitRequest,
      id: int, parent: Option<Record>, fields: seq<Field>, merkle: BlockMerkleResult, e: Event)
    requires u == Unhashed(h, id, w, n, b, parent, req, fields, merkle)
    requires r == u.(chainStatus := r.chainStatus, blockHash := r.blockHash)
    requires ForStage(u, b, n) && fields == FieldsOf(Draft(h, id, w, n, b, parent, req), batch, e) && Says(e, w, n, req)
    ensures ForStage(r, b, n) && Carries(h, r, w, n, batch, req)
  {
    hide FieldsOf, Says;
    FieldsStay(Draft(h, id, w, n, b, parent, req), r, batch, e);
  }
}
