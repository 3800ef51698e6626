// The stored blocks and their links, and the validation of a store.
module Chain {
  import opened MerkleSpec
  import opened CanonicalRecord
  import opened BlockMerkle

  // The part of a stored record that links, hashes and route progress look at.
  datatype Record = Record(blockId: int, parentBlockId: int, parentBlockHash: string, batchId: string, role: string,
    confirmedBy: string, merkleFields: seq<Field>, canonicalRecord: string, rootHash: string,
    merkleLeaves: seq<LeafRecord>,
    verified: bool, signatureAlgorithm: string, signature: string, signaturePublicKeyHash: string,
    signedPayloadHash: string,
    signatureVerified: bool, routeId: string, routeNodeId: string, routeStepIndex: int, chainStatus: string,
    blockHash: string)

  datatype BlockEdge = BlockEdge(fromBlockId: int, toBlockId: int, batchId: string, relation: string)

  const GENESIS: string := "GENESIS"

  // ---- hashing ----

  function IntText(n: int): string {
    if n < 0 then "-" + Decimal(-n) else Decimal(n)
  }

  function Line(name: string, value: string): string {
    name + ":" + value + "\n"
  }

  // The text that a block hash covers.
  function HashInput(r: Record): string {
    Line("blockId", IntText(r.blockId)) + (Line("parentBlockId", IntText(r.parentBlockId))
    + (Line("parentHash", r.parentBlockHash) + (Line("merkleRoot", r.rootHash)
    + (Line("signatureAlgorithm", r.signatureAlgorithm) + (Line("signature", r.signature)
    + (Line("signaturePublicKeyHash", r.signaturePublicKeyHash) + (Line("signedPayloadHash", r.signedPayloadHash)
    + ("canonical:" + r.canonicalRecord))))))))
  }

  function CalculateBlockHash(h: Hash, r: Record): string {
    h(HashInput(r))
  }

  // ---- valid blocks ----

  // The position of a batch's last record, or -1.
  function LastIn(records: seq<Record>, batchId: string): (p: int)
    ensures -1 <= p < |records|
    ensures p >= 0 ==> records[p].batchId == batchId
    ensures forall i :: p < i < |records| ==> records[i].batchId != batchId
  {
    if records == [] then -1
    else if records[|records| - 1].batchId == batchId then |records| - 1
    else LastIn(records[..|records| - 1], batchId)
  }

  predicate MerkleOk(h: Hash, r: Record) {
    && r.merkleFields != [] && Named(r.merkleFields) && r.canonicalRecord == CanonicalText(r.merkleFields)
    && r.rootHash == Root(h, FieldHashes(h, r.merkleFields), 2) && r.verified
  }

  predicate LeavesOk(h: Hash, r: Record) {
    && |r.merkleLeaves| == |r.merkleFields|
    && forall i :: 0 <= i < |r.merkleFields| ==> r.merkleLeaves[i] == LeafOf(h, r.merkleFields, i)
  }

  // The block continues the batch's last block, or starts the batch.
  predicate ParentOk(before: seq<Record>, r: Record) {
    var p := LastIn(before, r.batchId);
    if p < 0 then r.parentBlockId == -1 && r.parentBlockHash == GENESIS
    else r.parentBlockId == before[p].blockId && r.parentBlockHash == before[p].blockHash
  }

  predicate BlockOk(h: Hash, before: seq<Record>, r: Record) {
    && r.blockId == |before| && MerkleOk(h, r) && LeavesOk(h, r) && ParentOk(before, r)
    && r.blockHash == CalculateBlockHash(h, r)
  }

  predicate ValidBlocks(h: Hash, records: seq<Record>) {
    forall i :: 0 <= i < |records| ==> BlockOk(h, records[..i], records[i])
  }

  // ---- valid edges ----

  function CountInto(edges: seq<BlockEdge>, id: int): nat {
    if edges == [] then 0
    else CountInto(edges[..|edges| - 1], id) + if edges[|edges| - 1].toBlockId == id then 1 else 0
  }

  predicate EdgeMatches(r: Record, e: BlockEdge) {
    r.parentBlockId >= 0 && e.fromBlockId == r.parentBlockId && e.batchId == r.batchId && e.relation == "continues"
  }

  predicate EdgesInto(r: Record, edges: seq<BlockEdge>) {
    && (forall i :: 0 <= i < |edges| && edges[i].toBlockId == r.blockId ==> EdgeMatches(r, edges[i]))
    && CountInto(edges, r.blockId) == if r.parentBlockId < 0 then 0 else 1
  }

  predicate EdgeInside(records: seq<Record>, e: BlockEdge) {
    && 0 <= e.fromBlockId < e.toBlockId < |records|
    && records[e.fromBlockId].batchId == e.batchId && records[e.toBlockId].batchId == e.batchId
  }

  predicate LinksValid(records: seq<Record>, edges: seq<BlockEdge>) {
    && (forall i :: 0 <= i < |records| ==> EdgesInto(records[i], edges))
    && forall i :: 0 <= i < |edges| ==> EdgeInside(records, edges[i])
  }

  predicate ValidChain(h: Hash, records: seq<Record>, edges: seq<BlockEdge>) {
    ValidBlocks(h, records) && LinksValid(records, edges)
  }

  // ---- the validation ----

  datatype ChainError = Intact | NotSequential | MerkleMismatch | LeafMismatch | ParentMismatch | InvalidParent
    | HashMismatch | EdgeMismatch | EdgeCount | InvalidEdge

  method SameLeaves(leaves: seq<LeafRecord>, stored: seq<LeafRecord>) returns (same: bool)
    requires |leaves| == |stored|
    ensures same <==> leaves == stored
  {
    var leafIndex := 0;
    while leafIndex < |leaves|
      invariant 0 <= leafIndex <= |leaves| && forall i :: 0 <= i < leafIndex ==> leaves[i] == stored[i]
    {
      if leaves[leafIndex] != stored[leafIndex] {
        return false;
      }
      leafIndex := leafIndex + 1;
    }
    return true;
  }

  method CheckMerkle(h: Hash, record: Record) returns (error: ChainError)
    requires IsDigest(h)
    ensures error == Intact <==> MerkleOk(h, record) && LeavesOk(h, record)
    ensures error != InvalidParent
  {
    hide CanonicalText, Root, FieldHashes, LeafOf, IsDigest, Named;
    var merkle := BuildBlockMerkle(h, record.merkleFields);
    if merkle.None? || merkle.value.canonicalRecord != record.canonicalRecord
      || merkle.value.rootHash != record.rootHash
      || merkle.value.verified != record.verified || |merkle.value.leaves| != |record.merkleLeaves|
    {
      return MerkleMismatch;
    }
    var same := SameLeaves(merkle.value.leaves, record.merkleLeaves);
    if !same {
      return LeafMismatch;
    }
    assert record.merkleLeaves == merkle.value.leaves;
    return Intact;
  }

  // Every block seen, by id, and the last block seen of every batch.
  ghost predicate Seen(records: seq<Record>, byBlockId: map<int, Record>, latestByBatch: map<string, Record>) {
    && (forall id :: id in byBlockId <==> 0 <= id < |records|)
    && (forall id :: id in byBlockId ==> byBlockId[id] == records[id])
    && (forall b :: b in latestByBatch <==> LastIn(records, b) >= 0)
    && forall b :: b in latestByBatch ==> latestByBatch[b] == records[LastIn(records, b)]
  }

  lemma LastStep(records: seq<Record>, i: nat, b: string)
    requires i < |records|
    ensures LastIn(records[..i + 1], b) == if records[i].batchId == b then i else LastIn(records[..i], b)
  {
    assert records[..i + 1][..i] == records[..i];
  }

  lemma SeenStep(records: seq<Record>, i: nat, byBlockId: map<int, Record>, latestByBatch: map<string, Record>)
    requires i < |records| && Seen(records[..i], byBlockId, latestByBatch)
    ensures Seen(records[..i + 1], byBlockId[i := records[i]], latestByBatch[records[i].batchId := records[i]])
  {
    hide LastIn;
    var front, more := records[..i], records[..i + 1];
    forall b
      ensures LastIn(more, b) == if records[i].batchId == b then i else LastIn(front, b)
    {
      LastStep(records, i, b);
    }
    forall j | 0 <= j < i ensures front[j] == more[j] {}
  }

  // A parent that is the batch's last block is a stored block of the batch.
  lemma ParentKnown(h: Hash, records: seq<Record>, i: nat, byBlockId: map<int, Record>,
      latestByBatch: map<string, Record>)
    requires i < |records| && ValidBlocks(h, records[..i]) && Seen(records[..i], byBlockId, latestByBatch)
    requires ParentOk(records[..i], records[i])
    ensures records[i].parentBlockId >= 0 ==>
      records[i].parentBlockId in byBlockId && byBlockId[records[i].parentBlockId].batchId == records[i].batchId
  {
    hide MerkleOk, LeavesOk, CalculateBlockHash;
    var p := LastIn(records[..i], records[i].batchId);
    if p >= 0 { assert BlockOk(h, records[..i][..p], records[..i][p]); }
  }

  lemma ParentMeaning(records: seq<Record>, i: nat, byBlockId: map<int, Record>, latestByBatch: map<string, Record>,
      parentId: int, parentHash: string)
    requires i < |records| && Seen(records[..i], byBlockId, latestByBatch)
    requires var b := records[i].batchId;
      && parentId == (if b in latestByBatch then latestByBatch[b].blockId else -1)
      && parentHash == if b in latestByBatch then latestByBatch[b].blockHash else GENESIS
    ensures ParentOk(records[..i], records[i])
      <==> records[i].parentBlockId == parentId && records[i].parentBlockHash == parentHash
  {
    hide LastIn;
  }

  lemma BlocksStep(h: Hash, records: seq<Record>, i: nat)
    requires i < |records| && ValidBlocks(h, records[..i])
    ensures ValidBlocks(h, records[..i + 1]) <==> BlockOk(h, records[..i], records[i])
    ensures !BlockOk(h, records[..i], records[i]) ==> !ValidBlocks(h, records)
  {
    hide BlockOk;
    var front, more := records[..i], records[..i + 1];
    forall j | 0 <= j < i ensures more[j] == front[j] && more[..j] == front[..j] {}
    assert more[i] == records[i] && more[..i] == front;
  }

  method CheckBlocks(h: Hash, records: seq<Record>) returns (error: ChainError)
    requires IsDigest(h)
    ensures error == Intact <==> ValidBlocks(h, records)
    ensures error != InvalidParent
  {
    hide MerkleOk, LeavesOk, ParentOk, CalculateBlockHash, LastIn, IsDigest, Seen, ValidBlocks;
    var byBlockId: map<int, Record> := map[];
    var latestByBatch: map<string, Record> := map[];
    var index := 0;
    NothingSeen(h, records);
    while index < |records|
      invariant 0 <= index <= |records| && Seen(records[..index], byBlockId, latestByBatch)
      invariant ValidBlocks(h, records[..index])
    {
      var record := records[index];
      BlocksStep(h, records, index);
      if record.blockId != index {
        return NotSequential;
      }
      error := CheckMerkle(h, record);
      if error != Intact {
        return;
      }
      var expectedParentId := if record.batchId in latestByBatch then latestByBatch[record.batchId].blockId else -1;
      var expectedParentHash := if record.batchId in latestByBatch then latestByBatch[record.batchId].blockHash
        else GENESIS;
      ParentMeaning(records, index, byBlockId, latestByBatch, expectedParentId, expectedParentHash);
      if record.parentBlockId != expectedParentId || record.parentBlockHash != expectedParentHash {
        return ParentMismatch;
      }
      ParentKnown(h, records, index, byBlockId, latestByBatch);
      if record.parentBlockId >= 0 {
        if record.parentBlockId !in byBlockId || byBlockId[record.parentBlockId].batchId != record.batchId {
          return InvalidParent;
        }
      }
      if CalculateBlockHash(h, record) != record.blockHash {
        return HashMismatch;
      }
      SeenStep(records, index, byBlockId, latestByBatch);
      byBlockId := byBlockId[record.blockId := record];
      latestByBatch := latestByBatch[record.batchId := record];
      index := index + 1;
    }
    assert records[..index] == records;
    return Intact;
  }

  lemma NothingSeen(h: Hash, records: seq<Record>)
    ensures Seen(records[..0], map[], map[]) && ValidBlocks(h, records[..0])
  {}

  method CheckEdgesInto(record: Record, edges: seq<BlockEdge>) returns (error: ChainError)
    ensures error == Intact <==> EdgesInto(record, edges)
    ensures error != InvalidParent
  {
    hide EdgeMatches;
    var matchingEdges := 0;
    var i := 0;
    while i < |edges|
      invariant 0 <= i <= |edges| && matchingEdges == CountInto(edges[..i], record.blockId)
      invariant forall j :: 0 <= j < i && edges[j].toBlockId == record.blockId ==> EdgeMatches(record, edges[j])
    {
      var edge := edges[i];
      assert edges[..i + 1][..i] == edges[..i];
      if edge.toBlockId == record.blockId {
        matchingEdges := matchingEdges + 1;
        MatchIs(record, edge);
        if record.parentBlockId < 0 || edge.fromBlockId != record.parentBlockId || edge.batchId != record.batchId
          || edge.relation != "continues"
        {
          return EdgeMismatch;
        }
      }
      i := i + 1;
    }
    assert edges[..i] == edges;
    var expectedEdges := if record.parentBlockId < 0 then 0 else 1;
    if matchingEdges != expectedEdges {
      return EdgeCount;
    }
    return Intact;
  }

  lemma MatchIs(r: Record, e: BlockEdge)
    ensures EdgeMatches(r, e)
      <==>
      r.parentBlockId >= 0 && e.fromBlockId == r.parentBlockId && e.batchId == r.batchId
        && e.relation == "continues"
  {}

  // The validation accepts exactly the valid stores. Its message about an invalid parent block is never given.
  method ValidateStoredChain(h: Hash, records: seq<Record>, edges: seq<BlockEdge>) returns (ok: bool, error: ChainError)
    requires IsDigest(h)
    ensures ok <==> ValidChain(h, records, edges)
    ensures (ok <==> error == Intact) && error != InvalidParent
  {
    hide ValidBlocks, EdgesInto, IsDigest;
    error := CheckBlocks(h, records);
    if error != Intact {
      return false, error;
    }
    var k := 0;
    while k < |records|
      invariant 0 <= k <= |records| && forall i :: 0 <= i < k ==> EdgesInto(records[i], edges)
    {
      error := CheckEdgesInto(records[k], edges);
      if error != Intact {
        return false, error;
      }
      k := k + 1;
    }
    k := 0;
    while k < |edges|
      invariant 0 <= k <= |edges| && forall i :: 0 <= i < k ==> EdgeInside(records, edges[i])
    {
      var edge := edges[k];
      if edge.fromBlockId < 0 || edge.toBlockId < 0 || edge.fromBlockId >= |records| || edge.toBlockId >= |records|
        || edge.fromBlockId >= edge.toBlockId || records[edge.fromBlockId].batchId != edge.batchId
        || records[edge.toBlockId].batchId != edge.batchId
      {
        return false, InvalidEdge;
      }
      k := k + 1;
    }
    return true, Intact;
  }
}
