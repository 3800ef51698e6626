// What a last block hash says about two ledgers, however they came about.
module LedgerBinding {
  import opened MerkleSpec
  import opened CanonicalRecord
  import opened BlockMerkle
  import opened Chain
  import opened HistoryBinding
  import opened BlockFields
  import opened LedgerRules
  import opened LedgerBlock
  import L = Ledger

  // Digests have no newlines, as hexadecimal ones have none.
  ghost predicate PlainHash(h: Hash) {
    forall s: string :: NoNewline(h(s))
  }

  lemma {:induction false} RootPlain(h: Hash, level: seq<string>)
    requires PlainHash(h) && level != [] && forall i :: 0 <= i < |level| ==> NoNewline(level[i])
    ensures NoNewline(Root(h, level, 2))
    decreases |level|
  {
    hide NoNewline, Children, Join;
    if |level| > 1 {
      GroupCountShrinks(|level|, 2);
      var next := NextLevel(h, level, 2);
      forall i | 0 <= i < |next| ensures NoNewline(next[i]) { assert next[i] == Parent(h, level, 2, i); }
      RootPlain(h, next);
    }
  }

  lemma FieldHashesPlain(h: Hash, fields: seq<Field>)
    requires PlainHash(h) && fields != []
    ensures NoNewline(Root(h, FieldHashes(h, fields), 2))
  {
    hide NoNewline, Root;
    var inputs := Inputs(fields);
    var hashes := FieldHashes(h, fields);
    forall i | 0 <= i < |hashes| ensures NoNewline(hashes[i]) { assert hashes[i] == h(inputs[i]); }
    RootPlain(h, hashes);
  }

  lemma FixedPlain()
    ensures NoNewline(GENESIS) && NoNewline(ALGORITHM)
  {}

  lemma ParentPlain(h: Hash, records: seq<Record>, i: nat)
    requires PlainHash(h) && ValidBlocks(h, records) && i < |records|
    ensures NoNewline(records[i].parentBlockHash)
  {
    hide NoNewline, MerkleOk, LeavesOk, HashInput, LastIn;
    FixedPlain();
    var p := LastIn(records[..i], records[i].batchId);
    assert BlockOk(h, records[..i], records[i]);
    if p >= 0 {
      assert records[..i][p] == records[p] && BlockOk(h, records[..p], records[p]);
    }
  }

  // In a ledger's blocks, a header can hold a newline only in its signature.
  lemma HeaderPlain(h: Hash, records: seq<Record>, details: map<string, Batch>, i: nat)
    requires PlainHash(h) && ValidBlocks(h, records) && L.AllWritten(h, records, details) && i < |records|
    ensures (Plain(records[i]) <==> NoNewline(records[i].signature)) && NamesOk(records[i].merkleFields)
  {
    hide NoNewline, LeavesOk, ParentOk, HashInput, FieldsOf, NamesOk, Root, FieldHashes, CanonicalText;
    var r := records[i];
    FixedPlain();
    ParentPlain(h, records, i);
    assert BlockOk(h, records[..i], r) && L.Written(h, r, details[r.batchId]);
    FieldHashesPlain(h, r.merkleFields);
    var e: Event :| r.merkleFields == FieldsOf(r, details[r.batchId], e);
    FieldsUsable(r, details[r.batchId], e);
  }

  predicate SignaturesPlain(c: seq<Record>) {
    forall k :: 0 <= k < |c| ==> NoNewline(c[k].signature)
  }

  lemma ChainReadable(h: Hash, records: seq<Record>, details: map<string, Batch>, b: string)
    requires PlainHash(h) && ValidBlocks(h, records) && L.AllWritten(h, records, details)
    ensures Readable(BatchChain(records, b)) <==> SignaturesPlain(BatchChain(records, b))
  {
    hide ValidBlocks, Plain, NoNewline, NamesOk, BatchChain, L.AllWritten;
    var c := BatchChain(records, b);
    forall k | 0 <= k < |c| ensures (Plain(c[k]) <==> NoNewline(c[k].signature)) && NamesOk(c[k].merkleFields) {
      var i := ChainFrom(records, b, k);
      HeaderPlain(h, records, details, i);
    }
  }

  // Equal fields show equal batches.
  lemma SameBatch(h: Hash, r: Record, batch: Batch, q: Record, other: Batch)
    requires L.Written(h, r, batch) && L.Written(h, q, other) && r.merkleFields == q.merkleFields
    ensures batch == other
  {
    hide FieldsOf;
    var e: Event :| r.merkleFields == FieldsOf(r, batch, e);
    var f: Event :| q.merkleFields == FieldsOf(q, other, f);
    FieldsDetermine(r, batch, e, q, other, f);
  }

  lemma SameColumns(h: Hash, records: seq<Record>, details: map<string, Batch>, others: seq<Record>,
      otherDetails: map<string, Batch>, b: string)
    requires L.AllWritten(h, records, details) && L.AllWritten(h, others, otherDetails)
    requires LastIn(records, b) >= 0 && LastIn(others, b) >= 0
    requires SameFields(BatchChain(records, b), BatchChain(others, b))
    ensures b in details && b in otherDetails && details[b] == otherDetails[b]
  {
    hide L.Written, LastIn, BatchChain;
    var c, d := BatchChain(records, b), BatchChain(others, b);
    ChainEnd(records, b);
    ChainEnd(others, b);
    var r, q := records[LastIn(records, b)], others[LastIn(others, b)];
    assert c[|c| - 1] == r && d[|d| - 1] == q;
    SameBatch(h, r, details[b], q, otherDetails[b]);
  }

  predicate SameDetails(details: map<string, Batch>, others: map<string, Batch>, b: string) {
    b in details && b in others && details[b] == others[b]
  }

  // The same history, fields and columns of a batch.
  predicate SameLedger(c: seq<Record>, d: seq<Record>, details: map<string, Batch>, others: map<string, Batch>,
      b: string) {
    SameHistory(c, d) && SameFields(c, d) && SameDetails(details, others, b)
  }

  // Two ledgers with one last block hash for a batch: either two hash inputs collide, or they agree on the batch's
  // whole history, on every field of its blocks and on its product and origin, exactly if no signature has a newline.
  lemma LedgersBind(ledger: L.Ledger, other: L.Ledger, b: string)
    requires ledger.Valid() && other.Valid() && ledger.h == other.h && PlainHash(ledger.h)
    requires LastIn(ledger.records, b) >= 0 && LastIn(other.records, b) >= 0
    requires ledger.records[LastIn(ledger.records, b)].blockHash == other.records[LastIn(other.records, b)].blockHash
    requires SignaturesPlain(BatchChain(ledger.records, b))
    ensures var c, d := BatchChain(ledger.records, b), BatchChain(other.records, b);
      || (SameLedger(c, d, ledger.details, other.details, b) <==> SignaturesPlain(d))
      || exists k: nat :: HistoryBinding.CollidesAt(ledger.h, c, d, k)
  {
    hide L.AllWritten, LastIn, BatchChain, SameHistory, SameFields, SignaturesPlain, Readable, ValidBlocks, HashInput,
      PlainHash, IsDigest, L.BatchesStarted, Kept;
    var h := ledger.h;
    L.KeptParts(h, ledger.records, ledger.edges);
    L.KeptParts(h, other.records, other.edges);
    ChainReadable(h, ledger.records, ledger.details, b);
    ChainReadable(h, other.records, other.details, b);
    StoresBind(h, ledger.records, other.records, b);
    if SameFields(BatchChain(ledger.records, b), BatchChain(other.records, b)) {
      SameColumns(h, ledger.records, ledger.details, other.records, other.details, b);
    }
  }
}
