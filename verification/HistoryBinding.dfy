// A batch's last block hash fixes the batch's whole history, unless two hash inputs collide.
module HistoryBinding {
  import opened MerkleSpec
  import opened CanonicalRecord
  import opened Chain

  // ---- the hash input determines the header ----

  predicate NoNewline(s: string) {
    forall i :: 0 <= i < |s| ==> s[i] != '\n'
  }

  lemma {:induction false} DecimalPlain(n: nat)
    ensures NoNewline(Decimal(n)) && Decimal(n)[0] != '-'
    decreases n
  {
    if n >= 10 { DecimalPlain(n / 10); }
  }

  lemma IntTextPlain(n: int)
    ensures NoNewline(IntText(n))
  {
    hide Decimal;
    DecimalPlain(if n < 0 then -n else n);
  }

  lemma IntTextInjective(m: int, n: int)
    requires IntText(m) == IntText(n)
    ensures m == n
  {
    hide Decimal;
    DecimalPlain(if m < 0 then -m else m);
    DecimalPlain(if n < 0 then -n else n);
    if m < 0 && n < 0 {
      assert IntText(m)[1..] == Decimal(-m) && IntText(n)[1..] == Decimal(-n);
      DecimalInjective(-m, -n);
    } else if m >= 0 && n >= 0 {
      DecimalInjective(m, n);
    }
  }

  // Text up to the first newline.
  lemma NewlineSplit(x: string, u: string, y: string, v: string)
    requires NoNewline(x) && NoNewline(y) && x + "\n" + u == y + "\n" + v
    ensures x == y && u == v
  {
    var s := x + "\n" + u;
    assert s[|x|] == '\n' && s[|y|] == '\n';
    assert forall i :: 0 <= i < |x| ==> s[i] == x[i];
    assert forall i :: 0 <= i < |y| ==> s[i] == y[i];
    assert s[..|x|] == x && s[|x| + 1..] == u && s[..|y|] == y && s[|y| + 1..] == v;
  }

  lemma LineSplit(name: string, x: string, u: string, y: string, v: string)
    requires NoNewline(x) && NoNewline(y) && Line(name, x) + u == Line(name, y) + v
    ensures x == y && u == v
  {
    hide NoNewline;
    var k := |name| + 1;
    assert (Line(name, x) + u)[k..] == x + "\n" + u && (Line(name, y) + v)[k..] == y + "\n" + v;
    NewlineSplit(x, u, y, v);
  }

  // The header's texts stay on their lines.
  predicate Plain(r: Record) {
    && NoNewline(r.parentBlockHash) && NoNewline(r.rootHash) && NoNewline(r.signatureAlgorithm)
    && NoNewline(r.signature)
    && NoNewline(r.signaturePublicKeyHash) && NoNewline(r.signedPayloadHash)
  }

  predicate SameNumbers(r: Record, q: Record) {
    r.blockId == q.blockId && r.parentBlockId == q.parentBlockId && r.parentBlockHash == q.parentBlockHash
    && r.rootHash == q.rootHash
  }

  predicate SameSigning(r: Record, q: Record) {
    r.signatureAlgorithm == q.signatureAlgorithm && r.signature == q.signature
    && r.signaturePublicKeyHash == q.signaturePublicKeyHash && r.signedPayloadHash == q.signedPayloadHash
    && r.canonicalRecord == q.canonicalRecord
  }

  // The second half of the hash input.
  function SigningInput(r: Record): string {
    Line("signatureAlgorithm", r.signatureAlgorithm) + (Line("signature", r.signature)
    + (Line("signaturePublicKeyHash", r.signaturePublicKeyHash) + (Line("signedPayloadHash", r.signedPayloadHash)
    + ("canonical:" + r.canonicalRecord))))
  }

  lemma SigningInjective(r: Record, q: Record)
    requires Plain(r) && Plain(q) && SigningInput(r) == SigningInput(q)
    ensures SameSigning(r, q)
  {
    hide Line, NoNewline;
    var r3 := "canonical:" + r.canonicalRecord;
    var q3 := "canonical:" + q.canonicalRecord;
    var r2, q2 := Line("signedPayloadHash", r.signedPayloadHash) + r3,
        Line("signedPayloadHash", q.signedPayloadHash) + q3;
    var r1, q1 := Line("signaturePublicKeyHash", r.signaturePublicKeyHash) + r2,
        Line("signaturePublicKeyHash", q.signaturePublicKeyHash) + q2;
    var r0, q0 := Line("signature", r.signature) + r1, Line("signature", q.signature) + q1;
    LineSplit("signatureAlgorithm", r.signatureAlgorithm, r0, q.signatureAlgorithm, q0);
    LineSplit("signature", r.signature, r1, q.signature, q1);
    LineSplit("signaturePublicKeyHash", r.signaturePublicKeyHash, r2, q.signaturePublicKeyHash, q2);
    LineSplit("signedPayloadHash", r.signedPayloadHash, r3, q.signedPayloadHash, q3);
    assert r3[10..] == r.canonicalRecord && q3[10..] == q.canonicalRecord;
  }

  lemma InputInjective(r: Record, q: Record)
    requires Plain(r) && Plain(q) && HashInput(r) == HashInput(q)
    ensures SameNumbers(r, q) && SameSigning(r, q)
  {
    hide Line, NoNewline, IntText, SigningInput;
    var r3, q3 := SigningInput(r), SigningInput(q);
    InputParts(r);
    InputParts(q);
    var r2, q2 := Line("merkleRoot", r.rootHash) + r3, Line("merkleRoot", q.rootHash) + q3;
    var r1, q1 := Line("parentHash", r.parentBlockHash) + r2, Line("parentHash", q.parentBlockHash) + q2;
    var r0, q0 := Line("parentBlockId", IntText(r.parentBlockId)) + r1,
        Line("parentBlockId", IntText(q.parentBlockId)) + q1;
    IntTextPlain(r.blockId);
    IntTextPlain(q.blockId);
    IntTextPlain(r.parentBlockId);
    IntTextPlain(q.parentBlockId);
    LineSplit("blockId", IntText(r.blockId), r0, IntText(q.blockId), q0);
    LineSplit("parentBlockId", IntText(r.parentBlockId), r1, IntText(q.parentBlockId), q1);
    LineSplit("parentHash", r.parentBlockHash, r2, q.parentBlockHash, q2);
    LineSplit("merkleRoot", r.rootHash, r3, q.rootHash, q3);
    IntTextInjective(r.blockId, q.blockId);
    IntTextInjective(r.parentBlockId, q.parentBlockId);
    SigningInjective(r, q);
  }

  // Two records with one hash input, one of them newline-free: the same headers exactly if both are.
  lemma InputExactly(r: Record, q: Record)
    requires Plain(r) && HashInput(r) == HashInput(q)
    ensures SameNumbers(r, q) && SameSigning(r, q) <==> Plain(q)
  {
    hide HashInput, NoNewline;
    if Plain(q) { InputInjective(r, q); }
  }

  lemma InputParts(r: Record)
    ensures HashInput(r) == Line("blockId", IntText(r.blockId)) + (Line("parentBlockId", IntText(r.parentBlockId))
      + (Line("parentHash", r.parentBlockHash) + (Line("merkleRoot", r.rootHash) + SigningInput(r))))
  {
    hide Line, IntText;
  }

  lemma LeftFirst(a: string, b: string, c: string)
    ensures a + (b + c) == a + b + c
  {}

  // Both ways of reading the same text.
  lemma TwoReadings(sig: string, key: string, payload: string, front: string, c: string)
    ensures var lines := key + (payload + "canonical:");
      Line("signature", sig + "\n" + lines + front) + (key + (payload + ("canonical:" + c)))
      == Line("signature", sig) + (key + (payload + ("canonical:" + (front + "\n" + lines + c))))
  {
    var lines := key + (payload + "canonical:");
    LinesThen(key, payload, c);
    LinesThen(key, payload, front + "\n" + lines + c);
    var a := "signature:" + sig;
    assert Line("signature", sig + "\n" + lines + front) == a + "\n" + lines + front + "\n";
    assert Line("signature", sig) == a + "\n";
    var x := a + "\n";
    LeftFirst(x + lines + front + "\n", lines, c);
    FourParts(x, lines, front, "\n", lines, c);
  }

  lemma LinesThen(key: string, payload: string, c: string)
    ensures key + (payload + ("canonical:" + c)) == key + (payload + "canonical:") + c
  {
    LeftFirst(payload, "canonical:", c);
    LeftFirst(key, payload + "canonical:", c);
  }

  lemma FourParts(x: string, l: string, f: string, n: string, m: string, c: string)
    ensures x + l + f + n + (m + c) == x + (l + (f + n + m + c))
  {
    LeftFirst(x, l, f + n + m + c);
    LeftFirst(f + n, m, c);
    LeftFirst(x + l, f + n, m + c);
    LeftFirst(x + l, f, n);
  }

  // A signature with newlines can take over the lines after it: two different records, one hash input.
  lemma NewlinesAreAmbiguous(r: Record, front: string)
    ensures var lines := Line("signaturePublicKeyHash", r.signaturePublicKeyHash)
        + (Line("signedPayloadHash", r.signedPayloadHash) + "canonical:");
      var x, y := r.(signature := r.signature + "\n" + lines + front),
          r.(canonicalRecord := front + "\n" + lines + r.canonicalRecord);
      HashInput(x) == HashInput(y) && x.canonicalRecord != y.canonicalRecord && x.signature != y.signature
  {
    hide IntText, Line;
    var key, payload := Line("signaturePublicKeyHash", r.signaturePublicKeyHash),
        Line("signedPayloadHash", r.signedPayloadHash);
    var lines := key + (payload + "canonical:");
    var x, y := r.(signature := r.signature + "\n" + lines + front),
        r.(canonicalRecord := front + "\n" + lines + r.canonicalRecord);
    Longer(r.signature, lines, front);
    Longer(front, lines, r.canonicalRecord);
    TwoReadings(r.signature, key, payload, front, r.canonicalRecord);
  }

  lemma Longer(a: string, lines: string, b: string)
    ensures |a + "\n" + lines + b| > |a| && |a + "\n" + lines + b| > |b|
  {}

  // ---- the blocks of one batch ----

  function BatchChain(records: seq<Record>, b: string): seq<Record> {
    if records == [] then []
    else
      var rest, r := BatchChain(records[..|records| - 1], b), records[|records| - 1];
      if r.batchId == b then rest + [r] else rest
  }

  // Each block carries the hash of its input and of the block before it.
  predicate Hashed(h: Hash, c: seq<Record>) {
    forall k :: 0 <= k < |c| ==> c[k].blockHash == CalculateBlockHash(h, c[k])
  }

  predicate LinkedAt(c: seq<Record>, k: nat)
    requires k < |c|
  {
    if k == 0 then c[k].parentBlockId == -1 && c[k].parentBlockHash == GENESIS
    else c[k].parentBlockId == c[k - 1].blockId >= 0 && c[k].parentBlockHash == c[k - 1].blockHash
  }

  predicate LinkedChain(h: Hash, c: seq<Record>) {
    Hashed(h, c) && forall k :: 0 <= k < |c| ==> LinkedAt(c, k)
  }

  // The last block of the chain is the batch's last record.
  lemma {:induction false} ChainEnd(records: seq<Record>, b: string)
    ensures var c, p := BatchChain(records, b), LastIn(records, b);
      (c == [] <==> p < 0) && (c != [] ==> c[|c| - 1] == records[p])
  {
    if records != [] { ChainEnd(records[..|records| - 1], b); }
  }

  lemma {:induction false} ChainLinks(h: Hash, records: seq<Record>, b: string, n: nat)
    requires ValidBlocks(h, records) && n <= |records|
    ensures LinkedChain(h, BatchChain(records[..n], b))
    decreases n
  {
    hide ValidBlocks, LinkedChain, CalculateBlockHash;
    if n == 0 {
      NoChain(h);
    } else {
      var front, all := records[..n - 1], records[..n];
      ChainLinks(h, records, b, n - 1);
      assert all[..n - 1] == front && all[n - 1] == records[n - 1];
      if records[n - 1].batchId == b { ChainStep(h, records, b, n - 1); }
    }
  }

  lemma NoChain(h: Hash)
    ensures LinkedChain(h, [])
  {}

  lemma ChainStep(h: Hash, records: seq<Record>, b: string, n: nat)
    requires ValidBlocks(h, records) && n < |records| && records[n].batchId == b
    requires LinkedChain(h, BatchChain(records[..n], b))
    ensures LinkedChain(h, BatchChain(records[..n], b) + [records[n]])
  {
    hide MerkleOk, LeavesOk, CalculateBlockHash, LastIn, BatchChain;
    var front := records[..n];
    var c, p := BatchChain(front, b), LastIn(front, b);
    ChainEnd(front, b);
    assert BlockOk(h, records[..n], records[n]);
    if p >= 0 { assert front[p] == records[p] && BlockOk(h, records[..p], records[p]); }
    ExtendLinked(h, c, records[n]);
  }

  lemma ExtendLinked(h: Hash, c: seq<Record>, r: Record)
    requires LinkedChain(h, c) && r.blockHash == CalculateBlockHash(h, r)
    requires if c == [] then r.parentBlockId == -1 && r.parentBlockHash == GENESIS
             else r.parentBlockId == c[|c| - 1].blockId >= 0 && r.parentBlockHash == c[|c| - 1].blockHash
    ensures LinkedChain(h, c + [r])
  {
    hide CalculateBlockHash;
    var d := c + [r];
    forall k | 0 <= k < |d| ensures LinkedAt(d, k) && d[k].blockHash == CalculateBlockHash(h, d[k]) {
      if k < |c| { assert LinkedAt(c, k) && d[k] == c[k] && (k > 0 ==> d[k - 1] == c[k - 1]); }
    }
  }

  // ---- the last hash fixes the history ----

  predicate AllPlain(c: seq<Record>) {
    forall k :: 0 <= k < |c| ==> Plain(c[k])
  }

  predicate SameHistory(c: seq<Record>, d: seq<Record>) {
    |c| == |d| && forall k :: 0 <= k < |c| ==> SameNumbers(c[k], d[k]) && SameSigning(c[k], d[k])
  }

  // The k-th blocks from the end have different hash inputs with one hash.
  ghost predicate CollidesAt(h: Hash, c: seq<Record>, d: seq<Record>, k: nat) {
    && k < |c| && k < |d|
    && Collision(h, HashInput(c[|c| - 1 - k]), HashInput(d[|d| - 1 - k]))
  }

  lemma {:induction false} PlainChainsBind(h: Hash, c: seq<Record>, d: seq<Record>)
    requires LinkedChain(h, c) && LinkedChain(h, d) && AllPlain(c) && AllPlain(d) && c != [] && d != []
    requires c[|c| - 1].blockHash == d[|d| - 1].blockHash
    ensures SameHistory(c, d) || exists k: nat :: CollidesAt(h, c, d, k)
    decreases |c|
  {
    hide HashInput, Plain, SameNumbers, SameSigning, LinkedChain, AllPlain, SameHistory;
    var n, m := |c| - 1, |d| - 1;
    LastBlock(h, c);
    LastBlock(h, d);
    if HashInput(c[n]) != HashInput(d[m]) {
      assert CollidesAt(h, c, d, 0);
    } else {
      InputInjective(c[n], d[m]);
      NumbersAre(c[n], d[m]);
      if n > 0 && m > 0 {
        Shorter(h, c);
        Shorter(h, d);
        PlainChainsBind(h, c[..n], d[..m]);
        if SameHistory(c[..n], d[..m]) {
          HistoryGrows(c, d);
        } else {
          var k: nat :| CollidesAt(h, c[..n], d[..m], k);
          LaterCollision(h, c, d, k);
        }
      } else {
        OneBlock(c, d);
      }
    }
  }

  lemma LastBlock(h: Hash, c: seq<Record>)
    requires LinkedChain(h, c) && AllPlain(c) && c != []
    ensures var n := |c| - 1; LinkedAt(c, n) && c[n].blockHash == h(HashInput(c[n])) && Plain(c[n])
  {
    hide HashInput, Plain, LinkedAt;
  }

  lemma LaterCollision(h: Hash, c: seq<Record>, d: seq<Record>, k: nat)
    requires c != [] && d != [] && CollidesAt(h, c[..|c| - 1], d[..|d| - 1], k)
    ensures CollidesAt(h, c, d, k + 1)
  {
    hide HashInput;
  }

  lemma OneBlock(c: seq<Record>, d: seq<Record>)
    requires |c| == 1 && |d| == 1 && SameNumbers(c[0], d[0]) && SameSigning(c[0], d[0])
    ensures SameHistory(c, d)
  {
    hide SameNumbers, SameSigning;
  }

  lemma NumbersAre(r: Record, q: Record)
    requires SameNumbers(r, q)
    ensures r.parentBlockId == q.parentBlockId && r.parentBlockHash == q.parentBlockHash
  {}

  lemma Shorter(h: Hash, c: seq<Record>)
    requires LinkedChain(h, c) && AllPlain(c) && |c| > 1
    ensures var e := c[..|c| - 1];
      LinkedChain(h, e) && AllPlain(e) && e[|e| - 1].blockHash == c[|c| - 1].parentBlockHash
  {
    hide CalculateBlockHash, Plain;
    var e := c[..|c| - 1];
    assert LinkedAt(c, |c| - 1);
    forall k | 0 <= k < |e| ensures LinkedAt(e, k) { assert LinkedAt(c, k); }
  }

  lemma HistoryGrows(c: seq<Record>, d: seq<Record>)
    requires c != [] && d != [] && SameHistory(c[..|c| - 1], d[..|d| - 1])
    requires SameNumbers(c[|c| - 1], d[|d| - 1]) && SameSigning(c[|c| - 1], d[|d| - 1])
    ensures SameHistory(c, d)
  {
    hide SameNumbers, SameSigning;
    var e, f := c[..|c| - 1], d[..|d| - 1];
    forall k | 0 <= k < |c| ensures SameNumbers(c[k], d[k]) && SameSigning(c[k], d[k]) {
      if k < |e| { assert e[k] == c[k] && f[k] == d[k]; }
    }
  }

  // Two chains with one last hash, one of them without newlines in its headers: a collision, or the same history
  // exactly if the other has none either.
  lemma HistoryBinds(h: Hash, c: seq<Record>, d: seq<Record>)
    requires LinkedChain(h, c) && LinkedChain(h, d) && AllPlain(c) && c != [] && d != []
    requires c[|c| - 1].blockHash == d[|d| - 1].blockHash
    ensures (SameHistory(c, d) <==> AllPlain(d)) || exists k: nat :: CollidesAt(h, c, d, k)
  {
    hide LinkedChain, AllPlain, SameHistory, HashInput;
    if AllPlain(d) {
      PlainChainsBind(h, c, d);
    } else if SameHistory(c, d) {
      SameIsPlain(c, d);
    }
  }

  lemma SameIsPlain(c: seq<Record>, d: seq<Record>)
    requires AllPlain(c) && SameHistory(c, d)
    ensures AllPlain(d)
  {
    hide NoNewline;
    forall k | 0 <= k < |d| ensures Plain(d[k]) {
      assert SameNumbers(c[k], d[k]) && SameSigning(c[k], d[k]) && Plain(c[k]);
    }
  }

  // ---- and with it the recorded fields ----

  predicate SameFields(c: seq<Record>, d: seq<Record>) {
    |c| == |d| && forall k :: 0 <= k < |c| ==> c[k].merkleFields == d[k].merkleFields
  }

  // The fields' names have no colons, as those that the server writes.
  predicate AllNamesOk(c: seq<Record>) {
    forall k :: 0 <= k < |c| ==> NamesOk(c[k].merkleFields)
  }

  // Each block's canonical record is that of its fields.
  predicate AllCanonical(c: seq<Record>) {
    forall k :: 0 <= k < |c| ==> c[k].canonicalRecord == CanonicalText(c[k].merkleFields)
  }

  lemma FieldsBound(c: seq<Record>, d: seq<Record>)
    requires SameHistory(c, d) && AllCanonical(c) && AllCanonical(d) && AllNamesOk(c)
    ensures SameFields(c, d) <==> AllNamesOk(d)
  {
    hide NamesOk, CanonicalText, SameNumbers;
    forall k | 0 <= k < |c| ensures c[k].merkleFields == d[k].merkleFields <==> NamesOk(d[k].merkleFields) {
      assert SameSigning(c[k], d[k]);
      CanonicalExactly(c[k].merkleFields, d[k].merkleFields);
    }
  }

  lemma {:induction false} ChainFrom(records: seq<Record>, b: string, k: nat) returns (i: nat)
    requires k < |BatchChain(records, b)|
    ensures i < |records| && records[i] == BatchChain(records, b)[k]
  {
    var n := |records| - 1;
    if k < |BatchChain(records[..n], b)| { i := ChainFrom(records[..n], b, k); } else { i := n; }
  }

  lemma ChainCanonical(h: Hash, records: seq<Record>, b: string)
    requires ValidBlocks(h, records)
    ensures AllCanonical(BatchChain(records, b))
  {
    hide LeavesOk, CalculateBlockHash, ParentOk, CanonicalText;
    var c := BatchChain(records, b);
    forall k | 0 <= k < |c| ensures c[k].canonicalRecord == CanonicalText(c[k].merkleFields) {
      var i := ChainFrom(records, b, k);
      assert BlockOk(h, records[..i], records[i]);
    }
  }

  // Headers and names that a batch's history has been read back from.
  predicate Readable(c: seq<Record>) {
    AllPlain(c) && AllNamesOk(c)
  }

  lemma SameIsReadable(c: seq<Record>, d: seq<Record>)
    requires Readable(c) && SameHistory(c, d) && SameFields(c, d)
    ensures Readable(d)
  {
    hide NoNewline, NamesOk;
    forall k | 0 <= k < |d| ensures Plain(d[k]) && NamesOk(d[k].merkleFields) {
      assert SameNumbers(c[k], d[k]) && SameSigning(c[k], d[k]) && Plain(c[k])
        && c[k].merkleFields == d[k].merkleFields;
    }
  }

  // Two stores that the validation accepts, with one last block hash for a batch: either two hash inputs collide, or
  // their histories of the batch agree, block for block and field for field, exactly if both are readable.
  lemma StoresBind(h: Hash, records: seq<Record>, others: seq<Record>, b: string)
    requires ValidBlocks(h, records) && ValidBlocks(h, others)
    requires Readable(BatchChain(records, b))
    requires LastIn(records, b) >= 0 && LastIn(others, b) >= 0
    requires records[LastIn(records, b)].blockHash == others[LastIn(others, b)].blockHash
    ensures var c, d := BatchChain(records, b), BatchChain(others, b);
      (SameHistory(c, d) && SameFields(c, d) <==> Readable(d)) || exists k: nat :: CollidesAt(h, c, d, k)
  {
    hide ValidBlocks, BatchChain, LastIn, LinkedChain, AllPlain, AllNamesOk, SameHistory, SameFields, HashInput,
      AllCanonical;
    var c, d := BatchChain(records, b), BatchChain(others, b);
    ChainCanonical(h, records, b);
    ChainCanonical(h, others, b);
    ChainLinks(h, records, b, |records|);
    ChainLinks(h, others, b, |others|);
    assert records[..|records|] == records && others[..|others|] == others;
    ChainEnd(records, b);
    ChainEnd(others, b);
    if Readable(d) {
      HistoryBinds(h, c, d);
      if SameHistory(c, d) { FieldsBound(c, d); }
    } else if SameHistory(c, d) && SameFields(c, d) {
      SameIsReadable(c, d);
    }
  }
}
