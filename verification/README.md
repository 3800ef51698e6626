# Snapshot supply chain: a verified model

A Dafny model of the algorithmic cores of a supply-chain system: the private ledger and its routes, the Merkle trees
under every block, the memory allocator of the chain server, the QR code and PNG encoders of the snapshot service, the
Keccak-256 of its gateway payload, and the text codecs between its programs. Every file holds one module.

- **Ledger.** `Chain`, `Progress`, `LedgerRules`, `LedgerCommit`, `LedgerBlock`, `Ledger` and `LedgerRuns` follow a
  commit request from the loaded route to the stored block, and state what every run of commits and route edits keeps.
  `CommitForm` holds the identifiers that a form must name and `BlockFields` the fields that a block records.
  `HistoryBinding` and `LedgerBinding` say what a last block hash commits to.
- **Routes.** `Routes`, `RouteValidity`, `RouteCheck`, `RouteLinear`, `RouteAgreement` and `CheckersAgree` hold four
  programs' walks of one route and their agreement. `RouteMeaning`, `RouteRevision`, `RouteTables`, `RouteStore` and
  `RouteHistory` hold the saving of routes and the immutability of their history. `Sorting` serves both.
- **Merkle trees.** `MerkleSpec` is the duplicate-last rule for any arity. `NTreeMerkle`, `BinaryMerkle`, `MerkleTree`,
  `MerkleUpdate`, `BlockMerkle` and `OneRoot` are its implementations; `MerkleRows`, `MerkleProofText` and
  `CanonicalRecord` are what they share.
- **Allocator.** `PageSpans` and `PageCache`; `Blocks`, `FreeLists`, `BlockBooks`, `BlockSteps`, `BlockMoves` and
  `Allocator`; `SpanLookups` and `AllocatorRuns` for all interleavings; `SpanLists` and `IntrusiveLists` for the
  pointer structures.
- **QR code** (ISO/IEC 18004:2015, sections 6.3 and 7.4 to 7.10). The text: `QrBits`, `QrSegments`, `QrStream`,
  `QrDecode`, `QrEncodeText`. The code words: `GaloisField`, `ReedSolomon`, `ReedSolomonCode`, `ReedSolomonDistance`,
  `Interleaving`, `QrTables`, `BlockErrors`. The symbol: `QrGrid`, `QrFunction`, `QrCapacity`, `QrPatterns`,
  `QrPlacement`, `QrMasking`, `QrRuns`, `QrPenalty`, `QrFormatCode`, `QrVersionCode`. `QrSymbol` puts them together,
  from the text to the symbol and back.
- **PNG.** `PngFormat`, `TinyPngOut`, `PngFile` (RFC 1950 section 2.2, RFC 1951 section 3.2.4, RFC 2083 sections 3.2 and
  3.4).
- **Keccak-256.** `KeccakSpec`, `KeccakConstants`, `KeccakRotation`, `Keccak`, `KeccakBijection`, `KeccakInverse`,
  `KeccakSponge` (FIPS 202 sections 3 to 5, with Keccak's own domain byte).
- **Codecs.** `TextSpaces`, `JsonText`, `JsonTree`, `JsonNumbers`, `JsonPrinted`, `EventJson`, `FlatObject`, `JsonSyntax`
  (RFC 8259, as far as the parsers follow it), `PercentText`, `IpfsReferences`.

`Options` and `Arithmetic` serve several of them.

Code that changes things in place is a class or a method over arrays; its contract ties the new state to a function of
the old one, and the lemmas beside it say what that function means. SHA-256 is a parameter with 64-character results,
and every statement that a hash binds something reads: equal, or here are the two inputs that collide.

Where the code does less than it seems to promise, the model keeps the code and states the condition: the declared PNG
length is right exactly below a size (`TinyPngOut.DeclaredSizeRight`, with a wrapped image in
`TinyPngOut.WrappedImageAccepted`). Of two records with one hash input, one of them without newlines, the headers are
equal exactly if the other has none either (`HistoryBinding.InputExactly`; with newlines every record has a double,
`HistoryBinding.NewlinesAreAmbiguous`). Of two field lists with one canonical text, one of them without colons in its
names, the lists are equal exactly if the other has none either (`CanonicalRecord.CanonicalExactly`; with colons every
list of two or more fields has a double, `CanonicalRecord.ColonsAreAmbiguous`). The server's own field names never have
a colon (`BlockFields.FieldsUsable`), and of a ledger's header fields only the signature could hold a newline
(`LedgerBinding.HeaderPlain`). A list of references survives its text under the condition in
`IpfsReferences.RoundTrip`. Some branches of the source can never be taken, and the contracts say so: the cycle and
connection messages of the route check, the invalid-parent message of the chain validation, the missing-predecessor and
two-blocks messages of the progress evaluation, and the message about a failed Merkle tree.

`dafny verify dfyconfig.toml` checks the project.

## Model

| member | source | states |
|---|---|---|
| LedgerRuns.RunFromEmpty | Code/PrivateChain/Server/server.cpp:5336-5646 | From the empty store, every interleaving of block commits and route edits, drafts included, leaves a store that the stored-chain validation accepts and in which no two blocks of a batch are for the same node, role and account |
| LedgerRuns.Run | Code/PrivateChain/Server/server.cpp:4215-4300 | A run from any kept store keeps it: the chain stays valid, blocks and edges are only appended, and no stored route id changes its owner or its meaning |
| LedgerRuns.ServeCommit | Code/PrivateChain/Server/server.cpp:5336-5646 | One commit request, accepted or refused, only appends to the chain and leaves every stored route as it was |
| LedgerRuns.ServeSave | Code/PrivateChain/Server/server.cpp:4254-4290 | One route request, refused by the route check or by the save or accepted, leaves blocks and edges alone and keeps the route history; revision numbers grow by at most one |
| Ledger.Ledger.Commit | Code/PrivateChain/Server/server.cpp:5336-5646 | A request is committed exactly when its signature is complete, batch and route are found, the checks pass and the database stores the block; then the new block continues the batch with the Merkle record of the request, the pending nodes lose exactly the committed one, the batch is bound to the route and keeps its columns; otherwise nothing changes. On a valid route no progress error is given |
| Ledger.Ledger.Prepare | Code/PrivateChain/Server/server.cpp:5366-5506 | The route is loaded and evaluated; the required node is a node of that route without a block and the parent is the last record of the batch |
| Ledger.Ledger.Evaluate | Code/PrivateChain/Server/server.cpp:1624-1721 | In every kept store an evaluation never finds two blocks for one node; on a valid route it never fails and is complete exactly when no node is pending |
| Ledger.Ledger.Publish | Code/PrivateChain/Server/server.cpp:5636-5646 | Storing the new block keeps the chain valid, keeps the batches table equal to the batches that have blocks and the columns of each batch those that its blocks record, and extends records and edges |
| Ledger.ExtendedIs | Code/PrivateChain/Server/server.cpp:5545-5646 | A block that continues the batch for a node without a block keeps every invariant, removes that node and no other from the pending ones and lowers their number by one; on a valid route it is stamped completed exactly when it was the last |
| Ledger.NextMeans | Code/PrivateChain/Server/server.cpp:1668-1686 | Whatever the route, the parent that an evaluation proposes is the last record of the batch |
| Ledger.Ledger.constructor | Code/PrivateChain/Server/server.cpp:3154-3161 | The empty store keeps all invariants |
| LedgerBlock.CheckCommit | Code/PrivateChain/Server/server.cpp:5395-5506 | The chain of refusals lets a request through exactly when batch, parent, node, account, route and stage fit and the transport or storage details are those that the route asks for |
| LedgerBlock.Project | Code/PrivateChain/Server/server.cpp:5613-5622 | On a valid route the evaluation of the projected records is complete exactly when the new node is the only pending one |
| LedgerBlock.MakeBlock | Code/PrivateChain/Server/server.cpp:5545-5623 | The new block passes every check that the validation makes of a block, carries the request, the route, the node and exactly the Merkle fields of that request, and is stamped completed exactly when its node was the only pending one |
| LedgerBlock.MerkleRecord | Code/PrivateChain/Server/server.cpp:5545-5556 | The Merkle record of a draft is that of its fields and can always be built, so the message about a failed Merkle tree is never given |
| CommitForm.CheckDetails | Code/PrivateChain/Server/server.cpp:5448-5504 | The form passes exactly when a transport names its own shipment, a vehicle or container with its own number and the next node as destination, and a storage its own lot and a zone or rack with its own number |
| CommitForm.NumberedRouteIdentifier | Code/PrivateChain/Server/server.cpp:1549-1577 | The identifier is the prefix with the four-digit number of the node among those of its role along the route, and empty exactly when there is none |
| CommitForm.IdentifiersApart | Code/PrivateChain/Server/server.cpp:1549-1577 | Two nodes of one role on one route never have the same last four characters, so a details check never accepts the number of another stage |
| BlockFields.BlockMerkleFields | Code/PrivateChain/Server/server.cpp:1869-1935 | The built list is the fields of the block in order, with the references sorted |
| BlockFields.FieldsUsable | Code/PrivateChain/Server/server.cpp:1869-1935 | Whatever is recorded, the list is not empty, every name is there and no name has a colon |
| BlockFields.FieldsDetermine | Code/PrivateChain/Server/server.cpp:1869-1935 | Equal lists come from the same batch columns and from blocks and events that agree in everything shown |
| BlockFields.SortReferences | Code/PrivateChain/Server/server.cpp:1903-1910 | The sort gives a reordering sorted by category and content |
| LedgerCommit.CommitKeeps | Code/PrivateChain/Server/server.cpp:5623-5646 | Appending a correct block for a node without one, with its edge, keeps the chain valid, all blocks verified and one block per stage |
| LedgerCommit.LinksGrow | Code/PrivateChain/Server/server.cpp:5625-5646 | After the append every record still has exactly its one parent edge, or none at the start of a batch, and every edge joins two blocks of its batch in order |
| LedgerCommit.CommitPending | Code/PrivateChain/Server/server.cpp:1636-1654 | The nodes without a block after a commit are those before it without the committed node |
| LedgerCommit.ProgressMeans | Code/PrivateChain/Server/server.cpp:1664-1721 | On a valid route: no error, complete exactly when every node has its block, otherwise the next node has none and the parent is the last record of the batch |
| LedgerRules.NeverTwice | Code/PrivateChain/Server/server.cpp:1643-1653 | In a kept store no route, however edited, has two blocks for one node |
| LedgerRules.FreshStage | Code/PrivateChain/Server/server.cpp:1468-1496 | A node without a block is a combination of node, role and account that no earlier block of the batch has, also after accounts were reassigned back and forth |
| LedgerRules.LatestIsLast | Code/PrivateChain/Server/server.cpp:1656-1662 | The counted block with the largest id is the last record of the batch |
| LedgerRules.ParentThere | Code/PrivateChain/Server/server.cpp:1688-1715 | A supplier block is the genesis block of its batch; every other block has its parent, with its hash and a smaller id, among the counted blocks of the batch |
| LedgerRules.StageRole | Code/PrivateChain/Server/server.cpp:1731-1867 | The first stage of a valid route is the supplier and no other stage is |
| LedgerRules.StageLinked | Code/PrivateChain/Server/server.cpp:1688-1715 | On a valid route no committed stage fails the genesis or parent test |
| LedgerRules.Reached | Code/PrivateChain/Server/server.cpp:1664-1721 | The walk over the stages of a valid route ends at a stage without a block or with all done |
| Chain.ValidateStoredChain | Code/PrivateChain/Server/server.cpp:3154-3271 | The validation accepts exactly the stores whose blocks are numbered in order, carry the Merkle record of their fields, continue the last block of their batch, hash correctly and have exactly their parent edges; its invalid-parent message can never be given |
| Chain.CheckBlocks | Code/PrivateChain/Server/server.cpp:3158-3226 | The block loop accepts exactly the valid sequences of blocks |
| Chain.CheckMerkle | Code/PrivateChain/Server/server.cpp:3170-3188 | A record passes exactly when canonical text, root, verified flag and every leaf with its proof are those of its fields |
| Chain.CheckEdgesInto | Code/PrivateChain/Server/server.cpp:3228-3253 | A record passes exactly when every edge into it matches its parent link and there is one such edge, or none for a genesis block |
| Chain.SameLeaves | Code/PrivateChain/Server/server.cpp:3143-3152 | Leaf lists compare equal exactly when they are the same |
| Chain.ParentKnown | Code/PrivateChain/Server/server.cpp:3205-3215 | A block whose parent link matches has a stored parent of its own batch, so the later test cannot fail |
| Progress.EvaluateWorkflowProgress | Code/PrivateChain/Server/server.cpp:1624-1721 | A route without a complete order, or one on which a node has two blocks, gives its error; otherwise the result is complete, names the first stage without a block and the latest block as parent, or reports a wrong link, each exactly when that is the case |
| Progress.WalkStages | Code/PrivateChain/Server/server.cpp:1664-1721 | The stage loop gives the evaluated result, and its message about a missing direct predecessor is never given |
| Progress.CollectBlocks | Code/PrivateChain/Server/server.cpp:1634-1654 | The scan finds a node with two counted blocks exactly when there is one, and otherwise maps every node to its block and every id to its counted block |
| Progress.LatestRecord | Code/PrivateChain/Server/server.cpp:1656-1662 | The scan of an unordered map returns the block with the largest id |
| Progress.WorkflowNodeForRecord | Code/PrivateChain/Server/server.cpp:1468-1496 | A record belongs to the node it names when role and account still agree, and a legacy record to the only node of its role and account |
| Progress.GapOnce | Code/PrivateChain/Server/server.cpp:1664-1686 | There is at most one first stage without a block |
| HistoryBinding.StoresBind | Code/PrivateChain/Server/server.cpp:3127-3226 | If two valid stores agree on the last block hash of a batch and the history in one can be read back, then headers, canonical records and fields agree block for block exactly when the history in the other can be read back too, or two concrete blocks have different hash inputs with one hash; nothing is asked of other batches |
| HistoryBinding.HistoryBinds | Code/PrivateChain/Server/server.cpp:3190-3221 | The same for two linked chains of blocks, one of them without newlines in its headers: a collision, or the same history exactly if the other has none either |
| HistoryBinding.InputInjective | Code/PrivateChain/Server/server.cpp:3127-3141 | For headers without newlines the hash input determines every header field and the canonical record |
| HistoryBinding.InputExactly | Code/PrivateChain/Server/server.cpp:3127-3141 | Two records with one hash input, one of them without newlines: the same header and canonical record exactly if the other has none either |
| HistoryBinding.NewlinesAreAmbiguous | Code/PrivateChain/Server/server.cpp:3127-3141 | With newlines in the signature it does not: every record has a different one with the same hash input |
| HistoryBinding.FieldsBound | Code/PrivateChain/Server/block_merkle.cpp:47-61 | One history, the names of one side without colons: the same fields exactly if the other names have none either |
| HistoryBinding.ChainLinks | Code/PrivateChain/Server/server.cpp:3190-3221 | The records of one batch in a valid store form a chain from GENESIS in which each block carries the hash of the one before |
| HistoryBinding.ChainEnd | Code/PrivateChain/Server/server.cpp:3190-3196 | The chain of a batch ends with its last record |
| LedgerBinding.LedgersBind | Code/PrivateChain/Server/server.cpp:3127-3226 | Two ledgers with one last block hash for a batch, whose digests have no newline and with no newline in the signatures of one: two hash inputs collide, or history, recorded fields and batch columns agree exactly if the other signatures have no newline either |
| LedgerBinding.HeaderPlain | Code/PrivateChain/Server/server.cpp:3127-3141 | In the blocks of a ledger only the signature can bring a newline into a header, and no field name has a colon |
| RouteStore.Store.SaveWorkflowRoute | Code/PrivateChain/Server/db_utils.cpp:2101-2450 | A save succeeds exactly when node ids, edges and accounts are in order and no edge repeats; then the tables change as one save of the chosen id, else not at all; the tables stay sound as long as the owner has a revision left |
| RouteStore.Store.ChooseRoute | Code/PrivateChain/Server/db_utils.cpp:2268-2331 | The id is the one under which the owner already has this meaning, or else the next revision, which is not in use as long as one is left |
| RouteStore.Store.FindRevision | Code/PrivateChain/Server/db_utils.cpp:2276-2322 | An earlier route of the owner with the same meaning is found if there is one, in whatever order the revisions come |
| RouteStore.Store.StoredMeans | Code/PrivateChain/Server/db_utils.cpp:2308-2320 | A stored route is recognised exactly when it means the same |
| RouteStore.Store.LoadRouteComponents | Code/PrivateChain/Server/db_utils.cpp:74-133 | The loaded rows are the stored ones in another order, so the meaning is the same |
| RouteStore.Store.LoadWorkflowRouteById | Code/PrivateChain/Server/db_utils.cpp:1990-2061 | Every stored route can be loaded, with unique named nodes and its stored meaning |
| RouteStore.Store.LoadWorkflowRoute | Code/PrivateChain/Server/db_utils.cpp:2063-2099 | A known batch gives its bound route with its stored meaning, an older batch without one is bound to the default route, no batch gives the default route; the tables change in that one way only |
| RouteStore.Store.EnsureBatchWorkflow | Code/PrivateChain/Server/db_utils.cpp:1941-1988 | A known batch has a stored route afterwards: its own, or the default one if it had none, and no other row changes |
| RouteStore.Store.CurrentRouteId | Code/PrivateChain/Server/db_utils.cpp:2195-2228 | The route in force is always a stored one: the default without a batch, the bound route of a known batch |
| RouteStore.Store.DefaultRouteId | Code/PrivateChain/Server/db_utils.cpp:2198-2211 | The query returns a default route |
| RouteStore.Store.BindBatch | Code/PrivateChain/Server/db_utils.cpp:465-490 | Binding a batch to a stored route changes nothing else and keeps the tables sound |
| RouteStore.Store.constructor | Code/PrivateChain/Server/db_utils.cpp:1811-1938 | The tables of a new installation are sound: one default route, with the four default nodes |
| RouteStore.CheckAccounts | Code/PrivateChain/Server/db_utils.cpp:2147-2186 | The account loop passes exactly when every node has an active account of its role and no account is used twice |
| RouteStore.EdgesKnown | Code/PrivateChain/Server/db_utils.cpp:2117-2128 | The edge loop passes exactly when every edge joins two different nodes of the route |
| RouteStore.RouteNodeIdsAreUnique | Code/PrivateChain/Server/db_utils.cpp:1834-1844 | The loop passes exactly for a non-empty list of uniquely named, labelled nodes with roles |
| RouteStore.InsertEdges | Code/PrivateChain/Server/db_utils.cpp:2410-2427 | The inserts succeed exactly when no edge repeats |
| RouteStore.RowsReordered | Code/PrivateChain/Server/db_utils.cpp:2000-2004 | Rows in another order are as well-formed |
| RouteTables.SavedSound | Code/PrivateChain/Server/db_utils.cpp:2333-2439 | A save keeps the tables sound: one default route that belongs to no batch, distinct named ids, well-formed rows, no two routes of one owner with one meaning, batches bound to stored routes |
| RouteTables.SavedDefault | Code/PrivateChain/Server/db_utils.cpp:2333-2361 | Exactly one route is the default after every save |
| RouteTables.SavedTwins | Code/PrivateChain/Server/db_utils.cpp:2270-2331 | No owner ever has two routes with the same meaning |
| RouteTables.RowKept | Code/PrivateChain/Server/db_utils.cpp:2341-2361 | Every earlier definition keeps its id and owner |
| RouteTables.MeaningKept | Code/PrivateChain/Server/db_utils.cpp:2363-2427 | Deleting and reinserting the rows of a reused id keeps the meaning under every earlier id |
| RouteHistory.SavingKeepsHistory | Code/PrivateChain/Server/db_utils.cpp:2333-2450 | After a save every earlier route id has its owner and its meaning |
| RouteHistory.SavedTwice | Code/PrivateChain/Server/db_utils.cpp:2270-2331 | Saving a route twice gives one id, whatever was saved in between |
| RouteHistory.SameRouteSameId | Code/PrivateChain/Server/db_utils.cpp:2276-2322 | Restoring any earlier route of the owner returns its stored id |
| RouteHistory.RevisionsGrowByOne | Code/PrivateChain/Server/db_utils.cpp:177-206 | A save raises the largest revision number, over all bases, by at most one; so int revisions do not overflow in a run shorter than the largest int |
| RouteRevision.NextRouteRevisionId | Code/PrivateChain/Server/db_utils.cpp:177-206 | The next id is one above the largest revision of the base that is in use, as an int wraps, and as long as it does not wrap it is not in use |
| RouteRevision.Unused | Code/PrivateChain/Server/db_utils.cpp:189-205 | A number above all revisions in use gives an unused id, also beside ids with signs, spaces and leading zeros |
| RouteRevision.RevisionOnce | Code/PrivateChain/Server/db_utils.cpp:181-201 | An id is a revision of one base only |
| RouteMeaning.RouteSemanticsEqual | Code/PrivateChain/Server/db_utils.cpp:135-175 | The comparison of sorted copies never takes two different routes for the same, and it finds every two routes with the same nodes apart from positions and the same edges, in any order, when node ids do not repeat |
| RouteMeaning.SortStrips | Code/PrivateChain/Server/db_utils.cpp:144-151 | Sorting by id does not look at positions |
| Sorting.SortDecides | Code/PrivateChain/Server/db_utils.cpp:144-160 | On elements without ties, sorted copies are equal exactly when the contents are |
| Sorting.SortedOnce | Code/PrivateChain/Server/db_utils.cpp:144-160 | Without ties there is one sorted order |
| Sorting.SortSorted | Code/PrivateChain/Server/db_utils.cpp:144-160 | The sort sorts |
| Routes.OrderedWorkflowNodes | Code/PrivateChain/Server/server.cpp:1523-1547 | The walk succeeds exactly when a complete order exists and returns it; only a route without nodes fails without a message |
| Routes.OrderedUnique | Code/PrivateChain/Server/server.cpp:1523-1547 | A route has at most one whole walk |
| Routes.NoOrder | Code/PrivateChain/Server/server.cpp:1531-1538 | A walk that comes back to an id never ends |
| RouteCheck.WorkflowIsValid | Code/PrivateChain/Server/server.cpp:1731-1867 | The check accepts exactly the valid routes; its messages about a cycle and about several or no outgoing connections are never given |
| RouteCheck.CheckWalk | Code/PrivateChain/Server/server.cpp:1824-1865 | After the degree checks the walk ends, and succeeds exactly when a complete order has consecutive step indexes |
| RouteCheck.NoReturn | Code/PrivateChain/Server/server.cpp:1827-1833 | A walk from the supplier never meets an id again |
| RouteValidity.CheckNodes | Code/PrivateChain/Server/server.cpp:1736-1772 | The node loop passes exactly the lists of distinct, complete nodes with one supplier and one supermarket |
| RouteValidity.CheckEdges | Code/PrivateChain/Server/server.cpp:1774-1794 | The edge loop passes exactly the lists of different edges between different known nodes, with correct degree counts |
| RouteValidity.CheckDegrees | Code/PrivateChain/Server/server.cpp:1796-1822 | The degree tests pass exactly when every node but the supplier has one incoming and every node but the supermarket one outgoing edge |
| RouteAgreement.RouteIsCompleteLinear | Code/Snapshot/src/snapshot.cpp:214-272 | The snapshot service accepts exactly the linear routes: named distinct nodes, one edge fewer, degrees at most one, and a walk from supplier to supermarket over all nodes in step order |
| RouteLinear.ReadEdges | Code/Snapshot/src/snapshot.cpp:229-238 | The edge loop passes exactly when all edges are known and all degrees at most one, and keeps the successor of every node |
| RouteLinear.WalkLinear | Code/Snapshot/src/snapshot.cpp:249-262 | The walk succeeds exactly when a complete order in step order exists |
| RouteLinear.ReadNodes | Code/Snapshot/src/snapshot.cpp:223-228 | The node loop passes exactly for named distinct ids |
| RouteAgreement.SupplierRoutePathNodeIds | Code/PrivateChain/Server/db_utils.cpp:13-48 | The result is the set of ids on the way along first known edges from supplier to supermarket, and empty exactly when that way does not arrive |
| CheckersAgree.AllWalks | Code/PrivateChain/Server/db_utils.cpp:13-48 | When the administration check accepts a route, the server order, the snapshot check and the connected set all succeed on the same path through every node; and whenever the snapshot check accepts, the server order is that path |
| CheckersAgree.ValidIsLinear | Code/Snapshot/src/snapshot.cpp:214-272 | Every valid route is linear |
| CheckersAgree.EdgeCount | Code/Snapshot/src/snapshot.cpp:216-218 | A route that passes the degree checks has one edge fewer than nodes |
| CheckersAgree.ValidIsReached | Code/PrivateChain/Server/db_utils.cpp:27-47 | On a valid route the connected path visits every node |
| BlockMerkle.BuildBlockMerkle | Code/PrivateChain/Server/block_merkle.cpp:69-109 | Fields that exist and have names always give the canonical text, the root of the rule and, for every field, a proof that was checked and accepted; so the record is always verified |
| BlockMerkle.VerifyProof | Code/PrivateChain/Server/block_merkle.cpp:18-44 | A proof text is accepted exactly when it climbs to the root of a non-empty tree |
| BlockMerkle.BuildMerkleDisplayTree | Code/PrivateChain/Server/server.cpp:2709-2756 | The display tree has the hash of the rule, every inner node hashes its two children, and the root is verified exactly when all leaves are |
| BlockMerkle.BuildPublicRoot | Code/PublicChain/scripts/publication.js:137-160 | The published root is the prefixed root of the rule, and an empty list is refused |
| OneRoot.SameRoot | Code/PublicChain/scripts/publication.js:137-160 | For every list of named fields the block tree, the N-ary tree with two children, the display tree and the published root are one root |
| CanonicalRecord.CanonicalRecordFromFields | Code/PrivateChain/Server/block_merkle.cpp:47-61 | The loop prints the length-prefixed text |
| CanonicalRecord.CanonicalInjective | Code/PrivateChain/Server/block_merkle.cpp:47-61 | Colon-free names: the canonical text determines the fields |
| CanonicalRecord.CanonicalExactly | Code/PrivateChain/Server/block_merkle.cpp:47-61 | Two lists with one text, the names of one without colons: the same list exactly if the other names have none either |
| CanonicalRecord.ColonsAreAmbiguous | Code/PrivateChain/Server/block_merkle.cpp:47-61 | With colons in names it does not: for any two fields and any rest, the field that swallows the first has the same text |
| CanonicalRecord.FieldSplit | Code/PrivateChain/Server/block_merkle.cpp:12-16 | A field and what follows it can be told apart in one way |
| MerkleSpec.PathClimbs | Code/MerkleTreeNTree/src/NTreeMerkle.cpp:113-170 | The path of any leaf climbs to the root, for every arity and through padding at every level |
| MerkleSpec.ClimbBinds | Code/MerkleTreeNTree/src/NTreeMerkle.cpp:248-276 | Two climbs with the same positions to one hash start at the same hash or show a collision at one level |
| NTreeMerkle.Tree.Build | Code/MerkleTreeNTree/src/NTreeMerkle.cpp:79-188 | The tree built level by level has the root of the rule; every child, padding included, is linked to its parent by its place, and the parent has that very child at that place |
| NTreeMerkle.Tree.BuildLevel | Code/MerkleTreeNTree/src/NTreeMerkle.cpp:116-170 | One level of parents: its hashes are the next level of the rule, and every child is linked to its own group |
| NTreeMerkle.Tree.GenerateProof | Code/MerkleTreeNTree/src/NTreeMerkle.cpp:201-234 | The proof read off the parent links is the path of the rule, and only an index out of range is refused |
| NTreeMerkle.Tree.VerifyProof | Code/MerkleTreeNTree/src/NTreeMerkle.cpp:236-280 | A proof is accepted exactly when its parts hash to its root and the root is the tree's |
| NTreeMerkle.ProofsVerify | Code/MerkleTreeNTree/src/NTreeMerkle.cpp:201-280 | Every generated proof verifies, for every leaf list, index and arity of at least two |
| NTreeMerkle.ProofsBind | Code/MerkleTreeNTree/src/NTreeMerkle.cpp:236-280 | Two accepted proofs with one root and the same positions have the same leaf value or show a collision |
| NTreeMerkle.JoinHashes | Code/MerkleTreeNTree/src/NTreeMerkle.cpp:17-25 | A group is joined in child order |
| MerkleRows.PairsAreNextLevel | Code/PrivateChain/MerkleTree/MerkleTree_Build.cpp:33-59 | Writing out a duplicate and pairing is the duplicate-last rule |
| MerkleRows.LevelAtRoot | Code/PrivateChain/MerkleTree/MerkleTree_Build.cpp:33-61 | Every level has the root of the whole |
| MerkleRows.PairUpdate | Code/PrivateChain/MerkleTree/MerkleTree_Build.cpp:145-165 | Changing one hash of a level changes one parent, the duplicate included |
| MerkleProofText.ProofTextAccepted | Code/PrivateChain/MerkleTree/MerkleTree_Proof.cpp:5-102 | Every proof text the tree writes is accepted |
| MerkleProofText.AcceptedTextsBind | Code/PrivateChain/MerkleTree/MerkleTree_Proof.cpp:58-102 | Two accepted proof texts with the same directions carry the same leaf hash or show a collision at one entry |
| BinaryMerkle.BuildFromBlocks | Code/PrivateChain/MerkleTree/MerkleTree_Build.cpp:16-62 | The pointer tree over the blocks: rows with mutual parent and child links, duplicates marked, and the hashes of the rule |
| BinaryMerkle.CloneHashNode | Code/PrivateChain/MerkleTree/MerkleTree_Build.cpp:6-14 | A duplicate has the hash and nothing else of its source |
| BinaryMerkle.PairNext | Code/PrivateChain/MerkleTree/MerkleTree_Build.cpp:38-56 | Two neighbours get a parent with their joint hash that knows them and is known to them |
| MerkleTree.FindLeaf | Code/PrivateChain/MerkleTree/MerkleTree_Build.cpp:64-73 | The search below a node finds the leaf of an index exactly when it is below that node |
| MerkleTree.MerkleTree.Append | Code/PrivateChain/MerkleTree/MerkleTree_Build.cpp:119-138 | A block is appended and the tree rebuilt, unless the block is empty |
| MerkleTree.MerkleTree.GetRootHash | Code/PrivateChain/MerkleTree/MerkleTree_Core.cpp:14-17 | The root hash is the root of the rule over the blocks |
| MerkleTree.MerkleTree.ProverBlock | Code/PrivateChain/MerkleTree/MerkleTree_Proof.cpp:5-55 | The proof text is the leaf's own entry and the siblings up to the root |
| MerkleTree.MerkleTree.Verify | Code/PrivateChain/MerkleTree/MerkleTree_Proof.cpp:58-102 | A proof text verifies exactly when it climbs to the root of a non-empty tree |
| MerkleUpdate.ChangeLeafHash | Code/PrivateChain/MerkleTree/MerkleTree_Build.cpp:140-166 | After one leaf hash changes, the refreshed tree is the tree of the changed leaves, duplicates included, with no node added or relinked |
| MerkleUpdate.UpdateHash | Code/PrivateChain/MerkleTree/MerkleTree_Build.cpp:140-166 | The climb refreshes level after level until the whole tree fits the changed leaf |
| MerkleUpdate.UpdateOne | Code/PrivateChain/MerkleTree/MerkleTree_Build.cpp:145-165 | One step of the climb moves the change one level up |
| MerkleUpdate.RefreshDuplicate | Code/PrivateChain/MerkleTree/MerkleTree_Build.cpp:147-159 | The duplicate at the end of an odd row follows its original |
| MerkleUpdate.BuiltIsUpdated | Code/PrivateChain/MerkleTree/MerkleTree_Build.cpp:16-62 | A freshly built tree fits its leaves |
| AllocatorRuns.Run | Code/PrivateChain/ConMemPool/concurrency_mempool.cpp:353-570 | Every interleaving of any number of threads keeps the books of all three layers, and live blocks are disjoint from each other and from large objects; a step is a stretch of a thread with at most one visit to the page cache, so other threads may come between the lookup of a span and its use, and between two blocks of a returned chain |
| AllocatorRuns.Step | Code/PrivateChain/ConMemPool/concurrency_mempool.cpp:353-570 | One step of one thread keeps the books, and what every thread has looked up and not used yet stays right |
| AllocatorRuns.OnePlaceEach | Code/PrivateChain/ConMemPool/concurrency_mempool.cpp:353-446 | Every whole block of a central span is in exactly one list, once, or in a caller's hands and in no list |
| AllocatorRuns.LiveBlocksApart | Code/PrivateChain/ConMemPool/concurrency_mempool.cpp:465-490 | Two blocks in callers' hands do not overlap |
| AllocatorRuns.LiveApartFromLarge | Code/PrivateChain/ConMemPool/concurrency_mempool.cpp:465-490 | A block and a large object do not overlap |
| AllocatorRuns.FreeCountIsUsable | Code/PrivateChain/ConMemPool/concurrency_mempool.cpp:374-400 | free_count is the number of usable nodes of a span's list; below them lies at most one truncated node, exactly when the block size does not divide the span |
| AllocatorRuns.TruncatedStays | Code/PrivateChain/ConMemPool/concurrency_mempool.cpp:377-400 | The truncated node stays at the bottom of its own list and is in no caller's hands |
| AllocatorRuns.ThreadListsShort | Code/PrivateChain/ConMemPool/concurrency_mempool.cpp:492-511 | No list of a thread is longer than two batches |
| AllocatorRuns.AllocateSmall | Code/PrivateChain/ConMemPool/concurrency_mempool.cpp:465-490 | An allocation returns a block that was in nobody's hands and is large enough, and adds it alone to the live blocks; or the thread has fetched a batch it still has to splice |
| AllocatorRuns.FinishSmall | Code/PrivateChain/ConMemPool/concurrency_mempool.cpp:527-543 | After the splice the allocation returns a block that was in nobody's hands |
| AllocatorRuns.FreeSmall | Code/PrivateChain/ConMemPool/concurrency_mempool.cpp:492-511 | A free takes exactly the freed block from the live blocks |
| AllocatorRuns.FinishReturn | Code/PrivateChain/ConMemPool/concurrency_mempool.cpp:553-569 | A thread whose chain is returned goes on, and the live blocks stay |
| AllocatorRuns.ReturnBlock | Code/PrivateChain/ConMemPool/concurrency_mempool.cpp:426-445 | With the span that was looked up earlier, one block of the chain goes back and the live blocks stay; chains and lookups of other threads are as they were |
| AllocatorRuns.ReturnAll | Code/PrivateChain/ConMemPool/concurrency_mempool.cpp:404-446 | Without interruption the whole chain is returned and the live blocks stay |
| SpanLookups.KnownStays | Code/PrivateChain/ConMemPool/concurrency_mempool.cpp:426-445 | What a thread found under the page cache lock is still the span of its block or object after any step of another thread |
| SpanLookups.KnownReleased | Code/PrivateChain/ConMemPool/concurrency_mempool.cpp:495-500 | Releasing a large object leaves the lookups of all other threads right |
| Allocator.Allocator.AllocateBatch | Code/PrivateChain/ConMemPool/concurrency_mempool.cpp:353-402 | A batch is the smaller of the free blocks and the batch size from the front of one span, an existing one with free blocks or else a new one |
| Allocator.Allocator.FindSpan | Code/PrivateChain/ConMemPool/concurrency_mempool.cpp:360-368 | A span with free blocks is found when there is one |
| Allocator.Allocator.NewCentralSpan | Code/PrivateChain/ConMemPool/concurrency_mempool.cpp:369-390 | A new span of the right size is threaded and listed, and nothing else changes |
| Allocator.Allocator.TakeBatch | Code/PrivateChain/ConMemPool/concurrency_mempool.cpp:392-401 | The first nodes of the span's list move to the thread, and free_count drops by as many |
| Allocator.Allocator.FreeBatch | Code/PrivateChain/ConMemPool/concurrency_mempool.cpp:404-446 | Every block of the chain goes back to its own span, and each span that has all its blocks back goes to the page cache |
| Allocator.Allocator.ReturnOne | Code/PrivateChain/ConMemPool/concurrency_mempool.cpp:426-445 | One block goes back to its own span |
| Allocator.Allocator.LookUp | Code/PrivateChain/ConMemPool/concurrency_mempool.cpp:426-430 | The lookup of a block of a chain gives its own span |
| Allocator.Allocator.LookUpLarge | Code/PrivateChain/ConMemPool/concurrency_mempool.cpp:497-497 | The lookup of a large object gives its span |
| Allocator.Allocator.ReleaseLarge | Code/PrivateChain/ConMemPool/concurrency_mempool.cpp:498-498 | and the span goes back to the page cache |
| Allocator.Allocator.GiveUp | Code/PrivateChain/ConMemPool/concurrency_mempool.cpp:437-442 | A span with all its blocks back leaves the central cache |
| Allocator.Allocator.AllocateLocal | Code/PrivateChain/ConMemPool/concurrency_mempool.cpp:475-489 | A block from the thread's own list |
| Allocator.Allocator.FreeLocal | Code/PrivateChain/ConMemPool/concurrency_mempool.cpp:492-511 | A freed block goes onto the thread's list, and a batch is cut off when it has become longer than two batches |
| Allocator.Allocator.Splice | Code/PrivateChain/ConMemPool/concurrency_mempool.cpp:527-543 | A fetched batch becomes the thread's list |
| Allocator.Allocator.AllocateLarge | Code/PrivateChain/ConMemPool/concurrency_mempool.cpp:469-474 | A large object gets its own span of enough pages, and only more pages than a list holds fail |
| Allocator.Allocator.FreeLarge | Code/PrivateChain/ConMemPool/concurrency_mempool.cpp:495-500 | A large object's span goes back to the page cache |
| Blocks.ThreadNodes | Code/PrivateChain/ConMemPool/concurrency_mempool.cpp:377-386 | The loop threads the nodes of a span in address order |
| Blocks.AllNodesAre | Code/PrivateChain/ConMemPool/concurrency_mempool.cpp:377-386 | The threaded nodes are exactly the block starts inside the span, each once |
| Blocks.TailIsLast | Code/PrivateChain/ConMemPool/concurrency_mempool.cpp:377-386 | Only the last node can be truncated |
| Blocks.NodesApart | Code/PrivateChain/ConMemPool/concurrency_mempool.cpp:377-386 | Different nodes of a span do not overlap |
| IntrusiveLists.Memory.Thread | Code/PrivateChain/ConMemPool/concurrency_mempool.cpp:377-386 | Threading through the first words of the blocks makes the list of the nodes in order and writes nowhere else |
| IntrusiveLists.Memory.Push | Code/PrivateChain/ConMemPool/concurrency_mempool.cpp:504-506 | Pushing a block onto a list threaded through memory |
| IntrusiveLists.Memory.TakeBatch | Code/PrivateChain/ConMemPool/concurrency_mempool.cpp:392-400 | Cutting a list after n nodes gives the first n and the rest |
| IntrusiveLists.Memory.Splice | Code/PrivateChain/ConMemPool/concurrency_mempool.cpp:533-542 | Hanging one list behind another |
| IntrusiveLists.Memory.Length | Code/PrivateChain/ConMemPool/concurrency_mempool.cpp:515-524 | Counting a list |
| SpanLists.SpanList.PushBack | Code/PrivateChain/ConMemPool/concurrency_mempool.cpp:121-127 | Pushing a span at the end of the doubly linked list |
| SpanLists.SpanList.RemoveSpan | Code/PrivateChain/ConMemPool/concurrency_mempool.cpp:135-141 | Unlinking a span from anywhere |
| SpanLists.SpanList.PopFront | Code/PrivateChain/ConMemPool/concurrency_mempool.cpp:128-133 | Taking the first span, or null |
| PageCache.PageCache.AllocatePages | Code/PrivateChain/ConMemPool/concurrency_mempool.cpp:181-224 | Exact fit, split of a larger span or new pages: the pages stay tiled by disjoint spans, the page map follows, free spans are in exactly the list of their size, and exactly the returned span becomes used |
| PageCache.PageCache.FreePages | Code/PrivateChain/ConMemPool/concurrency_mempool.cpp:226-239 | A freed span is merged to the left and then to the right as far as its free neighbours fit, and listed under its size; a span that is not used changes nothing |
| PageCache.PageCache.MergeSpan | Code/PrivateChain/ConMemPool/concurrency_mempool.cpp:256-292 | Left then right merging, with the page map pointing to the survivor |
| PageCache.PageCache.MergeLeft | Code/PrivateChain/ConMemPool/concurrency_mempool.cpp:258-274 | A free left neighbour that fits absorbs the span |
| PageCache.PageCache.MergeRight | Code/PrivateChain/ConMemPool/concurrency_mempool.cpp:276-291 | A free right neighbour that fits is absorbed |
| PageCache.PageCache.NewSpan | Code/PrivateChain/ConMemPool/concurrency_mempool.cpp:56-77 | The span pool hands out a span that is not in use |
| PageSpans.TakeTiles | Code/PrivateChain/ConMemPool/concurrency_mempool.cpp:185-192 | Marking a listed span used keeps the tiling |
| PageSpans.CutTiles | Code/PrivateChain/ConMemPool/concurrency_mempool.cpp:194-212 | A split keeps the tiling and maps the cut pages to the new span |
| PageSpans.CutLists | Code/PrivateChain/ConMemPool/concurrency_mempool.cpp:194-212 | After a split the remainder is in the list of its new size |
| PageSpans.ObtainTiles | Code/PrivateChain/ConMemPool/concurrency_mempool.cpp:214-223 | Pages from the system extend the tiling |
| PageSpans.AbsorbTiles | Code/PrivateChain/ConMemPool/concurrency_mempool.cpp:263-291 | A merge keeps the tiling and leaves no page mapped to the deleted span |
| PageSpans.AbsorbLists | Code/PrivateChain/ConMemPool/concurrency_mempool.cpp:263-291 | A merge takes the absorbed span from its list |
| PageSpans.PushKeeps | Code/PrivateChain/ConMemPool/concurrency_mempool.cpp:236-238 | A released span is listed under its size |
| GaloisField.ReedSolomonMultiply | Code/SnapshotQRCode/qrcodegen.c:405-413 | The Russian peasant loop computes the product of the field with modulus 0x11D |
| GaloisField.Commutative | Code/SnapshotQRCode/qrcodegen.c:405-413 | The product is commutative |
| GaloisField.Associative | Code/SnapshotQRCode/qrcodegen.c:405-413 | The product is associative |
| GaloisField.Distributive | Code/SnapshotQRCode/qrcodegen.c:405-413 | The product distributes over exclusive or |
| GaloisField.NoZeroDivisors | Code/SnapshotQRCode/qrcodegen.c:405-413 | A product is zero only with a zero factor |
| ReedSolomon.ComputeDivisor | Code/SnapshotQRCode/qrcodegen.c:361-382 | The in-place loop leaves the coefficients below the leading one of the generator polynomial, and nothing else changes |
| ReedSolomon.ComputeRemainder | Code/SnapshotQRCode/qrcodegen.c:387-401 | The in-place division leaves the remainder, also when scratch and data share an array |
| ReedSolomonCode.GeneratorIsProduct | Code/SnapshotQRCode/qrcodegen.c:361-382 | The generator is the product of (x - 2^i) for i below its degree |
| ReedSolomonCode.DivisionIdentity | Code/SnapshotQRCode/qrcodegen.c:387-401 | Data followed by its remainder is a multiple of the generator |
| ReedSolomonCode.RemainderCompletesCodeword | Code/SnapshotQRCode/qrcodegen.c:387-401 | Data followed by its remainder vanishes at every 2^i below the degree |
| ReedSolomonCode.RemainderIsOnlyCheckWord | Code/SnapshotQRCode/qrcodegen.c:387-401 | and the remainder is the only such check word |
| ReedSolomonCode.TooManyZeros | Code/SnapshotQRCode/qrcodegen.c:361-401 | A polynomial of at most 255 coefficients with as many of these roots is zero |
| ReedSolomonCode.NoSmallOrder | Code/SnapshotQRCode/qrcodegen.c:361-382 | 2 has order 255 in the field, so all its powers below that are different |
| ReedSolomonDistance.CodewordWeight | Code/SnapshotQRCode/qrcodegen.c:387-401 | A code word other than zero has more nonzero bytes than check bytes, wherever they are |
| ReedSolomonDistance.MinimumDistance | Code/SnapshotQRCode/qrcodegen.c:387-401 | Two code words of one block differ in more bytes than there are check bytes |
| ReedSolomonDistance.DataDetermined | Code/SnapshotQRCode/qrcodegen.c:387-401 | At most half as many wrong bytes as check bytes still leave one data for a block |
| BlockErrors.BlockFits | Code/SnapshotQRCode/qrcodegen.c:297-356 | Every block of every version and level is short enough for that |
| BlockErrors.DataSurvives | Code/SnapshotQRCode/qrcodegen.c:297-325 | Whatever is read in place of the code words of a symbol, at most one data stream is that close in every block |
| Interleaving.AddEccAndInterleave | Code/SnapshotQRCode/qrcodegen.c:297-325 | The result holds every data and check word at its interleaved place, and the data is not disturbed by the scratch area behind it |
| Interleaving.PosLocate | Code/SnapshotQRCode/qrcodegen.c:305-324 | Every index of the result is the place of one word |
| Interleaving.LocatePos | Code/SnapshotQRCode/qrcodegen.c:305-324 | and every word has its place |
| Interleaving.InterleavingRoundTrip | Code/SnapshotQRCode/qrcodegen.c:297-325 | De-interleaving gives back the data, and every block with its check words is a codeword |
| Interleaving.PlaceBlock | Code/SnapshotQRCode/qrcodegen.c:311-323 | The two copy loops of a block finish exactly the places of that block |
| QrTables.LayoutValid | Code/SnapshotQRCode/qrcodegen.c:330-356 | For every version and level the tables give a consistent layout |
| QrGrid.SetModuleBounded | Code/SnapshotQRCode/qrcodegen.c:781-792 | Setting a module changes that module only |
| QrGrid.GetModuleBounded | Code/SnapshotQRCode/qrcodegen.c:772-777 | Reading a module |
| QrPlacement.ScanIsBijection | Code/SnapshotQRCode/qrcodegen.c:579-601 | The zigzag visits every module outside column 6 exactly once |
| QrPlacement.FreeCellsExact | Code/SnapshotQRCode/qrcodegen.c:579-601 | The cells it writes are the ones that were light before |
| QrPlacement.FreeCellsDistinct | Code/SnapshotQRCode/qrcodegen.c:579-601 | no cell twice |
| QrPlacement.DrawCodewords | Code/SnapshotQRCode/qrcodegen.c:579-603 | All bits are drawn, each into its own cell; the final assertion holds |
| QrPlacement.DrawnReadsBack | Code/SnapshotQRCode/qrcodegen.c:579-603 | Reading the cells again gives the codewords |
| QrMasking.ApplyMask | Code/SnapshotQRCode/qrcodegen.c:610-633 | Masking inverts exactly the modules of the pattern that are no function modules |
| QrMasking.ChooseMask | Code/SnapshotQRCode/qrcodegen.c:268-286 | The search ends on the symbol that was scored for the first mask of least penalty; a given mask is used as it is |
| QrPenalty.GetPenaltyScore | Code/SnapshotQRCode/qrcodegen.c:638-710 | The score is the sum over all rows and columns of the long runs and the finder-like patterns, the blocks of one colour and the imbalance; both assertions of the source hold |
| QrPenalty.ScoreLine | Code/SnapshotQRCode/qrcodegen.c:643-685 | One pass with the last seven runs scores the runs of the line and the patterns in the line with a light border of the width of the symbol on both sides |
| QrPenalty.FinderPenaltyCountPatterns | Code/SnapshotQRCode/qrcodegen.c:718-725 | The history counts the patterns that end with the last run, and no run is longer than the source asserts |
| QrPenalty.FinderPenaltyTerminateAndCount | Code/SnapshotQRCode/qrcodegen.c:730-738 | The last run and the border behind it end the line |
| QrPenalty.ImbalanceIsLeast | Code/SnapshotQRCode/qrcodegen.c:706-708 | The number of steps is the smallest k with (45 - 5k)% <= dark modules <= (55 + 5k)%, and at most nine |
| QrPenalty.PenaltyBounded | Code/SnapshotQRCode/qrcodegen.c:708-710 | No symbol exceeds the asserted bound |
| QrRuns.RunsRebuild | Code/SnapshotQRCode/qrcodegen.c:643-685 | The runs of a line describe it, and only the first may be empty |
| QrRuns.RunsUnique | Code/SnapshotQRCode/qrcodegen.c:643-685 | and no other such runs do |
| QrRuns.FindersBounded | Code/SnapshotQRCode/qrcodegen.c:718-725 | Every pattern has four modules that no earlier pattern has |
| QrMasking.UnmaskRestores | Code/SnapshotQRCode/qrcodegen.c:610-633 | Masking twice restores every module but the format area |
| QrMasking.FinishedSymbolReadsBack | Code/SnapshotQRCode/qrcodegen.c:579-633 | Unmasking the finished symbol and rereading it gives exactly the codewords |
| QrMasking.ComputeFormatBits | Code/SnapshotQRCode/qrcodegen.c:519-528 | The shift loop computes the format word |
| QrMasking.DrawFormatBits | Code/SnapshotQRCode/qrcodegen.c:519-546 | Both copies of the format bits and the dark module are drawn, and nothing else |
| QrMasking.FormatDataRecovered | Code/SnapshotQRCode/qrcodegen.c:522-528 | Level and mask can be read off the format bits |
| QrFormatCode.FormatIsMultiple | Code/SnapshotQRCode/qrcodegen.c:522-528 | The unmasked format word is a multiple of the generator 0x537 |
| QrFormatCode.FormatWordsApart | Code/SnapshotQRCode/qrcodegen.c:522-528 | Words of different levels or masks differ in at least seven bits |
| QrFormatCode.ThreeErrorsCorrected | Code/SnapshotQRCode/qrcodegen.c:522-546 | A word read with at most three wrong bits still determines level and mask |
| QrVersionCode.VersionIsMultiple | Code/SnapshotQRCode/qrcodegen.c:498-505 | A version word is the multiple of 0x1F25 whose upper six bits are the version |
| QrVersionCode.VersionWordsApart | Code/SnapshotQRCode/qrcodegen.c:498-505 | Words of different versions differ in at least eight bits |
| QrVersionCode.VersionBits | Code/SnapshotQRCode/qrcodegen.c:498-505 | The loop computes the version word; the source's assertion about its length holds |
| QrFunction.GetAlignmentPatternPositions | Code/SnapshotQRCode/qrcodegen.c:553-564 | The centres of the alignment patterns, in ascending order |
| QrFunction.InitializeFunctionModules | Code/SnapshotQRCode/qrcodegen.c:421-453 | Exactly the modules of the function patterns are dark |
| QrFunction.FillRectangle | Code/SnapshotQRCode/qrcodegen.c:566-571 | A rectangle is added to the dark ones |
| QrCapacity.RoomForCodewords | Code/SnapshotQRCode/qrcodegen.c:579-603 | The function patterns of every version leave room for all its code words, which drawCodewords asserts at its end |
| QrCapacity.LightCount | Code/SnapshotQRCode/qrcodegen.c:342-356 | They leave at least the number of modules that the size formula gives |
| QrCapacity.CoverArea | Code/SnapshotQRCode/qrcodegen.c:342-356 | The size formula takes away the area of the patterns |
| QrPatterns.DrawLightFunctionModules | Code/SnapshotQRCode/qrcodegen.c:458-515 | On dark function modules the pattern colours come out: timing, finder and alignment rings and both version blocks, whatever is drawn over what; no other module changes |
| QrPatterns.AlignColour | Code/SnapshotQRCode/qrcodegen.c:481-491 | No alignment pattern touches another, a finder pattern or a version block, and its centre no light timing module |
| QrSymbol.SymbolWords | Code/SnapshotQRCode/qrcodegen.c:262-286 | Unmasking the finished symbol and reading it gives the code words, for any reader with the function modules of the version |
| QrSymbol.FinishSymbol | Code/SnapshotQRCode/qrcodegen.c:261-287 | From the data bits to the symbol: the format is shown twice, the patterns have their colours, an automatic mask is the first of least penalty, and every reader gets the data stream back |
| QrSymbol.EncodeTextSymbol | Code/SnapshotQRCode/qrcodegen.c:132-290 | A text is encoded exactly when it can be stored and some version fits; the version is the smallest that does and the level the highest; and every reader that draws its own function modules reads the text from the finished symbol |
| QrBits.AppendBitsToBuffer | Code/SnapshotQRCode/qrcodegen.c:188-192 | The low bits of a value are appended, most significant first, and earlier bits stay |
| QrSegments.MakeSegment | Code/SnapshotQRCode/qrcodegen.c:893-957 | The digit and pair groups are the packed digits, in exactly the predicted number of bits |
| QrSegments.PackRoundTrip | Code/SnapshotQRCode/qrcodegen.c:893-957 | Packed groups are read back, whatever follows |
| QrSegments.PackLength | Code/SnapshotQRCode/qrcodegen.c:851-874 | The packed length is the calculated segment length |
| QrSegments.CharsRoundTrip | Code/SnapshotQRCode/qrcodegen.c:927-957 | Character values give back the characters |
| QrStream.GetTotalBits | Code/SnapshotQRCode/qrcodegen.c:990-1008 | The total is the sum of all fields, or -1 when a count or the sum is too large |
| QrStream.ChooseVersion | Code/SnapshotQRCode/qrcodegen.c:213-224 | The chosen version is the smallest in range that fits |
| QrStream.BoostLevel | Code/SnapshotQRCode/qrcodegen.c:227-231 | The boosted level is the highest that fits and never below the requested one |
| QrStream.EncodeData | Code/SnapshotQRCode/qrcodegen.c:207-259 | Version, level and the whole bit stream: segments, terminator, byte alignment, alternating pads; or no version fits and the size byte is zero |
| QrStream.AppendTerminator | Code/SnapshotQRCode/qrcodegen.c:248-255 | Up to four zero bits and the alignment, exactly up to a byte within the capacity |
| QrStream.AppendPads | Code/SnapshotQRCode/qrcodegen.c:257-259 | 0xEC and 0x11 in turn up to the capacity |
| QrDecode.SegmentRoundTrip | Code/SnapshotQRCode/qrcodegen.c:235-244 | A reader of mode, count and payload recovers a segment |
| QrDecode.StreamRoundTrip | Code/SnapshotQRCode/qrcodegen.c:233-259 | It recovers every data stream and stops at the terminator |
| QrEncodeText.MakeTextSegment | Code/SnapshotQRCode/qrcodegen.c:138-162 | The segment is in the smallest mode of the three and says the text; it is refused exactly when its length overflows or the buffer is too small |
| QrEncodeText.EncodeText | Code/SnapshotQRCode/qrcodegen.c:132-167 | The data bits: a text is encoded exactly when it can be stored and some version fits; the version is the smallest and the level the highest that fit, and the stream reads back as the text |
| Keccak.KeccakPermutation | Code/Snapshot/src/gateway_payload.cpp:53-96 | The in-place permutation is Keccak-f[1600] of FIPS 202 |
| Keccak.ThetaInPlace | Code/Snapshot/src/gateway_payload.cpp:57-71 | Column parities and their neighbours: theta |
| Keccak.RhoPiInPlace | Code/Snapshot/src/gateway_payload.cpp:73-80 | The walk that carries one lane along is rho followed by pi |
| Keccak.ChiInPlace | Code/Snapshot/src/gateway_payload.cpp:82-93 | Row by row with a copy: chi |
| KeccakSpec.WalkIsPermutation | Code/Snapshot/src/gateway_payload.cpp:35-38 | The walk meets every lane but the first once |
| KeccakSpec.WalkIsRhoPi | Code/Snapshot/src/gateway_payload.cpp:30-38 | Its sources and distances are those of pi and rho |
| KeccakSpec.WalkIsOrbit | Code/Snapshot/src/gateway_payload.cpp:30-38 | The walk is the one by which FIPS 202 section 3.2.2 defines rho, with its triangular offsets |
| KeccakConstants.RoundConstantIs | Code/Snapshot/src/gateway_payload.cpp:15-28 | The table lists the words that FIPS 202 section 3.2.5 defines by a shift register |
| KeccakSpec.TriangularOffset | Code/Snapshot/src/gateway_payload.cpp:30-33 | The rotation distances are the triangular numbers modulo 64 |
| KeccakBijection.PermutationInjective | Code/Snapshot/src/gateway_payload.cpp:53-96 | The permutation merges no two states |
| KeccakBijection.RoundInjective | Code/Snapshot/src/gateway_payload.cpp:55-95 | nor does a round |
| KeccakInverse.RoundIsBijection | Code/Snapshot/src/gateway_payload.cpp:55-95 | A round has an inverse on both sides, so every state is the image of exactly one |
| KeccakInverse.PermutationIsBijection | Code/Snapshot/src/gateway_payload.cpp:53-96 | and so has the permutation |
| KeccakBijection.ThetaInjective | Code/Snapshot/src/gateway_payload.cpp:57-71 | nor theta |
| KeccakBijection.ChiInjective | Code/Snapshot/src/gateway_payload.cpp:82-93 | nor chi |
| KeccakSponge.Keccak256Digest | Code/Snapshot/src/gateway_payload.cpp:167-197 | Absorbing block by block and padding the tail is absorbing the whole padded message, for every length, a tail of 135 bytes included |
| KeccakSponge.PadInjective | Code/Snapshot/src/gateway_payload.cpp:182-185 | Different messages have different padded messages |
| KeccakSponge.LaneRoundTrip | Code/Snapshot/src/gateway_payload.cpp:45-51 | Bytes survive the little-endian lane |
| TinyPngOut.Writer.Init | Code/SnapshotQRCode/TinyPngOut.c:35-97 | The status and the written header, or as much of it as the output takes; when the stream size fits 32 bits and the header the output, the writer starts valid |
| TinyPngOut.DeclaredSizeRight | Code/SnapshotQRCode/TinyPngOut.c:42-60 | The declared IDAT length is right exactly when the stream size fits 32 bits |
| TinyPngOut.WrappedImageAccepted | Code/SnapshotQRCode/TinyPngOut.c:42-60 | A concrete image whose stream size wraps is accepted with a declared length that is too small |
| TinyPngOut.Writer.Write | Code/SnapshotQRCode/TinyPngOut.c:100-183 | Pixels are taken up to the end of the image and a surplus is refused after filling it; the call fails exactly when the output is too small for the file of the pixels so far, and the output holds that file or as much of it as it takes |
| TinyPngOut.Writer.Put | Code/SnapshotQRCode/TinyPngOut.c:190-192 | A write appends its bytes, or what still fits and fails |
| TinyPngOut.OnTheWay | Code/SnapshotQRCode/TinyPngOut.c:100-183 | What has been written at any point of a call is the beginning of the file of its pixels, a block header included |
| TinyPngOut.Writer.WritePixels | Code/SnapshotQRCode/TinyPngOut.c:137-157 | A run of pixel bytes goes into the open block |
| TinyPngOut.Writer.WriteFilterByte | Code/SnapshotQRCode/TinyPngOut.c:127-136 | Every row starts with filter byte 0 |
| TinyPngOut.Writer.WriteFooter | Code/SnapshotQRCode/TinyPngOut.c:165-180 | The last write closes the stream with the checksums and IEND |
| TinyPngOut.Writer.UpdateCrc | Code/SnapshotQRCode/TinyPngOut.c:196-205 | The running CRC is the CRC-32 of everything covered |
| TinyPngOut.Writer.UpdateAdler | Code/SnapshotQRCode/TinyPngOut.c:209-217 | The running sum is the Adler-32 of the stream |
| TinyPngOut.RunningFile | Code/SnapshotQRCode/TinyPngOut.c:100-183 | Counters and checksums determine the file so far |
| PngFile.WriteInParts | Code/SnapshotQRCode/TinyPngOut.c:100-183 | However the pixels are split over calls, status and bytes are those of the whole: all of its file, or the error and as much of the file as the output takes |
| PngFile.FileGrows | Code/SnapshotQRCode/TinyPngOut.c:100-183 | The file of more pixels begins with that of fewer |
| PngFile.CompleteFileIsPng | Code/SnapshotQRCode/TinyPngOut.c:35-183 | The finished file is signature, IHDR, IDAT and IEND with the filtered pixels in stored blocks |
| PngFile.IdatLength | Code/SnapshotQRCode/TinyPngOut.c:53-58 | The IDAT data has the declared length |
| PngFile.PngRoundTrip | Code/SnapshotQRCode/TinyPngOut.c:35-183 | A reader that checks lengths, CRCs, the zlib header, stored blocks and Adler-32 gets back the image |
| PngFormat.ChunkRoundTrip | Code/SnapshotQRCode/TinyPngOut.c:62-92 | A chunk is read back, whatever follows |
| PngFormat.InflateBlocks | Code/SnapshotQRCode/TinyPngOut.c:110-124 | Stored blocks inflate to their contents |
| PngFormat.StoredIsBlocks | Code/SnapshotQRCode/TinyPngOut.c:110-124 | The resumable stream of blocks is the split of the whole |
| PngFormat.Big32RoundTrip | Code/SnapshotQRCode/TinyPngOut.c:220-223 | Four bytes, big endian |
| JsonText.ParseJsonString | Code/PrivateChain/Server/snapshot_adapter.cpp:27-74 | A string is read exactly when it is made of units the reader knows and closed; the value is what the units mean, and there is one way to read it |
| JsonText.ParseUnit | Code/PrivateChain/Server/snapshot_adapter.cpp:35-71 | One character or escape, or none can follow |
| EventJson.JsonEscape | Code/PrivateChain/Server/server.cpp:484-512 | The printed text is that of the units of the value |
| EventJson.UnitsRead | Code/PrivateChain/Server/server.cpp:484-512 | Those units read back as the value, under both parsers' rules |
| EventJson.EventDataJson | Code/PrivateChain/Server/server.cpp:1422-1438 | The role's fields in order, as a flat object |
| FlatObject.ParseFlatStringObject | Code/PrivateChain/Server/snapshot_adapter.cpp:77-118 | A text is read exactly when it is that of an object of strings, with spaces anywhere between the tokens; there is one way to read it, and of a repeated name the last value counts |
| FlatObject.ParseMember | Code/PrivateChain/Server/snapshot_adapter.cpp:89-112 | A member is read exactly when there is one at the cursor |
| FlatObject.PrintedPairs | Code/PrivateChain/Server/server.cpp:1422-1438 | A printed object is an object of strings with the printed pairs |
| FlatObject.RoundTrip | Code/PrivateChain/Server/snapshot_adapter.cpp:77-118 | Printing a role's fields and reading them gives exactly those fields, for all values |
| JsonSyntax.ParseJsonStringSyntax | Code/PrivateChain/Server/server.cpp:615-648 | A string passes exactly when it is made of units without raw control characters and closed |
| JsonSyntax.ParseJsonObjectSyntax | Code/PrivateChain/Server/server.cpp:718-745 | An object passes exactly when it is one of the grammar, and is consumed to its end |
| JsonSyntax.ParseJsonValueSyntax | Code/PrivateChain/Server/server.cpp:747-770 | A value passes exactly when the text continues with one of the grammar, and is consumed to its end; there is one way to read it |
| JsonSyntax.ParseJsonArraySyntax | Code/PrivateChain/Server/server.cpp:690-716 | The same for a list |
| JsonSyntax.CheckMember | Code/PrivateChain/Server/server.cpp:727-741 | The same for a member of an object |
| JsonNumbers.ParseJsonNumberSyntax | Code/PrivateChain/Server/server.cpp:650-688 | A number passes exactly when there is one of the grammar, and is read to its end |
| JsonNumbers.NumberExactly | Code/PrivateChain/Server/server.cpp:650-688 | At a position there is at most one number that is read to its end |
| JsonPrinted.PrintedIsJson | Code/PrivateChain/Server/server.cpp:1422-1438 | Printed event data is a text of the grammar |
| JsonSyntax.JsonValueOrEmptyObject | Code/PrivateChain/Server/server.cpp:772-780 | Stored text is answered, without the spaces around it, exactly when it is one value of the grammar, and otherwise the empty object is |
| JsonSyntax.EventDataShown | Code/PrivateChain/Server/server.cpp:772-780 | What event_data_json prints is never replaced by an empty object |
| PercentText.PercentEncodeComponent | Code/PrivateChain/Server/server.cpp:1319-1344 | The loop prints the encoded text |
| PercentText.PercentDecode | Code/PrivateChain/Server/server.cpp:294-324 | The loop decodes or refuses an escape that is incomplete, wrong or a zero byte |
| PercentText.DecodeEncode | Code/PrivateChain/Server/server.cpp:294-324 | Decoding undoes encoding exactly for texts without a zero byte |
| PercentText.EncodedPlain | Code/PrivateChain/Server/server.cpp:1319-1344 | Encoded texts have no separators |
| IpfsReferences.ParseIpfsReferences | Code/PrivateChain/Server/server.cpp:1264-1317 | A list is read exactly when it is short enough and every token can be read |
| IpfsReferences.CanonicalIpfsReferences | Code/PrivateChain/Server/server.cpp:1346-1374 | The canonical text lists the sorted references |
| IpfsReferences.RoundTrip | Code/PrivateChain/Server/server.cpp:1264-1374 | Reading a canonical text gives the sorted references exactly when all are free of zero bytes, have a category and an id and a size in range and the text is not too long; otherwise it is refused |
| IpfsReferences.ReferenceReads | Code/PrivateChain/Server/server.cpp:1276-1314 | The same for one reference |
| IpfsReferences.CanonicalSorted | Code/PrivateChain/Server/server.cpp:1349-1360 | The canonical order is sorted |
| IpfsReferences.SplitText | Code/PrivateChain/Server/server.cpp:1248-1262 | The pieces between separators |

## Left out

- Kanji and ECI segments: segments of these modes are not built by the modelled callers.
- QrStream.ClearBuffer: clears the whole buffer where the source clears the part that the version uses.
- QrPenalty.ScoreLine: one method for the source's two loops over rows and columns, which differ in the order of the coordinates only.
- QrSymbol.EncodeTextSymbol: a reader is given version, level and mask; finding the symbol in an image and an algorithm that corrects errors are not modelled, only that format words, version words and blocks are far enough apart for one.
- bytes_to_hex and the JSON around a digest: printing only.
- TinyPngOut.Writer.Put: an output takes a fixed number of bytes and then fails; other failures of fwrite are not modelled.
- The allocator's real addresses, mmap and its failure, memory orders and spin locks: the system gives any fresh range of pages.
- AllocatorRuns.Step: the lookup of a chain's first block before the loop of FreeBatch, whose result is only compared with null, is no step of its own; it is never null.
- Allocator: free lists are sequences; IntrusiveLists shows on memory words that the pointer code computes these sequences.
- PageCache: no claim of maximal merging, since a split can leave two neighbours that would fit together.
- SpanPool's sentinels and chunks: a span is a number that is not in use.
- PageCache.PageCache.FreePages: lists are sequences of span numbers; SpanLists shows the doubly linked list itself.
- NTreeMerkle's event callbacks, and the index conversions to a narrower type.
- MerkleTree.Build from a file, and printing the tree.
- MerkleUpdate.UpdateHash: no caller in the repository uses it; it is proved from the state that a caller makes by setting one leaf hash.
- SHA-256, ECDSA signatures and password hashing: the hash is a parameter with 64-character results, and whether challenge, signed text and signature are right is one condition of the request.
- Merkle roots do not bind the number of leaves: the duplicate-last rule does not give that.
- LedgerBlock.CheckCommit: the generated id of a new batch is a parameter of the request, and the form's dates and required fields, which are checked before, are not looked at.
- BlockFields.SortReferences: references of one category and content identifier may come in any order, as std::sort leaves it open.
- Chain.Record: location summaries, attachments and other stored columns that neither the chain nor the progress looks at.
- Chain.ValidateStoredChain: block ids are unbounded integers where the source casts a size to int.
- LedgerBinding.LedgersBind: whether the signature decoder refuses newlines is decided by a library that is not part of this model.
- RouteStore: SQLite is maps and sequences, a transaction is one step that commits or leaves everything, and a database error is not modelled.
- RouteStore.Store.SaveWorkflowRoute: the clock and the accounts are parameters; identifiers with zero bytes, which SQLite would cut, are not modelled.
- RouteRevision.NextRouteRevisionId: beyond the largest int, where C++ leaves the result open, the revision wraps in two's complement; RevisionsGrowByOne shows that no shorter run gets there.
- Confirmation policies, snapshots, sessions, live events and the HTTP layer.
- JavaScript strings: text is a sequence of bytes, so the length of a value is its UTF-8 length.
- Thread pools, schedulers, the memory pool's other copies and the second copy of the QR sources.
