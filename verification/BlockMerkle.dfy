// The Merkle record of a block's fields, and the other programs that compute the same root.
module BlockMerkle {
  import opened Options
  import opened CanonicalRecord
  import opened MerkleSpec
  import opened MerkleRows
  import opened MerkleProofText
  import T = MerkleTree

  datatype LeafRecord = LeafRecord(leafIndex: nat, fieldName: string, leafValue: string, leafHash: string,
      proof: string,
    verified: bool)

  datatype BlockMerkleResult = BlockMerkleResult(canonicalRecord: string, rootHash: string, leaves: seq<LeafRecord>,
      verified: bool)

  function Inputs(fields: seq<Field>): (s: seq<string>)
    ensures |s| == |fields| && forall i :: 0 <= i < |s| ==> s[i] == LeafInput(fields[i])
  {
    if fields == [] then [] else Inputs(fields[..|fields| - 1]) + [LeafInput(fields[|fields| - 1])]
  }

  function FieldHashes(h: Hash, fields: seq<Field>): seq<string> {
    LeafHashes(h, Inputs(fields))
  }

  // The record of field i: its value, its hash and an accepted proof.
  function LeafOf(h: Hash, fields: seq<Field>, i: nat): LeafRecord
    requires i < |fields|
  {
    var hashes := FieldHashes(h, fields);
    LeafRecord(i, fields[i].name, fields[i].value, hashes[i], ProofText(h, hashes, i), true)
  }

  predicate Named(fields: seq<Field>) {
    forall i :: 0 <= i < |fields| ==> fields[i].name != ""
  }

  // Recomputes a root from a proof text and compares it with the tree's, which must not be empty.
  method VerifyProof(tree: T.MerkleTree, proof: string) returns (ok: bool)
    requires tree.Valid()
    ensures tree.Valid()
    ensures var root := if tree.blocks == [] then "" else Root(tree.h, LeafHashes(tree.h, tree.blocks), 2);
      ok <==> root != "" && AcceptsText(tree.h, root, proof)
  {
    hide ClimbText, Root, LeafHashes, T.MerkleTree.Valid;
    var rootHash := tree.GetRootHash();
    if rootHash == "" || |proof| < ENTRY || |proof| % ENTRY != 0 {
      return false;
    }
    if !Direction(proof[..2]) {
      return false;
    }
    var current := tree.ClimbWhole(proof);
    return current == Some(rootHash);
  }

  // The tree, the canonical text and a checked proof for every field. None for no fields or a nameless one.
  method BuildBlockMerkle(h: Hash, fields: seq<Field>) returns (result: Option<BlockMerkleResult>)
    requires IsDigest(h)
    ensures result.None? <==> fields == [] || !Named(fields)
    ensures result.Some? ==>
      var hashes := FieldHashes(h, fields);
      && result.value.canonicalRecord == CanonicalText(fields) && result.value.rootHash == Root(h, hashes, 2)
      && result.value.verified && |result.value.leaves| == |fields|
      && forall i :: 0 <= i < |fields| ==> result.value.leaves[i] == LeafOf(h, fields, i)
  {
    hide LeafInput, CanonicalText, LeafHashes, Root, ProofText, IsDigest, T.MerkleTree.Valid, AcceptsText, LeafOf,
      Inputs;
    if fields == [] {
      return None;
    }
    var canonical := CanonicalRecordFromFields(fields);
    var tree := new T.MerkleTree(h);
    var i := 0;
    while i < |fields|
      invariant 0 <= i <= |fields| && fresh(tree) && tree.Valid() && tree.h == h
      invariant tree.blocks == Inputs(fields[..i]) && Named(fields[..i])
    {
      if fields[i].name == "" {
        return None;
      }
      InputPresent(fields[i]);
      assert fields[..i + 1] == fields[..i] + [fields[i]];
      InputsNext(fields, i);
      var ok := tree.Append(LeafInput(fields[i]));
      i := i + 1;
    }
    assert fields[..i] == fields;
    var rootHash := tree.GetRootHash();
    var leaves: seq<LeafRecord>;
    leaves := MakeLeaves(h, tree, fields);
    forall k | 0 <= k < |leaves| ensures leaves[k].verified { LeafVerified(h, fields, k); }
    var verified := AllOf(leaves);
    result := Some(BlockMerkleResult(canonical, rootHash, leaves, verified));
  }

  lemma LeafVerified(h: Hash, fields: seq<Field>, i: nat)
    requires i < |fields|
    ensures LeafOf(h, fields, i).verified
  {
    hide FieldHashes, ProofText;
  }

  // There are leaves and all are verified.
  method AllOf(leaves: seq<LeafRecord>) returns (verified: bool)
    ensures verified <==> leaves != [] && forall i :: 0 <= i < |leaves| ==> leaves[i].verified
  {
    var k := 0;
    while k < |leaves|
      invariant 0 <= k <= |leaves| && forall i :: 0 <= i < k ==> leaves[i].verified
    {
      if !leaves[k].verified {
        return false;
      }
      k := k + 1;
    }
    return leaves != [];
  }

  method MakeLeaves(h: Hash, tree: T.MerkleTree, fields: seq<Field>) returns (leaves: seq<LeafRecord>)
    requires IsDigest(h) && tree.Valid() && tree.h == h && tree.blocks == Inputs(fields) && fields != []
    ensures |leaves| == |fields|
    ensures forall i :: 0 <= i < |fields| ==> leaves[i] == LeafOf(h, fields, i)
  {
    hide LeafInput, Root, ProofText, IsDigest, T.MerkleTree.Valid, AcceptsText;
    ghost var hashes := FieldHashes(h, fields);
    leaves := [];
    var index := 0;
    while index < |fields|
      invariant 0 <= index <= |fields| && |leaves| == index && tree.Valid()
      invariant forall i :: 0 <= i < index ==> leaves[i] == LeafOf(h, fields, i)
    {
      var proof := tree.ProverBlock(index);
      ProofAccepted(h, hashes, Inputs(fields), index);
      var ok := VerifyProof(tree, proof);
      var leafHash := h(LeafInput(fields[index]));
      leaves := leaves + [LeafRecord(index, fields[index].name, fields[index].value, leafHash, proof, ok)];
      index := index + 1;
    }
  }

  lemma ProofAccepted(h: Hash, hashes: seq<string>, inputs: seq<string>, k: nat)
    requires IsDigest(h) && hashes == LeafHashes(h, inputs) && k < |hashes|
    ensures Root(h, hashes, 2) != "" && AcceptsText(h, Root(h, hashes, 2), ProofText(h, hashes, k))
  {
    hide Root, ProofText, AcceptsText;
    forall i | 0 <= i < |hashes| ensures |hashes[i]| == DIGEST { assert |h(inputs[i])| == DIGEST; }
    ProofTextAccepted(h, hashes, k);
    RootIsDigest(h, hashes, 2);
  }

  lemma InputPresent(f: Field)
    ensures LeafInput(f) != ""
  {
    assert |LeafInput(f)| >= 1;
  }

  lemma InputsNext(fields: seq<Field>, i: nat)
    requires i < |fields|
    ensures Inputs(fields[..i + 1]) == Inputs(fields[..i]) + [LeafInput(fields[i])]
  {
    assert fields[..i + 1][..i] == fields[..i];
  }

  // ---- the display tree ----

  datatype DisplayNode = DisplayNode(kind: string, hash: string, leaf: Option<LeafRecord>, verified: bool,
    children: seq<DisplayNode>)

  function HashesOf(nodes: seq<DisplayNode>): (s: seq<string>)
    ensures |s| == |nodes| && forall i :: 0 <= i < |s| ==> s[i] == nodes[i].hash
  {
    if nodes == [] then [] else HashesOf(nodes[..|nodes| - 1]) + [nodes[|nodes| - 1].hash]
  }

  function LeafHashesOf(leaves: seq<LeafRecord>): (s: seq<string>)
    ensures |s| == |leaves| && forall i :: 0 <= i < |s| ==> s[i] == leaves[i].leafHash
  {
    if leaves == [] then [] else LeafHashesOf(leaves[..|leaves| - 1]) + [leaves[|leaves| - 1].leafHash]
  }

  predicate AllVerified(nodes: seq<DisplayNode>) {
    forall i :: 0 <= i < |nodes| ==> nodes[i].verified
  }

  // Every inner node hashes its two children and is verified exactly when both are.
  predicate WellFormed(h: Hash, node: DisplayNode) {
    node.children == []
    || (|node.children| == 2
        && node.hash == h(node.children[0].hash + node.children[1].hash)
        && (node.verified <==> node.children[0].verified && node.children[1].verified)
        && WellFormed(h, node.children[0]) && WellFormed(h, node.children[1]))
  }

  // One level of parents over a level of even length.
  method PairNodes(h: Hash, current: seq<DisplayNode>) returns (parents: seq<DisplayNode>)
    requires |current| % 2 == 0 && forall i :: 0 <= i < |current| ==> WellFormed(h, current[i])
    ensures HashesOf(parents) == PairUp(h, HashesOf(current)) && (AllVerified(parents) <==> AllVerified(current))
    ensures forall i :: 0 <= i < |parents| ==> WellFormed(h, parents[i])
  {
    hide HashesOf, PairUp, WellFormed, AllVerified;
    parents := [];
    var index := 0;
    NoneVerified(current);
    while index < |current|
      invariant 0 <= index <= |current| && index == 2 * |parents|
      invariant forall i :: 0 <= i < |parents| ==> parents[i].hash == h(current[2 * i].hash + current[2 * i + 1].hash)
      invariant forall i :: 0 <= i < |parents| ==> WellFormed(h, parents[i])
      invariant AllVerified(parents) <==> AllVerified(current[..index])
    {
      var left, right := current[index], current[index + 1];
      var parent := DisplayNode("internal", h(left.hash + right.hash), None, left.verified && right.verified,
          [left, right]);
      VerifiedNext(parents, parent, current, index);
      ParentWellFormed(h, left, right, parent);
      parents := parents + [parent];
      index := index + 2;
    }
    assert current[..index] == current;
    assert HashesOf(parents) == PairUp(h, HashesOf(current));
  }

  lemma NoneVerified(current: seq<DisplayNode>)
    ensures AllVerified([]) <==> AllVerified(current[..0])
  {}

  lemma ParentWellFormed(h: Hash, left: DisplayNode, right: DisplayNode, parent: DisplayNode)
    requires WellFormed(h, left) && WellFormed(h, right) && parent.children == [left, right]
    requires parent.hash == h(left.hash + right.hash) && (parent.verified <==> left.verified && right.verified)
    ensures WellFormed(h, parent)
  {}

  lemma VerifiedNext(parents: seq<DisplayNode>, parent: DisplayNode, current: seq<DisplayNode>, index: nat)
    requires index + 2 <= |current| && (AllVerified(parents) <==> AllVerified(current[..index]))
    requires parent.verified <==> current[index].verified && current[index + 1].verified
    ensures AllVerified(parents + [parent]) <==> AllVerified(current[..index + 2])
  {
    SplitVerified(parents, [parent]);
    SplitVerified(current[..index], [current[index], current[index + 1]]);
    assert current[..index + 2] == current[..index] + [current[index], current[index + 1]];
    assert AllVerified([parent]) <==> [parent][0].verified;
    var pair := [current[index], current[index + 1]];
    assert AllVerified(pair) <==> pair[0].verified && pair[1].verified;
  }

  lemma SplitVerified(s: seq<DisplayNode>, t: seq<DisplayNode>)
    ensures AllVerified(s + t) <==> AllVerified(s) && AllVerified(t)
  {
    assert forall i :: 0 <= i < |s| ==> (s + t)[i] == s[i];
    assert forall i :: 0 <= i < |t| ==> (s + t)[|s| + i] == t[i];
  }

  // The tree shown for a block's leaves. Its root has the hash of the rule and is verified when all leaves are.
  method BuildMerkleDisplayTree(h: Hash, leaves: seq<LeafRecord>) returns (root: Option<DisplayNode>)
    ensures root.None? <==> leaves == []
    ensures root.Some? ==>
      && root.value.hash == Root(h, LeafHashesOf(leaves), 2) && WellFormed(h, root.value)
      && (root.value.verified <==> forall i :: 0 <= i < |leaves| ==> leaves[i].verified)
  {
    hide Root, HashesOf, LeafHashesOf, WellFormed;
    if leaves == [] {
      return None;
    }
    var current := DisplayLeaves(h, leaves);
    ghost var hashes := HashesOf(current);
    assert hashes == LeafHashesOf(leaves);
    while |current| > 1
      invariant current != [] && Root(h, HashesOf(current), 2) == Root(h, hashes, 2)
      invariant AllVerified(current) <==> forall i :: 0 <= i < |leaves| ==> leaves[i].verified
      invariant forall i :: 0 <= i < |current| ==> WellFormed(h, current[i])
      decreases |current|
    {
      current := DisplayLevel(h, current);
    }
    OneNode(h, current[0]);
    assert current == [current[0]];
    root := Some(current[0]);
  }

  method DisplayLeaves(h: Hash, leaves: seq<LeafRecord>) returns (current: seq<DisplayNode>)
    ensures |current| == |leaves| && forall i :: 0 <= i < |current| ==> WellFormed(h, current[i])
    ensures forall i :: 0 <= i < |current| ==>
      current[i].hash == leaves[i].leafHash && current[i].verified == leaves[i].verified
  {
    current := [];
    var i := 0;
    while i < |leaves|
      invariant 0 <= i <= |leaves| && |current| == i
      invariant forall j :: 0 <= j < i ==>
        current[j] == DisplayNode("leaf", leaves[j].leafHash, Some(leaves[j]), leaves[j].verified, [])
    {
      current := current + [DisplayNode("leaf", leaves[i].leafHash, Some(leaves[i]), leaves[i].verified, [])];
      i := i + 1;
    }
  }

  // A duplicate completes an odd level; then the level is paired up.
  method DisplayLevel(h: Hash, level: seq<DisplayNode>) returns (parents: seq<DisplayNode>)
    requires |level| > 1 && forall i :: 0 <= i < |level| ==> WellFormed(h, level[i])
    ensures 0 < |parents| < |level| && Root(h, HashesOf(parents), 2) == Root(h, HashesOf(level), 2)
    ensures AllVerified(parents) <==> AllVerified(level)
    ensures forall i :: 0 <= i < |parents| ==> WellFormed(h, parents[i])
  {
    hide HashesOf, PairUp, WellFormed, NextLevel;
    var current := level;
    if |current| % 2 != 0 {
      var last := current[|current| - 1];
      var duplicate := DisplayNode("duplicate", last.hash, None, last.verified, []);
      LeafWellFormed(h, duplicate);
      SplitVerified(current, [duplicate]);
      current := current + [duplicate];
    }
    assert HashesOf(current) == Pad(HashesOf(level));
    parents := PairNodes(h, current);
    PairsAreNextLevel(h, HashesOf(level));
    GroupCountShrinks(|level|, 2);
  }

  lemma LeafWellFormed(h: Hash, node: DisplayNode)
    requires node.children == []
    ensures WellFormed(h, node)
  {}

  lemma OneNode(h: Hash, node: DisplayNode)
    ensures Root(h, HashesOf([node]), 2) == node.hash
  {}

  // ---- the published root ----

  // The JavaScript root of a batch's public fields, with its prefix. None stands for the error on an empty list.
  method BuildPublicRoot(h: Hash, publicFields: seq<Field>) returns (root: Option<string>)
    ensures root == if publicFields == [] then None else Some("0x" + Root(h, FieldHashes(h, publicFields), 2))
  {
    hide Root, Pad, PairUp;
    if publicFields == [] {
      return None;
    }
    var level: seq<string> := [];
    var i := 0;
    while i < |publicFields|
      invariant 0 <= i <= |publicFields| && |level| == i
      invariant forall j :: 0 <= j < i ==> level[j] == h(LeafInput(publicFields[j]))
    {
      level := level + [h(LeafInput(publicFields[i]))];
      i := i + 1;
    }
    ghost var base := FieldHashes(h, publicFields);
    assert level == base;
    while |level| > 1
      invariant level != [] && Root(h, level, 2) == Root(h, base, 2)
      decreases |level|
    {
      level := PublicLevel(h, level);
    }
    SingleRoot(h, level);
    root := Some("0x" + level[0]);
  }

  lemma SingleRoot(h: Hash, level: seq<string>)
    requires |level| == 1
    ensures Root(h, level, 2) == level[0]
  {}

  method PublicLevel(h: Hash, start: seq<string>) returns (next: seq<string>)
    requires |start| > 1
    ensures 0 < |next| < |start| && Root(h, next, 2) == Root(h, start, 2)
  {
    hide NextLevel;
    var level := start;
    if |level| % 2 == 1 {
      level := level + [level[|level| - 1]];
    }
    assert level == Pad(start);
    next := [];
    var index := 0;
    while index < |level|
      invariant 0 <= index <= |level| && index == 2 * |next|
      invariant forall i :: 0 <= i < |next| ==> next[i] == h(level[2 * i] + level[2 * i + 1])
    {
      next := next + [h(level[index] + level[index + 1])];
      index := index + 2;
    }
    assert next == PairUp(h, level);
    PairsAreNextLevel(h, start);
    GroupCountShrinks(|start|, 2);
  }
}
