// One root, many programs: the block tree, the N-ary tree with two children, the display tree and the published root.
module OneRoot {
  import opened CanonicalRecord
  import opened MerkleSpec
  import B = BlockMerkle
  import N = NTreeMerkle

  // All four compute the same root for the same named fields.
  method SameRoot(h: Hash, fields: seq<Field>)
    returns (blockRoot: string, naryRoot: string, displayRoot: string, publicRoot: string)
    requires IsDigest(h) && fields != [] && B.Named(fields)
    ensures blockRoot == naryRoot == displayRoot == Root(h, B.FieldHashes(h, fields), 2)
    ensures publicRoot == "0x" + blockRoot
  {
    hide IsDigest, Root, LeafHashes, B.WellFormed, LeafInput, N.Tree.Valid;
    var block := B.BuildBlockMerkle(h, fields);
    blockRoot := block.value.rootHash;
    var tree := new N.Tree(h, 2);
    var result := tree.Build(B.Inputs(fields));
    naryRoot := result.rootHash;
    var display := B.BuildMerkleDisplayTree(h, block.value.leaves);
    displayRoot := display.value.hash;
    assert B.LeafHashesOf(block.value.leaves) == B.FieldHashes(h, fields);
    var public := B.BuildPublicRoot(h, fields);
    publicRoot := public.value;
  }
}
