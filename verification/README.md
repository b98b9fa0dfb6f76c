# MF-SPV in Dafny

A Dafny model of MF-SPV, the Merkle-fold payment verification system: how inclusion proofs are
built, carried, verified one by one and in batches, anchored in a header accumulator and signed
for.  `dafny verify dfyconfig.toml` checks the whole project.

The hash is never opened.  SHA-256d is a parameter `sha` of every member, any function from byte
strings to 32-byte digests, so the results hold for all of them.  Such a function has collisions
by counting, so no result says "or a collision exists somewhere": where a collision is the way
out, it is one between members of a finite set that is named, the byte strings that the
computations in question hash.

| file | what it models |
|---|---|
| Commitment, Positions, MerkleTree, FieldTree, Forest | Merkle trees with odd-node duplication, paths, folds, the field tree of a transaction, subtrees versus one flat tree |
| Fabric, FabricClimb, FabricSoundness, FabricCompleteness, FabricLimits, FabricCost | the memoised batch verifier: what acceptance means, when it happens, what it costs |
| Bytes, FabricCodec, PackedBatch, FabricStream, Bits | the proof wire format and the one-pass streaming verifier with packed keys |
| Field, Groups, Ladder, AdditionLaw, ChordTangent | 256-bit field arithmetic on 64-bit limbs, the complete addition formulas, why they are complete and that they are the chord-and-tangent addition, the masked ladder |
| Ecdsa | signing, verification, exactly which signatures verify, and their second form, over an abstract group |
| BlockVerify | the 16-lane Merkle rebuild over two scratch buffers and the 16-lane batch fold |
| Accumulator, Membership, Coverage | the Merkle Mountain Range over headers, anchors, what a path that folds to a root proves, and the reporting of gaps |
| Teranode, NodeRuns | the node that seals blocks, and what holds after any run of it |
| Bundle, Disclosure | the payer's bundle, the payee's check, what it accepts from every run of the node, and what its acceptance means |
| Wire, BundleCodec, Payment | the bundle and payment formats and the bytes a signature covers |

Main results, hardest first:

- **Batch verification.**  The comment on `BatchVerify` promises that it reports whether all
  proofs are valid.  That is false in both directions, for every hash (`AcceptedThoughInvalid`,
  `RejectedThoughValid`): siblings above the point where a proof meets an earlier one are never
  hashed, and proofs of different depth that share a position clash.  `BatchSound` says what
  acceptance does give.  `ValidAcceptedIff` says when valid proofs are accepted: iff no position is
  shared between depths.  `AllValidIff` gives, for all such batches, the exact difference between
  accepted and all valid: proofs that pass through one position carry the same sibling there, and
  every L2 path that was skipped is the one that was folded where it leads the same way, else has
  to be folded.  Where all L2 paths of a subtree lead the same way that is a comparison of bytes,
  with nothing left to hash (`AllValidByBytes`).
- **Streaming.**  `VerifyWire` fuses decoding, key packing, id interning and verification.  On all
  bytes, those that do not parse included, verdict, hash count and proof count are those of a
  function of the bytes; on bytes that parse it is the packed batch verifier, and within 33 levels
  and 2^24 subtrees that one refines `BatchVerify`.  Both bounds are sharp: at 34 levels, for every
  hash and every path with a left sibling on top, one of two batches is passed by the one and
  rejected by the other, or two named preimages collide (`DeepVerdictsDiffer`, and on bytes
  `DeepBytesDiffer`), and at 2^24 + 1 subtrees the packed verifier refuses what `BatchVerify`
  accepts (`ManyVerdictsDiffer`).
- **Points of the curve.**  Every carry chain of `crypto/ct.go` is followed limb by limb and shown
  exact; `FeMul` and `FeAdd` are correct for unreduced inputs.  The addition formulas are
  evaluated as polynomials, shown to have no exceptional input (`SumNeverVanishes`) and to be the
  chord-and-tangent addition of `crypto/secp256k1.go` in every branch and for all projective
  coordinates (`FormulasArePointAdd`), so the masked ladder computes the multiple that the
  variable-time code's addition gives (`FormulasImplement`, `NonceX`).
- **Forest and flat tree.**  `ForestIsFlatIff` says for every leaf list when the root over subtree
  roots is the root of one flat tree, and `ForestCost` and `SplitSaves` what each of them costs.
- **The pruned verifier.**  `PrunedVerifier` composes tree building, the accumulator, block
  sealing, proof serving and bundle verification over every run of the node: what the node can
  prove is accepted.  `AcceptedMeans` is the other half, for every bundle whoever made it: its header
  is that of a block the node sealed, proved by a root that a carrier committed over it, its
  transaction is a leaf of that block and its field the transaction's field, or preimages collide or
  hash to zero.  Verify fixes neither the lengths of the levels nor the place of the anchor's field;
  the theorem says where they matter, and `ShiftedPasses`, `AnyFieldAnchors`, `PairPasses` and
  `InsidePasses` give the inputs that show it.  `HeaderIsMember` needs no such condition: a header
  that passes against an accumulator root by any path is one of the headers under it.
- **Signatures.**  `VerifiesIff` and `VerifiesIffSigned` say which signatures verify: those for which
  s K = z G + r Q has a solution with x-coordinate r, which under a signer's key are those that some
  nonce makes and no others.
- **Formats.**  For each of the three formats, exactly which bytes are read as which value
  (`DeserializedIff`, `DecodedIff`), through formats composed as values; so round trips, canonical
  encodings and truncation are each decided for all inputs.  None of the formats is canonical: a
  flag byte that is not one is read as zero, and the batch format lets frames be padded.

Where the code and its own text differ, the model follows the code: the batch promise above; the
count of T - 1 hashes in `bench/capacity.go`, which is exact iff the last subtree's size and the
number of subtrees are powers of two, and its remark that the subtree split does not change the
total, which holds iff there is one subtree or the last is more than half full; `NearestCommitted`,
whose int64 conversion loses heights from 2^63 on; `Reanchor`, whose comment
(`bundle/bundle.go:207-212`) has an orphaned transaction move to another block and all others stay,
while the code moves a transaction iff it was sealed again (`ReanchorIsIdentity`), so that the
promise of unchanged paths in blocks that are not orphaned (I-B1, `bundle/bundle.go:8-10`) is broken
by any such seal (`MovedThoughOnChain`); `NeedsReanchor`, which is to report orphaned headers
(`bundle/bundle.go:186-188`) and says nothing about a bundle whose anchor is on the best chain
(`OrphanedStillPasses`); and `VerifyAnchor`, whose comment speaks of the field of a generation
transaction (`accumulator/accumulator.go:153-155`) and which takes a field of any transaction of the
block (`AnyFieldAnchors`).

## Model

| member | source | states |
|---|---|---|
| Commitment.Fold | commitment/commitment.go:165-175 | computes the fold of a leaf along its path |
| Commitment.FoldBinding | commitment/commitment.go:163-175 | binding: two paths with the same turns and one root have the same leaf and siblings, or two of the preimages hashed by the two folds collide |
| MerkleTree.BuildMerkleTree | commitment/commitment.go:83-104 | fails exactly on no leaves; otherwise returns the root and all levels of the duplicate-last tree |
| MerkleTree.MerklePath | commitment/commitment.go:114-136 | fails exactly on an index out of range; otherwise returns the sibling path read off the levels |
| MerkleTree.MerklePathInto | commitment/commitment.go:141-161 | the same path, written over the front of the caller's buffer, which is kept when it is long enough and whose rest is untouched |
| MerkleTree.PathThroughLayers | commitment/commitment.go:112-136 | the path read off built levels is the path defined by the leaves alone |
| MerkleTree.PathFolds | commitment/commitment.go:112-184 | for every leaf list and index the path folds to the root, and its turns are the bits of the index |
| MerkleTree.PathDepth | commitment/commitment.go:177-184 | a path has exactly CeilLog2(n) elements |
| Positions.CeilLog2Least | commitment/commitment.go:177-184 | CeilLog2(n) is the least k with n <= 2^k |
| FieldTree.BuildMTxID | commitment/commitment.go:190-203 | fails exactly on no fields; otherwise returns the transaction id and levels over the field digests |
| FieldTree.MTxIDPath | commitment/commitment.go:205-220 | fails exactly on a position out of range; otherwise the field's digest folds along the returned path to the transaction id, in CeilLog2 steps |
| FieldTree.VerifyToBlockRoot | commitment/commitment.go:264-284 | accepts exactly when the three paths together fold the leaf to the root within both depth limits |
| Membership.ClosesIff | commitment/commitment.go:264-284 | with the three paths of a field of a transaction of a block it accepts that field's digest and no other, if the paths stay within 255 elements and the middle one within 20 |
| MerkleTree.RootBinding | commitment/commitment.go:80-104 | two leaf lists of one length with one root are equal, or preimages hashed while building the two trees collide |
| MerkleTree.RootForgetsRepeats | commitment/commitment.go:92-97 | why the length matters: for every odd number of leaves above one, repeating the last leaf does not change the root |
| Membership.Descends | commitment/commitment.go:80-175 | what any path that folds to a root proves: the length says whether it starts at a leaf, at an inner node or below a leaf, whatever its turns, or preimages collide |
| Membership.LeafByLength | commitment/commitment.go:163-184 | so what folds to the root along a path as long as the tree is high is a leaf |
| FieldTree.TxIdBinding | commitment/commitment.go:70-78 | a transaction id determines its fields, their order and index bytes, for a given field count, up to a collision among the bytes hashed |
| Membership.FieldIsDisclosed | commitment/commitment.go:205-220 | a field whose path folds to a transaction's id is one of its fields, if the path is as long as the field tree is high or no field has 63 bytes |
| Membership.PairPasses | commitment/commitment.go:70-78 | the conditions matter: every transaction of two or more fields has a pair of digests that passes as a field of 63 bytes |
| Membership.InsidePasses | commitment/commitment.go:70-78 | and every field passes against a transaction with its digest inside a field of 63 bytes |
| Membership.FieldAtPlace | commitment/commitment.go:205-220 | with the turns of one position it is the field there |
| Forest.FlatRoot | teranode/teranode.go:179-199 | for more than one subtree of capacity 2^k: the flat tree over all leaves has the root over the subtree roots with the last one hashed with itself as often as its tree is short of k levels |
| Forest.ForestIsFlat | teranode/teranode.go:179-199 | with chunks of 2^k leaves the root over subtree roots is the root of the flat tree when there is one chunk or the last is more than half full |
| Forest.ForestIsFlatIff | teranode/teranode.go:179-199 | and only then: in every other case the two roots differ, unless repeated hashing with itself gives the last subtree root back or preimages hashed above the subtrees collide |
| Forest.DepthLaw | bench/bench.go:99-112 | the depth of T leaves is the depth inside a subtree plus the depth above the subtrees |
| Forest.BuildMakes | commitment/commitment.go:83-104 | the nodes that a build returns above its leaves, each made by one pair hash, number BuildHashes(n) |
| Forest.BuildCost | commitment/commitment.go:83-104 | one build makes exactly n - 1 pair hashes plus one per odd level |
| Teranode.SealCost | teranode/teranode.go:179-199 | the nodes that SealBlock builds above the leaves, in the subtrees and above their roots, are the hashes that the next rows count |
| Forest.ForestCost | bench/capacity.go:20-26 | sealing n leaves in subtrees of 2^k makes n - 1 hashes, plus the odd levels of the last subtree, plus the odd levels above the subtree roots |
| Forest.ForestCostExact | bench/capacity.go:20-26 | so the n - 1 of the capacity model is exact iff the size of the last subtree and the number of subtrees are powers of two |
| Forest.SplitSaves | bench/capacity.go:20-26 | the subtree split does change the total: it saves one hash for every level by which the last subtree is short, none iff that one is more than half full |
| Fabric.VerifyOne | fabric/fabric.go:78-93 | accepts exactly the proofs whose two folds and header check succeed, and reports the hashes done |
| Fabric.LeafIndex | fabric/fabric.go:102-113 | computes the index that the first 64 turns of a path spell |
| Fabric.ClimbL1 | fabric/fabric.go:131-155 | the memoised L1 loop computes the recursive climb, including its three ways to end |
| Fabric.BatchVerify | fabric/fabric.go:123-180 | verdict and hash count are those of the recursive batch function, for every batch |
| FabricClimb.ClimbStops | fabric/fabric.go:131-155 | the L1 loop in one step: it folds and records up to the first known position, where it merges or clashes, or to the end of the path |
| FabricSoundness.BatchSound | fabric/fabric.go:115-180 | in an accepted batch every leaf, with its own first sibling, has a path to its subtree root put together from siblings that proofs of the batch carry for those positions, some proof of each subtree has an L2 path to a header on the chain, and each proof's own header is on the chain |
| FabricSoundness.StepSound | fabric/fabric.go:128-179 | one accepted proof keeps every memo entry certified and every accepted subtree anchored |
| FabricCompleteness.BatchComplete | fabric/fabric.go:115-180 | proofs that each pass VerifyOne, with indices in 64 bits and no position above the leaves shared between depths, are accepted, or two preimages hashed on their L1 paths collide |
| FabricCompleteness.MixedDepthsRejected | fabric/fabric.go:134-151 | a batch in which two depths share a position is rejected, unless two proofs of different depth have one node at a position they share |
| FabricCompleteness.ValidAcceptedIff | fabric/fabric.go:115-180 | so valid proofs are accepted together iff no position is shared between depths, barring those coincidences of hashes |
| FabricCompleteness.AllValidIff | fabric/fabric.go:115-126 | where no position is shared between depths: all proofs are valid iff the batch is accepted, proofs through one position carry one sibling there, and every later L2 path of a subtree equals the first one's if it takes the same turns to the same block root, and closes if not |
| FabricCompleteness.AllValidByBytes | fabric/fabric.go:115-126 | where proofs of one subtree take the same L2 turns to one block root: all proofs are valid iff the batch is accepted, shared siblings agree and the L2 paths of a subtree are equal, comparisons of bytes with nothing left to hash |
| FabricCompleteness.BatchExactOnDistinctSubtrees | fabric/fabric.go:115-180 | a batch without shared subtrees is accepted iff every proof is valid |
| FabricLimits.AcceptedThoughInvalid | fabric/fabric.go:115-116 | for every hash: behind a valid proof anything with its leaf, position and first sibling is accepted, and is invalid if another sibling or an L2 sibling differs, barring a collision on the two paths |
| FabricLimits.PairIff | fabric/fabric.go:134-151 | behind a valid proof of its subtree a proof of any depth is accepted iff the two have one node at the first position they share, positions being those of 64-bit indices |
| FabricLimits.RejectedThoughValid | fabric/fabric.go:115-116 | for every hash: of two batches of two valid proofs that differ in one sibling at least one is rejected, or two named preimages collide |
| FabricCost.NeverWorseThanNaive | fabric/fabric.go:115-122 | total hashes never exceed the sum of all path lengths, accepted or not |
| FabricCost.AcceptedCost | fabric/fabric.go:131-164 | an accepted batch, of whatever depths, makes one hash per recorded node, one L2 fold per subtree and one per proof that merges, of which there are at most P - S |
| FabricCost.AmortisedCost | fabric/fabric.go:115-122 | P proofs of depth k > 0 over S subtrees make exactly as many hashes as the memo has nodes, plus one L2 fold per subtree, plus P - S; and the memo has at most S(2^k - 1) nodes |
| FabricCodec.EncodeBatch | fabric/codec.go:50-63 | produces the counted, length-prefixed layout |
| FabricCodec.DecodeBatch | fabric/codec.go:133-163 | agrees on every byte string with the parser that defines decoding |
| FabricCodec.BatchRoundTrip | fabric/codec.go:22-163 | decoding an encoded batch with paths within the ceilings gives it back and consumes every byte |
| FabricCodec.DecodedIff | fabric/codec.go:71-163 | a batch is decoded from exactly the bytes that begin with its proofs in frames with any padding, spelled with any bytes but one for the zero flags |
| FabricCodec.CanonicalIff | fabric/codec.go:22-163 | accepted bytes are the encoding of the batch they decode to iff no frame is padded, nothing follows and every flag is zero or one |
| FabricCodec.BatchPrefixes | fabric/codec.go:71-163 | cut off before the end of its last frame an accepted string is rejected, cut off anywhere behind it decodes alike |
| PackedBatch.PackKeyValue | fabric/stream.go:134 | within range the shifted and or-ed key is the sum of its three fields |
| PackedBatch.PackKeyInjective | fabric/stream.go:134 | within range different (id, level, index) have different keys |
| PackedBatch.PackedIndexOverflows | fabric/stream.go:134 | for every id and level the 33rd bit of an index falls on the level: such a position has the key of the next level above an even one, and on an odd level that of the index without the bit |
| PackedBatch.PackedIdOverflows | fabric/stream.go:134 | ids 2^24 apart have the same keys |
| PackedBatch.PackedRefines | fabric/stream.go:39-198 | refinement: for up to 33 levels and 2^24 subtrees the verifier with packed keys and interned roots has the verdict and hash count of BatchVerify, for every batch |
| PackedBatch.DeepPathsConfused | fabric/stream.go:134 | at 34 levels it has not: of two proofs that part only under the root it passes the second iff their first nodes are equal, BatchVerify iff the second closes |
| PackedBatch.DeepVerdictsDiffer | fabric/stream.go:134 | so for every hash and every 34-level path with a left sibling on top: of two batches that differ in one sibling the packed verifier passes both and BatchVerify rejects one, or two named preimages collide |
| PackedBatch.ManySubtreesConfused | fabric/stream.go:105-121 | at 2^24 + 1 subtrees it has not: it refuses valid proofs of different subtrees that BatchVerify accepts, if first and last sit at one position and have different nodes there |
| PackedBatch.ManyVerdictsDiffer | fabric/stream.go:105-121 | so for any 2^24 + 1 leaves whose hashes with themselves differ: BatchVerify accepts the batch of their one-level proofs and the packed verifier refuses it |
| FabricStream.Verifier.ReadHead | fabric/stream.go:67-103 | reads leaf, path and subtree root, rejects exactly what the parser rejects, and leaves the path at the front of the reused arrays |
| FabricStream.Verifier.ReadL1 | fabric/stream.go:84-95 | the element loop fills the arrays and or-s the turns together to the index that the path spells |
| FabricStream.Verifier.Intern | fabric/stream.go:105-121 | the one-entry cache and the map give equal roots equal ids and new roots the next id, which is the number of roots so far |
| FabricStream.Verifier.FoldL1 | fabric/stream.go:123-148 | the fold over reused arrays computes the packed climb, including its three ways to end |
| FabricStream.StreamedFrom | fabric/stream.go:59-195 | reading and verifying proof by proof is reading all and then verifying in order, for any reader and any step; what cannot be read is rejected |
| FabricStream.Verifier.VerifyWire | fabric/stream.go:39-198 | for all bytes verdict, hash count and proof count are those of the packed verifier up to the first proof that is refused or cannot be read; bytes that do not parse are rejected, and where the counts stay in range the report is that of decoding first and running BatchVerify |
| FabricStream.DeepBytesConfused | fabric/stream.go:134 | the 33 levels are sharp on bytes that both verifiers read: the encoding of two such proofs |
| FabricStream.DeepBytesDiffer | fabric/stream.go:134 | of the encodings of two 34-level batches the streaming verifier passes both and decoding with BatchVerify rejects one, for every hash, or two named preimages collide |
| FabricStream.ManyBytesDiffer | fabric/stream.go:105-121 | of the encoding of 2^24 + 1 subtrees the streaming verifier refuses what decoding with BatchVerify accepts |
| FabricStream.EncodedBatchStreams | fabric/stream.go:37-39 | the encoding of a batch within range is decoded to that batch by the streaming ceilings too, so streaming it is verifying the batch |
| FabricStream.LimitsAgree | fabric/codec.go:86-91 | within range the 4096 ceiling of the decoder and the 64 ceiling of the stream read the same proofs |
| Field.FeCondSubP | crypto/ct.go:67-83 | subtracts p exactly when the value is at least p |
| Field.FeAdd | crypto/ct.go:85-102 | for all 256-bit inputs the result is the sum modulo p, reduced; no carry is lost |
| Field.FeSub | crypto/ct.go:104-120 | for reduced inputs the result is the difference modulo p, reduced |
| Field.Mul256By64 | crypto/ct.go:122-134 | five limbs that stand for the exact product |
| Field.Schoolbook | crypto/ct.go:137-149 | eight limbs that stand for the exact 512-bit product; no column carry overflows |
| Field.Reduce512 | crypto/ct.go:150-171 | two folds by 2^32 + 977 and one conditional subtraction give the residue modulo p |
| Field.FeMul | crypto/ct.go:136-172 | for all four-limb inputs, reduced or not, the result is the product modulo p, reduced |
| Field.FeIsZeroIff | crypto/ct.go:192 | the or of the limbs is zero exactly when the value is |
| Field.FeCSelect | crypto/ct.go:194-203 | the masked select picks the first value for 1 and the second for 0 |
| Ladder.FeInv | crypto/ct.go:176-190 | the 256-step loop computes a^(p-2) modulo p; its exponent limbs are p - 2 |
| Ladder.CompleteAdd | crypto/ct.go:213-251 | for all inputs the 33 field operations compute the three coordinate polynomials of the complete addition formula |
| Ladder.SumWithIdentity | crypto/ct.go:207-214 | adding the identity multiplies all three coordinates by one factor, so the point stays |
| Ladder.SumWithInverse | crypto/ct.go:207-214 | adding a point to its negative gives a point with X and Z zero |
| Ladder.SumCommutes | crypto/ct.go:213-214 | the formulas are symmetric in their operands |
| AdditionLaw.NormAnisotropic | crypto/ct.go:213-251 | given that p is prime and 7 no cube modulo p: a^3 + 7b^3 + 49c^3 - 21abc vanishes modulo p only where a, b and c do |
| AdditionLaw.SumNeverVanishes | crypto/ct.go:213-214 | with that, the formulas have no exceptional input: for no two points of the curve does the computed Y-coordinate vanish |
| AdditionLaw.NoExceptionalInput | crypto/ct.go:213-251 | so the limbs that completeAdd returns for two points are never the zero triple |
| ChordTangent.SumAtOne | crypto/secp256k1.go:58-111 | on affine points the formulas agree with every branch of pointAdd: the identity, the mirrored point, the tangent and the chord, and the result is on the curve again |
| ChordTangent.FormulasArePointAdd | crypto/ct.go:205-251 | so for any two points in any projective coordinates, given that p is prime and 7 no cube modulo p |
| ChordTangent.RepresentsOne | crypto/ct.go:205-207 | no coordinates stand for two points |
| Ladder.ScalarMultCT | crypto/ct.go:262-275 | the masked ladder computes k times the point for every 256-bit k, over any group that the formulas implement |
| ChordTangent.FormulasImplement | crypto/ct.go:264-275 | the points of the curve under pointAdd are such a group, if a group at all |
| ChordTangent.AffineX | crypto/ct.go:278-281 | the coordinate that affineX returns is the point's X modulo p, and zero for the identity, given Fermat's theorem for p |
| ChordTangent.NonceX | crypto/secp256k1.go:323-326 | so what signing takes from a nonce is the X-coordinate of that multiple of the base point under pointAdd |
| Ecdsa.ScalarMult | crypto/secp256k1.go:113-122 | the conditional ladder computes k times the point for every k |
| Ecdsa.Sign | crypto/secp256k1.go:313-345 | returns the low-S form of the signature of the first usable nonce, which verifies under the signer's key; fails only on a bad key or when no attempt is usable |
| Ecdsa.Verify | crypto/secp256k1.go:347-373 | accepts exactly when the key is on the curve, both components are in range, the check point is not infinity and its x-coordinate is r modulo n |
| Ecdsa.VerifiesIff | crypto/secp256k1.go:355-372 | what that means, for every key whose order divides n: s K = z G + r Q has a solution K other than zero with x-coordinate r modulo n |
| Ecdsa.KeyVerifiesIff | crypto/secp256k1.go:355-372 | in scalars, for keys d G: s k = r d + z modulo n has a solution k for which k G has x-coordinate r |
| Ecdsa.VerifiesIffSigned | crypto/secp256k1.go:313-373 | so the signatures that verify under a signer's key are exactly those that some nonce makes |
| Ecdsa.BaseOnCurve | crypto/secp256k1.go:129-142 | the base point and its mirror image pass the check that public keys must pass; one step aside fails, and so does a coordinate not reduced |
| Ecdsa.SignedVerifies | crypto/secp256k1.go:332-342 | every signature made with a usable nonce verifies after low-S normalisation, and so does its high-S form |
| Ecdsa.BothFormsVerify | crypto/secp256k1.go:375-406 | (r, s) and (r, n - s) verify together for every point whose order divides n and every message, exactly one is low-S, and the transform is its own inverse |
| Ecdsa.KeyTakesBothForms | crypto/secp256k1.go:347-373 | so for every public key that passes the on-curve check |
| Ecdsa.Malleate | crypto/secp256k1.go:395-406 | on 64 bytes: the result parses to (r, n - s) for every signature in range |
| Ecdsa.ParseSerialized | crypto/secp256k1.go:385-417 | parsing the 64-byte form gives the signature back |
| Ecdsa.MalleatedBytes | crypto/secp256k1.go:395-417 | the malleated bytes of a verifying signature are other bytes that parse, verify and have the opposite low-S status |
| BlockVerify.BuildLevel16 | bench/blockverify.go:19-44 | fills the front of the destination with the next level, whatever the lanes held, and nothing behind it |
| BlockVerify.BuildTree16 | bench/blockverify.go:46-65 | with two scratch buffers of half the size the result is the Merkle root for every leaf count; the leaves are not written |
| BlockVerify.Fold16 | bench/fabric16.go:60-84 | sixteen lockstep folds are sixteen folds over as many levels as the first path has |
| BlockVerify.VerifySubtrees | bench/fabric16.go:91-97 | each distinct subtree gets the verdict of the first proof that names it |
| BlockVerify.FirstDecides | bench/fabric16.go:91-97 | a subtree counts exactly if the first proof that names it closes its L2 |
| BlockVerify.VerdictComplete | bench/fabric16.go:91-97 | so it counts if some proof names it and all that do close theirs |
| BlockVerify.CountValid16 | bench/fabric16.go:86-113 | for any groups whose first path is a shortest one: counts the lanes whose path, cut to that length, closes and whose subtree counts |
| BlockVerify.EvenGroupsCount | bench/fabric16.go:86-113 | where paths are equally long within each group that is the number of proofs of whole groups that close one by one |
| BlockVerify.CountIsValid | bench/fabric16.go:83-113 | where moreover the proofs of a subtree agree on L2 path and block root it is the number of proofs whose L1 and L2 folds both reach their roots, all of them iff all are valid |
| Accumulator.MountainSizes | accumulator/accumulator.go:47-57 | a strictly decreasing list of powers of two that sums to n, for every n < 2^64 |
| Accumulator.SizesUnique | accumulator/accumulator.go:47-57 | there is only one such list |
| Accumulator.BagPeaks | accumulator/accumulator.go:71-81 | combines the peaks from the right |
| Accumulator.MMR.Append | accumulator/accumulator.go:40-45 | adds the header's digest as the last leaf, keeps the others, and returns the root over all |
| Accumulator.MMR.ProveBlock | accumulator/accumulator.go:91-137 | fails exactly beyond the last height; otherwise returns the membership path and the root |
| Accumulator.MMR.CurrentRoot | accumulator/accumulator.go:83-89 | the bagged peaks are the root defined without peaks |
| Accumulator.BagOfPeaks | accumulator/accumulator.go:71-89 | bagging the peaks right to left gives the largest mountain paired with the root of all that follows |
| Accumulator.AccPathFolds | accumulator/accumulator.go:91-137 | completeness: for every size and height the path folds the leaf to the root |
| Accumulator.AccPathLength | accumulator/accumulator.go:91-137 | a path has at most as many elements as the size has bits |
| Accumulator.AccPathFits | accumulator/accumulator.go:145-148 | so below 2^64 headers the depth limit of 255 never rejects a path |
| Accumulator.AppendIsIncrement | accumulator/accumulator.go:40-69 | the peaks after an append are the old ones with the leaf pushed and equal mountains merged, a binary increment |
| Accumulator.RootRefinesIncremental | accumulator/accumulator.go:40-89 | recomputing everything refines an accumulator that keeps its size and peaks only |
| Accumulator.StaysProvable | accumulator/accumulator.go:25-29 | every height proved once stays provable, within the depth limit, after any further appends |
| Membership.HeaderIsMember | accumulator/accumulator.go:139-151 | soundness, for every path: a header that passes against the accumulator root over some headers has a path within the limit and is one of them, or preimages collide |
| Membership.HeaderAtHeight | accumulator/accumulator.go:139-151 | with the turns of one height it is the header there |
| Membership.HeaderProvedIff | accumulator/accumulator.go:91-151 | the path of a height proves the header at that height and no other |
| Accumulator.VerifyAnchor | accumulator/accumulator.go:153-181 | accepts exactly when some field carries the root, the first such field folds to the block root, and the depth limit holds |
| Accumulator.FirstCarries | accumulator/accumulator.go:165-173 | the field that is folded is the first that carries the root |
| Coverage.CoverageGaps | accumulator/accumulator.go:193-221 | returns exactly the maximal uncommitted runs of [0, tip], ascending and separated, for any list with repeats |
| Coverage.GapsUnique | accumulator/accumulator.go:193-196 | only one list of gaps meets that description |
| Coverage.NearestCommitted | accumulator/accumulator.go:223-242 | the largest committed height at or below the query among those that stay non-negative as int64, with the gap flag |
| Coverage.GapHonesty | accumulator/accumulator.go:193-242 | below 2^63 a lookup reports a gap iff the height lies in a reported gap, and otherwise returns the height itself |
| Coverage.FoundIff | accumulator/accumulator.go:223-242 | a committed height is found as itself iff it is below 2^63 |
| Coverage.NearestBreaks | accumulator/accumulator.go:234-236 | from 2^63 on the conversion to int64 makes the lookup miss every committed height |
| Teranode.MockNode.constructor | teranode/teranode.go:121-135 | an empty node that satisfies the invariant, with a capacity of at least one |
| Teranode.MockNode.SealBlock | teranode/teranode.go:147-224 | fails exactly on no transactions; otherwise the whole new state is the specified one, the invariant is kept, and with a new block hash so is the index |
| Teranode.BuildSubtrees | teranode/teranode.go:179-192 | cuts the leaves into consecutive chunks and builds each chunk's tree |
| Teranode.IndexBlock | teranode/teranode.go:214-218 | indexes every leaf, later duplicates overwriting |
| Teranode.LastWins | teranode/teranode.go:214-218 | a transaction that a block has several times is indexed at its last place |
| Teranode.HeaderParts | teranode/teranode.go:201-212 | the header carries the previous hash and the block root where verifiers read them |
| Teranode.HeaderRest | teranode/teranode.go:201-212 | its other fields are the four bytes of version 1, the low 16 bits of the height, and zeros |
| Teranode.SealKeepsInv | teranode/teranode.go:152-224 | sealing keeps the chain linked, every stored block consistent, and every carrier's root over exactly the earlier headers |
| Teranode.SealKeepsIndexed | teranode/teranode.go:214-219 | sealing a block with a new hash keeps every index entry pointing at its transaction |
| Teranode.SealKeepsEntry | teranode/teranode.go:214-218 | transactions outside the new block keep their entries |
| Teranode.MockNode.SubtreePathFor | teranode/teranode.go:231-242 | fails exactly on unknown transactions; otherwise path and root of the indexed subtree |
| Teranode.MockNode.BlockPathFor | teranode/teranode.go:244-264 | fails exactly on an unknown block or root; otherwise the path from the first subtree with that root |
| Teranode.MockNode.ServeInto | teranode/teranode.go:274-287 | both paths in the caller's buffers, for exactly the known transactions; in one buffer the second path lies over the front of the first |
| Teranode.MockNode.GenTxAccumulator | teranode/teranode.go:297-324 | fails exactly on blocks that carry no root; otherwise root, fields and the three paths of the generation transaction |
| Teranode.MockNode.ProveHeaderInAccumulator | teranode/teranode.go:326-349 | succeeds exactly for a carrier and an earlier block; then the membership path and the root the carrier committed |
| Teranode.MockNode.Orphan | teranode/teranode.go:397-402 | changes nothing but the best-chain mark |
| Teranode.MockNode.Restore | teranode/teranode.go:404-409 | changes nothing but the best-chain mark |
| Teranode.EntryServes | teranode/teranode.go:231-242 | an indexed transaction folds along its path to its subtree's root, within the depth of the capacity |
| Teranode.RootServes | teranode/teranode.go:244-264 | from every subtree root of a block the path ends in the root inside its header |
| NodeRuns.ReachedOk | teranode/teranode.go:147-224 | every state reachable by sealing, orphaning and restoring satisfies the invariant, and the index too while block hashes are distinct |
| NodeRuns.ReachedDistinct | teranode/teranode.go:201-212 | in every reachable state headers and their hashes are pairwise distinct, unless a header hashes to zero or two collide |
| NodeRuns.ServedProofsVerify | teranode/teranode.go:274-287 | in every reachable state each indexed transaction has a proof, accepted by VerifyOne iff its block is on the best chain |
| Disclosure.ValidProofMeans | fabric/fabric.go:78-93 | and the other way round, for every proof: what VerifyOne accepts under a view of a node's headers has a sealed block's header, and where lengths fit its leaf is a transaction of that block |
| NodeRuns.OrphanThenRestore | teranode/teranode.go:351-409 | orphaning takes exactly that header off the chain, and restoring puts it back |
| NodeRuns.SealedOnBest | teranode/teranode.go:219-222 | a block just sealed is stored, on the best chain, and a carrier iff it was to commit |
| NodeRuns.OnBestIff | teranode/teranode.go:147-224 | over whole runs: a sealed block stays as it was, and is on the best chain iff no orphaning of it since is left unrestored |
| NodeRuns.SealOf | teranode/teranode.go:147-224 | every block of a reachable node was sealed by some step of the run |
| NodeRuns.SealedIsServed | teranode/teranode.go:274-287 | a transaction sealed and not sealed again is served by that block, with a proof that VerifyOne accepts iff no orphaning of the block is left unrestored |
| NodeRuns.FrozenCore | bundle/bundle.go:8-10 | over any run that does not seal a transaction again its entry and its block stay as they are |
| NodeRuns.ResealMoves | teranode/teranode.go:214-218 | over any run that seals a transaction again, listed or as generation transaction, it ends up in a block that the node did not have before |
| Bundle.Build | bundle/bundle.go:69-109 | succeeds exactly when the fields are those of the output's transaction and the node knows it, and then gives the specified bundle |
| Bundle.Verify | bundle/bundle.go:111-153 | accepts exactly the bundles that pass depth, field, block and chain checks, and names the first check that fails |
| Disclosure.AcceptedMeans | bundle/bundle.go:111-153 | soundness, for every bundle accepted under a view of a node's headers: its header is a sealed block's, known or covered by a root that a carrier committed; where lengths fit its transaction is a leaf of that block; where the turns are a field's it is that field; unless preimages collide or hash to zero |
| Disclosure.TransactionInBlock | bundle/bundle.go:131-137 | what passes against a block's root is a leaf of one of its subtrees if the two paths are as long as the trees are high |
| Disclosure.ShiftedPasses | bundle/bundle.go:111-137 | without the lengths it need not be: every accepted bundle is also accepted with the subtree's root in the transaction's place |
| Disclosure.DisclosedField | bundle/bundle.go:125-129 | the disclosed field is the transaction's field at the place whose turns its path makes |
| Bundle.AnchorBindsToChain | bundle/bundle.go:155-171 | the carrying header is known, holds the claimed root, and the accumulator root is committed under it |
| Disclosure.CommittedRoot | bundle/bundle.go:155-171 | in the place of the generation transaction an anchor's root is the one that the carrying block committed |
| Disclosure.AnyFieldAnchors | accumulator/accumulator.go:153-181 | without the place it need not be: any field of any transaction of the block passes for the one that carries the root, if the paths keep the depth limit |
| Bundle.NeedsReanchor | bundle/bundle.go:186-202 | reports exactly the bundles whose header neither the view knows nor the anchor proves |
| Bundle.OrphanedStillPasses | bundle/bundle.go:186-188 | so not all orphaned ones: with an anchor at a later carrier on the best chain the bundle of an orphaned block keeps its proved header under the node's own view, unless header hashes collide or vanish |
| Bundle.HeldBundle.Reanchor | bundle/bundle.go:204-235 | fails, changing nothing, exactly on unknown transactions; otherwise replaces the three served parts and nothing else |
| Bundle.ReanchorIsIdentity | bundle/bundle.go:207-212 | after any run, refreshing a bundle gives the same bundle iff the run did not seal its transaction again |
| Bundle.MovedThoughOnChain | bundle/bundle.go:8-10 | the promise of unchanged paths is broken by any such seal: the old block is still on the best chain and the refreshed bundle is another one |
| Bundle.BuiltVerifies | bundle/bundle.go:111-137 | a built bundle passes the depth, field and block checks, for subtrees of at most 2^20 leaves |
| Bundle.RefreshedVerifies | bundle/bundle.go:204-235 | a refreshed bundle is what the node would build now, and passes the same checks |
| Bundle.GenTxCloses | teranode/teranode.go:297-324 | a carrier's generation transaction leads from the accumulator root to the root in its header, within the depth limit |
| Bundle.AnchorConvinces | bundle/bundle.go:160-171 | the anchor for a carrier and any earlier block binds under every view that knows the carrier's header and proves the earlier header |
| Bundle.PrunedVerifier | bundle/bundle.go:142-151 | after any run, for any carrier and any transaction in a block before it, the bundle with its anchor passes against every view that knows the carrier's header, that header alone among them, unless header hashes collide or vanish |
| Bundle.ViewsAreDigestOnly | teranode/teranode.go:353-360 | both header views depend on a header's digest only, as batch soundness asks |
| Disclosure.NodeViewSees | teranode/teranode.go:353-360 | the node's own header view knows no header whose digest it has not sealed |
| Disclosure.KeptViewSees | teranode/teranode.go:422-441 | a verifier that keeps headers of the node knows no header whose digest the node has not sealed |
| BundleCodec.Serialize | bundle/serialize.go:26-50 | produces the layout piece by piece |
| BundleCodec.Deserialize | bundle/serialize.go:52-92 | the sticky-error reader agrees on every byte string with the parser that defines the format |
| BundleCodec.RoundTripIff | bundle/serialize.go:26-203 | for values within their wire widths, decoding inverts encoding iff every path has at most 256 elements, and otherwise fails |
| BundleCodec.OnlyWholeBundle | bundle/serialize.go:52-92 | of accepted bytes no strict prefix and no extension is accepted |
| BundleCodec.DeserializedIff | bundle/serialize.go:52-223 | a bundle is read from exactly the bytes that are its encoding up to flags: the anchor's and every left sibling's zero may be any byte but one |
| BundleCodec.CanonicalIff | bundle/serialize.go:26-223 | accepted bytes are the encoding of the bundle they decode to iff every flag byte is zero or one |
| Wire.WireReader.Take | bundle/serialize.go:140-151 | takes exactly n bytes or sets the error, which then stays |
| Wire.WireReader.ReadPathElems | bundle/serialize.go:184-203 | reads a path or sets the error, rejecting counts above the ceiling |
| Wire.WireReader.Fields | bundle/serialize.go:205-223 | reads the counted fields or sets the error |
| Wire.DecodesSpellings | bundle/serialize.go:52-92 | for any format whose parts read exactly the spellings of what they write: a value decodes from its spellings and from nothing else |
| Wire.OnlyWhole | bundle/serialize.go:85-90 | of bytes that such a format accepts no strict prefix and no extension is accepted |
| Payment.Encode | payment/payment.go:108-124 | produces the layout of transaction and length-prefixed bundles |
| Payment.DecodeMessage | payment/payment.go:126-156 | agrees on every byte string with the parser that defines the format |
| Payment.DecodedIff | payment/payment.go:126-205 | a message is read from exactly the bytes that are its encoding up to the flags inside its bundles |
| Payment.MessageCanonicalIff | payment/payment.go:108-205 | accepted bytes are the encoding of the message they decode to iff every flag byte is zero or one |
| Payment.MessageRoundTrip | payment/payment.go:108-205 | decoding inverts encoding iff the message fits its wire widths and its bundles decode |
| Payment.OnlyWholeMessage | payment/payment.go:126-156 | of accepted bytes no strict prefix and no extension is accepted |
| Payment.BuildPreimage | payment/payment.go:47-68 | builds the bytes a signature covers |
| Payment.PreimageInjective | payment/payment.go:47-68 | with 33-byte keys those bytes determine the unsigned transaction and the input index |
| Payment.SighashBinds | payment/payment.go:70-73 | equal signature digests mean equal unsigned transactions and indices, or the two byte strings collide |
| Payment.PreimageIff | payment/payment.go:47-68 | what the signed bytes determine, exactly: equal bytes and equal key lengths iff equal unsigned transactions and equal input indices |
| Payment.KeyLengthMatters | payment/payment.go:54-58 | without the lengths they do not: behind any inputs, the signed one with its 33-byte key among them, a last input with a 12-byte key and one without a key but an output more have the same signed bytes |

## Left out

- FabricStream.Verifier.VerifyWire: the length cap of Go's int is not modelled; the 32-bit id counter cannot wrap, since a batch holds fewer than 2^32 proofs.
- AdditionLaw.SumNeverVanishes: that p is prime and that 7 is no cube modulo p are hypotheses; that they can be met is shown modulo 13 (`HypothesesHold`).
- ChordTangent.FormulasImplement: that pointAdd is associative on the points of the curve is a hypothesis of the ladder (`IsGroup`); division modulo p is a number lam with lam * den congruent to num.
- Ladder.FeInv: stops at a^(p-2); that this is the inverse rests on Fermat's little theorem and the primality of p.
- Ecdsa.Sign: the curve is an abstract group of order n with ModInverse as a function; nonces are a parameter (RFC 6979 and HMAC are not modelled), and the nonce is multiplied by the conditional ladder, which computes the same multiple as the masked one.
- Ecdsa.Verify: the element that coordinates on the curve stand for is a function, and that its order divides n a hypothesis; point decompression is not modelled.
- BlockVerify.CountValid16: leaves out the last |proofs| mod 16 proofs, as the code does, and asks that no path of a group is shorter than its first one, on which the code would run off its end.
- FabricCodec.DecodeBatch: bytes behind the last proof are ignored, as in the code, so extensions are not rejected.
- Coverage.CoverageGaps: asks for a tip below 2^64 - 1; at that tip the loop of the code does not end.
- Teranode.MockNode.SealBlock: the node's maps are map values held in fields; the lock is not modelled, nor the output values of the value oracle.
- Teranode.Indexed: after a collision between header hashes the newer block takes the older one's place in the map, so index entries are claimed only while block hashes are distinct.
- Fabric.BatchVerify: hash counts are unbounded, and the buffers DecodeBatch reuses between calls are values.
- SHA-256 itself, the AVX-512 kernel (one lane-wise function here) and the alternative hashing backend.
- Timing, throughput and report code, floating-point capacity figures, worker pools.
- Wallet policy (`walletalice`, `walletbob`) and the double-spend alert bus (`dsalert`): conjunctions of flags and filters.
- Constant-time claims.
