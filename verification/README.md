# Nova, modelled and proved in Dafny

This project models the algebraic core of Nova: fast algorithms that must equal a simple
specification, and folding protocols whose every run must keep a relation satisfied. Each
algorithm that the source runs in place, in a loop or on a mutable object is a Dafny method or
class, proved against a specification function; what the source promises is then proved about
that function.

| modules | what they model |
|---|---|
| `Field`, `FieldLaws`, `Group`, `Vectors`, `Polynomials`, `PowersOfTwo`, `Bits`, `Transcripts`, `Wrappers` | the integers modulo an arbitrary prime, a group of that exponent, inner products, evaluation, bit lengths, public-coin transcripts |
| `SmallMsm`, `MsmPartition`, `JointWindow`, `Wnaf`, `Glv` | multi-scalar multiplication, the two-scalar forms, the GLV split |
| `Curve`, `Xyzz` | the chord-and-tangent law, and the XYZZ buckets that refine it |
| `Ipa`, `IpaSoundness`, `Pedersen`, `PedersenCache`, `BatchInvert` | the inner product argument, extraction from accepted arguments, and what it rests on |
| `HyperKzg`, `HyperKzgSoundness`, `ChunkedDivision`, `Mercury`, `BatchOpening`, `BatchOpeningSoundness`, `Interpolation`, `PointExtraction`, `Gaussian` | the pairing-based evaluation arguments, what acceptance forces, and their polynomial arithmetic |
| `Sparse`, `Coo`, `R1cs`, `Padding`, `LinComb`, `Frontend` | linear combinations, the constraint compiler, sparse products, padding |
| `NovaFold`, `NovaSoundness`, `Neutron`, `NeutronSoundness` | the two folding schemes, as steps and as runs, and what their steps guarantee for arbitrary messages |
| `Circuit`, `EccGadget`, `ScalarMulGadget` | constraint gadgets, complete addition, scalar multiplication |
| `Ptau` | two printers and one reader of powers-of-tau files |

## How the pieces are modelled

* The field is the integers modulo a prime P greater than 7, left open. The group is an abelian
  group with P as exponent, left open; for the elliptic-curve refinements (`Curve`, `Xyzz`,
  `EccGadget`) points have coordinates and the law is the chord-and-tangent law.
* Random oracles and transcripts are arbitrary functions of everything absorbed so far, so every
  theorem holds for all challenges. Randomness of commitments is a parameter.
* Theorems about what a verifier's acceptance forces speak of several oracles that agree up to a
  challenge and differ there, with the transcript of the challenge written out; they hold for
  every message a prover could send.
* `msm_best`, `from_label`, curve serialisation and pairings are taken as contracts: a
  multi-scalar product is the naive sum, a generator is a function of engine, label and position,
  raw point encoding has a left inverse, and two pairings are equal exactly when the exponents are.
* Rayon chunking is a partition into chunks of the size the code computes, or of any size at least
  1, and a parallel reduction is a fold from the left; sums do not depend on the choice. The number
  of threads is a parameter.
* An `unwrap` on a missing inverse, a failing remainder assertion, an empty maximum, a modulus of
  the wrong size and an odd vector in the inner product argument are outcomes (`Panic`, `None`,
  not `ok`). Length assertions on caller-supplied keys, vectors and matrices (a key at least as
  long as the vector, a vector as long as the matrix is wide) are preconditions.
* Gadgets append wires and constraints to a mutable system. "Sound" quantifies over every
  assignment that satisfies the constraints; "complete" says the values the gadget itself assigns
  satisfy them.

## Where code and documentation differ

* The comments of both folding schemes promise that the folded pair is satisfying if and only if
  both inputs are. For a single challenge that is false, commitments included:
  `NovaFold.OneChallengeIsNotEnough` and `Neutron.OneChallengeIsNotEnough` give inputs and oracles
  for which `prove` turns an unsatisfied pair into a satisfied one. `NovaFold.HonestFoldExactly`,
  `NovaFold.HonestStrictFoldExactly` and `Neutron.HonestFoldExactly` say, for all inputs, exactly
  when the folded pair is satisfying. `NovaSoundness.ThreeProverSteps`,
  `NovaSoundness.ThreeRelaxedProverSteps` and `NeutronSoundness.HonestTree` are the equivalences
  that do hold, over several answers of the oracle.
* `R1CSShape::pad` promises a regular shape. Its branch for an already large enough number of
  variables raises the number of constraints without adding rows, and too many inputs are not
  repaired. `Padding.SquareRegularExactly` states when the promise holds and
  `Padding.SquareMissesARow` is an input for which the result is unusable;
  `Neutron.NewStructureOk` carries the condition over to NeutronNova. `pad_nonsquare` always
  delivers (`Padding.NonsquareMeaning`).
* Scalar multiplication of an input flagged infinite runs its incomplete loop on whatever
  coordinates the input carries. For the gadget's own (0, 0) the honest values satisfy the
  constraints on curves with a = 0, such as BN254 (Nova/src/provider/bn256_grumpkin.rs:207), and on
  no other (`ScalarMulGadget.ZeroLoopWorks`).

## Model

| member | source | states |
|---|---|---|
| `Ipa.TensorSplit` | Nova/src/provider/ipa_pc.rs:315-329 | the bit-indexed vector s of r : rs is s of rs scaled by r^-1, followed by s of rs scaled by r, so s is the tensor product of the pairs (r^-1, r) |
| `Ipa.ClaimRound` | Nova/src/provider/ipa_pc.rs:212-242 | one round of folding turns the committed claim <a,G> + <a,b>U into r^2 L + r^-2 R plus that claim, for every nonzero challenge |
| `Ipa.RoundsFold` | Nova/src/provider/ipa_pc.rs:207-257 | over all rounds: the claim about the folded vectors, with the generators and b folded by the tensor vector, is the claim about the inputs plus the weighted messages |
| `Ipa.FoldTensor` | Nova/src/provider/ipa_pc.rs:228-249 | committing to s of r : rs with the generators is committing to s of rs with the folded generators; same for the inner product of b |
| `Ipa.SameChallenges` | Nova/src/provider/ipa_pc.rs:294-301 | the verifier replaying the messages of an honest argument squeezes the challenges the prover squeezed, all of them nonzero |
| `Ipa.NoPanic` | Nova/src/provider/ipa_pc.rs:224-225 | the prover never unwraps the inverse of zero when the oracle never returns zero |
| `Ipa.HonestRun` | Nova/src/provider/ipa_pc.rs:331-368 | after an honest run the single final equation holds if and only if the instance commitment equals the commitment to a together with the inner product |
| `Ipa.Completeness` | Nova/src/provider/ipa_pc.rs:174-369 | for every power-of-two length below 2^32, all vectors, keys, oracles and logs: an argument made from a commitment to a and the value <a,b> is accepted, unless a challenge was zero and the prover panicked |
| `Ipa.HonestRunAcceptsExactly` | Nova/src/provider/ipa_pc.rs:174-369 | with a true commitment, an honest argument for a claimed value c is accepted exactly when c U = <a,b> U |
| `Ipa.ProveLoop` | Nova/src/provider/ipa_pc.rs:197-264 | the loop that reassigns both vectors and the key computes the recursive rounds, messages and transcript, or panics exactly when they do; for a length that is not a power of two it always panics, on the length assertion at an odd round |
| `Ipa.Prove` | Nova/src/provider/ipa_pc.rs:174-264 | for vectors of any lengths: the length error, the panic on lengths that are not powers of two, or the argument and final transcript of the specification |
| `Ipa.SqueezeAll` | Nova/src/provider/ipa_pc.rs:294-301 | the challenges are those determined by the messages and the transcript so far |
| `Ipa.Tensor` | Nova/src/provider/ipa_pc.rs:315-329 | the loop over positions, using the highest set bit and squared challenges, fills in the tensor vector |
| `Ipa.FinalCheck` | Nova/src/provider/ipa_pc.rs:331-368 | the two commitments to concatenated keys are equal, and the argument is accepted, exactly when sum r_i^2 L_i + sum r_i^-2 R_i + commA + c U = aHat (<s, G> + <b, s> U) |
| `Ipa.Verify` | Nova/src/provider/ipa_pc.rs:266-369 | length error, failed batch inversion, or the final verdict: the outcome that IpaSoundness.VerdictExactly pins down for every argument |
| `IpaSoundness.ChallengesRead` | Nova/src/provider/ipa_pc.rs:294-301 | challenge i is the answer to the transcript of all earlier messages and challenges followed by L_i and R_i, and to no other |
| `IpaSoundness.VerdictExactly` | Nova/src/provider/ipa_pc.rs:266-369 | for every argument, honest or not: the length error exactly when n = len b = 2^len L, len L = len R or len L < 32 fails; the inversion error exactly when the lengths fit and a challenge is zero; acceptance exactly when the lengths fit, no challenge is zero and the weighted equation holds at the challenges of the written-out transcripts |
| `IpaSoundness.EquationStep` | Nova/src/provider/ipa_pc.rs:294-368 | peeling off one round: the equation holds for all rounds if and only if that of the later rounds holds for the folded generators, b and point |
| `IpaSoundness.NodeOpens` | Nova/src/provider/ipa_pc.rs:212-242 | extraction of one round: openings met under three challenges with different squares after the same L and R determine an opening of the point before the round |
| `IpaSoundness.TreeOpens` | Nova/src/provider/ipa_pc.rs:266-369 | from a tree of accepted arguments, three challenges with different squares per round, the vector computed from challenges and last scalars alone opens commA + c U as <a,G> + <a,b> U; acceptance alone gives the lengths |
| `IpaSoundness.TwoTrees` | Nova/src/provider/ipa_pc.rs:266-369 | two such trees under different challenges for the extra generator give two representations of commA computed from field elements alone; if they are the same one, c = <a,b> and commA commits to a |
| `BatchInvert.InversesMeaning` | Nova/src/spartan/mod.rs:120-145 | no result exactly when some entry is zero; a result exactly when it is the list of entrywise inverses |
| `BatchInvert.BatchInvertSerial` | Nova/src/spartan/mod.rs:120-145 | the two running-product passes return the entrywise inverses, or an error exactly when an entry is zero |
| `BatchInvert.ProductTree` | Nova/src/spartan/mod.rs:62-99 | first level: the product of every chunk, and the running products inside it |
| `BatchInvert.InverseTree` | Nova/src/spartan/mod.rs:73-114 | second level: the inverses of the chunk products give the inverses of all entries |
| `BatchInvert.BatchInvertChunked` | Nova/src/spartan/mod.rs:54-117 | the two-level method equals the serial one for every chunk size |
| `BatchInvert.BatchInvert` | Nova/src/spartan/mod.rs:54-117 | and for the chunk size derived from any number of threads |
| `Pedersen.CommitAdd` | Nova/src/provider/pedersen.rs:349-356 | commitments to the sum of two vectors are sums of commitments, with the blinding factors added |
| `Pedersen.CommitScale` | Nova/src/provider/pedersen.rs:349-356 | commitments to a multiple are multiples of commitments |
| `Pedersen.CommitZeros` | Nova/src/provider/pedersen.rs:349-356 | the unblinded commitment to zeros is the identity |
| `PedersenCache.SetupCache.Lookup` | Nova/src/provider/pedersen.rs:271-286 | finds the smallest cached key of the engine and label that is long enough, and nothing exactly when there is none |
| `PedersenCache.SetupCache.Insert` | Nova/src/provider/pedersen.rs:317-332 | replaces shorter entries of the label, and leaves the cache alone when a long enough one appeared meanwhile |
| `PedersenCache.SetupCache.Setup` | Nova/src/provider/pedersen.rs:267-343 | an uninterrupted setup returns what a fresh generation of the rounded size gives, and keeps the cache genuine with one entry per label |
| `PedersenCache.ShortenedIsFresh` | Nova/src/provider/pedersen.rs:300-307 | shortening a longer key gives the key a fresh generation of the shorter size would give |
| `PedersenCache.InsertKeeps` | Nova/src/provider/pedersen.rs:317-332 | insertion keeps every entry genuine and one entry per engine and label |
| `PedersenCache.InsertGrows` | Nova/src/provider/pedersen.rs:317-332 | no insertion shrinks or loses the entry of any label |
| `PedersenCache.StepKeepsInv` | Nova/src/provider/pedersen.rs:267-343 | every critical section of every concurrent setup keeps the invariant |
| `PedersenCache.RunCorrect` | Nova/src/provider/pedersen.rs:267-343 | over every interleaving of any number of setups, each returned key is the fresh key of its rounded size, and the cache holds one entry per label |
| `PedersenCache.SizesNeverDecrease` | Nova/src/provider/pedersen.rs:267-343 | between any two states of a run the size cached for a label does not go down |
| `PedersenCache.HitIsLongEnough` | Nova/src/provider/pedersen.rs:287-307 | in every reachable state the prefix taken on a hit is inside the cached key |
| `PowersOfTwo.NextPowerOfTwoIsLeast` | Nova/src/provider/pedersen.rs:269-269 | the rounded size is the least power of two that is large enough |
| `Coo.New` | Nova/src/r1cs/sparse.rs:259-288 | building from triples succeeds exactly when every row exists and its columns strictly increase; row r of the result is the list of the triples of row r |
| `Coo.Collect` | Nova/src/r1cs/sparse.rs:332-392 | iterating yields one triple per stored entry, each with the row that holds it |
| `Coo.SortedAt` | Nova/src/r1cs/sparse.rs:259-288 | in a list sorted by rows, the entries of a row are contiguous and start after all entries of earlier rows |
| `Coo.BuildThenIterate` | Nova/src/r1cs/sparse.rs:259-392 | building from triples sorted by row and iterating gives the triples back |
| `Coo.RoundTrip` | Nova/src/r1cs/sparse.rs:472-484 | build then iterate, as one run: refused exactly when building is, and the identity on sorted input |
| `Sparse.SmallMulIsMul` | Nova/src/r1cs/sparse.rs:110-133 | the additions used for coefficients of magnitude 2 to 7 are multiplication by the coefficient |
| `Sparse.SortedValue` | Nova/src/r1cs/sparse.rs:41-107 | sorting the entries of a row into +1, -1, small and general lists keeps the value of the row on every vector |
| `Sparse.FromSparse` | Nova/src/r1cs/sparse.rs:41-107 | the spans of row r in the four lists hold exactly the sorted entries of row r, for every row |
| `Sparse.ComputeRowSingle` | Nova/src/r1cs/sparse.rs:136-160 | the four loops over the lists give the product of the row and the vector |
| `Sparse.MultiplyPrecomputed` | Nova/src/r1cs/sparse.rs:201-213 | the accelerated product equals the plain sparse product |
| `Sparse.MultiplyAdd` | Nova/src/r1cs/sparse.rs:308-319 | the product is additive in the vector |
| `Sparse.MultiplyScale` | Nova/src/r1cs/sparse.rs:308-319 | the product commutes with scaling the vector |
| `R1cs.Iter.Next` | Nova/src/r1cs/sparse.rs:332-392 | yields the entries in storage order, each with its row, skipping empty rows, and ends after the last |
| `R1cs.IsValid` | Nova/src/r1cs/mod.rs:144-184 | true exactly when every stored entry lies in an existing row and column |
| `R1cs.NewShape` | Nova/src/r1cs/mod.rs:144-184 | the shape is built exactly when all three matrices pass, and is an InvalidIndex error otherwise |
| `R1cs.RelaxedForm` | Nova/src/r1cs/mod.rs:447-529 | a strict pair satisfies the shape exactly when its relaxed form (u = 1, E = 0, identity commitment) satisfies the relaxed relation |
| `Padding.ApplyPad` | Nova/src/r1cs/mod.rs:702-723 | renumbering the columns in place and extending the row pointers gives the padded matrix |
| `Padding.PadMatrixProduct` | Nova/src/r1cs/mod.rs:702-723 | the padded matrix times the vector with zeros inserted after the variables is the product followed by zeros |
| `Padding.PadKeepsEquation` | Nova/src/r1cs/mod.rs:694-738 | padding neither adds nor removes solutions of the relaxed equation, for any larger sizes |
| `Padding.PadKeepsSat` | Nova/src/r1cs/mod.rs:1055-1068 | a padded witness satisfies the padded shape, commitments included, exactly when the witness satisfies the shape |
| `Padding.NonsquareMeaning` | Nova/src/r1cs/mod.rs:694-738 | pad_nonsquare always gives a regular shape that is a padding of the input, with the fewest variables and constraints possible |
| `Padding.PadNonsquare` | Nova/src/r1cs/mod.rs:694-738 | the in-place steps on the three matrices give that shape |
| `Padding.SquareOkExactly` | Nova/src/r1cs/mod.rs:623-686 | pad keeps one matrix row per constraint if and only if the shape was regular, has fewer variables than the target side, or already as many constraints; then it is a padding of the input |
| `Padding.Pad` | Nova/src/r1cs/mod.rs:623-686 | the in-place steps and the two shortcuts give the shape these lemmas speak of |
| `Padding.SquareRegularExactly` | Nova/src/r1cs/mod.rs:621-686 | pad delivers a usable regular shape, as its comment promises, if and only if the shape was regular or both its variables and its inputs are below the target side |
| `Padding.SquareMissesARow` | Nova/src/r1cs/mod.rs:634-647 | three constraints over four variables: the result claims four constraints but its matrices have three rows |
| `Padding.SquareKeepsTooManyInputs` | Nova/src/r1cs/mod.rs:630-650 | one constraint, one variable, one input: the result is usable but not regular |
| `NovaFold.FoldedDefect` | Nova/src/r1cs/mod.rs:989-1052 | the defect of every row of the folded pair is D1 + r M + r^2 D2, where M involves T; for all vectors, T and r |
| `NovaFold.FoldEquation` | Nova/src/r1cs/mod.rs:584-619 | with T computed from Z1 + Z2 in one product, as A(Z)B(Z) - uC(Z) - E1 - E2, the folded equation holds for every challenge when both equations hold |
| `NovaFold.FoldRelaxedIsSat` | Nova/src/r1cs/mod.rs:1022-1237 | folding two satisfying relaxed pairs gives a satisfying relaxed pair, equation and both commitments |
| `NovaFold.FoldIsSat` | Nova/src/r1cs/mod.rs:533-1208 | same for a relaxed and a strict pair |
| `NovaFold.ThreeChallenges` | Nova/src/nova/nifs.rs:24-29 | for fixed witnesses, error vectors and T: if the folded equation holds at three distinct challenges, both input equations hold and T is the cross term |
| `NovaFold.HonestFoldExactly` | Nova/src/nova/nifs.rs:117-167 | for any two relaxed pairs, the honestly folded pair satisfies equation and both commitments if and only if (r = 1 or every row defect of the first pair is r times that of the second) and the gaps of the commitments cancel |
| `NovaFold.HonestStrictFoldExactly` | Nova/src/nova/nifs.rs:24-73 | the same for a strict second pair: (r = 1 or aligned defects), cancelling gaps of the witness commitments, and no gap of the error commitment |
| `NovaFold.HonestEquationExactly` | Nova/src/r1cs/mod.rs:533-619 | the equation alone: with the honest T it holds after the fold exactly when r = 1 or the row defects align |
| `NovaFold.FoldGaps` | Nova/src/r1cs/mod.rs:1022-1237 | whatever T is, folding adds r times, or r^2 times, the amount by which the second commitments fail to open |
| `NovaFold.ThreeHonestFolds` | Nova/src/nova/nifs.rs:24-29 | what does hold of the documented guarantee: honest folds at three distinct challenges are all satisfying, commitments included, if and only if both relaxed pairs are |
| `NovaFold.ThreeStrictFolds` | Nova/src/nova/nifs.rs:24-73 | the same for a strict second pair |
| `NovaFold.OneChallengeIsNotEnough` | Nova/src/nova/nifs.rs:24-73 | a concrete first pair that does not satisfy the shape, with true commitments, and a satisfying strict pair: for an oracle that answers 1, prove folds them into a satisfying pair |
| `NovaFold.DefaultIsSat` | Nova/src/r1cs/mod.rs:925-1100 | the all-zero default pair satisfies every shape |
| `NovaFold.RunKeepsSat` | Nova/src/nova/nifs.rs:36-167 | over any sequence of folds of satisfying strict and relaxed pairs, under any oracle, the running pair stays satisfying |
| `NovaFold.VerifierAgrees` | Nova/src/nova/nifs.rs:36-201 | the verifier, from public inputs and the sent commitments only, reaches the prover's running instance after any number of folds |
| `NovaFold.Prove` | Nova/src/nova/nifs.rs:36-73 | absorb, commit to T, squeeze and fold: the step whose result ThreeProverSteps decides |
| `NovaFold.Verify` | Nova/src/nova/nifs.rs:80-107 | the instance of the step that ThreeVerifierSteps and VerifierMoves speak of |
| `NovaFold.ProveRelaxed` | Nova/src/nova/nifs.rs:120-167 | the step that folds a relaxed pair, decided by ThreeRelaxedProverSteps |
| `NovaFold.VerifyRelaxed` | Nova/src/nova/nifs.rs:170-201 | the instance of the step that ThreeRelaxedVerifierSteps speaks of |
| `NovaSoundness.ThreeProverSteps` | Nova/src/nova/nifs.rs:24-73 | prove under three oracles whose answers differ at the written-out transcript [digest, U2, comm_T]: all three results are satisfying if and only if the running pair and the strict pair are |
| `NovaSoundness.ThreeRelaxedProverSteps` | Nova/src/nova/nifs.rs:117-167 | the same for prove_relaxed, at [digest, U1, U2, comm_T] |
| `NovaSoundness.MixedIsHonest` | Nova/src/r1cs/mod.rs:533-619 | when both equations hold, the cross term is the only T that leaves no mixed part |
| `NovaSoundness.ThreeAnyFolds` | Nova/src/r1cs/mod.rs:989-1237 | for any T and any point sent for it: folds at three distinct challenges are all satisfying if and only if both pairs are, the point commits to T, and T is the cross term |
| `NovaSoundness.ThreeVerifierSteps` | Nova/src/nova/nifs.rs:75-107 | verify on any message, under three oracles that differ at the written-out transcript: the three instances are satisfied by the folds of two witnesses along T if and only if both pairs are satisfying, the message commits to T and T is the cross term |
| `NovaSoundness.ThreeRelaxedVerifierSteps` | Nova/src/nova/nifs.rs:170-201 | the same for a relaxed second pair |
| `NovaSoundness.VerifierMoves` | Nova/src/nova/nifs.rs:80-107 | for any U1, U2 and message, the instances under two oracles differ in u by the difference of their answers at the written-out transcript, and in the commitments and X by that multiple of U2 and of the message |
| `LinComb.Indexer.BinarySearch` | Nova/src/frontend/lc.rs:76-115 | finds the key or the position that keeps the list sorted |
| `LinComb.Indexer.InsertOrUpdate` | Nova/src/frontend/lc.rs:76-115 | with the last-inserted shortcut or without it, the coefficient is added at its key in a list kept strictly sorted |
| `LinComb.AddTermCoeff` | Nova/src/frontend/lc.rs:76-115 | that changes the coefficient of the one key by the added amount and no other |
| `LinComb.EvalAddTerm` | Nova/src/frontend/lc.rs:195-221 | the value of the list grows by coefficient times variable |
| `LinComb.EvalAddScaled` | Nova/src/frontend/lc.rs:348-367 | the value after adding k times another list is the value plus k times the other value |
| `LinComb.LinearCombination.AddUnsimplified` | Nova/src/frontend/lc.rs:195-221 | adds the term on the side of its variable and leaves the other side alone |
| `LinComb.LinearCombination.SubUnsimplified` | Nova/src/frontend/lc.rs:224-245 | adds the negated term |
| `LinComb.LinearCombination.AddScaled` | Nova/src/frontend/lc.rs:348-367 | adds k times another combination on both sides |
| `LinComb.LinearCombination.Eval` | Nova/src/frontend/lc.rs:258-280 | the accumulated value is the sum of coefficient times assignment over inputs and auxiliaries |
| `Frontend.ShapeCS.Alloc` | Nova/src/frontend/shape_cs.rs:59-68 | returns a variable that was not in scope before |
| `Frontend.ShapeCS.AllocInput` | Nova/src/frontend/shape_cs.rs:70-79 | returns an input that was not in scope before |
| `Frontend.ShapeCS.Enforce` | Nova/src/frontend/shape_cs.rs:81-94 | appends the constraint and nothing else |
| `Frontend.MatrixBuffer.AddRow` | Nova/src/frontend/r1cs.rs:87-140 | appends the nonzero terms of a combination as one row, inputs shifted past the auxiliaries, zero coefficients dropped |
| `Frontend.ShapeCS.R1csShape` | Nova/src/frontend/r1cs.rs:51-79 | always succeeds on a recorded system; each matrix holds one row per constraint, in order |
| `Frontend.RowMeaning` | Nova/src/frontend/r1cs.rs:105-140 | the compiled row times aux ++ inputs is the value of the linear combination |
| `Frontend.CompiledRows` | Nova/src/frontend/r1cs.rs:51-140 | row r of A, B, C times z is the value of the three combinations of constraint r |
| `Frontend.CompilerCorrect` | Nova/src/frontend/r1cs.rs:51-140 | the compiled R1CS equation holds for z if and only if every recorded constraint holds for the assignment |
| `Frontend.Products` | Nova/src/r1cs/mod.rs:380-404 | the whole chain: shape, classification and accelerated product of a recorded system yield the values of the linear combinations, row by row |
| `Frontend.CheckConstraints` | Nova/src/r1cs/mod.rs:493-510 | the row comparison on those products decides whether every recorded constraint holds |
| `Curve.AddOnCurve` | Nova/src/provider/msm.rs:132-168 | the chord-and-tangent law stays on the curve in every branch |
| `Curve.SameAbscissa` | Nova/src/provider/msm.rs:94-126 | two curve points with one abscissa are equal or opposite, which is why the equal-x branch has two outcomes |
| `Xyzz.RepIsAffine` | Nova/src/provider/msm.rs:175-186 | coordinates with ZZZ^2 = ZZ^3 stand for (X/ZZ, Y/ZZZ), or infinity when ZZ is zero |
| `Xyzz.BranchTest` | Nova/src/provider/msm.rs:105-113 | comparing cross products compares abscissae |
| `Xyzz.DoubleFormula` | Nova/src/provider/msm.rs:68-91 | the doubling formulas compute the affine tangent law on all representatives of a point |
| `Xyzz.AddFormula` | Nova/src/provider/msm.rs:94-126 | the addition formulas compute the affine chord law on all representatives of two points |
| `Xyzz.DoubleCorrect` | Nova/src/provider/msm.rs:68-91 | doubling is right for every point, including points of order two |
| `Xyzz.Bucket.DoubleInPlace` | Nova/src/provider/msm.rs:68-91 | the in-place doubling yields the doubled point and keeps ZZ^3 = ZZZ^2 and the curve equation |
| `Xyzz.Bucket.AddAssignBucket` | Nova/src/provider/msm.rs:94-126 | the in-place addition yields the sum in every branch: either operand infinite, equal, opposite, generic |
| `Xyzz.Bucket.AddAffine` | Nova/src/provider/msm.rs:132-168 | the mixed addition yields the sum in every branch |
| `Xyzz.Bucket.ToCurve` | Nova/src/provider/msm.rs:175-186 | the conversion of a reachable bucket never fails and gives its point |
| `Bits.ScalarNumBits` | Nova/src/provider/msm.rs:194-203 | the scan from the top byte finds the bit length of the whole number |
| `Bits.NumBitsBound` | Nova/src/provider/msm.rs:194-203 | the bit length is at most k exactly for numbers below 2^k |
| `Bits.SplitAt` | Nova/src/provider/msm.rs:207-214 | a number is its low bits plus its shifted part |
| `SmallMsm.RunningSum` | Nova/src/provider/msm.rs:733-738 | the running sum from the top bucket weighs bucket i by its number |
| `SmallMsm.MsmBinarySerial` | Nova/src/provider/msm.rs:683-708 | adding the bases of nonzero scalars is the sum for scalars 0 and 1 |
| `SmallMsm.Msm10Serial` | Nova/src/provider/msm.rs:716-740 | one bucket per value gives the sum for scalars below 2^max_num_bits |
| `SmallMsm.UnitWindow` | Nova/src/provider/msm.rs:790-796 | a unit scalar contributes to window 0 only, which is what the special case relies on |
| `SmallMsm.WindowSum` | Nova/src/provider/msm.rs:783-822 | the buckets of one window, with the unit scalars special-cased, give the sum of the window digits |
| `SmallMsm.WindowStep` | Nova/src/provider/msm.rs:825-839 | the shifted scalars are one window plus 2^c times the scalars shifted once more |
| `SmallMsm.MsmSmallRestSerial` | Nova/src/provider/msm.rs:760-840 | the windowed algorithm is exact for every window size the code picks |
| `SmallMsm.RunChunks` | Nova/src/provider/msm.rs:742-753 | splitting the input into chunks of any size and adding the results changes nothing |
| `SmallMsm.MsmSmallWithMaxNumBits` | Nova/src/provider/msm.rs:656-681 | every dispatch (zero bits, one bit, up to ten bits, more) returns the naive sum, for any number of threads |
| `SmallMsm.MsmSmall` | Nova/src/provider/msm.rs:647-653 | with the bit length taken from the largest scalar, every nonempty input gives the naive sum; the empty one panics |
| `MsmPartition.Classify` | Nova/src/provider/msm.rs:244-286 | the packed words of the nonzero terms stand for the whole naive sum |
| `MsmPartition.GroupMeaning` | Nova/src/provider/msm.rs:257-279 | a scalar of a positive group, or the negation of one of a negative group, fits the bits of that group |
| `MsmPartition.TermSumPermuted` | Nova/src/provider/msm.rs:288-290 | the sum does not depend on the order of the packed words |
| `MsmPartition.SortByGroup` | Nova/src/provider/msm.rs:288-290 | a permutation, sorted by the group bits |
| `MsmPartition.PartitionPoint` | Nova/src/provider/msm.rs:295-304 | splits a sorted tail into the words up to group g and those after |
| `MsmPartition.Boundaries` | Nova/src/provider/msm.rs:295-304 | the eleven ranges cover the words exactly once, each holding one group |
| `MsmPartition.GroupScalars` | Nova/src/provider/msm.rs:306-317 | the low 64 bits extracted for a small group are the whole (negated) scalar, below 2^bits |
| `MsmPartition.SmallPair` | Nova/src/provider/msm.rs:364-399 | positive minus negative partial sums are the terms of the two groups |
| `MsmPartition.UnitPair` | Nova/src/provider/msm.rs:346-360 | accumulated bases of +1 minus those of -1 are the terms of the unit groups |
| `MsmPartition.AllClasses` | Nova/src/provider/msm.rs:345-421 | the nested joins add up every group once |
| `MsmPartition.CombineClasses` | Nova/src/provider/msm.rs:327-421 | running all groups gives the sum of the terms |
| `MsmPartition.AccumulateBases` | Nova/src/provider/msm.rs:610-632 | the chunked accumulation is the sum of the bases |
| `MsmPartition.MsmSimple` | Nova/src/provider/msm.rs:425-432 | the fallback is the naive sum |
| `MsmPartition.MultiScalarMul` | Nova/src/provider/msm.rs:228-422 | msm equals the naive sum of coeffs[i] * bases[i] for all inputs and thread counts: early exits, fallback, classification, sort, partition and all groups |
| `JointWindow.PairTable` | Nova/src/provider/msm.rs:441-458 | entry 4i + j holds i L + j R for all two-bit i and j |
| `JointWindow.ScanByte` | Nova/src/provider/msm.rs:466-482 | four joint windows move the accumulator down by one byte of both scalars |
| `JointWindow.VartimeDoubleScalarMul` | Nova/src/provider/msm.rs:437-483 | the scan returns s L + t R for the integers the two byte strings stand for |
| `Wnaf.DigitFacts` | Nova/src/provider/msm.rs:520-560 | each digit is zero or odd in [-7, 7], and what is left is divisible by 16 after a nonzero digit |
| `Wnaf.HalvesBound` | Nova/src/provider/msm.rs:520-560 | the bound on the rest drops by one bit per digit, so 129 digits are enough |
| `Wnaf.ContinuesStep` | Nova/src/provider/msm.rs:520-560 | after a nonzero digit the next three are zero |
| `Wnaf.TakeDigit` | Nova/src/provider/msm.rs:520-560 | one turn of the loop, the overflow into bit 128 included, with no carry lost |
| `Wnaf.U128Wnaf` | Nova/src/provider/msm.rs:520-560 | for every u128: at most 129 digits, each zero or odd in [-7, 7] and followed by three zeros when nonzero, adding up to the number |
| `Wnaf.OddMultiples` | Nova/src/provider/msm.rs:576-584 | the table holds 1, 3, 5 and 7 times the base |
| `Wnaf.AddPosition` | Nova/src/provider/msm.rs:589-605 | one position of all digit strings is added, negative digits by subtraction, short strings skipped |
| `Wnaf.Interleave` | Nova/src/provider/msm.rs:562-607 | doubling and adding from the top position gives the sum of value times base |
| `Wnaf.EndoDoubleScalarMul` | Nova/src/provider/msm.rs:562-607 | the schedule of four digit strings gives the four-term sum over signed bases and their endomorphism images |
| `Wnaf.SplitMul` | Nova/src/provider/msm.rs:490-518 | a split scalar acts as k1 A + k2 endo(A) with the signs and the flipped second sign of the code |
| `Wnaf.BatchDoubleScalarMulEndo` | Nova/src/provider/msm.rs:490-518 | for all pairs of points: s0 L_i + s1 R_i, given splits whose halves are below 2^128, as Glv delivers them |
| `Glv.AddMulCarry` | Nova/src/provider/bn256_grumpkin.rs:40-43 | low and high limb of acc + left * right + carry, which never overflows two limbs |
| `Glv.MulRow` | Nova/src/provider/bn256_grumpkin.rs:45-57 | one row adds left * right * 2^(64 i) to the accumulator |
| `Glv.Mul512` | Nova/src/provider/bn256_grumpkin.rs:45-57 | the eight limbs are the exact product |
| `Glv.ScalarIsNegative` | Nova/src/provider/bn256_grumpkin.rs:65-68 | true exactly for residues above the middle |
| `Glv.HalfExact` | Nova/src/provider/bn256_grumpkin.rs:88-97 | truncating a magnitude to 128 bits keeps the half if and only if the magnitude is below 2^128 |
| `Glv.GammasApproximate` | Nova/src/provider/bn256_grumpkin.rs:35-38 | the constants are what the rounding needs: GAMMA_i r misses 2^256 B_i by less than r / 2, and B1, B2 span with A1 a lattice of determinant r |
| `Glv.QuotientError` | Nova/src/provider/bn256_grumpkin.rs:73-78 | the high half of GAMMA s, times r, lies within 1.5 r below and 0.5 r above B s |
| `Glv.HalvesAreSmall` | Nova/src/provider/bn256_grumpkin.rs:71-97 | for every BN254 scalar and its two quotients, the second half has a magnitude below 2^128, whatever zeta is, and the first one too when zeta B1 = A1 |
| `Glv.DecomposeBn256Scalar` | Nova/src/provider/bn256_grumpkin.rs:71-97 | the halves always satisfy s = k1 - k2 zeta; each truncated signed half is exact if and only if its magnitude is below 2^128; for the BN254 modulus that holds of k2 for every scalar, and for the matching root zeta of k1 too, so that every scalar is split exactly |
| `Glv.BatchVartimeDoubleScalarMul` | Nova/src/provider/bn256_grumpkin.rs:129-140 | split and recode once, then every pair: s0 L_i + s1 R_i for all scalars of the BN254 field, with no hypothesis on the halves |
| `Polynomials.QuotientDivides` | Nova/src/provider/hyperkzg.rs:947-956 | the Horner recurrence gives h with f(x) = (x - u) h(x) + f(u), at every x |
| `ChunkedDivision.HornerInChunks` | Nova/src/provider/hyperkzg.rs:965-973 | every chunk holds the Horner values of its own part |
| `ChunkedDivision.JoinHeads` | Nova/src/provider/hyperkzg.rs:975-982 | the backward pass over chunk heads makes every head the Horner value of the whole tail |
| `ChunkedDivision.CorrectChunks` | Nova/src/provider/hyperkzg.rs:984-993 | the correction pass, whose last chunk may be missing, makes every entry the Horner value of its tail |
| `ChunkedDivision.DivByMonomial` | Nova/src/provider/hyperkzg.rs:957-995 | the chunked in-place division is the one-pass quotient for every nonempty f, every u and every target number of chunks |
| `HyperKzg.FoldKeepsMle` | Nova/src/provider/hyperkzg.rs:1079-1091 | folding by the last variable keeps the multilinear evaluation at the other variables |
| `HyperKzg.FoldAll` | Nova/src/provider/hyperkzg.rs:1079-1091 | the list of folded polynomials |
| `HyperKzg.ConsistentExactly` | Nova/src/provider/hyperkzg.rs:1138-1153 | the check 2rY = r(1-x)(y+ + y-) + x(y+ - y-) holds on true values if and only if r = 0 or Y is the folded polynomial at r^2 |
| `HyperKzg.ChainEndsAtMle` | Nova/src/provider/hyperkzg.rs:1138-1153 | all ell checks hold on the honest triples if and only if r = 0 or the claimed value is the multilinear evaluation |
| `HyperKzg.BatchedValue` | Nova/src/provider/hyperkzg.rs:1024-1036 | the batched polynomial at x is the Horner combination of the values |
| `HyperKzg.CommitIsValue` | Nova/src/provider/hyperkzg.rs:584-591 | with powers of tau as generators, an unblinded commitment is f(tau) g |
| `HyperKzg.OpenMeaning` | Nova/src/provider/hyperkzg.rs:934-1001 | the opening commits to the quotient, and the quotient satisfies the division identity at tau |
| `HyperKzg.BatchedEquation` | Nova/src/provider/hyperkzg.rs:1163-1226 | the seven-term grouping equals tau times the right side when the three openings are true |
| `HyperKzg.HonestPairing` | Nova/src/provider/hyperkzg.rs:1181-1235 | for honest openings the left side is tau times the right side, so the pairings agree |
| `HyperKzg.HonestRunAcceptsExactly` | Nova/src/provider/hyperkzg.rs:922-1238 | for every table, point, claimed value and oracle, an honest argument is accepted if and only if the challenge r is 0 or the value is the multilinear evaluation |
| `HyperKzg.Completeness` | Nova/src/provider/hyperkzg.rs:922-1238 | the argument for the true evaluation is accepted, for every ell >= 1 |
| `HyperKzg.PolyEval` | Nova/src/provider/hyperkzg.rs:1007-1015 | Horner's loop evaluates the polynomial |
| `HyperKzg.BatchPolynomial` | Nova/src/provider/hyperkzg.rs:1024-1036 | the in-place accumulation gives the batched polynomial |
| `HyperKzg.Prove` | Nova/src/provider/hyperkzg.rs:922-1112 | argument and transcript are those of the specification |
| `HyperKzg.CheckChain` | Nova/src/provider/hyperkzg.rs:1138-1153 | the loop decides the chain of checks |
| `HyperKzg.Verify` | Nova/src/provider/hyperkzg.rs:1115-1238 | length error, chain error, pairing error or acceptance: the verdict that HyperKzgSoundness.VerdictExactly pins down for every argument |
| `HyperKzgSoundness.OpeningIsO` | Nova/src/provider/hyperkzg.rs:1155-1161 | the distance of a witness from opening is O exactly when C - b g + u w = tau w |
| `HyperKzgSoundness.CheckIsParabola` | Nova/src/provider/hyperkzg.rs:1181-1235 | for any commitments, witnesses and values, left side minus tau times right side is Q0 + d Q1 + d^2 Q2, where Q_i is by how much witness i fails to open the batch at r, -r and r^2 |
| `HyperKzgSoundness.VerdictExactly` | Nova/src/provider/hyperkzg.rs:1115-1238 | for every argument, honest or not, and the challenges r, q, d at their written-out transcripts: length error, chain error and acceptance each exactly when lengths, chain and Q0 + d Q1 + d^2 Q2 = O say |
| `HyperKzgSoundness.ThreeOpenings` | Nova/src/provider/hyperkzg.rs:1115-1238 | three oracles that agree on r and q and differ at d all accept if and only if the lengths fit, the chain holds and each single opening C_B - B(u) g + u w = tau w holds |
| `PointExtraction.ExtractPoint` | Nova/src/provider/hyperkzg.rs:1155-1226 | weights computed from n distinct challenges give each of n points back from its n batches |
| `Interpolation.ReadsCoefficient` | Nova/src/spartan/polys/univariate.rs:56-86 | the same weights give each coefficient back from n values |
| `HyperKzgSoundness.OpensEach` | Nova/src/provider/hyperkzg.rs:1155-1226 | from openings of the batch at n distinct q: an opening of every commitment, by a combination of the witnesses that does not depend on tau |
| `HyperKzgSoundness.EveryOpening` | Nova/src/provider/hyperkzg.rs:1115-1238 | if for as many answers at q as there are polynomials the prover finds witnesses accepted at three answers at d, then the lengths fit, the chain holds and every commitment opens to its claimed values at r, -r and r^2 |
| `HyperKzgSoundness.FoldingIsForced` | Nova/src/provider/hyperkzg.rs:1138-1153 | true values of any polynomials that pass the chain at enough nonzero r with different squares make each polynomial the fold of the one before and the claimed value the multilinear evaluation |
| `Interpolation.FewRoots` | Nova/src/spartan/polys/univariate.rs:56-86 | a polynomial with fewer coefficients than distinct roots vanishes everywhere |
| `Interpolation.ZeroCoefficients` | Nova/src/spartan/polys/univariate.rs:56-86 | and all its coefficients are zero |
| `Interpolation.SameEverywhere` | Nova/src/spartan/polys/univariate.rs:56-86 | polynomials of bounded degree that agree at enough points agree everywhere |
| `Interpolation.InterpolateMeets` | Nova/src/provider/mercury.rs:203-230 | there is an interpolating polynomial through any values at distinct points |
| `Interpolation.FromEvalsMeets` | Nova/src/spartan/polys/univariate.rs:58-85 | the polynomial built from evaluations takes the i-th value at i |
| `Gaussian.PivotNonzero` | Nova/src/spartan/polys/univariate.rs:218-249 | no pivot of a Vandermonde system is ever zero, so no row exchange is needed and no division fails |
| `Gaussian.ForwardStep` | Nova/src/spartan/polys/univariate.rs:240-249 | a forward row operation keeps the solution and the argument that later pivots are nonzero |
| `Gaussian.BackwardStep` | Nova/src/spartan/polys/univariate.rs:251-262 | a backward row operation keeps the solution and clears the entry |
| `Gaussian.SystemStarts` | Nova/src/spartan/polys/univariate.rs:58-85 | the matrix of powers built for distinct points satisfies the invariant, with the interpolating polynomial as solution |
| `Gaussian.GaussianElimination` | Nova/src/spartan/polys/univariate.rs:218-238 | in-place elimination returns the solution |
| `Gaussian.FromEvalsByElimination` | Nova/src/spartan/polys/univariate.rs:58-85 | building and eliminating the system gives the interpolating polynomial |
| `Gaussian.FromEvalsWithXs` | Nova/src/provider/mercury.rs:205-230 | same for arbitrary distinct points |
| `Neutron.HalvesMultiply` | Nova/src/neutron/relation.rs:56-67 | left times right is the number of rows, and left is no smaller |
| `Neutron.NewStructureOk` | Nova/src/neutron/relation.rs:52-68 | a new structure supports folding (rows = left * right, right >= 2) if and only if the padding kept all rows and left at least four |
| `Neutron.OuterDot` | Nova/src/neutron/relation.rs:81-97 | the sum against the outer product of the halves is the doubly weighted sum |
| `Neutron.OuterProduct` | Nova/src/neutron/relation.rs:84-89 | the nested loops fill in the outer product |
| `Neutron.CheckSat` | Nova/src/neutron/relation.rs:71-116 | accepts exactly the satisfying pairs: the weighted sum of row defects is T, and both commitments open |
| `Neutron.SplitEvals` | Nova/src/spartan/polys/power.rs:62-86 | the loops give the powers of t and of t^left |
| `Neutron.SplitIsPowers` | Nova/src/spartan/polys/power.rs:39-86 | the outer product of the halves at row i * left + j is t^(i * left + j) |
| `Neutron.RoundPolyAt` | Nova/src/neutron/nifs.rs:29-186 | there is one polynomial with six coefficients whose value at every x is eq times the weighted sum of the interpolated pair |
| `Neutron.SteppedIsAt` | Nova/src/neutron/nifs.rs:62-118 | adding the difference repeatedly gives the line at 0, 2, 3, 4 and 5 |
| `Neutron.InnerSum` | Nova/src/neutron/nifs.rs:58-133 | the inner map and reduce gives the five values of the inner sum |
| `Neutron.RhoFiveIsEq` | Nova/src/neutron/nifs.rs:172-185 | the five integer combinations of rho are eq(rho, x) at 0, 2, 3, 4 and 5 |
| `Neutron.ProveHelper` | Nova/src/neutron/nifs.rs:29-186 | returns the round polynomial at 0, 2, 3, 4 and 5 |
| `Neutron.SentPolyExactly` | Nova/src/neutron/nifs.rs:254-266 | the sent polynomial equals the round polynomial at x if and only if the claimed sum T is true or x is 0, 2, 3, 4 or 5 |
| `Neutron.FoldedSum` | Nova/src/neutron/relation.rs:131-197 | the weighted sum of the folded pair is the interpolated sum at the challenge |
| `Neutron.HonestFoldExactly` | Nova/src/neutron/nifs.rs:188-289 | for any two pairs with eq(rho, r_b) nonzero, the honestly folded pair is satisfying if and only if (the claimed sum is true of the inputs or r_b is 0, 2, 3, 4 or 5) and the gaps of both commitments cancel |
| `Neutron.HonestSumExactly` | Nova/src/neutron/nifs.rs:254-284 | the sum relation alone |
| `Neutron.OneChallengeIsNotEnough` | Nova/src/neutron/nifs.rs:188-289 | on every structure, a running pair that claims the sum 1 of zeros is not satisfying, yet for an oracle that answers 0 prove folds it with any strict pair into a satisfying pair |
| `Neutron.FoldIsSat` | Nova/src/neutron/nifs.rs:200-289 | folding a satisfying running pair with a satisfying R1CS pair gives a satisfying pair when eq(rho, r_b) is nonzero |
| `Neutron.DefaultIsSat` | Nova/src/neutron/relation.rs:121-169 | the all-zero default pair is satisfying |
| `Neutron.RunKeepsSat` | Nova/src/neutron/nifs.rs:200-289 | over any number of folds under any oracle, a run that did not panic ends in a satisfying pair |
| `Neutron.VerifierAgrees` | Nova/src/neutron/nifs.rs:200-343 | the verifier accepts the prover's message and computes the prover's instance, or panics exactly when the prover does |
| `Neutron.VerifierFollowsRun` | Nova/src/neutron/nifs.rs:200-343 | after any number of folds of any pairs the verifier, fed with the messages, has accepted all of them and holds the prover's running instance, or has panicked because the prover did |
| `Neutron.Prove` | Nova/src/neutron/nifs.rs:200-289 | message and new pair of the step, or a panic on eq(rho, r_b) = 0 |
| `Neutron.Verify` | Nova/src/neutron/nifs.rs:297-343 | sum-check error, panic or new instance: the outcome that NeutronSoundness.VerdictExactly pins down for every message |
| `NeutronSoundness.VerdictExactly` | Nova/src/neutron/nifs.rs:297-343 | for every message and the challenges at their written-out transcripts: rejected exactly when poly(0) + poly(1) is not (1 - rho) T, panic exactly when the sum fits and eq(rho, r_b) = 0, and otherwise T_out eq(rho, r_b) = poly(r_b) |
| `NeutronSoundness.AnyFoldExactly` | Nova/src/neutron/relation.rs:131-197 | for any commitment, weight vector and new claim: the fold is satisfied exactly when the claim times eq is the true round at r_b and the gaps cancel |
| `NeutronSoundness.EnoughChallenges` | Nova/src/neutron/nifs.rs:297-343 | for every message, any witnesses and weights: enough last challenges, at least six and no fewer than coefficients, are all accepted and satisfied if and only if the message is the round polynomial, the claimed sum is true at rho and all four commitments open |
| `NeutronSoundness.TwoRounds` | Nova/src/neutron/nifs.rs:297-343 | with two answers at rho as well: if and only if the running pair is satisfying, the strict pair has no weighted error, its commitment and that of the weights open, and both messages are the true ones |
| `NeutronSoundness.ClaimIsTrue` | Nova/src/neutron/nifs.rs:297-343 | against a satisfying strict pair one rho other than 1 is enough: the running pair is satisfying |
| `NeutronSoundness.SumAtTau` | Nova/src/spartan/polys/power.rs:62-86 | weighted by the split powers of tau, the sum of row defects is their polynomial at tau |
| `NeutronSoundness.HonestTree` | Nova/src/neutron/nifs.rs:188-289 | prove over a tree of oracles, with as many taus as rows, two rhos after each and two last challenges after those: all results are satisfying if and only if the running pair and the strict pair are |
| `Circuit.EqualsForced` | Nova/src/gadgets/utils.rs:143-184 | the two constraints leave one value for the flag: whether the numbers are equal |
| `Circuit.AllocNumEquals` | Nova/src/gadgets/utils.rs:143-184 | sound for every assignment, and the honest witness satisfies it |
| `Circuit.BitForced` | Nova/src/frontend/gadgets/boolean.rs:83-112 | the boolean constraint admits exactly 0 and 1 |
| `Circuit.AllocBit` | Nova/src/frontend/gadgets/boolean.rs:83-112 | every satisfying assignment holds a bit; the honest one holds the given bit |
| `Circuit.SelectForced` | Nova/src/gadgets/utils.rs:187-211 | for a bit condition the select constraint holds exactly for the selected value |
| `Circuit.ConditionallySelect` | Nova/src/gadgets/utils.rs:187-289 | every satisfying assignment selects; the honest one satisfies |
| `Circuit.OneOrDiff` | Nova/src/gadgets/utils.rs:388-409 | for a bit condition the constraint holds exactly for 1 or the difference |
| `EccGadget.Negate` | Nova/src/gadgets/ecc.rs:124-139 | every satisfying assignment negates y |
| `EccGadget.ThirdPoint` | Nova/src/gadgets/ecc.rs:302-334 | the two constraints force the third point of a line |
| `EccGadget.Double` | Nova/src/gadgets/ecc.rs:392-491 | every satisfying assignment holds the doubled point; the honest one satisfies whenever the point is infinite or y is nonzero |
| `EccGadget.AddInternal` | Nova/src/gadgets/ecc.rs:227-389 | every satisfying assignment holds the chord sum, or the other operand when one is infinite |
| `EccGadget.AddForced` | Nova/src/gadgets/ecc.rs:142-222 | the final selection between equal-x and chord results is the group sum, infinity operands with arbitrary coordinates included |
| `EccGadget.AddComplete` | Nova/src/gadgets/ecc.rs:142-222 | add is sound and complete: every satisfying assignment outputs the group sum of on-curve inputs without 2-torsion, and the honest witness satisfies every constraint |
| `ScalarMulGadget.AddIncomplete` | Nova/src/gadgets/ecc.rs:729-788 | for different abscissae every satisfying assignment holds the sum; the honest values satisfy exactly when the abscissae differ or the points are equal |
| `ScalarMulGadget.DoubleIncomplete` | Nova/src/gadgets/ecc.rs:791-845 | for y nonzero every satisfying assignment holds the double; the honest values satisfy exactly when y is nonzero or the tangent rise is zero |
| `ScalarMulGadget.DifferentAbscissae` | Nova/src/gadgets/ecc.rs:513-515 | different positive multiples whose sum is below the order have different abscissae |
| `ScalarMulGadget.NoTwoTorsion` | Nova/src/gadgets/ecc.rs:522-522 | in a group of odd order no multiple has y = 0 |
| `ScalarMulGadget.IncompleteStep` | Nova/src/gadgets/ecc.rs:513-523 | in the incomplete loop the accumulator is never plus or minus the running power, and adding gives the next multiple |
| `ScalarMulGadget.IncompleteLoop` | Nova/src/gadgets/ecc.rs:507-523 | after the loop every satisfying assignment holds the multiple with the first bit taken as 1, and the power 2^split; the honest values satisfy exactly when no step lacks a slope |
| `ScalarMulGadget.MultiplesWork` | Nova/src/gadgets/ecc.rs:507-523 | on the multiples of a point of large odd order no step of the loop is without an honest slope |
| `ScalarMulGadget.ZeroLoopWorks` | Nova/src/gadgets/ecc.rs:111-121 | for an infinite point with the coordinates (0, 0) that default assigns, the honest values of the loop satisfy its constraints if and only if the curve coefficient a is 0, for every bit string |
| `ScalarMulGadget.SlackRemoved` | Nova/src/gadgets/ecc.rs:525-542 | subtracting the point when the first bit is 0 gives the true multiple |
| `ScalarMulGadget.RemoveSlack` | Nova/src/gadgets/ecc.rs:525-559 | the gadget that does so, clearing coordinates of an infinite input |
| `ScalarMulGadget.CompleteStep` | Nova/src/gadgets/ecc.rs:569-579 | one bit of the tail adds the running power or not, and doubles it |
| `ScalarMulGadget.ScalarMul` | Nova/src/gadgets/ecc.rs:496-582 | every satisfying assignment returns the sum of bit_i 2^i times P, for every bit string and every P of odd order above 2^(NUM_BITS-2), and infinity for infinity; the honest values always satisfy for non-infinite P, and for an input flagged infinite exactly when the loop works on the coordinates it carries |
| `Mercury.UniPoly.Trim` | Nova/src/provider/mercury.rs:233-237 | drops zero leading coefficients only, and all of them |
| `Mercury.UniPoly.MultiplyByLinear` | Nova/src/provider/mercury.rs:264-276 | the in-place product with X + a |
| `Mercury.UniPoly.DivideByLinear` | Nova/src/provider/mercury.rs:281-288 | the in-place synthetic division: quotient and remainder f(a) |
| `Mercury.UniPoly.BatchAdd` | Nova/src/provider/mercury.rs:239-261 | adds the combination of the given polynomials; extra coefficients are kept, extra scalars ignored |
| `Mercury.UniPoly.Transpose` | Nova/src/provider/mercury.rs:291-312 | the columns of the zero-padded square, one after the other |
| `Mercury.EvalByColumns` | Nova/src/provider/mercury.rs:319-356 | a polynomial laid out in rows of b is the polynomial of its column values at x^b |
| `Mercury.TransposedColumns` | Nova/src/provider/mercury.rs:291-312 | transposing twice: column c of the transposed rows is row c |
| `Mercury.BinomialFromColumns` | Nova/src/provider/mercury.rs:319-356 | column-wise division by (X - alpha) is division by (X^b - alpha) |
| `Mercury.DivideByBinomial` | Nova/src/provider/mercury.rs:319-356 | f = (X^b - alpha) q + g with g of b coefficients, at every point, for every layout with rows <= cols |
| `BatchOpening.StarsTrue` | Nova/src/provider/mercury.rs:592-614 | the interpolants take the claimed values |
| `BatchOpening.ComputeM` | Nova/src/provider/mercury.rs:617-665 | the in-place steps build the batched polynomial m |
| `BatchOpening.MVanishes` | Nova/src/provider/mercury.rs:667-674 | m vanishes at alpha, zeta and zeta^-1 when the claimed values are true and the points distinct |
| `BatchOpening.MVanishesExactly` | Nova/src/provider/mercury.rs:617-674 | for any claimed values, m vanishes at the three points exactly when beta is a root of three polynomials whose coefficients are the errors of the claims |
| `BatchOpening.FourBetas` | Nova/src/provider/mercury.rs:584-674 | all claims are true if and only if no error shows at four distinct values of beta; so false claims escape at most three |
| `BatchOpening.DivideThrice` | Nova/src/provider/mercury.rs:667-674 | three divisions leave zero remainders exactly when m vanishes at three distinct points, and then m is Z times the quotient |
| `BatchOpening.LVanishes` | Nova/src/provider/mercury.rs:685-761 | L vanishes at z |
| `BatchOpening.AnyLeftSide` | Nova/src/provider/mercury.rs:828-871 | the left side for any two committed vectors, in the exponent: L(tau) + z v(tau) |
| `BatchOpening.ComputeL` | Nova/src/provider/mercury.rs:687-751 | the in-place steps build L |
| `BatchOpening.PairingHolds` | Nova/src/provider/mercury.rs:828-871 | the seven-term left side is tau times the commitment of the last quotient |
| `BatchOpening.GenerateBatchEvaluateArg` | Nova/src/provider/mercury.rs:567-770 | a remainder assertion fails exactly when some claimed value is false and beta does not hide it; otherwise, true or false, the pairing equation holds at the challenges of the transcript |
| `BatchOpening.ExtractPairing` | Nova/src/provider/mercury.rs:773-871 | the verifier takes the prover's challenges from its own transcript and returns the two sides |
| `BatchOpening.OpenAndCheck` | Nova/src/provider/mercury.rs:567-871 | prover and verifier as one run: accepted exactly when beta exposes no false claim, and always for true claims |
| `BatchOpeningSoundness.CheckExactly` | Nova/src/provider/mercury.rs:773-871 | for commitments to any two vectors w and v the pairings agree if and only if L(tau) = (tau - z) v(tau) |
| `BatchOpeningSoundness.ManyTaus` | Nova/src/provider/mercury.rs:773-871 | passing at more values of tau than the degrees makes m(z) = T(z) w(z) |
| `BatchOpeningSoundness.ManyZs` | Nova/src/provider/mercury.rs:773-871 | that at more values of z than the degrees makes m vanish at the three points |
| `BatchOpeningSoundness.AllClaimsTrue` | Nova/src/provider/mercury.rs:567-871 | a prover that passes with any committed vectors, for four values of beta and after each enough values of z and tau, has claimed eight true evaluations |
| `Ptau.LeBytesInverse` | Nova/src/provider/ptau.rs:170-208 | little-endian bytes read back as the number |
| `Ptau.ScanFindsSections` | Nova/src/provider/ptau.rs:271-327 | the scan records the position of each wanted section of any section list |
| `Ptau.PointsInverse` | Nova/src/provider/ptau.rs:372-392 | reading a prefix of written points gives that prefix |
| `Ptau.HeaderInverse` | Nova/src/provider/ptau.rs:329-370 | reading a written header accepts exactly when the power is large enough for both counts, with the right error otherwise |
| `Ptau.FileIsRead` | Nova/src/provider/ptau.rs:402-438 | any file of 3 or 11 well-formed sections with the three wanted ones is read as expected |
| `Ptau.ReadInvertsFull` | Nova/src/provider/ptau.rs:217-438 | the reader inverts the 11-section layout: requested prefixes of the written points |
| `Ptau.ReadInvertsPruned` | Nova/examples/ppot_prune.rs:322-393 | the reader inverts the 3-section layout |
| `Ptau.ReadMetaData` | Nova/src/provider/ptau.rs:271-327 | magic, version and section count errors in this order, else the section positions, on any bytes |
| `Ptau.ReadHeader` | Nova/src/provider/ptau.rs:329-370 | field size, modulus and power checks on any bytes |
| `Ptau.ReadPoints` | Nova/src/provider/ptau.rs:372-392 | the points, or the first error, on any bytes |
| `Ptau.ReadPtau` | Nova/src/provider/ptau.rs:402-438 | header, G1 points, G2 points and the subgroup check, in this order, on any bytes |
| `Ptau.PatchedSection` | Nova/src/provider/ptau.rs:237-252 | writing a placeholder size, the points, seeking back and patching leaves the section with its true size |
| `Ptau.WritePtau` | Nova/src/provider/ptau.rs:217-269 | the bytes of the 11-section file, or a panic exactly when the modulus does not fill 32 bytes |
| `Ptau.WritePrunedPtau` | Nova/examples/ppot_prune.rs:322-393 | the bytes of the 3-section file |
| `Ptau.RoundTrip` | Nova/src/provider/ptau.rs:217-438 | write then read, as one run, returns what was asked for, for every modulus of 32 bytes |
| `Ptau.HeaderExactly` | Nova/src/provider/ptau.rs:329-370 | on any bytes, the header is accepted exactly when the stored modulus is the expected one and the stored power is enough for both counts |
| `Ptau.PointsExactly` | Nova/src/provider/ptau.rs:372-392 | on any bytes, points are returned exactly when each decodes from its own block and is on its curve |
| `Ptau.AcceptedExactly` | Nova/src/provider/ptau.rs:271-438 | on any bytes, the reader returns points if and only if magic, version, section count and the three sections are right, the stored modulus is the expected one, the power is enough, every point decodes from its block and is on its curve, and every G2 point is torsion free |

## Left out

- Ipa.Verify: squeezing never fails in the model, while the source passes a transcript error on.
- SmallMsm.WindowSum: buckets hold abstract group elements; `Xyzz` proves the coordinates refine the chord-and-tangent law, and associativity of that law is not proved.
- MsmPartition.MultiScalarMul: inputs longer than 2^60 terms are excluded, since the packed word has 60 bits for the index.
- MsmPartition.LargeSum: the scalars of more than 64 bits are summed naively, standing for `msm_best` of halo2curves.
- Wnaf.BatchDoubleScalarMulEndo: that both halves of a split are below 2^128 is a hypothesis here; `Glv.BatchVartimeDoubleScalarMul` discharges it for the BN254 scalar field.
- Glv.BatchVartimeDoubleScalarMul: that P is the BN254 modulus and that ZETA, a constant of halo2curves that is not part of this model, sends B1 to A1 are hypotheses; primality of the modulus is not proved.
- IpaSoundness.TwoTrees: that nobody finds two representations of one point is the binding assumption, which is not modelled.
- HyperKzgSoundness.FoldingIsForced: that claimed values are the values of committed polynomials rests on the binding of the commitments, which is not modelled.
- BatchOpeningSoundness.AllClaimsTrue: the witnesses are commitments to vectors, as in the algebraic group model; other points are not considered.
- NeutronSoundness.TwoRounds: the committed weights of an arbitrary message need not be powers of tau, so only the weighted error of the strict pair is known to vanish; `NeutronSoundness.HonestTree` has all of its rows.
- Gaussian.FromEvalsWithXs: repeated points are excluded; the source divides by zero there and panics. The one-point shortcut and the system give the same polynomial.
- Gaussian.FromEvalsByElimination: more evaluations than field elements are excluded.
- Neutron.RunKeepsSat: a run that meets eq(rho, r_b) = 0 ends in a panic, as the unwrap in the source does.
- Neutron.Verify: an empty round polynomial is outside its precondition; deserialised proofs are not modelled.
- EccGadget.AddComplete: the honest witness satisfies the constraints when the first operand is infinite or its y is nonzero; otherwise no assignment satisfies them, because the doubling inside is unsatisfiable.
- ScalarMulGadget.ScalarMul: that the multiples of P form a cyclic group of odd order under the chord-and-tangent law is a hypothesis, since associativity of that law is not proved; NUM_BITS is at least 3.
- BatchOpening.GenerateBatchEvaluateArg: the points alpha, zeta and zeta^-1 are pairwise distinct; the source divides by zero in the interpolation otherwise.
- Mercury.DivideByBinomial: only layouts with at most as many rows as columns, which the transposition needs.
- Ptau.ReadHeader: powers of 63 and more are the overflow panic of a checked build, and without overflow checks the shift wraps instead; a magic string that is not UTF-8 is reported as an invalid head.
- Ptau.RoundTrip: the raw codec of points is a hypothesis (decoding inverts encoding, fixed size), and I/O never fails.
- PedersenCache.SetupCache.Setup: environment-variable profiling output and lock poisoning are not modelled.
- Padding.Pad: sizes are unbounded, so `next_power_of_two` never overflows.
- LinComb.LinearCombination.AddScaled: the forms without a coefficient, and the subtracting forms of whole combinations, are not modelled; they differ in the coefficient only.
- Sparse.ComputeRowSingle: its two-vector twin `compute_row_pair` repeats the same loops with two accumulators.
- Circuit.CS.Enforce: a linear combination has a constant and at most three wires, which is all the gadgets use.
- Pedersen.CommitAdd: committing to a vector longer than the key, which the source asserts against, is outside the preconditions; so is a product of a matrix and a vector of another width.
- Mercury prove and verify: the FFT-based s polynomial, `compute_h_poly` and the surrounding protocol.
- HyperKZG setup, commitment keys from files, and the EVM encodings.
- Hiding and binding of commitments, zero knowledge, and every probabilistic soundness claim.
- The Spartan SNARK, the IVC drivers of Nova and NeutronNova, and `PolyEvalWitness::batch_diff_size`.
- Bit-decomposition and big-number gadgets, `check_on_curve`, and the non-native gadgets.
- Sampling of random instances, derandomisation, digests and serialisation of shapes and proofs.
- The `jolt/` sources, benchmarks, and the examples other than the pruned-file writer.
