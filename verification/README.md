# A verified model of the guest's formal layer and reference code

The repository holds a stateless Ethereum guest written in Pancake, a Lean layer that
reasons about it, and Python and C++ reference code that its vectors come from. This
project models the parts of that code which carry universal properties, and proves them.
The Pancake sources of the guest are not part of this model.

| files | what they model |
|---|---|
| `Words`, `Modular`, `Primes`, `Algebra`, `BigEndian`, `LittleEndian` | 64-bit words with explicit wrap-around, congruence, Fermat's little theorem, monoids and fields, byte orders |
| `Pancake`, `Termination` | a fuel-indexed, step-counting evaluator for the core of Pancake, and its termination rules |
| `OpcodeCensus`, `CensusPaths`, `Discipline`, `Soundness`, `CensusCases` | the must-charge analysis and its fixpoint, what it accepts in terms of paths, what it relies on, a soundness theorem for it, and programs on both sides of the line |
| `GasMachine`, `GasBodies` | the four gas cells of a frame as a state machine, and the refinement of that machine by the function bodies the Lean layer quotes |
| `Rlp`, `RlpCanonical`, `Tx`, `TxCodec`, `TxBytes` | the two strict RLP decoders, the encoder, the codec of the five transaction types, and their encodings written out |
| `InputDecode`, `Ssz`, `SszContainer`, `SszBuilder`, `SszLossless` | the SSZ decoder of the stateless input and the builder of such inputs |
| `TonelliShanks`, `FinalExp` | square roots and the BLS12-381 final exponentiation |
| `Points`, `Curve`, `Ecdsa`, `EcdsaEquation` | addition by chord and tangent, the ladders, ECDSA with recovery, and what verification and recovery accept |
| `Keccak`, `KeccakLaws`, `Octets`, `Sponge`, `SpongeLaws` | Keccak-f[1600] in place and on lists, its step mappings bit by bit, and the Keccak-256 sponge |
| `Accel`, `AccelFfi`, `AccelRefinement`, `AccelPoints` | the accelerators as effects on memory and as functions of bytes, and what they compute of residues and points |

Conventions. A raised exception, a failed guard and a trapped access are `None` or an error
constructor. A method with a loop is proved equal to a specification function, and the
theorems are about that function. Facts from outside the repository are hypotheses gathered
in one predicate each: `IsOddPrime` (a modulus is prime), `IsCurve` (addition of the curve's
points is associative, and their order is the prime `n`; that sums stay on the curve and commute
is proved), `IsField` (the field laws of the quadratic extension), `IsTarget` (Frobenius and
conjugation in the target field) and `WellShaped` (result lengths of the limb arithmetic, on
operands of the lengths it is called with; `NativeIsShaped` meets it for all but BLAKE2b).

Where code and documentation part:

* `Tools/OpcodeCensus.lean:78-86` says that the analysis covers every path. It does in
  programs that are `Disciplined` up to their charge: a local that the analysis tracks as
  positive is assigned to, and shadowed, only with values that are certain to be positive (in
  a loop, under a bound that the loop keeps); the frame is ended through the global `ev`; no
  global of a tracked name is passed; calls carry no exception handler; and the first half of
  a sequence makes no tail call where the analysis relies on it not to return. Nothing is
  asked of what follows the charge. For each of the six there is a program that the analysis
  accepts, that breaks it, and that has a run which ends unpaid (`TailCallsAreMissed`,
  `HandlersAreMissed`, `ReassignmentIsMissed`, `ShadowingIsMissed`, `GlobalsAreMissed`,
  `LocalFramesAreMissed`). As `Guest/Ast.lean` reads, function names are distinct, and all 85
  functions that the analysis accepts keep to the discipline in the round that accepts them, as
  does `charge_with_memory`, which it accepts for a positive first argument; calls with handlers
  occur only in functions that the analysis does not accept, `run_frames` among them.
  `op_sstore` and `op_selfdestruct`, which change what they are about to charge, and `op_mload`,
  which charges through `charge_with_memory`, are proved to pay (`SstorePays`,
  `SelfdestructPays`, `MloadPays`).
* `docs/STEP-BOUND.md:607-628` looks for a measure in an invariant on credits. The sum of gas
  left and gas lent is a measure with no such assumption (`ChargesSpendTheMeasure`).
* `Guest/InputDecode.lean:23-28` allows reads up to eight bytes past the input. No read passes
  its end (`CheckedDecode`).
* `tools/gen_bn254_vectors.py:175-179` returns no root for zero, which is its own square
  (`ZeroIsRefused`).
* `tools/gen_secp_vectors.py:131-141` signs with any nonce and inverts all of it, while the
  multiplication of lines 69-79 reads its low 256 bits. Recovery inverts signing if and only
  if those bits stand for the nonce modulo the group order (`RecoverInvertsSigning`), that is,
  if the order divides the nonce shifted right by 256 (`NonceFitsIff`). It does below 2^256
  (`SmallNoncesFit`), and neither from 2^256 to 2^257 - 1 nor from -2^256 to -1
  (`WideNonceDoesNotFit`, `WideNonceIsNotRecovered`).
* `guest/test/exp_tx.py:210-214` encodes legacy transactions of any size; one of 2^56 bytes or
  more is then not decodable (`LongLegacyIsRejected`).

## Model

| member | source | states |
|---|---|---|
| Words.AddSat | Guest/Gas.lean:209-213 | testing the wrapped sum against a summand saturates the true sum |
| OpcodeCensus.MustChargeMonotone | Tools/OpcodeCensus.lean:87-105 | an accepted program stays accepted under more facts about callees and more positive locals |
| OpcodeCensus.RoundMonotone | Tools/OpcodeCensus.lean:129-139 | a round preserves the order of fact sets, and equal lengths of its results mean equal results |
| OpcodeCensus.IteratesAscend | Tools/OpcodeCensus.lean:125-140 | the sets of the loop only grow |
| OpcodeCensus.LengthTestIsExact | Tools/OpcodeCensus.lean:136-137 | two consecutive iterates are equal if and only if their lengths are |
| OpcodeCensus.IteratesAreLeast | Tools/OpcodeCensus.lean:123-140 | every iterate is below every set of facts closed under a round, so a stable one is the least fixpoint |
| OpcodeCensus.MustChargeFixpoint | Tools/OpcodeCensus.lean:123-140 | the loop returns one of the first 64 iterates, closed unless the bound of 64 rounds cut it off, which it does not on an acyclic call graph of depth at most 64 |
| OpcodeCensus.MustChargeReadsCallees | Tools/OpcodeCensus.lean:87-105 | a verdict depends on the facts about the program's own callees only |
| OpcodeCensus.VerdictSettles | Tools/OpcodeCensus.lean:123-140 | on an acyclic call graph a function's verdict is final after as many rounds as its rank |
| OpcodeCensus.AcyclicFixpoint | Tools/OpcodeCensus.lean:123-140 | an acyclic call graph of depth `depth` is stable after `depth` rounds |
| Soundness.RunsLoseNothing | Guest/Termination.lean:493-739 | no run lowers the gas counted, and once the running flag was cleared on the way that mark stays |
| Soundness.NeverReturns | Tools/OpcodeCensus.lean:51-58 | a program without `return` and tail calls does not return, whatever its callees do |
| CensusPaths.AcceptedPathsPay | Tools/OpcodeCensus.lean:78-105 | every straight-line path through an accepted program has a credited call, an exception or a store that ends the frame |
| CensusPaths.UnpaidPath | Tools/OpcodeCensus.lean:78-105 | a rejected program has a path with none of them, unless the first half of some sequence returns without being accepted |
| CensusPaths.AcceptedIff | Tools/OpcodeCensus.lean:78-105 | apart from such sequences the analysis accepts a program if and only if all its paths are credited |
| CensusPaths.ChargedReturnIsRejected | Tools/OpcodeCensus.lean:84-86 | a program with such a sequence that is rejected although all its paths are credited |
| CensusPaths.CertaintyIsExact | Tools/OpcodeCensus.lean:60-65 | a constant or a local is called positive exactly when it is so in every state in which the tracked locals are |
| CensusPaths.BindingIsExact | Tools/OpcodeCensus.lean:72-76 | and the saturating sum of two of them likewise |
| Discipline.CapBounds | Tools/OpcodeCensus.lean:60-65 | an expression certain to be positive evaluates to at least 1 and at most its bound, sums included |
| Soundness.DisciplineHolds | Tools/OpcodeCensus.lean:62-76 | where a disciplined program falls through, it has paid or every local tracked as positive is at least 1, through assignments, shadowing and loops |
| Soundness.BindingIsPositive | Tools/OpcodeCensus.lean:72-76 | `add_sat` of a positive argument binds a positive word, carry or no carry |
| Soundness.ChargingCallPays | Tools/OpcodeCensus.lean:89-92 | a call the analysis credits has charged at least 1 gas or ended the frame when it completes |
| Soundness.MustChargeSound | Tools/OpcodeCensus.lean:78-105 | given true facts about its callees, an accepted program disciplined up to its charge has charged or ended its frame whenever it falls through or returns, at every fuel |
| Soundness.IterateSound | Tools/OpcodeCensus.lean:125-140 | the facts of any number of rounds from the empty sets are true of the functions in a set of names, if each is disciplined in the round that first accepts it |
| Soundness.AcceptedHandlersPay | Tools/OpcodeCensus.lean:17-20 | the open theorem: every run of an accepted handler whose callees lie in such a set, and that falls through or returns, has paid |
| CensusCases.SstorePays | Guest/Ast.lean:13856-13881 | every run of `op_sstore` that falls through or returns has paid, whatever follows its first charge and whatever its callees do |
| CensusCases.SelfdestructPays | Guest/Ast.lean:14796-14814 | the same of `op_selfdestruct`, whose charge grows by 3000 on the way |
| CensusCases.ChargeWithMemoryPays | Guest/Ast.lean:12485-12499 | `charge_with_memory` is accepted in the first round for a positive first argument, and then pays whenever it returns |
| CensusCases.MloadPays | Guest/Ast.lean:13443-13452 | every run of `op_mload` that falls through or returns has paid, through the body of `charge_with_memory` |
| CensusCases.TailCallsAreMissed | Tools/OpcodeCensus.lean:99-101 | an accepted program with a tail call in the first half of a sequence that pays nothing |
| CensusCases.HandlersAreMissed | Tools/OpcodeCensus.lean:89-92 | an accepted program whose exception handler skips the charge |
| CensusCases.ReassignmentIsMissed | Tools/OpcodeCensus.lean:62-66 | an accepted program that assigns zero to a tracked local, and charges zero |
| CensusCases.ShadowingIsMissed | Tools/OpcodeCensus.lean:103-104 | an accepted program in which a zero local shadows a tracked one |
| CensusCases.GlobalsAreMissed | Tools/OpcodeCensus.lean:62-66 | an accepted program in which a global shares the name of a tracked local |
| CensusCases.LocalFramesAreMissed | Tools/OpcodeCensus.lean:43-46 | an accepted program that clears a cell through a local `ev`, leaving the frame running |
| Termination.FuelMonotone | Guest/Termination.lean:64-76 | a run seen at some fuel is the same run, with the same step count, at every larger fuel |
| Termination.RunsAgree | Guest/Termination.lean:64-76 | any two sufficient fuels show the same run |
| Termination.SeqTerminatesIff | Guest/Termination.lean:198-234 | a sequence terminates if and only if its first half does and, when that falls through, its second |
| Termination.CallTerminatesIff | Guest/Termination.lean:300-360 | a call terminates if and only if its body ends by returning or raising and the matching handler terminates |
| Termination.WhileTerminates | Guest/Termination.lean:78-169 | a kept invariant and a falling measure terminate a loop, however single passes of its body end |
| Termination.BlockLoopTerminatesIff | Guest/Termination.lean:424-455 | a loop that counts a machine word upwards by 32 terminates if and only if its bound is below 2^64 - 32 |
| GasMachine.GasConserved | Guest/FunctionTermination.lean:379-383 | gas left, used and lent keep their sum modulo 2^64 over every run of the three operations |
| GasMachine.ReservoirConserved | Guest/FunctionTermination.lean:1560-1568 | reservoir less lent, plus charged, less credited, is kept modulo 2^64 over every run |
| GasMachine.ChargesSpendTheMeasure | Guest/FunctionTermination.lean:45-72 | gas left plus gas lent falls by at least every charge, with no assumption on the run |
| GasMachine.ChargesAreBounded | docs/STEP-BOUND.md:588-630 | a frame makes at most `left + spilled` charges of at least 1, refunds included |
| GasMachine.CreditRaisesTheSum | Guest/Gas.lean:118-133 | a credit raises the plain gas sum by its whole amount and leaves the measure alone |
| GasMachine.ExactConservation | Guest/FunctionTermination.lean:765-768 | both conservation laws hold exactly on runs that have not wrapped |
| GasMachine.WrapsIsInexact | Guest/FunctionTermination.lean:1552-1568 | an operation wraps if and only if it differs from the same operation on unbounded numbers, which is where that one leaves the words |
| GasMachine.WrapsIff | Guest/FunctionTermination.lean:1560-1568 | the next operation wraps if and only if it is a credit that overfills the reservoir |
| GasMachine.CoveredRunsNeverWrap | docs/STEP-BOUND.md:624-628 | a run whose credits never exceed its state charges never wraps |
| GasMachine.GasCounters.Charge | Guest/FunctionTermination.lean:45-72 | the cells move as the machine says, and it fails exactly when gas is short |
| GasMachine.GasCounters.ChargeState | Guest/FunctionTermination.lean:704-760 | as above; it fails exactly when both counters together are short, saturation or not |
| GasMachine.GasCounters.Credit | Guest/FunctionTermination.lean:1552-1568 | as above; what was lent is paid back first and `used` stays |
| GasBodies.ChargeGasPerforms | Guest/FunctionTermination.lean:397-530 | the quoted body of `charge_gas` does to the frame's cells what the machine does, or raises and leaves them |
| GasBodies.ChargeStateGasPerforms | Guest/FunctionTermination.lean:704-760 | the same of `charge_state_gas`, through its call to `add_sat` |
| GasBodies.CreditPerforms | Guest/FunctionTermination.lean:1552-1600 | the same of `credit_state_gas_refund`, through its call to `min` |
| GasBodies.BodyRefinesMachine | Guest/FunctionTermination.lean:1560-1610 | at any fuel, a complete run of the three bodies is a step of the machine, and 11 units complete it |
| GasBodies.MeterCountsGas | Tools/OpcodeCensus.lean:37-41 | what the evaluator's meter counts is the fall of the two gas counters' sum |
| BigEndian.BeLoop | tools/gen_rlp_vectors.py:41-46 | the loop computes the minimal big-endian bytes |
| BigEndian.MinimalIsBe | tools/gen_rlp_vectors.py:41-46 | every byte string without a leading zero is the bytes of its number |
| Rlp.RlpListLoop | guest/test/exp_tx.py:61-65 | the loop collects exactly the items that fill the range |
| Rlp.ListCountLoop | tools/gen_rlp_vectors.py:117-124 | the loop counts exactly the items that fill the payload |
| RlpCanonical.DecodeEncoding | guest/test/exp_tx.py:28-59 | an encoding followed by anything decodes to its item and consumes exactly itself |
| RlpCanonical.EncodeDecoded | guest/test/exp_tx.py:28-59 | an accepted item re-encodes to the bytes consumed |
| RlpCanonical.DecodesIff | guest/test/exp_tx.py:28-59 | the decoder yields an item if and only if the input begins with its encoding |
| RlpCanonical.FullyDecodesIff | guest/test/exp_tx.py:68-87 | full decoding and encoding are inverse |
| RlpCanonical.PrefixFree | tools/gen_rlp_vectors.py:62-68 | no encoding is a proper prefix of another |
| RlpCanonical.DecodersAgree | tools/gen_rlp_vectors.py:79-114 | the two decoders accept the same inputs with the same length, kind and payload |
| RlpCanonical.ListDecodersAgree | tools/gen_rlp_vectors.py:117-124 | counting a payload's items agrees with decoding them |
| TxCodec.DScalarIff | guest/test/exp_tx.py:90-94 | a scalar is accepted if and only if it is minimal and within its width |
| TxCodec.DFieldsIff | guest/test/exp_tx.py:126-180 | a field list decodes to a transaction if and only if it is that transaction's list and every field is in range |
| TxCodec.DecodeIff | guest/test/exp_tx.py:126-215 | a byte string decodes to a transaction if and only if it is its encoding, for all five types |
| TxCodec.DecodedIsEncoding | guest/test/exp_tx.py:126-215 | every accepted byte string is reproduced by encoding what was decoded |
| TxCodec.EncodingDecodes | guest/test/exp_tx.py:193-215 | decoding the encoding of a well-formed transaction gives it back |
| TxCodec.LongLegacyIsRejected | guest/test/exp_tx.py:126-140 | a legacy payload of 2^56 bytes or more is never decodable |
| TxCodec.UnsignedFieldsDetermine | guest/test/exp_tx.py:193-207 | equal unsigned fields of one type mean equal requests |
| TxCodec.Eip155Preimage | guest/test/exp_tx.py:217-221 | the preimage of a replay-protected legacy transaction is the encoding of that transaction with v = chain, r = s = 0 |
| TxCodec.PlainPreimage | guest/test/exp_tx.py:217-221 | with v 27 or 28 it decodes to the list of the first six fields |
| TxCodec.TypedPreimage | guest/test/exp_tx.py:217-222 | of a typed transaction it is the type and the fields without the last three |
| TxCodec.EnvelopeIsWidths | guest/test/exp_tx.py:176-179 | the envelope's limits are 32 bytes for fees and 8 for the gas limit |
| TxBytes.LegacyBytes | guest/test/exp_tx.py:193-215 | the bytes of a small legacy transaction, field by field |
| TxBytes.AccessListBytes | guest/test/exp_tx.py:193-215 | the same of type 1 |
| TxBytes.FeeMarketBytes | guest/test/exp_tx.py:193-215 | the same of type 2 |
| TxBytes.BlobBytes | guest/test/exp_tx.py:193-215 | the same of type 3 |
| TxBytes.SetCodeBytes | guest/test/exp_tx.py:193-215 | the same of type 4 |
| TxBytes.AccessEntryBytes | guest/test/exp_tx.py:183-184 | the bytes of an access list entry |
| TxBytes.AuthBytes | guest/test/exp_tx.py:186-188 | the bytes of a small authorization |
| TxCodec.PreimageInjective | guest/test/exp_tx.py:217-222 | equal signing preimages mean the same type, unsigned fields and, under EIP-155, chain |
| InputDecode.CheckedDecode | Guest/InputDecode.lean:245-292 | on every blob the decoder equals one whose reads are in bounds and whose subtractions do not truncate |
| InputDecode.CheckedSplitVarList | Guest/InputDecode.lean:117-131 | the same of list splitting within any region of the blob |
| Ssz.VarListLoop | tools/ssz-inputs.py:50-59 | the loop writes the offset table and the elements, and raises exactly where an offset does not fit |
| Ssz.SplitBuilt | tools/ssz-inputs.py:50-59 | splitting a built list gives its elements back in order, if and only if the limit allows their number |
| Ssz.SplitIsLossless | Guest/InputDecode.lean:89-131 | the slices of an accepted list tile its region in order, and rebuilding them gives its bytes |
| SszContainer.ContainerLoop | tools/ssz-inputs.py:33-47 | the loop computes the container, and raises exactly where it does |
| SszContainer.OffsetOf | tools/ssz-inputs.py:33-47 | the k-th offset of a container leads to its k-th variable part |
| SszContainer.ContainerFits | tools/ssz-inputs.py:33-47 | below 4 GiB a container can be built if and only if placeholders match variable parts |
| SszBuilder.PayloadDecodes | tools/ssz-inputs.py:62-89 | a built payload decodes, if and only if within the limits, to its own fields |
| SszBuilder.RequestsDecode | tools/ssz-inputs.py:92-93 | a request container built from any five byte strings decodes to their counts, and fails exactly where a length is no multiple |
| SszBuilder.NewPayloadDecodes | tools/ssz-inputs.py:96-98 | a built request decodes to what its payload and its request container decode to and to the number of its hashes, whatever bytes the three are |
| SszBuilder.BuiltRequestDecodes | tools/ssz-inputs.py:62-98 | a request built from payload arguments, hashes and five request strings decodes exactly within the limits, to their values and counts |
| SszBuilder.WitnessDecodes | tools/ssz-inputs.py:101-103 | a built witness decodes, if and only if within the limits, to its own lists |
| SszBuilder.InputDecodes | tools/ssz-inputs.py:106-111 | an input built around any payload and witness bytes, or the defaults, decodes to what the two decode to where they stand and to the chain, and fails exactly where one of them does |
| SszBuilder.BuiltInputDecodes | tools/ssz-inputs.py:62-111 | an input whose payload and witness are built decodes if and only if they are within the limits, and every field comes back |
| SszBuilder.InputFits | tools/ssz-inputs.py:106-111 | below 4 GiB any payload and witness bytes make an input, unless the chain is not a 64-bit number |
| SszBuilder.BuilderSucceedsIff | tools/ssz-inputs.py:25-111 | below 4 GiB the builder raises if and only if some number is not 64-bit |
| SszBuilder.DefaultInputDecodes | tools/ssz-inputs.py:62-111 | the input built without arguments decodes to its own defaults, for every 64-bit chain |
| SszLossless.AcceptedBlobIsTiled | Guest/InputDecode.lean:198-292 | the decoded records account for every byte of an accepted blob, each list as the builder writes it |
| TonelliShanks.SquaresPassTheTest | tools/gen_bn254_vectors.py:178-179 | every nonzero square passes the initial test |
| TonelliShanks.InitiallyBalanced | tools/gen_bn254_vectors.py:180-187 | the loop starts with r² = a t, t of order dividing 2^(m-1), c a root of -1 |
| TonelliShanks.RoundKeepsBalance | tools/gen_bn254_vectors.py:188-194 | a round keeps that, with a smaller m |
| TonelliShanks.Sqrt | tools/gen_bn254_vectors.py:175-195 | it terminates; no result if and only if the test fails, if and only if the argument is zero or no square; otherwise a square root |
| TonelliShanks.ZeroIsRefused | tools/gen_bn254_vectors.py:178-179 | zero is a square without a result |
| Primes.EuclidForResidue | tools/gen_secp_vectors.py:82-96 | a prime that divides a product of residues divides one of them |
| Primes.Fermat | tools/gen_secp_vectors.py:107-114 | the power by which the program inverts is an inverse: x^(m-1) is 1 modulo a prime m |
| Points.SumOnCurve | tools/gen_p256_vectors.py:36-60 | over a prime field the sum of two points of the curve is on the curve, by chord and by tangent |
| Points.ChordLaw | tools/gen_p256_vectors.py:36-40 | for different abscissas a point is the sum if and only if its opposite lies on the chord and the three abscissas add up to the slope's square |
| Points.TangentLaw | tools/gen_p256_vectors.py:43-47 | the same of doubling, with the slope (3 x² + a) / 2 y |
| Points.InfiniteSum | tools/gen_p256_vectors.py:50-60 | the sum is at infinity if and only if one point is the other's opposite |
| Points.SumCommutes | tools/gen_p256_vectors.py:50-60 | addition commutes |
| Curve.ScalarMul | tools/gen_p256_vectors.py:64-71 | double-and-add doubles and adds along the scalar's bits for every point, and on the curve that is repeated addition; nothing for a scalar that is not positive |
| Curve.ScalarMul256 | tools/gen_secp_vectors.py:69-79 | the same of 256 rounds, which are repeated addition of the scalar's low 256 bits, those of a negative one in two's complement |
| Curve.TimesMod | tools/gen_secp_vectors.py:69-79 | multiples depend on the scalar modulo the group order |
| Curve.TimesInjective | tools/gen_secp_vectors.py:69-79 | equal multiples of the generator have congruent scalars |
| Ecdsa.DecompressRebuilds | tools/gen_secp_vectors.py:82-96 | the abscissa modulo the order and the recovery id determine the nonce point |
| Ecdsa.Recover | tools/gen_secp_vectors.py:99-114 | recovery through the 256-round ladder is recovery through repeated addition, errors included |
| Ecdsa.SignRecoverable | tools/gen_secp_vectors.py:131-141 | signing through the ladder is signing through repeated addition of the low 256 bits of any nonce, positive or not |
| Ecdsa.RecoverInvertsSigning | tools/gen_secp_vectors.py:99-141 | for every nonce and key, recovering from a signature gives exactly `d` times the generator, or the point-at-infinity error when that is infinite, if and only if the nonce fits |
| Ecdsa.NonceFitsIff | tools/gen_secp_vectors.py:69-79 | a nonce fits if and only if the group order divides its floor quotient by 2^256 |
| Ecdsa.SmallNoncesFit | tools/gen_secp_vectors.py:69-79 | every nonce below 2^256 is read in full, so recovery inverts signing for it |
| Ecdsa.WideNonceDoesNotFit | tools/gen_secp_vectors.py:69-79 | no nonce from 2^256 to 2^257 - 1, and none from -2^256 to -1, fits |
| Ecdsa.WideNonceIsNotRecovered | tools/gen_secp_vectors.py:99-141 | the nonce 2^256 + 1 with the key 1 signs, and recovery does not give the key back |
| Ecdsa.SignP256 | tools/gen_p256_vectors.py:101-110 | signing through the ladder is signing through repeated addition |
| Ecdsa.Verify | tools/gen_p256_vectors.py:79-98 | verification with its checks through the ladder is verification through repeated addition |
| Ecdsa.SignedVerifies | tools/gen_p256_vectors.py:79-110 | a signature made by `sign` is accepted by `verify` |
| Ecdsa.NoHalfPoint | tools/gen_p256_vectors.py:87-88 | no point of a curve of odd order has ordinate zero, so none is (0, 0) |
| Ecdsa.VerifyIsSymmetric | tools/gen_p256_vectors.py:79-98 | `verify` gives the same answer for `s` and `N - s` |
| EcdsaEquation.VerifyIff | tools/gen_p256_vectors.py:79-98 | acceptance means: r and s in range, the key on the curve and not (0, 0), and a finite point R with s R = e G + r Q whose abscissa is r modulo the order |
| EcdsaEquation.VerifiesIffSigned | tools/gen_p256_vectors.py:79-110 | under the key of a secret a pair is accepted if and only if some nonce makes it with that secret |
| EcdsaEquation.DecompressIff | tools/gen_secp_vectors.py:82-96 | decompression yields a point if and only if it is the point of the curve with that abscissa and parity |
| EcdsaEquation.DecompressErrors | tools/gen_secp_vectors.py:82-96 | it fails exactly where no such point exists, with the error that says why |
| EcdsaEquation.RecoverIff | tools/gen_secp_vectors.py:99-114 | a key is recovered if and only if it solves r Q = s R - e G for the point R of the signature |
| EcdsaEquation.RecoverErrors | tools/gen_secp_vectors.py:99-114 | which error is raised when |
| FinalExp.F12Pow | tools/blsref.py:117-123 | the most-significant-bit-first loop computes the power |
| FinalExp.F12ExpX | tools/blsref.py:125-127 | conjugation turns the power into the one with exponent `x p^6` |
| FinalExp.EasyPart | tools/blsref.py:131-132 | the first two lines raise to (p^6 - 1)(p² + 1) |
| FinalExp.XMinusOne | tools/blsref.py:135-136 | the power and the conjugate together raise to `(x + 1) p^6`, the power x - 1 of a unitary element |
| FinalExp.HardPart | tools/blsref.py:135-141 | the remaining lines raise to (x - 1)²(x + p)(x² + p² - 1) + 3 for the negative parameter, `conj` standing for inversion |
| FinalExp.FinalExp | tools/blsref.py:129-141 | the whole program raises to the product of the two exponents |
| FinalExp.BlsIsFamily | tools/blsref.py:25-27 | the program's constants are the family's polynomials at its parameter |
| FinalExp.HardExponentValue | tools/blsref.py:133-134 | the hard exponent times the group order is 3 (p^4 - p² + 1) |
| FinalExp.ResultHasGroupOrder | tools/blsref.py:129-141 | the result's r-th power is 1 |
| Keccak.WalkIsPi | tools/spike/zisk_accel.cc:105-106 | each step of the accelerator's tables follows pi, and its rotation is the lane's offset and the standard's triangular number |
| Keccak.PiInverts | tools/pyref.py:35-37 | the reference's destination of a lane inverts the standard's source of it |
| Keccak.RhoPiInPlace | tools/spike/zisk_accel.cc:114-116 | the displacing chain applies rho and pi to every lane |
| Keccak.KeccakfInPlace | tools/spike/zisk_accel.cc:108-122 | the in-place permutation is Keccak-f of section 3.2 of FIPS 202 |
| Keccak.RhoPiOnLists | tools/pyref.py:34-37 | the nested loops apply rho and pi to every lane |
| Keccak.KeccakF1600 | tools/pyref.py:28-41 | the list permutation is the same function |
| KeccakLaws.RotlBit | tools/pyref.py:24-25 | a rotation by r moves bit z - r to bit z, indices modulo 64 |
| KeccakLaws.ThetaBits | tools/pyref.py:31-33 | theta flips a bit if and only if the parities of the column before and of the column after, one bit down, differ |
| KeccakLaws.RhoPiBits | tools/pyref.py:34-37 | bit z of lane (x, y) comes from lane (x + 3 y, x), its offset further down |
| KeccakLaws.ChiBits | tools/pyref.py:38-39 | chi flips a bit if and only if the next bit of its row is 0 and the one after is 1 |
| KeccakLaws.IotaBits | tools/pyref.py:40 | iota flips the bits of the round constant in the first lane, and nothing else |
| KeccakLaws.RoundConstants | tools/pyref.py:8-15 | bit 2^j - 1 of constant i is the output j + 7 i of the shift register of section 3.2.5 of FIPS 202, the other bits are 0, and there are 24 |
| KeccakLaws.ChiInjective | tools/pyref.py:38-39 | chi loses no information |
| KeccakLaws.RhoPiInjective | tools/pyref.py:34-37 | neither do rho and pi |
| KeccakLaws.ThetaInjective | tools/pyref.py:31-33 | nor does theta |
| KeccakLaws.KeccakFInjective | tools/pyref.py:28-41 | different states have different images under the permutation |
| SpongeLaws.PaddingIs | tools/pyref.py:45-49 | the padding is a one bit, zeros and a one bit up to the end of a block, and the rate leaves 512 bits of capacity |
| SpongeLaws.LaneHolds | tools/pyref.py:53-54 | byte j of a lane's eight is its bits from 8 j on |
| SpongeLaws.BlockIsAbsorbed | tools/pyref.py:51-54 | a block can be read off the change in the 17 lanes of the rate, and the other lanes stay |
| SpongeLaws.OneBlockDiffers | tools/pyref.py:50-55 | two padded messages that differ in exactly one block end in different states |
| SpongeLaws.ShortMessagesDiffer | tools/pyref.py:44-55 | different messages below 136 bytes end in different states |
| SpongeLaws.DigestIs | tools/pyref.py:56 | the digest's four lanes are the first four of the final state |
| Sponge.PadInjective | tools/pyref.py:45-49 | different messages have different paddings |
| Sponge.Keccak256 | tools/pyref.py:44-56 | the loops compute the sponge over that permutation |
| Accel.WriteInBlock | Guest/Accel.lean:50-52 | writing part of a block changes those cells of the block and nothing else, addresses wrapping |
| AccelFfi.WordsRoundTrip | Guest/AccelFfi.lean:43-58 | words survive packing into bytes |
| AccelFfi.BytesRoundTrip | Guest/AccelFfi.lean:43-58 | bytes in whole words survive unpacking |
| AccelRefinement.ArithModRefines | Guest/Accel.lean:60-74 | the five-pointer effect refines its byte function |
| AccelRefinement.CurveAddRefines | Guest/Accel.lean:77-85 | the chord effect refines its byte function |
| AccelRefinement.CurveDoubleRefines | Guest/Accel.lean:88-92 | the tangent effect refines its byte function |
| AccelRefinement.ComplexRefines | Guest/Accel.lean:95-103 | the quadratic-extension effects refine their byte functions |
| AccelRefinement.BlakeRefines | Guest/Accel.lean:106-115 | the round effect, with its row passed by value, refines its byte function |
| AccelRefinement.EffectRefinesBytes | Guest/AccelFfi.lean:138-158 | for every name but two, following the stub's pointers fails where the byte function fails, leaves the same array and changes no other cell |
| AccelPoints.CurveAddAdds | Guest/AccelFfi.lean:95-103 | addition traps unless both points are reduced and their abscissas differ, and leaves their sum on any curve of the field and the second point |
| AccelPoints.CurveDoubleDoubles | Guest/AccelFfi.lean:107-112 | doubling traps unless the point is reduced and its ordinate is not zero, and leaves twice the point |
| AccelPoints.ArithModComputes | Guest/AccelFfi.lean:81-92 | the result is the residue of a b + c; only a zero modulus traps, and the operands stay |
| AccelPoints.ComplexAdds | Guest/AccelFfi.lean:115-123 | the sum call traps unless both pairs are reduced, and leaves their sum and the second pair |
| AccelPoints.ComplexSubtracts | Guest/AccelFfi.lean:115-123 | the same of differences |
| AccelPoints.ComplexMultiplies | Guest/AccelFfi.lean:115-123 | the same of products, u² being -1 |
| AccelPoints.BlakeComputes | Guest/AccelFfi.lean:127-137 | a round traps on a row that is none of the ten, and replaces the state alone |
| AccelPoints.NativeIsShaped | Guest/Accel.lean:60-92 | that arithmetic meets the refinement's hypothesis on result lengths |
| AccelRefinement.OtherShapesFail | Guest/AccelFfi.lean:63-65 | a call of any other shape fails, and unknown names fail in both views |

## Left out

- Pancake: structs and shapes (words only), static checks, and the clock's host effects. Sub-word
  stores, shared-memory stores and foreign calls are one statement `Effect` on memory; word
  operators other than addition, subtraction and comparison are `Prim`, a parameter.
- Pancake: the two statements that put a result into a local without being an assignment, the
  shared-memory load `shMemLoad` and `primitive`. Neither stands before a charge in a function
  that the analysis accepts.
- Pancake: the cost of evaluating an expression is its node count, since the evaluator's own
  figure is not shown. No theorem depends on the choice.
- Soundness.AcceptedHandlersPay: one direction only; the analysis is conservative by design and
  rejects programs that do pay. What it accepts in terms of paths is exact (`AcceptedIff`).
- OpcodeCensus: `prefixStmts`, `verdictOf` and the printed report.
- Termination: stack frames (`Guest/FrameBound.lean`) and the whole-program step bound.
- GasBodies: `access_gas_cost`, the metered-cost lemmas and gas tables of `Guest/Gas.lean`.
- Tx: the error messages of the codec, sender recovery and intrinsic cost. The Keccak hash of
  the preimage is not taken, so injectivity is of the preimage.
- SszBuilder: the 8-byte framing `pack`, the mutation and fuzzing of inputs.
- TonelliShanks: the arithmetic of the quadratic extension is an abstract field; py_ecc, which
  defines it, is not part of this model.
- FinalExp: the tower arithmetic, the Miller loop and the projective group law of
  `tools/blsref.py`.
- Ecdsa: the address of a recovered key, the `v` gate of `ecrecover_address` and the parsing of
  call data.
- Accel: SHA-256 and Keccak as accelerators of `Guest/AccelFfi.lean`; the limb arithmetic, which
  comes from a library that is not part of this model and is a parameter (`AccelPoints` takes that of
  residues and points from `zisk_accel.cc`); the CSR classes of `zisk_accel.cc`.
- Sponge: BLAKE2b of `tools/pyref.py`.
