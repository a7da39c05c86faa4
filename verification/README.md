# mpz core, modelled in Dafny

This project models the sequential, in-memory core of mpz, a Rust library for
two-party computation, and proves properties of that model. Every hash, cipher,
commitment, random generator and channel becomes a parameter: the fixed-key
`tccr` hash, the AES-based PRP halves of the GGM tree, commitments and their
openings, the ChaCha rngs of the base OTs, the encoder, blake3 digests and the
field of the OLE. Given those, all modelled code is deterministic.

What is modelled, by area:

- **Half-gate garbling with free-XOR.** This covers the generator's and the evaluator's AND gate and their gate loops. The generator keeps zero labels, the evaluator keeps active labels, and both use a tweak counter that starts at 1 and grows by 2 per AND gate. The model proves that the evaluator's active label of every wire is the generator's zero label XOR `v·Δ`, where v is the wire's plaintext value. So decoding the garbled outputs gives the plaintext evaluation of the circuit (`garble_core.dfy`, `garble_generator.dfy`, `garble_evaluator.dfy`, `garble_correct.dfy`).
- **Plaintext circuits.** This covers gates and nodes, the circuit's gate remapping, the `reverse_*` operations and reference evaluation. The builder covers feed, XOR, AND and INV gates, `append` and `build` (`components.dfy`, `circuit_types.dfy`, `feeds.dfy`, `circuit.dfy`, `builder.dfy`).
- **Values and memory.** This covers value ids and references (`value.dfy`). It also covers the value and encoding memory: ids are never duplicated, a value is assigned at most once, blind values are never assigned, and an encoding is set once (`memory.dfy`).
- **The generator's state.** This covers encoding values, activating encodings, the filtering and sorting done by the send paths, and the bookkeeping of `generate` (`generator_state.dfy`, `ordering.dfy`).
- **DEAP bookkeeping.** This covers the role guards, the finalize-once flag, draining and sorting the commitment maps, the follower's opening checks and the `decode_shared` output rule (`deap.dfy`).
- **KOS15 OT extension.** This covers the IKNP matrices and the correlation they produce, key derivation and encryption, and the sender's and receiver's state machines with their pools, counters, flips, tape and error checks (`kos_matrix.dfy`, `kos_sender.dfy`, `kos_receiver.dfy`). The ideal correlated-OT functionality is in `ideal_cot.dfy`.
- **Ferret helpers.** This covers cuckoo hashing and buckets (`cuckoo.dfy`), the MPCOT regular-index sender and receiver (`mpcot_sender.dfy`, `mpcot_receiver.dfy`), and GGM tree generation and puncturing reconstruction (`ggm_tree.dfy`).
- **Utilities.**
  - 128-bit blocks (`block.dfy`);
  - the coin toss (`cointoss.dfy`);
  - bit-matrix transposition (`transpose.dfy`);
  - the VM's registers, call stack and local executors (`register.dfy`, `call_stack.dfy`, `executor.dfy`);
  - thread ids (`thread_id.dfy`);
  - OLE from random OLE over a prime field (`field.dfy`, `ole_provider.dfy`, `ole_evaluator.dfy`, `ole_role.dfy`).
- **Shared definitions.** `wrappers.dfy` holds `Option`/`Result`, and `arith.dfy` holds integer and byte facts.

Where the source mutates state, the model does too. Classes carry the fields the source updates, and methods state their new state in terms of specification functions. In-place algorithms work on arrays: the transpose, cuckoo eviction, GGM levels and registers. Pure code becomes functions and lemmas. Where the source panics (an `unwrap`, an `expect`, an out-of-range index, a `todo!`), the model either returns an explicit `Panic` error or excludes the input with a precondition. Each such case is listed below.

Four places where the code does not do what it evidently intends are listed under "Findings": `ThreadId::increment` returns the id unchanged, the MPCOT receiver keeps old query depths, the evaluator drops an AND gate that finds no encrypted gate, and the DEAP follower's check stops at the shorter list. For each, a `*AsWritten` or zip member follows the code and exhibits the discrepancy, while the corrected definition is the one the rest of the model uses (ThreadIds.Increment, MpcotReceiver.Receiver.ExtendPre, GarbleEvaluator.Evaluator.Evaluate, Deap.Deap.Finalize).

## Model

| member | source | states |
|---|---|---|
| Blocks.Lsb | mpz-core/src/block.rs:110-114 | the lsb is 0 or 1, and is 1 exactly when bit 0 of byte 0 is set |
| Blocks.SetLsbSpec | mpz-core/src/block.rs:104-108 | after `set_lsb` the lsb is 1, bits 1..127 are unchanged, and a block whose lsb is already 1 is left as it was |
| Blocks.SelectMaskAnd | mpz-core/src/block.rs:25 | ANDing with `SELECT_MASK[b]` keeps the block when b is 1 and gives `ZERO` when b is 0, from either side |
| Blocks.XorComm | mpz-core/src/block.rs:192-199 | block XOR is commutative |
| Blocks.XorAssoc | mpz-core/src/block.rs:192-199 | block XOR is associative |
| Blocks.XorSelf | mpz-core/src/block.rs:192-199 | a block XORed with itself is `ZERO` |
| Blocks.XorZero | mpz-core/src/block.rs:192-199 | `ZERO` is the identity of XOR on both sides |
| Blocks.XorCancel | mpz-core/src/block.rs:192-199 | XORing the same block twice gives back the original, from either side |
| Blocks.LsbXor | mpz-core/src/block.rs:110-114 | the lsb of a XOR is the XOR of the two lsbs (the point-and-permute bit flips with Δ's lsb) |
| Blocks.XorBytesCancel | mpz-core/src/block.rs:192-199 | bytewise XOR with the same bytes twice cancels, from either side |
| Blocks.SigmaLinear | mpz-core/src/block.rs:116-123 | `sigma` is linear: sigma(a ⊕ b) = sigma(a) ⊕ sigma(b) |
| Blocks.SigmaOrderThree | mpz-core/src/block.rs:116-123 | applying `sigma` three times gives back the block, so it is a permutation |
| Blocks.ReverseBitsSpec | mpz-core/src/block.rs:98-102 | bit i of the reversed block is bit 127 - i of the input |
| Blocks.ReverseBitsInvolution | mpz-core/src/block.rs:98-102 | reversing the bits twice gives back the block |
| Blocks.BeBytesRoundTrip | garble/mpz-garble-core/src/generator.rs:43-44 | the big-endian bytes of a number below 256^len decode back to that number |
| Blocks.TweakBlockInjective | garble/mpz-garble-core/src/generator.rs:43-44 | distinct gate ids below 2^128 give distinct tweak blocks `Block::new((gid as u128).to_be_bytes())` |
| Components.TypeOf | mpz-circuits/src/components.rs:28-37 | `gate_type` names the gate's own kind, and each kind exactly for its variant |
| Components.Y | mpz-circuits/src/components.rs:47-55 | `y` is absent exactly for an inverter and otherwise is the gate's second input |
| Components.CopyWith | mpz-circuits/src/components.rs:65-84 | `copy_with` keeps the gate kind and puts the new x, y and z ids on it (an inverter ignores the new y) |
| Components.CopyWithOwnIds | mpz-circuits/src/components.rs:65-84 | copying a gate onto its own node ids gives back the same gate |
| Components.ShiftFeedCompose | mpz-circuits/src/components.rs:157-161 | `shift_right` by a then by b is a shift by a + b, keeps distinct nodes distinct and lands at or above the offset |
| Components.NodeConversionRoundTrip | mpz-circuits/src/components.rs:169-185 | the feed/sink conversions keep the id and undo each other |
| Components.CountAndGrows | mpz-circuits/src/circuit.rs:84-88 | a prefix of a gate list holds no more AND gates than the whole list |
| Components.CountAndBefore | mpz-circuits/src/circuit.rs:84-88 | an AND gate at position n is counted in the whole list but not in the prefix before it |
| CircuitTypes.ShiftNodes | mpz-circuits/src/builder.rs:313-316 | shifting a representation's nodes moves every node by the offset, keeping the count |
| CircuitTypes.ReprNodesLength | mpz-circuits/src/circuit.rs:169-171 | a valid binary representation has one node per bit of its value type |
| CircuitTypes.ValueBitsLength | mpz-circuits/src/circuit.rs:169-171 | a valid value has exactly as many lsb0 bits as its type's bit length |
| CircuitTypes.FromBitsRoundTrip | mpz-circuits/src/circuit.rs:211-224 | decoding the lsb0 bits of a value with `from_bin_repr` gives back the value |
| CircuitTypes.FromBitsBits | mpz-circuits/src/circuit.rs:211-224 | a value decoded from bits of the right count has that type and exactly those bits |
| CircuitTypes.ChunksConcat | mpz-circuits/src/circuit.rs:211-224 | cutting the concatenated element bits of an array into element-sized chunks gives back the elements |
| CircuitTypes.ConcatChunks | mpz-circuits/src/circuit.rs:211-224 | concatenating the chunks of a bit string gives back the bit string |
| Circuits.RemapGate | mpz-circuits/src/circuit.rs:54-71 | a gate keeps its kind, and each of its nodes is replaced by its image in the sub-circuit's wiring map when the map has one |
| Circuits.RemapUnmapped | mpz-circuits/src/circuit.rs:54-71 | a gate none of whose nodes the wiring map knows comes out unchanged |
| Circuits.GatesOfIndex | mpz-circuits/src/circuit.rs:47-77 | `gates()` lists every sub-circuit's gates in order: gate j of sub-circuit k sits at position offset(k) + j, rewired by the k-th map and no other |
| Circuits.GatesOfLength | mpz-circuits/src/circuit.rs:47-77 | `gates()` yields as many gates as the sub-circuits hold together |
| Circuits.ReverseInputsSpec | mpz-circuits/src/circuit.rs:94-98 | `reverse_inputs` reverses the input order, touches nothing else, and is its own inverse |
| Circuits.ReverseInputSpec | mpz-circuits/src/circuit.rs:100-116 | `reverse_input(idx)` reverses the elements of input idx when it is an array, changes nothing otherwise (also for an idx out of range), and is its own inverse |
| Circuits.ReverseOutputsSpec | mpz-circuits/src/circuit.rs:118-122 | `reverse_outputs` reverses the output order, touches nothing else, and is its own inverse |
| Circuits.ReverseOutputSpec | mpz-circuits/src/circuit.rs:124-140 | `reverse_output(idx)` reverses the elements of output idx when it is an array, changes nothing otherwise, and is its own inverse |
| Circuits.EvalResult | mpz-circuits/src/circuit.rs:151-167 | evaluation fails exactly when the value count or some value's type differs from the inputs, the count being checked first (`InvalidInputCount`); on success there is one valid value per output, of that output's type |
| Circuits.RunDefines | mpz-circuits/src/circuit.rs:175-200 | running the gates keeps set feeds set and sets every gate's output feed |
| Circuits.RunFrame | mpz-circuits/src/circuit.rs:175-200 | a feed no gate writes keeps its value through the gate loop |
| Circuits.RunGates | mpz-circuits/src/circuit.rs:175-200 | the gate loop applies XOR, AND and INV in order, never reading an unset feed, and leaves the feed vector the reference run gives |
| Circuits.ReadOutputs | mpz-circuits/src/circuit.rs:202-216 | the output loop reads each output's bits off the set feeds and decodes them by the output's type |
| Circuits.Evaluate | mpz-circuits/src/circuit.rs:151-219 | `evaluate` returns exactly the reference evaluation `Eval`: the count error, the first type error, or the decoded outputs |
| Feeds.SetPairsDefines | mpz-circuits/src/circuit.rs:169-171 | writing an input's bits sets every one of its feeds and unsets none |
| Feeds.SetInputsDefines | mpz-circuits/src/circuit.rs:161-172 | after all inputs are written every input feed is set and every feed set before still is |
| Feeds.MismatchFromSpec | mpz-circuits/src/circuit.rs:161-167 | the type scan returns the least input index whose type differs, and none exactly when all types agree |
| Feeds.WriteZip | mpz-circuits/src/circuit.rs:169-171 | writing one input zips its feeds with its bits, as the reference `SetZip` does |
| Feeds.WriteInputs | mpz-circuits/src/circuit.rs:161-172 | the input loop reports the first input of the wrong type, and otherwise leaves every input written, as `SetInputs` says |
| Builder.ReprOf | mpz-circuits/src/builder.rs:209-213 | the representation of a type on consecutive fresh feeds has that type, is valid, and uses exactly those feeds in order |
| Builder.ConsistentGate | mpz-circuits/src/builder.rs:225-283 | recording a gate on the feed just handed out keeps the counters equal to the gates recorded and the gate outputs below the feed counter |
| Builder.ConsistentAppend | mpz-circuits/src/builder.rs:306-324 | closing the local gates into a circuit and appending another keeps the counters consistent once the other circuit's counts and feeds are added |
| Builder.FirstKindMismatch | mpz-circuits/src/builder.rs:297-305 | the input scan finds no position exactly when every given input has the variant of the circuit's input there, and otherwise the first position that differs |
| Builder.BuilderState.constructor | mpz-circuits/src/builder.rs:176-187 | the default state has no feeds, inputs, outputs, gates or appended circuits, and zero counts |
| Builder.BuilderState.AddFeed | mpz-circuits/src/builder.rs:190-196 | `add_feed` returns the current feed id and moves the counter past it, changing nothing else |
| Builder.BuilderState.AddValueByType | mpz-circuits/src/builder.rs:204-213 | `add_value_by_type` hands out one fresh consecutive feed per bit of the type and returns their representation |
| Builder.BuilderState.AddInputByType | mpz-circuits/src/builder.rs:90-97 | `add_input_by_type` adds a fresh value of the type and records it as the next input |
| Builder.BuilderState.AddOutput | mpz-circuits/src/builder.rs:146-150 | `add_output` records the value as the next output and changes nothing else |
| Builder.BuilderState.AddXorGate | mpz-circuits/src/builder.rs:225-234 | `add_xor_gate` records an XOR gate writing a fresh feed and counts one XOR gate, keeping the builder consistent |
| Builder.BuilderState.AddAndGate | mpz-circuits/src/builder.rs:246-255 | `add_and_gate` records an AND gate writing a fresh feed and counts one AND gate, keeping the builder consistent |
| Builder.BuilderState.AddInvGate | mpz-circuits/src/builder.rs:266-273 | `add_inv_gate` records an inverter writing a fresh feed and moves neither counter |
| Builder.BuilderState.BuildCurrent | mpz-circuits/src/builder.rs:352-384 | `build_current` takes the local gates as a circuit whose counts are the builder's minus the appended circuits' and empties the local gate list |
| Builder.BuilderState.Append | mpz-circuits/src/builder.rs:285-327 | `append` fails on an input count mismatch, else on the first input of the wrong variant, changing nothing; otherwise it appends the current gates and the circuit, returns the circuit's outputs shifted past the feeds handed out, and adds its counts |
| Builder.BuilderState.Build | mpz-circuits/src/builder.rs:330-349 | `build` always succeeds; its gate count is the appended circuits' plus the local gates', and its AND/XOR counts are consistent with the gates it holds |
| Builder.ToBinRepr | mpz-circuits/src/builder.rs:209-213 | `to_bin_repr` on feeds of the right count gives a valid representation of that type over exactly those feeds |
| Builder.ChunkConcat | mpz-circuits/src/builder.rs:209-213 | cutting an array's feeds into element chunks loses no feed: the chunks concatenate back to the feeds |
| Builder.ShiftReprs | mpz-circuits/src/builder.rs:313-316 | shifting the appended circuit's outputs moves each of them by the offset, keeping their count |
| GarbleCore.GeneratorHalf | garble/mpz-garble-core/src/generator.rs:35-53 | on the label of bit a, the generator half gate's selected row differs from `w_g` by a·p_b·Δ |
| GarbleCore.EvaluatorHalf | garble/mpz-garble-core/src/generator.rs:55-57 | on the labels of bits a and b, the evaluator half gate's selected row differs from `w_e` by a·(b ⊕ p_b)·Δ |
| GarbleCore.CombineHalves | garble/mpz-garble-core/src/generator.rs:59 | the two half-gate offsets add up, so `w_g ⊕ w_e` is the low label of the AND output |
| GarbleCore.AndGateCorrect | garble/mpz-garble-core/src/lib.rs:186-207 | when Δ's lsb is 1, evaluating the two rows on the labels of a and b gives `z_0` unless a = b = 1, and `z_0 ⊕ Δ` then: the label of a ∧ b |
| GarbleCore.OutputLabelsSet | garble/mpz-garble-core/src/generator.rs:176-180 | when every feed an output names is set, each label read for the output is the one held, so the `expect` never fires |
| GarbleGenerator.GenRunCounts | garble/mpz-garble-core/src/generator.rs:201-244 | after n gates the gate id has grown by two per AND gate among them, one table per AND gate has been yielded, and earlier tables are kept |
| GarbleGenerator.GenRunDefines | garble/mpz-garble-core/src/generator.rs:201-244 | generation keeps set labels set and sets the low label of every gate's output |
| GarbleGenerator.GenReadsSet | garble/mpz-garble-core/src/generator.rs:209-229 | before gate i runs, every feed it reads has a low label, so the gate loop's `expect`s never fire |
| GarbleGenerator.AndTweaksDistinct | garble/mpz-garble-core/src/generator.rs:43-44 | the k-th AND gate uses gate id 1 + 2k, whose tweaks are 1 + 2k and 2 + 2k: its two tweaks differ and no tweak of one AND gate is a tweak of another |
| GarbleGenerator.GenConsts | garble/mpz-garble-core/src/generator.rs:131-134 | before inputs are written, feed 0 holds `ONE ⊕ Δ` and feed 1 holds `ONE` as low labels and nothing else is set |
| GarbleGenerator.Generator.constructor | garble/mpz-garble-core/src/generator.rs:146-157 | a generator starts at gate 0 with gate id 1 and no tables, over the given circuit and low labels |
| GarbleGenerator.Generator.IsComplete | garble/mpz-garble-core/src/generator.rs:160-163 | `is_complete` holds exactly when every gate has been taken, and then one table per AND gate has been yielded and the gate id is 1 + 2·(AND count) |
| GarbleGenerator.Generator.Next | garble/mpz-garble-core/src/generator.rs:197-245 | `next` takes gates until an AND gate and yields its table (no AND gate skipped before it), or takes the rest and yields nothing at the end; the invariant that the labels are the reference run `GenRun` is kept |
| GarbleGenerator.Generator.TakeInv | garble/mpz-garble-core/src/generator.rs:206-212 | an inverter's low output label is its low input label XOR Δ |
| GarbleGenerator.Generator.TakeXor | garble/mpz-garble-core/src/generator.rs:213-221 | an XOR gate's low output label is the XOR of its low input labels (free XOR) |
| GarbleGenerator.Generator.TakeAnd | garble/mpz-garble-core/src/generator.rs:222-239 | an AND gate is garbled with the current gate id, stores `z_0`, yields its table and advances the gate id by two |
| GarbleGenerator.Generator.TakeGate | garble/mpz-garble-core/src/generator.rs:203-240 | one loop turn takes exactly one gate and yields a table exactly when it is an AND gate |
| GarbleGenerator.Generator.Outputs | garble/mpz-garble-core/src/generator.rs:165-186 | `outputs` fails with `NotFinished` exactly while gates remain; otherwise it returns, per output, the full encoding made of the low labels of its feeds and Δ |
| GarbleGenerator.NewGenerator | garble/mpz-garble-core/src/generator.rs:118-157 | construction fails with `InvalidInputCount` on a count mismatch, else with `UnexpectedType` at the first input of the wrong type; otherwise it yields a valid generator whose constant and input low labels are set |
| GarbleEvaluator.EvStep | garble/mpz-garble-core/src/evaluator.rs:151-184 | one gate of the loop keeps the number of labels and draws an encrypted gate exactly when the gate is an AND gate |
| GarbleEvaluator.EvStepInv | garble/mpz-garble-core/src/evaluator.rs:154-160 | an inverter copies the active label it reads to its output |
| GarbleEvaluator.EvStepXor | garble/mpz-garble-core/src/evaluator.rs:161-169 | an XOR gate's active output label is the XOR of the labels it reads |
| GarbleEvaluator.EvStepAnd | garble/mpz-garble-core/src/evaluator.rs:170-184 | an AND gate decrypts its output label from the labels it reads and the next table with the current gate id, then moves to the next table and advances the gate id by two |
| GarbleEvaluator.EvRunCounts | garble/mpz-garble-core/src/evaluator.rs:133-184 | after n gates the gate id has grown by two and one table has been used per AND gate among them |
| GarbleEvaluator.EvRunTables | garble/mpz-garble-core/src/evaluator.rs:148-196 | a run depends only on the tables it consumes: two table lists that agree that far give the same run |
| GarbleEvaluator.EvRunDefines | garble/mpz-garble-core/src/evaluator.rs:148-196 | evaluation keeps set labels set and sets the active label of every gate's output |
| GarbleEvaluator.EvReadsSet | garble/mpz-garble-core/src/evaluator.rs:155-181 | before gate i runs every feed it reads has an active label, so the `expect`s never fire |
| GarbleEvaluator.BatchSplit | garble/mpz-garble-core/src/evaluator.rs:146-196 | with the gate that finds no table kept, batching does not matter: evaluating t1 and then t2 ends where evaluating t1 + t2 in one call does |
| GarbleEvaluator.BatchAsWritten | garble/mpz-garble-core/src/evaluator.rs:170-195 | the call as written: an AND gate that finds no table has already been taken from the iterator and is lost |
| GarbleEvaluator.AsWrittenDropsAndGate | garble/mpz-garble-core/src/evaluator.rs:185-191 | as written, two AND gates fed one table per call leave the second gate's output unset while the evaluator reports completion; both tables in one call set it (for every hash, table and input labels) |
| GarbleEvaluator.CorrectedKeepsAndGate | garble/mpz-garble-core/src/evaluator.rs:185-191 | the corrected call sets the second gate's output on the same inputs whether or not the tables are split |
| GarbleEvaluator.EvConsts | garble/mpz-garble-core/src/evaluator.rs:111-114 | before inputs are written both constant feeds hold the active label `ONE` and nothing else is set |
| GarbleEvaluator.Evaluator.constructor | garble/mpz-garble-core/src/evaluator.rs:128-135 | an evaluator starts at gate 0 with gate id 1, no table consumed and `complete` false |
| GarbleEvaluator.Evaluator.Evaluate | garble/mpz-garble-core/src/evaluator.rs:146-196 | `evaluate` moves exactly as the corrected reference `Batch` says; it consumes a prefix of the batch; it is complete exactly when every gate is processed, and otherwise waits in front of an AND gate with the whole batch consumed |
| GarbleEvaluator.Evaluator.Advance | garble/mpz-garble-core/src/evaluator.rs:151-186 | one loop turn is one step of `Batch`: the rest of the call after it ends where the whole call would |
| GarbleEvaluator.Evaluator.TakeGate | garble/mpz-garble-core/src/evaluator.rs:151-186 | one loop turn processes exactly the next gate as `EvStep` does, consuming a table exactly for an AND gate |
| GarbleEvaluator.Evaluator.TakeInv | garble/mpz-garble-core/src/evaluator.rs:154-160 | an inverter's active output is its active input; nothing else moves |
| GarbleEvaluator.Evaluator.TakeXor | garble/mpz-garble-core/src/evaluator.rs:161-169 | an XOR gate's active output is the XOR of its active inputs |
| GarbleEvaluator.Evaluator.TakeAnd | garble/mpz-garble-core/src/evaluator.rs:170-184 | an AND gate consumes the next table, stores the decrypted label and advances the gate id by two |
| GarbleEvaluator.Evaluator.Outputs | garble/mpz-garble-core/src/evaluator.rs:203-224 | `outputs` fails with `NotFinished` exactly while not complete; otherwise it returns per output the active encoding made of the labels of its feeds |
| GarbleEvaluator.NewEvaluator | garble/mpz-garble-core/src/evaluator.rs:99-144 | construction fails with `InvalidInputCount` on a count mismatch, else with `UnexpectedType` at the first input of the wrong type; otherwise it writes the constants and inputs, and a circuit without AND gates is evaluated at once |
| GarbleCorrect.EncodeXor | garble/mpz-garble-core/src/evaluator.rs:161-169 | free XOR: the XOR of the labels of a and b is the label of a ⊕ b under the XOR of the low labels the generator keeps |
| GarbleCorrect.EncodeInv | garble/mpz-garble-core/src/evaluator.rs:154-160 | an inverter is free: the label of a under x_0 is the label of ¬a under x_0 ⊕ Δ, the generator's low label |
| GarbleCorrect.StepMatches | garble/mpz-garble-core/src/evaluator.rs:151-186 | one gate preserves `active = low ⊕ v·Δ` on every set feed when the generator and evaluator use the same gate id and the evaluator is given the generator's table |
| GarbleCorrect.GenTablesPrefix | garble/mpz-garble-core/src/generator.rs:201-244 | tables once yielded stay: the tables after n gates are a prefix of those after m ≥ n |
| GarbleCorrect.RunMatches | garble/mpz-garble-core/src/evaluator.rs:146-196 | through a run of gates the invariant `active = low ⊕ v·Δ` holds, the gate ids agree, and the evaluator has used exactly the tables yielded so far |
| GarbleCorrect.SetInputsMatches | garble/mpz-garble-core/src/evaluator.rs:116-126 | writing the inputs keeps the invariant when each active input label encodes its bit under the generator's low label |
| GarbleCorrect.ConstantsEncode | garble/mpz-garble-core/src/evaluator.rs:113-114 | the active label `ONE` on feed 0 decodes to 1 and on feed 1 to 0 against the generator's constant low labels |
| GarbleCorrect.DecodeEncode | garble/mpz-garble-core/src/lib.rs:287-293 | with Δ's lsb set, an active label's lsb differs from the low label's exactly for the label of 1 (point-and-permute decoding) |
| GarbleCorrect.DecodeSelect | garble/mpz-garble-core/src/lib.rs:263-266 | decoding undoes selection: the active encoding selected for a valid value decodes back to it |
| GarbleCorrect.OutputsDecode | garble/mpz-garble-core/src/lib.rs:287-293 | where the invariant holds and every output feed carries a bit, each active output decodes to the value plaintext evaluation reads off the same feeds |
| GarbleCorrect.DecodeAll | garble/mpz-garble-core/src/lib.rs:287-293 | decoding all outputs succeeds exactly when each one does, and then gives each one's value |
| GarbleCorrect.GarbledEvalCorrect | garble/mpz-garble-core/src/lib.rs:245-297 | for inputs of the circuit's types, evaluating the garbled circuit on the selected input labels with the generator's tables gives outputs that decode to exactly what `Circuit::evaluate` computes |
| GarbleCorrect.EvaluatorUsesAll | garble/mpz-garble-core/src/evaluator.rs:185-195 | an evaluator given every table of the circuit finishes: it stops short only in front of an AND gate with all tables used, which cannot happen |
| GarbleCorrect.GarbleAll | garble/mpz-garble-core/src/lib.rs:268-281 | the generator's side of the flow fails exactly as construction does, and otherwise yields one table per AND gate and the full output encodings |
| GarbleCorrect.EvaluateAll | garble/mpz-garble-core/src/lib.rs:269-282 | the evaluator's side of the flow fails exactly as construction does, and otherwise returns the active outputs of the completed evaluation |
| GarbleCorrect.GarbleAndEvaluate | garble/mpz-garble-core/src/lib.rs:245-297 | the whole garbling test flow returns the plaintext outputs of `Circuit::evaluate`, and its error when that fails |
| GarbleCorrect.GenerateAll | garble/mpz-garble-core/src/lib.rs:274-276 | draining the generator takes every gate and collects every table it yields, in order |
| Values.AppendId | crates/mpz-garble/src/value.rs:17-20 | `append_id` forms "{parent}/{id}", one character longer than parent and suffix together |
| Values.AppendIdInjective | crates/mpz-garble/src/value.rs:17-20 | the same suffix appended to two different parents gives two different ids |
| Values.AppendIdDistinct | crates/mpz-garble/src/value.rs:17-20 | different suffixes under the same parent give different ids |
| Values.Decimal | crates/mpz-garble/src/value.rs:22-25 | a counter renders as a non-empty string of decimal digits |
| Values.DecimalRoundTrip | crates/mpz-garble/src/value.rs:22-25 | parsing the decimal rendering of a counter gives the counter back |
| Values.AppendCounter | crates/mpz-garble/src/value.rs:22-25 | `append_counter` is `append_id` with the counter's decimal rendering |
| Values.AppendCounterInjective | crates/mpz-garble/src/value.rs:22-25 | distinct counters under one parent give distinct ids |
| Values.NewArrayRef | crates/mpz-garble/src/value.rs:61-65 | `ArrayRef::new` refuses an empty id list (the source panics) and otherwise keeps the ids |
| Values.IsArray | crates/mpz-garble/src/value.rs:120-123 | `is_array` holds exactly for the `Array` variant |
| Values.Iter | crates/mpz-garble/src/value.rs:125-131 | `iter` yields exactly `len()` ids, in order: the single id, or the array's ids |
| Values.AppendIdRef | crates/mpz-garble/src/value.rs:102-118 | `ValueRef::append_id` keeps the variant and the length and appends the suffix to every element id, in order, keeping a valid reference valid |
| Values.LenPositive | crates/mpz-garble/src/value.rs:94-100 | `len` is 1 for a single value and at least 1 for a valid array |
| Values.AppendIdRefInjective | crates/mpz-garble/src/value.rs:102-118 | appending the same suffix to two different references gives two different references |
| GarbleMemory.ElemIds | garble/mpz-garble/src/memory.rs:80-84 | an array of length n names its elements `id/0` … `id/(n-1)`, in order |
| GarbleMemory.ElemIdsDistinct | garble/mpz-garble/src/memory.rs:80-84 | the element ids of an array are pairwise distinct |
| GarbleMemory.FirstTaken | garble/mpz-garble/src/memory.rs:83-88 | the element walk stops at the first element id already registered, and every element before it is new |
| GarbleMemory.MarkEach | garble/mpz-garble/src/memory.rs:100-106 | the blind marking marks every element assigned and buffers each as a blind value of the element type |
| GarbleMemory.ScanElements | garble/mpz-garble/src/memory.rs:80-98 | the element loop registers the elements up to the first one already registered and fails there with `DuplicateValueId`, or registers all of them |
| GarbleMemory.AssignMarksOnce | garble/mpz-garble/src/memory.rs:211-238 | a successful assignment marks a value that was not yet assigned and buffers it as public or private; nothing else buffered changes |
| GarbleMemory.AssignKeepsValid | garble/mpz-garble/src/memory.rs:211-238 | assignment keeps the assigned set and the buffer consistent with the registered values |
| GarbleMemory.AssignAtMostOnce | garble/mpz-garble/src/memory.rs:235-238 | a value is assigned at most once: after one assignment any further one is refused, with `Duplicate` when the type matches |
| GarbleMemory.BlindNeverAssigned | garble/mpz-garble/src/memory.rs:229-233 | a blind input is never assigned: it is refused with `BlindInput` when the type matches, and with the type error otherwise |
| GarbleMemory.AssignElemsAssignsAll | garble/mpz-garble/src/memory.rs:206-208 | when the element walk of an array assignment succeeds, every element is assigned |
| GarbleMemory.AssignElemsStopped | garble/mpz-garble/src/memory.rs:206-208 | once an element is refused the walk stops there (`?`), the elements before it staying assigned |
| GarbleMemory.AssignEach | garble/mpz-garble/src/memory.rs:206-208 | the element loop performs exactly the single-value assignment on each element in turn until one is refused |
| GarbleMemory.ArrayType | garble/mpz-garble/src/memory.rs:192-193 | the type of an array of n primitives is `Array(elem, n)` |
| GarbleMemory.DrainSpec | garble/mpz-garble/src/memory.rs:281-300 | draining removes exactly the buffered ids it walks, keeps every other entry, and sorts each removed value into the public, private or blind list by its kind |
| GarbleMemory.DrainEach | garble/mpz-garble/src/memory.rs:285-295 | the drain loop over the flattened ids computes exactly `DrainSpec` |
| GarbleMemory.DrainRemovesAll | garble/mpz-garble/src/memory.rs:285-295 | after a drain none of the walked ids is buffered |
| GarbleMemory.DrainNothing | garble/mpz-garble/src/memory.rs:285-295 | draining ids none of which is buffered returns three empty lists and leaves the buffer as it is |
| GarbleMemory.DrainTwice | garble/mpz-garble/src/memory.rs:281-300 | a second drain over the same references returns nothing |
| GarbleMemory.ValueMemory.constructor | garble/mpz-garble/src/memory.rs:48-61 | the default memory registers nothing and has nothing assigned or buffered |
| GarbleMemory.ValueMemory.AddElements | garble/mpz-garble/src/memory.rs:80-98 | registers `id/0` … in order; the first element already registered stops the walk with `DuplicateValueId`, the elements before it staying registered; no registered value changes |
| GarbleMemory.ValueMemory.MarkBlind | garble/mpz-garble/src/memory.rs:100-106 | marks each element of a blind array assigned and buffers it as blind, changing nothing else |
| GarbleMemory.ValueMemory.NewInput | garble/mpz-garble/src/memory.rs:73-135 | `new_input` refuses an id already registered with `DuplicateValueId` and changes nothing; for an array it registers the elements `id/0` … in order, and when element k is already registered it fails there, keeping elements 0..k-1 registered and nothing else; otherwise it registers the value or all the elements, marks and buffers a blind input at once, and records the reference under the id; no registered value changes |
| GarbleMemory.ValueMemory.NewOutput | garble/mpz-garble/src/memory.rs:143-177 | `new_output` registers as `new_input` does, as outputs, including the elements kept before a duplicate element, and never assigns or buffers anything |
| GarbleMemory.ValueMemory.AssignValue | garble/mpz-garble/src/memory.rs:211-241 | `assign` on one value refuses, in this order, an output, a type mismatch, a blind input and a second assignment, and otherwise marks and buffers it (`AssignSpec`) |
| GarbleMemory.ValueMemory.Assign | garble/mpz-garble/src/memory.rs:185-244 | an array assignment checks the full array type first, then assigns the elements in order until one is refused; the assigned set only grows |
| GarbleMemory.ValueMemory.DrainAssigned | garble/mpz-garble/src/memory.rs:281-300 | `drain_assigned` removes every buffered id of the references and sorts it by kind, as `DrainSpec` says; values stay marked assigned |
| GarbleMemory.ValueMemory.GetRefById | garble/mpz-garble/src/memory.rs:248-251 | the reference registered under the id, if any |
| GarbleMemory.ValueMemory.GetValueType | garble/mpz-garble/src/memory.rs:258-275 | the registered type of a value, or an array of the first element's type and the array's length; an unregistered value panics |
| GarbleMemory.DrainTwiceEmpty | garble/mpz-garble/src/memory.rs:281-300 | draining the same references twice: the first drain returns `DrainSpec`, the second returns three empty lists |
| GarbleMemory.EncodingMemory.constructor | garble/mpz-garble/src/memory.rs:352-358 | a new encoding memory holds no encodings |
| GarbleMemory.EncodingMemory.SetEncodingById | garble/mpz-garble/src/memory.rs:364-377 | `set_encoding_by_id` refuses with `DuplicateId` when an encoding is stored under the id's hash and changes nothing; otherwise it stores the encoding |
| GarbleMemory.EncodingMemory.SetEncoding | garble/mpz-garble/src/memory.rs:383-400 | `set_encoding` leaves exactly the result and map of the reference walk SetSpec: a single value is stored as `set_encoding_by_id` does, an array's elements are stored in order until one is refused with `DuplicateId`, those before it staying stored, and a shape mismatch panics without storing; on success the encoding reads back |
| GarbleMemory.SetElemsOk | garble/mpz-garble/src/memory.rs:392-397 | when every element is stored, each element id was free, the ids are distinct, element i holds encoding i, and every earlier entry is kept |
| GarbleMemory.SetElemsOkKeys | garble/mpz-garble/src/memory.rs:392-397 | when every element is stored, exactly the element keys are added to the map |
| GarbleMemory.SetElemsStopped | garble/mpz-garble/src/memory.rs:392-397 | a refused element walk stops at some element k with `DuplicateId` of that element, the map being what storing elements 0..k-1 gives, and element k's key was already stored |
| GarbleMemory.SetElemsKeys | garble/mpz-garble/src/memory.rs:392-397 | the element walk only adds keys of the given elements and keeps every stored entry |
| GarbleMemory.SetSpecKeys | garble/mpz-garble/src/memory.rs:383-400 | `set_encoding` only adds keys of the reference's own ids and keeps every stored entry |
| GarbleMemory.EncodingMemory.GetEncodingById | garble/mpz-garble/src/memory.rs:406-409 | the encoding stored under the id's hash, if any |
| GarbleMemory.EncodingMemory.GetEncoding | garble/mpz-garble/src/memory.rs:415-436 | an array's encoding exists exactly when every element's does, and is their list in order |
| GeneratorState.FilterInactive | crates/mpz-garble/src/generator/mod.rs:186-190 | the filter keeps exactly the entries whose id is not active, in order |
| GeneratorState.FilterAllActive | crates/mpz-garble/src/generator/mod.rs:186-190 | when every id is active nothing passes the filter |
| GeneratorState.ActivateStopped | crates/mpz-garble/src/generator/mod.rs:193-196 | once an activation is refused the `collect` into `Result` stops there, the entries before it staying active |
| GeneratorState.ActivateOkActive | crates/mpz-garble/src/generator/mod.rs:193-196 | a successful walk makes exactly its entries' ids active, in addition to those active before |
| GeneratorState.ActivateOkEntries | crates/mpz-garble/src/generator/mod.rs:193-196 | each entry of a successful walk was inactive and had a stored encoding, and its result is the selection from that encoding |
| GeneratorState.ActivateOkDistinct | crates/mpz-garble/src/generator/mod.rs:423-440 | the entries of a successful walk have pairwise distinct ids |
| GeneratorState.ActivateSucceeds | crates/mpz-garble/src/generator/mod.rs:423-440 | conversely, distinct inactive entries that all have encodings, and whose selections succeed, are all activated |
| GeneratorState.ActivateTwiceRefused | crates/mpz-garble/src/generator/mod.rs:432-437 | the same id twice in one batch makes the walk fail with the second activation |
| GeneratorState.ActivateEach | crates/mpz-garble/src/generator/mod.rs:193-196 | the activation loop computes exactly the reference walk `ActivatePrefix` |
| GeneratorState.LookupAll | crates/mpz-garble/src/generator/mod.rs:290-298 | the encodings of the references in order, or `MissingEncoding` for a reference without one |
| GeneratorState.LookupAllOk | crates/mpz-garble/src/generator/mod.rs:290-298 | the lookup succeeds exactly when every reference has an encoding |
| GeneratorState.State.constructor | crates/mpz-garble/src/generator/mod.rs:381-386 | a new state has no encodings, no active values and no garbled circuits |
| GeneratorState.State.EncodeById | crates/mpz-garble/src/generator/mod.rs:408-420 | `encode_by_id` returns a stored encoding unchanged; otherwise it stores and returns the encoder's; either way the id then has that encoding |
| GeneratorState.State.Encode | crates/mpz-garble/src/generator/mod.rs:388-405 | `encode` panics exactly on a value/type combination other than a non-array single value or an array of the type's length; otherwise every id gets an encoding and the value's encoding reads back; stored encodings never change |
| GeneratorState.State.ActivateEncoding | crates/mpz-garble/src/generator/mod.rs:423-440 | `activate_encoding` refuses with `MissingEncoding` when there is no encoding, then with `DuplicateEncoding` when the id is already active; otherwise the id becomes active and its encoding is returned |
| GeneratorState.State.SendActive | crates/mpz-garble/src/generator/mod.rs:184-196 | the send paths skip the ids already active, sort the rest by id and activate them in that order |
| GeneratorState.State.OtSendActiveEncodings | crates/mpz-garble/src/generator/mod.rs:174-201 | `ot_send_active_encodings` activates the inactive values in sorted order and returns their full encodings |
| GeneratorState.State.DirectSendActiveEncodings | crates/mpz-garble/src/generator/mod.rs:210-247 | `direct_send_active_encodings` activates the inactive values in sorted order and selects each active encoding by its plaintext; a failed selection is an error |
| GeneratorState.State.Generate | crates/mpz-garble/src/generator/mod.rs:256-349 | `generate` returns the stored output encodings for references garbled before; otherwise fails with `MissingEncoding` when an input has no encoding; else, after a successful garbling, the encodings and active set are exactly those of the output walk StorePrefix, and the references are recorded only when that walk succeeds, its error (`EncodingRegistryError` or `Panic`) being returned otherwise |
| GeneratorState.State.StoreOutputs | crates/mpz-garble/src/generator/mod.rs:336-345 | the result, encodings and active set are exactly those of the reference walk StorePrefix over the zipped outputs: each output stored by `set_encoding` and its ids made active, in order, the first refusal stopping the walk with its error mapped to `EncodingRegistryError` (or `Panic`); on success every output reads back its encoding |
| GeneratorState.StorePrefixActive | crates/mpz-garble/src/generator/mod.rs:336-345 | the walk adds to the active set only ids of the outputs it visited, adds all of them when it succeeds, and keeps every stored encoding |
| GeneratorState.StorePrefixKeys | crates/mpz-garble/src/generator/mod.rs:336-345 | the walk stores encodings only under keys of the outputs' ids |
| GeneratorState.StoreStopped | crates/mpz-garble/src/generator/mod.rs:336-345 | once the walk has failed, visiting further outputs changes nothing: the error, the encodings and the active set stay those at the failure |
| GeneratorState.SetSpecStores | garble/mpz-garble/src/memory.rs:383-400 | a successful `set_encoding` leaves every id of the reference with its encoding stored |
| GeneratorState.StorePrefixActiveStored | crates/mpz-garble/src/generator/mod.rs:336-345 | when every active id has an encoding, so does every active id after the walk, whatever its outcome |
| GeneratorState.StorePrefixStores | crates/mpz-garble/src/generator/mod.rs:336-345 | after a successful walk each output reads back its encoding and its ids are all active |
| GeneratorState.State.GetEncodingsById | crates/mpz-garble/src/generator/mod.rs:101-110 | the stored encodings of the ids in order, or none when one is missing |
| GeneratorState.State.GenerateInputEncodingsById | crates/mpz-garble/src/generator/mod.rs:130-135 | the encodings become exactly EncodeAll of the values: `encode_by_id` on each listed value in order |
| GeneratorState.EncodeAllSpec | crates/mpz-garble/src/generator/mod.rs:411-421 | encoding a list of values keeps every stored encoding, adds exactly the keys of the listed ids, and gives each new key `encode_by_type` of that key (the id's `to_u64`) and the type listed first for it |
| GeneratorState.State.Decode | crates/mpz-garble/src/generator/mod.rs:356-378 | `decode` gives the decoding of each value's encoding, and fails exactly when one value has no encoding |
| GeneratorState.EncodeByIdTwice | crates/mpz-garble/src/generator/mod.rs:408-420 | `encode_by_id` is idempotent: a second call returns the first encoding and stores nothing new |
| GeneratorState.SendAgainSkipsAll | crates/mpz-garble/src/generator/mod.rs:184-196 | after a successful send every value of the batch is active, so sending the same batch again activates nothing |
| GeneratorState.GenerateTwice | crates/mpz-garble/src/generator/mod.rs:272-285 | `generate` a second time on the same references returns what the first returned, without garbling again |
| GeneratorState.ActivateKeepsStored | crates/mpz-garble/src/generator/mod.rs:423-440 | activation only picks values with stored encodings, so every active value has an encoding |
| GeneratorState.GetEncodingStores | garble/mpz-garble/src/memory.rs:415-436 | what `get_encoding` reads back is what the memory stores for the value |
| GeneratorState.StoresKept | garble/mpz-garble/src/memory.rs:364-377 | storing more encodings write-once keeps every stored one readable |
| Deap.ExecuteIds | garble/mpz-garble/src/protocol/deap/mod.rs:196-202 | the generator and evaluator ids of an execution are `{id}/0` and `{id}/1` in some order, and differ |
| Deap.ExecuteIdsAgree | garble/mpz-garble/src/protocol/deap/mod.rs:199-202 | what the leader generates under an execution the follower evaluates, and the other way round |
| Deap.ExecuteIdsDistinct | garble/mpz-garble/src/protocol/deap/mod.rs:196-202 | a party's generator id is never its evaluator id, and distinct executions use distinct ids |
| Deap.EntriesNames | garble/mpz-garble/src/protocol/deap/mod.rs:843-848 | a listing of a map names exactly the map's keys |
| Deap.MapEntries | garble/mpz-garble/src/protocol/deap/mod.rs:843-848 | one listing of a map's entries: empty for the empty map, otherwise some entry after a listing of the rest |
| Deap.SortKeepsEntries | garble/mpz-garble/src/protocol/deap/mod.rs:852-855 | sorting a listing of a map keeps it a listing of the same map |
| Deap.SortedEntries | garble/mpz-garble/src/protocol/deap/mod.rs:843-855 | the entries of a map, sorted by id: a listing of the map in ascending id order |
| Deap.SortedListingUnique | garble/mpz-garble/src/protocol/deap/mod.rs:843-855 | a sorted listing of a map is unique, so the order `drain` happens to produce never shows in the finalized state |
| Deap.SortedEntriesAlign | garble/mpz-garble/src/protocol/deap/mod.rs:761-785 | two maps with the same ids, each sorted, pair their i-th entries under the same id, so pairing by position pairs each decommitment with its commitment |
| Deap.Drain | garble/mpz-garble/src/protocol/deap/mod.rs:843-848 | `drain().collect()` lists every entry of the map exactly once, in some order |
| Deap.Openings | garble/mpz-garble/src/protocol/deap/mod.rs:730-744 | the decommitments the leader sends are the listing's data in the listing's order |
| Deap.ZipCheck | garble/mpz-garble/src/protocol/deap/mod.rs:761-785 | the follower's check as written: pairs openings and commitments by `zip`, stopping at the shorter list; a failure is `CommitmentError` or the mismatch error |
| Deap.ZipCheckSkipsMissing | garble/mpz-garble/src/protocol/deap/mod.rs:761-785 | as written, an empty list of openings passes the check although some commitment is left unopened |
| Deap.OpeningsCheck | garble/mpz-garble/src/protocol/deap/mod.rs:761-785 | the corrected check: a count of openings other than the count of commitments fails; a failure is `CommitmentError` or the mismatch error |
| Deap.ZipCheckPasses | garble/mpz-garble/src/protocol/deap/mod.rs:761-785 | with equal counts the check as written passes exactly when every commitment opens to its expected value |
| Deap.OpeningsCheckSound | garble/mpz-garble/src/protocol/deap/mod.rs:761-785 | the corrected check passes exactly when every stored commitment is opened to its expected value |
| Deap.CheckEach | garble/mpz-garble/src/protocol/deap/mod.rs:761-785 | the follower's loop computes the corrected check |
| Deap.FollowerVerdict | garble/mpz-garble/src/protocol/deap/mod.rs:761-787 | the follower checks the equality checks first, then the proofs; a failure is `CommitmentError`, `InvalidEqualityCheck` or `InvalidProof` |
| Deap.MatchesOpens | garble/mpz-garble/src/protocol/deap/mod.rs:761-785 | when decommitments match commitments id by id, the sorted openings open the sorted commitments position by position |
| Deap.HonestFinalizePasses | garble/mpz-garble/src/protocol/deap/mod.rs:715-787 | an honest leader's sorted openings pass the follower's position-wise check, and a passing check means every stored commitment was opened to its expected value |
| Deap.VerdictPassedOpensAll | garble/mpz-garble/src/protocol/deap/mod.rs:761-787 | the verdict passes exactly when both lists of openings open every stored commitment |
| Deap.DeapState.constructor | garble/mpz-garble/src/protocol/deap/mod.rs:103-119 | a new state holds no decommitments and no commitments |
| Deap.DeapState.FinalizeState | garble/mpz-garble/src/protocol/deap/mod.rs:835-863 | `finalize_state` empties the four maps and hands over each map's entries sorted by id |
| Deap.Deap.constructor | garble/mpz-garble/src/protocol/deap/mod.rs:92-123 | a new DEAP instance has its role and encoder seed, is not finalized, and its maps are empty |
| Deap.Deap.DeferProve | garble/mpz-garble/src/protocol/deap/mod.rs:248-292 | a follower is refused with a role error and nothing changes; a leader stores the decommitment of its output digest under the id and sends the commitment |
| Deap.Deap.DeferVerify | garble/mpz-garble/src/protocol/deap/mod.rs:318-371 | a leader is refused with a role error and nothing changes; a follower stores the digest it expects with the leader's commitment under the id |
| Deap.Deap.DeferEqualityCheck | garble/mpz-garble/src/protocol/deap/mod.rs:435-464 | in `decode` the leader stores its equality-check decommitment and sends the commitment, and the follower stores the expected check with the leader's commitment; the proof maps are untouched |
| Deap.Deap.Finalize | garble/mpz-garble/src/protocol/deap/mod.rs:691-790 | `finalize` runs at most once (`AlreadyFinalized` after); it sets the flag and drains the state first; the leader refuses a seed that is not 32 bytes, then a failed verification, and sends its openings in id order; the follower sends its seed and then passes exactly when every stored commitment is opened to its expected value |
| Deap.XorBits | garble/mpz-garble/src/protocol/deap/mod.rs:525-530 | `^` on bit strings of equal length flips exactly the differing bits |
| Deap.SameShapeIsSameType | garble/mpz-garble/src/protocol/deap/mod.rs:525-530 | for well-formed values having the same shape is having the same type |
| Deap.XorValue | garble/mpz-garble/src/protocol/deap/mod.rs:525-530 | `^` on values is defined exactly for values of the same type, and keeps the type |
| Deap.XorValueInverse | garble/mpz-garble/src/protocol/deap/mod.rs:476-531 | unmasking with the same one-time pad gives back the value, so `decode_private` returns the plaintext |
| Deap.SharesRecombine | garble/mpz-garble/src/protocol/deap/mod.rs:1310-1315 | the shares `decode_shared` returns (the leader's masked value ⊕ its pad, the follower's pad) recombine by `^` into the plaintext |
| Cointoss.XorAllComm | mpz-core/src/cointoss.rs:95-99 | the pairwise XOR of two seed lists does not depend on which party's list comes first |
| Cointoss.Send | mpz-core/src/cointoss.rs:60-76 | the sender keeps its seeds and commits to every seed, one commitment and one decommitment per seed, in order |
| Cointoss.SenderFinalize | mpz-core/src/cointoss.rs:80-106 | the sender fails with `CountMismatch` exactly when the seed counts differ, and otherwise outputs its seeds XORed with the receiver's and hands over its decommitments |
| Cointoss.Reveal | mpz-core/src/cointoss.rs:162-186 | the receiver fails with `CountMismatch` exactly when the commitment count differs from its seed count, and otherwise keeps the commitments and reveals its seeds |
| Cointoss.OpenAll | mpz-core/src/cointoss.rs:211-219 | opening fails exactly when some decommitment does not open its commitment, and otherwise yields one seed per decommitment |
| Cointoss.ReceiverFinalize | mpz-core/src/cointoss.rs:189-220 | the receiver checks the decommitment count, then the commitment count, then every opening, and outputs its seeds XORed with the opened ones |
| Cointoss.HonestRunAgrees | mpz-core/src/cointoss.rs:54-220 | an honest run with equal seed counts succeeds at every step and both parties output the same seeds, the pairwise XOR of the two lists |
| ThreadIds.Default | mpz-common/src/id.rs:9-13 | the root thread's id is the single byte 0 |
| ThreadIds.New | mpz-common/src/id.rs:16-20 | `new(id)` is the single byte id |
| ThreadIds.PrefixLess | mpz-common/src/id.rs:6 | under the derived order a proper prefix sorts before its extensions |
| ThreadIds.FirstDifferenceLess | mpz-common/src/id.rs:6 | under the derived order two ids are ordered by their first differing byte |
| ThreadIds.Fork | mpz-common/src/id.rs:37-43 | a child is one byte longer than its parent and sorts after it |
| ThreadIds.ForkExtends | mpz-common/src/id.rs:37-43 | a child keeps its parent as a prefix, ends in 0 and sorts after the parent |
| ThreadIds.ForkInjective | mpz-common/src/id.rs:37-43 | distinct parents fork distinct children |
| ThreadIds.IncrementAsWritten | mpz-common/src/id.rs:28-34 | the increment as written fails exactly when the last byte is 255, and otherwise returns the id unchanged (the sum is thrown away) |
| ThreadIds.IncrementAsWrittenRepeats | mpz-common/src/id.rs:28-34 | as written, incrementing the root id gives the root id back, not a larger one |
| ThreadIds.Increment | mpz-common/src/id.rs:28-34 | the corrected increment fails exactly when the last byte is 255, and otherwise bumps the last byte by one, keeping the rest |
| ThreadIds.IncrementGreater | mpz-common/src/id.rs:28-34 | a successful corrected increment yields a strictly larger, hence different, id |
| ThreadIds.ForkThenIncrement | mpz-common/src/id.rs:28-43 | forking then incrementing names a sibling of the child that keeps the parent as prefix and differs from both child and parent |
| Ordering.StrLeTotal | crates/mpz-garble/src/generator/mod.rs:191 | the string order compares any two ids |
| Ordering.StrLeTrans | crates/mpz-garble/src/generator/mod.rs:191 | the string order is transitive |
| Ordering.StrLeAntisymmetric | crates/mpz-garble/src/generator/mod.rs:191 | two ids each at most the other are equal |
| Ordering.InsertBySorted | crates/mpz-garble/src/generator/mod.rs:191 | inserting an entry into a list sorted by key name keeps it sorted |
| Ordering.SortBy | garble/mpz-garble/src/protocol/deap/mod.rs:852-855 | sorting by key name yields a sorted permutation of the entries |
| Ordering.InsertByNamed | crates/mpz-garble/src/generator/mod.rs:191 | inserting an entry puts it in front of the entries of its own name, leaving the entries of every other name as they were |
| Ordering.SortByStable | crates/mpz-garble/src/generator/mod.rs:191 | the sort is stable: for every name, the entries with that name keep their input order |
| Ordering.SortedKeysAlign | garble/mpz-garble/src/protocol/deap/mod.rs:852-855 | two sorted lists without repeated names over the same set of names list them in the same order, position by position |
| Ordering.PermutationKeepsDistinct | garble/mpz-garble/src/protocol/deap/mod.rs:843-855 | a permutation of entries without repeated names has none either |
| OleProvider.CreateMask | ole/mpz-ole-core/src/ole/role/provider.rs:25-41 | the provider's mask is refused exactly when the random and chosen factor lists differ in length, and otherwise holds `a[i] + a'[i]` reduced into the field, one per element |
| OleProvider.OutputAt | ole/mpz-ole-core/src/ole/role/provider.rs:70-73 | the provider's expression `-(-x' + (-a')·v)` equals `x' + a'·v` in the field |
| OleProvider.GenerateOutput | ole/mpz-ole-core/src/ole/role/provider.rs:54-78 | the provider's output is refused exactly when the three input lists do not share one length, and otherwise holds `x'[i] + a'[i]·v[i]` per element |
| OleEvaluator.CreateMask | ole/mpz-ole-core/src/ole/role/evaluator.rs:24-36 | the evaluator's mask is refused exactly when the random and chosen factor lists differ in length, and otherwise holds `b[i] + b'[i]` per element |
| OleEvaluator.OutputAt | ole/mpz-ole-core/src/ole/role/evaluator.rs:65-68 | the evaluator's share of one element is `y' + b·u` in the field |
| OleEvaluator.GenerateOutput | ole/mpz-ole-core/src/ole/role/evaluator.rs:49-73 | the evaluator's output is refused exactly when the three input lists do not share one length, and otherwise holds `y'[i] + b[i]·u[i]` per element |
| OleRole.ElementCorrect | ole/mpz-ole-core/src/ole/role/evaluator.rs:65-68 | for one element, given a random correlation `y' = a'·b' + x'`, the evaluator's share equals `a·b` plus the provider's share |
| OleRole.OleCorrect | ole/mpz-ole-core/src/ole/role/provider.rs:25-78 | both parties succeed on a random OLE correlation of matching length, and their outputs satisfy `y[i] = a[i]·b[i] + x[i]` for every element, which is the OLE the two roles promise |
| PrimeField.Add | ole/mpz-ole-core/src/ole/role/provider.rs:73 | field addition gives the element of `0..p` congruent to `a + b` |
| PrimeField.Mul | ole/mpz-ole-core/src/ole/role/provider.rs:73 | field multiplication gives the element of `0..p` congruent to `a · b` |
| PrimeField.Neg | ole/mpz-ole-core/src/ole/role/provider.rs:73 | field negation gives the element of `0..p` that added to `a` is a multiple of p |
| PrimeField.NegNegSum | ole/mpz-ole-core/src/ole/role/provider.rs:73 | the double negation in the provider's formula cancels in the field |
| IdealCot.Correlate | ot/mpz-ot-core/src/ideal/ideal_cot.rs:66-71 | each receiver block is the sender block XOR Δ where the choice bit is set, and the sender block itself elsewhere |
| IdealCot.CheckMeansCorrelated | ot/mpz-ot-core/src/ideal/ideal_cot.rs:83-97 | for lists of one length the test check accepts exactly the correlated messages |
| IdealCot.IdealCOT.NewWithDelta | ot/mpz-ot-core/src/ideal/ideal_cot.rs:41-48 | the functionality starts with the given Δ and a zero counter |
| IdealCot.IdealCOT.Extend | ot/mpz-ot-core/src/ideal/ideal_cot.rs:60-75 | an extension keeps Δ, advances the counter by the number of OTs, hands out the random blocks and bits as given, and its messages pass the check |
| IdealCot.IdealCOT.Delta | ot/mpz-ot-core/src/ideal/ideal_cot.rs:51-53 | the accessor returns the Δ the functionality was built with |
| KosMatrix.ExtensionMatrixSize | ot/mpz-ot-core/src/kos/mod.rs:32-34 | the extension message for `count` OTs is `count · 128 / 8` bytes, 16 per OT |
| KosMatrix.ChoiceBits | ot/mpz-ot-core/src/kos/receiver.rs:142-146 | choice bit j is bit `j % 8` (lsb0) of choice byte `j / 8` |
| KosMatrix.ColumnCorrelation | ot/mpz-ot-core/src/kos/sender.rs:156-163 | with honest base-OT pads, every byte of the sender's matrix q is the receiver's t byte, XORed with the choice byte in exactly the rows where Δ's bit is set |
| KosMatrix.ExtendedBit | ot/mpz-ot-core/src/kos/sender.rs:166-173 | bit b of extended row `8·jq + jr` is bit jr of byte jq of matrix row b, so the transposed rows are the matrix columns |
| KosMatrix.RowCorrelation | ot/mpz-ot-core/src/kos/receiver.rs:173-186 | every extended receiver row t_j equals the sender row q_j, XOR Δ when choice j is set |
| KosMatrix.ExtensionIsCorrelated | ot/mpz-ot-core/src/kos/sender.rs:119-173 | the IKNP extension yields correlated OTs: the receiver's rows are exactly the ideal correlation of the sender's rows under Δ and the random choices |
| KosMatrix.PackBits | ot/mpz-ot-core/src/kos/receiver.rs:146 | packing lsb0 gives one byte per eight bits, rounding up |
| KosMatrix.PackedBit | ot/mpz-ot-core/src/kos/receiver.rs:146 | unpacking packed bytes gives every bit back, and zeros on the padding |
| KosMatrix.PackChoiceBits | ot/mpz-ot-core/src/kos/receiver.rs:142-146 | packing the bits of a choice vector gives the choice vector back |
| KosMatrix.SenderKeyPairsAppend | ot/mpz-ot-core/src/kos/sender.rs:266-280 | the key pairs of two consecutive batches are the key pairs of the whole, tweaks running on |
| KosMatrix.SenderKeyPairsSplit | ot/mpz-ot-core/src/kos/sender.rs:266-280 | a prefix of the key pairs is the key pairs of the prefix rows, and the rest start at tweak `c + k` |
| KosMatrix.ReceiverKeysAppend | ot/mpz-ot-core/src/kos/receiver.rs:274-281 | the receiver's keys of two consecutive batches are the keys of the whole, tweaks running on |
| KosMatrix.ReceiverKeysSplit | ot/mpz-ot-core/src/kos/receiver.rs:274-281 | a prefix of the receiver's keys is the keys of the prefix rows, and the rest start at tweak `c + k` |
| KosMatrix.ReceiverHoldsChosenKey | ot/mpz-ot-core/src/kos/sender.rs:271-276 | on correlated rows the receiver's key is the sender key its choice selects, and hashing its row with Δ gives the other one |
| KosMatrix.Encrypt | ot/mpz-ot-core/src/kos/sender.rs:363-376 | the ciphertext list is as long as the shortest of keys, messages and flip bits, and pair j is message pair j masked by key pair j, crossed when flip j is set |
| KosMatrix.PairsFlatten | ot/mpz-ot-core/src/kos/receiver.rs:358 | cutting a flattened payload into pairs gives the pairs back |
| KosMatrix.FlattenPairs | ot/mpz-ot-core/src/kos/receiver.rs:358 | flattening the pairs of an even-length payload gives the payload back |
| KosMatrix.Decrypt | ot/mpz-ot-core/src/kos/receiver.rs:355-360 | one plaintext per key: the key XOR the ciphertext its choice selects |
| KosMatrix.TransferCorrect | ot/mpz-ot-core/src/kos/sender.rs:363-376 | when the sender flips by `r ⊕ b`, a receiver holding the keys its random choices r pick decrypts exactly the messages its chosen bits b select |
| KosMatrix.RecomputeHonest | ot/mpz-ot-core/src/kos/receiver.rs:411-426 | for correlated rows the ciphertexts verify recomputes from the true messages are the ones an honest sender produced |
| KosSender.Sender.Setup | ot/mpz-ot-core/src/kos/sender.rs:63-91 | after setup the sender holds Δ, no keys and no unchecked rows, with both counters at zero and not yet extended |
| KosSender.Sender.Extend | ot/mpz-ot-core/src/kos/sender.rs:119-175 | a second extension fails with InvalidState, a count not a multiple of 64 with InvalidCount, a `us` of the wrong size with InvalidExtend, a zero count panics in the transpose; otherwise the `count` transposed rows of q join the unchecked rows |
| KosSender.Sender.Check | ot/mpz-ot-core/src/kos/sender.rs:198-284 | with fewer than 256 unchecked rows it fails and changes nothing; otherwise the unchecked rows are taken, a failed comparison loses them, and success turns all but the last 256 into key pairs at the tweaks from the counter on and marks the sender extended |
| KosSender.Sender.Keys | ot/mpz-ot-core/src/kos/sender.rs:291-306 | asking for more keys than pending fails and changes nothing; otherwise the oldest `count` key pairs leave under the current transfer id and the id advances |
| KosSender.SenderKeys.Derandomize | ot/mpz-ot-core/src/kos/sender.rs:328-343 | a correction is refused on a transfer-id mismatch, then on a count mismatch, and is stored otherwise |
| KosSender.SenderKeys.FlipBits | ot/mpz-ot-core/src/kos/sender.rs:357-360 | without a correction the flip bits are all zero and there are more of them than keys |
| KosSender.SenderKeys.EncryptBlocks | ot/mpz-ot-core/src/kos/sender.rs:350-383 | it fails exactly when there is not one message pair per key pair; otherwise the payload carries this transfer's id and the flattened encryption under the flip bits |
| KosSender.EncryptUnmasks | ot/mpz-ot-core/src/kos/sender.rs:363-376 | each flattened ciphertext unmasks to its message under the key the flip bit selects |
| KosReceiver.RoundUp64 | ot/mpz-ot-core/src/kos/receiver.rs:136 | `(count + 63) & !63` is the least multiple of 64 not below count |
| KosReceiver.FlipBitsOfFlip | ot/mpz-ot-core/src/kos/receiver.rs:300-312 | the sender reads bit j of the flip as `setup ⊕ choice` for every corrected position, and as no flip on the padding |
| KosReceiver.Receiver.Setup | ot/mpz-ot-core/src/kos/receiver.rs:53-103 | after setup all pools are empty, all counters zero, and a tape exists exactly when the sender commits |
| KosReceiver.Receiver.Extend | ot/mpz-ot-core/src/kos/receiver.rs:134-188 | the count is rounded up to a multiple of 64 (a zero count panics in the transpose); the transposed rows of t and the random choices join the unchecked ones and the returned `us` has the size the sender accepts |
| KosReceiver.Receiver.Check | ot/mpz-ot-core/src/kos/receiver.rs:208-292 | the unchecked rows are always taken; fewer than 256 underflow; otherwise all but the last 256 become keys at the tweaks from the key counter on, with their choices (and rows when taped) |
| KosReceiver.Receiver.Release | ot/mpz-ot-core/src/kos/receiver.rs:269-289 | the kept rows' keys and choices are appended, rows join the tape rows only when taping, and the key counter advances by the number of rows |
| KosReceiver.Receiver.Derandomize | ot/mpz-ot-core/src/kos/receiver.rs:300-312 | more corrections than choices held is a slice panic; otherwise the flip is `setup ⊕ choice` per corrected position and the choice prefix is overwritten |
| KosReceiver.Receiver.Receive | ot/mpz-ot-core/src/kos/receiver.rs:319-370 | an odd ciphertext count is InvalidPayload and more pairs than keys a CountMismatch, both leaving the state alone; otherwise the oldest keys and choices are consumed and the plaintexts are their decryption |
| KosReceiver.Receiver.Consume | ot/mpz-ot-core/src/kos/receiver.rs:331-366 | the oldest n keys, choices (and taped rows) leave the pools, the tape records them under the payload counter, and both counters advance |
| KosReceiver.Receiver.Verify | ot/mpz-ot-core/src/kos/receiver.rs:381-434 | verify fails with TapeNotRecorded without a tape, InvalidPayloadIndex for an unrecorded payload, and otherwise accepts exactly when the recomputed ciphertexts have the recorded digest |
| KosReceiver.ReceiverKeysArePicks | ot/mpz-ot-core/src/kos/receiver.rs:274-281 | on correlated rows the receiver's keys are the sender key pairs picked by its random choices |
| KosReceiver.TransferEndToEnd | ot/mpz-ot-core/src/kos/mod.rs:100-131 | sender keys from q, receiver keys from the correlated t, the receiver's flip as the sender's flips: the receiver decrypts exactly the messages its real choices select |
| KosReceiver.VerifyAcceptsHonest | ot/mpz-ot-core/src/kos/mod.rs:287-318 | verify accepts an honest sender: the recorded digest matches the recomputation from the true messages |
| KosReceiver.RecomputePackedChoices | ot/mpz-ot-core/src/kos/receiver.rs:405-413 | recomputing from packed choices equals recomputing from the choices, the zip stopping before the padding |
| Transpose.TIndexTwice | crates/matrix-transpose/src/lib.rs:156-176 | the transposition's index map applied twice, with the dimensions swapped, is the identity |
| Transpose.Transposed | crates/matrix-transpose/src/lib.rs:156-176 | the transposed buffer keeps the length, and bit n is the bit of the source at the transposed index |
| Transpose.TransposedBit | crates/matrix-transpose/src/lib.rs:156-176 | every output bit is the matching bit of the transposed bit matrix |
| Transpose.TransposeTwice | crates/matrix-transpose/src/lib.rs:32-62 | transposing twice, with the dimensions swapped, gives the matrix back |
| Transpose.NaiveTranspose | crates/matrix-transpose/src/lib.rs:88-110 | the reference transpose has 8·width output rows, each padded to whole bytes |
| Transpose.NaiveIsTransposed | crates/matrix-transpose/src/lib.rs:112-122 | for a multiple of 8 rows the reference transpose equals the specified one, as the library's own comparison expects |
| Transpose.NaiveExample | crates/matrix-transpose/src/lib.rs:125-153 | the reference transpose of the eight example bytes is the expected matrix |
| Transpose.TransposeBits | crates/matrix-transpose/src/lib.rs:38-62 | a row count that is not a power of two fails with InvalidNumberOfRows, a buffer not splitting into rows with MalformedSlice, a width that is not a positive multiple of 8 with InvalidNumberOfColumns; on error the buffer is untouched, and on success it holds the transpose |
| Cuckoo.TableLength | crates/mpz-ot-core/src/ferret/cuckoo.rs:132-134 | the table has `ceil(1.5·t)` slots, so at least one slot for a non-empty input |
| Cuckoo.HashToIndex | crates/mpz-ot-core/src/ferret/cuckoo.rs:138-143 | the slot a hash function picks for a value lies inside the table |
| Cuckoo.CountUpdate | crates/mpz-ot-core/src/ferret/cuckoo.rs:78 | replacing the item in one slot removes the old occupant's value and adds the new one |
| Cuckoo.EmptyTableSpec | crates/mpz-ot-core/src/ferret/cuckoo.rs:56 | the fresh table holds no value and every (absent) item is in its own slot |
| Cuckoo.Place | crates/mpz-ot-core/src/ferret/cuckoo.rs:66-90 | a successful placement keeps the table length |
| Cuckoo.PlaceSpec | crates/mpz-ot-core/src/ferret/cuckoo.rs:66-90 | a successful placement keeps every item in the slot its own hash function picks, and the table then holds exactly one more copy of the new value, evicted items included |
| Cuckoo.InsertAllSpec | crates/mpz-ot-core/src/ferret/cuckoo.rs:58-60 | inserting the values one by one, when it succeeds, keeps every item in its own slot and adds each value as often as it occurs in the input |
| Cuckoo.InsertSpecCorrect | crates/mpz-ot-core/src/ferret/cuckoo.rs:51-62 | a successful insert yields a table of `ceil(1.5·t)` slots storing each value as often as it was given, each item in the slot its hash function picks |
| Cuckoo.HashValue | crates/mpz-ot-core/src/ferret/cuckoo.rs:66-90 | the in-place eviction loop succeeds or fails exactly as the placement specification does, and on success leaves the table it computes |
| Cuckoo.Insert | crates/mpz-ot-core/src/ferret/cuckoo.rs:51-62 | the table-building method returns exactly the specified insertion, error included |
| Cuckoo.BucketMembers | crates/mpz-ot-core/src/ferret/cuckoo.rs:114-126 | an item lies in bucket b exactly when its value is below n, its hash index names a hash function, and that function sends the value to b |
| Cuckoo.BucketsSize | crates/mpz-ot-core/src/ferret/cuckoo.rs:114-126 | the buckets for `0..n` hold `n · hashNum` items in all |
| Cuckoo.PushValue | crates/mpz-ot-core/src/ferret/cuckoo.rs:118-123 | pushing one value under every hash function, in place, gives the specified buckets |
| Cuckoo.BucketInsert | crates/mpz-ot-core/src/ferret/cuckoo.rs:114-126 | the bucket-building loops produce exactly the specified buckets |
| Cuckoo.FindPos | crates/mpz-ot-core/src/ferret/cuckoo.rs:147-150 | the search fails with NotInBucket exactly when the item is absent, and otherwise returns a position holding the item |
| Cuckoo.TableInBuckets | crates/mpz-ot-core/src/ferret/cuckoo.rs:160-195 | every item of a table built from values below n lies in the bucket at its own slot, so looking it up there succeeds, as the library's own check expects |
| MpcotSender.IntervalIsCeiling | ot/mpz-ot-core/src/ferret/mpcot/sender_regular.rs:54 | `(n + t - 1) / t` is the ceiling of `n / t`: t intervals cover n and t shorter ones do not |
| MpcotSender.QueryLengthsSpec | ot/mpz-ot-core/src/ferret/mpcot/sender_regular.rs:56-68 | the partition succeeds when t divides n and otherwise exactly when `n % k` completes n; on success it is t lengths, all k but the last, which is at most k, summing to n |
| MpcotSender.CeilLog2 | ot/mpz-ot-core/src/ferret/mpcot/sender_regular.rs:72-78 | the depth of a query is the least d with `2^d` at least its length |
| MpcotSender.DepthsOf | ot/mpz-ot-core/src/ferret/mpcot/sender_regular.rs:70-78 | the depth loop produces one padded depth per query length |
| MpcotSender.GatherAt | ot/mpz-ot-core/src/ferret/mpcot/sender_regular.rs:102-104 | block j of query i sits at the sum of the earlier lengths plus j in the gathered output |
| MpcotSender.GatherOutputs | ot/mpz-ot-core/src/ferret/mpcot/sender_regular.rs:100-104 | the gather loop concatenates each output cut to its query length, over the outputs and lengths it zips |
| MpcotSender.GatherCoversN | ot/mpz-ot-core/src/ferret/mpcot/sender_regular.rs:46-112 | with a successful partition of n and one output per query of the right size, the gathered output has exactly n blocks |
| MpcotSender.Sender.Setup | ot/mpz-ot-core/src/ferret/mpcot/sender_regular.rs:26-35 | setup keeps Δ, starts the counter at zero and holds no queries |
| MpcotSender.Sender.ExtendPre | ot/mpz-ot-core/src/ferret/mpcot/sender_regular.rs:46-81 | t above n, or a partition that does not sum to n, fails with InvalidInput and changes nothing; otherwise the lengths and depths are recorded and the depths returned |
| MpcotSender.Sender.Extend | ot/mpz-ot-core/src/ferret/mpcot/sender_regular.rs:90-112 | an output whose size does not match its depth fails and changes nothing; otherwise the outputs are gathered, the counter advances and the queries are cleared |
| MpcotReceiver.Queries | ot/mpz-ot-core/src/ferret/mpcot/receiver_regular.rs:87-92 | one SPCOT query per point, pairing its depth with its offset `alpha mod k` |
| MpcotReceiver.OffsetInInterval | ot/mpz-ot-core/src/ferret/mpcot/receiver_regular.rs:77-92 | for a point inside interval i the offset is its distance from the interval's start |
| MpcotReceiver.QueryIndexInTree | ot/mpz-ot-core/src/ferret/mpcot/receiver_regular.rs:77-92 | a point inside its interval and below n has an offset below the interval length, hence below `2^depth`, a leaf of its tree |
| MpcotReceiver.Receiver.Setup | ot/mpz-ot-core/src/ferret/mpcot/receiver_regular.rs:22-31 | setup starts the counter at zero with no queries |
| MpcotReceiver.Receiver.ExtendPre | ot/mpz-ot-core/src/ferret/mpcot/receiver_regular.rs:41-95 | the corrected receiver: t above n or an irregular partition fails and changes nothing; a point outside its interval fails; otherwise the queries pair each point's depth with its offset and the depths replace the old ones |
| MpcotReceiver.Receiver.Extend | ot/mpz-ot-core/src/ferret/mpcot/receiver_regular.rs:104-127 | an output whose size does not match its depth fails and changes nothing; otherwise the outputs are gathered, the counter advances and the queries are cleared |
| MpcotReceiver.ExtendPreAsWritten | ot/mpz-ot-core/src/ferret/mpcot/receiver_regular.rs:41-95 | as written, the new depths are appended to the recorded ones and the queries pair the points with the front of that list |
| MpcotReceiver.StaleDepthAfterRejectedPoint | ot/mpz-ot-core/src/ferret/mpcot/receiver_regular.rs:70-92 | after `extend_pre([5], 4)` is rejected, `extend_pre([0, 2], 4)` as written asks for a depth-2 tree for an interval of length 2 and records three depths for two queries, where the corrected receiver asks for depth 1 |
| MpcotReceiver.CorrectedSecondCall | ot/mpz-ot-core/src/ferret/mpcot/receiver_regular.rs:70-92 | with the depths replaced, the second call of that sequence partitions 4 into lengths [2, 2] and asks for depth 1 at offsets 0 and 0, fitting each interval |
| Ggm.Expand | crates/mpz-core/src/ggm_tree.rs:50-62 | the next level has twice the nodes, node j's children at `2j` and `2j + 1` |
| Ggm.ExpandUpdate | crates/mpz-core/src/ggm_tree.rs:50-62 | changing one node changes exactly its two children in the next level |
| Ggm.Level | crates/mpz-core/src/ggm_tree.rs:30-64 | level h of the tree holds `2^h` nodes |
| Ggm.SideSumZeroed | crates/mpz-core/src/ggm_tree.rs:105-112 | zeroing one node of the summed side takes exactly that node out of the sum |
| Ggm.PosOf | crates/mpz-core/src/ggm_tree.rs:80-91 | the punctured leaf index has `|alpha|` bits, each the complement of a choice bit |
| Ggm.LayerCorrect | crates/mpz-core/src/ggm_tree.rs:83-112 | given the full sum of the chosen side, one reconstruction layer turns a level with node q zeroed into the next level with only the unknown child of q zeroed |
| Ggm.FillCorrect | crates/mpz-core/src/ggm_tree.rs:105-112 | with both children of q cleared, the XOR of the known nodes of one side with that side's full sum recovers that child exactly |
| Ggm.RecCorrect | crates/mpz-core/src/ggm_tree.rs:75-92 | with the sums chosen by alpha, layer i of the reconstruction is level i of the seed's tree with only the node at `PosOf(alpha[..i])` zeroed |
| Ggm.Puncture | crates/mpz-core/src/ggm_tree.rs:69-92 | the reconstructed tree equals the seed's leaves everywhere except the punctured leaf, which is zero |
| Ggm.FoldStep | crates/mpz-core/src/ggm_tree.rs:51-59 | folding one eight-node buffer into the running sums extends them by the children of four more nodes |
| Ggm.GgmTree.New | crates/mpz-core/src/ggm_tree.rs:16-19 | the tree keeps its depth and the given PRP halves |
| Ggm.GgmTree.ExpandFourAt | crates/mpz-core/src/ggm_tree.rs:51-61 | four nodes are expanded into the eight slots from `2i`, each node's children in place, and no other slot changes |
| Ggm.GgmTree.ExpandLevel | crates/mpz-core/src/ggm_tree.rs:122-127 | expanding a level in place, from the high end, leaves the next level in the front of the buffer and the rest untouched |
| Ggm.GgmTree.GenLevel | crates/mpz-core/src/ggm_tree.rs:44-63 | one level of gen expands the level in place and returns the left and right sums of the new level |
| Ggm.GgmTree.GenTop | crates/mpz-core/src/ggm_tree.rs:34-42 | the first two levels of the tree are written with their left and right sums |
| Ggm.GgmTree.Gen | crates/mpz-core/src/ggm_tree.rs:30-64 | gen writes the leaves of the tree grown from the seed and the left and right sums of every level below the root |
| Ggm.GgmTree.SumSide | crates/mpz-core/src/ggm_tree.rs:106-111 | the loop sums every second node of the level from the start index |
| Ggm.GgmTree.ReconstructLayer | crates/mpz-core/src/ggm_tree.rs:95-128 | the node at pos becomes the side sum XOR k, and below the last level the level is then expanded in place |
| Ggm.GgmTree.Reconstruct | crates/mpz-core/src/ggm_tree.rs:75-92 | reconstruction from sums chosen by alpha out of any seed's tree yields that tree's leaves with only the leaf at `PosOf(alpha)` zeroed |
| VmCallStack.InstrIter.Default | mpz-vm-core/src/call_stack.rs:118-125 | a fresh iterator has no instructions and index 0 |
| VmCallStack.InstrIter.SwitchFrame | mpz-vm-core/src/call_stack.rs:129-133 | switching frames installs the given code at the given index |
| VmCallStack.InstrIter.SetIdx | mpz-vm-core/src/call_stack.rs:140-142 | setting the index keeps the code |
| VmCallStack.InstrIter.Next | mpz-vm-core/src/call_stack.rs:148-152 | the instruction at the index is returned while one exists and `None` past the end; the index advances either way |
| VmCallStack.CallStack.Default | mpz-vm-core/src/call_stack.rs:30-37 | a fresh call stack has no frames and an empty iterator |
| VmCallStack.CallStack.Call | mpz-vm-core/src/call_stack.rs:61-70 | a call pushes a frame remembering the caller's index and the new base, starts the callee at its first instruction, and the register base becomes the new one |
| VmCallStack.CallStack.ReturnCall | mpz-vm-core/src/call_stack.rs:75-85 | a return on an empty stack fails with StackEmpty and changes nothing; otherwise the top frame is popped and, when a caller remains, its code resumes at the index saved in the popped frame, while popping the last frame leaves the iterator as it was and the base at 0 |
| VmCallStack.CallStack.Jump | mpz-vm-core/src/call_stack.rs:91-102 | a jump whose target is below 0 or beyond the end of the code fails with InstrOutOfBounds and keeps the index; otherwise the index becomes the target |
| VmCallStack.CallStack.NextInstr | mpz-vm-core/src/call_stack.rs:107-109 | the next instruction is the iterator's, the index advancing by one |
| VmCallStack.CallThenReturn | mpz-vm-core/src/call_stack.rs:61-85 | a call followed by the callee's return resumes the caller where it stopped: same frames, same code, same index, same register base |
| VmRegisters.Registers.Default | mpz-vm-core/src/register.rs:34-42 | fresh registers are 1024 empty slots with base 0 |
| VmRegisters.Registers.Set | mpz-vm-core/src/register.rs:28-32 | writing register `index` sets slot `base + index` and no other slot, so every other register reads as before |
| VmRegisters.Registers.Take | mpz-vm-core/src/register.rs:28-32 | taking a register returns its value and leaves it empty, no other slot changing |
| VmRegisters.Registers.SetBase | mpz-vm-core/src/register.rs:45-47 | moving the base touches no slot |
| VmRegisters.Registers.Window | mpz-vm-core/src/register.rs:49-51 | the window holds the 256 registers of the current frame, as indexing reads them |
| VmExecutor.ExecuteControlFlow | mpz-vm-core/src/executor/local.rs:17-65 | Return, Call and JumpIfTrue each leave the state their specification describes, and the `todo!` instructions panic |
| VmExecutor.ExecReturn | mpz-vm-core/src/executor/local.rs:25-37 | the returned value moves into the return register, the frame is popped and the base follows the stack; returning from the last frame moves the base to 0 and hands out what register 0 then holds: the returned value when the frame's base was 0, otherwise the earlier content of slot 0, the returned value staying in slot b |
| VmExecutor.ExecCall | mpz-vm-core/src/executor/local.rs:38-52 | a missing function or a wrong argument count panics; otherwise a frame with base `dest` is pushed and the registers follow it |
| VmExecutor.ExecJumpIfTrue | mpz-vm-core/src/executor/local.rs:53-58 | the condition register is consumed, an empty register or a failing `is_true` panics, and the jump happens only on a true condition |
| VmExecutor.ExecuteMemory | mpz-vm-core/src/executor/local.rs:75-98 | LoadLiteral writes the literal, Move moves the source into the destination leaving the source empty, Copy copies it, each touching no other slot; an out-of-range register and the `todo!` instructions panic |

## Left out

- Cryptographic primitives are parameters, and none of their security properties are modelled. This covers:
  - the fixed-key AES `tccr` hash and the two-key PRP of the GGM tree;
  - the keyed AES hashes of cuckoo hashing;
  - the ChaCha rngs of the base OTs and the `Prg` of the ideal COT;
  - hash commitments and their nonces;
  - blake3 and the ciphertext digest;
  - the encoder, and the 64-bit id hash of the encoding memory.
- Floating point: `compute_table_length` computes `(1.5·t).ceil()` in `f32`. The model uses the exact integer ceiling, which agrees wherever `f32` represents `1.5·t` exactly.
- Machine integers:
  - `usize`, `u32` and `u16` overflow is not modelled except where the source's behaviour depends on it. It does in the thread id's 255 check, the 16-bit register and instruction ids, and the 64-bit truncation in `hash_to_index`.
  - Release-build wrap-around of `+=` on counters is not modelled.
- All async, channel and thread code is out. This covers the DEAP `load`/`execute`/`defer_*` bodies, the generator's and the evaluator's `async` wrappers, the OT transport, sinks, the batching of encrypted gates, and `setup_assigned_values` with its concurrent joins. What these produce enters as parameters.
- The circuits built by `mpz-circuits/src/ops/uint.rs` are not part of this model. So the adder examples in the circuit and builder tests (1 + 2 = 3, `1 wrapping_add 255`, `2a + b = 11`) are not restated.
- `Circuit::evaluate` never writes the constant feeds 0 and 1. The model follows that: plaintext feeds start empty. The garbling generator's constant labels are modelled (GarbleGenerator.NewGenerator).
- The circuit file used (sub-circuits plus wiring maps) and the builder file used (appended circuits) come from two versions of mpz-circuits. Each is modelled as written. The builder's `build` yields a circuit of appended circuits plus local gates, and that circuit is not converted into the sub-circuit form that `circuit.rs` evaluates.
- The generator's and the evaluator's optional `hasher` (a running digest of the encrypted gates) is not modelled.
- GarbleCorrect.GarbleAndEvaluate feeds the evaluator all encrypted gates in one batch. Batching in general is covered by GarbleEvaluator.BatchSplit.
- Memory and generator state:
  - `crates/mpz-garble/src/memory.rs` is not part of this model; `garble/mpz-garble/src/memory.rs` is used.
  - The `ValueMemory` inside the DEAP `State` is not modelled.
  - Nested array types are out. An array's elements are primitive values, as every constructor in the source builds them.
  - `get_encoding` asserts that all element encodings of an array have one type. The model does not compare the types of stored encodings; it returns the element encodings as they are.
- GeneratorState.State.Generate covers the lookup, early-return and store steps of `generate`. The garbling in between, with the hashing of the circuit, is the parameter `garble`.
- DEAP:
  - `decode_blind`, `EqualityCheck::new` and the `new_private_otp`, `new_blind_otp` and `new_output_mask` helpers are not modelled.
  - The OTP circuit of `decode_shared` lives in `internal_circuits.rs`, which is not part of this model. It is taken as `v ⊕ otp0 ⊕ otp1`.
- Deap.Deap.Finalize: the follower's checks use the corrected count-checking comparison (see Findings).
- KosSender.Sender.Check: the GF(2^128) consistency check (the `clmul` sums) enters as the boolean `consistent`.
- KOS:
  - The receiver's `Check` message is not computed.
  - `encrypt_bytes`, the AES-CTR byte-message variant, is not modelled.
  - Protocol version mismatches are not modelled.
  - The sender's `u32` transfer id is an unbounded counter.
- Transpose.TransposeBits requires `rows >= 1`. For `rows == 0` the source's first check computes `rows - 1` and underflows.
- Transpose:
  - The SIMD and scalar kernels are not part of this model. Transposing is specified by its result, and the method writes that result from a copy of the buffer.
  - For row counts of 1, 2 or 4, the library returns `Ok` but the padded naive transpose is longer than the buffer. The model's specification is the dense layout, and it equals the naive transpose whenever the row count is a multiple of 8.
- Cuckoo: `CUCKOO_HASH_NUM` and `CUCKOO_TRIAL_NUM` are defined in a file that is not part of this model. They are the parameters `hashNum` and `trials`.
- MpcotSender.Sender.ExtendPre requires `t >= 1`. With `t == 0` the source divides by zero computing `k`.
- MpcotReceiver.Receiver.ExtendPre requires at least one point. With none, the source divides by zero computing `k`.
- Sorting: the send paths may sort lists that repeat an id. The sort is stable, as Rust's `sort_by` is (Ordering.SortByStable), so equal ids keep their input order, and so does the choice of which error a walk over them reports first.
- GarbleEvaluator.Evaluator.Evaluate follows the corrected Batch: an AND gate that finds no encrypted gate stays pending for the next call. The source has already taken it from the iterator and loses it (evaluator.rs:185-191); that behaviour is GarbleEvaluator.BatchAsWritten (see Findings).
- MpcotReceiver.Receiver.ExtendPre replaces the recorded query depths with the new ones. The source appends them to `queries_depth` (receiver_regular.rs:74); that behaviour is MpcotReceiver.ExtendPreAsWritten (see Findings).
- ThreadIds.Increment is the corrected increment; the code as written is ThreadIds.IncrementAsWritten (see Findings).
- GarbleMemory.EncodingMemory.SetEncoding follows the doc comment of `set_encoding` (memory.rs:383-384) and fails with `EncodingPanic` when a single-value reference is given an array encoding. The code (memory.rs:391) stores that encoding under the id; the model's encodings hold one label set per id, so it cannot represent an array encoding stored under a single id.
- Preconditions that exclude inputs on which the source panics:
  - Circuits.Eval and Circuits.Evaluate require a well-formed circuit (Circuits.WellFormed). On other circuits the source's "Feed should be set" `expect` or an index can panic.
  - GarbleGenerator.NewGenerator, GarbleEvaluator.NewEvaluator and GarbleCorrect.GenFinal, EvFinal, GarbledEvalCorrect, GarbleAll, EvaluateAll and GarbleAndEvaluate require at least two feeds. The source writes the constant feeds 0 and 1 unconditionally and panics on a smaller circuit.
  - Ggm.GgmTree.Gen requires depth at least 2. With depth 1 the source panics writing the second level (ggm_tree.rs:40); with depth 0 writing the first.
  - Ggm.GgmTree.Gen and Ggm.GgmTree.Reconstruct require the buffer lengths the source's `assert_eq!`s check (ggm_tree.rs:31-33, 76-78); with other lengths the source panics.
  - Cuckoo.BucketInsert requires at least one bucket. The source fails only when there are no buckets and at least one value (the modulo in `hash_to_index`); with no values it returns no buckets.
  - VmCallStack.InstrIter.Next and VmCallStack.CallStack.NextInstr require that the instruction index does not reach 2^16 after the step. The source's `self.ip += 1` on a `u16` overflows there (call_stack.rs:150).
- OLE: the field is the integers modulo a parameter p. The P-256 field of the source is not part of this model, and only the ring laws are used.
- The VM's function table, thread and machine files are not part of this model, and neither are the instructions marked `todo!` (they return `Panic`).
- `error.rs` files are not part of this model. Errors are datatypes holding only the data the modelled code checks.

## Findings

| source | as written | input that shows it | evidently intended | confidence | as-written member | corrected member |
|---|---|---|---|---|---|---|
| garble/mpz-garble-core/src/evaluator.rs:170-191 | an AND gate that finds no encrypted gate has already been taken from the circuit iterator, and `evaluate` returns without it, so the next batch resumes after the dropped gate | a circuit with two AND gates, evaluated with one encrypted gate per call: the second gate's output is never set | the gate stays pending and is evaluated with the first table of the next batch | high (not executed) | GarbleEvaluator.BatchAsWritten, GarbleEvaluator.AsWrittenDropsAndGate | GarbleEvaluator.Batch, GarbleEvaluator.BatchSplit, GarbleEvaluator.CorrectedKeepsAndGate |
| mpz-common/src/id.rs:28-34 | `checked_add(1)?` only tests for overflow; its sum is discarded and the copied id is returned unchanged | the root id `[0]` increments to `[0]` | the last byte is bumped, giving a new, larger id | high (not executed) | ThreadIds.IncrementAsWritten, ThreadIds.IncrementAsWrittenRepeats | ThreadIds.Increment, ThreadIds.IncrementGreater |
| ot/mpz-ot-core/src/ferret/mpcot/receiver_regular.rs:70-92 | the receiver pushes the new depths onto `queries_depth`, which only `extend` clears, and pairs the points with the front of that list; a call rejected for an irregular point leaves its depths behind | `extend_pre([5], 4)` fails, then `extend_pre([0, 2], 4)` asks for depth 2 for an interval of length 2 | the depths are replaced, as the sender does | medium (not executed) | MpcotReceiver.ExtendPreAsWritten, MpcotReceiver.StaleDepthAfterRejectedPoint | MpcotReceiver.Receiver.ExtendPre, MpcotReceiver.CorrectedSecondCall |
| garble/mpz-garble/src/protocol/deap/mod.rs:761-785 | the follower zips the leader's decommitments with its stored commitments, so the check stops at the shorter list | a leader that sends no decommitments passes the follower's finalize while the follower holds commitments | every stored commitment must be opened, with a count mismatch rejected | medium (not executed) | Deap.ZipCheck, Deap.ZipCheckSkipsMissing | Deap.OpeningsCheck, Deap.OpeningsCheckSound |
