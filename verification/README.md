# GIP verification

A Dafny model of the GIP processor simulator and of the memories and DSP blocks around it,
with proofs of what they compute. `dafny verify dfyconfig.toml` checks everything.

The GIP runs ARM code: a decoder expands each ARM instruction into internal instructions, and
a staged datapath executes them with hazard stalls, forwarding, a single register write port
and flushes. A second, single-step model runs the same internal instructions one at a time.

| part | files |
|---|---|
| words, bit operators, flat memory | `Words`, `FlatMemory` |
| internal instructions, ALU, one-at-a-time execution; what ALU operations, condition destinations and byte accesses mean | `GipInstruction`, `GipAlu`, `GipSequential`, `GipOperations`, `ByteAccess` |
| pipeline: one clock as a function, refinement, write port, stalls, flushes, draining, feeding | `GipPipeline`, `GipArbitration`, `GipFlushes`, `GipFeeding` |
| the same datapath as a class with registered state, signals and next state | `GipDatapath` |
| ARM data processing: shifter, expansion, accumulator cache, decoder class, whole programs in the pipeline | `ArmOpcode`, `ArmShifter`, `ArmDataProcessing`, `ArmAccumulator`, `ArmDecoder`, `ArmProgram` |
| ARM multiplication, alone and in the pipeline | `ArmMultiply`, `ArmMultiplyPipeline` |
| ARM block transfers, push and pop, the same over the hashed-page RAM | `ArmBlockTransfer`, `ArmStack`, `ArmStackOnRam` |
| ARM word loads and stores, branches; which expansions flush | `ArmLoadStore`, `ArmBranch`, `ArmFlushes` |
| the instruction words, written by place value and read back by the decoder | `ArmEncoding` |
| the single-step model as a class | `GipSingle` |
| hashed-page RAM with linked pages, slot map | `SparseRam`, `MemoryMap` |
| DDR memory | `DdrBanks`, `Ddr` |
| CIC filter, clock crossing, sine ROM, and the front end that joins them: phase accumulator, mixer, both clock domains | `CicMath`, `CicFilter`, `ClockCrossing`, `SineRom`, `FrontEnd` |
| sample memory sender, serial flash frames | `SamplePostbus`, `FlashFrame` |

Words are integers below 2^32 and every C truncation is written out. The architecture that the
ARM files are measured against is stated in them with integer arithmetic, following the ARM
Architecture Reference Manual (ARM DDI 0100), sections A3.2, A4.1.5, A5.1, A5.2 and A5.4 and the
MUL and MLA entries of chapter A4. The inputs that come from outside the modelled code (what
the decoder offers in a cycle, acknowledgements, data and clock edges, the words fetched) are
parameters and arbitrary.

## What the code does not get right

Each of these is a departure of the C code from its own aim or from the architecture. The code is
modelled as it is. Where a property of the design fails, the named predicate is the exact condition
and a lemma proves that it is; the other points are facts of the model, each in the named contract.

- A multiplication step that waits behind the hazard check while the ALU moves on has its
  operand shifted once too often (`GipPipeline.MlbHeld`). `GipPipeline.StepRefines` shows that a clock refines
  sequential execution if and only if this does not happen with a non-zero operand, and
  `GipPipeline.RunRefines` what every run does, with one quadrupling for each such clock.
  `GipArbitration.HeldStepIsReached` and `GipArbitration.HeldStepGoesWrong` give a program, and
  `ArmMultiplyPipeline.MultiplyOnPipeline` shows that the expansion of a multiplication is safe.
- The hazard check reads the register field of the second operand even when an immediate
  shares its storage; this only costs stalls. The number it finds there is what the decoder's last
  register operand has left (`ArmAccumulator.StaleAfter`). A delay-slot instruction survives a flush
  exactly when it is held in that cycle (`GipArbitration.FlushCancelsYounger`).
- ASR of a negative word by more than 32 has its sign bits cut to 28: `ArmShifter.ShiftDeparts` with
  `ArmShifter.BarrelShiftIsArm`, and for operands `ArmDataProcessing.OperandDeparts` with
  `ArmDataProcessing.ShiftedOperandIsArm`.
- A flag-setting logical instruction with a rotated immediate leaves C alone:
  `ArmDataProcessing.CarryDeparts` with `ArmDataProcessing.ExpansionIsArm`.
- LSR #0, ASR #0 and ROR #0 in the offset of a load or store shift by nothing. The transfer then goes to
  another address or leaves another base exactly in the cases of `ArmLoadStore.TransferDeparts`, by
  `ArmLoadStore.TransferDepartsExactly`; `ArmLoadStore.LdrWithLsrZero` is one. In the single-step model ASR by
  an immediate shifts in zeros as well: `GipSingle.SingleDeparts` with `GipSingle.SingleDepartsExactly`.
- A load of the PC with a pre-indexed, written-back address and no shift does not flush what follows it:
  `ArmFlushes.TransferFlushesLast`.
- A store whose data register is replaced by the accumulator stores the PC instead
  (`ArmAccumulator.LosesData`); `ArmAccumulator.SubstituteIsSame` says when that makes a difference.
- An LDMIA or LDMIB with an empty list does not advance the PC (`GipSingle.SingleStep.EmptyBlock`).
- A failed `map_memory` leaves the slots before the conflict mapped (`MemoryMap.Map.MapMemory`).
- The DDR model leaves the bank number out of the cell address, so the banks share their cells;
  a command sent while a timing is being met is the one thing that breaks the bank counters
  (`DdrBanks.CountersFollowStates`).
- The synchroniser needs three internal clocks per data clock, as its comment says; with two a
  pulse can carry the wrong sample (`ClockCrossing.TwoClocksAreTooFew`). Three are not enough for the
  mixer behind it: pulses can then come two clocks apart (`ClockCrossing.PulsesTwoApart`), and the mixer
  takes a sample exactly if it comes three clocks after the last it took
  (`FrontEnd.InternalClock.Clock`). With four clocks per data clock nothing is lost
  (`FrontEnd.AdcFrontEnd.Clock`).
- The filter widens an 18-bit mixer sum as if it had 17 bits. With sixteen-bit samples a sum comes out
  right exactly if it is below 65536 (`FrontEnd.TurnedIsWidened`); louder ones change their sign
  (`FrontEnd.LoudSampleFolds`), samples of fifteen bits never do (`FrontEnd.SmallSamplesAreSafe`).
- A substep of the sine ROM is decoded to its target exactly when its residual was 0 or 1
  (`SineRom.DecodeIsTarget`).
- A postbus packet is meant for the 32 words of a block and carries at least 33: the last comes from behind the
  block, or is the block's own first word if its number is odd (`SamplePostbus.SampleMemory.PacketCarriesBlock`,
  `SamplePostbus.ReadAddressIsOr`), and a word that had to wait in the holding register is sent again
  (`SamplePostbus.StepTx`).
- A flash frame that would be exactly 257 bytes long fits the buffer of 260 but is not sent
  (`FlashFrame.DownloadCommand`).

## Model

| member | source | states |
|---|---|---|
| GipPipeline.StepRefines | design/repository/models/gip/c_gip_full.cpp:2359-3497 | one clock of register-read, ALU, memory and write-back stages keeps the pipeline equal to a sequential machine that executes an instruction when it enters the ALU, if and only if no multiplication step with a non-zero operand is held |
| GipPipeline.RunRefines | design/repository/models/gip/c_gip_full.cpp:2359-3497 | every run, with any bubbles, stalls and flushes, ends in the state of executing the entered instructions one at a time, where each clock in which a multiplication step was held quadruples its operand once more |
| GipPipeline.RunExecutes | design/repository/models/gip/c_gip_full.cpp:2359-3497 | a run without such a clock is plain execution |
| GipPipeline.QueueMoves | design/repository/models/gip/c_gip_full.cpp:2518-2583 | the one write port serves the oldest result and the new ones queue up behind it without changing the final registers |
| GipPipeline.AluRetires | design/repository/models/gip/c_gip_full.cpp:3221-3368 | when the ALU hands over, the drained state equals that of having executed its instruction |
| GipPipeline.AluWaits | design/repository/models/gip/c_gip_full.cpp:3221-3274 | when the ALU result has no room nothing is lost, and a store that reaches memory twice has the effect of one |
| GipPipeline.StoreTwice | design/repository/models/gip/c_gip_full.cpp:3410-3496 | repeating a byte, half-word or word store changes nothing |
| GipPipeline.ForwardingReadsLatest | design/repository/models/gip/c_gip_full.cpp:2359-2381 | a register that is not pending reads, through forwarding, as the value sequential execution would give it |
| GipArbitration.WritePortExact | design/repository/models/gip/c_gip_full.cpp:2518-2583 | in every state of every run, port history, results in flight and the ALU result together are the sequential write-back sequence: each result is written once, in program order |
| GipArbitration.HeldResultWaitsOneCycle | design/repository/models/gip/c_gip_full.cpp:2562-2583 | a result that finds the port taken is served in the next cycle |
| GipArbitration.HoldsAreBounded | design/repository/models/gip/c_gip_full.cpp:2390-2439 | no hazard stall lasts more than three cycles |
| GipArbitration.AluAcceptsNextCycle | design/repository/models/gip/c_gip_full.cpp:3221-3274 | the ALU refuses at most one cycle in a row |
| GipArbitration.FlushCancelsYounger | design/repository/models/gip/c_gip_full.cpp:2546-2561 | when a flush comes, exactly the younger instructions are cancelled, apart from a held delay-slot instruction; GipFlushes.ClockCancels says when it comes |
| GipFlushes.ClockCancels | design/repository/models/gip/c_gip_full.cpp:3276-3281 | measured against the sequential machine: a clock cancels if and only if it hands over an instruction that asks for a flush and whose condition holds in the state it is executed in; then the offer, the read stage but for a held delay-slot instruction, and nothing else is lost, and otherwise nothing is |
| GipFlushes.FailedConditionsCancelNothing | design/repository/models/gip/c_gip_full.cpp:3276-3281 | a run from a drained pipeline in which every entered instruction that asks for a flush fails its condition at its turn loses none of the accepted instructions |
| GipFlushes.RedirectCancelsYounger | design/repository/models/gip/c_gip_full.cpp:2546-2561 | the first instruction of a run whose condition for a flush holds cancels exactly the younger ones accepted by then, but for a held delay-slot instruction; what comes later enters |
| GipArbitration.AcceptedInstructionsEnter | design/repository/models/gip/c_gip_full.cpp:2546-2561 | between flushes every accepted instruction enters the ALU once, in order |
| GipArbitration.IdleCyclesDrain | design/repository/models/gip/c_gip_full.cpp:2383-2610 | fifteen idle cycles drain the pipeline from any state |
| GipArbitration.HeldStepIsReached | design/repository/models/gip/c_gip_full.cpp:3289-3366 | offering two instructions to an empty pipeline leads to the state in which a multiplication step is held |
| GipArbitration.HeldStepGoesWrong | design/repository/models/gip/c_gip_full.cpp:3289-3366 | from that state the held step computes 16 instead of 4 |
| GipArbitration.ProgramsExecute | design/repository/models/gip/c_gip_full.cpp:3501-3540 | from an empty pipeline any offers and enough idle cycles leave registers, memory, flags, accumulator, shifter and port history of executing the entered instructions one at a time, with a quadrupling for each clock a multiplication step was held; without a flush these are the accepted instructions |
| GipFeeding.FeedIsAccepted | design/repository/models/gip/c_gip_full.cpp:2546-2561 | a decoder that offers each instruction until it is taken gets every program through, in order and once each, within sixteen cycles per instruction plus the work left in the stages |
| GipFeeding.FedProgramIsAccepted | design/repository/models/gip/c_gip_full.cpp:2196-2206 | from a drained pipeline the whole program is taken and nothing else is |
| GipDatapath.AluNextState | design/repository/models/gip/c_gip_full.cpp:2895-3220 | operand selection, the units side by side and the registers behind them give result, accumulator, shifter, flags and condition-passed bits as the instruction's meaning says |
| GipDatapath.RfPreclock | design/repository/models/gip/c_gip_full.cpp:2536-2608 | next register stage, write arbitration and registers of the pipeline function |
| GipDatapath.AluPreclock | design/repository/models/gip/c_gip_full.cpp:3289-3366 | next ALU stage of the pipeline function |
| GipDatapath.Datapath.Tick | design/repository/models/gip/c_gip_full.cpp:3501-3540 | comb, preclock and clock of all stages, in that order, are one step of the pipeline function |
| GipDatapath.Datapath.Cycle | design/repository/models/gip/c_gip_full.cpp:3501-3540 | the fields updated in place stay equal to the ghost sequential machine, which quadruples an operand when a multiplication step is held; execution alone would do under the exact condition of StepRefines |
| GipDatapath.Datapath.Cycles | design/repository/models/gip/c_gip_full.cpp:1698-1716 | the same for whole runs |
| GipAlu.AddOpAdds | design/repository/models/gip/c_gip_full.cpp:684-715 | the adder of two 16-bit halves adds modulo 2^32, carry is unsigned and overflow signed range violation |
| GipOperations.LogicBitByBit | design/repository/models/gip/c_gip_full.cpp:2927-2990 | each bit of a logical result in terms of the same bits of the operands, and of the mirrored bit for the bit reversal |
| GipOperations.BytesReverse | design/repository/models/gip/c_gip_full.cpp:2975-2980 | the byte reversal, byte by byte |
| GipOperations.SumsSpelledOut | design/repository/models/gip/c_gip_full.cpp:2895-2925 | each arithmetic operation as an integer sum or difference modulo 2^32, with its carry as a comparison |
| GipOperations.ComparisonDecides | design/repository/models/gip/c_gip_full.cpp:2895-3220 | after a subtraction into a condition, instructions under CP are executed if and only if the subtraction was and the comparison that the condition names holds |
| ByteAccess.StoredBytes | design/repository/models/gip/c_gip_full.cpp:3448-3468 | a word, half-word or byte store puts the low bytes of its data into consecutive addresses, lowest first, and changes no other byte |
| ByteAccess.LoadedBytes | design/repository/models/gip/c_gip_full.cpp:3475-3496 | a load delivers consecutive bytes, lowest first |
| ByteAccess.StoreThenLoad | design/repository/models/gip/c_gip_full.cpp:3448-3496 | what was stored is loaded again |
| ArmShifter.BarrelShiftIsArm | design/repository/models/gip/c_gip_full.cpp:534-609 | value and carry of the barrel shifter are those of the architectural shifter for all shifts and amounts, except exactly for ShiftDeparts |
| ArmShifter.RotateIsArm | design/repository/models/gip/c_gip_full.cpp:524-530 | or-ing the two shifted halves rotates |
| ArmShifter.ShiftsSpelledOut | design/repository/models/gip/c_gip_full.cpp:534-609 | for amounts 1 to 31: LSL multiplies and LSR divides by a power of two, ASR divides the signed value, ROR rotates, each with its carry bit; the code is proved equal to an architectural shifter with a match of its own over the shift types |
| ArmDataProcessing.InternalAluIsArm | design/repository/models/gip/c_gip_full.cpp:4989-5101 | each of the sixteen operations is mapped to an internal operation with the architectural result and flags |
| ArmDataProcessing.ShiftedOperandIsArm | design/repository/models/gip/c_gip_full.cpp:5147-5190 | the first of two internal instructions leaves the architectural shifter operand and its carry, RRX included, exactly outside OperandDeparts |
| ArmDataProcessing.ShiftStepSpelledOut | design/repository/models/gip/c_gip_full.cpp:5147-5190 | what the shift instruction of an expansion leaves, as multiplication, division or rotation by the shift that the ARM instruction names |
| ArmDataProcessing.ConditionIsArm | design/repository/models/gip/c_gip_full.cpp:3754-3778 | the mapped condition passes exactly when the condition field says |
| ArmDataProcessing.ExpansionUsesOperand | design/repository/models/gip/c_gip_full.cpp:4923-5194 | for every instruction the expansion writes the result and sets the flags that belong to the operand it works with, C after a rotated immediate being wrong exactly when CarryDeparts says |
| ArmDataProcessing.ExpansionIsArm | design/repository/models/gip/c_gip_full.cpp:4923-5194 | outside OperandDeparts that is the architectural result, destination and flags |
| ArmAccumulator.SubstituteIsSame | design/repository/models/gip/c_gip_full.cpp:2067-2081 | for every instruction but a later multiplication step, loads and stores included: reading the accumulator in place of the register it copies changes no state, if and only if it is not a passed store of that register where the PC differs in the stored lanes |
| ByteAccess.SameLanesSameStore | design/repository/models/gip/c_gip_full.cpp:3448-3468 | two stores to one place have the same effect exactly if their data agree in the stored lanes |
| ArmAccumulator.CacheKept | design/repository/models/gip/c_gip_full.cpp:5103-5120 | the decoder's tracking is right after every instruction: while it says valid, the accumulator equals the register |
| ArmAccumulator.AccumulatorCachesRegister | design/repository/models/gip/c_gip_full.cpp:2067-2081 | over any straight-line run of data-processing instructions the substituted and the plain program do the same, and the copy stays right |
| ArmAccumulator.SubstitutedStoreLosesData | design/repository/models/gip/c_gip_full.cpp:3219 | a store with a substituted data register stores the PC |
| ArmDecoder.BuildCycle | design/repository/models/gip/c_gip_full.cpp:5122-5193 | the instruction built in a cycle of the opcode is that step of the expansion |
| ArmDecoder.StaysSettled | design/repository/models/gip/c_gip_full.cpp:3684-3729 | a step that is built again because it was refused comes out the same, although its operand field may hold another number by then |
| ArmDecoder.TrackAccumulator | design/repository/models/gip/c_gip_full.cpp:5103-5120 | the in-place tracking of the copied register is the one proved right |
| ArmDecoder.Decoder.DecodeCycle | design/repository/models/gip/c_gip_full.cpp:2047-2098 | defaults, decode and substitution leave the substituted step and the next decoder state |
| ArmDecoder.Decoder.Clock | design/repository/models/gip/c_gip_full.cpp:2196-2206 | over any run of accepted and refused cycles the decoder has emitted exactly the decoded program, with the register number that its operand field has kept beside every immediate, and advances the PC once per instruction |
| ArmEncoding.DecodesWhatWasEncoded | design/repository/models/gip/c_gip_full.cpp:4923-4965 | every data-processing instruction, written as a sum of its fields times their place values, is read back as itself: sixteen operations, three operand forms, four shifts |
| ArmEncoding.EncodesWhatWasDecoded | design/repository/models/gip/c_gip_full.cpp:4923-4965 | and every such word is the encoding of what was read, so no bit is ignored |
| ArmEncoding.TransferIsDecoded | design/repository/models/gip/c_gip_pipeline_single.cpp:2248-2330 | every word transfer is read back from its encoding |
| ArmEncoding.BlockIsDecoded | design/repository/models/gip/c_gip_pipeline_single.cpp:2620-2700 | every block transfer is read back, the register list bit by bit |
| ArmEncoding.MultiplyIsDecoded | design/repository/models/gip/c_gip_pipeline_single.cpp:2801-2830 | every multiplication is read back |
| ArmEncoding.BranchIsDecoded | design/repository/models/gip/c_gip_pipeline_single.cpp:2145-2200 | every branch is read back and its target is its address plus 8 plus four times the signed offset |
| ArmEncoding.ClassesAreDisjoint | design/repository/models/gip/c_gip_pipeline_single.cpp:2145-2830 | no word belongs to two of these classes |
| ArmProgram.DecodedIsArm | design/repository/models/gip/c_gip_full.cpp:4923-5194 | what the decoder makes of a program, with the numbers its operand field leaves behind, has the registers and flags of the architecture |
| ArmProgram.ProgramOnPipeline | design/repository/models/gip/c_gip_full.cpp:1965-3540 | a straight-line program, decoded with the accumulator and run through the pipeline with any bubbles and stalls, leaves the registers and flags of the architecture |
| ArmProgram.ProgramCompletes | design/repository/models/gip/c_gip_full.cpp:1965-3540 | every such program finishes: within a bounded number of cycles the pipeline is drained with the architectural registers and flags |
| ArmMultiply.StepKeepsProgress | design/repository/models/gip/c_gip_full.cpp:2918-2920 | every radix-4 step keeps the relation of accumulator, remaining multiplier, pending carry and scaled multiplicand |
| ArmMultiply.MultiplyComputesProduct | design/repository/models/gip/c_gip_pipeline_single.cpp:2801-2875 | INIT, MLA and fifteen MLB leave rm * rs (+ rn) modulo 2^32 in rd, for all operands and register overlaps, with Z and N if asked; nothing if the condition fails |
| ArmMultiplyPipeline.MultiplyOnPipeline | design/repository/models/gip/c_gip_full.cpp:5820-5907 | the same for the sequence going through the pipeline, whatever the stalls |
| ArmMultiplyPipeline.SequenceIsPlain | design/repository/models/gip/c_gip_full.cpp:5820-5907 | the sequence is seventeen instructions of which none flushes or is a delay slot and only the last has a destination |
| ArmMultiplyPipeline.MultiplyCompletes | design/repository/models/gip/c_gip_full.cpp:5820-5907 | offered until taken, the sequence finishes from any drained pipeline with the product in rd, Z and N of it if asked, and everything else as it was |
| ArmBlockTransfer.LoadMultipleLoads | design/repository/models/gip/c_gip_pipeline_single.cpp:2620-2797 | the LDM chain reads the architectural words in ascending register order and leaves the architectural base, in all four modes, or changes nothing |
| ArmBlockTransfer.StoreMultipleStores | design/repository/models/gip/c_gip_pipeline_single.cpp:2620-2797 | the STM chain stores the registers to the architectural words and leaves the architectural base, or changes nothing |
| ArmStack.BlockRoundTrip | design/repository/models/gip/c_gip_pipeline_single.cpp:2656-2792 | words stored for a list are the words loaded for it |
| ArmStack.PushPopRestores | design/repository/models/gip/c_gip_pipeline_single.cpp:2656-2792 | STMDB sp! and LDMIA sp! restore every listed register and sp, whatever happens to the other registers in between |
| ArmStackOnRam.RunOnRam | design/repository/models/gip/c_gip_pipeline_single.cpp:851-895 | internal instructions whose loads and stores go to the linked pages end in the state they reach over the flat memory |
| ArmStackOnRam.PushWorkPop | design/repository/models/gip/c_gip_pipeline_single.cpp:2656-2792 | push, arbitrary code that keeps sp and the stacked words, and pop, all running over the linked pages, restore every listed register and sp |
| ArmLoadStore.ShiftEffect | design/repository/models/gip/c_gip_pipeline_single.cpp:2398-2401 | the shift before a transfer leaves the architectural offset, and for the zero amounts of AmountDeparts the unshifted register instead |
| ArmLoadStore.TransferUsesOffset | design/repository/models/gip/c_gip_full.cpp:5283-5650 | every form of word transfer is the architectural one for the offset that the expansion works with, or changes nothing |
| ArmLoadStore.TransferDepartsExactly | design/repository/models/gip/c_gip_full.cpp:5283-5650 | that offset leads to the architectural address and base if and only if TransferDeparts does not hold |
| ArmLoadStore.LdrWithLsrZero | design/repository/models/gip/c_gip_full.cpp:5417-5440 | a load with LSR #0 that reads the wrong word |
| ArmLoadStore.PreStore | design/repository/models/gip/c_gip_pipeline_single.cpp:2499-2530 | the store path that relies on the addition clearing the shifter stores to the architectural address |
| ArmLoadStore.TransferIsArm | design/repository/models/gip/c_gip_full.cpp:5283-5650 | all pre-indexed, written-back and post-indexed word transfers outside TransferDeparts use the architectural address, data and base, or change nothing |
| ArmBranch.ConditionsCompare | design/repository/models/gip/c_gip_pipeline_single.cpp:148-202 | after the flags of a - b each condition code is the comparison it is named after |
| ArmBranch.CompareDecides | design/repository/models/gip/c_gip_pipeline_single.cpp:309-340 | after CMP each branch condition is the named comparison of the operands |
| ArmFlushes.DataProcessingFlushesLast | design/repository/models/gip/c_gip_full.cpp:5147-5190 | an expansion flushes with its last instruction exactly if the PC is the destination, and holds no delay slot |
| ArmFlushes.LoadMultipleFlushesLast | design/repository/models/gip/c_gip_full.cpp:5700-5760 | a block load flushes with its last instruction, whichever that is in the mode, exactly if the PC is in the list |
| ArmFlushes.TransferFlushesLast | design/repository/models/gip/c_gip_full.cpp:5330-5500 | a word transfer flushes with its last instruction exactly if it loads the PC, if and only if it is no pre-indexed, written-back load of the PC without a shift |
| GipSingle.SingleStep.CompareThenBranch | design/repository/models/gip/c_gip_pipeline_single.cpp:2145-2244 | CMP and a conditional B or BL: the PC becomes the sign-extended target exactly if the named comparison of the operands holds and else the next address, and r14 is set exactly on a taken BL |
| GipSingle.SingleStep.ExecuteInt | design/repository/models/gip/c_gip_pipeline_single.cpp:1318-1625 | operands, ALU, memory and write-back of one internal instruction, in place, are one step of the sequential machine; ASR differs as stated |
| GipSingle.SingleStep.ExecuteArmMul | design/repository/models/gip/c_gip_pipeline_single.cpp:2801-2875 | the loop of multiplication steps leaves the product, flags and PC of the architecture |
| GipSingle.SingleStep.ExecuteArmLdmStm | design/repository/models/gip/c_gip_pipeline_single.cpp:2620-2797 | the register loops leave the architectural words, registers, base and PC |
| GipSingle.SingleStep.ExecuteArmLdSt | design/repository/models/gip/c_gip_pipeline_single.cpp:2248-2616 | the twelve forms of word transfer are the architectural ones for the offset this model works with, which is the architectural offset outside SingleDeparts, and a loaded PC is where execution goes on |
| GipSingle.SingleDepartsExactly | design/repository/models/gip/c_gip_pipeline_single.cpp:275-277 | the offset leads to the architectural address and base if and only if SingleDeparts does not hold |
| GipSingle.AsrOfPositive | design/repository/models/gip/c_gip_pipeline_single.cpp:275-277 | shifting in zeros is the architectural ASR exactly for words below 2^31 |
| GipSingle.SingleStep.ExecuteArmBranch | design/repository/models/gip/c_gip_pipeline_single.cpp:2145-2244 | a branch goes to the sign-extended target exactly when its condition passes and else to the next instruction, for both encodings, and r14 is set exactly on a taken BL |
| GipSingle.RegListOrdered | design/repository/models/gip/c_gip_pipeline_single.cpp:2672-2700 | the list that the register loops walk is ascending and has exactly the flagged registers |
| SparseRam.Ram.FindPage | design/repository/models/gip/c_ram_model.cpp:96-113 | the hash chain holds the page of an address if any list does |
| SparseRam.Ram.AllocatePage | design/repository/models/gip/c_ram_model.cpp:117-179 | a new page keeps both linkings sorted, free of duplicates and over the same pages, and changes no word |
| SparseRam.Ram.Read | design/repository/models/gip/c_ram_model.cpp:185-209 | a read gives the word of the flat memory, 0xdeadcafe if it was never written |
| SparseRam.Ram.Write | design/repository/models/gip/c_ram_model.cpp:215-270 | a byte-masked write is a write of the flat memory, unwritten bytes of a new word being zero |
| SparseRam.InsertKeepsCover | design/repository/models/gip/c_ram_model.cpp:144-178 | inserting a page keeps list and hash chains over the same pages, each in the chain of its hash |
| SparseRam.NewToChainIsNew | design/repository/models/gip/c_ram_model.cpp:127-139 | a base missing from its chain is missing from the whole list |
| MemoryMap.Map.MapMemory | design/repository/models/gip/c_memory_model.cpp:83-109 | which slots are mapped after a call, that it succeeds exactly if none was taken, and that then the RAM answers for every address of the range and other addresses keep theirs |
| MemoryMap.Map.ReadMemory | design/repository/models/gip/c_memory_model.cpp:125-147 | a read goes to the RAM that answers for the address; unmapped addresses read 0xdeadbeef |
| MemoryMap.Map.WriteMemory | design/repository/models/gip/c_memory_model.cpp:155-179 | a write changes the RAM that answers for the address as the flat memory and no other RAM |
| MemoryMap.Map.WriteThenRead | design/repository/models/gip/c_memory_model.cpp:83-179 | a RAM mapped over a range gets every word written to an address of the range through the map, the word is read back through the map, and no other RAM changes |
| FlatMemory.WriteThenRead | design/repository/models/gip/c_ram_model.cpp:185-270 | a full-word write is read back and leaves other words alone |
| FlatMemory.MaskedWrite | design/repository/models/gip/c_ram_model.cpp:215-270 | lane by lane, a write changes the lanes of its word whose mask bit is set and no other |
| DdrBanks.CountersFollowStates | design/repository/models/memories/c_ddr.cpp:624-790 | a bank has a non-zero counter exactly in its timing states, kept by every clock except one that sends a command while a timing is being met |
| DdrBanks.CommandsTakeTheirTime | design/repository/models/memories/c_ddr.cpp:624-790 | a row is open two clocks after its activation, a precharge, a mode register load and an automatic precharge take two and a refresh eight |
| DdrBanks.LastWriteCounts | design/repository/models/memories/c_ddr.cpp:538-584 | the last write to a place leaves the written bytes where the mask allows and the old bytes elsewhere |
| Ddr.FaultsSpelledOut | design/repository/models/memories/c_ddr.cpp:632-790 | a command is an error exactly if an addressed bank cannot take it: the cases state by state |
| Ddr.ReadsWaitForLock | design/repository/models/memories/c_ddr.cpp:608-740 | in every run a read that is no error comes at least 200 clocks after the mode register reset the delay locked loop |
| Ddr.ReadSeesWrite | design/repository/models/memories/c_ddr.cpp:538-584 | in every reachable state the cells of a write commanded two or more clocks ago, if no later one overlaps it, hold its unmasked bytes and the old masked bytes, even while another write is between its beats |
| Ddr.PinTable | design/repository/models/memories/c_ddr.cpp:480-527 | the command and the banks it is for, for every combination of the pins while the clock is enabled |
| Ddr.EnableTable | design/repository/models/memories/c_ddr.cpp:462-480 | clock enable comes first: it takes the memory to sleep and wakes it |
| Ddr.WrittenIsSeen | design/repository/models/memories/c_ddr.cpp:538-878 | over a run, what a write clock leaves for any clock from two later on that no overlapping write separates from it: the bytes whose mask bit is clear, and the old ones elsewhere |
| Ddr.Memory.WriteThenRead | design/repository/models/memories/c_ddr.cpp:480-878 | from pins to data: a write clock to an open bank and, two or more clocks later, a read clock of the same row and column; the words sent in the fifth and sixth half clock after the read have the unmasked written bytes and the old masked ones |
| Ddr.BackToBackReads | design/repository/models/memories/c_ddr.cpp:829-878 | reads in consecutive clocks put their four beats into consecutive half clocks, with the bus driven throughout |
| Ddr.Memory.PosEdge | design/repository/models/memories/c_ddr.cpp:588-800 | a read is promised its two beats five and six half clocks later from cells in which every write commanded two or more clocks earlier is complete; all promises made before are kept |
| Ddr.Memory.Run | design/repository/models/memories/c_ddr.cpp:588-878 | over any run of clocks up to an error every word promised at its start comes out in its half clock, and every read sends its two words five and six half clocks after its rising edge; the run ends at the first command that is an error |
| Ddr.Memory.NegEdge | design/repository/models/memories/c_ddr.cpp:829-850 | the second beat completes a write, and promised beats come out on time |
| CicMath.CombsLeaveMovingSum | design/repository/models/dsp/c_adc_frontend.cpp:561-601 | five combs after five integrators and a decimator leave the five-fold moving sum of length factor + 1 |
| CicFilter.IntStageStep | design/repository/models/dsp/c_adc_frontend.cpp:561-578 | one adder serves both channels: the registers hold both running sums modulo 2^40 after either half of a sample |
| CicFilter.CombStageStep | design/repository/models/dsp/c_adc_frontend.cpp:582-601 | the same for the differences of a comb |
| CicFilter.DecimatorStep | design/repository/models/dsp/c_adc_frontend.cpp:810-822 | exactly every (factor + 1)-th sum is passed on |
| CicFilter.Keeps | design/repository/models/dsp/c_adc_frontend.cpp:788-826 | every clock keeps every register of all ten stages equal to the sum or difference it stands for; the spacing of samples follows from the mixer |
| CicFilter.MixerRotates | design/repository/models/dsp/c_adc_frontend.cpp:613-653 | the mixer's three clocks combine the products at its inputs, whatever they are, as a rotation does |
| CicFilter.DrainedFilter | design/repository/models/dsp/c_adc_frontend.cpp:788-826 | nothing is lost: once all stages are idle every full group of samples has become an output |
| CicFilter.Filter.Cycle | design/repository/models/dsp/c_adc_frontend.cpp:788-830 | every I and Q output taken so far is, modulo 2^40, the five-fold moving sum of its own channel, in order and without gaps |
| ClockCrossing.StageStep | design/repository/models/dsp/c_adc_frontend.cpp:773-786 | how a toggle moves through the flops, with the colliding edge free to capture anything |
| ClockCrossing.Synchroniser.Clock | design/repository/models/dsp/c_adc_frontend.cpp:514-531 | each data edge sends the input of the edge before, and every sample sent gives exactly one valid pulse with that sample, in order, at three or more internal clocks per data clock |
| ClockCrossing.TwoClocksAreTooFew | design/repository/models/dsp/c_adc_frontend.cpp:96-110 | with two clocks a pulse can carry the wrong sample |
| SineRom.DecodeIsTarget | design/repository/models/dsp/sine_table.c:64-77 | a decoded substep equals its target exactly when its residual was 0 or 1 |
| SineRom.Search | design/repository/models/dsp/sine_table.c:155-190 | the offsets found have the fewest bad substeps of all that are tried |
| SineRom.ErrorBits | design/repository/models/dsp/sine_table.c:194-219 | the error bits say of each substep whether its residual is positive |
| SineRom.BuildEntry | design/repository/models/dsp/sine_table.c:155-223 | a built ROM word decodes to the target wherever that is possible, with the fewest exceptions, for any target table |
| SineRom.AngleIsSine | design/repository/models/dsp/c_adc_frontend.cpp:697-761 | what the three stages make of a ROM word is the reference decoder's sine, and a quarter turn on the cosine, for every 24-bit phase |
| SineRom.SearchFinds | design/repository/models/dsp/sine_table.c:155-190 | with at most sixteen substeps and a slope guess above -6 the search always finds offsets |
| FrontEnd.PhaseMoves | design/repository/models/dsp/c_adc_frontend.cpp:655-770 | with all valid flags and freezing, the stages work on cosine and sine of one phase, then on those of the phase one step on; when the cosine is taken the sine of the same phase follows |
| FrontEnd.MixerMoves | design/repository/models/dsp/c_adc_frontend.cpp:606-653 | the mixer and the stages stay in step: its products are those of one sample with cosine and sine of one phase |
| FrontEnd.MixerTurns | design/repository/models/dsp/c_adc_frontend.cpp:541-560 | what leaves the mixer is the sample turned by that phase, modulo 2^18, then widened |
| FrontEnd.TurnedIsWidened | design/repository/models/dsp/c_adc_frontend.cpp:549 | the widening keeps a turned sixteen-bit sample exactly if it is below 65536 |
| FrontEnd.TimesScales | design/repository/models/dsp/c_adc_frontend.cpp:541-560 | a product of the mixer is the sample times the table value as a fraction of 2^15, rounded towards zero |
| FrontEnd.InternalClock.Clock | design/repository/models/dsp/c_adc_frontend.cpp:606-826 | a sample is taken exactly if it comes three clocks after the last, the k-th is turned by the starting phase plus k steps, and the filter's samples are these in order |
| FrontEnd.InternalClock.OutputsAreTurned | design/repository/models/dsp/c_adc_frontend.cpp:788-826 | as long as no sum was too large for the widening, every output is the five-fold moving sum of the turned samples of its channel |
| FrontEnd.AdcFrontEnd.Clock | design/repository/models/dsp/c_adc_frontend.cpp:514-786 | with at least four internal clocks per data clock every data sample goes through synchroniser and mixer, once and in order |
| ClockCrossing.PulsesTwoApart | design/repository/models/dsp/c_adc_frontend.cpp:96-110 | with three clocks and colliding edges two pulses can come two clocks apart |
| SamplePostbus.StepTx | design/repository/models/dsp/c_sample_memory.cpp:438-568 | each clock of the sender keeps its word fit for its state, an offered word is unchanged until taken, and the words offered are those of the places of the block in order |
| SamplePostbus.SampleMemory.Clock | design/repository/models/dsp/c_sample_memory.cpp:410-628 | for every pattern of samples and acknowledgements: an idle sender begins a packet with its header exactly when a block is pending, the accepted words follow the bus grammar, each packet moves the read block one place round the ring, samples fill the ring in order, and addresses stay in the RAM |
| SamplePostbus.SampleMemory.Preclock | design/repository/models/dsp/c_sample_memory.cpp:410-568 | the registers after a clock, and that a block becomes pending exactly when it is filled or when others are left after a packet |
| SamplePostbus.SampleMemory.PacketCarriesBlock | design/repository/models/dsp/c_sample_memory.cpp:457-538 | when the last word of a packet is offered, the packet has carried every word of its block in order and then one from behind it, whatever the stalls; the words are those of the RAM if no sample went into the block meanwhile |
| SamplePostbus.ReadAddressIsOr | design/repository/models/dsp/c_sample_memory.cpp:600 | the read address is the shifted block number or-ed with the count |
| SamplePostbus.BlockAtIsModular | design/repository/models/dsp/c_sample_memory.cpp:543-551 | the read block after n packets |
| FlashFrame.WhatIsEscaped | design/repository/tools/serial_console/flash.c:94 | which bytes of a message take two bytes of the frame, and that none is below 32 |
| FlashFrame.FrameRoundTrip | design/repository/tools/serial_console/flash.c:87-104 | a frame decodes to check byte, command and data, whose sum is zero modulo 256, with no byte below 32 before its end |
| FlashFrame.FramesAreUnique | design/repository/tools/serial_console/flash.c:87-104 | different commands or data never share a frame |
| FlashFrame.DownloadCommand | design/repository/tools/serial_console/flash.c:76-118 | the buffer never overruns, and the frame is sent whole or, when it would be longer than 256 bytes, not at all |

## Left out

- Native 16-bit decode, special registers, the scheduler, exceptions and the coprocessor and
  postbus ports of the processor; reads of special and postbus registers as operands.
- `find_bit_set` and `bit_count`, and the internal operations that use them: the first does not
  isolate one bit and the second counts from an uninitialised variable.
- GipDatapath.Datapath.Cycle: requires that an instruction with a condition destination uses the adder, because
  the C code says that others will not work and takes stale flags for them.
- GipDatapath.Datapath.Tick: the memory answers at once and always accepts, as in the C model.
- The decoder's other instruction groups in the full model, whose internal instructions are the
  same as those of the single-step model; LDM with descending addresses is off by one there and
  is taken from the single-step model.
- ArmDecoder.Decoder.Clock: covers code made of data-processing instructions and no flush; after a flush the stale
  opcode can set the accumulator-valid bit again.
- ArmProgram.ProgramOnPipeline: leaves out instructions that write the PC, since what follows them is another program.
- ArmDataProcessing.ExpansionIsArm: for a flag-setting instruction that writes the PC, which in the architecture restores
  the saved status register, the flags are measured against those of the operation, as the code has no saved status.
- `cp_trail_2`, which no code ever sets, is false where multiplication, block transfers, loads, stores and branches are
  concerned; the pipeline and data processing are proved for both values.
- The mapping of condition 15, which the code treats as "always".
- V and C after MULS and MLAS; R15 as a multiplier in the pipeline.
- Byte transfers: the byte bit is decoded and not used. Unaligned loads: the code reads the
  aligned word and does not rotate it.
- GipSingle.SingleStep.ExecuteArmLdSt: says nothing of what the architecture leaves unpredictable (the PC as a moving base,
  a base that is also loaded).
- GipSingle.SingleStep.CompareThenBranch: takes the operand of CMP to be no ASR and not shifted by a register, which this
  model shifts differently.
- ArmStack.PushPopRestores: needs a memory of at least 64 bytes whose size is a multiple of four and divides 2^32; in
  others two words of a block can share storage.
- The accessed flags of RAM pages, which are set and never used; logging and debug traps.
- Data strobes, the 16-bit wide variant and simulation files of the DDR model; a burst whose second
  word lies beyond the memory.
- Power and square-root output and the floating-point sine of the DSP files: target values are
  arbitrary integers.
- That an idle record buffer is empty, which block boundaries break; samples that go into a block
  while it is sent.
- SamplePostbus.SampleMemory.Clock: the shaper in front of the record buffer is an input, and a single record buffer is
  modelled, as only the first is used.
- Waiting for the serial line and giving up in the middle of a frame.
- Rotation of an immediate by zero, which shifts a C word by its width, is taken to leave the
  word alone.
