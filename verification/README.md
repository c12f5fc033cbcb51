# Pacyte Nexus node: verified model

A Dafny model of the core of the Pacyte Nexus node and proofs about it. Each module follows one component:

| file | component |
|---|---|
| `Votes.dfy`, `VoteCounts.dfy`, `VoteLaws.dfy` | vote manager: what one receiver stores and counts, what several can count, what each answer means |
| `Words.dfy`, `Vm.dfy`, `VmLaws.dfy` | bytecode machine: 256-bit words, gas, jumps, memory, and each instruction read off its byte |
| `Runs.dfy`, `VmRuns.dfy`, `VmWraps.dfy` | runs of any deterministic machine, and of this one: bounds, gas limit, stopping, wrapping charges |
| `Merkle.dfy` | Merkle tree, proofs, and the block body's transaction root |
| `Selection.dfy`, `Mempool.dfy`, `PoolLaws.dfy` | transaction pool, its indexes, block selection, who is admitted |
| `Ledger.dfy`, `State.dfy`, `Supply.dfy`, `SupplyLaws.dfy` | accounts, layered state manager, vault and supply, shares in closed form |
| `Wal.dfy`, `WalLaws.dfy` | write-ahead log, memory storage, recovery, what is in the tables afterwards |
| `Bridge.dfy`, `BridgeLaws.dfy` | cross-shard bridges, their reaper, the history behind each status |
| `MultiSig.dfy`, `RateLimiter.dfy` | threshold signatures, request limiter |
| `Base.dfy` | sums over maps, listings of sets, ordered lists |

Objects that the node updates in place are classes; what each method does is given by a function on values, and the
properties over whole runs are lemmas about those functions. The files named Laws state what each operation does on raw
fields, bytes and balances alone. Code that works by loops is written with loops and proved against a definition that
does not use them.

Conventions. Hashes and addresses are numbers, the all-zero array being 0. The pair hash, signature checks, the record
serializer, the record checksum and Keccak are function parameters. The clock is a parameter. Integer widths are written
out where they matter: gas wraps at 64 bits, balances saturate at 128 bits, frame lengths are cut to 32 bits. Rates and
fees per byte, which the node computes in double precision, are exact reals or rationals here.

Where code and documentation differ, the model follows the code. Results that say so outright, each with an input and an
exact condition: a self-transfer in the state manager creates money (`SelfTransferMints`), fee distributions do not add
up in part of the first supply phase (`DistributionsAddUp`, `Overspent`), batches with a write inside are not replayed
(`ReplayedExactly`, `BatchIsNotReplayed`), cleanup drops the next executable transaction (`CleanupDropsNextNonce`,
`NextNonceIsAdmitted`), selection counts nonces from zero and not from the account (`SelectedFromZero`,
`AdmittedNeverSelected`), reverting to a height keeps committed writes (`CommitThenRevert`, `PaymentSurvivesRevert`), a
failed block's first transfers are committed with the next block (`FailThenCommit`, `PaymentOfFailedBlock`), the quorum
flag weighs power against a head count (`FlagExact`, `EarlyFlag`), greedy signature matching misses some matchings
(`GreedyExact`, `GreedyMisses`), a Merkle proof is not tied to a leaf (`AnyProofBinds`, `InnerNodesAccepted`), and a gas
charge can wrap (`DefaultScheduleExact`, `DefaultLoop`).

## Model

| member | source | states |
|---|---|---|
| `Votes.ByzantineSafety` | src/consensus/vote.rs:62-129 | With n members of which f sign for two blocks and 3f < n, two vote managers fed any votes at all, forged ones included, in any order and with any clearing and pruning between, never count a quorum for two different blocks at one height, round and kind; one block each is asked only of the votes whose signature is accepted |
| `Votes.NoTwoQuorums` | src/consensus/vote.rs:268-288 | The same with the sharper bound f < 2q - n, where q is the quorum size |
| `Votes.ForkWhenTooManyFaulty` | src/consensus/vote.rs:132-170 | The bound is exact: for every n and every f from 2q - n to n there are f faulty members, votes and two runs that do count two quorums for different blocks |
| `Votes.QuorumOverlap` | src/consensus/mod.rs:65-71 | Two quorums of n always overlap, and in more members than any f with 3f < n |
| `Votes.Backers` | src/consensus/vote.rs:268-288 | In every run the counted votes for a block come from that many different members, each with a vote for it delivered under an accepted signature |
| `Votes.StoredWasGenuine` | src/consensus/vote.rs:96-129 | Every stored vote of every run arrived in surroundings where its voter was registered and active, its signature had 64 bytes and was accepted by Ed25519 or 4595 bytes and was accepted by Dilithium5, and its timestamp lay at most 10 seconds ahead and 60 behind the clock |
| `Votes.FeedCounts` | src/consensus/vote.rs:132-170 | Feeding votes of distinct active voters for one block stores exactly those votes |
| `VoteCounts.CountExact` | src/consensus/vote.rs:268-288 | The count after any run: the voters whose first genuine vote for that height, round and kind named the block and whose height has stayed at that round since |
| `VoteCounts.BackersAreCounted` | src/consensus/vote.rs:132-170 | The same, voter by voter, as an if and only if |
| `VoteCounts.LostForGood` | src/consensus/vote.rs:132-170 | A vote received but not counted, because its round was left or its height forgotten, is never counted for that block again, whatever follows |
| `VoteCounts.SeenIsVoted` | src/consensus/vote.rs:62-93 | The seen keys are exactly the keys of the genuine votes received |
| `VoteCounts.StoredBacking` | src/consensus/vote.rs:132-170 | Storing a vote empties the lists of another round of its height and appends it to its own list only |
| `Votes.InsertKeeps` | src/consensus/vote.rs:132-170 | Storing a vote under a fresh key keeps one block per voter and finds the voter neither for this block nor for another |
| `Votes.StoreKeeps` | src/consensus/vote.rs:132-170 | Storing keeps the state invariant, through a change of round too, and leaves no double vote behind |
| `Votes.ReceivedKeeps` | src/consensus/vote.rs:62-93 | Receiving keeps the invariant, never answers double voting, adds exactly the genuine votes with a fresh key, appends that vote to its block's list, and otherwise changes nothing |
| `Votes.ForgettingKeeps` | src/consensus/vote.rs:302-319 | Clearing a round and pruning heights keep the invariant |
| `Votes.RunKeeps` | src/consensus/vote.rs:62-93 | In every reachable state stored votes match their height, round and kind, their keys are marked seen, and a voter stands under at most one block per kind |
| `Votes.SeenStays` | src/consensus/vote.rs:62-93 | Once a genuine vote was received its key stays marked, whatever follows, clearing and pruning included |
| `Votes.SecondVoteIsAlreadySeen` | src/consensus/vote.rs:62-93 | After any run, a second genuine vote with the key of an earlier one, for whatever block, is answered AlreadySeen and changes nothing |
| `Votes.UnitPowerIsCount` | src/consensus/vote.rs:211-239 | When every voter has power one, the summed voting power is the number of votes |
| `Votes.PrunedIsLowest` | src/consensus/vote.rs:307-319 | Pruning described by how many heights lie above is the removal of the lowest ones in sorted order |
| `Votes.VoteManager.constructor` | src/consensus/vote.rs:53-60 | A new manager holds no votes and has seen none |
| `Votes.VoteManager.AddVote` | src/consensus/vote.rs:62-93 | Performs the receiving step on the fields, adds exactly the genuine votes with an unseen key, keeps the invariant, never answers double voting |
| `Votes.VoteManager.StoreVote` | src/consensus/vote.rs:132-170 | Resets a stale round, appends unless the voter is already listed for the block, and reports quorum only for a vote that was appended |
| `Votes.VoteManager.CheckQuorum` | src/consensus/vote.rs:173-208 | Compares the summed voting power behind the block with the quorum head count |
| `Votes.VoteManager.DetectDoubleVoting` | src/consensus/vote.rs:242-265 | Answers whether the voter stands under another block at this height, round and kind |
| `Votes.AnyElsewhere` | src/consensus/vote.rs:242-265 | The search over a table answers exactly whether some other block lists the voter |
| `Votes.VoteManager.GetVoteCount` | src/consensus/vote.rs:268-288 | The number of stored votes for a block, zero for an unknown height or another round |
| `Votes.VoteManager.ClearRound` | src/consensus/vote.rs:302-304 | Forgets one height, keeps the seen keys and the invariant |
| `Votes.VoteManager.PruneOldHeights` | src/consensus/vote.rs:307-319 | Keeps exactly the highest heights, as many as asked, and the invariant |
| `Votes.VoteManager.RemoveHeights` | src/consensus/vote.rs:312-317 | Removes exactly the listed heights |
| `VoteLaws.Answers` | src/consensus/vote.rs:62-129 | Every answer with its exact condition on the validator table, the signature schemes, the clock and the seen keys: added just when genuine and unseen, already seen just when genuine and seen, each error just when its own check is the first to fail |
| `VoteLaws.QuorumFlag` | src/consensus/vote.rs:132-239 | An added vote reports quorum exactly when three times the summed power of the voters now behind the block exceeds twice the head count |
| `VoteLaws.FlagExact` | src/consensus/vote.rs:173-239 | With two or more validators, none powerless: in every run a raised quorum flag comes with a quorum of votes if and only if every validator has power one |
| `VoteLaws.EarlyFlag` | src/consensus/vote.rs:173-239 | The failing input: a validator of power two or more, voting last of q - 1, raises the flag one vote early |
| `VoteLaws.UnitFlag` | src/consensus/vote.rs:173-239 | With power one each, a raised flag comes with a quorum of votes |
| `VoteLaws.QuorumIsMoreThanTwoThirds` | src/consensus/mod.rs:65-71 | Reaching the quorum size means more than two thirds |
| `VoteLaws.PowerIsSum` | src/consensus/vote.rs:211-239 | The accumulated power is the sum over the set of voters |
| `VoteLaws.ClearForgets` | src/consensus/vote.rs:302-304 | Clearing empties exactly one height and unsees nothing |
| `VoteLaws.PruneSize` | src/consensus/vote.rs:307-319 | Pruning keeps all heights while there is room and otherwise as many as asked |
| `VoteLaws.PruneKeepsHighest` | src/consensus/vote.rs:307-319 | The heights it keeps are the highest, with their votes unchanged |
| `Words.FromNat` | src/execution/vm.rs:745-752 | Every number below 2^256 has a 32-byte word of that value |
| `Words.SameValueSameWord` | src/execution/vm.rs:736-752 | The byte representation is unique |
| `Words.AddSubInverse` | src/execution/vm.rs:764-817 | Addition and subtraction modulo 2^256 undo each other, for all words |
| `Words.AddThenSub` | src/execution/vm.rs:764-817 | Subtracting what was added gives the word back |
| `Words.SubThenAdd` | src/execution/vm.rs:764-817 | Adding what was subtracted gives the word back |
| `Words.WordToLimbsValue` | src/execution/vm.rs:736-743 | The four 64-bit limbs of a word have the word's value |
| `Words.LimbsToWordValue` | src/execution/vm.rs:745-752 | Four limbs turned into bytes keep their value |
| `Words.AddLimbs` | src/execution/vm.rs:764-778 | The carry loop computes the sum: limbs plus final carry times 2^256 is the exact sum |
| `Words.CarryStep` | src/execution/vm.rs:771-775 | One limb with its carry accounts for exactly its share of the sum |
| `Words.AddWords` | src/execution/vm.rs:764-778 | The limb loop with carry is addition modulo 2^256 of the numeric values |
| `Words.SubLimbs` | src/execution/vm.rs:796-817 | The borrow loop computes the difference: subtrahend plus limbs is the minuend plus final borrow times 2^256 |
| `Words.BorrowStep` | src/execution/vm.rs:803-814 | One limb with its borrow accounts for exactly its share of the difference |
| `Words.SubWords` | src/execution/vm.rs:796-817 | The limb loop with borrow is subtraction modulo 2^256 of the numeric values |
| `Words.FirstDifferenceDecides` | src/execution/vm.rs:843-863 | The first differing byte decides the numeric order of equally long big-endian strings |
| `Words.LessThan` | src/execution/vm.rs:843-852 | The bytewise comparison is numeric less-than |
| `Words.GreaterThan` | src/execution/vm.rs:854-863 | The bytewise comparison is numeric greater-than |
| `Words.IsZero` | src/execution/vm.rs:760-762 | All bytes are zero exactly when the value is zero |
| `Words.IndexIsLowBits` | src/execution/vm.rs:754-758 | A word used as an offset is its value modulo 2^64 |
| `Words.ComplementValue` | src/execution/vm.rs:604-611 | Complementing every byte takes the value from the largest of that length |
| `Words.LimbsRoundTrip` | src/execution/vm.rs:736-752 | Limbs turned into a word and back are the same limbs |
| `Words.DifferenceIndex` | src/execution/vm.rs:796-817 | Subtracting a number from one that is d larger leaves d, also as an offset |
| `Vm.StepDescends` | src/execution/vm.rs:498-711 | Where no charge wraps, every successful step lowers (gas left, off a JUMPDEST, code left) lexicographically, even when jumps are free |
| `Vm.PerformDescends` | src/execution/vm.rs:637-658 | The same for one decoded instruction |
| `VmRuns.GasLimitExact` | src/execution/vm.rs:490-711 | For code without a GAS byte and every schedule, one run that did not run out of gas decides all limits: a limit of at least its peak gas gives the identical outcome, stack, memory and gas used, in as many steps; every smaller limit runs out of gas |
| `VmRuns.MoreGasChangesNothing` | src/execution/vm.rs:490-711 | A run from the start that had enough gas is the same under every larger limit, for every schedule and up to the largest limit |
| `VmRuns.PeakIsWithin` | src/execution/gas.rs:194-200 | The peak gas of a run is within its limit |
| `VmRuns.PeakIsUsed` | src/execution/gas.rs:194-200 | Where no charge wraps, the peak is the gas used in the end |
| `VmRuns.ReachedIsInBounds` | src/execution/vm.rs:490-496 | Every state of every run from the start is in bounds, for every code, limit and schedule |
| `VmRuns.EndsInBounds` | src/execution/vm.rs:490-496 | So is the end of every run that ends, and without an error the machine stopped or reached the end of the code |
| `VmRuns.EndsWithoutWrap` | src/execution/vm.rs:490-496 | Where no charge wraps, every program stops from every state in bounds |
| `VmRuns.NothingWrapsNothingDrops` | src/execution/gas.rs:194-200 | Under such a bound gas used never goes down in any run from the start |
| `VmWraps.StoppingExact` | src/execution/vm.rs:490-711 | For every schedule with room for the loop, over all programs a byte vector can hold: every program stops if and only if the dearest price added to the limit stays below 64 bits |
| `VmWraps.GasNeverDropsExact` | src/execution/gas.rs:194-200 | For the same schedules, and for every dearest price above half of 64 bits: gas used never goes down in any run of any such program if and only if that price added to the limit stays below 64 bits |
| `VmWraps.DefaultScheduleExact` | src/execution/gas.rs:274-299 | Under the default prices both hold if and only if the limit plus 32,000 stays below 64 bits, already among programs of up to 758 bytes |
| `VmWraps.DefaultLoop` | src/execution/gas.rs:194-200 | The failing input: a program of 758 bytes that, for every limit past the bound, never stops and has its gas used lowered |
| `VmWraps.LoopTurns` | src/execution/gas.rs:194-200 | A loop whose laps fill 64 bits exactly comes back to the same state: it never stops, and its last lap lowers gas used to zero |
| `VmWraps.LoopFor` | src/execution/vm.rs:498-711 | Such a loop exists for every schedule with room for it, around an opcode of the dearest price: an inert one, MLOAD or SHA3 |
| `VmWraps.Lap` | src/execution/vm.rs:498-711 | One lap of the loop returns to its start with an empty stack, whatever the dear instruction is charged to |
| `VmWraps.LapsTurn` | src/execution/vm.rs:490-496 | Lap after lap the gas used grows by the price of a lap, up to the last lap |
| `VmWraps.SpendDrops` | src/execution/gas.rs:194-200 | A dearest price above half of 64 bits lowers gas used after a row of JUMPDESTs |
| `VmWraps.WrapDropsGas` | src/execution/gas.rs:194-200 | A wrapping charge is accepted and lowers gas used |
| `VmWraps.Stroll` | src/execution/vm.rs:656-658 | A stretch of JUMPDESTs uses one unit of gas a byte and changes nothing else |
| `Vm.StepKeeps` | src/execution/vm.rs:498-711 | Every step, failing ones and wrapped charges included, keeps gas used within the limit, at most 1024 words on the stack and the program counter within the code, for every code, limit and schedule |
| `Vm.PerformKeeps` | src/execution/vm.rs:498-711 | The same for one decoded instruction |
| `Vm.StepClimbs` | src/execution/vm.rs:498-711 | Where no charge wraps, a step never lowers gas used |
| `Vm.ChargeWithoutWrap` | src/execution/gas.rs:194-200 | A charge that does not wrap succeeds exactly when the sum is within the limit |
| `Vm.StepUnderTwoLimits` | src/execution/vm.rs:498-711 | A step under another limit, for every schedule, is the same unless it used more than that limit, and then it runs out of gas |
| `Vm.PerformUnderTwoLimits` | src/execution/vm.rs:498-711 | The same for one decoded instruction other than GAS |
| `Vm.ExecIgnoresLimit` | src/execution/vm.rs:514-707 | Apart from GAS no opcode looks at the limit |
| `Vm.ActEffect` | src/execution/vm.rs:514-707 | No opcode changes gas used; the stack grows by at most one word and never past 1024; control moves only onto a JUMPDEST byte and only by a jump |
| `VmLaws.JumpILaw` | src/execution/vm.rs:645-654 | Byte 0x57 over condition and destination: the next byte when the condition is zero; otherwise the destination cut to 64 bits when a 0x5b stands there, and InvalidJump when not |
| `VmLaws.JumpLaw` | src/execution/vm.rs:637-643 | Byte 0x56 goes to the value on top cut to 64 bits exactly when a 0x5b stands there |
| `VmLaws.AddLaw` | src/execution/vm.rs:519-524 | Byte 0x01 pushes the sum of the two top values modulo 2^256 |
| `VmLaws.SubLaw` | src/execution/vm.rs:533-538 | Byte 0x03 takes the lower value from the top one, modulo 2^256 |
| `VmLaws.MulLaw` | src/execution/vm.rs:526-531 | Byte 0x02 multiplies the 128-bit halves it reads from bytes 16 to 31 and keeps 128 bits |
| `VmLaws.DivLaw` | src/execution/vm.rs:540-545 | Byte 0x04 divides those halves, top by lower, and gives zero for a zero divisor |
| `VmLaws.LtLaw` | src/execution/vm.rs:547-552 | Byte 0x10 pushes one exactly when the top value is below the next |
| `VmLaws.GtLaw` | src/execution/vm.rs:554-559 | Byte 0x11 pushes one exactly when the top value is above the next |
| `VmLaws.EqLaw` | src/execution/vm.rs:561-566 | Byte 0x14 pushes one exactly when the two values are equal |
| `VmLaws.IsZeroLaw` | src/execution/vm.rs:568-572 | Byte 0x15 pushes one exactly when the value is zero |
| `VmLaws.AndLaw` | src/execution/vm.rs:574-582 | Byte 0x16 is the conjunction of every pair of bytes |
| `VmLaws.OrLaw` | src/execution/vm.rs:584-592 | Byte 0x17 is the disjunction of every pair of bytes |
| `VmLaws.XorLaw` | src/execution/vm.rs:594-602 | Byte 0x18 is the exclusive disjunction of every pair of bytes |
| `VmLaws.NotLaw` | src/execution/vm.rs:604-611 | Byte 0x19 turns a value v into 2^256 - 1 - v |
| `VmLaws.PopLaw` | src/execution/vm.rs:613-615 | Byte 0x50 drops the top word |
| `VmLaws.MLoadLaw` | src/execution/vm.rs:617-621 | Byte 0x51 pushes the 32 bytes of memory at the offset on top, zero past the end |
| `VmLaws.MStoreLaw` | src/execution/vm.rs:623-627 | Byte 0x52 lays the lower word over memory at the offset on top, growing it with zeros, or aborts when it cannot be allocated |
| `VmLaws.MStore8Law` | src/execution/vm.rs:629-633 | Byte 0x53 lays the lower word's last byte there |
| `VmLaws.StoreThenLoad` | src/execution/vm.rs:617-627 | A word stored at an offset is the word loaded from there |
| `VmLaws.PcLaw` | src/execution/vm.rs:660-665 | Byte 0x58 pushes the offset of the byte after it |
| `VmLaws.GasLaw` | src/execution/vm.rs:667-672 | Byte 0x5a pushes the limit minus the gas used, its own price included |
| `VmLaws.Sha3Law` | src/execution/vm.rs:674-684 | Byte 0x20 pushes the digest of memory[offset + i], zero past the end, for every i below the size |
| `VmLaws.ReturnLaw` | src/execution/vm.rs:686-691 | Byte 0xf3 stops and returns memory[offset + i], zero past the end, for every i below the size |
| `VmLaws.RevertLaw` | src/execution/vm.rs:693-698 | Byte 0xfd fails with the same bytes as its reason |
| `VmLaws.TooLongAborts` | src/execution/vm.rs:674-698 | A size the allocator refuses aborts all three |
| `VmLaws.PlainLaws` | src/execution/vm.rs:513-707 | Byte 0x00 stops, 0xfe fails, 0x5b and every known byte without an effect of its own only move on |
| `VmLaws.ShortStack` | src/execution/vm.rs:513-698 | An instruction that needs more words than there are empties the stack and fails |
| `VmLaws.KnownDecodes` | src/execution/vm.rs:320-409 | Which bytes are instructions |
| `VmLaws.UnknownByte` | src/execution/vm.rs:498-501 | Any other byte fails where it is |
| `VmLaws.PriceIsCost` | src/execution/vm.rs:412-446 | What each byte costs, read off a list by byte |
| `VmLaws.Unaffordable` | src/execution/vm.rs:503-510 | A charge that, cut to 64 bits, exceeds the limit changes nothing |
| `VmLaws.PaidExecutes` | src/execution/vm.rs:503-513 | A charge that fits is taken and the counter moved before the instruction is executed |
| `VmLaws.RestEnds` | src/execution/vm.rs:490-496 | A stopped machine, or one past the code, ends as it is |
| `VmLaws.RunContinues` | src/execution/vm.rs:490-496 | Otherwise a failing instruction ends the run with its error and any other is followed by the run from where it leads |
| `Vm.ExecIsTame` | src/execution/vm.rs:514-707 | The same for an opcode together with popping its operands, underflow included |
| `Vm.PayEffect` | src/execution/vm.rs:498-514 | A charged instruction leaves exactly the charged total as gas used; an uncharged one changes nothing |
| `Vm.PerformEffect` | src/execution/vm.rs:498-514 | Where no charge wraps, an instruction charges its price exactly when the limit allows |
| `Vm.ActIgnoresUnused` | src/execution/vm.rs:514-707 | An opcode depends on no more operands than it pops |
| `Vm.ReadAfterWrite` | src/execution/vm.rs:33-71 | Memory: what was written is read back, and every disjoint range reads as before, growth and zero fill included |
| `Vm.ByteOf` | src/execution/vm.rs:320-410 | Every opcode is the decoding of some byte |
| `Vm.ComputeBinary` | src/execution/vm.rs:519-602 | The two-operand opcodes computed by the loops agree with their numeric or bytewise definitions |
| `Vm.ZipBytes` | src/execution/vm.rs:574-602 | The byte loop applies the operation position by position |
| `Vm.VM.constructor` | src/execution/vm.rs:464-488 | A new machine is at the start, empty, with no gas used |
| `Vm.VM.PushWord` | src/execution/vm.rs:96-102 | Pushes unless 1024 words are there, and then reports overflow with the stack unchanged |
| `Vm.VM.PopWords` | src/execution/vm.rs:104-106 | Takes words from the top in order; running short empties the stack and reports underflow |
| `Vm.VM.ReadMemory` | src/execution/vm.rs:39-52 | The loop reads a range with zeros past the end |
| `Vm.VM.WriteMemory` | src/execution/vm.rs:61-67 | Grows and overwrites exactly the range; a size past the allocator's bound aborts |
| `Vm.VM.JumpTo` | src/execution/vm.rs:637-643 | Moves control exactly to a JUMPDEST inside the code, else reports an invalid jump |
| `Vm.VM.Execute` | src/execution/vm.rs:514-707 | Pops the operands and performs the opcode's effect on the fields |
| `Vm.VM.Effect` | src/execution/vm.rs:514-707 | The effect of each opcode on the fields, its error cases included, as the laws of one instruction describe it |
| `Vm.VM.ReadingEffect` | src/execution/vm.rs:674-698 | SHA3, RETURN and REVERT read their memory range; an impossible size aborts |
| `Vm.VM.PerformOp` | src/execution/vm.rs:498-514 | Charges, advances and executes, or fails with nothing changed |
| `Vm.VM.StepOnce` | src/execution/vm.rs:498-514 | One step on the fields, an unknown byte being an error |
| `Vm.VM.Turn` | src/execution/vm.rs:490-496 | One turn of the run loop leaves the machine in the next state, or halted with its error |
| `Vm.VM.RunToEnd` | src/execution/vm.rs:490-496 | Whenever the run ends at all, the loop does, with exactly the outcome of the run |
| `Vm.VM.RunAlong` | src/execution/vm.rs:490-496 | The loop itself, along any description of the machine's moves |
| `Merkle.RootsBind` | src/crypto/merkle.rs:29-68 | Two leaf lists of equal length with equal roots are equal, or the pair hash has a collision |
| `Merkle.ProofsBind` | src/crypto/merkle.rs:182-196 | A proof with the directions of an index verifies if it is the tree's own, and if it verifies then leaf and nodes are the tree's own or the pair hash has a collision |
| `Merkle.AnyProofBinds` | src/crypto/merkle.rs:182-196 | What an accepted proof of any shape shows, unless it gives away a collision: with at most one node per level, its leaf is the tree's node that many levels below the root, where its directions lead; with more, its leaf hashes into a leaf of the tree |
| `Merkle.InnerNodesAccepted` | src/crypto/merkle.rs:182-196 | The check does not tell a leaf from an inner node: every node of every level has an accepted proof |
| `Merkle.LongProof` | src/crypto/merkle.rs:182-196 | A proof with at least one node per level climbs through the leaf its topmost directions lead to, or gives away a collision |
| `Merkle.CollisionFromRoots` | src/crypto/merkle.rs:29-68 | From two different lists of equal length and root it computes a collision, self-paired last nodes included |
| `Merkle.CollisionFromProof` | src/crypto/merkle.rs:182-196 | From an accepted proof with a wrong leaf or node it computes a collision |
| `Merkle.RepeatedLastLeaf` | src/crypto/merkle.rs:29-68 | Equal length is needed: repeating the last leaf of an odd list of three or more leaves the root unchanged |
| `Merkle.PathReachesRoot` | src/crypto/merkle.rs:95-131 | Climbing from any leaf along its path reaches the root, for every list and index |
| `Merkle.SmallRoots` | src/crypto/merkle.rs:29-68 | The roots of none to three leaves spelled out: zero, the leaf, the pair, and a last leaf paired with itself |
| `Merkle.PathIsOnPath` | src/crypto/merkle.rs:95-131 | A generated path has exactly the length and directions of its index |
| `Merkle.LevelsStep` | src/crypto/merkle.rs:29-68 | Each stored level is the level above the one before, until one node is left |
| `Merkle.NextLevel` | src/crypto/merkle.rs:45-59 | The pairing loop computes the next level |
| `Merkle.Build` | src/crypto/merkle.rs:29-68 | The building loop stores all levels and the root, the empty tree included |
| `Merkle.TransactionsRoot` | src/types/block.rs:50-64 | The other implementation, replacing one list until one hash is left, computes the same root |
| `Merkle.SiblingNode` | src/crypto/merkle.rs:105-120 | The sibling and its direction, the node itself for an odd last node |
| `Merkle.GenerateProof` | src/crypto/merkle.rs:95-131 | A proof exactly for the indexes in range, with the leaf, its path and the root |
| `Merkle.VerifyProof` | src/crypto/merkle.rs:182-196 | Accepts exactly when climbing from the leaf gives the claimed root |
| `Merkle.ProveInclusion` | src/types/block.rs:50-64 | Across both implementations: for every list and index, the tree's proof has the block body's root and verifies |
| `Selection.LeftOutExplained` | src/mempool/pool.rs:325-379 | A candidate is selected if and only if fewer than the maximum were selected before it, the size limit was neither reached nor would be passed, and its nonce was due or at most the gap ahead |
| `Selection.KeyBounds` | src/mempool/pool.rs:147-154 | The key times the size is at most the fee in millionths, which is below the next key times the size; the key is the largest 64-bit number exactly when the fee in millionths is at least that many times the size |
| `Selection.KeyOrder` | src/mempool/pool.rs:331-344 | What comes no later by key never pays a full millionth per byte less, on fees and sizes alone |
| `Selection.NextNonceIsAfterLast` | src/mempool/pool.rs:347-373 | The nonce due is one past the sender's last selected nonce |
| `Selection.SizeAppend` | src/mempool/pool.rs:365-373 | The running size is the sum of the selected sizes |
| `Selection.WithinLimits` | src/mempool/pool.rs:325-379 | The selection keeps both limits and walks the priority order forward without repeats |
| `Selection.NoncesInSteps` | src/mempool/pool.rs:325-379 | Per sender the selected nonces rise strictly, in steps of at most the gap plus one |
| `Selection.NextNonceIsPast` | src/mempool/pool.rs:347-373 | The tracked nonce is above every selected nonce of its sender |
| `Selection.SelectedFromZero` | src/mempool/pool.rs:347-363 | A sender is selected only with a nonce within the gap of zero, and with room for the whole pool exactly then |
| `Selection.ChosenGrows` | src/mempool/pool.rs:325-379 | Looking further only appends to the selection |
| `Selection.FullStays` | src/mempool/pool.rs:334-338 | Once the count or the size is reached nothing more is taken, so stopping early loses nothing |
| `Mempool.SelectionIsSound` | src/mempool/pool.rs:325-379 | For every pool: candidates are looked at so that no later one pays a full millionth per byte more, no duplicates, both limits kept, priority keys never rise, nonces per sender rise in bounded steps, and every pooled transaction left out has a reason |
| `Mempool.PriorityOrderFacts` | src/mempool/pool.rs:331-344 | Walking the index from the highest key lists every pooled transaction exactly once and nothing else, in non-increasing key order |
| `Mempool.RunKeepsTable` | src/mempool/pool.rs:197-427 | After every run of add, replace, remove, cleanup and prune: entries sit under their own hash, each (sender, nonce) occurs at most once, both capacity limits hold |
| `Mempool.AddKeepsTable` | src/mempool/pool.rs:197-287 | One addition or replacement keeps those facts |
| `Mempool.AddOutcome` | src/mempool/pool.rs:197-287 | An addition never empties a slot or lowers the fee per byte of its occupant, a replacement pays strictly more per byte, and the answer tells exactly which hashes are pooled afterwards |
| `Mempool.OutbidIsHigher` | src/mempool/pool.rs:135-144 | A replacement pays strictly more per byte than what it replaces |
| `Mempool.CleanupDropsNextNonce` | src/mempool/pool.rs:385-407 | What the pool has just let in survives the next cleanup, with nothing processed, if and only if it is not the transaction its account would execute next |
| `Mempool.NextNonceIsAdmitted` | src/mempool/pool.rs:104-132 | For any node and pool with room: every transaction that passes the other checks, at its account's own nonce, is added, and gone after the next cleanup |
| `Mempool.FarAccountsAreLeftOut` | src/mempool/pool.rs:347-363 | A sender whose pooled nonces all exceed the gap, counted from zero, is never selected, whatever the account nonce that admission uses |
| `Mempool.AdmittedNeverSelected` | src/mempool/pool.rs:197-379 | Run on a new pool: a transaction that passes the other checks, at its account's own nonce beyond the gap, is added, and no limits ever select it |
| `PoolLaws.Admission` | src/mempool/pool.rs:197-287 | A transaction is added if and only if it is new, the pool and its sender's share have room, it satisfies the five checks written out on its fields, the account and the clock, and its slot is free; it replaces if and only if, the slot being taken, its rate exceeds 1.1 times the rate there |
| `PoolLaws.Refusals` | src/mempool/pool.rs:197-230 | Each other answer with its exact condition: known, full, too many from the address, or the first of the five checks that fails |
| `PoolLaws.Checked` | src/mempool/pool.rs:104-132 | The five checks in order, each on raw fields |
| `PoolLaws.SaneIsValidBasic` | src/types/transaction.rs:37-43 | Basic validity: two different non-zero parties, a non-zero amount that with the fee fits 128 bits, an age within the limit, where up to 30 seconds ahead counts as an age just below 2^64, and a signature of 1 to 5000 bytes |
| `PoolLaws.OutbidExactly` | src/mempool/pool.rs:135-144 | A replacement needs more than 1.1 times the fee per byte |
| `PoolLaws.PooledWasAcceptable` | src/mempool/pool.rs:197-427 | After every run each pooled transaction was acceptable when it arrived and is stamped with that moment |
| `PoolLaws.PruneByAge` | src/mempool/pool.rs:409-427 | Pruning drops exactly what arrived more than the configured age ago |
| `PoolLaws.CleanupByNonce` | src/mempool/pool.rs:385-407 | Cleanup drops exactly what was processed and what the account's nonce has reached |
| `Mempool.NoncesInsert` | src/mempool/pool.rs:262-266 | Inserting keeps the pending nonces equal to the pool's |
| `Mempool.CountsInsert` | src/mempool/pool.rs:268-271 | Inserting keeps the per-address counts equal to the pool's |
| `Mempool.BucketsInsert` | src/mempool/pool.rs:147-154 | Inserting keeps every hash in the priority index exactly once, under its own key |
| `Mempool.NoncesRemove` | src/mempool/pool.rs:289-310 | Removing keeps the pending nonces equal to the pool's, because slots are unique |
| `Mempool.CountsRemove` | src/mempool/pool.rs:289-310 | Removing keeps the per-address counts equal to the pool's, and never below zero |
| `Mempool.SwapRemoveContents` | src/mempool/pool.rs:157-165 | Moving the last entry into the hole removes exactly one hash and keeps the rest distinct |
| `Mempool.BucketsRemove` | src/mempool/pool.rs:157-165 | Removing takes the hash out of the priority index and touches nothing else |
| `Mempool.MempoolImpl.constructor` | src/mempool/pool.rs:88-101 | A new pool is empty with all indexes in agreement |
| `Mempool.MempoolImpl.AddTransaction` | src/mempool/pool.rs:197-287 | Performs the addition on table and indexes, keeps their agreement, counts replacements and validation failures |
| `Mempool.MempoolImpl.PlaceTransaction` | src/mempool/pool.rs:231-287 | Takes a free slot or replaces a clearly outbid rival, keeping table and indexes in agreement |
| `Mempool.MempoolImpl.FindSlot` | src/mempool/pool.rs:231-251 | Finds the one pooled transaction in the same slot, if there is one |
| `Mempool.MempoolImpl.Insert` | src/mempool/pool.rs:259-277 | Adds to the table and the three indexes, which still agree |
| `Mempool.MempoolImpl.RemoveTransaction` | src/mempool/pool.rs:289-310 | Removes one hash from table and indexes, returns what was there |
| `Mempool.MempoolImpl.RemoveFromPriorityIndex` | src/mempool/pool.rs:157-165 | The search over the buckets takes out exactly this hash |
| `Mempool.MempoolImpl.RemoveAll` | src/mempool/pool.rs:385-427 | Removes exactly the listed hashes, keeping agreement |
| `Mempool.MempoolImpl.CleanupProcessed` | src/mempool/pool.rs:385-407 | Keeps exactly the unprocessed transactions with a nonce above the account's |
| `Mempool.MempoolImpl.PruneExpired` | src/mempool/pool.rs:409-427 | Keeps exactly the transactions within the age limit and returns how many went |
| `Mempool.MempoolImpl.SelectForBlock` | src/mempool/pool.rs:325-379 | The selecting loop returns the transactions of the greedy choice along the priority order of the index, in which no later candidate pays a full millionth per byte more; the choice is sound in the sense above |
| `Mempool.PriorityList` | src/mempool/pool.rs:331-335 | Lists the buckets from the highest key down |
| `Mempool.Greedy` | src/mempool/pool.rs:334-376 | The loop with running size, count and nonce tracker, stopping early, computes the greedy choice |
| `Supply.RunKeeps` | src/vault/manager.rs:77-252 | Over every run of transfers and fee distributions with fees up to 166,666,666,666,667: supply plus burned stays 550e12, supply never goes below 250e12, the phase never goes back |
| `Supply.ApplyKeeps` | src/vault/manager.rs:77-252 | One operation keeps this and never raises supply |
| `Supply.MaxSafeFee` | src/vault/mod.rs:60-81 | That fee bound is exact: burning stops at the floor from every supply if and only if the fee is at most 166,666,666,666,667 |
| `Supply.GreatBurnFloor` | src/vault/mod.rs:69-74 | In the first phase a safe fee's burn stops above the floor |
| `Supply.TransitionFloor` | src/vault/mod.rs:75-78 | In the second phase, where the burn rate falls with supply, a safe fee's burn stops at the floor |
| `Supply.BurnRateRange` | src/vault/mod.rs:69-81 | The burn rate lies between 0 and 0.90 at every supply |
| `Supply.TransferSharesAddUp` | src/vault/manager.rs:118-131 | A transfer's three shares always add up to the fee |
| `Supply.DistributionsAddUp` | src/vault/manager.rs:198-234 | Over all distributions at a given supply that succeed, the shares add up if and only if supply is at least 530e12 or at most 400e12 |
| `Supply.BlockSharesAddUp` | src/vault/manager.rs:198-210 | The same over all fees whose burn the supply can bear |
| `Supply.SafeSharesAddUp` | src/vault/manager.rs:198-210 | Over fees up to 166,666,666,666,667 they add up if and only if supply is at least 530e12 - 3 or at most 400e12 |
| `Supply.GapBurn` | src/vault/mod.rs:69-74 | Between 400e12 and 530e12 the burn is 64 percent plus the fee times the distance to 530e12, over 500e12 |
| `Supply.Overspent` | src/vault/manager.rs:198-234 | For every supply strictly between, a fee whose burn the supply can bear and whose burned and validators' shares exceed it |
| `Supply.TransferMoves` | src/vault/manager.rs:77-157 | Every balance after a vault transfer: the sender pays amount and fee, the receiver gets the amount, the genesis vault gets its share unless it is itself a party, and everyone else is untouched |
| `SupplyLaws.GreatBurnShares` | src/vault/mod.rs:69-107 | Shares in closed form above 400e12: burned floor(fee * (850e12 - s) / 500e12), genesis share of a transfer floor(fee * (s - 530e12) / 500e12) or 0 below 530e12, validators' share of a block floor(fee * 9 / 25) |
| `SupplyLaws.TransitionShares` | src/vault/mod.rs:69-107 | The same from 400e12 down to 250e12: floor(fee * 3 (s - 250e12) / 500e12), floor(fee * (50e12 + 3 (400e12 - s)) / 5000e12), floor(fee * (450e12 + 27 (400e12 - s)) / 5000e12) |
| `SupplyLaws.GoldenEraShares` | src/vault/mod.rs:69-107 | The same at 250e12 and below: 0, a tenth, nine tenths |
| `SupplyLaws.RestOfFee` | src/vault/manager.rs:118-131 | The third share is what the two computed ones leave, or nothing |
| `SupplyLaws.RatesSumToOne` | src/vault/mod.rs:69-107 | The three rates sum to one at every supply |
| `SupplyLaws.ShareOfRatio` | src/vault/manager.rs:118-131 | A share at a rational rate is integer division |
| `SupplyLaws.TransferAnswers` | src/vault/manager.rs:77-180 | Every answer of a vault transfer with its exact condition; a failure changes nothing |
| `SupplyLaws.TransferRecords` | src/vault/manager.rs:118-157 | Supply, burned, fees collected and the number of transfers after a transfer |
| `SupplyLaws.TransferTouches` | src/vault/manager.rs:77-157 | Which accounts a transfer writes: nonce, activity and dormancy of the parties, the genesis vault, no one else |
| `SupplyLaws.DistributionMoves` | src/vault/manager.rs:198-252 | A distribution succeeds exactly when the supply bears the burn, and moves only the supply, the burned total and the genesis vault's balance |
| `Supply.VaultManager.constructor` | src/vault/manager.rs:45-58 | A new vault holds the full supply with nothing burned |
| `Supply.VaultManager.Transfer` | src/vault/manager.rs:77-180 | Performs the transfer on the fields, exactly for an amount of at least 1000 between two parties from a known, awake account holding amount and fee; shares add up, and supply stays above the floor for a safe fee |
| `Supply.VaultManager.DistributeFees` | src/vault/manager.rs:198-234 | Performs the distribution; for a safe fee it succeeds and keeps supply above the floor, and its shares add up outside the gap |
| `Supply.VaultManager.Burn` | src/vault/manager.rs:236-252 | Fails exactly when more than the supply is to be burned; supply plus burned is unchanged |
| `StateStore.BlockAccounts` | src/storage/state.rs:200-244 | For a block of well-formed transactions, if all succeed the sum of balances drops by exactly the total fees and each nonce rises by the number of transactions its account sent |
| `StateStore.BlockMoves` | src/storage/state.rs:200-244 | After such a block every balance is what it was, plus what was sent to the account, minus what it sent and paid |
| `StateStore.TransferAccounts` | src/storage/state.rs:155-197 | A transfer between two accounts lowers the sum of balances by exactly the fee |
| `StateStore.TransferMoves` | src/storage/state.rs:155-197 | It debits the sender by amount and fee, credits the receiver and leaves every other balance alone |
| `StateStore.SelfTransferMints` | src/storage/state.rs:155-197 | A transfer to oneself creates the amount; the sum drops by the fee if and only if the parties differ or nothing moves |
| `StateStore.TransferAnswers` | src/storage/state.rs:155-176 | A transfer succeeds if and only if the sender has an account holding amount plus fee, saturated at 128 bits; AccountNotFound exactly when it has none; otherwise the error carries the cost and the balance |
| `StateStore.TransferWrites` | src/storage/state.rs:178-197 | Both accounts after a transfer, field by field; everyone else is unchanged |
| `StateStore.SelfTransferWrites` | src/storage/state.rs:178-197 | A transfer to oneself only adds the amount |
| `StateStore.BlockSucceeds` | src/storage/state.rs:200-214 | A block of well-formed transactions succeeds if and only if, for every k, the sender of the k-th has an account before the block or received in it earlier, and what it held and received by then covers what it spent by then and spends now |
| `StateStore.BlockFailsAt` | src/storage/state.rs:211-214 | It fails at transaction k if and only if k is the first not covered |
| `StateStore.BlockOpens` | src/storage/state.rs:187-197 | After a block exactly the earlier accounts and the receivers have accounts |
| `StateStore.PutAllIsOverlay` | src/storage/state.rs:282-301 | Writing a batch key by key, in any order, is overlaying it |
| `StateStore.WriteBatch` | src/storage/state.rs:282-301 | The write loop overlays exactly the batch on the stored accounts |
| `StateStore.StateManager.constructor` | src/storage/state.rs:58-73 | A new manager reads as storage does |
| `StateStore.StateManager.GetAccount` | src/storage/state.rs:117-138 | Reads storage overridden by uncommitted writes; filling the cache changes no read |
| `StateStore.StateManager.SetAccount` | src/storage/state.rs:141-152 | Changes exactly one logical account and keeps cache and dirty map consistent |
| `StateStore.StateManager.ApplyTransfer` | src/storage/state.rs:155-197 | Performs the transfer on the logical map, exactly when the sender has an account holding amount and fee; on an error the logical map is unchanged |
| `StateStore.StateManager.ApplyTransfers` | src/storage/state.rs:211-214 | Stops at the first failing transaction with exactly the ones before it applied |
| `StateStore.StateManager.ApplyBlock` | src/storage/state.rs:200-244 | Wrong height changes nothing; a failure at transaction k leaves height, root, versions and storage unchanged and exactly the first k transfers applied; success commits all of them and records height, block hash, parent root and the new root, which digests accounts that include every party |
| `StateStore.StateManager.CommitVersion` | src/storage/state.rs:216-244 | Records height, block hash, root and parent root, then stores everything uncommitted |
| `StateStore.StateManager.ComputeStateRoot` | src/storage/state.rs:247-280 | With nothing uncommitted the root stays; otherwise it is the digest of a part of the accounts that includes every party |
| `StateStore.StateManager.CommitDirtyAccounts` | src/storage/state.rs:282-301 | Changes no read and leaves storage equal to the logical map |
| `StateStore.StateManager.RevertToHeight` | src/storage/state.rs:76-96 | Succeeds exactly for a stored root; drops exactly the uncommitted writes, so committed ones stay |
| `StateStore.BlocksChangeAccounts` | src/storage/state.rs:200-244 | Well-formed blocks leave the accounts as they were if and only if they hold no transaction |
| `StateStore.CommitThenRevert` | src/storage/state.rs:76-96 | Committing blocks and reverting to the height before them restores height and root but leaves the accounts after the blocks, which are the old ones if and only if no block held a transaction |
| `StateStore.PaymentSurvivesRevert` | src/storage/state.rs:76-96 | A concrete run: a payment committed at height 2 is still read after reverting to height 1 |
| `StateStore.FailThenCommit` | src/storage/state.rs:200-244 | A block that fails at transaction k, then one that succeeds: the first k transfers are committed with it, and the committed accounts are those of the second block alone if and only if k is zero |
| `StateStore.PaymentOfFailedBlock` | src/storage/state.rs:200-244 | A concrete run: the payment of a block that fails at its second transaction is committed by an empty block at the same height |
| `StateStore.LeftoversShow` | src/storage/state.rs:200-244 | Transfers applied before others leave a trace in the outcome unless there were none |
| `WriteAheadLog.ReplayMatchesLog` | src/storage/wal.rs:285-355 | From any tables, applying the recovered batches, regrouped by kind and split at checkpoints, gives what applying the entries one by one gives, batches passed over; so nothing is lost unless a batch holds a write |
| `WriteAheadLog.ReplayedExactly` | src/storage/wal.rs:318-346 | Collecting an entry has the entry's meaning, from every replay state and on all tables, if and only if it is not a batch with a write inside |
| `WriteAheadLog.RecoveryAfterCut` | src/storage/wal.rs:285-355 | A log cut off anywhere: a cut at a record boundary or inside a length field recovers exactly the complete records' effect, a cut inside a record's body is an error |
| `WriteAheadLog.CutFile` | src/storage/wal.rs:285-310 | Reading any prefix of a written file yields exactly the complete records, or an error exactly when the cut lies inside a body |
| `WriteAheadLog.ParseFrames` | src/storage/wal.rs:285-310 | A whole file reads back as the records written to it |
| `WriteAheadLog.NextWholeFrame` | src/storage/wal.rs:295-310 | A complete frame is read as its record, leaving the rest of the file |
| `WriteAheadLog.NextCutFrame` | src/storage/wal.rs:295-310 | A frame cut inside its length ends the file, one cut inside its body is an error |
| `WriteAheadLog.FramesConcat` | src/storage/wal.rs:230-244 | The frames of two lists are the frames of their concatenation |
| `WriteAheadLog.LengthBytes` | src/storage/wal.rs:237-239 | Four little-endian bytes read back as the length |
| `WriteAheadLog.CollectEffect` | src/storage/wal.rs:318-346 | Collecting one more entry adds exactly that entry's effect, although other kinds may be applied after it |
| `WriteAheadLog.CollectAllEffect` | src/storage/wal.rs:285-355 | Collecting a whole log has the effect of its entries in order |
| `WriteAheadLog.BatchIsNotReplayed` | src/storage/wal.rs:335-337 | A log of any one batch with a write inside recovers to nothing, although its entries would have changed some tables |
| `WriteAheadLog.NothingWrittenNothingLost` | src/storage/wal.rs:318-346 | Without such batches nothing is passed over |
| `WriteAheadLog.WritingChanges` | src/storage/mod.rs:307-324 | An entry with a write inside changes some tables |
| `WalLaws.AnyFileRecovers` | src/storage/wal.rs:285-355 | Any readable file: its batches do to all tables what the entries of the records with the right magic number, version and checksum do one by one; other records have no effect |
| `WalLaws.AccountAfterLog` | src/storage/mod.rs:314-319 | After a log an account is as the last entry about it says, saved or deleted, and unchanged without one |
| `WalLaws.BlockAfterLog` | src/storage/mod.rs:234-241 | A slot holds the last block logged for its height; without one its old block, or genesis |
| `WalLaws.TransactionAfterLog` | src/storage/mod.rs:311-313 | A transaction is found under its own hash, the last logged one |
| `WalLaws.RootAfterLog` | src/storage/mod.rs:320-322 | A height has the last root logged for it |
| `WalLaws.PutBlockAt` | src/storage/mod.rs:234-241 | The slot of its height holds the block, every other slot keeps its own, and the new slots in between hold genesis |
| `WalLaws.CheckpointEndsBatch` | src/storage/wal.rs:335-346 | A batch marker and the next checkpoint end one recovered batch and start a new one |
| `WalLaws.NoMarkerOneBatch` | src/storage/wal.rs:335-355 | Without a marker everything is recovered as one batch |
| `WalLaws.FrameLayout` | src/storage/wal.rs:234-243 | A frame is the length in four bytes, the lowest first, then the encoding |
| `WriteAheadLog.HoldsOneMore` | src/storage/wal.rs:230-244 | Appending a record's frame extends the file's record list by that record |
| `WriteAheadLog.MemoryStorage.constructor` | src/storage/mod.rs:222-231 | New tables are empty |
| `WriteAheadLog.MemoryStorage.SaveBlock` | src/storage/mod.rs:234-241 | Puts the block in the slot of its height, filling missing slots with genesis blocks |
| `WriteAheadLog.MemoryStorage.WriteAll` | src/storage/mod.rs:307-324 | Applies a batch to all four tables |
| `WriteAheadLog.MemoryStorage.WriteBlocks` | src/storage/mod.rs:308-310 | Puts the blocks in batch order |
| `WriteAheadLog.MemoryStorage.WriteTransactions` | src/storage/mod.rs:311-313 | Puts the transactions under their hashes in batch order |
| `WriteAheadLog.MemoryStorage.WriteAccounts` | src/storage/mod.rs:314-319 | Saves and deletes accounts in batch order |
| `WriteAheadLog.MemoryStorage.WriteRoots` | src/storage/mod.rs:320-322 | Puts the state roots in batch order |
| `WriteAheadLog.WalManager.constructor` | src/storage/wal.rs:127-144 | A new log is empty and open |
| `WriteAheadLog.WalManager.Append` | src/storage/wal.rs:183-207 | Keeps file plus pending list equal to the append history, numbers the entry, and flushes when the list is full |
| `WriteAheadLog.WalManager.Flush` | src/storage/wal.rs:209-261 | Moves all pending entries to the file in order after what was there; each stamped with magic number, version, current sequence number, time and checksum; on a closed file they are dropped and an error returned |
| `WriteAheadLog.WalManager.WriteRecord` | src/storage/wal.rs:234-243 | Appends exactly one frame |
| `WriteAheadLog.WalManager.Close` | src/storage/wal.rs:385-389 | After closing, the file holds exactly the append history; it fails exactly for a closed file with pending entries |
| `WriteAheadLog.WalManager.RecoverFromFile` | src/storage/wal.rs:285-355 | The reading loop returns the batches of the parsed records, skipping those that do not verify, or an error exactly when parsing fails |
| `WriteAheadLog.WalManager.FlushAndRecover` | src/storage/wal.rs:209-355 | Flushing and recovering: unless a record is too long for its length field, the recovered batches do to any tables what the appended entries do in order |
| `WriteAheadLog.WalManager.WriteRecords` | src/storage/wal.rs:230-244 | The loop appends one genuine record per entry, in order, after what was there |
| `WriteAheadLog.WalManager.ReadFrame` | src/storage/wal.rs:295-310 | Reads one frame at a position: an error exactly when the rest cannot be parsed for this frame, else the record and where it ends |
| `Bridges.RunKeeps` | src/vault/bridge.rs:133-334 | After every run of initiate, lock, relay, finalize and reaper passes: each open bridge is listed exactly once, under its source shard before relay and its target shard after; closed ones nowhere; the totals match the finalized amounts and the reverted count |
| `Bridges.ClosedForGood` | src/vault/bridge.rs:245-319 | Finalized and Reverted are terminal: a closed bridge is the same in every later state of the run |
| `BridgeLaws.History` | src/vault/bridge.rs:58-319 | Over every run a bridge keeps the parties, amount and shards it was opened with; a finalized one was opened, locked, relayed and finalized in that order; a reverted one met a pass more than 60 seconds after its opening |
| `BridgeLaws.PassReverts` | src/vault/bridge.rs:322-334 | After any run, a pass reverts exactly the bridges neither finalized nor reverted that were opened more than 60 seconds before, and changes no other |
| `BridgeLaws.PassCounts` | src/vault/bridge.rs:455-477 | And counts each of them once |
| `BridgeLaws.OpenAnswers` | src/vault/bridge.rs:133-187 | Opening fails exactly above the amount limit or on one shard |
| `BridgeLaws.MoveAnswers` | src/vault/bridge.rs:190-277 | Lock, relay and finalize succeed exactly on a pending, locked and relayed bridge; every other call reports what it found and changes nothing |
| `BridgeLaws.RevertAnswers` | src/vault/bridge.rs:280-319 | A revert is refused exactly for unknown and finalized bridges |
| `BridgeLaws.StepOfBridge` | src/vault/bridge.rs:133-334 | All that one operation can do to one bridge |
| `Bridges.InitiatedKeeps` | src/vault/bridge.rs:133-187 | Starting a bridge, or refusing to, keeps the invariant |
| `Bridges.LockedKeeps` | src/vault/bridge.rs:190-208 | Locking keeps the invariant |
| `Bridges.RelayedKeeps` | src/vault/bridge.rs:211-242 | Relaying keeps the invariant |
| `Bridges.RelayedPlaces` | src/vault/bridge.rs:211-242 | Relaying moves the bridge from its source shard's list to its target shard's, once, and touches no other |
| `Bridges.FinalizedKeeps` | src/vault/bridge.rs:245-277 | Finalizing keeps the invariant |
| `Bridges.FinalizedPlaces` | src/vault/bridge.rs:245-277 | Finalizing takes the bridge off its list and touches no other |
| `Bridges.RevertingKeeps` | src/vault/bridge.rs:280-295 | A direct revert call keeps the invariant if and only if the bridge is unknown or not already reverted |
| `Bridges.RevertedKeeps` | src/vault/bridge.rs:298-319 | A direct call marking a bridge reverted keeps the invariant if and only if it is unknown, open, or finalized with amount zero |
| `Bridges.ReapOneMore` | src/vault/bridge.rs:455-477 | Reverting and marking one more expired bridge extends the reaped set by exactly that one |
| `Bridges.ReapedKeeps` | src/vault/bridge.rs:455-477 | Reaping any set of open bridges keeps the invariant |
| `Bridges.ApplyKeeps` | src/vault/bridge.rs:133-334 | Every operation of a run keeps the invariant |
| `Bridges.ClosedStays` | src/vault/bridge.rs:133-334 | No operation of a run changes a closed bridge |
| `Bridges.GroupsPartition` | src/vault/bridge.rs:372-402 | The status groups counted by the statistics partition the bridges |
| `Bridges.BridgeManager.constructor` | src/vault/bridge.rs:121-130 | A new manager is empty and satisfies the invariant |
| `Bridges.BridgeManager.InitiateBridge` | src/vault/bridge.rs:133-187 | Performs the step on the fields with its checks, keeping the invariant |
| `Bridges.BridgeManager.LockBridge` | src/vault/bridge.rs:190-208 | Locks exactly a pending bridge, keeping the invariant |
| `Bridges.BridgeManager.Retain` | src/vault/bridge.rs:228-232 | Takes one id off one shard's list |
| `Bridges.BridgeManager.RelayBridge` | src/vault/bridge.rs:211-242 | Relays exactly a locked bridge and moves its listing, keeping the invariant |
| `Bridges.BridgeManager.FinalizeBridge` | src/vault/bridge.rs:245-277 | Finalizes exactly a relayed bridge, adds its amount, keeping the invariant |
| `Bridges.BridgeManager.RevertBridge` | src/vault/bridge.rs:280-295 | Marks a bridge as reverting unless it is finalized or unknown |
| `Bridges.BridgeManager.MarkReverted` | src/vault/bridge.rs:298-319 | Marks a bridge reverted, takes it off every list and counts it |
| `Bridges.BridgeManager.ReapPass` | src/vault/bridge.rs:455-477 | Reverts exactly the expired open bridges, keeping the invariant |
| `Bridges.BridgeManager.GetStats` | src/vault/bridge.rs:372-402 | The counting loop returns the sizes of the status groups, which add up to the total, and the totals of amounts and failures |
| `Bridges.Keep` | src/vault/bridge.rs:230-232 | The filter loop keeps exactly the other ids, in order |
| `Bridges.KeepEverywhere` | src/vault/bridge.rs:309-314 | Filters every shard's list |
| `MultiSignatures.Verify` | src/crypto/ed25519.rs:208-240 | The greedy loop accepts exactly when greedy matching reaches the threshold; then there is an injective matching of that many keys to valid signatures; when signatures accept the same keys or none in common, it accepts exactly when such a matching exists; when each verifies under at most one key, exactly when that many keys signed |
| `MultiSignatures.GreedyExact` | src/crypto/ed25519.rs:208-240 | Greedy answers rightly on all lists of keys and signatures drawn from given ones, for all thresholds, if and only if any two signatures verify under the same keys or share none |
| `MultiSignatures.GreedyIsRight` | src/crypto/ed25519.rs:208-240 | What reaching or missing the threshold means, in the three cases above |
| `MultiSignatures.AcceptedIsSigned` | src/crypto/ed25519.rs:208-240 | Acceptance means as many different keys as the threshold, each with a different well-formed signature that verifies under it |
| `MultiSignatures.GreedyMisses` | src/crypto/ed25519.rs:216-232 | The failing input: one key signs both, the other only the first; greedy rejects a threshold of two although a matching exists |
| `MultiSignatures.MatchGreedily` | src/crypto/ed25519.rs:213-239 | The counting loop, stopping early, decides whether greedy matching reaches the threshold |
| `MultiSignatures.FirstFreeIsLowest` | src/crypto/ed25519.rs:222-232 | The key a signature takes is unused, verifies, and is the lowest such |
| `MultiSignatures.SettledIsLargest` | src/crypto/ed25519.rs:208-240 | Under that condition a greedy matching is at least as large as any other |
| `MultiSignatures.OneKeyValueIsKindred` | src/crypto/ed25519.rs:208-240 | Signatures that verify under one key value only, listed once or more often, meet that condition |
| `MultiSignatures.ProgressStep` | src/crypto/ed25519.rs:216-232 | One signature extends the matching by an unused key or leaves every key it verifies under used |
| `MultiSignatures.UsedAreSigned` | src/crypto/ed25519.rs:216-232 | With one key per signature the used keys are exactly the keys signed so far |
| `MultiSignatures.FindKey` | src/crypto/ed25519.rs:222-232 | The inner loop finds the lowest unused key the signature verifies under, if there is one |
| `MultiSignatures.Create` | src/crypto/ed25519.rs:188-206 | Succeeds exactly for a threshold between one and the number of keys, with every key valid |
| `RateLimiting.NoWindowOverflows` | src/api/middleware.rs:37-53 | For every call history, address and start, a window of the configured length holds at most the maximum of accepted calls |
| `RateLimiting.RefusedOnlyWhenFull` | src/api/middleware.rs:37-53 | A call is refused only when its window already holds exactly the maximum of accepted calls of the address |
| `RateLimiting.VerdictAgrees` | src/api/middleware.rs:37-53 | Counting the kept entries decides exactly as counting the accepted calls of the last window |
| `RateLimiting.RecordedIsFaithful` | src/api/middleware.rs:37-53 | Recording a call keeps every address's list as good as its full history for all later decisions |
| `RateLimiting.LogCounts` | src/api/middleware.rs:37-53 | The fresh entries of an address's log are as many as its accepted calls in the last window |
| `RateLimiting.RetainTwice` | src/api/middleware.rs:44-45 | Dropping old entries early changes no later filtering, with a clock that does not go back |
| `RateLimiting.AcceptsPrefix` | src/api/middleware.rs:37-53 | Later calls do not change earlier verdicts |
| `RateLimiting.RateLimiter.constructor` | src/api/middleware.rs:29-35 | A new limiter has no history |
| `RateLimiting.RateLimiter.Check` | src/api/middleware.rs:37-53 | Accepts exactly when fewer than the maximum of calls from this address were accepted within the last window, over the whole history |
| `RateLimiting.RateLimiter.RetainFresh` | src/api/middleware.rs:44-45 | The filter loop keeps exactly the fresh entries, in order |

## Left out

- StoppingExact: needs room for the loop. Without filling, a lap costs 2 + 6 base + mid + the dearest price; for a sum past 64 bits, or one to twelve above half of 64 bits, only the stopping half is proved (`EndsWithoutWrap`).
- GasNeverDropsExact: for those sums, and a dearest price of at most half of 64 bits plus one, only the half without wrapping is proved (`NothingWrapsNothingDrops`).
- VM.RunToEnd: requires a run that ends, since otherwise the loop does not end either.
- VoteManager.CheckQuorum: compares voting power with a head count as the code does; the safety results are stated with vote counts, and `FlagExact` says when the flag means one.
- MempoolImpl.SelectForBlock: walks the flattened index with one stopping test instead of a loop over keys around a loop over hashes.
- Verify: requires a threshold between one and the number of keys, which the constructor of the original guarantees.
- RateLimiter.Check: requires a clock that does not go back, as a monotonic clock promises.
- WalManager.RecoverFromFile: reads one file given as bytes.
- BridgeManager.RevertBridge: direct calls are not part of the runs; `RevertingKeeps` says exactly when one keeps the invariant.
- BridgeManager.MarkReverted: direct calls are not part of the runs; `RevertedKeeps` says exactly when one keeps the invariant.
- VaultManager.Burn: direct burns are not part of the supply runs; the phase floor is a promise about fees.
- Locks and asynchronous scheduling: operations are atomic steps. Not modelled is that some code takes a lock it already holds: storing a vote checks the quorum under the votes lock (src/consensus/vote.rs:132-208), appending to the log keeps the sequence-number lock while flushing reads it (src/storage/wal.rs:188-228), and the transfer burn reads and writes the supply lock in one statement (src/vault/manager.rs:129).
- The consensus engine's commit path, agreement across rounds, proposer choice, pacemaker and slashing.
- `mul` and `div` as 256-bit product and quotient: the model has them as coded, with the limbs swapped and 128-bit wrap-around, and `MulLaw` and `DivLaw` say what that computes.
- Overflow panics of debug builds: gas and transaction age wrap as in release builds, and the clock is taken to be past the 60-second vote window.
- The revert reason stays bytes; its lossy conversion to text is left out. Allocation fails only past the allocator's size bound.
- Double-precision rounding in rates, fees per byte and priority keys.
- ApplyBlock: says which accounts the new root digests only up to what the cache adds.
- The value of the state root, RocksDB and input/output errors of storage.
- Log rotation, file naming, finding the latest sequence number, recovery over several files.
- Sums of balances in the vault: validator shares are credited to no account.
- Mempool statistics beyond the two counters, address queries.
- Account reads of the pool and the clock are parameters of each call.
- The executor with its own cache, precompiles, WASM, networking, REST and socket interfaces, key handling, dormancy counters, fee statistics, peer tables and the Solidity contracts.
