# Synapse Chain: a verified model

Synapse Chain is a blockchain written in Python. Its execution side holds an EVM interpreter, the transaction and block
transition, a transaction pool and miner, RLP codecs and a Merkle Patricia trie. Its consensus side holds a three-phase
vote in the style of PBFT, a beacon chain with justification, finality and fork choice, committee selection, a
Kademlia-like lookup and message routing. This project models those parts in Dafny, branch by branch as the code has
them, and proves what they promise: over every program and every nesting of calls, every reachable state of the vote,
every run of slots, every block, every input of the parsers and searches.

`dafny verify dfyconfig.toml` checks everything.

## How the model is built

Where the Python works by changing objects, so does the model. `StateDB`, `AccountObject`, `Storage`, `GasMeter`,
`Stack`, `Memory`, `CallFrame`, `Interpreter`, `StateJournal`, `Pool`, `Node`, `MerklePatriciaTrie`, `Service` (the vote
handlers), `BeaconState`, `ForkChoiceStore`, `RoutingTable` and `ChannelGraph` are classes whose methods update fields in
place, with deep copies for snapshots; the searches and selections are methods with loops. Each method is proved equal to
a function on values, and the properties are proved of those functions. `Valid()` and ghost footprints carry the absence
of sharing between a state and its snapshots.

| part | modules |
|---|---|
| shared vocabulary | `Arithmetic`, `Collections`, `Bytes`, `Sums` |
| EVM | `Gas`, `FrameMemory`, `SlotStorage`, `World`, `StateDb`, `Evm` (the interpreter as a function), `CallFrame` and `Interpreter` (the interpreter in place), `EvmState`, `EvmFrame`, `EvmCalls`, `EvmOpcodes`, `EvmArithmetic` |
| transactions and blocks | `Transactions`, `Transition`, `TransactionOutcome`, `StateTransition`, `BaseFee`, `Blocks`, `ChainRules`, `BlockAccess`, `Mining`, `TxPool`, `ChainIndex`, `ExecutionNode` |
| codecs and commitments | `Rlp`, `FieldCodec`, `TransactionCodec`, `HeaderCodec`, `WireFormat`, `WireReading`, `Trie`, `TrieEmptyValues`, `TrieStore`, `TrieWalk`, `TrieShape`, `StateRoot` |
| consensus and network | `Pbft`, `PbftService`, `PbftProgress`, `PbftTrack`, `PbftRuns`, `PbftGrowth`, `PbftAgreement`, `Finality`, `FinalityProgress`, `BeaconChain`, `ForkChoice`, `Committee`, `SlotCommittees`, `Routing`, `Dht`, `PhantomRouting` |

Hashing (keccak), sender recovery, proof verification and the outputs of precompiled contracts are function-valued
parameters. Where a property needs a hash without collisions, the collision is ruled out only between the strings that
the computation at hand really hashes, never for all strings. Python's exceptions are values of a result type.

## Where the code does not do what one would expect

The model follows the code in each of these, and the properties are stated around them.

- An RLP payload of exactly 55 bytes is encoded in the short form but refused by the decoder, because the prefix of
  that length is taken for a long form (`rlp.py:74`). Round trips hold exactly for values without such a payload.
- The binary opcodes compute `next op top`, the reverse of the Yellow Paper's order (`interpreter.py:405-408`).
- DELEGATECALL hands the frame's value on and the call really transfers it (`interpreter.py:683-684`, `772`).
- CALL, DELEGATECALL, STATICCALL and CREATE at the depth limit return a failure before charging anything beyond the
  opcode table's price (`interpreter.py:655-656`, `811-812`).
- Memory grows to the exact end of an access, not to a multiple of 32, and MSIZE reports that number. PUSH data cut
  short by the end of the code is not padded.
- The miner's state includes the block reward and the executor's does not, so a rewarded block does not replay to the
  miner's state (`block_access.py:196-197`). `Mining.RewardIsNotReplayed` says exactly when it does.
- The vote does not give agreement per height whatever happens: the flag that stops a second prevote is kept per block,
  so an honest node that is handed two proposals of one height prevotes both (`PbftAgreement.AgreementFails` is a run).
  Two blocks of one height can be finalized exactly if the honest members reach a quorum q and at least 2q - h of the h
  honest members may be handed two (`PbftAgreement.DisagreementIff`); below that there is agreement
  (`PbftAgreement.AgreementHolds`).
- The trie does not reject entries with an empty value. Such an entry is invisible in the root exactly if other
  entries fork at its path. Two tries have the same root exactly if their visible entries are the same
  (`TrieEmptyValues.RootShows`), so for non-empty values the root is binding.
- `_pick_members` asked for no members still takes one (`committee.py:71-109`), exactly if the cap is not zero and some
  candidate is known (`Committee.PickMembers`, `Committee.RoomForOne`); its caller cuts the list to the size asked for.
- A lookup drops the candidates of a round that do not fit into a batch, so it can stop while its result holds nodes it
  never asked (`Dht.LookUpMayMiss`). With batches as large as the rounds it does not (`Dht.LookUpConverges`).
- The slot committees leave nobody out only if the target number of committees does not cap their number
  (`SlotCommittees.EveryoneIsPlaced`).

## Model

Paths are relative to the repository root.

| member | source | states |
|---|---|---|
| EvmState.RunFrameAllowed | execution/src/crates/evm/src/evm/interpreter.py:236-279 | whatever program a frame runs and however deep it calls, success means: the sum of all balances, if below 2^256, is unchanged, the refunds reported cover every refund later writes could take back, and in static mode the state is identical and no log was emitted |
| EvmState.CallConservesEther | execution/src/crates/evm/src/evm/interpreter.py:188-234 | a top-level call never changes the sum of balances if that is below 2^256, and never returns more gas than it got; if it fails, the state is the state before, with no refund and no log |
| EvmState.StaticCallIsPure | execution/src/crates/evm/src/evm/interpreter.py:782-806 | EIP-214: STATICCALL leaves state and logs as they were, whatever code, calls and creates run below it |
| EvmState.FailedCallIsIsolated | execution/src/crates/evm/src/evm/interpreter.py:729-806 | CALL, DELEGATECALL and STATICCALL push 0 or 1, and with 0 the state and the logs are those before the opcode |
| EvmState.FailedCreateIsIsolated | execution/src/crates/evm/src/evm/interpreter.py:808-872 | a create that fails leaves the state as it was, or with the creator's nonce raised by one, and reports an address exactly on success |
| EvmState.FailedFrame | execution/src/crates/evm/src/evm/interpreter.py:236-279 | a frame that does not succeed reports neither refund nor logs, although it may have collected both before |
| EvmState.StaticValueRaises | execution/src/crates/evm/src/evm/interpreter.py:657-660 | a call that moves value in static mode raises, unless the depth limit answers first; either way nothing has happened |
| EvmState.StepAllowed | execution/src/crates/evm/src/evm/interpreter.py:317-352 | one opcode, with everything that runs below it, keeps the total of balances if that is below 2^256, and changes the refund counter by no less than the debt it creates; in static mode it changes no state and logs nothing |
| Evm.CallCommon | execution/src/crates/evm/src/evm/interpreter.py:641-727 | a call never leaves its frame with more gas than before, and if the callee fails the state is exactly the state before the opcode |
| Evm.ForwardCall | execution/src/crates/evm/src/evm/interpreter.py:671-727 | the same for the part after the base price: gas is forwarded, the unused part and no more comes back, failure rolls back |
| Evm.RunCallee | execution/src/crates/evm/src/evm/interpreter.py:681-722 | when the transfer is refused or the callee fails, the value transfer and everything the callee wrote are undone |
| Evm.CreateCommon | execution/src/crates/evm/src/evm/interpreter.py:808-872 | a create never leaves more gas than before; failing, it changes nothing but possibly the creator's nonce |
| Evm.Deploy | execution/src/crates/evm/src/evm/interpreter.py:826-872 | after the address is known to be free, a failure to deploy leaves the state with the nonce bump and nothing else |
| Evm.RunInitCode | execution/src/crates/evm/src/evm/interpreter.py:828-862 | init code that fails is rolled back completely, the endowment and the nonce of the new account included |
| Evm.Step | execution/src/crates/evm/src/evm/interpreter.py:317-352 | an opcode that goes on either used gas or moved exactly one byte ahead, and gas never grows: the measure under which every program halts |
| Evm.RunLoop | execution/src/crates/evm/src/evm/interpreter.py:236-279 | running from any position ends, with at most the gas it had |
| Evm.RunFrame | execution/src/crates/evm/src/evm/interpreter.py:236-279 | every frame of every program ends, with at most the gas it was given |
| Evm.LocalKeeps | execution/src/crates/evm/src/evm/interpreter.py:399-639 | an opcode that stays inside its frame is never free and changes only stack, memory, position and gas: no log, no refund, no return data |
| EvmFrame.ReachableFrames | execution/src/crates/evm/src/evm/interpreter.py:236-279 | after any number of opcodes of any program: the position is an instruction start or the end of the code, the stack is within its limit, gas left plus the price of the memory is at most the gas given, and so 3w + w*w/512 of w memory words never exceeds it |
| EvmFrame.StepWorth | execution/src/crates/evm/src/evm/interpreter.py:394-397 | no opcode, calls and creates included, raises gas left plus the price of the memory held: every word of memory is paid for exactly |
| EvmFrame.StepContinues | execution/src/crates/evm/src/evm/interpreter.py:317-352 | an opcode at an instruction start leads to the next instruction, the end of the code, or a valid jump target, never into PUSH data |
| EvmFrame.ChildGasBound | execution/src/crates/evm/src/evm/interpreter.py:641-872 | whatever frame an opcode starts, by a call or a create, the context handed to it has strictly less gas than the parent had before the opcode, one more level of depth below the limit, and static mode if the parent has it |
| EvmFrame.CalleeGas | execution/src/crates/evm/src/evm/interpreter.py:641-722 | a callee's frame gets what is forwarded and the stipend, in all less than the caller had; what is forwarded is at most the request, at most 63/64 of what is left rounded up, and less than the request only when it is exactly all but one 64th |
| EvmFrame.InitCodeGas | execution/src/crates/evm/src/evm/interpreter.py:808-862 | an init code's frame gets exactly all but one 64th of what is left after at least 32000 were charged, and is never started in static mode |
| EvmFrame.StepRunsChild | execution/src/crates/evm/src/evm/interpreter.py:641-872 | that frame is the one the opcode runs: what the parent takes over as return data, logs and refund is its result, and an opcode that starts none takes over no log |
| EvmCalls.CallMeaning | execution/src/crates/evm/src/evm/interpreter.py:641-806 | the three message calls from the words on the stack to frame and state afterwards, for every stack, memory and state: the price in gas, the child's context, the stipend and the forwarded share, and then the gas that comes back (the least of what the callee left and what was forwarded), the flag, the bytes copied to memory and no others, return data, logs, refund and state; the same for a missing callee, a precompile, a balance too small and the depth limit, and exactly when the opcode raises |
| EvmCalls.CreateMeaning | execution/src/crates/evm/src/evm/interpreter.py:808-891 | both creates likewise: price, address, nonce, the endowed account, the init code's context with all gas but one 64th, the gas that comes back, the code stored, and every case in which nothing is created |
| EvmFrame.RunIsSteps | execution/src/crates/evm/src/evm/interpreter.py:236-279 | every frame ends after some number of opcodes, and its result is what the last of them comes to: running off the code and STOP succeed without output, RETURN gives its bytes, REVERT its bytes and the gas left, and every fault loses all gas, refund and logs |
| EvmOpcodes.SstoreMeaning | execution/src/crates/evm/src/evm/interpreter.py:573-583 | price and refund of a storage write for every original, current and new value as EIP-2200 and EIP-3529 have them; exactly one slot changes, and its original value does not |
| EvmOpcodes.SstoreThenSload | execution/src/crates/evm/src/evm/interpreter.py:567-583 | what SSTORE stored, SLOAD pushes |
| EvmOpcodes.StoreThenLoad | execution/src/crates/evm/src/evm/interpreter.py:550-559 | what MSTORE stored, MLOAD pushes |
| EvmOpcodes.MloadMeaning | execution/src/crates/evm/src/evm/interpreter.py:550-553 | pushes the big-endian word of 32 bytes of a memory that is zero where nothing was written, and pays for what it grows |
| EvmOpcodes.MstoreMeaning | execution/src/crates/evm/src/evm/interpreter.py:555-559 | exactly these 32 bytes of memory become the word |
| EvmOpcodes.Mstore8Meaning | execution/src/crates/evm/src/evm/interpreter.py:561-565 | exactly one byte of memory becomes the low byte of the word |
| EvmOpcodes.KeccakMeaning | execution/src/crates/evm/src/evm/interpreter.py:480-485 | pushes the hash of exactly the bytes named |
| EvmOpcodes.CopyMeans | execution/src/crates/evm/src/evm/interpreter.py:509-526 | CALLDATACOPY and CODECOPY write exactly the bytes named, zeros beyond the end of the source |
| EvmOpcodes.ReturndatacopyMeans | execution/src/crates/evm/src/evm/interpreter.py:534-542 | RETURNDATACOPY writes exactly the bytes named, and raises exactly if some of them do not exist |
| EvmOpcodes.CalldataloadMeaning | execution/src/crates/evm/src/evm/interpreter.py:502-504 | pushes 32 bytes of calldata, zeros beyond its end |
| EvmOpcodes.StateReadMeaning | execution/src/crates/evm/src/evm/interpreter.py:490-491 | BALANCE and SLOAD push what the state holds now |
| EvmOpcodes.LogMeaning | execution/src/crates/evm/src/evm/interpreter.py:622-634 | one entry more, with the frame's address, the topics from the top of the stack on and the bytes of memory; nothing in static mode |
| EvmOpcodes.HaltMeaning | execution/src/crates/evm/src/evm/interpreter.py:607-617 | RETURN and REVERT hand back exactly the bytes named |
| EvmOpcodes.PushMeaning | execution/src/crates/evm/src/evm/interpreter.py:399-403 | pushes the bytes behind the opcode that exist, and steps over all of them |
| EvmOpcodes.SwapMeaning | execution/src/crates/evm/src/evm/stack.py:34-39 | the dispatched SWAPn exchanges the top and the item n below, and no other |
| EvmOpcodes.DupMeaning | execution/src/crates/evm/src/evm/stack.py:31-32 | the dispatched DUPn repeats the n-th item from the top |
| EvmOpcodes.JumpiMeaning | execution/src/crates/evm/src/evm/interpreter.py:589-593 | jumps exactly for a nonzero condition, only to entries of the jump table |
| EvmOpcodes.ReadingMeaning | execution/src/crates/evm/src/evm/interpreter.py:487-532 | which opcode without operands pushes which value of frame and context; PC its own position, GAS what is left after it |
| EvmOpcodes.ArithmeticMeaning | execution/src/crates/evm/src/evm/interpreter.py:405-479 | the opcodes with two operands: modular sums, differences and products, quotients and remainders with 0 for a divisor of 0, comparisons, bitwise operations, bytes and shifts; both operands go, the answer takes their place, and the price is 5 for the multiplicative ones and 3 for the others |
| EvmFrame.StartsAreDisjoint | execution/src/crates/evm/src/evm/utils.py:73-86 | no instruction of the linear disassembly starts inside another, in particular not inside PUSH data |
| EvmFrame.NextStart | execution/src/crates/evm/src/evm/utils.py:73-86 | after an instruction comes the next instruction of the disassembly, or the end |
| EvmFrame.JumpdestsAreStarts | execution/src/crates/evm/src/evm/utils.py:73-86 | the jump table holds exactly the JUMPDEST bytes at instruction starts |
| EvmFrame.PushDataIsData | execution/src/crates/evm/src/evm/utils.py:73-86 | the n bytes behind a PUSHn are neither instructions nor jump targets, whatever they are, and the next instruction is right behind them |
| EvmFrame.StartHasPredecessor | execution/src/crates/evm/src/evm/utils.py:73-86 | there are no other instructions: each is the first or follows another |
| CallFrame.CollectJumpdestOffsets | execution/src/crates/evm/src/evm/utils.py:73-86 | the scanning loop returns that jump table |
| EvmArithmetic.BinaryMeaning | execution/src/crates/evm/src/evm/interpreter.py:405-447 | a binary opcode replaces the two top items by one result of `next op top` |
| EvmArithmetic.BinaryLaws | execution/src/crates/evm/src/evm/interpreter.py:413-447 | SUB undoes ADD modulo 2^256; DIV and MOD are quotient and remainder, zero for divisor zero; LT is 1 exactly if `next` is smaller, and GT is its mirror image; AND, OR and XOR act on each bit |
| EvmArithmetic.ComparisonLaws | execution/src/crates/evm/src/evm/interpreter.py:428-435 | EQ, LT and GT push 1 exactly for equal, smaller and larger `next`, and 0 otherwise |
| EvmArithmetic.BitwiseBit | execution/src/crates/evm/src/evm/interpreter.py:440-447 | bit i of a bitwise result is the operation applied to bit i of the operands, for all i |
| EvmArithmetic.BitwiseBound | execution/src/crates/evm/src/evm/interpreter.py:440-447 | bitwise results of n-bit numbers have n bits, so no wrapping takes place |
| EvmArithmetic.SarMeaning | execution/src/crates/evm/src/evm/interpreter.py:471-478 | SAR divides the signed reading by a power of two and rounds towards minus infinity; from 256 on it gives 0 or -1 |
| EvmArithmetic.ShiftMeaning | execution/src/crates/evm/src/evm/interpreter.py:452-469 | SHR is the quotient by a power of two, and BYTE is that byte of the 32-byte big-endian form |
| Interpreter.Interpreter.Execute | execution/src/crates/evm/src/evm/interpreter.py:181-186 | the in-place interpreter restores its snapshot when the frame failed, and does what the functional one does |
| Interpreter.Interpreter.Call | execution/src/crates/evm/src/evm/interpreter.py:188-234 | snapshot, transfer, run, restore: result and state are those of the functional top-level call |
| Interpreter.Interpreter.ExecuteFrame | execution/src/crates/evm/src/evm/interpreter.py:236-279 | the fetch loop over mutable frame and state ends with the result, and on success the state, of the functional run |
| Interpreter.Interpreter.ExecuteOpcode | execution/src/crates/evm/src/evm/interpreter.py:317-352 | executing one opcode in place changes frame and state exactly as one functional step does, and raises exactly when it does |
| Interpreter.Interpreter.OpSstore | execution/src/crates/evm/src/evm/interpreter.py:573-583 | SSTORE in place: static check, estimate, charge, refund, write; an exception leaves frame and state as the functional version has them |
| Interpreter.Interpreter.OpCall | execution/src/crates/evm/src/evm/interpreter.py:729-806 | the three call opcodes in place: operands, memory, call, pushed flag and logs |
| Interpreter.Interpreter.OpCreate | execution/src/crates/evm/src/evm/interpreter.py:874-891 | the two create opcodes in place |
| Interpreter.Interpreter.CallCommon | execution/src/crates/evm/src/evm/interpreter.py:641-727 | CALL, DELEGATECALL and STATICCALL in place, over a shared state with snapshots |
| Interpreter.Interpreter.ForwardCall | execution/src/crates/evm/src/evm/interpreter.py:671-727 | forwards gas, runs the callee, takes back unused gas, refunds, logs and return data |
| Interpreter.Interpreter.RunCallee | execution/src/crates/evm/src/evm/interpreter.py:681-722 | snapshot, transfer, precompile or child frame, and restore on failure |
| Interpreter.Interpreter.CreateCommon | execution/src/crates/evm/src/evm/interpreter.py:808-872 | CREATE and CREATE2 in place |
| Interpreter.Interpreter.Deploy | execution/src/crates/evm/src/evm/interpreter.py:826-872 | gas for the init code, its run, and what the creator's frame takes over from it |
| Interpreter.Interpreter.RunInitCode | execution/src/crates/evm/src/evm/interpreter.py:828-862 | snapshot, endowment, init code, storing the code, and restore on failure |
| CallFrame.CallFrame.DispatchStack | execution/src/crates/evm/src/evm/interpreter.py:399-605 | the handlers that work on the stack and position alone, dispatched in place, agree with the functional ones, exceptions included |
| CallFrame.CallFrame.DispatchMemory | execution/src/crates/evm/src/evm/interpreter.py:480-639 | the handlers that also touch memory and gas agree with the functional ones, exceptions included |
| CallFrame.CallFrame.OpPush | execution/src/crates/evm/src/evm/interpreter.py:399-403 | pushes the immediate bytes and steps over them |
| CallFrame.CallFrame.JumpTo | execution/src/crates/evm/src/evm/interpreter.py:636-639 | jumps only to an offset in the jump table, and raises otherwise |
| CallFrame.CallFrame.OpJumpi | execution/src/crates/evm/src/evm/interpreter.py:589-593 | jumps exactly if the condition is not zero |
| CallFrame.CallFrame.OpLog | execution/src/crates/evm/src/evm/interpreter.py:622-634 | raises in static mode, charges for topics and data, and appends one log entry |
| CallFrame.CallFrame.OpReturndatacopy | execution/src/crates/evm/src/evm/interpreter.py:534-542 | raises beyond the return data instead of padding |
| CallFrame.Stack.Push | execution/src/crates/evm/src/evm/stack.py:16-19 | appends the value modulo 2^256, or raises at 1024 items and changes nothing |
| CallFrame.Stack.Pop | execution/src/crates/evm/src/evm/stack.py:21-24 | takes the last item, or raises on an empty stack |
| CallFrame.Stack.Dup | execution/src/crates/evm/src/evm/stack.py:31-32 | repeats the item at a depth; underflow is checked before overflow |
| CallFrame.Stack.Swap | execution/src/crates/evm/src/evm/stack.py:34-39 | exchanges the top with the item at a depth and leaves all others |
| FrameMemory.ReadIsLookup | execution/src/crates/evm/src/evm/memory.py:41-45 | reading is looking up in an infinite map of bytes that starts as zeros |
| FrameMemory.WriteIsUpdate | execution/src/crates/evm/src/evm/memory.py:47-50 | writing changes exactly the addressed bytes of that map |
| FrameMemory.ExpandKeepsBytes | execution/src/crates/evm/src/evm/memory.py:32-39 | growing changes no byte of that map |
| FrameMemory.ReadAfterWrite | execution/src/crates/evm/src/evm/memory.py:41-50 | what was written is read back |
| FrameMemory.ExpansionIsPaid | execution/src/crates/evm/src/evm/memory.py:24-39 | the price of growing plus the price of the old size is the price of the new size |
| FrameMemory.Memory.ExpandForAccess | execution/src/crates/evm/src/evm/memory.py:32-39 | grows the buffer to the end of the access, or not at all |
| FrameMemory.Memory.ReadBytes | execution/src/crates/evm/src/evm/memory.py:41-45 | grows, then answers the bytes |
| FrameMemory.Memory.WriteBytes | execution/src/crates/evm/src/evm/memory.py:47-50 | grows, then overwrites in place |
| Gas.MemoryExpansionCost | execution/src/crates/evm/src/evm/gas.py:103-110 | the cost is what is missing to the total price of the larger size, and nothing when nothing grows |
| Gas.MemoryCostMonotone | execution/src/crates/evm/src/evm/gas.py:103-104 | more words never cost less |
| Gas.WordsForSize | execution/src/crates/evm/src/evm/utils.py:28-29 | the least number of 32-byte words that holds the size |
| Gas.GasMeter.Charge | execution/src/crates/evm/src/evm/gas.py:122-127 | takes the amount or raises and takes nothing |
| SlotStorage.NetMetering | execution/src/crates/evm/src/evm/storage.py:31-74 | EIP-2200 and EIP-3529: over any writes to clean slots, cost less refund is 100 per write plus a sum over slots of a price that depends only on first and last value, and the refund is never negative |
| SlotStorage.RunWritesTotals | execution/src/crates/evm/src/evm/storage.py:31-74 | the same from any slots: cost less refund is 100 per write plus the change of the net prices, and the refund is at least the change of what can be reclaimed |
| SlotStorage.WriteNetPrice | execution/src/crates/evm/src/evm/storage.py:31-63 | one write moves the net price of its slot by its cost less its refund less 100 |
| SlotStorage.WriteReclaimable | execution/src/crates/evm/src/evm/storage.py:31-63 | one write never takes back more refund than its slot still holds |
| SlotStorage.OriginalsKept | execution/src/crates/evm/src/evm/storage.py:65-74 | writes never change the original value the metering compares with |
| SlotStorage.CommitIsClean | execution/src/crates/evm/src/evm/storage.py:84-90 | committing makes the slots clean and changes no current value |
| SlotStorage.Storage.EstimateSstoreCost | execution/src/crates/evm/src/evm/storage.py:31-63 | the nested branches and the running refund give the cost and refund of the table of cases |
| SlotStorage.Storage.Set | execution/src/crates/evm/src/evm/storage.py:65-74 | writes the current value, keeps the original, and answers cost and refund of the slot before the write |
| SlotStorage.Storage.Commit | execution/src/crates/evm/src/evm/storage.py:84-90 | every slot takes its current value as original, zero slots are dropped, in one pass over the dictionary |
| SlotStorage.Storage.Clone | execution/src/crates/evm/src/evm/storage.py:92-93 | the copy is a new object with equal slots |
| World.TransferBalanced | execution/src/crates/evm/src/evm/state.py:77-84 | a transfer between any two accounts, equal ones too, keeps the total of balances if that is below 2^256 |
| World.TransferMoves | execution/src/crates/evm/src/evm/state.py:70-84 | the sender pays and the recipient gets the value, unless the sender has too little, and nobody else and nothing else changes; to oneself it is no change; the recipient exists afterwards |
| World.WritesAreLocal | execution/src/crates/evm/src/evm/state.py:44-114 | each write changes one field of one account, creating it if it was missing, and a slot written is read back |
| World.StoreBalanced | execution/src/crates/evm/src/evm/state.py:112-114 | a storage write keeps the total of balances (stated, as for transfers, for totals below 2^256) and changes the outstanding refund debt by at most the refund it reports |
| World.AddBalanceTotal | execution/src/crates/evm/src/evm/state.py:67-68 | an addition that stays within 2^256 moves balance and total by exactly the amount |
| World.BalanceBelowTotal | execution/src/crates/evm/src/evm/state.py:60-62 | no balance, and no sum of two, exceeds the total |
| World.CommitTotals | execution/src/crates/evm/src/evm/state.py:24-31 | committing keeps the total of balances and settles every refund debt |
| World.CommitKeepsAccounts | execution/src/crates/evm/src/evm/state.py:24-31 | committing keeps nonce, balance, code and current slots of every account, although empty accounts are removed, and leaves clean slots; the accounts kept are exactly those with a nonce, a balance, code or a slot in use |
| World.DebtFreeMeaning | execution/src/crates/evm/src/evm/storage.py:31-63 | a state owes no refund exactly if no slot that was nonzero at commit is now zero |
| StateDb.StateDB.Snapshot | execution/src/crates/evm/src/evm/state.py:18-19 | a deep copy that shares no object with the state |
| StateDb.StateDB.Restore | execution/src/crates/evm/src/evm/state.py:21-22 | goes back to the snapshot's value and leaves the snapshot usable |
| StateDb.StateDB.Clone | execution/src/crates/evm/src/evm/state.py:15-16 | an equal state without shared objects |
| StateDb.StateDB.CommitTransaction | execution/src/crates/evm/src/evm/state.py:24-31 | commits every storage in place and removes the empty accounts |
| StateDb.StateDB.Accounts | execution/src/crates/evm/src/evm/state.py:33-39 | lists the accounts by ascending address as copies that share nothing with the state, without the empty ones unless they are asked for |
| StateDb.StateDB.GetOrCreateAccount | execution/src/crates/evm/src/evm/state.py:47-52 | answers the account object itself, filing a new empty one if need be; no other account changes |
| StateDb.StateDB.CanDeployTo | execution/src/crates/evm/src/evm/state.py:54-58 | an address is free exactly if it has neither nonce nor code |
| StateDb.StateDB.SubtractBalance | execution/src/crates/evm/src/evm/state.py:70-75 | refuses an amount above the balance, and otherwise takes it |
| StateDb.StateDB.Transfer | execution/src/crates/evm/src/evm/state.py:77-84 | moves the value or refuses and changes nothing in any balance |
| StateDb.StateDB.AddBalance | execution/src/crates/evm/src/evm/state.py:67-68 | adds modulo 2^256 |
| StateDb.StateDB.IncrementNonce | execution/src/crates/evm/src/evm/state.py:90-93 | raises the nonce modulo 2^256 |
| StateDb.StateDB.SetCode | execution/src/crates/evm/src/evm/state.py:99-100 | replaces the code of one account |
| StateDb.StateDB.GetStorage | execution/src/crates/evm/src/evm/state.py:102-106 | reads a slot without creating the account |
| StateDb.StateDB.EstimateSstore | execution/src/crates/evm/src/evm/state.py:108-110 | prices a write; a missing account is created by asking |
| StateDb.StateDB.SetStorage | execution/src/crates/evm/src/evm/state.py:112-114 | writes one slot of one account |
| StateDb.AccountObject.Clone | execution/src/crates/evm/src/evm/account.py:21-27 | a copy with its own storage object |
| Transactions.PricingFor | execution/src/crates/execution/src/execution/fee_market.py:38-86 | priced exactly if the offer covers the base fee; the price is then the largest one within the offer that leaves no more tip than offered, the base fee is the block's, and the rest is the tip |
| Transactions.ValidatedCanPay | execution/src/crates/execution/src/execution/tx_validation.py:101-156 | a validated sender can pay the effective price for the whole gas limit and the value on top; the intrinsic gas fits, and the nonce is the account's |
| Transition.TransactionConservesEther | execution/src/crates/execution/src/execution/state_transition.py:122-165 | with less than 2^256 ether in all, applying any transaction changes the sum of all balances by exactly the base fee burnt; tip and burn add up to the price of the gas used |
| Transition.PrepaymentSucceeds | execution/src/crates/execution/src/execution/state_transition.py:122-128 | the assertion after the prepayment cannot fail, in any state; a transaction is rejected exactly with the error of its validation |
| Transition.TransactionGas | execution/src/crates/execution/src/execution/state_transition.py:135-141 | gas used lies between the gas consumed less the share the refund quotient allows (a fifth) and the gas consumed, which is at most the limit, and the receipt says the same |
| Transition.FailedTransactionOnlyPaysFees | execution/src/crates/execution/src/execution/state_transition.py:94-188 | a transaction that fails changes, of any account, only: the sender's nonce by one and balance by price times gas used, and the coinbase's balance by its fee; storage is committed, nothing else happens |
| Transition.TraceDebt | execution/src/crates/execution/src/execution/state_transition.py:128-141 | at the end of execution the refund counter is never negative, through all nested and failed frames |
| Transition.RunEffects | execution/src/crates/execution/src/execution/state_transition.py:30-92 | running the payload, create or message, keeps the total of balances if that is below 2^256; a failed run leaves state, refund and logs untouched |
| TransactionOutcome.TransactionOutcome | execution/src/crates/execution/src/execution/state_transition.py:94-188 | from the state before to result and state after: the payload runs on the gas limit less the gas before execution, for a sender that has paid for all gas in advance; gas used is what was consumed less the refund up to its cap; the burnt fee is the block's base fee times gas used, the coinbase gets the rest, the sender its unused gas, and no other account anything; with the receipt, field by field |
| TransactionOutcome.AppliedExactly | execution/src/crates/execution/src/execution/tx_validation.py:101-156 | a transaction is applied exactly if type, chain, signature, nonce, offer, proof, gas limit and balance allow it on the state before |
| TransactionOutcome.IntrinsicGasMeaning | execution/src/crates/execution/src/execution/intrinsic_gas.py:7-16 | 21000, 32000 for a create, 16 a byte of data less 12 for each zero, 2400 an address and 1900 a key of the access list |
| TransactionOutcome.MessageMeaning | execution/src/crates/evm/src/evm/interpreter.py:188-234 | a message moves its value and runs the recipient's code, or a precompile, in a frame with the sender as caller and origin; a failure leaves the state as it was |
| TransactionOutcome.CreateTransactionMeaning | execution/src/crates/execution/src/execution/state_transition.py:30-62 | a create endows the address, runs the data and stores what it returns; it fails on a taken address |
| TransactionOutcome.BlockBurnsBaseFee | execution/src/crates/execution/src/execution/block_executor.py:15-74 | on a chain with a base fee, executing a block lowers the sum of all balances by exactly the block's base fee times its gas used |
| StateTransition.StateJournal.Checkpoint | execution/src/crates/execution/src/execution/journal.py:14-16 | pushes a deep copy and answers its index |
| StateTransition.StateJournal.Revert | execution/src/crates/execution/src/execution/journal.py:18-24 | restores the state of any live checkpoint and drops it and all later ones; refuses other indexes and changes nothing |
| StateTransition.StateJournal.Commit | execution/src/crates/execution/src/execution/journal.py:26-29 | keeps the state and drops the checkpoint and all later ones |
| StateTransition.ApplyTransaction | execution/src/crates/execution/src/execution/state_transition.py:94-188 | in place: a rejection leaves the state exactly as it was, an acceptance gives the result and state of the functional transition |
| StateTransition.ExecuteCreateTransaction | execution/src/crates/execution/src/execution/state_transition.py:30-71 | a create transaction over the live state and interpreter |
| StateTransition.ExecuteMessageTransaction | execution/src/crates/execution/src/execution/state_transition.py:73-92 | a message transaction over the live state and interpreter |
| StateTransition.Validate | execution/src/crates/execution/src/execution/tx_validation.py:101-156 | validation reads the live state and answers the first error in the order of the checks, or the validated record |
| StateTransition.Settle | execution/src/crates/execution/src/execution/state_transition.py:135-188 | refund to the sender, fee to the coinbase, commit, and the receipt |
| BaseFee.FeeMonotone | execution/src/crates/execution/src/execution/base_fee.py:18-49 | more gas used never lowers the next base fee |
| BaseFee.FeeDirection | execution/src/crates/execution/src/execution/base_fee.py:18-49 | the fee stands still at the target, rises by at least one above it and never rises below it |
| BaseFee.FeeBounds | execution/src/crates/execution/src/execution/base_fee.py:18-49 | EIP-1559: up to twice the target a block changes the fee by at most one part in the denominator, or by one |
| BaseFee.FeeExtremes | execution/src/crates/execution/src/execution/base_fee.py:18-49 | these bounds are met by the empty block and by twice the target |
| BaseFee.FeeExact | execution/src/crates/execution/src/execution/base_fee.py:18-49 | the move of the fee in full, by the two inequalities that fix it: the largest n with n parts in target times denominator of fee times distance, and at least 1 upwards |
| BaseFee.FeeFloor | execution/src/crates/execution/src/execution/base_fee.py:18-49 | a fee at or above denominator - 1 stays there, and a lower one does not fall |
| BaseFee.NextBaseFee | execution/src/crates/execution/src/execution/base_fee.py:18-33 | the computation raises exactly for a negative fee or usage, or a target or denominator that is not positive |
| Blocks.BlockConservesEther | execution/src/crates/execution/src/execution/block_executor.py:15-74 | executing any block changes the total of balances by exactly the sum of the base fees burnt; fees and burn add up to what senders paid; gas used is within the block limit, and every receipt carries the running total |
| Blocks.AllGasBooks | execution/src/crates/execution/src/execution/block_executor.py:38-58 | for every list of transactions the running gas stays within the limit and the receipts' cumulative gas is the running total, whatever was executed |
| Blocks.ChainFeeFloor | execution/src/crates/execution/src/execution/block_validator.py:78-107 | along any valid chain of any length the base fee is never below the smaller of the initial fee and denominator - 1 |
| Blocks.ChainNumbers | execution/src/crates/execution/src/execution/block_validator.py:63-76 | along any valid chain numbers count up by one and time never runs backwards |
| ChainRules.ChainLinks | execution/src/crates/execution/src/execution/block_validator.py:63-107 | along any valid chain each header names its parent's hash, moves the gas limit by at most its share and carries the base fee the parent prescribes |
| ChainRules.BlockMeaning | execution/src/crates/execution/src/execution/block_executor.py:15-74 | a block is executed exactly if its header fits its parent and each transaction can be applied behind the ones before it; the result has the state, receipts, roots and totals they lead to |
| ChainRules.AppliedInOrder | execution/src/crates/execution/src/execution/block_executor.py:38-58 | a list of transactions is applied exactly if each of them is acceptable on the state the ones before it lead to, and fits the gas they leave |
| ChainRules.StructureMeaning | execution/src/crates/execution/src/execution/block_validator.py:22-121 | a block is well structured exactly if its header stands on its parent, its gas is that of the payload and of its receipts, one per transaction, each reporting that much more than the one before, and its roots are those of its contents |
| ChainRules.ExecutedIsStructured | execution/src/crates/execution/src/execution/block_validator.py:22-121 | with the receipts of its own execution, an executed block is well structured exactly if its header reports the gas used and commits to the results |
| ChainRules.BuilderMeaning | execution/src/crates/execution/src/execution/block_builder.py:30-94 | given a receipt per transaction, the builder answers the one well structured block that is as requested, and none only if there is none |
| BlockAccess.ApplyBlock | execution/src/crates/execution/src/execution/block_executor.py:15-74 | validates the block, executes it on a copy and stops at the first failure; result and state are those of the functional execution, and the state handed in never changes |
| BlockAccess.ExecuteAll | execution/src/crates/execution/src/execution/block_executor.py:38-58 | the loop over transactions, in place |
| BlockAccess.CheckReceiptTotals | execution/src/crates/execution/src/execution/block_validator.py:44-61 | the validator's walk accepts exactly the receipts whose cumulative gas is the running total and ends at the gas used |
| Mining.MinedBlockReplays | execution/src/crates/execution/src/rpc/block_access.py:152-222 | for any pool, limits and parent, independent execution of the previewed block on the parent's state accepts it and gives the same receipts, gas and results, and without a reward the same state and a valid structure |
| Mining.SelectReplays | execution/src/crates/execution/src/rpc/block_access.py:169-194 | the greedy selection, which passes over excluded, oversized and failing transactions, leaves the state and results that executing the included ones alone gives |
| Mining.SelectionIsGreedy | execution/src/crates/execution/src/rpc/block_access.py:169-194 | the included entries are those of the pool, in its order, that can be included behind the included ones before them: not excluded, below the maximum, within the gas left and accepted on the state these lead to; whatever can be included is |
| Mining.GreedyIsUnique | execution/src/crates/execution/src/rpc/block_access.py:169-194 | there is only one such choice |
| Mining.PreviewMeaning | execution/src/crates/execution/src/rpc/block_access.py:152-222 | the preview field by field: parent hash, number, time, gas limit, base fee, beneficiary, the transactions chosen, their receipts and gas, and the state with the reward |
| Mining.PreviewExists | execution/src/crates/execution/src/rpc/block_access.py:152-222 | exactly when a preview can be built: the reward is not negative, the extra data is short enough, and under EIP-1559 the parent's limit allows a target |
| Mining.RewardIsNotReplayed | execution/src/crates/execution/src/rpc/block_access.py:196-197 | the executor reaches the miner's state exactly if the reward is zero or invisible modulo 2^256 |
| BlockAccess.SelectTransactions | execution/src/crates/execution/src/rpc/block_access.py:169-194 | the greedy loop in place: a transaction that fails leaves no trace in the working state |
| ExecutionNode.PreviewOn | execution/src/crates/execution/src/rpc/block_access.py:152-222 | builds the preview over a copy of the parent's state, which it does not change |
| ExecutionNode.PreviewReplayable | execution/src/crates/execution/src/rpc/block_access.py:152-222 | every preview is a block the node may store: it replays on its parent, up to the reward |
| ExecutionNode.Node.BuildPendingPreview | execution/src/crates/execution/src/rpc/block_access.py:152-222 | the preview over the head, for the pool's transactions in their order |
| ExecutionNode.Node.MineBlock | execution/src/crates/execution/src/rpc/block_access.py:227-272 | stores the preview as the new head, with the records of its transactions, and removes them from the pool, or changes nothing; every stored block goes on replaying on the state stored with its parent |
| ExecutionNode.Node.Store | execution/src/crates/execution/src/rpc/block_access.py:95-99 | files a block under the next number and under its hash, and its transactions under theirs |
| ExecutionNode.Node.BlockByHash | execution/src/crates/execution/src/rpc/block_access.py:104-106 | finds a stored block with the hash exactly if there is one |
| ExecutionNode.Node.TransactionByHash | execution/src/crates/execution/src/rpc/block_access.py:119-121 | answers a transaction with the hash, the block and place it has there, its receipt and its first log, and nothing exactly if no stored block holds one |
| ChainIndex.FilingKeeps | execution/src/crates/execution/src/rpc/block_access.py:95-99 | filing a block keeps both indexes exact: everything stored is found under its hash, and whatever is found is where its record says |
| ChainIndex.RecordsFor | execution/src/crates/execution/src/rpc/block_access.py:244-262 | the loop with its running count makes one record per transaction, with its place, its receipt and the number of logs before it in the block |
| ChainIndex.LogPosition | execution/src/crates/execution/src/rpc/block_access.py:244-262 | log j of a transaction is log number logStart + j of its block |
| ChainIndex.PreviewNames | execution/src/crates/execution/src/rpc/block_access.py:152-222 | receipt i of a preview is about transaction i of its block |
| ExecutionNode.Node.Head | execution/src/crates/execution/src/rpc/block_access.py:91-93 | the record with the largest number |
| TxPool.Pool.Add | execution/src/crates/execution/src/rpc/txpool_access.py:81-103 | a known hash is refused; the same sender and nonce is replaced only if the price rule allows, keeping its place in the queue; otherwise a new entry gets the next number; both indexes change together or not at all |
| TxPool.Pool.Remove | execution/src/crates/execution/src/rpc/txpool_access.py:105-110 | removes exactly the entry with this hash, from both indexes |
| TxPool.Pool.ClearIncluded | execution/src/crates/execution/src/rpc/txpool_access.py:112-114 | removes exactly the included transactions |
| TxPool.Pool.PendingNonce | execution/src/crates/execution/src/rpc/txpool_access.py:60-64 | the first nonce from the confirmed one on that the sender has not queued |
| TxPool.Pool.Ordered | execution/src/crates/execution/src/rpc/txpool_access.py:66-67 | lists all entries in order of insertion |
| TxPool.OrderIsUnique | execution/src/crates/execution/src/rpc/txpool_access.py:66-67 | that order is determined by the entries |
| TxPool.ReplacementsCompound | execution/src/crates/execution/src/rpc/txpool_access.py:69-79 | along any chain of n allowed replacements, at whatever base fees, the tip grows at least by the n-th power of 1 + the bump percentage |
| TxPool.PricesCompound | execution/src/crates/execution/src/rpc/txpool_access.py:69-79 | as long as the base fee stays, so does the price |
| TxPool.ReplacementRaisesBoth | execution/src/crates/execution/src/rpc/txpool_access.py:69-79 | a replacement is allowed exactly if price and tip both reach the least whole number at or above the old one raised by the percentage |
| TxPool.JudgedByWhatIsPaid | execution/src/crates/execution/src/rpc/txpool_access.py:27-39 | the price a replacement is judged by is what validation prices the transaction at on a block of that base fee; a judged price below the base fee belongs to a transaction no such block accepts |
| Rlp.DecodeEncode | execution/src/crates/encoding/src/encoding/rlp.py:22-136 | decode(encode(v)) = v exactly if no string and no list payload in v is 55 bytes long; otherwise decoding fails |
| Rlp.EncodeDecode | execution/src/crates/encoding/src/encoding/rlp.py:66-136 | encode(decode(b)) = b for every accepted b, and nothing accepted contains a 55-byte payload |
| Rlp.FiftyFiveBytesAreLost | execution/src/crates/encoding/src/encoding/rlp.py:66-86 | a string of 55 bytes is encoded and never read back |
| Rlp.EncodeInjective | execution/src/crates/encoding/src/encoding/rlp.py:22-63 | different values have different encodings, 55-byte payloads included |
| Rlp.EncodePrefixFree | execution/src/crates/encoding/src/encoding/rlp.py:22-63 | no encoding is a proper prefix of another |
| Rlp.ParseItem | execution/src/crates/encoding/src/encoding/rlp.py:89-127 | the loop with a moving cursor computes the recursive decoder, errors included |
| Rlp.Parse | execution/src/crates/encoding/src/encoding/rlp.py:129-136 | one item and nothing after it |
| Bytes.FromMinimal | execution/src/crates/encoding/src/encoding/rlp.py:32-38 | the shortest big-endian form is read back |
| Bytes.MinimalFrom | execution/src/crates/encoding/src/encoding/rlp.py:32-38 | and every form without a leading zero is the shortest |
| Bytes.FromToBytes | execution/src/crates/evm/src/evm/utils.py:43-55 | a number that fits is read back from its fixed-width form |
| Bytes.ToFromBytes | execution/src/crates/evm/src/evm/utils.py:43-55 | fixed-width bytes are written back |
| TransactionCodec.RoundTrip | execution/src/crates/transactions/src/transactions/models.py:491-594 | a signed legacy, EIP-1559 or ZK transaction is decoded as itself exactly if its fields avoid 55-byte payloads and a legacy `v` agrees with its chain id |
| TransactionCodec.SigningPayloadBinds | execution/src/crates/transactions/src/transactions/models.py:179-193 | two transactions of any types with the same signing payload are the same but for their signatures |
| TransactionCodec.RecoveryId | execution/src/crates/transactions/src/transactions/models.py:223-235 | whenever `v` is accepted, the recovery number is 0 or 1 |
| HeaderCodec.RoundTrip | execution/src/crates/execution/src/execution/block_header.py:133-245 | a constructible header of 15 or 16 fields is decoded as itself exactly if none of its numbers takes 55 bytes |
| HeaderCodec.WordHeadersRoundTrip | execution/src/crates/execution/src/execution/block_header.py:133-245 | so every header whose numbers are words survives |
| HeaderCodec.HeaderAvoids55 | execution/src/crates/execution/src/execution/block_header.py:133-156 | no other field, nor the list itself, can be 55 bytes long |
| WireFormat.Eip155Vector | execution/src/crates/transactions/src/transactions/models.py:179-193 | the signing data of the example in EIP-155, byte by byte |
| WireFormat.RlpVectors | execution/src/crates/encoding/src/encoding/rlp.py:22-63 | published encodings of strings, lists and integers |
| WireFormat.StringForm | execution/src/crates/encoding/src/encoding/rlp.py:22-63 | the prefix of a string in every range of lengths below 65536 |
| WireFormat.ListForm | execution/src/crates/encoding/src/encoding/rlp.py:22-63 | the prefix of a list likewise, and the items in order behind it |
| WireFormat.LegacyLayout | execution/src/crates/transactions/src/transactions/models.py:203-218 | the nine items of a legacy transaction and their order |
| WireFormat.TypedLayout | execution/src/crates/transactions/src/transactions/models.py:333-338 | the type byte and the twelve items of an EIP-1559 transaction |
| WireFormat.ZkLayout | execution/src/crates/transactions/src/transactions/models.py:456-461 | the type byte and the fifteen items of a ZK transaction |
| WireFormat.SigningLayout | execution/src/crates/transactions/src/transactions/models.py:179-193 | what is signed, for each of the three types: no signature, with chain and two zeros under EIP-155, and with proof and public inputs for ZK |
| WireReading.TransactionAccepted | execution/src/crates/transactions/src/transactions/models.py:491-595 | exactly which bytes are read as which transaction: type byte and items in order, numbers possibly with leading zeros, destinations empty or 20 bytes, keys 32 bytes, proof types 0 to 2, priority within the maximum, chain at least 1 and named by `v`, no string of 55 bytes; everything else is refused |
| WireReading.HeaderAccepted | execution/src/crates/execution/src/execution/block_header.py:208-245 | exactly which bytes are read as which header |
| WireReading.EntriesExactly | execution/src/crates/transactions/src/transactions/models.py:110-127 | an access list is read only from its own encoding |
| WireReading.ChainExactly | execution/src/crates/transactions/src/transactions/models.py:223-235 | 27 and 28 name no chain, 35 + 2c and 36 + 2c name chain c unless it is 0, and the recovery number is what is added |
| WireFormat.HeaderLayout | execution/src/crates/execution/src/execution/block_header.py:133-156 | the items of a header and their order |
| Trie.RootBinds | execution/src/crates/state/src/state/trie.py:92-145 | without a hash collision, two tries in which nothing is hidden, in particular two without empty values, have the same root exactly if they have the same entries |
| Trie.EmptyRootOnlyForEmpty | execution/src/crates/state/src/state/trie.py:92-96 | only the empty trie has the empty root |
| Trie.BuildBinds | execution/src/crates/state/src/state/trie.py:115-145 | equal nodes, embedded or hashed, come from the same entries |
| Trie.BuildDetermined | execution/src/crates/state/src/state/trie.py:115-145 | a node does not depend on the order of its entries |
| Trie.ReferenceBinds | execution/src/crates/state/src/state/trie.py:108-113 | equal references, whether digests or short nodes themselves, stand for equal nodes |
| Trie.CompactInjective | execution/src/crates/state/src/state/trie.py:26-41 | the hex-prefix form gives back path and kind of node |
| Trie.NibblesInjective | execution/src/crates/state/src/state/trie.py:18-23 | the nibbles give back the bytes |
| WireFormat.HexPrefixVectors | execution/src/crates/state/src/state/trie.py:26-41 | published hex-prefix forms of odd and even paths, extensions and leaves |
| WireFormat.NibblesAt | execution/src/crates/state/src/state/trie.py:18-23 | nibble 2i is the high half of byte i, nibble 2i + 1 the low one |
| Trie.LcpFrom | execution/src/crates/state/src/state/trie.py:44-52 | all paths agree up to the result and not beyond it |
| TrieEmptyValues.RootShows | execution/src/crates/state/src/state/trie.py:92-145 | for any two tries, empty values included and barring a hash collision: the roots are the same exactly if the entries that show are, where one with an empty value shows exactly if no other entries fork at its path |
| TrieEmptyValues.NodeOfVisible | execution/src/crates/state/src/state/trie.py:115-145 | leaving the entries out that do not show changes neither the node nor any string hashed below it |
| TrieEmptyValues.EmptyValueHidden | execution/src/crates/state/src/state/trie.py:115-145 | adding an entry with an empty value leaves the root unchanged exactly if other entries fork at its path |
| TrieStore.CommitmentBinds | execution/src/crates/state/src/state/trie.py:92-106 | two maps commit to the same root exactly if they are equal, whatever order they are listed in and for any collision-free key transform |
| TrieWalk.ReferencesResolve | execution/src/crates/state/src/state/trie.py:92-145 | after a commit every digest that occurs as a reference in a stored node, as the child of an extension or in a slot of a branch, is in the store and leads to a node that was hashed to it |
| TrieWalk.FollowFinds | execution/src/crates/state/src/state/trie.py:115-145 | for every path: following it through the nodes, stored or embedded, finds the value put there, or nothing if none was |
| TrieWalk.CommittedEntriesFound | execution/src/crates/state/src/state/trie.py:92-145 | barring a hash collision, reading through the store from the root of a commit gives back every entry of the map, and nothing under any other key |
| TrieShape.CommitmentIsTheTree | execution/src/crates/state/src/state/trie.py:92-145 | without a word of how nodes are built: the root leads to a canonical tree (leaves, extensions with a path that lead to branches, branches with two of seventeen slots in use, references that are the node below 32 bytes and its hash otherwise) in which every path finds its value, and any such tree, in any store, is that one |
| TrieShape.OnlyOneTree | execution/src/crates/state/src/state/trie.py:92-145 | two canonical trees in which every path finds the same value are the same string |
| TrieShape.BuildIsCanonical | execution/src/crates/state/src/state/trie.py:115-145 | the node built for entries that all hold a value is canonical, down to the leaves |
| TrieStore.MerklePatriciaTrie.Commit | execution/src/crates/state/src/state/trie.py:92-106 | rebuilds the node store from the entries, answers the root, and files every node that is referred to by digest |
| TrieStore.MerklePatriciaTrie.BuildNode | execution/src/crates/state/src/state/trie.py:115-145 | the recursion that fills branches and stores children ends and computes the functional node |
| TrieStore.MerklePatriciaTrie.StoreReference | execution/src/crates/state/src/state/trie.py:108-113 | a node of 32 bytes or more is filed under its digest, a shorter one stands for itself |
| TrieStore.MerklePatriciaTrie.Update | execution/src/crates/state/src/state/trie.py:66-67 | replaces one entry and leaves root and store to the next commit |
| TrieStore.MerklePatriciaTrie.Delete | execution/src/crates/state/src/state/trie.py:69-70 | removes one entry and leaves root and store to the next commit |
| TrieStore.LongestCommonPrefix | execution/src/crates/state/src/state/trie.py:44-52 | the scan bounded by the shortest path finds the longest common prefix |
| StateRoot.StateRootBinds | execution/src/crates/execution/src/execution/trie.py:56-82 | without a hash collision, two states have the same root exactly if every address has the same nonce, balance, code and nonzero slots; empty and missing accounts are the same |
| StateRoot.MapRootBinds | execution/src/crates/state/src/state/backends/mpt.py:135-145 | the same for a single trie with hashed keys |
| StateRoot.AccountBytesBind | execution/src/crates/state/src/state/serialization.py:10-18 | the serialized account determines nonce, balance, code and storage |
| WireFormat.AccountLayout | execution/src/crates/state/src/state/serialization.py:10-18 | nonce, balance, storage root and code hash, in this order |
| WireFormat.StateKeys | execution/src/crates/state/src/state/backends/mpt.py:135-145 | accounts that are not empty lie under their 20 bytes, slots that are not zero under their 32 bytes as encoded integers |
| StateRoot.AnyListingHasRoot | execution/src/crates/state/src/state/backends/mpt.py:135-145 | the root does not depend on the order in which a commit goes through the accounts |
| Pbft.RunKeepsInv | consensus/src/consensus/networking/bft.py:113-231 | the invariant holds after any proposals, deliveries, drops, duplications, delays and replays of buffered votes, in any order |
| Pbft.StepKeepsInv | consensus/src/consensus/networking/bft.py:113-231 | every single event keeps it, and no node's height falls |
| Pbft.FinalizedMeansCertified | consensus/src/consensus/networking/bft.py:203-231 | in every reachable state a block that any node finalized or stored has a certificate: commits, precommits and prevotes of more than two thirds of the members each, signatures of as many, no transaction twice, and every prevoter validated it against its own head |
| Pbft.ChainOfEvidence | consensus/src/consensus/networking/bft.py:157-203 | a single commit vote for a block means a quorum of precommits and a quorum of prevotes |
| Pbft.PrevotersValidated | consensus/src/consensus/networking/bft.py:69-80 | every prevote that counts was sent by an honest member whose head was the block's parent at that moment |
| Pbft.QuorumsOverlap | consensus/src/consensus/networking/bft.py:39-41 | two blocks certified by one committee of n: at least 2q - n, which is at least n/3 + 1, members prevoted both, each on its own head |
| Pbft.Quorum | consensus/src/consensus/networking/bft.py:39-41 | the least number above two thirds of the members |
| Pbft.HeadIsCertified | consensus/src/consensus/networking/node.py:376-400 | the head of every node is a stored block with a certificate, filed under its hash and under the node's height |
| Pbft.OnCommitKeeps | consensus/src/consensus/networking/bft.py:203-231 | a commit vote, finalization and filing of the block included, keeps the invariant |
| Pbft.OnProposeKeeps | consensus/src/consensus/networking/bft.py:131-156 | so does a proposal, whether it is validated or not |
| PbftAgreement.DisagreementIff | consensus/src/consensus/networking/bft.py:131-231 | for every network, committee of n with quorum q, and set d of its h honest members: a run that hands two blocks of one height to members of d only can finalize both exactly if h >= q and d has at least 2q - h members |
| PbftAgreement.CommitteeDisagreesIff | consensus/src/consensus/networking/bft.py:131-231 | with proposals left free, a committee can finalize two blocks of one height exactly if its honest members reach a quorum |
| PbftAgreement.AgreementHolds | consensus/src/consensus/networking/bft.py:131-231 | agreement: in every run in which fewer than 2q - n of the n members are handed two blocks of one height, two finalized blocks of the committee and height are the same |
| PbftAgreement.DisagreementNeeds | consensus/src/consensus/networking/bft.py:131-231 | in every run, two finalized blocks of one committee and height mean that the h honest members reach the quorum q and that at least 2q - h of them were handed two |
| PbftAgreement.PrevotersWereHanded | consensus/src/consensus/networking/bft.py:131-156 | everybody whose prevote a certificate counts is an honest member that was handed the block, and they are a quorum |
| PbftAgreement.AgreementFails | consensus/src/consensus/networking/bft.py:139-147 | a run of two honest members, who prevote and finalize two blocks of one height, because the flag that stops a second prevote is kept per block |
| PbftRuns.Finalize | consensus/src/consensus/networking/bft.py:58-231 | liveness: from every reachable state in which more than two thirds of a committee have accepted a block, the run can be continued, without another proposal, until all who accepted it have finalized it, whatever votes they had buffered |
| PbftRuns.FinalizableIff | consensus/src/consensus/networking/bft.py:58-231 | in every reachable state: some continuation without another proposal finalizes a block somewhere exactly if more than two thirds of its committee have accepted it already |
| PbftRuns.FinalizeBoth | consensus/src/consensus/networking/bft.py:131-231 | from any initial state, two first blocks proposed to two quorums are both finalized by them, without any other proposal |
| PbftGrowth.ChainGrows | consensus/src/consensus/networking/bft.py:69-231 | a chain can grow to any length: for any lists of transactions without repeats, if more than two thirds of a committee are honest, some run makes blocks of them the head of every honest member, one on top of the other |
| PbftGrowth.NextBlock | consensus/src/consensus/networking/bft.py:131-231 | from any reachable state: a block on top of the common head of more than two thirds, proposed to them, becomes the head of all of them |
| PbftTrack.NoVoteIsLost | consensus/src/consensus/networking/bft.py:58-67 | in every run, whatever member's vote a node has been delivered, before its proposal or after, is counted in the session or still waits to be counted |
| PbftGrowth.PoolIsExact | consensus/src/consensus/networking/node.py:376-400 | in every run a node's pool holds exactly the transactions it had at first that no block it stores contains |
| PbftGrowth.GossipMeaning | consensus/src/consensus/networking/node.py:310-318 | a gossiped block is stored exactly if it is new and signed by more than two thirds, and becomes the head unless the node is ahead |
| PbftGrowth.FinalReaches | consensus/src/consensus/networking/node.py:310-318 | any block finalized anywhere can be brought to any node, which then stores it and is not behind it |
| PbftProgress.RunIsPrompt | consensus/src/consensus/networking/bft.py:58-231 | in every reachable state a session that has reached a quorum has sent the next vote or has finalized, and whoever accepted a proposal is an honest member that has sent its prevote or has a task that will |
| PbftProgress.StepIsPrompt | consensus/src/consensus/networking/bft.py:157-231 | one event from such a state keeps this, and takes back no recorded vote, no sent vote, no finalized block and no pending prevote |
| PbftService.Service.OnPropose | consensus/src/consensus/networking/bft.py:131-157 | the handler in place: the session is opened before the block is validated, and buffered votes move to their replay |
| PbftService.Service.ValidateBlock | consensus/src/consensus/networking/bft.py:69-80 | accepts exactly the blocks that extend the node's own head with the committee they name and without repeated transactions |
| PbftService.Service.OnPrevote | consensus/src/consensus/networking/bft.py:157-178 | counts the vote, and at a quorum sends a precommit once |
| PbftService.Service.OnPrecommit | consensus/src/consensus/networking/bft.py:180-201 | counts the vote, and at a quorum sends a commit once |
| PbftService.Service.OnCommit | consensus/src/consensus/networking/bft.py:203-231 | counts the vote, and at a quorum finalizes once |
| PbftService.Service.RunTask | consensus/src/consensus/networking/bft.py:58-67 | a replay goes through the buffered votes one by one while other events come between |
| PbftService.Service.ApplyFinalizedBlock | consensus/src/consensus/networking/node.py:376-400 | files the block, moves the head unless the block is behind it, and drops its transactions from the pool |
| PbftService.Service.OnGossip | consensus/src/consensus/networking/node.py:310-318 | a gossiped block is stored unless it is known or its certificate is too small |
| Routing.FindRoute | consensus/src/consensus/networking/node.py:60-76 | for non-negative latencies the search ends; it returns an existing path with its summed latency, at most that of any other path, and nothing exactly if the recipient cannot be reached |
| Routing.CheapestIsOptimal | consensus/src/consensus/networking/node.py:60-76 | at every moment no path to an open node is cheaper than the cheapest heap entry, superseded entries notwithstanding |
| Routing.NothingLeft | consensus/src/consensus/networking/node.py:60-76 | an empty heap means that there is no path at all |
| Routing.Expand | consensus/src/consensus/networking/node.py:67-75 | looking at the neighbours of an entry keeps the search in order, and a superseded entry adds nothing |
| ForkChoice.MajorityIsOnPath | consensus/src/consensus/fork_choice.py:64-79 | any block below the justified root whose subtree holds more than half of all votes and boost is on the path the head walk takes |
| ForkChoice.HeadIsInMajority | consensus/src/consensus/fork_choice.py:64-79 | so the head lies in every subtree that holds such a majority |
| ForkChoice.MajorityChildWins | consensus/src/consensus/fork_choice.py:64-79 | at each fork such a subtree wins against every sibling, boosted or not |
| ForkChoice.SiblingsDisjoint | consensus/src/consensus/fork_choice.py:42-62 | subtrees of different children share no block, so no vote counts twice |
| ForkChoice.ForkChoiceStore.DescendantsOf | consensus/src/consensus/fork_choice.py:53-62 | the worklist finds exactly the blocks reachable downwards |
| ForkChoice.ForkChoiceStore.SubtreeVoteWeight | consensus/src/consensus/fork_choice.py:42-51 | the summed score of the latest messages inside the subtree, with the boost if the root itself carries it |
| ForkChoice.ForkChoiceStore.GetHead | consensus/src/consensus/fork_choice.py:64-79 | the walk ends in a leaf below the justified root, taking at every step a child that is best by weight, slot and root string, and with non-negative scores inside every subtree that holds a majority; an unknown justified root falls back to the latest block |
| ForkChoice.WalkIsUnique | consensus/src/consensus/fork_choice.py:64-79 | roots that compare as different strings leave one walk and one head only |
| ForkChoice.StepMeaning | consensus/src/consensus/fork_choice.py:64-79 | at every step no sibling weighs more, none of equal weight is newer, and none of equal weight and slot has the larger root |
| ForkChoice.WeightMeaning | consensus/src/consensus/fork_choice.py:42-51 | a weight is the score of all validators whose latest message names the block or one below it, and the boost if it was proposed last |
| ForkChoice.AttestersDecide | consensus/src/consensus/fork_choice.py:33-51 | validators with more than half of all scores and boost make the block they name a majority, whatever the others say |
| ForkChoice.ForkChoiceStore.BestOf | consensus/src/consensus/fork_choice.py:68-78 | a child of greatest weight, among those of greatest slot, and among those with the largest root string |
| ForkChoice.ForkChoiceStore.OnBlock | consensus/src/consensus/fork_choice.py:20-31 | files the block below its parent and keeps the largest boost |
| ForkChoice.ForkChoiceStore.OnAttestation | consensus/src/consensus/fork_choice.py:33-40 | replaces the latest message, epoch and root, of exactly the attesters |
| Finality.FinalityOverRuns | consensus/src/consensus/epoch_processing.py:45-59 | after any slots and attestations: finalized epoch <= justified epoch <= current epoch, and every finalized checkpoint was justified before |
| Finality.RunsMoveForward | consensus/src/consensus/epoch_processing.py:45-59 | both epochs never fall along a run, and histories only grow |
| Finality.FinalityIsCarried | consensus/src/consensus/finality.py:26-59 | a checkpoint is finalized only by a boundary at which the checkpoint of the next epoch reached the weight threshold, and justified only if it reached it itself |
| Finality.DecideOrdered | consensus/src/consensus/finality.py:26-59 | the two decisions at a boundary keep checkpoints and histories in order, in every combination of outcomes |
| FinalityProgress.BoundaryMeaning | consensus/src/consensus/finality.py:26-59 | what a boundary makes justified and final, as a function of the state before and of which checkpoints have support: the later one with support is justified, all with support enter the history, a justified checkpoint is final once the one of the next epoch has support, and nothing else changes |
| FinalityProgress.FinalizesExactly | consensus/src/consensus/finality.py:26-59 | exactly when a boundary makes something final |
| FinalityProgress.ConsecutiveEpochsFinalize | consensus/src/consensus/finality.py:26-59 | in every run: if two consecutive epochs end with support, the first becomes final and stays so |
| FinalityProgress.SupportMeaning | consensus/src/consensus/finality.py:12-37 | support is the score of everybody named in an attestation to the checkpoint, as a share of the total of the eligible |
| FinalityProgress.AttestationCounts | consensus/src/consensus/epoch_processing.py:30-42 | in every run an attestation is kept through the epoch of its target and the next, so that both boundaries count it |
| FinalityProgress.VotesAfterBoundary | consensus/src/consensus/epoch_processing.py:30-42 | a boundary forgets exactly the votes for epochs before the one that ends |
| FinalityProgress.CheckpointMeaning | consensus/src/consensus/state.py:78-80 | the checkpoint of an epoch is the root at its first slot, or the latest root |
| FinalityProgress.TotalMeaning | consensus/src/consensus/finality.py:8-9 | the total is the sum of the scores of all eligible validators |
| FinalityProgress.PreviousOverRuns | consensus/src/consensus/finality.py:41-59 | in every run the previous justified checkpoint is the one before the last in the history |
| BeaconChain.BeaconState.GetAttestingWeight | consensus/src/consensus/finality.py:12-23 | the loop with its set of validators already seen counts everyone who attested to the checkpoint once |
| BeaconChain.BeaconState.ProcessJustificationAndFinalization | consensus/src/consensus/finality.py:26-59 | reassigns checkpoints and histories in place as the functional rule does |
| BeaconChain.BeaconState.ProcessEpoch | consensus/src/consensus/epoch_processing.py:11-42 | justification, and pruning of votes older than the previous epoch |
| BeaconChain.BeaconState.ProcessSlot | consensus/src/consensus/epoch_processing.py:45-52 | advances one slot, with the boundary work exactly at boundaries |
| BeaconChain.BeaconState.ProcessSlotsUntil | consensus/src/consensus/epoch_processing.py:55-59 | advances to the target slot by slot, and refuses to go backwards |
| BeaconChain.BeaconState.Simulate | consensus/src/consensus/simulation.py:87-115 | slot by slot, block by block, attestation by attestation, the state in place keeps finalized epoch <= justified epoch <= current epoch and histories that only grow |
| BeaconChain.BeaconState.AddVote | consensus/src/consensus/attestations.py:57 | files an accepted attestation under the epoch of its target |
| BeaconChain.BeaconState.RecordBlock | consensus/src/consensus/state.py:107-115 | records the root and keeps exactly the newest roots within the limit |
| Committee.EnforceConstraints | consensus/src/consensus/networking/committee.py:52-69 | whenever the network knows enough candidates, the result has the full size under the smallest cap, from the strict one on, under which that is possible, and is the front of the queue for that cap |
| Committee.PickMembers | consensus/src/consensus/networking/committee.py:71-109 | the two greedy passes return distinct members within the cap, exactly min(max(size, 1), sum over operators of min(candidates, cap)) of them, and these are the first of one queue that does not depend on the size |
| Committee.FirstPassMeaning | consensus/src/consensus/networking/committee.py:71-109 | a candidate is taken in the first pass exactly if the better ranked ones taken leave room under its operator's cap and, if regions matter, none of them is in its region |
| Committee.PickedWithoutRegions | consensus/src/consensus/networking/committee.py:71-109 | without the preference the queue holds exactly the known candidates with fewer than cap better ranked ones of their operator |
| Committee.RegionsAreSpread | consensus/src/consensus/networking/committee.py:71-109 | with it, no two of the first pass share a region, and whoever is put off shares one with somebody taken |
| Committee.RoomForOne | consensus/src/consensus/networking/committee.py:71-109 | that sum is zero exactly if the cap is or nobody is known, so asked for nobody the passes take exactly one member in all other cases |
| Committee.RoomIsBound | consensus/src/consensus/networking/committee.py:71-109 | no selection at all that respects the cap is larger |
| Committee.SmallerCapsFail | consensus/src/consensus/networking/committee.py:52-69 | under a smaller cap nobody could have picked a full committee |
| Committee.LoosestCapSuffices | consensus/src/consensus/networking/committee.py:52-69 | a cap as large as the committee always suffices when enough candidates are known |
| SlotCommittees.GetSlotCommittees | consensus/src/consensus/committees.py:10-41 | for any weights and settings: the number of committees is as computed, none is too large, no validator sits in two of them or twice in one, and all have positive weight; each is the draw by its own lottery keys from those the earlier ones left; with positive weights as many are placed as there is room for |
| SlotCommittees.EveryoneIsPlaced | consensus/src/consensus/committees.py:10-41 | with positive weights every eligible validator sits in a committee exactly if the target does not cap the number of committees |
| SlotCommittees.SomebodyLeft | consensus/src/consensus/committees.py:26-41 | before each committee is drawn somebody is left, so the fallback to all eligible validators is never taken |
| SlotCommittees.RoomForAll | consensus/src/consensus/committees.py:14-24 | number times size of committees covers everyone exactly under that condition |
| SlotCommittees.SampleWeightedCommittee | consensus/src/consensus/randomness.py:72-85 | the members of positive weight that come first by lottery key, then index, in that order, or all of them |
| SlotCommittees.DrawIsUnique | consensus/src/consensus/randomness.py:72-85 | there is only one such draw |
| Dht.FindNode | consensus/src/consensus/networking/dht.py:121-145 | in place: the rounds end, with the list, the nodes asked and the ids heard of the functional lookup, and the routing table has heard from exactly these ids in that order |
| Dht.LookUpIsClosest | consensus/src/consensus/networking/dht.py:121-145 | the result is the k ids closest to the target, nearest first, of everything known at first or heard from those asked, and never the asking node itself |
| Dht.LookUpAsks | consensus/src/consensus/networking/dht.py:121-145 | asked are the first alpha of the k closest known ids, and otherwise only ids known at first or heard from somebody asked; heard is exactly what those asked report |
| Dht.LookUpConverges | consensus/src/consensus/networking/dht.py:121-145 | if alpha is at least the number of ids that occur at all, everybody in the result has been asked, and nobody in it knows anyone outside it who is as close as any of them |
| Dht.LookUpFindsAll | consensus/src/consensus/networking/dht.py:121-145 | if the list has room for everybody too, everybody who can be heard of, through any number of others, is found |
| Dht.LookUpMayMiss | consensus/src/consensus/networking/dht.py:121-145 | with smaller batches a lookup can end with an id in its result that was never asked and knows a closer one |
| Dht.ClosestOfMore | consensus/src/consensus/networking/dht.py:121-145 | cutting the list off after every round loses nothing: the closest of the old best and the new are the closest of all |
| Dht.ClosestIsUnique | consensus/src/consensus/networking/dht.py:56-59 | there is only one set of k closest ids |
| Dht.DistanceInjective | consensus/src/consensus/networking/dht.py:10-11 | different ids have different distances to a target |
| Dht.BucketMeans | consensus/src/consensus/networking/dht.py:14-18 | bucket i holds exactly the distances from 2^i to 2^(i+1) |
| Dht.Heeded | consensus/src/consensus/networking/dht.py:26-33 | a bucket has no repeats and at most k ids, the one heard from is in it, and nobody is dropped while there is room |
| Dht.RoutingTable.Update | consensus/src/consensus/networking/dht.py:45-48 | hearing from a node changes its bucket only, and never files the local id |
| Dht.RoutingTable.AllPeers | consensus/src/consensus/networking/dht.py:50-54 | the buckets one after the other, without repeats |
| PhantomRouting.FindRoute | execution/src/crates/execution/src/execution/phantom/routing.py:67-143 | the search ends; a route found is a simple path of open channels with at most the allowed hops, funded at each hop for the amount and all later fees, and balances lead from sender to receiver; one is found whenever a single open, funded channel would do; and where no channel charges a fee and the allowed hops cover all parties, one is found exactly if balances lead there, and then no route at all has a lower score |
| PhantomRouting.Expand | execution/src/crates/execution/src/execution/phantom/routing.py:92-132 | every candidate pushed is a sound partial route, and the remaining work falls |
| PhantomRouting.ExtendOk | execution/src/crates/execution/src/execution/phantom/routing.py:92-132 | prepending a usable channel to a sound partial route gives a sound one |
| PhantomRouting.FeesAddUp | execution/src/crates/execution/src/execution/phantom/routing.py:67-143 | the sender pays the amount plus every fee on the way |
| PhantomRouting.NoneBelow | execution/src/crates/execution/src/execution/phantom/routing.py:78-139 | the invariant behind it: along any route to the receiver either everybody has been expanded at no more than its score, or what is at the front of the heap has no more |
| PhantomRouting.ExtendStrain | execution/src/crates/execution/src/execution/phantom/routing.py:108-121 | the score of a candidate is the sum over its hops of fees, a flat part, and what grows as the liquidity left shrinks |
| PhantomRouting.SidesOf | execution/src/crates/execution/src/execution/phantom/models.py:215-218 | each party spends from its own side of a channel and meets the other one |
| PhantomRouting.FeeCoversRate | execution/src/crates/execution/src/execution/phantom/models.py:220-222 | beyond its base fee a channel charges the least whole number that covers its rate, and no more for a smaller amount |
| PhantomRouting.ChannelGraph.SyncChannel | execution/src/crates/execution/src/execution/phantom/routing.py:48-50 | files the channel and both its ends |
| PhantomRouting.ChannelGraph.RemoveChannel | execution/src/crates/execution/src/execution/phantom/routing.py:52-58 | forgets one channel and no other |

## Left out

Parts of the repository that are not modelled:

- Tracing, debug sinks, frame notifications, replay reports and fixture comparison: they only observe a run. `code_address` is kept only by them.
- Keccak, SHA-256, secp256k1, the proof verifiers and the bodies of precompiled contracts: parameters of the model. A precompile keeps its gas cost and an arbitrary output.
- Python's own recursion limit, which deep call nesting could meet before the depth limit does.
- Receipt encoding and blooms, transaction and receipt roots, ommers, total difficulty, and serialized sizes: block validation takes these commitments as functions of what they commit to.
- A receipt with an effective gas price of 0 decodes to one without a price (`receipt.py:107`, `233-237`); receipts have no round trip here.
- The journal that `apply_block` keeps over a working copy which is thrown away on failure anyway.
- The zero-knowledge verifier registry as an object, and the exceptions it may raise itself: a proof is accepted or not.
- Rewards, penalties, decay and rescoring at epoch boundaries: the scores in force at each slot are inputs, arbitrary at every slot. State roots of the beacon chain are not kept.
- Proof-of-Network scores and the logarithms of the lottery: weights are non-negative reals and lottery keys arbitrary, so every ranking is covered.
- asyncio, clocks, TTLs, jitter and the gossip overlay: messages arrive in any order, any number of times, or never.
- Signatures on votes, which the handlers do not check: a vote is what its sender sent. Malicious nodes only keep silent, as in the code. Block hashes stand for the blocks they hash.
- Synchronisation, persistence, the I2P transport, the JSON-RPC server, the value store of the DHT, the manager and settlement of phantom channels, and the graphical client.
- Rounding of floating-point latencies, weights and shares: they are real numbers here.

Forms that differ from the source:

- `StorageSlot` objects are values inside the slot dictionary; nothing in the source keeps a reference to one.
- Heaps are lists from which a least entry is taken; among equal entries any may be taken, which covers the order the source breaks ties in.
- A suspended replay of buffered votes is an entry in the node's state; other events may come between any two of its steps.

Contracts with conditions or limits worth knowing:

- Transition.TransactionConservesEther: asks for a state in which no slot holds a refund that a later write could take back. Genesis without uncommitted writes and every state after a transaction are such states (`Transition.TransactionGas`, `World.CommitTotals`).
- TransactionOutcome.TransactionOutcome: the same condition, and less than 2^256 ether in all.
- Blocks.BlockConservesEther: the same condition on the state the block is executed on; it holds again afterwards.
- Mining.MinedBlockReplays: the same condition on the parent's post-state; with a block reward the states differ as `Mining.RewardIsNotReplayed` says.
- Rlp.DecodeEncode: payloads are below 2^64 bytes, beyond which a length no longer fits its prefix.
- Trie.RootBinds: paths and values are shorter than 2^63, as all Python byte strings are.
- TransactionCodec.RoundTrip: about signed transactions; an unsigned one has no wire form.
- ForkChoice.ForkChoiceStore.GetHead: root strings are compared through a numbering of the roots in string order.
- BeaconChain.BeaconState.ProcessEpoch: rewards, penalties, score decay, rescoring and participation are not part of it; the scores they lead to are an input of every slot.
- BeaconChain.BeaconState.AddVote: the attestation has passed validation; participation and activity scores are not kept.
- BeaconChain.BeaconState.ProcessSlot: the record of the beacon chain's own state roots is not kept; nothing else reads it.
- ExecutionNode.Node.MineBlock: without total difficulty and serialized size, which only the records carry.
- Committee.EnforceConstraints: the strict cap is a parameter, computed in the source from a fraction of the size.
- Dht.FindNode: identifiers have no more bits than the routing table was made for. What the others answer is one map, since nothing else runs between two questions of a lookup.
- Transactions.ZkVerificationGas: the configured prices are non-negative.
- PhantomRouting.FindRoute: that none is missed is claimed for direct channels, and for all routes where there are no fees and hops to spare; that none has a lower score is claimed in the latter case. With fees the amount to be carried differs from route to route, and the search may discard the better prefix. Channel fees are non-negative.
- SlotCommittees.GetSlotCommittees: the lottery keys of each committee are arbitrary functions instead of hashes.
