# Verification of the FHE blockchain node's data paths

A Dafny model of six self-contained parts of the node, and proofs about them.

- **Base64** (`incl/base64.hpp`), through which every key and ciphertext passes. The two
  loops are proved against a positional-number reading of RFC 4648; the round trips and the
  exact set of strings that survive re-encoding follow from it.
  Files: `Numerals`, `BitMasks`, `Base64`, `Base64Laws`.
- **The stream buffer** (`incl/asio/basic_streambuf.hpp`), a byte queue in one growable array.
  `StreamBuf` is the class that shifts and resizes its array in place, each method proved
  against a step of `StreamBufModel`; `StreamBufRuns` states what the steps mean, singly and
  over every run.
- **The socket stream buffer** (`incl/asio/basic_socket_streambuf.hpp`). What the clock,
  `send`, `recv` and `poll` answer is a schedule, one entry for each iteration of a loop, over
  which everything is quantified; a call whose schedule runs out is still waiting.
  Files: `SocketModel`, `SocketStreamBuf`, `SocketRuns`.
- **Completion handlers** (`incl/asio/any_completion_handler.hpp`): single ownership of the
  type-erased target (`HandlerModel`, `HandlerRuns`, `CompletionHandler`), and the
  over-aligning allocator with its hidden offset slot, over an explicit heap of bytes
  (`AllocatorModel`, `AlignedAllocator`).
- **Chainstate and reorganisation** (`src/store/mem_chainstate.cpp`, parts of
  `src/chain/chain.cpp` and `src/chain/chain_manager.cpp`): unspent and spent outputs, adding
  and rewinding blocks, validation with the binding of computations that it repeats, switching
  to a fork or back, and every run of that from genesis.
  Files: `ChainstateModel`, `ChainstateStore`, `ChainstateUndo`, `ChainstateBlocks`,
  `ChainstateInputs`, `ChainModel`, `ChainRewind`, `ChainRuns`, `ChainSteps`, `ChainFailures`,
  `ChainSteady`, `ChainManagement`, `ChainCases`.
- **Expressions** (`ASTree::shunt` in `src/computer/ast.cpp`): the conversion of infix texts to
  postfix with an operator stack, against a grammar and for any text.
  Files: `Shunting`, `ShuntedTexts`, `ShuntedTokens`.

Code that updates state is a class or a method with loops; its contract ties the new state to
a function of the old one, and the lemmas are about that function. Runs are sequences of
operations of any length, by any client that keeps to what the source asks of it.

## Where the code falls short of what it promises

- `basic_streambuf::prepare` shifts the input sequence before it finds that it has to throw,
  and moves no position then. The sequence survives exactly if it repeats itself at distance
  `gptr` (always, when `gptr` is 0 or at least `size()`): `ThrowKeepsDataIff`, with a
  reachable loss in `ThrowLosesData`. A run is first in, first out exactly if it contains no
  such prepare: `FifoIff`.
- `basic_socket_streambuf::overflow` keeps the whole put area when it fails after part of it
  was sent, so that the next flush sends that part again. What was accepted is on the wire or
  pending exactly as long as that does not happen: `ConservedIff`, with an instance in
  `PartIsSentTwice`.
- `base64::decode` accepts strings that `encode` never produces. Re-encoding gives the string
  back exactly for the canonical ones: `CanonicalInverse`.
- `rewind_block` goes through the transactions in the order in which `add_block` did, and
  takes away every output of the block, also one that was there before. Effects undone in any
  order restore the chainstate exactly under the condition of `UndoRestoresIff`. For a block
  that passed validation that is: an output of the block whose key existed already is used
  later in the block, and no output that it uses has a saved record from before
  (`ValidatedRewindsIff`). Validation does not ensure this, because it skips the coinbase: a
  block may repeat the coinbase of an earlier one, byte for byte and so with the same
  transaction id (`CopiedCoinbase`). `SpentInItsOwnBlock` is a block that fails the condition
  and that validation does reject. Blocks that make new outputs only can always be rewound
  (`FreshIsRewindable`).
- Each validation of a block binds its computations to the header once more, on top of what was
  bound before, and then verifies their proofs against the result. A fork block is validated when
  it comes and again in the reorganisation, and a block that is put back once more. So a
  reorganisation succeeds, or fails and puts the main chain back, exactly if proofs verify that
  often (`ReorgMeans`, `FailedForkIff`). If they verify only the first time, every reorganisation
  onto a fork that attaches ends with a failed assertion: `EveryReorgFails`, with an instance in
  `ValidForkFails`. If it does not matter
  how often, what passed passes again: `SteadyReorg`, `EverySteadyRun`.
- For the reason given for `rewind_block`, a reorganisation that fails may lose outputs although
  the main chain is put back: `FailedForkLosesOutput`. Rewinding the main chain brings back the
  chainstate of the fork point exactly under the condition of `RewindsIff`; otherwise the fork is
  judged on another chainstate (`ReorgMeans`). Given that it does, chain and chainstate end as
  they were exactly if the accepted blocks of the fork meet the condition, too, and the former
  blocks pass validation once more: `FailedForkIff`.
- When already the first block of a fork is rejected, the loop that trims the fork counts down
  past zero and leaves the vector; otherwise it stays inside: `Fork.Trim`, `LeavesVectorIff`, with
  an instance in `FirstForkBlockFails`.
- A fork stays in the list when the block that it starts from is replaced. A reorganisation
  onto such a fork throws after it has rewound the chainstate and cut the main chain, which
  stays cut, while the difficulty of the blocks cut off stays in the total: `ReorgMeans` and
  `StepKeepsGrown`, with an instance in `StaleForkCutsChain`.
- `remove_utxo` erases an entry and then reads the record to be saved through an iterator at
  that entry. `add_block` does so exactly if one of the outputs to be used is found
  (`ReadsErasedIff`). All that is said here of saved records, and so of undoing, is about the
  order that was intended, in which the record is read first.
- `basic_streambuf::consume` computes `gptr() + n` before it clamps n. If that wraps around, the
  promised clamp does not happen, except by chance: `ConsumeClampsIff`, with an instance in
  `ConsumeWraps`.
- `shunt` refuses a well-formed expression exactly if it is a number alone or stands in
  parentheses, because no operator is left on the stack at its end: `ShuntedExpr`. And it takes
  texts that are no expressions: exactly which texts it takes is `ShuntedIff`, with instances in
  `OperatorAfterBoth` and, where the result cannot be evaluated, in `OperatorBeforeAll`.

## Model

| member | source | states |
|---|---|---|
| Base64.Encode | incl/base64.hpp:42-84 | the loops produce the digits of the big-endian number that the bytes denote, shifted left to fill whole digits, as letters, padded to a multiple of four |
| Base64.Decode | incl/base64.hpp:86-131 | the loops produce, for any string, the whole bytes of the number that its longest alphabet prefix denotes |
| Base64.ThreeToFour | incl/base64.hpp:55-58 | the masks and shifts select the four six-bit fields of three bytes |
| Base64.FourToThree | incl/base64.hpp:104-106 | masks, shifts and truncation to a byte, for any slot contents |
| Base64.EncodeRest | incl/base64.hpp:66-81 | a rest of one or two bytes gives two or three letters and the missing number of '=' |
| Base64.EncodeTail | incl/base64.hpp:66-81 | the letters of a rest, filled up with zero bytes, are the last letters of the positional encoding |
| Base64.DecodeRest | incl/base64.hpp:114-128 | a rest of 1 to 3 letters gives rest - 1 bytes, unused slots holding the sentinel 255 |
| Base64.DecodeFour | incl/base64.hpp:99-111 | a full group of four letters gives three bytes |
| Base64.DecodeTail | incl/base64.hpp:114-128 | the bytes kept from the last group are those of the number that the letters denote, so that the sentinel does not reach the output |
| Base64.FindByteIsDigitOr255 | incl/base64.hpp:32-40 | `chars.find` gives the digit of a letter, and 255 for every other character, in particular for the zero that fills unused slots |
| Base64.CharsIsTheAlphabet | incl/base64.hpp:32-35 | the table is the alphabet of RFC 4648, table 1 |
| Base64Laws.EncodedValue | incl/base64.hpp:50-81 | k digits for n bytes denote the number of the bytes shifted left by 6k - 8n bits |
| Base64Laws.DecodedValue | incl/base64.hpp:95-128 | the bytes of k digits denote the number of the digits shifted right by 6k mod 8 bits |
| Base64Laws.RoundTrip | incl/base64.hpp:42-131 | decoding an encoding gives the bytes back, for every byte sequence |
| Base64Laws.CanonicalInverse | incl/base64.hpp:42-131 | encoding a decoding gives the string back if and only if the string is canonical (section 3.5 of RFC 4648) |
| Base64Laws.ReencodedDigits | incl/base64.hpp:114-128 | for digits alone: if and only if the spare low bits of the last digit are zero and no digit stands alone |
| Base64Laws.DecodeReadsOnlyThePrefix | incl/base64.hpp:95-128 | the result depends on the alphabet prefix only, and has floor(3k/4) bytes for k letters |
| Base64Laws.DecodeConcatenates | incl/base64.hpp:95-112 | whole groups decode on their own: decode(s ++ t) = decode(s) ++ decode(t) |
| Base64Laws.EncodingShape | incl/base64.hpp:42-84 | for every byte sequence: four characters for every three bytes or part of three, letters as long as six bits begin within the bytes, and the character = after that |
| Base64Laws.TestVectors | incl/base64.hpp:42-84 | test vectors of section 10 of RFC 4648, and one with the last two letters of the alphabet |
| StreamBuf.BasicStreambuf.constructor | incl/asio/basic_streambuf.hpp:131-141 | the initial state, with min(max_size, 128) characters of output space |
| StreamBuf.BasicStreambuf.MoveToStart | incl/asio/basic_streambuf.hpp:321-326 | the left shift in place is right although source and target overlap |
| StreamBuf.BasicStreambuf.Reserve | incl/asio/basic_streambuf.hpp:308-346 | throws if and only if size() + n > max_size(), and the exact array and positions in each case, throwing included |
| StreamBuf.BasicStreambuf.Prepare | incl/asio/basic_streambuf.hpp:214-219 | refines the model step; the region returned holds n characters and starts behind the readable ones |
| StreamBuf.BasicStreambuf.Commit | incl/asio/basic_streambuf.hpp:233-238 | refines the model step |
| StreamBuf.BasicStreambuf.Consume | incl/asio/basic_streambuf.hpp:247-254 | refines the model step unless `gptr() + n` wraps around, and says where the get pointer goes if it does |
| StreamBufModel.ConsumeClampsIff | incl/asio/basic_streambuf.hpp:240-254 | consume(n) removes n characters, or all there are, if and only if `gptr() + n` does not wrap around or the cast to int gives the right number by chance |
| StreamBufModel.ConsumeWraps | incl/asio/basic_streambuf.hpp:247-254 | with the largest n the get pointer moves back by one |
| StreamBuf.BasicStreambuf.Underflow | incl/asio/basic_streambuf.hpp:263-274 | refines the model step, which `StreamBufRuns.ReadContract` is about |
| StreamBuf.BasicStreambuf.Overflow | incl/asio/basic_streambuf.hpp:283-306 | refines the model step |
| StreamBuf.BasicStreambuf.ReserveMore | incl/asio/basic_streambuf.hpp:289-297 | overflow asks for 128 characters, or for what is left up to max_size() when that is less |
| StreamBuf.BasicStreambuf.ReadSize | incl/asio/basic_streambuf.hpp:353-359 | the largest size that is at most the limit, at most the room up to max_size(), and at most what the vector can still hold or 512 characters, whichever is more; preparing it never throws |
| StreamBuf.ReadAt | incl/asio/impl/read_at.hpp:113-133 | the fill loop terminates, never makes prepare throw, appends a prefix of what the device holds; it ends with an error if and only if a round failed or the contents ran out before the buffer was full, and when no round fails it reads all that is there or fits |
| StreamBufModel.Step | incl/asio/basic_streambuf.hpp:62-68 | every operation, also one that throws, keeps gptr <= egptr <= pptr <= epptr <= max_size and the array length max(epptr, 1); hence size() <= max_size() |
| StreamBufModel.FullPutArea | incl/asio/basic_streambuf.hpp:287-298 | the request that overflow makes is too long exactly if no character fits, and then the input sequence starts at 0 |
| StreamBufRuns.PrepareContract | incl/asio/basic_streambuf.hpp:198-219 | throws if and only if size() + n > max_size() and moves no position then; otherwise data() is unchanged and n characters fit behind it; epptr becomes max(epptr, size() + n), and nothing changes where n characters fit already |
| StreamBufRuns.PrepareWriteCommit | incl/asio/basic_streambuf.hpp:214-238 | prepare(n), filling the region with w and commit(m) make data() the old data ++ w[..m] |
| StreamBufRuns.OverflowContract | incl/asio/basic_streambuf.hpp:276-306 | appending a character succeeds if and only if size() < max_size(), appends exactly that character, and changes nothing on a throw |
| StreamBufRuns.ReadContract | incl/asio/basic_streambuf.hpp:263-274 | in every valid state: underflow and sbumpc answer the first character of data(), and eof if and only if data() is empty; underflow keeps data(), sbumpc leaves the rest |
| StreamBufRuns.CommitContract | incl/asio/basic_streambuf.hpp:233-238 | commit(n) appends the first n characters of the output sequence to data(), or all there are |
| StreamBufRuns.ConsumeContract | incl/asio/basic_streambuf.hpp:247-254 | consume(n) removes the first n characters of data(), or all there are |
| StreamBufRuns.OverflowGrowth | incl/asio/basic_streambuf.hpp:283-306 | with a full put area the buffer grows by 128 characters, or by what is left up to max_size(); overflow of eof changes nothing |
| StreamBufRuns.InitialContract | incl/asio/basic_streambuf.hpp:131-141 | a new buffer is empty and has room for 128 characters, or for max_size() if less |
| StreamBufRuns.ThrowingPrepare | incl/asio/basic_streambuf.hpp:321-340 | what a throwing prepare leaves of the input sequence, character by character |
| StreamBufRuns.ThrowKeepsDataIff | incl/asio/basic_streambuf.hpp:321-340 | a throwing prepare keeps data() if and only if data() repeats itself at distance gptr, in particular if gptr is 0 or at least size() |
| StreamBufRuns.ThrowLosesData | incl/asio/basic_streambuf.hpp:321-340 | a reachable state in which it does not |
| StreamBufRuns.StepConservesIff | incl/asio/basic_streambuf.hpp:233-346 | one operation conserves the characters, in order, if and only if it is no damaging prepare |
| StreamBufRuns.FifoIff | incl/asio/basic_streambuf.hpp:192-346 | over every run: after each prefix all characters added are those taken followed by data(), if and only if no prepare in the run is damaging |
| StreamBufRuns.FifoWithoutThrows | incl/asio/basic_streambuf.hpp:192-346 | a run from the empty buffer in which no prepare throws is first in, first out |
| StreamBufRuns.HighWaterMark | incl/asio/basic_streambuf.hpp:308-346 | over every run the buffer ends at the largest size() + n ever reserved or at its initial end, within max_size |
| SocketStreamBuf.BasicSocketStreambuf.SendAll | incl/asio/basic_socket_streambuf.hpp:449-482 | the flush loop puts on the wire what the reference flush sends, and ends as it does, under any schedule |
| SocketStreamBuf.BasicSocketStreambuf.Overflow | incl/asio/basic_socket_streambuf.hpp:427-499 | refines the model step, buffered and unbuffered, which `SocketRuns.SendAnswers` is about, and leaves the get area alone |
| SocketStreamBuf.BasicSocketStreambuf.Sync | incl/asio/basic_socket_streambuf.hpp:501-504 | refines the model step |
| SocketStreamBuf.BasicSocketStreambuf.Setbuf | incl/asio/basic_socket_streambuf.hpp:506-517 | switches to unbuffered output exactly if nothing is pending and both arguments are zero |
| SocketStreamBuf.BasicSocketStreambuf.InitBuffers | incl/asio/basic_socket_streambuf.hpp:525-535 | empties both areas and touches nothing else |
| SocketStreamBuf.BasicSocketStreambuf.ReceiveSome | incl/asio/basic_socket_streambuf.hpp:382-423 | the fill loop delivers what the reference fill delivers, under any schedule |
| SocketStreamBuf.BasicSocketStreambuf.Underflow | incl/asio/basic_socket_streambuf.hpp:373-425 | refines the model step; the get area stays inside the 512 characters, behind the putback area |
| SocketRuns.FlushSends | incl/asio/basic_socket_streambuf.hpp:449-482 | a flush sends as much as the socket takes before the first fatal iteration, completes exactly if that is everything, and otherwise fails exactly if there is a fatal iteration |
| SocketRuns.FlushFailsAt | incl/asio/basic_socket_streambuf.hpp:449-482 | if not everything is sent before the first fatal iteration, that iteration gives the error code |
| SocketRuns.FlushCompletesAt | incl/asio/basic_socket_streambuf.hpp:449-482 | if everything is sent, the iteration that sends the last character gives the error code |
| SocketRuns.SendAnswers | incl/asio/basic_socket_streambuf.hpp:427-504 | sputc, overflow and sync under any schedule: if the socket offers room for all that is to be sent, it is sent, the new character is put in the put area (or was sent, when unbuffered), and the answer is that character, or not eof when there was none; otherwise what is offered is sent, nothing is accepted, and the answer is eof if and only if an iteration is fatal, the call waiting if not |
| SocketRuns.SettingAnswers | incl/asio/basic_socket_streambuf.hpp:506-517 | setbuf makes output unbuffered if and only if nothing is pending and both arguments are zero, and changes nothing else |
| SocketRuns.IncompleteCall | incl/asio/basic_socket_streambuf.hpp:449-482 | a call that fails or waits accepts nothing, leaves the put area, and extends the wire by a prefix of it; by nothing when unbuffered |
| SocketRuns.CallConservesIff | incl/asio/basic_socket_streambuf.hpp:427-517 | one call keeps wire ++ pending equal to what was accepted if and only if the schedule does not offer room for some but not all of the output before its first fatal iteration |
| SocketRuns.CallDelivers | incl/asio/basic_socket_streambuf.hpp:427-517 | one call: what a completed flush sent and what is pending is what was pending and what was accepted |
| SocketRuns.ConservedIff | incl/asio/basic_socket_streambuf.hpp:427-517 | over every run and schedule: wire ++ pending is everything accepted, after each prefix, if and only if no call meets a schedule that takes some but not all of its output |
| SocketRuns.EveryRunDelivers | incl/asio/basic_socket_streambuf.hpp:427-517 | over every run, failures included: what completed flushes sent, followed by what is pending, is everything accepted |
| SocketRuns.PartIsSentTwice | incl/asio/basic_socket_streambuf.hpp:449-486 | a failure that puts a character on the wire twice |
| SocketRuns.FillStopsAtFirst | incl/asio/basic_socket_streambuf.hpp:382-423 | the first iteration that is no survivable retry decides what underflow returns, receives and reports |
| SocketRuns.ReadAnswers | incl/asio/basic_socket_streambuf.hpp:373-425 | sbumpc answers the first unread character, and with none unread what the fill loop answers; underflow answers eof on a non-empty get area and changes nothing then |
| SocketRuns.EveryReadConserves | incl/asio/basic_socket_streambuf.hpp:373-423 | over every run and schedule: everything received is what the reader was given followed by what is unread |
| HandlerRuns.StepKeepsOwned | incl/asio/any_completion_handler.hpp:654-756 | every operation keeps: each live target has exactly one owner, whose table is that of the target's type; blocks outstanding are those of live targets; each ended target is logged once |
| HandlerRuns.OperationsDo | incl/asio/any_completion_handler.hpp:654-756 | what each operation does to each handler, the moved and the emptied ones, the targets that end and how, and to no other handler |
| HandlerRuns.Balanced | incl/asio/any_completion_handler.hpp:90-114 | sound ownership means as many outstanding allocations as handlers that own a target |
| HandlerRuns.EveryRun | incl/asio/any_completion_handler.hpp:654-756 | the same in every reachable state, also while a target runs inside a call; no table is ever applied to a dead target or to one of another type; as many raw allocations are outstanding as handlers own a target |
| HandlerRuns.NothingLeaks | incl/asio/any_completion_handler.hpp:698-703 | once all handlers are gone, every target has ended exactly once and no memory is left |
| CompletionHandler.TargetMemory.Create | incl/asio/any_completion_handler.hpp:90-106 | a target and its block, or neither when allocation or construction throws |
| CompletionHandler.TargetMemory.Delete | incl/asio/any_completion_handler.hpp:76-88 | the object ends and its block is released |
| CompletionHandler.TargetMemory.CallTarget | incl/asio/any_completion_handler.hpp:178-191 | the object ends and its block is released before the target runs, also when moving it out throws |
| CompletionHandler.AnyCompletionHandler.Move | incl/asio/any_completion_handler.hpp:671-677 | takes over both fields and empties the other handler |
| CompletionHandler.AnyCompletionHandler.Swap | incl/asio/any_completion_handler.hpp:718-722 | exchanges both fields, also with itself |
| CompletionHandler.AnyCompletionHandler.MoveAssign | incl/asio/any_completion_handler.hpp:683-689 | the move, swap and destruction of the temporary end the old target and move the new one; a self-move changes nothing |
| CompletionHandler.AnyCompletionHandler.AssignNull | incl/asio/any_completion_handler.hpp:692-696 | ends the old target and empties both fields |
| CompletionHandler.AnyCompletionHandler.Call | incl/asio/any_completion_handler.hpp:745-756 | gives up the target and ends it; fails exactly if there is none; ownership stays sound |
| CompletionHandler.Construct | incl/asio/any_completion_handler.hpp:654-665 | a handler that owns a new target, or none when creating it throws |
| CompletionHandler.MoveConstruct | incl/asio/any_completion_handler.hpp:671-677 | ownership moves to a new handler |
| CompletionHandler.SwapHandlers | incl/asio/any_completion_handler.hpp:718-722 | ownership stays sound under swap |
| CompletionHandler.Destruct | incl/asio/any_completion_handler.hpp:699-703 | ends the target of a handler that goes away |
| AlignedAllocator.ByteHeap.Allocate | incl/asio/any_completion_handler.hpp:131-156 | an aligned block not in use before, with its slot inside one raw allocation; bad_alloc is never thrown after the raw allocation succeeded |
| AlignedAllocator.ByteHeap.Deallocate | incl/asio/any_completion_handler.hpp:158-176 | reads the slot inside the raw allocation and gives back exactly the base and length first obtained |
| AlignedAllocator.ByteHeap.AllocateElements | incl/asio/any_completion_handler.hpp:515-526 | sizeof(T) * n bytes aligned for T, or a throw without a table |
| AllocatorModel.AllocateKeepsValid | incl/asio/any_completion_handler.hpp:131-156 | a new block disturbs no other block, slot or raw allocation |
| AllocatorModel.AllocateDoes | incl/asio/any_completion_handler.hpp:131-156 | a new block has the size and alignment asked for, at an address less than one alignment behind the start of its raw allocation of size + align - 1 + 8 bytes; every other block stays |
| AllocatorModel.DeallocateDoes | incl/asio/any_completion_handler.hpp:158-176 | a block given back, and its raw allocation, are gone, and nothing else; giving back null does nothing |
| AllocatorModel.BlocksDisjoint | incl/asio/any_completion_handler.hpp:131-156 | the user bytes and slots of two live blocks never meet |
| AllocatorModel.AlignedIsMultiple | incl/asio/any_completion_handler.hpp:145-150 | an aligned address is one that the alignment divides, for every alignment, powers of two among them |
| AllocatorModel.SlotLeadsBack | incl/asio/any_completion_handler.hpp:169-174 | the bytes in the slot denote the distance to the base, whose raw allocation has the length passed on |
| AllocatorModel.OtherBlocksUntouched | incl/asio/any_completion_handler.hpp:131-176 | no operation changes a user byte of another block |
| AllocatorModel.EveryRun | incl/asio/any_completion_handler.hpp:131-176 | over every run of matched operations blocks are aligned, blocks with their slots are pairwise disjoint and inside their own raw allocations, and nothing is left once all are given back |
| ChainstateModel.KeyRoundTrip | src/store/mem_chainstate.cpp:143-171 | a key can be taken apart into transaction id and output index again |
| ChainstateModel.KeysAreUnique | src/store/mem_chainstate.cpp:143-149 | two outputs have the same key if and only if they are the same |
| ChainstateStore.MemChainstate.AddUtxo | src/store/mem_chainstate.cpp:42-55 | adds an output unless its key exists |
| ChainstateStore.MemChainstate.RemoveUtxo | src/store/mem_chainstate.cpp:57-76 | removes an output and, on request, saves its record; says when the record is read through a dead iterator |
| ChainstateModel.ReadsErasedIff | src/store/mem_chainstate.cpp:57-109 | add_block reads an erased entry if and only if an output to be used is found; with no assertion failing, if and only if the block uses any output |
| ChainstateStore.MemChainstate.SpendInputs | src/store/mem_chainstate.cpp:95-103 | spends the inputs of a transaction in order; no assertion fails exactly if each is found |
| ChainstateStore.MemChainstate.RestoreInputs | src/store/mem_chainstate.cpp:124-135 | brings the inputs of a transaction back in order; no assertion fails exactly if each was saved |
| ChainstateStore.MemChainstate.AddBlock | src/store/mem_chainstate.cpp:78-109 | the nested loops perform the block's effects in order; no assertion fails exactly if every output to be used is found |
| ChainstateBlocks.OutputIsStored | src/store/mem_chainstate.cpp:84-108 | after add_block, output i of each transaction stands under its transaction id and index i, with the height, its own amount and public key, and flagged if its transaction is the first one; for each key that is new and not used by the block |
| ChainstateBlocks.InputsAreSpent | src/store/mem_chainstate.cpp:84-108 | after add_block, an output that an input refers to is unspent no longer and its record is saved; an output that the block neither makes nor refers to is as it was |
| ChainstateStore.MemChainstate.RewindBlock | src/store/mem_chainstate.cpp:111-141 | the nested loops undo the block's effects in the same order; no assertion fails exactly if every record needed was saved |
| ChainstateUndo.AfterEffects | src/store/mem_chainstate.cpp:78-109 | what any effects leave of one output: the record that its first use saves is the one from before, unless one was saved already |
| ChainstateUndo.BackEffects | src/store/mem_chainstate.cpp:111-141 | what undoing any effects leaves of one output: the first use gives the saved record back, and whatever makes the output after that takes it away for good |
| ChainstateUndo.UndoRestoresIff | src/store/mem_chainstate.cpp:78-141 | for all effects that add_block performs without a failed assertion, undone in any order: the chainstate is restored if and only if they are Undoable in that order, a condition on the keys they make and use |
| ChainstateUndo.UndoAssertsIff | src/store/mem_chainstate.cpp:124-135 | no assertion fails while undoing if and only if no output is used twice |
| ChainRewind.ValidatedRewindsIff | src/store/mem_chainstate.cpp:78-141 | a validated block rewinds without a failed assertion, and to the chainstate before it if and only if each of its outputs that existed already is used later in the block and no output it uses was saved before |
| ChainCases.CopiedCoinbase | src/chain/chain.cpp:84-96 | a block that passes the checks on inputs and repeats an unspent coinbase: rewinding it destroys the earlier output |
| ChainCases.SpentInItsOwnBlock | src/store/mem_chainstate.cpp:111-141 | a block that makes and spends an output, rejected by validation: rewinding leaves the output unspent |
| ChainstateInputs.AddBlockMeans | src/store/mem_chainstate.cpp:84-108 | for every chainstate and block: no assertion in add_block fails if and only if each input refers to an output of its own transaction or to one that the order of the earlier transactions leaves unspent, no two inputs of a transaction to the same; and exactly what that order leaves is unspent afterwards |
| ChainManagement.ValidateInputs | src/chain/chain.cpp:75-124 | accepts a block exactly if each of its inputs is unspent before the block and none occurs twice |
| ChainstateBlocks.ValidationAsks | src/chain/chain.cpp:75-124 | what validation asks of the effects of a block, in terms of its transactions: every input but those of the first refers to an unspent output, and no two to the same |
| ChainManagement.ValidateTx | src/chain/chain.cpp:98-124 | the same for one transaction, given what the earlier ones of the block spend |
| ChainManagement.ChainManager.constructor | src/chain/chain.cpp:13-21 | the chain of genesis alone, and the chainstate it makes of an empty one |
| ChainManagement.ChainManager.ValidateBlock | src/chain/chain.cpp:66-225 | passes exactly if the block has transactions, its inputs and the other checks pass, and the proofs verify with the computations bound as often as they are; binds them once more exactly if it gets that far |
| ChainManagement.ChainManager.AppendBlock | src/chain/chain.cpp:243-283 | throws exactly if the block does not attach, adds it exactly if it is valid, or called so, and later than the tip, and changes nothing otherwise; the assertion in add_block fails exactly if a block called valid uses an output that is not there |
| ChainSteps.AcceptedIff | src/chain/chain.cpp:243-283 | a stored block is accepted if and only if it names the tip, its timestamp is greater than that of the tip, its transactions and inputs and the other checks pass, and the proofs verify with the computations bound as often as on record |
| ChainSteps.ArrivesMeans | src/chain/chain_manager.cpp:31-40 | a block that arrives is added if and only if the same holds with nothing bound before, and then chain, chainstate and total grow by that block; otherwise nothing changes |
| ChainSteps.MinedMeans | src/chain/chain_manager.cpp:20-29 | a mined block: throws if and only if it does not name the tip, an assertion fails if and only if it names the tip, is later, and an input does not find its output when its turn comes; it is added if and only if it names the tip, is later, and every input does |
| ChainManagement.ChainManager.Receive | src/chain/chain_manager.cpp:31-40 | refines the model step for a block that arrives |
| ChainManagement.ChainManager.ReceiveMined | src/chain/chain_manager.cpp:20-29 | refines the model step for a block that was mined |
| ChainManagement.ChainManager.RewindAbove | src/chain/chain_manager.cpp:106-114 | rewinds the blocks above a height from the tip; no assertion fails exactly if every record needed was saved |
| ChainManagement.ChainManager.AppendLeading | src/chain/chain_manager.cpp:120-133 | appends stored blocks up to the first one that is not accepted, each bound once more by its validation, also the one rejected |
| ChainModel.LeadingIff | src/chain/chain_manager.cpp:120-133 | how many blocks are appended: k if and only if the first k are accepted one after the other and the next one is not |
| ChainManagement.Fork.Trim | src/chain/chain_manager.cpp:153-159 | with a counter that wraps around: stays inside the vector if and only if at least one block remains, and then takes exactly the rejected blocks and their difficulties off |
| ChainManagement.ChainManager.PutBackFormer | src/chain/chain_manager.cpp:145-160 | refines the last phase of the model step, in which the former blocks are validated once more |
| ChainManagement.ChainManager.Reorg | src/chain/chain_manager.cpp:95-187 | refines the model step in all its outcomes, chain, chainstate, bindings and total difficulty; when the fork replaces the main chain that becomes a fork with its total, and when the fork is rejected it is trimmed |
| ChainRewind.RewindsIff | src/chain/chain_manager.cpp:106-114 | rewinding added blocks from the tip restores the chainstate before them if and only if their effects, in the order of the rewind, are Undoable; no assertion fails if and only if no output is used twice |
| ChainRewind.FreshIsRewindable | src/chain/chain_manager.cpp:106-114 | valid blocks that make new outputs only can be rewound |
| ChainRuns.BottomIsBase | src/chain/chain_manager.cpp:106-114 | for a main chain from genesis: the fork is judged on the chainstate of the fork point if and only if the later blocks are Undoable, and the first rewind asserts nothing false if and only if they use no output twice |
| ChainRuns.ReorgMeans | src/chain/chain_manager.cpp:95-187 | the fork replaces the main chain if and only if all of its blocks are accepted on what the first rewind gives; if it does not attach, the main chain is cut; if it is rejected and can be rewound, the former blocks are put back if and only if all of them pass validation once more, an index leaving its vector if and only if no fork block was accepted, and otherwise an assertion fails |
| ChainSteps.KeptBindings | src/chain/chain_manager.cpp:120-151 | a reorganisation that puts the main chain back has bound each former block once more, and once each fork block that it validated as far as the proofs |
| ChainSteps.LeavesVectorIff | src/chain/chain_manager.cpp:95-160 | a reorganisation leaves a vector if and only if the main chain does not reach up to the source of the fork, or the first rewind asserts nothing false, the first fork block attaches and is rejected, and all former blocks are put back |
| ChainFailures.FailedForkIff | src/chain/chain_manager.cpp:135-161 | for a fork that is rejected at some block, on a main chain from genesis that can be rewound: chain and chainstate end as they were if and only if the accepted blocks of the fork can be rewound and all former blocks pass validation once more |
| ChainFailures.DamageIsLoss | src/store/mem_chainstate.cpp:111-141 | an output that rewinding valid blocks does not restore is lost: no record of it from before the blocks is left |
| ChainFailures.LostForGood | src/store/mem_chainstate.cpp:78-109 | later blocks, whatever they do, do not bring it back |
| ChainRuns.StepKeepsGrown | src/chain/chain_manager.cpp:16-187 | one harmless event: no assertion fails, no index leaves its vector, the chain stays linked with strictly rising timestamps, the chainstate stays that of the chain, and an exact total difficulty stays exact if and only if a fork that takes over has the right total and a reorganisation that throws cuts no difficulty off |
| ChainRuns.EveryRun | src/chain/chain_manager.cpp:16-187 | the same from genesis, over every sequence of blocks that arrive or are mined and of harmless reorganisations; so each block of the main chain is later than the one before it |
| ChainSteady.SteadyReorg | src/chain/chain_manager.cpp:95-187 | for proofs that verify however often computations are bound, on blocks that were valid: the fork takes over if and only if all of its blocks are accepted; if it is rejected and can be rewound, chain and chainstate are what they were |
| ChainSteady.EverySteadyRun | src/chain/chain_manager.cpp:16-187 | for such proofs, over every run from genesis in which mined blocks are valid and rewinds possible: every block of the main chain stays valid, and everything that EveryRun says |
| ChainCases.EveryReorgFails | src/chain/chain.cpp:206-224 | for proofs that verify only the first time: every reorganisation onto a fork that attaches ends with a failed assertion |
| ChainCases.ValidForkFails | src/chain/chain_manager.cpp:120-151 | with such proofs, a fork of two blocks that were valid when they came |
| ChainCases.FailedForkLosesOutput | src/chain/chain_manager.cpp:135-161 | a reorganisation that fails at the second block of a fork: the main chain is back, an output of genesis is lost |
| ChainCases.FirstForkBlockFails | src/chain/chain_manager.cpp:153-157 | a fork of larger total difficulty of which the first block is rejected: the index leaves the vector |
| ChainCases.StaleForkCutsChain | src/chain/chain_manager.cpp:120-133 | a fork whose source block was replaced by another fork: the chain is cut, and the total difficulty too large |
| Shunting.Shunt | src/computer/ast.cpp:253-376 | the loop over the characters computes the reference scan, with every way to refuse a text |
| Shunting.PopOperators | src/computer/ast.cpp:345-351 | moves operators to the output down to the first that binds less tightly, or a parenthesis |
| ShuntedTexts.ShuntedIff | src/computer/ast.cpp:253-376 | for every text: it is taken if and only if all characters are allowed, parentheses match, no operator stands first, last, after another operator or an opening parenthesis, and some operator stands outside all parentheses |
| ShuntedTexts.RefusedFor | src/computer/ast.cpp:318-375 | for every text, which error: that of the first character out of place; if there is none, an opening parenthesis that is not closed; and otherwise no operator outside all parentheses |
| ShuntedTokens.TokensKept | src/computer/ast.cpp:253-376 | for every text that is taken, well-formed or not: the postfix has exactly its numbers, in order, each a longest run of digits, and each operator as often as the text |
| ShuntedTexts.ProductFirst | src/computer/ast.cpp:258-262 | 1+2*3 gives 1 2 3 * + |
| ShuntedTexts.ParenthesesFirst | src/computer/ast.cpp:309-331 | (1+2)*3 gives 1 2 + 3 * |
| ShuntedTexts.LeftFirst | src/computer/ast.cpp:345-351 | 1-2-3 gives 1 2 - 3 - |
| ShuntedTexts.OperatorAfterBoth | src/computer/ast.cpp:329-353 | two numbers followed by an operator and a space are taken, and evaluated as an operation on the two |
| ShuntedTexts.OperatorBeforeAll | src/computer/ast.cpp:329-353 | an operator after a space, with nothing before it, is taken, and the result cannot be evaluated |
| Shunting.ShuntedExpr | src/computer/ast.cpp:253-376 | against a grammar of sums of products of numbers and parentheses, grouped from the left: every well-formed expression, however it is spaced, gives its postfix if it is an operation, and is refused if and only if it is a number alone or in parentheses |
| Shunting.PostfixValue | src/computer/ast.cpp:345-375 | evaluating the postfix of an expression on a stack gives the value of the expression, whatever the numbers stand for and whatever the operations are |
| Shunting.OperandsBind | src/computer/ast.cpp:258-262 | the precedences give the grouping of the grammar: a left operand binds at least as tightly as its operation, a right operand more tightly |
| Shunting.ShuntKeepsValue | src/computer/ast.cpp:253-376 | for every well-formed expression: if shunt succeeds, its result evaluates to the value of the expression |

## Left out

- Base64.Decode: strings longer than `int in_` can index, and locales other than "C" for `isalnum`.
- StreamBufModel.Step: `pbase`, which no operation reads; `commit` is modelled without the cast of n to `int`, and so is the step `Consume`.
- StreamBuf.BasicStreambuf.Reserve: failure of the vector to allocate, and whether a resize moves the array; the capacity after a reallocation is any that suffices.
- StreamBuf.ReadAt: completion conditions other than `transfer_all`; a successful read transfers at least one character.
- SocketModel: `native_non_blocking`, the value of `timeout()` passed to `poll`, and Windows Runtime builds; what `poll` and the clock answer is part of the schedule.
- SocketStreamBuf.BasicSocketStreambuf.InitBuffers: `connect` and `close`, which call it, end a run, because it drops pending output; so do moves of the stream buffer.
- Putback and the other inherited `std::streambuf` operations, apart from `sputc` and `sbumpc`.
- HandlerModel: executors, cancellation slots and the associated lookups of `any_completion_handler`; identity of targets is modelled, not reuse of their addresses. A called handler keeps its function table without a target, which only those lookups could observe.
- AllocatorModel: overflow of size + align + 8; where the underlying allocator puts a block is any free place, and `std::align` is modelled by what it is specified to do. The slot is written most significant byte first; nothing depends on the order.
- ChainstateStore.MemChainstate.RemoveUtxo: what a read through the dead iterator gives; the model goes on with the record of the erased entry.
- ChainModel: signatures, reward, Merkle root, difficulty and depth are one arbitrary function of chain, chainstate and block, and whether proofs verify one of the block and the number of earlier bindings; a missing proof, which throws, counts as one that does not verify. The block store gives back the block that was appended; mempool, computation store and wallet are not modelled.
- ChainRuns.EveryRun: the list of forks, and which fork the manager picks for a block; reorganisations onto any fork, of any total difficulty, are events.
- ChainManagement.ChainManager.Reorg: total difficulties have no upper bound; the assertion around putting blocks back is taken to be compiled in.
- ChainFailures.FailedForkIff: a main chain whose blocks above the fork point cannot be rewound; for that ReorgMeans says what happens, in terms of what the first rewind gives.
- Shunting.Shunt: what `std::stoi` makes of a number.
- `ASTree::build_tree`: the tree and its rotations, which leave the parent of a moved subtree as it was. FHE evaluation, proofs, mempool, wallet and networking.
