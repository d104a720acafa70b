# Coroutine async-stack reconstruction, modelled in Dafny

Two WinDbg scripts, `coroutines.js` and its earlier version `find_coro.js`,
rebuild the "async call stacks" of C++ coroutines in a process or dump.
For one coroutine function they work in four steps:

1. They ask the debugger for the frames of that function on the heap (`find_all_coro_frames`).
2. From each frame they follow the parent handle stored in the frame's heap header, one level per unit of depth. They stop when an address looks implausible, a read faults, or the parent runs a function outside the module (`walk_parent_chain`).
3. They turn each chain into a text key of function addresses and count how often each key occurs (`unique_coroutine_frames`).
4. A batch driver runs all this for every function a symbol search finds (`all_unique_coroutine_frames`). A printer splits a key back into addresses (`print_stack_from_addresses`).

The model has one engine with the two scripts' differences as parameters:

- **The plausibility threshold.** It is `0x7F000000` in `coroutines.js` and `0x100000` in `find_coro.js`.
- **The key style.** `coroutines.js` lists addresses child first, each followed by a comma. `find_coro.js` lists them oldest ancestor first, each preceded by a comma.

The modules `Coroutines` and `FindCoro` fix these constants.

The model has these parts:

- **Memory.** The debugger's memory is a map from readable addresses to the 8-byte word stored there. An address missing from the map is a read fault. A word's text is `0x` followed by lower-case hex digits, as in the scripts' documented output. `parseInt(text, 16)` of that text gives the word back (`Numbers.ParseWordText`). A frame-address token of hex digits parses to the digits' value (`Numbers.ParseHexDigits`).
- **Debugger commands.** Their output is input lines. `heapSearch` maps a function address to the frame search's output lines, and `symbolLines` is the symbol search's output.
- **Frame addresses.** A frame address is `Option<int>`, where `None` is the NaN that `parseInt` gives for a token without hex digits.
- **Errors.** A JavaScript exception is an explicit result. When a frame-search line has fewer than three space-separated tokens, `splits[2].replace` raises a `TypeError`. The search then returns `Malformed(line)`, `unique_coroutine_frames` returns `None`, and the batch driver stops.

The walk can return an empty chain. The code returns `[]` in three cases (`coroutines.js:183-209`):

- when the depth is 0 or less;
- when the child's parent-reference slot is implausible, including a NaN frame address;
- when the first read faults.

`Walker.WalkEmptyIff` states exactly when the chain is empty. When the second read faults, the code keeps the child alone; `Walker.WalkFromReadableSlot` states that case, along with the other ways a walk can end at the child.

## Model

| member | source | states |
|---|---|---|
| Walker.ParentStep | coroutines.js:187-216 | one level of the walk stops and drops the child exactly when the child's slot is implausible or unreadable; `WalkFromReadableSlot` and `WalkLinked` state its other outcomes |
| Walker.Walk | coroutines.js:182-229 | the chain is empty for depth <= 0, at most `depth` frames long otherwise, and ends with the child when not empty |
| Walker.WalkEmptyIff | coroutines.js:182-209 | the walk returns nothing exactly when the depth is spent, the frame address is NaN, the parent-reference slot (`co - 0x40 + 0x10`) is implausible, or reading it faults |
| Walker.WalkFromReadableSlot | coroutines.js:211-228 | with a readable slot, a faulting, implausible or out-of-module parent ends the chain at the child alone; otherwise the chain is the parent's chain, one level shallower, followed by the child |
| Walker.ImplausibleSlotReadsNothing | coroutines.js:193-196 | an implausible slot ends the walk before any read: the result is empty and does not depend on memory |
| Walker.WalkLinked | coroutines.js:211-221 | each frame of a walked chain is the parent of the next: its address is the word at the next frame's slot, it is plausible, and its function word lies inside the module and is its function text |
| Walker.WalkStopsForAReason | coroutines.js:182-228 | a walk ends only when the oldest frame's step keeps it without going further, the depth is used up, or the next parent's slot is unreadable |
| Walker.WalkDeeper | coroutines.js:219-221 | one more unit of depth only adds ancestors: the shallower chain is a suffix of the deeper one, which is at most one frame longer |
| Coroutines.Config | coroutines.js:146-152 | an address is plausible exactly when it is above 0x7F000000; a function address is valid exactly when it is within the module bounds, both ends included |
| FindCoro.Config | find_coro.js:87-93 | an address is plausible exactly when it is above 0x100000; a function address is valid exactly when it is within the module bounds, both ends included |
| Coroutines.LowFrameWalksNowhere | coroutines.js:187-196 | a frame at or below 0x7F000030 has an implausible slot, so its chain is empty whatever the memory holds |
| FindCoro.LowFrameWalksNowhere | find_coro.js:128-137 | a frame at or below 0x100030 has an implausible slot, so its chain is empty whatever the memory holds |
| Locator.ParseFrameLine | coroutines.js:162-169 | a line is blank exactly when it is empty, and a short line is kept as it was read |
| Locator.ParseFrameLineTokens | coroutines.js:167-176 | for a non-empty line of space-free tokens, one or two tokens make a short line and three or more give token 0, first backtick removed and parsed as hex, as the frame address and token 2, first backtick removed, as the function address |
| Locator.FrameRecords | coroutines.js:162-169 | one record per output line |
| Locator.LocateFrames | coroutines.js:154-180 | there are no more located frames than lines, every located frame runs the requested function, and an abort names a short line of the output |
| Locator.FindAllCoroFrames | coroutines.js:154-180 | the loop over the output lines returns exactly the located frames of the specification function, or the first short line |
| Locator.MalformedPersists | coroutines.js:167-169 | once a short line aborts the search, later lines change nothing |
| Locator.MalformedIff | coroutines.js:162-169 | the search aborts exactly when some line is short, and it names the first one |
| Locator.FoundFrameSources | coroutines.js:162-177 | every located frame comes from a distinct line holding the requested function, in line order, and every such line gives a located frame |
| Aggregator.StackKey | coroutines.js:57 | the `reduce` over the chain (`acc + "," + s.fn_address` at find_coro.js:39 in the other key style): the key is empty exactly for the empty chain and has at least one character per frame; `StackKeyIsJoin`, `KeyRoundTrip` and `KeyInjective` state what it holds |
| Aggregator.StackKeyIsJoin | coroutines.js:57 | a chain's key is its key pieces joined by commas, for either key style |
| Aggregator.ReversedKeyIsJoin | coroutines.js:57 | the coroutines.js key is the chain's function addresses reversed (child first) and joined by commas, with an empty last piece |
| Aggregator.LeadingKeyIsJoin | find_coro.js:39 | the find_coro.js key is the chain's function addresses in chain order joined by commas, after an empty first piece |
| Aggregator.KeyOfFns | coroutines.js:57 | the key depends on the chain's function addresses alone, not on its frame addresses |
| Aggregator.KeyRoundTrip | coroutines.js:57 | splitting a key on commas and dropping empty pieces gives back the chain's function addresses in the key's order, when none is empty or holds a comma |
| Aggregator.KeyInjective | find_coro.js:39 | two comma-free chains share a key exactly when their function addresses agree in order, so a key stands for one stack |
| Aggregator.ReversedKeyDeterminesFns | coroutines.js:57 | equal coroutines.js keys of comma-free chains mean equal function addresses in order |
| Aggregator.LeadingKeyDeterminesFns | find_coro.js:39 | equal find_coro.js keys of comma-free chains mean equal function addresses in order |
| Aggregator.CountKeys | coroutines.js:59-63 | the `has`/`get`/`set` counting: the map is empty exactly when there are no keys; `CountKeysMultiplicity` and `CountKeysTotal` state its contents |
| Aggregator.CountKeysMultiplicity | coroutines.js:59-63 | the map's keys are the distinct keys counted, and each count is the number of occurrences of its key |
| Aggregator.SameKeyCountedOnce | coroutines.js:59-63 | N occurrences of one key give a one-entry map counting N |
| Aggregator.CountKeysTotal | coroutines.js:53-64 | the counts sum to the number of keys, that is to the number of located frames |
| Aggregator.CountStacks | coroutines.js:53-64 | the counting loop yields the count of the keys of every located frame's walked chain, in frame order |
| Aggregator.ThreeLevelWalk | coroutines.js:182-229 | a frame whose parent handle leads to an ancestor, whose own parent is a root with a null parent handle, walks at depth 3 to `[root, ancestor, frame]` |
| Aggregator.SharedAncestryOneKey | coroutines.js:53-64 | two frames of one function whose parent handles lead to the same ancestor and root walk at depth 3 to chains `[root, mid, child]`, and the map holds a single key counted twice |
| Aggregator.UniqueStacks | coroutines.js:43-64 | what `unique_coroutine_frames` returns: `None` exactly when the frame search's output for the stripped address has a short line; `UniqueCoroutineFrames` and `CountStacks` state the map |
| Aggregator.UniqueCoroutineFrames | coroutines.js:43-72 | after the `0x` strip, the result is `None` when the frame search aborts, and otherwise the counted keys of the located frames' chains |
| Text.Split | coroutines.js:87 | `split` yields at least one piece and no piece holds the separator |
| Text.SplitJoin | coroutines.js:105 | splitting a join of separator-free pieces gives the pieces back |
| Text.JoinSplit | coroutines.js:105 | joining the pieces of a split gives the string back |
| Text.NonEmpty | coroutines.js:105-108 | the pieces kept are exactly the non-empty ones, none is empty, and there are no more of them than pieces |
| Text.NonEmptyAppend | coroutines.js:105-108 | dropping empty pieces distributes over concatenation |
| Text.NonEmptyKeeps | coroutines.js:105-108 | nothing is dropped when no piece is empty |
| Text.ReplaceFirst | coroutines.js:168-169 | `replace('`', '')` changes nothing when there is no backtick and otherwise removes exactly one character; it never adds a character that was not there |
| Text.ReplaceFirstRemovesFirst | coroutines.js:92 | returns the index of the first backtick; the result is the text before it followed by the text after it |
| Text.StripHexPrefix | coroutines.js:44-46 | a leading `0x` is removed and nothing else; text without it is unchanged |
| Numbers.ParseInt16 | coroutines.js:176 | `parseInt(_, 16)`: a negative result needs a minus sign in the text; `ParseHexDigits` gives the value of a frame-address token, and `ParseWordText` states that a word's text reads back as the word, as the same parse reads the memory word at coroutines.js:211 |
| Numbers.ParseHexDigits | coroutines.js:168-176 | a non-empty token of hex digits, such as the frame address `000001d23f4e5060` once its backtick is removed, parses to the digits' value, leading zeros included |
| Numbers.ParseWordText | coroutines.js:211-214 | `parseInt(_, 16)` of a word's debugger text is the word |
| Numbers.WordTextInjective | coroutines.js:219 | distinct words have distinct texts |
| Numbers.HexValue | coroutines.js:211 | the hex digits of a number read back as the number |
| Numbers.HexRun | coroutines.js:211 | `parseInt`'s digit run is the longest prefix of hex digits |
| Numbers.SkipSpace | coroutines.js:211 | `parseInt` skips a prefix made only of white space, and what is left does not start with white space |
| StackPrinter.PrintStackFromAddresses | coroutines.js:104-111 | the addresses handed to the disassembler are the comma-separated pieces in order with the empty ones skipped; each is non-empty and comma-free |
| StackPrinter.WordTextCommaFree | coroutines.js:219 | a word's text is non-empty and holds no comma |
| StackPrinter.WalkAncestorsAreWords | coroutines.js:219-220 | every frame the walk puts above the child has a word's text as its function address |
| StackPrinter.PrintedKeyIsChain | coroutines.js:38-42 | printing a walked chain's key visits the chain's function addresses in the key's order, when the requested address is non-empty and comma-free |
| Coroutines.KeyStartsWithChild | coroutines.js:57 | the key of a non-empty chain starts with the child's function address and a comma |
| FindCoro.KeyEndsWithChild | find_coro.js:39 | the empty chain's key is empty, and any other key ends with a comma and the child's function address |
| Coroutines.DocumentedKey | coroutines.js:35-42 | a three-frame chain `root, mid, child` has the key `child,mid,root,`, and printing it visits child, mid, root |
| FindCoro.DocumentedKey | find_coro.js:15-24 | the same chain has the key `,root,mid,child`, and splitting it gives the addresses in chain order |
| Driver.SymbolAddress | coroutines.js:87-92 | the function address taken from a symbol line holds no space, and it is the line's first token when that token has no backtick |
| Driver.BatchReports | coroutines.js:79-97 | the batch makes at most one report per line; `BatchFollowsSymbols` states which reports, in which order, and when it stops |
| Driver.AllUniqueCoroutineFrames | coroutines.js:79-97 | the loop over the symbol lines, running `unique_coroutine_frames` on each address, yields exactly the batch's reports and whether it reached the end; the reports are the maps each run logs (coroutines.js:66-69), since the script discards them (coroutines.js:95) and itself returns nothing |
| Driver.BatchStopPersists | coroutines.js:95 | once a run has raised, later lines add nothing |
| Driver.SymbolAddressesSnoc | coroutines.js:82-92 | one more symbol line adds its function address to the batch's addresses unless the line is empty |
| Driver.BatchFollowsSymbols | coroutines.js:79-97 | for any per-address run, the reports are for the first non-empty symbol lines' addresses (first token, first backtick removed), in order, each holding what the run returned; the batch reaches the end exactly when every address was reported, and otherwise the next address's run raised |
| Driver.BatchReportsUniqueStacks | coroutines.js:79-97 | with `unique_coroutine_frames` as the run, each report holds what it returns for its symbol address, and a batch that stops early stopped on an address whose frame search output has a short line |

## Left out

- The debugger commands (`x`, `!ext.heap -srch` with its `!mex` pipeline and `first_n` limit, `!mex.head -n 1 u`) are not run: their output lines are parameters. The `first_n` limit is therefore part of the given search output.
- Logging text is left out: the `log` formatting, `exec`'s echo, the `Printing Map.` header and the `fn_name` text the driver logs. For `unique_coroutine_frames` the logged map is also its return value, which the model keeps. The batch driver discards each run's return value (`coroutines.js:95`) and returns nothing, so its only output is what each run logs. The model's `Driver.AllUniqueCoroutineFrames` returns those logged maps as its `reports`.
- The disassembly that `print_stack_from_addresses` triggers is left out. The model returns the list of addresses it would disassemble.
- `walk_coroutine_chain` (coroutines.js:113-132), a manual entry point that starts from a raw frame address, is not part of this model.
- `iunknown_rcw.js` is not part of this model.
- Walker.Walk: memory is a fixed snapshot. Reads of a live process that change between steps are not modelled.
- Walker.Walk: addresses are unbounded integers. JavaScript's loss of precision above 2^53 is not modelled.
- Aggregator.UniqueCoroutineFrames takes the module bounds as already-parsed integers. The script calls `parseInt(_, 16)` on them, and for a Number argument that call reads its decimal digits as hex. That quirk is not modelled.
- Walker.Walk: the outer `catch` (coroutines.js:223-226, find_coro.js:164-167) also catches what the recursive call throws, such as a `RangeError` when a looping parent chain and a large depth exhaust the JavaScript stack; the script then returns `[child]` at the level that caught it, while the model keeps recursing to the depth (a frame linked to itself walks to `depth` copies of itself).
- Aggregator.CountKeys: a `map` has no order, so the first-seen key order in which the returned `Map` and the log list their entries is not modelled.
- Exceptions other than the short frame-search line are not modelled. The memory reads' exceptions are modelled as map misses, and the walk's own `catch` blocks handle them.
- Numbers.ParseInt16: the white space `parseInt` skips is the listed set (ASCII white space, no-break space, byte-order mark, line and paragraph separators). The other Unicode space separators are not modelled.
- Numbers.WordText: the debugger's text for a memory word is assumed to be `0x` plus lower-case hex digits without leading zeros, as in the documented output.
