# Verified models of SpiderMonkey's script analyses, number conversion and arrays

This project models four parts of the engine and proves what they are for.

* **Script analyses** (`jsanalyze.cpp`, `jsanalyze.h`).  Bytecode is a sequence of
  abstract operations of unit length with control-flow edges and runs
  (`Bytecode.dfy`).  `BytecodeSweep.dfy` is the forward sweep that rolls back on loop
  back edges; `Lifetimes.dfy`, `LifetimeSteps.dfy`, `LifetimeGaps.dfy` and
  `LifetimeAnalysis.dfy` are the one-pass backward liveness analysis; `Coverage.dfy`
  says exactly which offsets it covers, `Liveness.dfy` and `LivenessLimits.dfy` which
  live ones it does not, and `NestedLoops.dfy` is a script where it misses something;
  `SsaValues.dfy`, `SsaState.dfy`, `SsaListing.dfy`, `SsaSources.dfy` and
  `SsaAnalysis.dfy` build phi nodes from pending values and list the new values at
  joins, and `SsaRuns.dfy` shows that nothing else gets into their expansions;
  `ScriptAnalysis.dfy` runs the three passes one after the other;
  `ArgumentsUsage.dfy` is the search over the cyclic use graph that decides whether
  a script needs its arguments object, and `ArgumentsRuns.dfy` what that means for runs.
* **Big numbers and decimal conversion** (`dtoa.c`, the configuration with 64-bit
  intermediate results, 32-bit words and IEEE doubles).  `Words.dfy`, `Bigints.dfy`,
  `Subtraction.dfy`, `Division.dfy` and `PowersOfFive.dfy` are the arithmetic on word
  arrays; `Allocator.dfy` the size-class allocator; `Decimals.dfy`,
  `RoundingInterval.dfy`, `ShortestDigits.dfy` and `FixedDigits.dfy` the digit loops;
  `Doubles.dfy`, `Scaling.dfy`, `Dtoa.dfy`, `DtoaFixed.dfy` and `DoubleRounding.dfy`
  lead from a double to its digits; `Strtod.dfy` is the exact comparison of a double
  with a decimal, and `StrtodDecision.dfy` what is decided by it.
* **Arrays** (`jsarray.cpp`, `jsarrayinlines.h`).  `DenseArrays.dfy` has dense and slow
  storage and the methods that have a path for each.
* **Indexes and ids** (`jsatom.cpp`, `jsatominlines.h`, `jsarray.h`, `jsarray.cpp`).
  `Indices.dfy` prints and parses array indexes and canonicalises ids;
  `LexicographicInts.dfy` is the comparator that orders integers as strings.

`dafny verify dfyconfig.toml` checks the whole project.

## What is taken for granted

* A script's loops are structured (`Bytecode.StructuredLoops`): each loop has one back
  edge, to a `LOOPHEAD`; a loop is entered by falling or jumping into its head, or by
  a `GOTO` just before the head that jumps into the body.
* The decimal exponent that digit generation starts from is that of the double, or one
  more and then marked as an estimate (`Scaling.Estimate`); the floating-point
  computation of it is not modelled.
* An approximation of a decimal is scaled up by 2^106 if it may be denormalised, and
  then the bits below its last place are zero (dtoa.c:1824-1842); without the scaling
  its exponent field is above 107 (`StrtodDecision.ScaledUp`).  A shift by 32 or more in
  dtoa.c:2086 is taken modulo 32.
* Sizes are those of a 64-bit build: a block header of 28 bytes with one word, padded
  to 32, and pool units of eight bytes.

## Findings

* dtoa.c:1026-1058.  `cmp` is the sign of the difference except for two zeros of
  different encodings (without words, and with one zero word), which compare by their
  word counts; `Subtraction.Cmp` states this exactly.
* dtoa.c:3111-3125.  If the upper end of the rounding interval is a power of ten, the
  shortest-digits loop chooses it over the digit nine even where nine is nearer.
  `Shortest` allows for that case, and `Dtoa.TieIsClosest` shows that no double has it,
  so `Dtoa.DtoaShortest` always gives a nearest one of the shortest decimals.
* dtoa.c:2144-2147.  When a decimal lies exactly half way between two denormalised
  doubles, the test for an even significand looks at the last bit of the scaled
  approximation, which is zero for all of them, so an odd one is accepted.
  `StrtodDecision.Decide` says exactly when the wrong double is accepted
  (`StrtodDecision.Mistaken`); `StrtodDecision.LeastTie` and `LeastTieExists` are an
  instance, three halves of the least double.
* jsarray.cpp:2018-2020.  The last entry of the table of powers of ten is 10^12 where
  10^10 would be next.  It is used only against zero, so the comparator is right
  nevertheless (`LexicographicInts.DigitsAsStrings`).
* jsanalyze.cpp:1361-1377.  The SSA pass takes values over at a loop head only if the
  operation before it falls into it.  If the loop starts the script, the initial values
  of the variables that it writes are lost.  `SsaAnalysis.SsaSound` says exactly this:
  the last writer is in the recorded expansion if and only if it is not such an initial
  value; `SsaAnalysis.FirstLoopForgets` is a script and a run where it is not.  The
  emitter puts a NOP, a POP or a GOTO before every loop head
  (frontend/BytecodeEmitter.cpp:5152-5164, 4925-4955, 5230-5234), so no script that it
  emits starts with one; for such scripts `ScriptAnalysis.NoFirstLoop` has no exception.
* jsanalyze.cpp:948-975.  `savedEnd` remembers forward jumps only, so a jump out of an
  inner loop over a later write is not bridged in the rest of that loop.
  `Coverage.CoveredExactly` says which offsets are covered and
  `LivenessLimits.CoveredUnlessStranded` which live ones are not; `LivenessLimits.LiveIsCovered` shows that there are none if no jump out of an
  inner loop passes over a write to the variable in an outer one; and
  `NestedLoops.NestedNotCovered` is a script, a `continue` of the outer loop, where one
  is missed.
* jsanalyze.cpp:1373-1375.  If a jump from before a loop goes to its head, marking the
  old value of a variable at pending targets lists it at the head itself, and the loop
  phi is then listed a second time (`SsaListing.ListedTwice`).  The last entry is the
  right one in any case (`SsaListing.FinalLists`), and for the reason above the emitter
  makes no such jump.

## Model

| member | source | states |
|---|---|---|
| BytecodeSweep.Sweep.AddJump | jsanalyze.cpp:72-123 | A jump leaves its target with the depth of the jump and marked as a jump target, and keeps all other entries; the sweep goes back to a target it had passed without analysing it, and a failure means that runs disagree on a depth or leave the script. |
| BytecodeSweep.Sweep.AddFall | jsanalyze.cpp:660-685 | Falling through leaves the successor with the depth, and its two fallthrough flags say whether control falls into it from a jump or from another operation, as the SSA pass relies on. |
| BytecodeSweep.Sweep.AnalyzeOp | jsanalyze.cpp:256-685 | One operation propagates its depth to all its successors, keeping what was propagated before. |
| BytecodeSweep.Sweep.Run | jsanalyze.cpp:237-685 | The sweep terminates despite rollbacks; it succeeds exactly when all runs agree on the stack height at every offset, and then every created entry is analysed. |
| BytecodeSweep.DepthsSound | jsanalyze.cpp:237-685 | After a sweep, every run arrives at each offset with the recorded stack depth. |
| BytecodeSweep.SweptConsistent | jsanalyze.cpp:72-123 | A finished sweep shows that no two runs disagree, and its entries are exactly the offsets that runs reach. |
| BytecodeSweep.TargetsMarked | jsanalyze.cpp:642-685 | After a sweep the marked jump targets are exactly the offsets that a reached operation jumps to, and those after reached conditional jumps. |
| Lifetimes.Live | jsanalyze.h:578-589 | The query finds a segment exactly when one covers the offset, or the variable is alive up to it. |
| Lifetimes.FirstWrite | jsanalyze.h:591-602 | The first write segment in a range, or the maximum if there is none. |
| Lifetimes.OnlyWrite | jsanalyze.h:630-644 | The only write segment in a range; the maximum exactly if there is none or more than one. |
| Lifetimes.FirstWriteInCode | jsanalyze.h:591-602 | On segments that index the writes of a script, the first write in a range is what a scan of the code finds. |
| Lifetimes.OnlyWriteInCode | jsanalyze.h:630-644 | And so is the only write. |
| LifetimeSteps.ExtendOk | jsanalyze.cpp:1083-1182 | Extending a variable over a loop keeps its segments sorted with their ends before the next start, and its first segment. |
| LifetimeSteps.ExtendFacts | jsanalyze.cpp:1083-1182 | Extending over a loop keeps the writes and everything covered before. |
| LifetimeSteps.ExtendFills | jsanalyze.cpp:1083-1182 | The last segment before the back edge is extended to it, and the gaps that a saved end bridges are filled. |
| LifetimeSteps.StepVariableOk | jsanalyze.cpp:740-985 | Each operation of the backward pass keeps a variable's segments sorted with their ends before the next start, and its write segments at the writes. |
| LifetimeGaps.PassBridged | jsanalyze.cpp:948-975 | At every offset, each gap between the segments of a variable ends at a write, and the jumps in it are remembered by the saved end before it, for all loops around the offset. |
| Liveness.StepPlain | jsanalyze.cpp:799-985 | Passing an operation, in any nest of loops: a variable that some path from later on reads first is covered there or stranded, and found live at the operation if it is live there. |
| Liveness.StepHead | jsanalyze.cpp:754-770 | The same at a loop head, where the variables live there are extended over the loop. |
| LivenessLimits.CoveredUnlessStranded | jsanalyze.cpp:706-985 | Where a variable is live, it is covered if and only if the offset is not stranded: on a straight line to a write, out of loops that end before it and were scanned with the variable dead. |
| LivenessLimits.NotStranded | jsanalyze.cpp:948-975 | If no jump from within an inner loop to later in an outer one passes over a write to the variable, no offset where it is live is stranded. |
| LivenessLimits.LiveIsCovered | jsanalyze.cpp:706-985 | Then the variable is covered wherever it is live, in any nest of loops. |
| Coverage.ExtendOnly | jsanalyze.cpp:1083-1182 | Extending over a loop covers nothing but the gap after the last segment in the loop and those that a saved end bridges. |
| Coverage.PassExplained | jsanalyze.cpp:740-985 | At every offset of the backward pass, a variable is found live, or covered later on, only if a walk forward in the code leads to an access, or a loop comes round to one. |
| Coverage.WalkAlive | jsanalyze.cpp:799-985 | And where a walk starts that leads to an access, the variable is found live, or is written there. |
| Coverage.RoundCovered | jsanalyze.cpp:1083-1182 | Where a loop may come round, with no write before its back edge or before a jump in it, a variable that is live at the head is covered. |
| Coverage.CoveredExactly | jsanalyze.cpp:706-985 | An offset is covered if and only if a walk leads from it to an access (to the next offset or by a jump forward, past no write, and to a write only by a jump or at once; a switch may go anywhere later), or it lies in a loop that may come round from it and a walk leads to an access from the head. |
| Coverage.CoveredOutsideLoops | jsanalyze.cpp:706-985 | Outside loops an offset is covered if and only if such a walk starts there. |
| NestedLoops.NestedNotCovered | jsanalyze.cpp:948-975 | A script that the first pass accepts, with structured loops, and a reached offset where a variable is live but not covered. |
| LifetimeAnalysis.SavedFits | jsanalyze.cpp:706-736 | A list of distinct slots is no longer than the number of slots, and shorter if one is missing, so the saved array is never overrun. |
| LifetimeAnalysis.Analysis.AddVar | jsanalyze.cpp:1001-1028 | Adding a variable on the saved array does what the step on its segments says, and removes it from the list. |
| LifetimeAnalysis.Analysis.KillVar | jsanalyze.cpp:1031-1080 | Killing a variable leaves it dead with a write segment, and puts it on the saved list exactly once. |
| LifetimeAnalysis.Analysis.RemoveSaved | jsanalyze.cpp:1013-1022 | Moving the last entry into a removed one's place drops exactly that slot. |
| LifetimeAnalysis.Analysis.ReviveSaved | jsanalyze.cpp:835-850 | At a switch all saved variables become live again. |
| LifetimeAnalysis.Analysis.JumpForward | jsanalyze.cpp:948-975 | At a forward jump the saved variables that are live at the target become live again, and the others remember the jump. |
| LifetimeAnalysis.Analysis.ExtendSegments | jsanalyze.cpp:1083-1182 | The loop over the segments computes the recursive extension. |
| LifetimeAnalysis.Analysis.Analyze | jsanalyze.cpp:706-985 | The backward pass over all slots at once leaves each one that does not escape as the pass over it alone does, with the segment order and the index of writes, keeps the saved list, and finds all loops. |
| SsaAnalysis.Analysis.InsertPhi | jsanalyze.cpp:1656-1704 | The value is appended to the options of the phi node, unless it is one of at most eight options; no other node changes, options are values of the node's slot, and the first nine differ. |
| SsaAnalysis.Analysis.MergeValue | jsanalyze.cpp:1707-1726 | The merged entry accounts for both values, by a phi node of the offset that gets no other options, and is unchanged if they are equal. |
| SsaAnalysis.Analysis.CheckPendingValue | jsanalyze.cpp:1729-1741 | An entry is added exactly if the slot has none. |
| SsaAnalysis.Analysis.MergeBranchTarget | jsanalyze.cpp:1801-1832 | Skipping the targets below `branchSize` has the same effect as marking the old value at every pending target. |
| SsaState.MarkSkipped | jsanalyze.cpp:1801-1832 | Targets that already have an entry for the slot need no marking, so the eager marking of all targets equals that of the rest. |
| SsaState.AssignBookkeeping | jsanalyze.cpp:1743-1832 | Changing a slot keeps, for every pending target, that each branch to it is accounted for by an entry or by the slot being unchanged since. |
| SsaState.JumpAgain | jsanalyze.cpp:1744-1780 | A further branch to a pending target is accounted for in all its entries. |
| SsaState.JumpFirst | jsanalyze.cpp:1744-1780 | A first branch to a target needs no entries: the slots are unchanged since. |
| SsaAnalysis.Analysis.Join | jsanalyze.cpp:1380-1403 | At a join the current values account for those of every branch to it and of the fallthrough. |
| SsaAnalysis.Analysis.EnterLoop | jsanalyze.cpp:1304-1379 | At a loop head every slot that the loop writes has a phi node, which accounts for the values that enter. |
| SsaAnalysis.Analysis.CheckBranchTarget | jsanalyze.cpp:1744-1780 | Recording a branch keeps the invariant of the sweep. |
| SsaAnalysis.Analysis.CheckBackEdge | jsanalyze.cpp:1602-1613 | The back edge merges its values into the phi nodes of the head, which covers every path around the loop. |
| SsaState.BackEdgeFlows | jsanalyze.cpp:1602-1613 | The values at the back edge flow into those recorded at the head, for written and unwritten slots. |
| SsaListing.NextTaken | jsanalyze.cpp:1393-1400 | Merging and taking over a pending entry keeps each phi node listed once at its own offset, and the values equal to the entries taken over. |
| SsaListing.ListedTwice | jsanalyze.cpp:1359-1379 | Giving a slot its loop phi lists it a second time exactly if a jump came to the head before. |
| SsaListing.ListsFrozen | jsanalyze.cpp:1882-1907 | Freezing the pending values of an offset changes nothing of what is listed at any offset. |
| SsaListing.FinalLists | jsanalyze.h:173-181 | After the pass, the value of a variable at every reached offset is the last one listed for it there, or else the value after the reached operation before; it is listed once unless a jump goes to a loop head; and every phi node is listed exactly once, at the offset it was created at. |
| SsaSources.BookkeepingMarks | jsanalyze.cpp:1801-1832 | A value that is marked at a pending target before the slot changes is the value at a jump to that target. |
| SsaSources.ReplacedTraced | jsanalyze.cpp:1707-1726 | When a pending entry is merged, every option that its phi node gets is a value that some edge of control brings to the operation of the node. |
| SsaSources.TakeTraced | jsanalyze.cpp:1328-1400 | Merging an entry with the value that falls in, at a join or a loop head, lists only values that arrive there. |
| SsaSources.LoopPhiAssigned | jsanalyze.cpp:1359-1379 | So does giving a slot its loop phi. |
| SsaSources.CloseTraced | jsanalyze.cpp:1602-1613 | And so does the back edge. |
| SsaAnalysis.Analysis.Analyze | jsanalyze.cpp:1223-1638 | The pass keeps its invariant to the end of the script, with a value recorded at every access and the new values listed. |
| SsaAnalysis.RunsFlow | jsanalyze.cpp:1277-1616 | On every run the last write to a tracked slot, or its initial value unless a loop at the start forgets it, is in the expansion of the value recorded at the offset the run arrives at. |
| SsaAnalysis.SsaSound | jsanalyze.cpp:1277-1616 | At every access of a run the concrete last writer is in the transitive phi expansion of the recorded value, if and only if it is not an initial value forgotten by a loop at the start; and that expansion has only values of the accessed variable. |
| SsaRuns.NodeRuns | jsanalyze.cpp:1656-1726 | Each write and each initial value in the expansion of a phi node is the last one of some run to the operation where the node was created. |
| SsaRuns.HeadHolds | jsanalyze.cpp:1304-1379 | A value before the goto that enters a loop below its head, in a slot that the loop does not write, is the value on some run to the head. |
| SsaRuns.SsaExact | jsanalyze.cpp:1277-1616 | Precision: at every recorded access, each write and each initial value in the expansion is the last one of some run that arrives there. |
| SsaRuns.RecordedWhere | jsanalyze.cpp:1410-1470 | A value is recorded exactly at the operations that access a tracked variable and that some run arrives at. |
| SsaAnalysis.FirstLoopForgets | jsanalyze.cpp:1361-1377 | A script that starts with a loop and a run that reads an initial value in it which is not in the expansion of what the pass records. |
| ScriptAnalysis.SweptReached | jsanalyze.cpp:237-685 | The entries of the sweep are exactly the offsets that some run reaches. |
| ScriptAnalysis.NoFirstLoop | jsanalyze.cpp:1277-1616 | In a script that does not start with a loop head, the last writer of every access on every run is in the recorded expansion. |
| ScriptAnalysis.AnalyzeScript | jsanalyze.cpp:126-1638 | The three passes together: they fail exactly if runs disagree on stack heights.  Otherwise the lifetimes cover exactly what walks and loops lead from to an access, and what is live but for stranded offsets; values are recorded exactly where a run accesses an argument or local below slot 1000 that does not escape, if variables can be tracked; each expands, apart from phi nodes, to exactly the last writers of the runs to it, but for forgotten initial values; and every phi node is listed once. |
| ScriptAnalysis.TrackedCorrect | jsanalyze.h:1164-1177 | The slots that the passes track are those from the first argument to 999 that do not escape, if variables can be tracked at all. |
| ArgumentsUsage.ClosedHolds | jsanalyze.cpp:1920-1946 | Every value that may be the arguments object is in a closed set of seen values. |
| ArgumentsUsage.Search.NeedsUse | jsanalyze.cpp:1949-1996 | A use is rejected only if a forbidden use exists; otherwise it and all it passes its value to are dealt with. |
| ArgumentsUsage.NeedsArgsObj | jsanalyze.cpp:1909-2015 | The search ends on cyclic graphs and asks for the object exactly when variables are accessed in ways that are not tracked, some use through phis and tracked locals is not allowed, or an optimized apply is not the only use that looks at the arguments. |
| ArgumentsRuns.RunFollowed | jsanalyze.cpp:1920-1996 | If all uses are harmless, then on every run the arguments object has only names that the search follows, through stack operations, variables and joins, and is in tracked variables only. |
| ArgumentsRuns.HarmlessRuns | jsanalyze.cpp:1949-1996 | Then every operation of a run that pops the object drops it, stores it in a tracked variable, reads an element or the length, or passes it on by an optimized apply; and if it is applied, nothing else applies or reads it. |
| Words.ValConcat | dtoa.c:607-662 | The value of words put one after the other. |
| Bigints.ScaleWords | dtoa.c:629-650 | The in-place carry loop: words and carry hold the product plus the addend; no 64-bit overflow. |
| Bigints.MultAdd | dtoa.c:607-662 | b * m + a, normalised, in place or in a block of the next class if the words are used up. |
| Bigints.AddRow | dtoa.c:841-854 | One row of the multiplication adds a word times a number at its place. |
| Bigints.Mult | dtoa.c:799-908 | The product of two numbers, without leading zero words, within the capacity chosen. |
| Bigints.ShiftWords | dtoa.c:995-1006 | Shifting words by less than a word: the shifted words and the bits carried out hold the product. |
| Bigints.ShiftLeft | dtoa.c:966-1024 | b * 2^k, normalised if b is not zero. |
| Subtraction.Cmp | dtoa.c:1026-1058 | The sign of the difference of trimmed numbers; two zeros compare by their word counts. |
| Subtraction.WrappedDifference | dtoa.c:1107-1117 | Bit 32 of the wrapped 64-bit difference is the borrow. |
| Subtraction.SubtractWords | dtoa.c:1107-1117 | Word-wise subtraction with a borrow, over both lengths. |
| Subtraction.Diff | dtoa.c:1060-1153 | The absolute difference, normalised, with the sign set exactly if the first number is smaller. |
| Division.LeadingZeros | dtoa.c:701-733 | The number of leading zero bits of a word. |
| Division.SubtractMultiple | dtoa.c:2382-2412 | Subtracting q times the divisor in place, with carry and wrapped borrow. |
| Division.TrialQuotient | dtoa.c:2373-2377 | The quotient of the top words, with the divisor's one too large, is the true quotient or one less. |
| Division.QuoRem | dtoa.c:2347-2463 | For a dividend below ten times a divisor with four leading zero bits: the quotient is returned and the remainder is left in place, after one trial quotient and at most one correction. |
| PowersOfFive.LadderStep | dtoa.c:941-964 | Taking one binary digit off the exponent squares the cached power. |
| PowersOfFive.Cache.PowMult | dtoa.c:910-965 | b * 5^k for every k; the i-th cached number stays 5^(4 * 2^i) over all calls, and no cached number is changed. |
| Allocator.PopList | dtoa.c:560-561 | Taking the first block of a linked free list leaves a linked list without cycles of intact blocks of the class. |
| Allocator.PushList | dtoa.c:597-598 | Putting a block in front of a free list keeps it so. |
| Allocator.State.Balloc | dtoa.c:543-582 | The first block of the list of its class, which is all that the lists lose; or, if there is none, a new block, from the pool while it fits.  It was not in use; no other block changes, the free lists stay acyclic and apart from blocks in use, every block is in use or listed, and pool blocks do not overlap. |
| Allocator.State.Bfree | dtoa.c:584-602 | A number becomes the first block of the list of its class, linked to the former first one, and the other lists are as before; if its class is too large it goes back to the system. |
| Allocator.State.Reuse | dtoa.c:543-602 | Freeing a number and allocating its class gives the same block back, and leaves the lists as they were. |
| Allocator.StringClass | dtoa.c:2479-2484 | The smallest class whose block holds the characters, a terminator and the class in front. |
| Allocator.State.RvAlloc | dtoa.c:2469-2491 | A string borrows a block of the least class with room for it. |
| Allocator.State.WriteString | dtoa.c:2493-2506 | Whatever characters are written over the header, the first int and the invariant stay. |
| Allocator.State.FreeDtoa | dtoa.c:2508-2529 | The class in front of the characters restores the header, and the block becomes the first of its list. |
| Decimals.RoundOff | dtoa.c:3211-3219 | Counting up with carry through nines, in place: the value grows by one, no trailing zero is left, and the exponent grows exactly if all digits were nine. |
| Decimals.TrimZeros | dtoa.c:3220-3226 | Dropping trailing zeros keeps the value. |
| RoundingInterval.HeadExcludes | dtoa.c:3102-3185 | Before each digit, no decimal with the digits so far, or counted up, is in the interval; nor is any other of that length. |
| RoundingInterval.NoFewerDigits | dtoa.c:3102-3185 | No decimal with fewer digits, of any exponent, is in the interval. |
| RoundingInterval.NineOnlyFirst | dtoa.c:3158-3167 | Counting up a nine can happen only at the first digit. |
| RoundingInterval.SeventeenDigits | dtoa.c:3102-3185 | With a 53-bit significand the loop ends at the seventeenth digit at the latest. |
| RoundingInterval.ClosestOfAll | dtoa.c:3146-3157 | The nearest of the two candidates is at least as near as every decimal with as many digits in the interval. |
| ShortestDigits.Decide | dtoa.c:3103-3173 | The decision on a digit keeps it or counts it up only into the interval, goes on only if neither is in it, prefers the nearer one, and the even one of two that are equally near. |
| ShortestDigits.Generate | dtoa.c:3102-3185 | The loop ends, within the buffer; its digits are in the interval, with the ends only if it is closed, none with fewer digits is, and they are a closest choice. |
| FixedDigits.RoundHalfUpUnique | dtoa.c:3208-3210 | Rounding half up is the only integer within half, ties upward. |
| FixedDigits.GenerateFixed | dtoa.c:3187-3226 | The digits and the carry are the quotient rounded half up to the given number of digits, without trailing zeros, exact if nothing remains early. |
| Doubles.TrailingZeros | dtoa.c:735-782 | The word without its trailing zero bits, and their number. |
| Doubles.D2b | dtoa.c:1266-1398 | A double as an odd number times a power of two, with the number of its bits, denormalised or not. |
| Scaling.Exponents | dtoa.c:2751-2994 | The exponents of two for the dividend, the half gap and the divisor differ as the double and the power of ten demand. |
| Scaling.RatioExact | dtoa.c:2756-3072 | The scaled quotient is exactly the double over the power of ten. |
| Scaling.DivisorShape | dtoa.c:3042-3063 | A bit length of 28 modulo 32 means a top word with exactly four leading zero bits. |
| Scaling.MakeDivisor | dtoa.c:3010-3063 | The divisor is the power of five times a power of two such that division by it applies. |
| Dtoa.FixEstimate | dtoa.c:3064-3072 | An exponent estimate that was one too large is corrected, and the ratio and the gaps stay exact. |
| Dtoa.ScaleShortest | dtoa.c:2751-3100 | The dividend over the divisor is the double over its power of ten, at least one and below ten, and the half gaps are exact, for powers of two and denormalised doubles as well. |
| Dtoa.TieIsClosest | dtoa.c:3111-3125 | If the upper end of the interval is a power of ten, it is the nearest one-digit decimal there is. |
| Dtoa.ShortestOfDouble | dtoa.c:3102-3185 | A shortest decimal of the scaled number is one of the double. |
| Dtoa.DtoaShortest | dtoa.c:2751-3254 | At most 17 digits that round to the double; no decimal with fewer digits does, and none with as many is nearer (section 9.8.1 of ECMA-262, 5th edition). |
| DoubleRounding.DecimalRounds | dtoa.c:2973-3100 | A decimal rounds to the double exactly when its scaled form is in the scaled interval. |
| DtoaFixed.RoundedIsDecimal | dtoa.c:3187-3226 | The rounded digits of the quotient are the double rounded at their position. |
| DtoaFixed.HalfPlace | dtoa.c:3073-3086 | If no digit lies before the last position, the double rounds to one unit of it exactly from half a unit on. |
| DtoaFixed.DtoaPrecision | dtoa.c:2793-2800 | The double rounded half up to a number of significant digits. |
| DtoaFixed.DtoaFixed | dtoa.c:2801-2807 | The double rounded half up at a position after or before the decimal point; zero is written as "0". |
| Strtod.S2b | dtoa.c:664-699 | The digits around a decimal point as a number. |
| Strtod.ErrorExponents | dtoa.c:1886-1939 | The three exponents keep the proportions of approximation, decimal and half unit, also for denormalised and scaled doubles. |
| Strtod.ErrorExact | dtoa.c:1886-1957 | The sign of the big-number comparison is that of the error less half a unit in the last place. |
| Strtod.CompareError | dtoa.c:1882-1957 | The comparison of the difference with the half unit, and its sign, say how the approximation lies to the decimal. |
| StrtodDecision.WithinHalf | dtoa.c:2049-2079 | For an error below half a unit the approximation stays, unless it is a power of two above the decimal by more than a quarter. |
| StrtodDecision.HalfWay | dtoa.c:2080-2163 | The choice at half a unit, by the bits of the approximation. |
| StrtodDecision.DecisionRight | dtoa.c:2049-2163 | The comparisons of the big numbers lead to the double that the decimal rounds to. |
| StrtodDecision.Decide | dtoa.c:1882-2163 | An approximation is accepted exactly if the decimal rounds to it or it is the odd one of a denormalised tie; it is called too far off exactly if the error is above half a unit; otherwise it moves to the neighbour that the decimal rounds to. |
| StrtodDecision.LeastTie | dtoa.c:2144-2147 | Three halves of the least double round to twice the least, but the least is accepted. |
| StrtodDecision.PrintedParsesBack | dtoa.c:1882-2163 | Printing a double with its shortest digits and reading these accepts the double, denormalised or not. |
| DenseArrays.GrownCapacity | jsobj.cpp:4026-4059 | Growing is refused exactly if what is required, or the capacity and an eighth, is above the limit less 2^17; else the capacity doubles up to 2^20 elements, grows by an eighth beyond, suffices, stays below the limit, and is not much more than that. |
| DenseArrays.GrowingIsAmortized | jsobj.cpp:4031-4048 | Growing again and again for one more element moves in all at most nine times as many elements as there is room for in the end. |
| DenseArrays.JsArray.EnsureInitialized | jsarrayinlines.h:54-77 | Filling with holes up to an index changes no element. |
| DenseArrays.JsArray.WillBeSparse | jsarray.cpp:281-307 | The array is refused as sparse exactly if the limit is reached or less than a quarter would be present. |
| DenseArrays.JsArray.EnsureElements | jsarrayinlines.h:78-121 | Room for the elements, with the grown capacity if there was none; or a refusal without change: as sparse exactly if the 32-bit sum wraps around or most of the new capacity would be empty, and as failed exactly if it would not but the capacity cannot grow. |
| DenseArrays.JsArray.MakeSlow | jsarray.cpp:1366-1452 | Slow storage has the same elements in slots of their own. |
| DenseArrays.JsArray.SetElement | jsarray.cpp:487-523 | One element is set in either storage, and the length grows with it; storage becomes slow exactly if it would be sparse, and setting fails exactly if dense storage that would not be sparse cannot grow. |
| DenseArrays.JsArray.DeleteElement | jsarray.cpp:538-568 | One element becomes a hole. |
| DenseArrays.JsArray.SetLength | jsarray.cpp:612-700 | Elements beyond a smaller length are dropped, the others stay. |
| DenseArrays.JsArray.Reverse | jsarray.cpp:1917-1998 | Either path leaves the elements in reverse order, holes included; if it would not be sparse, it fails exactly if dense storage cannot grow to the length. |
| DenseArrays.JsArray.MoveElements | jsobjinlines.h:489-523 | Overlapping ranges are copied as if at once, whichever direction is needed. |
| DenseArrays.JsArray.Shift | jsarray.cpp:2567-2616 | Either path returns the first element and leaves the rest. |
| DenseArrays.JsArray.InitElements | jsarray.cpp:1791-1833 | The elements are set at once in dense storage or one by one; if storage would not be sparse, this fails exactly if it cannot grow. |
| DenseArrays.JsArray.Unshift | jsarray.cpp:2618-2681 | Either path puts the items in front of all elements; it fails exactly if dense storage cannot grow, to the new length or, where that would be sparse, to the new place of the last element that is present. |
| DenseArrays.ActualStart | jsarray.cpp:2757-2762 | The start of a splice, clipped to the array; a negative one counts from the end. |
| DenseArrays.ActualCount | jsarray.cpp:2764-2777 | The number of elements to remove, clipped to what is there; all of that if it is left out. |
| DenseArrays.StartFromEnd | jsarray.cpp:2757-2762 | Starting j elements from the end is starting at the length less j, and removes at most j. |
| DenseArrays.JsArray.Splice | jsarray.cpp:2739-2923 | Either path leaves A[..s] + items + A[s+d..] and returns A[s..s+d], holes included, with the clipping of section 15.4.4.12 of ECMA-262, 5th edition; one argument deletes to the end.  An array that gets longer fails exactly if too many elements are removed or dense storage that would not be sparse cannot grow. |
| Indices.DecimalOfNumber | jsatominlines.h:156-177 | Printing a number and reading it gives the number. |
| Indices.NumberOfDecimal | jsarray.cpp:203-238 | Reading a canonical decimal and printing it gives the string. |
| Indices.BackfillIndex | jsatominlines.h:156-177 | The canonical decimal of an index is written just before the end of a buffer, in at most ten characters. |
| Indices.OverflowTest | jsarray.cpp:228-236 | The accumulator before the last digit decides whether a limit is exceeded. |
| Indices.StringIsArrayIndex | jsarray.cpp:203-238 | Exactly the canonical decimals up to 2^32 - 2 are accepted, with their value, although the accumulator wraps around. |
| Indices.CheckForStringIndex | jsatom.cpp:553-621 | An int id exactly for the canonical decimals of the integers from -2^30 to 2^30 - 1; any other id stays. |
| Indices.CanonicalIdsAgree | jsatom.cpp:553-562 | Ids name the same property exactly if their canonical ids are equal, and canonicalising twice changes nothing. |
| Indices.IndexToId | jsatominlines.h:179-190 | The id of an index has its decimal as name and is canonical. |
| Indices.IdIsIndex | jsarray.h:59-74 | Exactly the ids whose name is an array index are recognised, with the index. |
| Indices.IndexRoundTrip | jsarray.h:55-74 | Every index up to 2^32 - 2 survives the way through its id; 2^32 - 1 is rejected. |
| LexicographicInts.SameLengthOrder | jsarray.cpp:2086-2087 | Digit strings of equal length are ordered as numbers. |
| LexicographicInts.LengthOrder | jsarray.cpp:2088-2094 | Digit strings of different lengths are ordered as one number and a multiple of the other. |
| LexicographicInts.NumDigitsCounts | jsarray.cpp:2018-2034 | The number of decimal digits from the binary logarithm, none for zero, with table indexes in range. |
| LexicographicInts.ComparesAsStrings | jsarray.cpp:2049-2098 | The comparator is the order of the decimal strings for all pairs of 32-bit integers. |

## Left out

- Exceptions in scripts: try blocks, catch targets and the variables kept alive for them.
- Operand-stack values in the SSA pass, and the use chains it builds.
- Operations that decompose into several, jumps to jumps that are followed at once, debug mode and running out of memory.
- The flags and counters of the bytecode sweep other than depths, jump targets and fallthrough, and the loop fields other than head and back edge.
- The `loopTail` flag of lifetime segments, which the pass sets and nothing here reads.
- LivenessLimits.LiveIsCovered: gives a condition on the jumps and writes of a script that is enough; it is not necessary, as a jump over a write strands no one if the variable is found live in the inner loop or accessed before the write.  The condition that is both, `Stranded`, asks what the pass finds after inner loop heads.
- `nonDecreasing` on lifetimes, which looks at the kinds of writes in a loop.
- ArgumentsUsage.NeedsArgsObj: takes the use graph as given instead of building it from the values on the operand stack, which the SSA model does not have; `ArgumentsRuns` likewise takes for granted that it lists the uses of a run.
- The floating-point paths of `dtoa` and `strtod`, and the estimate of the decimal exponent; the adjustment of an approximation that is off by more than half a unit.
- Modes of `dtoa` with a digit limit on shortest digits, and directed rounding.
- Big numbers are not returned to the allocator in the arithmetic: new numbers are new objects, and `Allocator` proves the reuse of blocks on its own.
- Allocator.State.WriteString: characters written over the header are arbitrary values of its fields, not bytes.
- Allocator.State.Balloc: blocks are objects with a place, not bytes; that strings overlay the header is an arbitrary change of its fields after the first int.
- The cache of powers of five is a sequence of numbers, not a chain of links.
- Strtod.CompareError: requires the bits below the last place of a denormalised approximation to be zero, as the conversion clears them before.
- Getters, setters, proxies, enumerators and prototypes with indexed properties on arrays; the type-inference flags, where type inference is taken to be on.
- DenseArrays.JsArray.SetElement: indexes from 2^32 - 1 on, which are ordinary properties, are not modelled.
- DenseArrays.JsArray.InitElements: elements from index 2^32 - 1 on are not modelled, for the same reason.
- DenseArrays.JsArray.Unshift: the final length is below 2^32.  For 2^28 items and more it is shown to fail only for lack of room, not exactly when.
- DenseArrays.JsArray.Splice: the final length is below 2^32.  Where the array does not get longer but the items lie beyond the capacity of dense storage, it is shown to fail only near the limit of capacities, not exactly when.
- DenseArrays.JsArray.SetLength: deletes the elements of a slow array one by one for every gap, where the original walks the properties for gaps of 2^24 and more.
- Array lengths of 2^32 and more after `unshift` and `splice`, which end as ordinary properties and an error.
- Sorting, joining, concatenation and the other array methods, whose members would add little.
- Atoms as objects: an atom is its characters.
