# Taint pass model

A Dafny model of `TaintPass`, an LLVM module pass that tracks untrusted data
from the second parameter of `main` (`argv`) through the program and reports
every call to `strcpy` whose second argument is tainted, together with the
chain of calls that led there.

The model works over a small abstract IR (`Ir`): values are ids, an
instruction is one of Store, Load, GetElementPtr, BitCast, Phi, Call or
"other", a block holds its instructions and the indices of its successor
blocks, a function has a name, formals and blocks (block 0 is the entry), and
a module is a sequence of functions resolved by name.

- `Rules` holds the sink table (`strcpy`, argument position 1), the transfer
  rule of every non-call opcode, the tainted argument positions of a call,
  the mapping of those positions onto a callee's formals, and the shape of a
  report (the call first, then the backtrace innermost first).
- `Traversal` states what one traversal of a function means, as functions:
  the breadth-first walk with a FIFO queue and a visited set (`Bfs`), the
  instructions of a block in order (`Instrs`), one instruction (`Step`) and
  the handling of a call (`CallReports`): a sink match reports, any other
  callee with a body is traversed from the mapped formals with the call
  pushed on the backtrace. Lemmas prove the walk processes each block at
  most once and exactly the blocks reachable from the entry, that each
  report ends with the backtrace it was produced under, and the sink and
  descent rules.
- `TaintPassModel` is the pass itself: a class `TaintPass` with the fields
  `sinks`, `backtrace` and `reports` (the log standing in for the printed
  backtraces), whose methods run the loops and the opcode switch of the
  original — the walk, the per-block loop, the switch over one
  instruction's opcode, the argument and formal scans, the sink search,
  the phi scan, the backtrace printout and the search for `main` —
  and are each proved to compute exactly what `Traversal`, `Rules` and
  `Ir.Lookup` specify, leaving the backtrace as they found it.
- `Findings` models two defects of the code as written next to the corrected
  behaviour, which is what the model's call handling does.
- `Scenarios` proves the outcome of the analysis on two small modules: a
  tainted `argv` reaching `strcpy` directly in `main`, and reaching it
  through a helper called by name.

The traversal into callees recurses as deeply as the call graph does; each
descent is a new call of the traversal, so along a call cycle whose mapped
formals stay tainted the original recurses until the stack is exhausted.
The model requires a ghost `rank` map under which every descent into a
callee with a body goes down (`Ir.Ranked`), that is, an acyclic call graph
among defined callees.

## Model

| member | source | states |
|---|---|---|
| Ir.Lookup | hello_pass/hello_pass.cpp:264-275 | the function found by name is a function of the module with that name, and none is found exactly when no function has that name |
| Ir.LookupFindsFirst | hello_pass/hello_pass.cpp:266-272 | the function found is the first of the module with that name: every function before it has another name |
| Rules.SinkIndex | hello_pass/hello_pass.cpp:182-188 | the sink position used for a callee is the `argc` of the first sink with that name; there is none exactly when no sink has that name |
| Rules.Transfer | hello_pass/hello_pass.cpp:82-174 | Store taints the pointer, Load/GEP/BitCast taint their result, exactly when operand 0 is tainted, and otherwise leave the set unchanged; Phi taints its result exactly when some incoming value is tainted; no rule removes a value or adds more than that one value; every other opcode leaves the set unchanged |
| Rules.Slots | hello_pass/hello_pass.cpp:192-200 | every tainted position is the position of an argument, so a sink position at or past the argument count is never among them; there are none exactly when no argument is tainted |
| Rules.MapFormals | hello_pass/hello_pass.cpp:216-222 | the callee's initial set holds only its formals, and is empty exactly when no formal's position is tainted |
| Rules.AnyTainted | hello_pass/hello_pass.cpp:162-172 | a phi node has a tainted incoming value exactly when some value it lists is in the taint set |
| Rules.Trace | hello_pass/hello_pass.cpp:24-36 | a report has one entry per backtrace call plus one, starts with the triggering call, and its entry k is the backtrace's k-th call from the top |
| Traversal.Unseen | hello_pass/hello_pass.cpp:238-243 | the successors enqueued after a block are successors of that block, none visited, and every unvisited successor is enqueued |
| Traversal.UnseenAppend | hello_pass/hello_pass.cpp:239-243 | the successors are enqueued in successor order, repeats kept: those of a concatenation are those of the first part followed by those of the second |
| Traversal.UnseenOne | hello_pass/hello_pass.cpp:240-242 | a single successor is enqueued exactly when it is not yet visited |
| Traversal.Traverse | hello_pass/hello_pass.cpp:47-245 | a traversal never removes a value from the taint set it is given |
| Traversal.Bfs | hello_pass/hello_pass.cpp:66-244 | each turn of the walk's loop never removes a value from the taint set |
| Traversal.Instrs | hello_pass/hello_pass.cpp:75-236 | processing a block's instructions never removes a value from the taint set |
| Traversal.Step | hello_pass/hello_pass.cpp:82-235 | one instruction never removes a tainted value; a call or an unhandled opcode leaves the caller's set unchanged; only a call produces reports |
| Traversal.TraceEndsWith | hello_pass/hello_pass.cpp:30-33 | a report made under a backtrace ends with that backtrace, innermost call first |
| Traversal.EndsWithPop | hello_pass/hello_pass.cpp:213-229 | a report made with one more call pushed also ends with the backtrace below it |
| Traversal.TraverseReportsEndWith | hello_pass/hello_pass.cpp:47-245 | every report of a traversal ends with the backtrace the traversal started under |
| Traversal.BfsReportsEndWith | hello_pass/hello_pass.cpp:66-244 | every report of the walk from any queue and visited set ends with the current backtrace |
| Traversal.InstrsReportsEndWith | hello_pass/hello_pass.cpp:75-236 | every report of a block's instructions ends with the current backtrace |
| Traversal.CallReports | hello_pass/hello_pass.cpp:176-232 | an unresolved callee reports nothing, and a call to a sink reports nothing or the one trace of that call; the sink, external, unmapped and descent cases are stated by SinkCallReports, ExternalCallIsSilent, UnmappedCallIsSilent and DescentReports |
| Traversal.Analysis | hello_pass/hello_pass.cpp:247-259 | the analysis reports are those of the traversal of `main` from its second formal alone, and each ends with the backtrace it started under |
| Traversal.CallReportsEndWith | hello_pass/hello_pass.cpp:202-230 | every report of a call, from a sink match or from the traversal of the callee under the pushed call, ends with the caller's backtrace |
| Traversal.DeclarationIsNoOp | hello_pass/hello_pass.cpp:57-58 | a function without blocks returns the taint set unchanged and reports nothing |
| Traversal.SinkCallReports | hello_pass/hello_pass.cpp:202-207 | a call to a sink yields exactly one report, the call under the current backtrace, iff the sink's position holds a tainted argument, and none otherwise; a position at or past the argument count never matches; a sink is never descended into |
| Traversal.EntryTaint | hello_pass/hello_pass.cpp:216-222 | a callee's initial taint set is exactly the formals whose position carries a tainted argument |
| Traversal.UntaintedCallIsSilent | hello_pass/hello_pass.cpp:190-230 | a call with no tainted argument reports nothing, whether to a sink, a defined callee or an external one |
| Traversal.ExternalCallIsSilent | hello_pass/hello_pass.cpp:210 | a call to a non-sink callee without a body reports nothing |
| Traversal.UnmappedCallIsSilent | hello_pass/hello_pass.cpp:216-227 | a call to a non-sink callee with a body, none of whose formals receives a tainted argument (tainted arguments past the last formal included), starts no descent and reports nothing |
| Traversal.DescentReports | hello_pass/hello_pass.cpp:208-230 | a call to a non-sink callee with a body and a tainted argument at one of its formals reports exactly what the callee's traversal from the mapped formals reports with the call pushed, and each such report ends with the call and then the caller's backtrace |
| Traversal.BfsOrder | hello_pass/hello_pass.cpp:62-73 | the blocks the walk processes are blocks of the function, never one already visited, each at most once |
| Traversal.BfsRunsOrder | hello_pass/hello_pass.cpp:62-73 | the walk from a queue and visited set processes exactly the blocks of its BFS order, one after the other |
| Traversal.SuccessorReachable | hello_pass/hello_pass.cpp:238-243 | a successor of a reachable block is reachable |
| Traversal.BfsOrderReachable | hello_pass/hello_pass.cpp:62-73 | when every queued block is reachable, every block the walk processes is reachable |
| Traversal.BfsOrderCloses | hello_pass/hello_pass.cpp:62-73 | when every successor of a visited block is visited or queued, the walk processes every queued unvisited block and leaves every successor of a visited or processed block visited or processed |
| Traversal.ClosedHoldsPath | hello_pass/hello_pass.cpp:239-243 | a walk along edges from a processed block ends at a processed block when the processed blocks hold all their successors |
| Traversal.TraverseProcessesReachableOnce | hello_pass/hello_pass.cpp:60-73 | one traversal processes the instructions of a sequence of blocks, one block after the other, each at most once; a block is processed exactly when it is reachable from the entry block |
| TaintPassModel.TaintedSlots | hello_pass/hello_pass.cpp:192-200 | the argument scan collects exactly the positions of the tainted arguments |
| TaintPassModel.MapToFormals | hello_pass/hello_pass.cpp:216-222 | the formal scan collects exactly the formals at tainted positions |
| TaintPassModel.FindSink | hello_pass/hello_pass.cpp:182-188 | the sink search stops at the first sink with the callee's name and yields its position |
| TaintPassModel.PhiTainted | hello_pass/hello_pass.cpp:162-172 | the phi scan, stopping at the first tainted incoming value, finds one exactly when one exists |
| TaintPassModel.FindMain | hello_pass/hello_pass.cpp:264-275 | the loop over the module's functions finds the first function named `main`, or none when there is none |
| TaintPassModel.EnqueueSuccessors | hello_pass/hello_pass.cpp:238-243 | the queue after a block is the old queue with the unvisited successors appended at the back, in successor order |
| TaintPassModel.TaintPass.constructor | hello_pass/hello_pass.h:37 | a new pass has no sinks, an empty backtrace and no reports |
| TaintPassModel.TaintPass.InitializeSinks | hello_pass/hello_pass.cpp:5-15 | registering the sinks appends `strcpy` with argument position 1 |
| TaintPassModel.TaintPass.PrintBackTrace | hello_pass/hello_pass.cpp:24-36 | the report appended is the call followed by the backtrace walked from its top down, and nothing else changes |
| TaintPassModel.TaintPass.TraverseFunc | hello_pass/hello_pass.cpp:47-245 | the walk returns the final taint set of the traversal, appends its reports in order, and leaves the backtrace as it found it |
| TaintPassModel.TaintPass.VisitFront | hello_pass/hello_pass.cpp:66-243 | one turn pops the front block, skips it if visited, else processes it and enqueues its unvisited successors, making progress and leaving the rest of the walk's outcome unchanged |
| TaintPassModel.TaintPass.ProcessBlock | hello_pass/hello_pass.cpp:75-236 | the instruction loop of a block yields the block's taint set and appends its reports in order |
| TaintPassModel.TaintPass.ProcessInstr | hello_pass/hello_pass.cpp:78-236 | the switch over one instruction's opcode yields the instruction's taint set and appends its reports |
| TaintPassModel.TaintPass.HandleCall | hello_pass/hello_pass.cpp:176-232 | a call appends exactly the call's reports and restores the backtrace after the push and pop around the descent |
| TaintPassModel.TaintPass.TaintAnalysis | hello_pass/hello_pass.cpp:247-259 | the analysis of `main` traverses it from the taint set holding only its second formal |
| TaintPassModel.TaintPass.RunOnModule | hello_pass/hello_pass.cpp:261-290 | the module is never changed; the missing-`main` message is given exactly when the module has no `main`, and then nothing is registered or reported; otherwise `strcpy` is registered and the reports are those of the analysis of `main` |
| Findings.SinkLookupAsWritten | hello_pass/hello_pass.cpp:182-205 | as written, the sink lookup is undefined for an indirect call and for every callee that matches a sink |
| Findings.SinkLookup | hello_pass/hello_pass.cpp:182-205 | the corrected lookup: no sink for an indirect call or a callee no sink names, otherwise the position of the first sink with the callee's name |
| Findings.AsWrittenAgreesWhereDefined | hello_pass/hello_pass.cpp:182-205 | where the code as written is defined it agrees with the corrected lookup, and it is undefined exactly for indirect calls and sink matches |
| Findings.StrcpyCallReadsDanglingSink | hello_pass/hello_pass.cpp:183-205 | a call to `strcpy` reads the dangling sink pointer; the corrected lookup gives position 1 |
| Findings.IndirectCallDereferencesNull | hello_pass/hello_pass.cpp:178-210 | an indirect call dereferences the null callee, with or without registered sinks |
| Findings.IndirectCallIsNoOp | hello_pass/hello_pass.cpp:178-210 | in the corrected model an indirect call leaves the taint set as it is and reports nothing |
| Scenarios.StoreThenLoad | hello_pass/hello_pass.cpp:95-116 | `store argv, p` taints `p`, and then `v = load p` taints `v` |
| Scenarios.DirectCallReported | hello_pass/hello_pass.cpp:202-207 | after `store argv, p; v = load p`, the call `strcpy(dst, v)` in `main` is reported with an empty backtrace |
| Scenarios.DirectSinkReported | hello_pass/hello_pass.cpp:247-259 | the analysis of that `main` produces exactly one report, the `strcpy` call alone |
| Scenarios.HelperReportsUnderCall | hello_pass/hello_pass.cpp:202-207 | inside `helper` with its formal tainted, under the call from `main`, the `strcpy` call is reported with that call as backtrace |
| Scenarios.HelperEntry | hello_pass/hello_pass.cpp:216-222 | the call `helper(v)` with `v` tainted starts `helper` from its formal alone |
| Scenarios.HelperCallDescends | hello_pass/hello_pass.cpp:208-230 | the call `helper(v)` with `v` tainted, under an empty backtrace, descends into `helper` and reports exactly the `strcpy` call there followed by the call to `helper` |
| Scenarios.SinkReportedThroughHelper | hello_pass/hello_pass.cpp:247-259 | the analysis of `main` calling `helper(v)` produces exactly one report: the `strcpy` call in `helper`, then the call to `helper` |

## Left out

- The LLVM pass registration, the `ModulePass` plumbing and the LLVM API (`dyn_cast`, `successors`, `getCalledFunction`, `StringRef`): the abstract IR stands in for them, and names are compared by plain string equality.
- The printed text: the missing-`main` message is modelled only as RunOnModule's `missingMain` result, not as text; the banners, the `print_one_entry` formatting, the debug traces and the "HELLO, traverse" line. A report is the sequence of instruction ids it prints, appended to the `reports` log; the name of the function holding each instruction is not recorded. The entry number printed for every backtrace call is the same (the counter is not advanced in the loop); that is a display quirk and is not modelled.
- TaintPassModel.TaintPass.TraverseFunc: requires an acyclic call graph among defined callees (`Ir.Ranked`), because along a call cycle whose mapped formals stay tainted the original recurses until the stack is exhausted; that crash is not modelled.
- TaintPassModel.TaintPass.RunOnModule: requires a `main` with at least two formals, because the original reads past the end of a shorter parameter list; that case is not modelled.
- TaintPassModel.TaintPass.TaintAnalysis: requires at least two formals, for the same reason.
- Indirect calls and calls that name a sink: the code as written has undefined behaviour there (see Findings); the model follows the evidently intended behaviour and records the defect under Findings.
- Block identity: blocks are identified by their index in the function and successors by indices, so a successor list naming the same block twice enqueues it twice, as `successors` does for a repeated edge.
- The `sinks` field is appended to on every run of the pass, as the original does; nothing else is reset between runs, and repeated runs are not otherwise modelled.

## Findings

| source | as written | input that shows it | evidently intended | confidence | as-written member | corrected member |
|---|---|---|---|---|---|---|
| hello_pass/hello_pass.cpp:183-205 | the matched sink is remembered as the address of the loop's by-value copy, whose lifetime ends with the loop, and its `argc` is read afterwards | any call to `strcpy` with `strcpy` registered | use the position of the first sink with the callee's name | high; not executed | Findings.SinkLookupAsWritten, Findings.StrcpyCallReadsDanglingSink | Rules.SinkIndex, Findings.SinkLookup |
| hello_pass/hello_pass.cpp:178-210 | `getCalledFunction()` is null for an indirect call and is dereferenced in the sink loop, or by `size()` when no sink is registered | any indirect call in a traversed block | treat an unresolved callee as a no-op | high; not executed | Findings.SinkLookupAsWritten, Findings.IndirectCallDereferencesNull | Findings.IndirectCallIsNoOp, Findings.SinkLookup |
