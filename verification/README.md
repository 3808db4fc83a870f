# A verified model of the concolic test generator

The tool generates tests for Verilog designs. It simulates an instrumented design, reads the log of executed
statements back as a trace, turns the trace into equations over versioned signals, asks a solver for inputs that take
another branch, writes the solution into the stimulus rows, and repeats this until its target branches are covered.
These Dafny modules model that loop and prove what it relies on.

| module | part of the tool |
|---|---|
| `Basics` | what several modules share |
| `Terms` | bit vectors, right-hand sides, solver terms, and the translation of one into the other |
| `Encoding` | traces, version counters, the formulas of a trace, the concrete run of a trace, and the exactness of the encoding |
| `Overtaking` | the one ordering of writes for which the encoding is not exact |
| `Replay` | restoring the versions of a clock, replaying its events, and the query for the other side of a branch |
| `VersionStore` | the same as objects updated in place: signal cores, constraint stack, query loops |
| `TermCache` | cached evaluation of shared expression nodes |
| `Distance`, `ClosestPath` | label-correcting distances of basic blocks, their caches, and the closest path of each target |
| `ControlFlow`, `FlowPaths`, `EmptyCases`, `CfgBuilder` | the control-flow graph of a process: its shape, its paths, where it falls apart, and the walk that builds it in place |
| `Executions`, `BlockTags`, `GraphExecutions` | what a statement does, told without a graph, and the proof that the graph of a process does the same |
| `Realignment` | the worklist that replaces predecessors by the assignments that enable a branch |
| `Stimulus`, `ModelFile`, `DataMem` | bit fields of stimulus rows, lines of the solver's model, and the stimulus memory object |
| `FlipAnswer` | from the solver's model of a flip query to rows that drive the design into the flipped branch |
| `PathFilter`, `SearchRuns`, `Search` | path hashes, what a run of the search looks like, and the search loops |
| `Numbers` | decoding of Verilog numbers into machine words |
| `Sha256Chunker` | the message chunker of the SHA-256 test bench |

Where the tool changes state step by step, the model has a class with methods, or a loop. Each method is proved
against a function of the old state, and the lemmas about that function carry the properties. Where a function follows
the code step by step, a second description says what it must amount to: increasing positions for what is replayed or
pushed on the stack, executions of the statement tree for the paths of a graph, sums for the path hash, least closed
sets for realignment. Simulator, solver and ranking are parameters that may answer anything, within the shape their
outputs have; random rows are arbitrary. The meaning of the operators is a parameter of every theorem about terms.

Some expectations of the source do not hold for all inputs. Each comes with the exact condition under which it holds,
and with lemmas that show the failure:

- A part-select write leaves the other bits of the new version free. The stored terms can then have a model although no
  simulation takes the path (`Encoding.PartSelectAdmitsImpossiblePath`). For a trace that can be run, all models of all
  its prefixes are runs exactly when all its writes are full-width (`Encoding.ExactThroughoutIffFullWidth`). The other
  direction, that every run is a model, holds for all writes.
- A blocking write that overtakes a waiting non-blocking write to the same register breaks the encoding: every
  simulation can take a path whose terms no valuation satisfies (`Overtaking.OvertakingBreaksEncoding`). With full-width
  writes the encoding is exact for whatever a sequence of writes and branches computes exactly when no write overtakes
  (`Overtaking.ExactIffNoOvertake`). Designs that write each register in one way only never overtake
  (`Encoding.OneKindNeverOvertakes`).
- Every block lies on a path from the entry to the exit exactly when no case statement, however nested, is without arms
  (`EmptyCases.AllOnPathIffNoEmptyCase`).
- The unsigned 64-bit decoder refuses a number written with more than 64 digits when it is 2^63 or more, although it
  may fit (`Numbers.LongNumberRefused`). `Numbers.GetUint64FromNumber` states exactly when it succeeds.
- The SHA-256 chunker cuts the padding of 56 bytes short (`Sha256Chunker.FiftySixBytesAreCutShort`). It pads as the
  standard asks exactly when the length is not 56 modulo 64 and is below 2^29 (`Sha256Chunker.PaddedIsStandard`).

`dafny verify dfyconfig.toml` checks the whole project.

## Model

| member | source | states |
|---|---|---|
| Terms.SliceOfSplice | src/smt_lib.cpp:1609-1611 | Writing bits into a range and selecting that range gives the bits back, and no bit outside the range changes. |
| Terms.SelectMeaning | src/smt_lib.cpp:1600-1613 | The term of a signal reference, extracted or whole, means the Verilog part select of the value of the version read. |
| Terms.TermMeaning | src/smt_lib.cpp:567-584 | Translation preserves meaning: for every expression, operators, versions and valuation, the term built for the expression means the value of the expression when each signal holds the value of its version. |
| Encoding.OneKindNeverOvertakes | src/smt_lib.cpp:742-777 | If no register is written both blocking and non-blocking, no blocking write overtakes a waiting non-blocking one, which is what the encoding needs. |
| Encoding.FlushCommutes | src/smt_lib.cpp:1526-1535 | An immediate write to a register with no waiting update and the landing of the waiting updates at the clock mark can be exchanged. |
| Encoding.VersionsNameValues | src/smt_lib.cpp:1470-1535 | Over every trace the current version of a register names the value the simulation reads, the next version names the value that is read after the next clock mark, each write has its own version, and the input version is the clock. |
| Encoding.InitMeaning | src/smt_lib.cpp:1545-1552 | The initial terms hold exactly when version 0 of every register and of every input is zero. |
| Encoding.TermReadsRun | src/smt_lib.cpp:1480-1498 | While the versions agree with a run, the term of any expression at the current versions means what the run reads at that point. |
| Encoding.LastFormula | src/smt_lib.cpp:742-777 | The equation of a write says that the selected bits of the new version are the value the run assigns, and the equation of a branch says that the run takes it; nothing more and nothing less. |
| Encoding.WrittenValue | src/smt_lib.cpp:742-777 | The value a write gives its register is the settled old value with the selected bits replaced, for blocking and non-blocking writes alike. |
| Encoding.WriteHolds | src/smt_lib.cpp:742-777 | In a run the stored equation of every write holds, part selects included. |
| Encoding.WriteIsTaken | src/smt_lib.cpp:742-777 | For a full-width write, a valuation that is a run so far and satisfies the equation is a run including the write. |
| Encoding.RunIsModel | src/simulation.cpp:343-365 | The valuation of any concrete run from zero that takes every recorded branch satisfies the initial terms and every stored term, with part-select writes too. |
| Encoding.ModelIsRun | src/simulation.cpp:343-365 | With full-width writes every model of the initial and stored terms gives each register version the value the concrete run computes from the inputs of the model, and that run takes every recorded branch. |
| Encoding.EncodingExact | src/simulation.cpp:416-439 | Models of the initial and stored terms and concrete runs of the trace are the same valuations (if and only if), for every trace of full-width writes and branches without overtaking. |
| Encoding.SimulationYieldsModel | src/simulation.cpp:343-365 | Every simulation that takes the logged branches, has no overtaking write, and reads the inputs of a clock from its mark on, yields a model of the stored terms, so its path is satisfiable. |
| Encoding.WritePinsVersionIffFullWidth | src/smt_lib.cpp:1609-1611 | The equation of a write determines the new version if and only if the write covers the whole register. |
| Encoding.PartSelectBreaksExactness | src/smt_lib.cpp:742-777 | After any part-select write that can happen, some model of the stored terms is not a run, whatever came before. |
| Encoding.ExactThroughoutIffFullWidth | src/smt_lib.cpp:742-777 | For every trace that some run follows: the models of the terms of each of its prefixes are all runs of that prefix if and only if all its writes are full-width. |
| Encoding.PartSelectLosesBits | src/smt_lib.cpp:742-777 | A concrete part-select write whose terms have a model that is not a run: the other bits of the new version are left free. |
| Encoding.PartSelectAdmitsImpossiblePath | src/smt_lib.cpp:742-777 | A concrete part-select write and a branch on another bit: the stored terms have a model, although no inputs at all follow the trace, so a query with a part select can be answered by a path that does not exist. |
| Overtaking.OvertakingBreaksEncoding | src/smt_lib.cpp:1526-1535 | A concrete full-width trace with a non-blocking and then a blocking write to one register, a mark and a branch: every simulation takes it, and no valuation satisfies its terms. |
| Overtaking.ShapeDecides | src/smt_lib.cpp:742-777 | Whether a write overtakes depends on the kinds and targets of the events alone, not on what is computed. |
| Overtaking.OvertakingLosesPath | src/smt_lib.cpp:1526-1535 | At any overtaking write of any full-width trace there is data for which every simulation goes through the events up to it, a mark and a branch, while no valuation satisfies their terms. |
| Overtaking.ExactIffNoOvertake | src/smt_lib.cpp:1470-1535 | For full-width writes: the models and the runs of all traces of the same events, whatever they compute, cut at any position and followed by a mark and any branch, coincide if and only if no blocking write overtakes a non-blocking one. |
| Replay.SnapshotSurvives | src/smt_lib.cpp:1530-1535 | The versions kept for a clock are those held right after its mark, whatever is simulated afterwards, unless the clock is marked again. |
| Replay.RestoreGivesMarkVersions | src/smt_lib.cpp:1537-1543 | Restoring a clock gives back the register versions and the input version held right after its mark. |
| Replay.ReplayTracksSimulation | src/simulation.cpp:710-717 | Running the update again on the kept events reads the same versions as the simulation did and yields exactly the stored formulas, although the next versions of skipped registers differ. |
| Replay.ReplayReproducesStack | src/simulation.cpp:705-720 | After a restore, replaying a clock while other edge-triggered processes are skipped yields exactly the stored term of every replayed event, and the alternative branch is translated as in the simulation. |
| Replay.SkippingChangesNothingRead | src/simulation.cpp:710-717 | Leaving out the non-blocking writes of other edge-triggered processes changes nothing that is read within the clock, so the reduced run follows the log whenever the full one does. |
| Replay.KeptAt | src/simulation.cpp:712-713 | The events replayed are, for every clock, exactly those of processes that are not edge-triggered or are the process of the branch, at strictly increasing positions of the clock. |
| Replay.ReplayUpdatesKept | src/simulation.cpp:710-717 | Replaying a clock with the process test is updating one after the other the events at those positions, with the same versions and formulas. |
| Replay.ReplayEncodesKept | src/simulation.cpp:710-717 | The replayed formulas are the encoding of the kept events taken as a trace of their own. |
| Replay.FlipQueryEncodesFlipped | src/simulation.cpp:688-720 | The list of asserted terms is the encoding of the events before the clock, its mark, the kept events and the alternative branch. |
| Replay.FlipQueryAsksFor | src/simulation.cpp:688-720 | The query is the encoding of what came before the clock, its mark, the events of the clock at the positions of non-edge-triggered processes and of the process of the branch, and the alternative; and it stays the same when any events of other edge-triggered processes are taken out of the clock. |
| Replay.KeepingNeverOvertakes | src/simulation.cpp:710-717 | Leaving events out introduces no overtaking. |
| Replay.FlipQueryExact | src/simulation.cpp:688-720 | A valuation satisfies the flip query if and only if running the kept events concretely on its inputs, from zero, takes every kept branch and then the alternative, and the valuation holds the values of that run. |
| VersionStore.StackStoresEncoding | src/simulation.cpp:343-365 | The formulas on the constraint stack are exactly the encoding of the trace, in order. |
| VersionStore.StackPrefix | src/simulation.cpp:416-439 | The stack of a prefix of the trace is that prefix of the stack, so entries never change once pushed. |
| VersionStore.StackIsLogged | src/simulation.cpp:416-439 | The stack has exactly one entry for each log line that is a clock or an assignment line, in order: the mark of the clock line, or the statement of the assignment line with a formula, each at the clock of the last clock line, or 0. |
| VersionStore.ClockStartsWithMark | src/simulation.cpp:419-428 | Every entry of a nonzero clock is preceded by the mark of that clock. |
| VersionStore.MarkComesFirst | src/simulation.cpp:691-700 | With distinct marks the first entry whose clock is that of the branch is the mark itself, and no further mark lies between it and the branch: what the assertion after the first query loop demands. |
| VersionStore.SigCore.constructor | src/smt_lib.cpp:1372-1387 | A new signal has terms for versions 0 to unroll + 10, each named after its version, and both counters at 0. |
| VersionStore.SigCore.UpdateNextVersion | src/smt_lib.cpp:1470-1478 | The next version rises by one, stays inside the term stack, and no existing term changes. |
| VersionStore.SigCore.GetTerm | src/smt_lib.cpp:1480-1498 | The term returned is the one of the current or of the next version, and the index is always within the stack. |
| VersionStore.Encoder.EvalTerm | src/smt_lib.cpp:1600-1613 | Evaluating an expression with the counters in place gives its translation at the current versions. |
| VersionStore.Encoder.UpdateAssign | src/smt_lib.cpp:742-777 | The counters move as the version function says, only the written register is touched, and the term is the equation at the versions before the write. |
| VersionStore.Encoder.UpdateBranch | src/smt_lib.cpp:1220-1224 | The term is the equation of the branch at the current versions, and no counter moves. |
| VersionStore.Encoder.SetInputVersion | src/smt_lib.cpp:1564-1568 | All inputs, and no register, move to the clock. |
| VersionStore.Encoder.CommitVersions | src/smt_lib.cpp:1530-1535 | Every register reads its newest version, and a snapshot of all of them is kept under the clock. |
| VersionStore.Encoder.RestoreVersions | src/smt_lib.cpp:1537-1543 | All counters are those of the snapshot of the clock and the inputs are at the clock. |
| VersionStore.Encoder.ClearAllVersions | src/smt_lib.cpp:1515-1524 | All counters are back at version 0 and the snapshots are dropped from the abstract state, whatever they were. |
| VersionStore.Encoder.BuildStack | src/simulation.cpp:416-439 | The lines before the mark after the last simulated clock, and no others, have pushed one entry each in order, state lines excepted: a mark for a clock line and the logged statement, branches included, for an assignment line, with the clock of the nearest clock line before it. |
| VersionStore.Encoder.SimulateBuildStack | src/simulation.cpp:583-591 | Whatever the counters were before, a simulation leaves that stack, and its formulas are exactly the encoding of the log. |
| VersionStore.Encoder.ReplayUpTo | src/simulation.cpp:710-717 | The in-place loop updates exactly the events at the positions of non-edge-triggered processes and of the process of the branch, in order, and keeps all snapshots. |
| VersionStore.Encoder.StoredBefore | src/simulation.cpp:691-700 | The first query loop stops at the mark of the clock and has collected the encoding of everything before it. |
| VersionStore.Encoder.BuildQuery | src/simulation.cpp:688-720 | The loops ask for what came before the clock, its mark, exactly the events of the clock that are not of another edge-triggered process, and the alternative; the query is the same when events of other edge-triggered processes are left out; the stack and its snapshots stay, so the next candidate can be tried. |
| FlipAnswer.SatDependsOnOccurring | src/simulation.cpp:529-541 | Whether formulas hold depends only on the versions that occur in them, so values the solver does not print cannot matter. |
| FlipAnswer.EncodingReadsClocks | src/smt_lib.cpp:1564-1568 | The input versions in the stored formulas are clocks of the trace, so none is beyond the rows taken over. |
| FlipAnswer.RowsHoldAnswer | src/data_mem.cpp:91-132 | The rows patched with the printed model drive every input that occurs in the query, in its clock, with the value of the model. |
| FlipAnswer.RowsFollow | src/simulation.cpp:529-541 | For any trace without overtaking and part-select writes: a simulation on the rows patched with a model of its terms goes through the whole trace, taking every branch, although the other bits of the rows keep their old values. |
| FlipAnswer.Solve | src/simulation.cpp:529-541 | If a sound solver answers the flip query, a simulation on the patched rows takes every kept branch and then the alternative; if not, the rows are as they were. |
| FlipAnswer.TryFlip | src/simulation.cpp:683-729 | The attempt at one candidate from end to end: build the query in place, take over the rows before the branch, solve, patch. If the solver answers, the new rows drive the design through everything before the clock, its mark, the events of the clock at the positions of non-edge-triggered processes and of the process of the branch, and into the alternative branch; the stack can be used for the next candidate. |
| TermCache.ConstantTerm | src/smt_lib.cpp:195-213 | A node with neither signal nor array at or under it has the same term for all versions and both clock kinds. |
| TermCache.PlainTranslates | src/smt_lib.cpp:567-584 | Uncached evaluation of a node of a shared graph, at the current or at the next versions, is the meaning-preserving translation of the expression tree it stands for, for every kind of operator node. |
| TermCache.ArrayMeans | src/smt_lib.cpp:229-239 | Whatever the operators mean, a read of an array element selects from the array at the versions asked for, current or next, with the index at its current version or constant. |
| TermCache.TernaryMeans | src/smt_lib.cpp:691-698 | With operators read as choice and test for one, a ternary node means its first arm exactly when the condition is one, and its second arm otherwise. |
| TermCache.BinaryMeans | src/smt_lib.cpp:567-584 | A binary node means its operator applied to the meanings of its arguments in order, made a bit where it is a comparison, and negated exactly when it is inverted. |
| TermCache.Cache.EvalKids | src/smt_lib.cpp:195-213 | All children are evaluated, left to right, and the parent must be evaluated again exactly when a signal or an array lies under it. |
| TermCache.Cache.Eval | src/smt_lib.cpp:276-304 | The term returned is the uncached one, although children are shared and flags are cleared; the flag of the node ends set exactly when a signal or an array lies at or under it; flags never rise. |
| TermCache.EvalMany | src/smt_lib.cpp:195-213 | Over any sequence of evaluations, with the versions changed at will in between and either clock kind, every result is what uncached evaluation gives. |
| Distance.TrailBound | src/smt_lib.cpp:1787-1788 | A walk without repetition, leaving its last block too, costs at most all weights together, which keeps the sums within 32 bits. |
| Distance.Relax | src/smt_lib.cpp:1790-1803 | Lowering a label through a link leaves every finite label the cost of a walk without repetition, so labels are never invented, even on cyclic graphs. |
| Distance.LabelsAreLeast | src/smt_lib.cpp:1781-1805 | Once every label has been passed on, no walk from the target is cheaper than the label of the block it ends at. |
| Distance.LabelsAreDistances | src/smt_lib.cpp:1774-1806 | Such labels are the least costs over all walks, and 0xFFFFFFF exactly where there is no walk. |
| Distance.DistanceIsUnique | src/smt_lib.cpp:1774-1806 | The specification of a distance admits one value only. |
| Distance.Blocks.ResetFlags | src/smt_lib.cpp:1891-1895 | All labels are 0xFFFFFFF. |
| Distance.Blocks.Lower | src/smt_lib.cpp:1790-1798 | A label is lowered and its block queued exactly when the offer is smaller, and then the sum of all labels drops. |
| Distance.Blocks.PassOn | src/smt_lib.cpp:1787-1803 | One block taken from the queue passes its label to all predecessors and its dominator; the sum of labels drops unless nothing was queued. |
| Distance.Blocks.UpdateDistance | src/smt_lib.cpp:1774-1806 | Queue-based label correction ends on every graph, cycles included, and leaves at every block the true distance from the target. |
| Distance.Blocks.UpdateAllDistances | src/smt_lib.cpp:2015-2026 | The cached distances are right for every target, whatever the order of the targets. |
| ClosestPath.LeastKeyIsUnique | src/smt_lib.cpp:1991-2007 | The least pair of distance and clock of a stack is unique. |
| ClosestPath.DistanceFromCurrentPath | src/smt_lib.cpp:1991-2007 | The result is attained by an entry of the stack, or is the initial pair, and no entry is lexicographically less. |
| ClosestPath.Target.UpdateClosestPath | src/smt_lib.cpp:1975-1988 | After any number of calls the kept path is the earliest of all paths seen whose pair of distance and clock no other path beats, and none is kept only if no path beats the initial pair. |
| ClosestPath.UpdateAllClosestPaths | src/smt_lib.cpp:1953-1957 | Every open target sees the new path exactly once and keeps its earliest best path. |
| ControlFlow.EmitGrows | src/stmt.cpp:529-601 | Every statement, nested at will, adds blocks that are entered only from new blocks or from the block that was current, leaves the incoming links and dominators of older blocks alone, and records every link at both ends. |
| ControlFlow.EmitGuards | src/stmt.cpp:431-518 | Every block added has a contiguous region of blocks around it that can be entered from outside only from its dominator. |
| FlowPaths.PassesDominator | src/stmt.cpp:529-601 | A path from outside such a region to a block inside passes the dominator. |
| FlowPaths.IdomDominates | src/stmt.cpp:431-601 | For every statement tree, each idom link leads to another block that lies on every path from the entry to the block. |
| FlowPaths.EmitRanks | src/stmt.cpp:529-601 | The blocks of every statement can be ranked between those before and after it so that ranks grow along every link. |
| FlowPaths.Acyclic | src/stmt.cpp:431-601 | The built graph has no cycle, for every statement tree. |
| FlowPaths.EmitReaches | src/stmt.cpp:431-601 | Every statement leads from the block that was current to the one that is current after it, and all blocks it adds lie on a way between these. |
| FlowPaths.EveryBlockOnAPath | src/stmt.cpp:431-601 | When no case is without arms, every block lies on a path from the entry to the exit. |
| Executions.EmitWeighs | src/stmt.cpp:431-601 | Every statement adds exactly its arms and ends as blocks; those of if branches and non-default arms weigh 1, all others 0. |
| Executions.ForkRealizes | src/stmt.cpp:529-601 | When a block is entered exactly from the ends of arms that are entered only from the fork, the ways from the fork to it are exactly those through one arm. |
| Executions.PartsRealize | src/stmt.cpp:70-78 | When the second of two parts is entered only from the end of the first, the ways through both are exactly those through the first followed by those through the second. |
| BlockTags.TagsDistinct | src/stmt.cpp:431-601 | No two blocks of a statement are for the same place in the tree, so a path shows which blocks it passed. |
| BlockTags.EmitDoms | src/stmt.cpp:529-601 | For every statement: one block, the current one before it, dominates its arms and its end, and is the only predecessor of its branch blocks. |
| GraphExecutions.EmitGoes | src/stmt.cpp:431-601 | For every statement and every graph before it: the ways from the block that was current to the one that is current after it, through the added blocks, are exactly the executions of the statement, in both directions. |
| GraphExecutions.BuildsItsGraph | src/stmt.cpp:431-601 | The graph of a process has one block for each place of its statement tree, with its weight; its entry-to-end paths are exactly the executions; and its branch blocks are entered only from their dominators. |
| EmptyCases.AllOnPathIffNoEmptyCase | src/stmt.cpp:431-518 | For every statement tree: every block lies on a path from the entry to the exit if and only if no case, however nested, is without arms. |
| EmptyCases.EmitCutsOff | src/stmt.cpp:457-460 | A case without arms anywhere in a statement leaves a block that nothing emitted later leads to. |
| CfgBuilder.OnlyDefault | src/stmt.cpp:493-512 | Emitting the remembered default arm after the loop is the same as emitting all default arms last, since there is at most one. |
| CfgBuilder.ProcessBuilder.EmitStmt | src/stmt.cpp:70-78 | The in-place walk over a statement leaves exactly the graph of the specification, for every nesting. |
| CfgBuilder.ProcessBuilder.EmitStmtCondit | src/stmt.cpp:529-601 | The in-place walk over an if leaves the graph of the specification, whose paths and weights Executions.EmitWeighs and GraphExecutions.EmitGoes pin, with the exit as current block. |
| CfgBuilder.ProcessBuilder.EmitStmtCase | src/stmt.cpp:431-518 | The exit block comes first, the arms follow in order with the default arm last and of weight 0, and the exit becomes current. |
| CfgBuilder.ProcessBuilder.EmitPlainArms | src/stmt.cpp:461-492 | The loop emits all arms but the default one and finds where that is. |
| CfgBuilder.BuildProcess | src/stmt.cpp:431-601 | For any statement tree: there is one block for the entry, for each arm and for each end of a statement; a block weighs 1 if it is that of an if branch or of a non-default arm and 0 otherwise; the paths from the entry to the end are exactly the executions of the tree, in both directions; a branch block is entered only from its dominator, which also dominates the end of its statement. Links are mirrored, there is no cycle, dominators are true, and every block is on an entry-to-exit path if and only if no case is without arms. |
| Realignment.StaysSound | src/smt_lib.cpp:1022-1060 | Processing one flagged block keeps this: flagged blocks are reached from a target, and exactly the processed ones have their new predecessors and their next blocks flagged. |
| Realignment.ClosedHoldsChain | src/smt_lib.cpp:1930-1940 | A set of blocks that holds the targets and is closed under what they lead to holds every reached block. |
| Realignment.ReachedIsLeastClosed | src/smt_lib.cpp:1022-1060 | The processed set is the least that holds the targets, the dominator of each member without an assignment and of each member branch without state, and the blocks of the accepted writers of each member branch that reads state. |
| Realignment.Realigner.UpdateBranchEdge | src/smt_lib.cpp:1022-1060 | For any solver answers the predecessors of the branch block end unchanged, when no assignment is accepted, or equal to the set of blocks of the accepted assignments. |
| Realignment.Realigner.UpdateEdge | src/smt_lib.cpp:1833-1843 | Exactly the blocks this block leads to are flagged, each newly flagged one is queued, and either the number of unflagged blocks drops or nothing is queued. |
| Realignment.Realigner.EdgeRealignment | src/smt_lib.cpp:1930-1940 | The worklist ends for any solver. The processed blocks are the least set that holds the targets, passes on to the dominator of a block without an assignment and of a branch without state, and to the blocks of the accepted writers of a state-reading branch. Each processed state-reading branch with an accepted writer ends with exactly the blocks of its accepted writers as predecessors, all other blocks keep theirs, and with distinct targets no block is processed twice. |
| Stimulus.ModifySetsField | src/data_mem.cpp:86-89 | Replacing a field by a value of its width sets that field, keeps the row length, and changes no other bit. |
| Stimulus.OtherFieldKept | src/data_mem.cpp:86-89 | A write to one field leaves every disjoint field as it is. |
| Stimulus.PatchedSnoc | src/data_mem.cpp:91-132 | One more line keeps the promise that every known input of every row up to the limit holds the last value given for it and all else is unchanged. |
| ModelFile.ScanDecimal | src/data_mem.cpp:113-117 | The version number printed for a term name is scanned back in 32-bit arithmetic, for every 32-bit number. |
| ModelFile.RenderedIsRead | src/data_mem.cpp:102-104 | No printed line of the model is taken for one to skip. |
| ModelFile.ParseLine | src/data_mem.cpp:105-126 | Scanning a printed line gives back name, version and bits, even when the name itself has underscores and digits. |
| DataMem.CTDataMem.AddInput | src/data_mem.cpp:76-84 | A new input takes the next bits; inputs of distinct names stay disjoint and together cover all bits of the row. |
| DataMem.CTDataMem.RandomRow | src/data_mem.cpp:55-71 | The odd bits and the groups of 16 always add up to a row of exactly the full width, all binary digits. |
| DataMem.CTDataMem.Generate | src/data_mem.cpp:44-74 | One full row for each clock of the step; with observation padding the top bit tells odd from even rows. |
| DataMem.CTDataMem.Modify | src/data_mem.cpp:86-89 | Exactly one row changes, by the replacement of one field. |
| DataMem.CTDataMem.UpdateInputVectors | src/data_mem.cpp:91-132 | After all lines of a model file, every known input of row k - 1, for 1 <= k <= limit, holds the last value given for its version k; all other bits, all other rows and all lengths are unchanged. |
| DataMem.CTDataMem.Intercept | src/data_mem.cpp:150-167 | The rows are the requested range of the other memory, cut at its end, the layout is that of the other, the clock is the requested end, and the step is kept. |
| DataMem.CTDataMem.ConnectPath | src/smt_lib.cpp:2055-2062 | The clock advances by the step of this path and the rows of the step of the other path are appended. |
| DataMem.CTDataMem.ClearPath | src/smt_lib.cpp:2064-2067 | No row is left and the clock is 0. |
| PathFilter.SameBranchesSameHash | src/simulation.cpp:258-264 | Two simulations with the same branches at the same positions have the same path hash. |
| PathFilter.HashIsSum | src/simulation.cpp:258-264 | After any log the path hash is, modulo 2^32, the sum over its branches of the table value of the branch times its position. |
| PathFilter.EntryIs | src/simulation.cpp:258-264 | Each stack entry has the clock of the last clock line up to it, and a branch entry its position and the hash of the branches before it. |
| PathFilter.RecordedAt | src/simulation.cpp:258-264 | The hash after every branch of a simulation is recorded. |
| PathFilter.RecordedAreSums | src/simulation.cpp:258-264 | The recorded hashes of a log are exactly the sums, modulo 2^32, of its prefixes that end in a branch. |
| PathFilter.AltHashIsSum | src/simulation.cpp:575-578 | The hash of an alternative is, modulo 2^32, the sum of the branches before it and the table value of the alternative times the position. |
| PathFilter.SameHashIff | src/simulation.cpp:575-578 | Two alternatives at a position have the same hash if and only if their table values times the position agree modulo 2^32. |
| PathFilter.FilterNeverMisses | src/simulation.cpp:575-578 | When a new stack agrees with an earlier one on all branches before a position, and the earlier run took branch b there, b is rejected as an alternative at that position. |
| PathFilter.FlipBound | src/simulation.cpp:642-644 | Flips with pairwise distinct hashes are at most 2^32. |
| SearchRuns.RefusedIff | src/simulation.cpp:570-578 | An alternative is passed over if and only if its sum equals that of some prefix of a simulation made so far, or of an earlier flip. |
| SearchRuns.RefusedMeansAll | src/simulation.cpp:611-651 | When the ranking leaves nothing out, a failed choice means that the solver refused every eligible alternative. |
| Search.Searcher.BuildStack | src/simulation.cpp:416-439 | The stack, the recorded hashes and the covered statements are exactly those of the log, added to the hashes and coverage there were. |
| Search.Searcher.ExploreOneStep | src/simulation.cpp:594-609 | The path grows by one step of full rows, its earlier rows unchanged; the log is what the simulator writes for these rows, and exactly its hashes and statements are added. |
| Search.Searcher.FirstClocked | src/simulation.cpp:619-623 | Skipping the entries of clock 0 ends within the stack, because the simulator logs a mark beyond clock 0. |
| Search.Searcher.Candidates | src/simulation.cpp:615-651 | The candidates are exactly the alternatives of dependent branches in the clocks of the last step whose hash, computed from the table, has not been recorded; no more and no fewer. |
| Search.Searcher.TryRanked | src/simulation.cpp:677-781 | The solver is asked about the candidates in the order of the ranking, one call each, and the first that it does not refuse is flipped; without one it has refused them all and nothing is recorded. |
| Search.Searcher.FindNextCfg | src/simulation.cpp:611-781 | For a given simulator, solver and ranking: on success the flip is the first ranked candidate that the solver did not refuse; its hash is new and is recorded, it counts as covered, the new rows are those of the path up to the clock of the branch with the values of the printed model in them, and they are simulated. It fails only if the solver refused every ranked candidate, and then nothing is recorded. |
| Search.Searcher.ConcolicIteration | src/simulation.cpp:898-922 | One step is explored and simulated. With a result, the new rows come from the first accepted candidate of that simulation and have been simulated twice; what is known afterwards is exactly what these simulations and the flip add. Without a result the solver refused all that was ranked. |
| Search.Searcher.RemoveCoveredTargets | src/smt_lib.cpp:1905-1916 | Erasing while iterating moves exactly the covered targets, in order, to the covered list; none is lost or duplicated. |
| SearchRuns.MatchingSplits | src/smt_lib.cpp:1905-1916 | Covered and open members of a list together are the members of the list, with multiplicity. |
| Search.Searcher.Settle | src/simulation.cpp:1007-1026 | The path starts over exactly when it is beyond the unrolling limit and the target is not covered; then the target is moved exactly when the limit is reached or it is covered; otherwise all lists stay and the count or the path allows another iteration. |
| Search.Searcher.SearchTarget | src/simulation.cpp:1005-1030 | The search for one target ends for any simulator and any solver. It is a chain of iterations, each from where the one before left off. It ends with the target moved, to the covered list if it is covered or to the uncovered list only at the limit; or the lists are as they were and the solver refused all that was ranked after the last exploration. |
| Search.Searcher.DropCovered | src/simulation.cpp:982-986 | A first target covered by chance moves to the covered list and no other target moves. |
| Search.Searcher.StepCoverage | src/simulation.cpp:942-1034 | After the given number of random simulations exactly the targets they covered are listed as covered. Then either no target is open or as many rounds were run as asked for; each round dropped a covered target, or searched and moved its target, or ended on an exploration whose ranked candidates the solver all refused. A statement counts as covered exactly if a simulation logged it or it is an answered flip; no target is lost or duplicated; all flips have distinct hashes, so there are at most 2^32. |
| Numbers.SignedTrim | src/numbers.cpp:15-26 | A signed number fits in its trimmed width and, above two bits, in no smaller one. |
| Numbers.SignedFitsIffTrimmed | src/numbers.cpp:27-31 | A signed number fits in a word if and only if its trimmed width does. |
| Numbers.UnsignedTrim | src/numbers.cpp:75-87 | An unsigned number trims to a word if and only if it has no more bits than the word or is below half the range of the word. |
| Numbers.SignedWord | src/numbers.cpp:32-52 | The word built from the trimmed bits and continued with the sign has the two's complement value of the number. |
| Numbers.DecodeInt | src/numbers.cpp:111-152 | The decoder, for words of any width: a signed number of defined bits is decoded with its exact value if and only if it fits, and otherwise the least width that holds it is returned; negative codes only for undefined bits. |
| Numbers.GetInt32FromBits | src/numbers.cpp:13-53 | The 32-bit decoder: exact value if and only if the signed number fits in 32 bits, otherwise the least two's complement width that holds it. |
| Numbers.GetInt64FromNumber | src/numbers.cpp:111-152 | The same for 64 bits. |
| Numbers.GetUint64FromNumber | src/numbers.cpp:67-103 | Success means the exact unsigned value, and comes if and only if the number has at most 64 bits or is below 2^63. |
| Numbers.LongNumberRefused | src/numbers.cpp:83-87 | A concrete number that fits in 64 bits and is refused: 2^63 written with 65 digits. |
| Sha256Chunker.ZeroBytesAreLeast | test/CEP/fpga_hardware/cores/sha256/SHA256.h:78-80 | The number of zero bits in the specification is the least that makes the length 448 modulo 512, as section 5.1.1 of FIPS 180-4 asks. |
| Sha256Chunker.SizeIsBigEndian | test/CEP/fpga_hardware/cores/sha256/SHA256.h:88-91 | The eight size bytes, most significant first, stand for the size, for every size below 2^64. |
| Sha256Chunker.PaddingFillsBlocks | test/CEP/fpga_hardware/cores/sha256/SHA256.h:79-97 | The padding fills the last block, or one more block when the last one holds more than 56 bytes, even when the bit count wraps around. |
| Sha256Chunker.AddPadding | test/CEP/fpga_hardware/cores/sha256/SHA256.h:78-98 | The bytes from the end of the message on become zeros and the size with the first byte replaced by 0x80, and no other byte of the buffer changes. |
| Sha256Chunker.PaddedIsStandard | test/CEP/fpga_hardware/cores/sha256/SHA256.h:120-173 | The padded stream is that of section 5.1.1 of FIPS 180-4 if and only if the length is not 56 modulo 64 and is below 2^29. |
| Sha256Chunker.FiftySixBytesAreCutShort | test/CEP/fpga_hardware/cores/sha256/SHA256.h:80-88 | A concrete message of 56 bytes gets 8 bytes of padding, in one block, where the standard asks for 72, in two. |
| Sha256Chunker.CopyNext | test/CEP/fpga_hardware/cores/sha256/SHA256.h:133-145 | Up to 64 bytes of the string are copied, the rest of the buffer is untouched, and the end is noticed exactly when fewer than 64 bytes are left. |
| Sha256Chunker.Fill | test/CEP/fpga_hardware/cores/sha256/SHA256.h:129-151 | The string sent so far and the bytes about to be sent are a prefix of the string, or, at its end, the whole padded stream. |
| Sha256Chunker.Send | test/CEP/fpga_hardware/cores/sha256/SHA256.h:150-171 | One or two blocks of the buffer go to the core in order, the very first of the message with the init strobe and all others with the next strobe. |
| Sha256Chunker.HashString | test/CEP/fpga_hardware/cores/sha256/SHA256.h:120-173 | For every string the blocks sent join to the padded stream, exactly the first is sent with the init strobe, and they join to the padded message of the standard if and only if the length is not 56 modulo 64 and is below 2^29. |

## Left out

- Yices, vvp, the compiler, Python, the network and all file access: their results are arbitrary values of the right
  shape; a file is the sequence of its lines, and a file that cannot be opened is not modelled.
- Encoding.EncodingExact: asks for full-width writes and no overtaking; Encoding.ExactThroughoutIffFullWidth and
  Overtaking.ExactIffNoOvertake state in what sense both are needed. A single trace can
  still be encoded exactly, when its overtaking write happens to write the same value or is never read.
- Encoding.SimulationYieldsModel: a clock mark makes the inputs of its clock readable at once. The generated test bench
  drives them five time units after the mark (`src/concolic.cpp:245-251`), while non-blocking writes land after one
  (`src/stmt.cpp:386`), so a process woken in between still reads the inputs of the clock before. The model assumes
  that no event reads an input in that gap, and that no write overtakes.
- Replay.ReplayReproducesStack: asks that edge-triggered processes write only non-blocking and each register has one
  driver; without skipped events neither is needed, and Replay.ReplayEncodesKept does not ask for them.
- The write to a single bit selected by a variable index (`src/smt_lib.cpp:748-760`) and writes to arrays: array
  versions are appended to a term stack that is indexed by the version counter, so the version invariant fails after a
  reset. Reading array elements is modelled in TermCache only.
- Expanded terms (`get_expanded`): they drop inversions and part selects. The answers of edge realignment are therefore
  an arbitrary function of the branch and the assignment; all versions are back at 0 before each of its queries.
- The two debug calls between the assertions of a query (`src/simulation.cpp:703`, `src/simulation.cpp:728`) reset the
  solver context; the query is modelled as the list of terms asserted, and nothing is claimed about solver state.
- Encoder and search see the constraint stack through two separate models: VersionStore keeps versions and terms,
  Search keeps branches, positions and hashes.
- FlipAnswer.TryFlip: asks for full-width writes, no overtaking, ascending clock marks, and a solver that prints a model
  with every input version of the query. It speaks of the events kept in the query; what the skipped processes do in
  the same clock is not part of the query.
- VersionStore.Encoder.BuildStack: asks that the mark that ends the simulation is in the log, without which the loop of
  the source never ends, and that clocks stay below unroll + 10, the size of its arrays.
- Search.Searcher.StepCoverage: counts rounds of the outer loop; a solver that keeps failing can repeat one target
  forever, so no termination is claimed. A round starts from an arbitrary kept path, or from the path last used when
  its target has no closest one; the source would have no path at all if that one were missing too. Random rows are
  arbitrary full rows.
- Search.Searcher.SearchTarget: a target covered in the very iteration that reaches the limit is listed as uncovered,
  as in the source.
- Search.Searcher.FindNextCfg: the solver is a function of the number of the call, the simulated log and the candidate,
  not of the text of the query; which query is asked, and what a sound answer to it achieves, is stated by
  VersionStore.Encoder.BuildQuery and FlipAnswer.TryFlip. The order of the candidates is arbitrary, and a ranking may
  leave candidates out or repeat them, as `src/simulation.cpp:160-172` does with ids that are not in its list or are
  there twice; this covers the learned ranking, the sort by distance and the increment of the distance after a flip.
- Overflow of the clock and of the simulation count, the array of coverage per clock, branch probabilities, rewards,
  the error-check mode, `make_circular` and `multi_coverage`.
- Distance.Blocks.UpdateDistance: asks that all weights together stay below 0xFFFFFFF, so that no sum wraps around.
- Basic blocks are known by their ids instead of their addresses; of the statements in a block only those that
  realignment looks at are kept; loops and other statements that add no block are `Simple`.
- GraphExecutions.BuildsItsGraph: says nothing about the dominator of the end of a case without arms, which no path
  reaches.
- EmptyCases.AllOnPathIffNoEmptyCase: whether the front end ever passes a case statement without arms is not part of
  this model.
- `CTDataMem::connect`, which no other code calls; paths are connected by DataMem.CTDataMem.ConnectPath.
- ModelFile.ParseLine: covers lines as the solver prints them; lines with a function value and indented lines are
  skipped, other text is not expected in a model file.
- Matching of `x` and `z` in casex and casez, truncation of constants, and the codes -2 and -3 of the decoders: the
  codes are in the code path of Numbers.BuildWord but nothing is claimed about them beyond their sign.
- Sha256Chunker.HashString: lengths of 2^31 and more overflow the signed byte counter and are excluded; printing,
  clocking and reading the hash back are not modelled.
- The other test benches, printing of Verilog, and the walk over the Icarus data structures.
