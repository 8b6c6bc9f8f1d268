# Verification of libpcap's filter compiler

This project models the part of libpcap 1.1.1 that turns a filter expression into a program for
the BPF machine, and proves that it does so correctly. Three smaller stateful parts of the library
are verified beside it.

**The machine** (`Machine.dfy`, `FlowGraph.dfy`). Registers A, X and 16 scratch words of 32 bits,
an immutable packet, big-endian loads. A load outside the packet, a division by zero and a shift by
32 or more have no next state: the run faults, and the filter rejects the packet. A filter under
construction is a directed acyclic graph of basic blocks; its verdict is a number or a fault.

**Code generation** (`Fragments.dfy`, `Closing.dfy`, `Tracing.dfy`, `CodeGen.dfy`). Conditions become blocks in one
arena; open exits are chained through the very fields they will later fill, and a sense bit tells
which field is the link. Every operation keeps each piece of code standing for its condition, with
a three-valued meaning: true, false, or a fault, left to right. `Arithmetic.dfy`, `Matching.dfy` and
`Wlan.dfy` generate arithmetic through scratch registers, byte-string comparisons and the 802.11
address tests on top of it.

**The optimizer** (`Levels.dfy` to `Interning.dfy`). Levels, dominators and edge dominators are exact
with respect to paths, liveness is non-interference, value numbers are interned expressions with a
run-time value. Jump threading, dead-store elimination, both in the one pass that runs them, and block
merging keep the verdict. Test pull-up keeps it under a condition that is proved exact; the pass that
rewrites statements by their numbers and drops dead stores keeps it as long as nothing goes that the
rewriting has brought into use. Where a condition can fail, a concrete input shows it. The graphs
threaded, rewritten and reordered are *self-contained*: the root sets certain shared atoms (the lengths
of variable-length headers), nothing else writes them, and every block sets all other atoms before it
reads them. `Containment.dfy` says exactly which generated programs are: those whose tests keep to their
own registers, as byte-string, 802.11 and arithmetic tests do while the registers of the lengths are taken.
`RegisterReuse.dfy` shows that the code generator does not always produce such a program: the register of
a header length may be one that an earlier relation has given back, and the length is then overwritten.

**The assembler** (`Marking.dfy`, `Assembler.dfy`). Blocks are laid out from the end of an array with
8-bit branch offsets and long jumps; rounds are repeated until everything fits. `Pipeline.dfy` puts the
stages together: each pass with the analyses computed for its graph, and any condition compiled to an
array that answers every packet as the condition does.

**Beside the compiler**: the resumable delivery loop over BPF buffers (`ReadLoop.dfy`), the receive ring
between interrupt handler and poller (`RxRing.dfy`), and the ordered list of interfaces
(`InterfaceList.dfy`). `Capture.dfy` runs the loop with a compiled filter: what reaches the callback is
said of the condition and of the records the kernel has.

**Definitions checked from outside.** What the operations are proved against is itself tied to something
simpler: the machine's arithmetic to bits, digits and inverse operations (`MachineLaws.dfy`), the atom
sets to states told apart and to paths (`LivenessLaws.dfy`), the rewriting of statements to constants
and the machine's own results (`StatementLaws.dfy`), address places to the frame layout, instance numbers
to decimal notation, levels to longest paths.

What comes from outside is a parameter: the hash function of the value table, the results of reads
from the device, the moments at which the break flag is raised, whether an interface can be opened.

## Model

| member | source | states |
|---|---|---|
| `Machine.RunStmtsAppend` | android/external/libpcap-1.1.1/net/bpf_filter.c:226-520 | Running one statement list after another is running their concatenation; a fault in the first part is final. |
| `Machine.KeptRuns` | android/external/libpcap-1.1.1/optimize.c:1907-1918 | Dropping the NOPs of a list changes neither its final registers nor whether it faults. |
| `Machine.CanFaultExact` | android/external/libpcap-1.1.1/net/bpf_filter.c:226-520 | The statements that can fault are the loads from the packet, division by X or by the constant 0, and shifts by X or by 32 and more; each of them does fault somewhere, and no other ever does. |
| `MachineLaws.AndBits` | android/external/libpcap-1.1.1/net/bpf_filter.c:461-468 | Bit i of a conjunction is set just when it is set in both words. |
| `MachineLaws.OrBits` | android/external/libpcap-1.1.1/net/bpf_filter.c:461-468 | Bit i of a disjunction is set just when it is set in either word. |
| `MachineLaws.CommonBit` | android/external/libpcap-1.1.1/net/bpf_filter.c:423-445 | A JSET test comes out true just when the two words have a set bit in common. |
| `MachineLaws.LoadedDigits` | android/external/libpcap-1.1.1/net/bpf_filter.c:112-156 | The bytes of a load are the digits of its value to the base 256, the first the most significant; a load is there just when all its bytes are captured. |
| `MachineLaws.HeaderLength` | android/external/libpcap-1.1.1/net/bpf_filter.c:366-372 | The MSH load gives four times the remainder by 16 of a captured byte, and faults past the end. |
| `MachineLaws.AddAndSub` | android/external/libpcap-1.1.1/net/bpf_filter.c:446-460 | Subtraction takes back addition and addition subtraction, in words that wrap around; a word and its negative add up to 0. |
| `MachineLaws.Quotient` | android/external/libpcap-1.1.1/net/bpf_filter.c:446-460 | The quotient is how often the divisor goes into the dividend, and there is none by 0. |
| `MachineLaws.Shifts` | android/external/libpcap-1.1.1/net/bpf_filter.c:461-476 | A left shift by one more place doubles, a right shift halves; by 0 nothing changes, by 32 or more there is no result. |
| `FlowGraph.ClosedReaches` | android/external/libpcap-1.1.1/optimize.c:1788-1814 | A set that holds a block and is closed under successors holds everything that block reaches. |
| `Fragments.AndGood` | android/external/libpcap-1.1.1/gencode.c:590-600 | Joining two pieces of code with disjoint blocks gives a piece whose exit lists are again well formed and which, however its open exits are later filled, evaluates the conjunction left to right, faults included. |
| `Fragments.OrGood` | android/external/libpcap-1.1.1/gencode.c:602-611 | The same for the disjunction. |
| `Fragments.NotGood` | android/external/libpcap-1.1.1/gencode.c:613-618 | Flipping the sense bit of the top block alone turns a piece into one for the negation: both lists swap roles, every resolved edge stays. |
| `Fragments.SingleGood` | android/external/libpcap-1.1.1/gencode.c:346-357 | A fresh block is a piece whose two fields are both open, and it decides exactly its own test. |
| `Fragments.GoodFrame` | android/external/libpcap-1.1.1/gencode.c:513-528 | Writes to blocks of other pieces do not disturb a piece: no field of it is aliased from outside. |
| `Fragments.OrMeaning` | android/external/libpcap-1.1.1/gencode.c:602-611 | De Morgan holds for the three-valued, register-threading evaluation. |
| `CodeGen.Generator.NewBlock` | android/external/libpcap-1.1.1/gencode.c:346-357 | Adds one piece standing for its own test and leaves every other piece standing for what it stood for. |
| `CodeGen.Generator.Backpatch` | android/external/libpcap-1.1.1/gencode.c:513-528 | Follows the chain threaded through the fields picked by the sense bits and points exactly its members' link fields at the target. |
| `CodeGen.Generator.Merge` | android/external/libpcap-1.1.1/gencode.c:535-547 | Changes one field only: the open link at the end of the first list. |
| `CodeGen.Generator.GenAnd` | android/external/libpcap-1.1.1/gencode.c:590-600 | Uses up both operands and leaves at the second one a piece meaning their conjunction; all other pieces keep their meaning. |
| `CodeGen.Generator.GenOr` | android/external/libpcap-1.1.1/gencode.c:602-611 | The same for the disjunction. |
| `CodeGen.Generator.GenNot` | android/external/libpcap-1.1.1/gencode.c:613-618 | The piece now means the negation; all other pieces keep their meaning. |
| `Tracing.AndTraced` | android/external/libpcap-1.1.1/gencode.c:590-600 | The blocks of a conjunction are the tests of its operands from left to right, each but the first entered from one before it. |
| `Tracing.OrTraced` | android/external/libpcap-1.1.1/gencode.c:602-611 | The same for a disjunction. |
| `CodeGen.Generator.Generate` | android/external/libpcap-1.1.1/grammar.c:2193-2219 | For every and/or/not tree over test blocks, the actions in grammar order produce a piece that means the tree. |
| `Closing.FinalAnswers` | android/external/libpcap-1.1.1/gencode.c:549-588 | The closed program returns the snapshot length when the condition is true from the registers the prefix leaves, 0 when it is false, and faults exactly when the prefix or the evaluation does, on every packet from every register state. |
| `Closing.ClosedAcyclic` | android/external/libpcap-1.1.1/gencode.c:549-588 | A program whose every exit leads to a later block of it is an acyclic graph. |
| `CodeGen.Generator.FinishParse` | android/external/libpcap-1.1.1/gencode.c:549-588 | After closing, every jt and jf of the program is resolved to a later block, the graph is acyclic, it answers as the condition does, and its blocks are, in order, the tests of the condition, all of them reachable, and two constant returns, with the prefix in front of the first. |
| `Containment.GeneratedSelfContained` | android/external/libpcap-1.1.1/gencode.c:549-588 | The program finish_parse closes is self-contained if and only if its first test, with the prefix, reads only what has been set and sets what is shared, and every other test sets what it reads, the shared atoms apart, and writes none of those. |
| `Containment.KeptApart` | android/external/libpcap-1.1.1/gencode.c:549-588 | That is so when the prefix sets the shared atoms out of the packet alone and every test keeps to its own registers. |
| `RegisterReuse.NotSelfContained` | android/external/libpcap-1.1.1/gencode.c:2842-2862 | The program finish_parse closes for `less 100 and len + 1 > 5 and type mgt` on 802.11 with radiotap headers is self-contained for no choice of shared atoms: the register of the header length has just been given back by the relation. |
| `RegisterReuse.OthersContained` | android/external/libpcap-1.1.1/gencode.c:2360-2418 | The relation alone is to blame: the code that loads the header length, and the two other tests, keep to their registers. |
| `RegisterReuse.LengthOverwritten` | android/external/libpcap-1.1.1/gencode.c:6841-6885 | What comes of it: a frame that each of the three tests accepts alone is rejected by the three together, because the relation overwrites the header length. |
| `Levels.Leveler.FindLevels` | android/external/libpcap-1.1.1/optimize.c:234-273 | Every reachable block gets one more than the higher of its successors' levels, and each level's list holds exactly the reachable blocks of that level, each once. |
| `Levels.LevelBound` | android/external/libpcap-1.1.1/optimize.c:2015-2025 | No level reaches the number of blocks, so the table of levels is large enough. |
| `Levels.LongestPath` | android/external/libpcap-1.1.1/optimize.c:234-273 | The level of a block is the number of edges on a longest path from it. |
| `Levels.NotAboveRoot` | android/external/libpcap-1.1.1/optimize.c:234-273 | Everything reachable is below the root, and no edge leads back to it. |
| `Dominators.DominatesStep` | android/external/libpcap-1.1.1/optimize.c:276-303 | A block's dominators are itself and what dominates all its predecessors, where dominance is defined by paths. |
| `Dominators.FindDom` | android/external/libpcap-1.1.1/optimize.c:276-303 | For every reachable b, d is in the set of b just when every path from the root to b passes d. |
| `EdgeDominators.EdgeDominatesStep` | android/external/libpcap-1.1.1/optimize.c:307-318 | An edge's edge dominators are itself and what dominates every edge into its block. |
| `EdgeDominators.FindEdom` | android/external/libpcap-1.1.1/optimize.c:322-343 | For every edge f of a reachable block, e is in the set of f just when every path from the root through f goes through e. |
| `Liveness.NonInterference` | android/external/libpcap-1.1.1/optimize.c:383-552 | Two machine states that agree on the atoms in use at b get the same outcome from b on, faults included, when every leaf b reaches returns a constant or an A that it has set or read. |
| `Liveness.ReturnOfAInterferes` | android/external/libpcap-1.1.1/optimize.c:466-524 | For any other leaf that fails, on every run that does not fault: A is not in use there, yet another A gives another verdict. |
| `LivenessLaws.UsesExact` | android/external/libpcap-1.1.1/optimize.c:383-420 | atomuse names an atom for a statement just when two states that differ in that atom alone can give it different results, or a fault in one; excepted are operations whose constant decides the result by itself. |
| `LivenessLaws.TestUsesExact` | android/external/libpcap-1.1.1/optimize.c:406-411 | The same for branches, excepted those that come out one way only: `>= 0`, `> 0xffffffff` and `& 0`. |
| `LivenessLaws.InUseExact` | android/external/libpcap-1.1.1/optimize.c:466-552 | An atom is in use at a block just when some path from there reads it, in a statement or a test, before anything on the path has written it. |
| `LivenessLaws.OutUseExact` | android/external/libpcap-1.1.1/optimize.c:528-552 | And in use after a block just when that is so of a block it leads to. |
| `Liveness.ComputeLocalUd` | android/external/libpcap-1.1.1/optimize.c:466-524 | The one forward pass over a block yields sets that give its backward liveness for whatever is live after it. |
| `Liveness.FindUd` | android/external/libpcap-1.1.1/optimize.c:528-552 | For every reachable block the computed in and out sets are the liveness sets: the atoms that some path reads before it writes them. |
| `DeadStores.ThinnedRuns` | android/external/libpcap-1.1.1/optimize.c:1168-1213 | A list without some of its dead stores ends, on every run of the full list that does not fault, in a state that agrees on the live atoms. |
| `DeadStores.VerdictKept` | android/external/libpcap-1.1.1/optimize.c:1168-1213 | Pruning any block changes no verdict of a run that does not fault, wherever the run starts, and no verdict at all when no dead statement of the block can fault. |
| `DeadStores.PassKeepsVerdict` | android/external/libpcap-1.1.1/optimize.c:1168-1213 | Any number of blocks can be pruned with the sets of the graph the pass started from, from all states that agree on what was in use: runs that do not fault keep their verdict, and when no dead statement of the pruned blocks can fault every run does. |
| `DeadStores.ThinnedFaults` | android/external/libpcap-1.1.1/optimize.c:1168-1213 | Where no statement goes that can fault, the thinned list faults whenever the full one does. |
| `DeadStores.ThinnedKeepsVerdict` | android/external/libpcap-1.1.1/optimize.c:1168-1213 | Lists thinned in any blocks by what is live in the graph, all or only some of the dead statements gone, keep the verdict of every run that does not fault; of every run, if no statement goes that can fault. |
| `DeadStores.FaultMayVanish` | android/external/libpcap-1.1.1/optimize.c:1168-1213 | A deleted load can take a fault with it: that condition does fail. |
| `DeadStores.FateIsLiveness` | android/external/libpcap-1.1.1/optimize.c:1168-1213 | Whether a store is still pending, used or overwritten by the end of a list is the same thing as liveness. |
| `DeadStores.OptDeadstores` | android/external/libpcap-1.1.1/optimize.c:1168-1213 | The single pass with the table of last stores deletes exactly the stores that backward liveness calls dead. |
| `ValueNumbering.NumbersAreKeys` | android/external/libpcap-1.1.1/optimize.c:573-625 | Numbers given out at different times are equal exactly when code and operands are. |
| `ValueNumbering.OptStmtFaithful` | android/external/libpcap-1.1.1/optimize.c:980-1166 | On every run that gets past a statement the rewritten one reaches the same registers and the new numbers are true of them, provided the statement reads no atom numbered 0 (a copy may, when its target is not numbered 0 too) and shift counts stay below 32. |
| `ValueNumbering.OptStmtsFaithful` | android/external/libpcap-1.1.1/optimize.c:980-1166 | The same over a whole list: every atom ends with the same run-time value. |
| `ValueNumbering.NumbersTellTheTruth` | android/external/libpcap-1.1.1/optimize.c:627-637 | Afterwards equal nonzero numbers mean equal values, and a number marked constant means that constant. |
| `ValueNumbering.ZeroTakenForEqual` | android/external/libpcap-1.1.1/optimize.c:627-637 | Copying between two atoms numbered 0 deletes the statement, so it is wrong just when the two hold different values. |
| `ValueNumbering.OptStmtsTable` | android/external/libpcap-1.1.1/optimize.c:980-1166 | A list takes at most two numbers for each statement that is not a NOP. |
| `ValueTable.Values.F` | android/external/libpcap-1.1.1/optimize.c:594-625 | The hash chains, for any hash function, behave as the list of all keys in the order in which they got their numbers. |
| `ValueTable.Values.Search` | android/external/libpcap-1.1.1/optimize.c:594-625 | The walk along one chain finds the number of the key, or 0 just when the key is not in the table. |
| `ValueTable.Values.VStore` | android/external/libpcap-1.1.1/optimize.c:627-637 | Updates the value array and turns the statement into a NOP exactly as the numbering function says. |
| `ValueTable.Values.FoldOp` | android/external/libpcap-1.1.1/optimize.c:640-695 | Folds two constants into one load of what the machine computes, and refuses just the division by zero the source refuses. |
| `ValueTable.Values.OptStmt` | android/external/libpcap-1.1.1/optimize.c:980-1166 | The in-place rewriting of one statement does what the laws of statements below say, table and numbers included. |
| `StatementLaws.ConstantsFold` | android/external/libpcap-1.1.1/optimize.c:980-1166 | A load of a scratch word, a negation or an operation all of whose operands are known to be constant becomes an immediate load of the value the machine computes, or goes when its register is known to hold it; the register is then known to hold that value. If the machine would fault the compiler gives up. |
| `StatementLaws.GivesUpExactly` | android/external/libpcap-1.1.1/optimize.c:640-695 | The compiler gives up on a statement just when it is an operation of known constants that faults, and statements are being rewritten. |
| `StatementLaws.IndexedBecomesAbsolute` | android/external/libpcap-1.1.1/optimize.c:995-1008 | An indexed load whose index is known is dealt with as the absolute load at the sum modulo 2^32, and gets that load's number. |
| `StatementLaws.IndexBecomesConstant` | android/external/libpcap-1.1.1/optimize.c:1088-1110 | An operation of an unknown A with a known X becomes the operation with that constant, and gets its number. |
| `StatementLaws.ZeroOperand` | android/external/libpcap-1.1.1/optimize.c:1046-1070 | Adding, or-ing or shifting by the constant 0 goes; multiplying by it or masking with it loads 0, and A is then known to be 0. |
| `StatementLaws.ZeroAccumulator` | android/external/libpcap-1.1.1/optimize.c:1111-1136 | With A known to be 0 and X unknown, adding or or-ing X copies it; multiplying, dividing, masking or shifting goes, A being 0 already. |
| `StatementLaws.RedundantGoes` | android/external/libpcap-1.1.1/optimize.c:627-637 | A load or copy goes just when its target has the number of its result already. |
| `StatementLaws.LeftAlone` | android/external/libpcap-1.1.1/optimize.c:980-1166 | A statement none of whose operands is known stays as it is unless it is such a load or copy, and so does every statement in a pass that does not rewrite. |
| `StatementLaws.CopiesPassOn` | android/external/libpcap-1.1.1/optimize.c:1138-1166 | Copies and scratch loads and stores pass on numbers; an immediate load makes its register known. |
| `StatementLaws.SameAgain` | android/external/libpcap-1.1.1/optimize.c:594-625 | The same statement done again later, on operands with the same numbers, has a result with the same number. |
| `StatementLaws.StatementByStatement` | android/external/libpcap-1.1.1/optimize.c:1264-1266 | In a rewritten list every statement is what opt_stmt makes of it at the numbers that the list up to it leaves. |
| `StatementLaws.ConstantsCarried` | android/external/libpcap-1.1.1/optimize.c:980-1166 | Every constant that running a list on constants alone would know, the numbers know at its end. |
| `StatementLaws.ConstantsLoaded` | android/external/libpcap-1.1.1/optimize.c:980-1166 | So wherever such a run knows all operands of a scratch load, negation or operation, the rewritten list has an immediate load of the value or nothing, and where it knows the index of a load an absolute load at the sum or nothing. |
| `BlockNumbering.BlockTellsTruth` | android/external/libpcap-1.1.1/optimize.c:1215-1313 | In a graph whose blocks carry nothing but the atoms set by the root, the recorded exit numbers of a block are true of every run that leaves it. |
| `BlockNumbering.OutcomeIsTaken` | android/external/libpcap-1.1.1/optimize.c:1215-1313 | What the numbers say of a block's test is how it comes out on every run that reaches it, whatever the registers were. |
| `BlockNumbering.SharedNumber` | android/external/libpcap-1.1.1/optimize.c:1233-1260 | The inherited numbers of the shared atoms are everywhere those the root left. |
| `BlockNumbering.ConstantsDistinct` | android/external/libpcap-1.1.1/optimize.c:594-625 | A constant has one number, so two operands with different numbers are not the same constant. |
| `Rewriting.RewritingKeepsVerdicts` | android/external/libpcap-1.1.1/optimize.c:980-1313 | In a graph numbered from block to block, lists that do the same wherever the entry numbers are true, as far as it is needed later, may replace the blocks' own, all at once: every run from the root that does not fault keeps its verdict. |
| `Rewriting.ListsKeepVerdicts` | android/external/libpcap-1.1.1/optimize.c:980-1313 | opt_stmt on all statements of all blocks, with inherited numbers, keeps the verdict of every run that does not fault, as long as no statement reads what nothing is known of. |
| `Rewriting.SelfContainedReads` | android/external/libpcap-1.1.1/optimize.c:1233-1260 | In a self-contained graph no statement does. |
| `Rewriting.EmptiedRuns` | android/external/libpcap-1.1.1/optimize.c:1271-1301 | A block that leaves in A and X the known numbers it found there changes nothing but the scratch words it writes. |
| `Rewriting.FinishingKeepsVerdicts` | android/external/libpcap-1.1.1/optimize.c:1215-1313 | Rewriting, emptying and dead-store elimination of every block, in one pass with the numbers of that pass and the liveness from before it, keep the verdict of every run that does not fault, provided nothing goes that is in use once the lists are rewritten. |
| `Rewriting.NothingBroughtIn` | android/external/libpcap-1.1.1/optimize.c:1168-1313 | That is so when the rewriting leaves no more in use after any block than there was. |
| `Rewriting.NothingInherited` | android/external/libpcap-1.1.1/optimize.c:1168-1313 | And when no rewritten block reads what it has not set. |
| `ForgottenStore.StoreForgotten` | android/external/libpcap-1.1.1/optimize.c:1168-1313 | That proviso can fail: in a self-contained graph with exact liveness the pass deletes a store as dead, then a later one as redundant, which brings the first into use, and rejects a packet that was accepted. |
| `Rewriting.StopFaults` | android/external/libpcap-1.1.1/optimize.c:640-695 | In a self-contained graph the compiler gives up at a block only if every run that comes to it faults there. |
| `NumberingPass.FindInedges` | android/external/libpcap-1.1.1/optimize.c:1672-1702 | Each predecessor list holds exactly the edges from reachable blocks, each once. |
| `NumberingPass.InheritNumbers` | android/external/libpcap-1.1.1/optimize.c:1233-1260 | A block inherits, atom by atom, the number all its predecessors agree on, else 0. |
| `NumberingPass.NumberBlock` | android/external/libpcap-1.1.1/optimize.c:1215-1313 | Records exit numbers and operand number of one block, rewritten or not, and leaves what NumberingPass.LeftExactly describes. It takes at most two numbers a statement and one more, even when the compiler is stopped in the middle. |
| `NumberingPass.LeftExactly` | android/external/libpcap-1.1.1/optimize.c:1271-1301 | What opt_blk leaves: no statements in a rewritten return, nor in a rewritten branch with nothing in use after it that leaves in A and X the known numbers it found there; elsewhere a NOP for just those statements whose result nothing reads before it is written again, the test and later blocks included; tests, exits and return values as they were. |
| `NumberingPass.NumberBlocks` | android/external/libpcap-1.1.1/optimize.c:1633-1650 | The pass, with rewriting or without, numbers every reachable block consistently and leaves each as opt_blk does, unless opt_stmt stops it at a block; whatever happens it gives out fewer numbers than opt_init makes room for. |
| `NumberingPass.TableFits` | android/external/libpcap-1.1.1/optimize.c:2057-2067 | The count of numbers a whole pass can take stays below three times statements and blocks. |
| `JumpThreading.FoldForces` | android/external/libpcap-1.1.1/optimize.c:1338-1390 | When fold_edge names a target, every run through the edge and on through its successor must go to that target. |
| `JumpThreading.FoldExact` | android/external/libpcap-1.1.1/optimize.c:1338-1390 | It names one just when both branches have the same code and the same number in A and their operands have the same number, and then the exit of the side taken, or when the operands differ, the test is equality with a constant and it came out true, and then the false exit. |
| `JumpThreading.Walk` | android/external/libpcap-1.1.1/optimize.c:1392-1445 | Moving one edge to such a target leaves every run that does not fault with the same end. |
| `JumpThreading.MoveKeepsVerdicts` | android/external/libpcap-1.1.1/optimize.c:1392-1445 | The moved graph stays acyclic, keeps all verdicts of runs that do not fault, and the target's level strictly falls. |
| `JumpThreading.Threader.UseConflict` | android/external/libpcap-1.1.1/optimize.c:1321-1335 | True just when some atom in use after the target has another number there. |
| `JumpThreading.Threader.OptJ` | android/external/libpcap-1.1.1/optimize.c:1392-1445 | Its edge goes past a test with equal exits if no atom in use after them differs, and then from test to test as long as an edge dominating it has decided the test and no atom in use after the place to go to has another number there, by the first such edge each time; it ends where no dominating edge lets it go on. No other edge moves, statement lists play no part, done is cleared just when it moved, and the verdicts are kept. |
| `JumpThreading.Threader.MoveBranches` | android/external/libpcap-1.1.1/optimize.c:1655-1661 | Over all edges from level 1 up, with edge dominators computed once: acyclic, self-contained as before, same verdict for every run that does not fault. At the end no edge of a reachable branch leads to a test that an edge dominating it has decided, unless an atom in use after the place to go to differs, and no edge has moved to a place after which one does. With done still set nothing has moved. The blocks may have lost their dead stores before. |
| `JumpThreading.ExhaustedKept` | android/external/libpcap-1.1.1/optimize.c:1655-1661 | Moving edges of blocks higher up leaves nothing more to do at an edge already finished. |
| `ThreadedStores.ThreadedUse` | android/external/libpcap-1.1.1/optimize.c:1655-1661 | Branches only move down from where they led, so in a self-contained graph no more is in use after a block than before. |
| `ThreadedStores.ThreadedKeepsVerdicts` | android/external/libpcap-1.1.1/optimize.c:1302-1304 | Dead stores dropped by the liveness before the branches move, and branches moved by the numbers of the lists before the stores go: together they keep the verdict of every run that does not fault. |
| `ThreadedStores.DroppedSelfContained` | android/external/libpcap-1.1.1/optimize.c:1168-1213 | Without its dead stores the graph is self-contained with those shared atoms that the root still sets. |
| `Pullup.SinglePredecessor` | android/external/libpcap-1.1.1/optimize.c:1475-1516 | A later test of a chain that shares one exit and is dominated by its first test can be reached from the test before it only. |
| `Pullup.PulledAcyclic` | android/external/libpcap-1.1.1/optimize.c:1517-1538 | Putting a later test in front of an earlier one leaves the graph acyclic. |
| `Pullup.PulledGo` | android/external/libpcap-1.1.1/optimize.c:1517-1538 | At its new place the pulled test faults, or goes to the shared exit at once, or lets the tests it was put before decide as before, faults included. |
| `Pullup.PulledPastIt` | android/external/libpcap-1.1.1/optimize.c:1517-1538 | Runs that never come to the place the test is pulled to are as before, faults included. |
| `Pullup.PulledMeets` | android/external/libpcap-1.1.1/optimize.c:1517-1538 | Runs that do come there come to the pulled test now. |
| `Pullup.PulledSelfContained` | android/external/libpcap-1.1.1/optimize.c:1517-1538 | No block becomes reachable that was not, and blocks still carry nothing but the shared atoms. |
| `Pullup.PullKeepsVerdict` | android/external/libpcap-1.1.1/optimize.c:1448-1631 | What becomes of every run from the root: one that does not come to the new place stays as it is; one that does faults if the pulled test faults there, goes to the shared exit if it leaves, and stays as it is if it does not. A run that does not fault keeps its verdict if and only if the pulled test, if met, runs without a fault from the state the root leaves. |
| `Pullup.PullKeepsVerdicts` | android/external/libpcap-1.1.1/optimize.c:1448-1631 | A test without loads from the packet, divisions and shifts can always be pulled. |
| `Pullup.PullMayFault` | android/external/libpcap-1.1.1/optimize.c:1448-1631 | The condition can fail: a graph, a packet and a pull that turns an accepted packet into a fault. |
| `PullupPass.PullupSound` | android/external/libpcap-1.1.1/optimize.c:1448-1631 | One call of either pass either changes nothing or pulls one test: acyclic, blocks unchanged but for their edges, still self-contained, and every run with exactly that outcome. |
| `PullupPass.TargetExact` | android/external/libpcap-1.1.1/optimize.c:1448-1515 | The search finds a chain and a place in it if and only if they are those: the same exit shared, every test reached through b only, the number of the predecessors of b on all tests before the place and on the last, another one on all between. |
| `PullupPass.Puller.RedirectAll` | android/external/libpcap-1.1.1/optimize.c:1527-1533 | Looking at each in-edge once, as the source does, moves every edge into b, also when both exits of a predecessor lead there. |
| `PullupPass.Puller.Splice` | android/external/libpcap-1.1.1/optimize.c:1517-1538 | The pointer writes at the top of the chain and inside it both give the graph with the test put in front. |
| `PullupPass.Puller.OrPullup` | android/external/libpcap-1.1.1/optimize.c:1448-1539 | Where the predecessors of b leave the same number in A, and along the chain of tests that share the true exit and are reached through b only there is a first one with another number and after it a first one with that number again, the second is put in front of the first and done is cleared; where there is no such chain nothing changes. |
| `PullupPass.Puller.AndPullup` | android/external/libpcap-1.1.1/optimize.c:1541-1631 | The same for chains that share their false exit, for both answers. |
| `Interning.EqBlkRuns` | android/external/libpcap-1.1.1/optimize.c:1837-1847 | Two blocks equal by eq_blk behave the same on every packet from every register state. |
| `Interning.Interner.MarkCode` | android/external/libpcap-1.1.1/optimize.c:1788-1814 | Marks exactly the blocks the root reaches. |
| `Interning.EqSlist` | android/external/libpcap-1.1.1/optimize.c:1817-1835 | Two statement lists are found equal just when they are the same but for NOPs. |
| `Interning.SlackFalls` | android/external/libpcap-1.1.1/optimize.c:1877-1890 | A round that redirects anything strictly raises the target of some edge and lowers none, so the rounds end. |
| `Interning.RelinkedRuns` | android/external/libpcap-1.1.1/optimize.c:1877-1890 | Redirecting along the links keeps every verdict, faults included, from every block. |
| `Interning.NothingLeft` | android/external/libpcap-1.1.1/optimize.c:1858-1890 | If a round finds nothing to redirect no two reachable blocks are equal by eq_blk, the root included. |
| `Interning.Interner.InternBlocks` | android/external/libpcap-1.1.1/optimize.c:1849-1891 | Terminates with every run from every block as before. No two reachable blocks are left that have the same statements but for NOPs and return the same, or make the same test and have the same two successors. |
| `Assembler.CodeRuns` | android/external/libpcap-1.1.1/optimize.c:2090-2239 | An array in which every reachable block stands at its offset, with its exits leading to its successors, does from there what the graph does; it never runs off the end. |
| `Assembler.Converter.CountStmts` | android/external/libpcap-1.1.1/optimize.c:1973-1984 | Counts the cells of exactly the blocks the walk marks. |
| `Assembler.Converter.EmitBranch` | android/external/libpcap-1.1.1/optimize.c:2203-2239 | Either both exits lead, directly or by a long jump, to their targets within 8 bits, or one more exit that is too far is marked. |
| `Assembler.Converter.ConvertCodeR` | android/external/libpcap-1.1.1/optimize.c:2090-2239 | Lays blocks down successors first without disturbing those already placed; a failed round has marked an exit that was not marked and is too far. |
| `Assembler.LaidAll` | android/external/libpcap-1.1.1/optimize.c:2263-2298 | The counted cells are exactly used: the last block placed starts at index 0. |
| `Assembler.TooFarGrows` | android/external/libpcap-1.1.1/optimize.c:2203-2239 | An exit found too far in one round is too far in all later ones. |
| `Assembler.Converter.IcodeToFcode` | android/external/libpcap-1.1.1/optimize.c:2263-2298 | The retry loop ends; the array started at 0 gives the graph's verdict on every packet from every register state; all jumps are forward, in range and in 8 bits; a branch has a long jump on a side just when its offset there does not fit. |
| `Pipeline.MoveBranches` | android/external/libpcap-1.1.1/optimize.c:1633-1662 | Levels, edge dominators and liveness of any self-contained graph, every block numbered and rid of exactly its dead stores, then the branches moved with those numbers: together the verdict of every run that does not fault is kept, the graph is still self-contained, and no edge leads to a test decided on the way to it but for an atom in use that differs. |
| `Pipeline.RewriteStatements` | android/external/libpcap-1.1.1/optimize.c:1633-1650 | Levels and liveness computed for any self-contained graph, then opt_blk with rewriting from the root down: the verdict of every run that does not fault is kept unless something goes that the rewriting has brought into use, and the compiler gives up only when some reachable block faults on every run that comes to it. |
| `Pipeline.PullUp` | android/external/libpcap-1.1.1/optimize.c:1663-1670 | Dominators and predecessor lists computed for any self-contained graph are what a pull needs, for any numbers of A: a pull is made just where one is due, the outcome of every run is known, and the verdict of a run that does not fault is kept if and only if the pulled test, if met, does not fault. |
| `Pipeline.DropDeadStores` | android/external/libpcap-1.1.1/optimize.c:1168-1213 | Liveness computed once, then the dead stores, and no other statement, dropped in every reachable block from the root's level down: every run that does not fault keeps its verdict, and every run does if no dead statement can fault. |
| `Pipeline.MergeAndAssemble` | android/external/libpcap-1.1.1/optimize.c:1849-2298 | Equal blocks merged and the rest laid out: the array gives every verdict of the graph, faults included. |
| `Pipeline.CompileFilter` | android/external/libpcap-1.1.1/gencode.c:450-472 | Any condition, compiled without the optimizer, becomes an array that answers every packet, from every register state, as the three-valued evaluation does. |
| `Pipeline.CompileOptimized` | android/external/libpcap-1.1.1/gencode.c:450-472 | Any condition whose program is self-contained, compiled with dead stores dropped, branches moved and equal blocks merged, becomes an array that never runs off its end and answers every packet on which the evaluation does not fault. |
| `Pipeline.AcceptedExactly` | android/external/libpcap-1.1.1/net/bpf_filter.c:208-260 | The machine hands back the snapshot length exactly when the condition holds without a fault, and 0 otherwise. |
| `Arithmetic.Compiler.AllocReg` | android/external/libpcap-1.1.1/gencode.c:6989-7006 | Hands out the first free register going round from the last one, and fails only when all 16 are in use. |
| `Arithmetic.Compiler.GenArth` | android/external/libpcap-1.1.1/gencode.c:6943-6969 | The operands' code followed by the operation leaves the result in a register, with only that register newly in use; the allocation cannot fail. |
| `Arithmetic.Compiler.GenLoad` | android/external/libpcap-1.1.1/gencode.c:6603-6680 | A load from the link-layer header at a computed offset; it fails just when no second register was free. |
| `Arithmetic.Compiler.GenNeg` | android/external/libpcap-1.1.1/gencode.c:6925-6941 | Negates in the operand's own register. |
| `Arithmetic.Compiler.Compile` | android/external/libpcap-1.1.1/gencode.c:6841-7016 | For every expression tree the code leaves its 32-bit value in its register, faults just when the value does not exist, and overwrites no register in use; it fails exactly when the tree needs more registers at once than are free. |
| `Arithmetic.BinaryComputes` | android/external/libpcap-1.1.1/gencode.c:6943-6969 | The second operand's code does not destroy the first operand's register. |
| `Arithmetic.RelationHolds` | android/external/libpcap-1.1.1/gencode.c:6841-6885 | The block of a relation branches exactly on the relation between the two values; equality is tested as a difference of 0. |
| `Arithmetic.RelationContained` | android/external/libpcap-1.1.1/gencode.c:6841-6885 | The block of a relation leaves every register in use alone and reads nothing it has not set. |
| `Arithmetic.Compiler.CompileRelation` | android/external/libpcap-1.1.1/gencode.c:6841-6885 | A whole relation, reversed or not, becomes a piece that means it, both registers are free again, and the piece neither reads what it has not set nor writes a register that was in use. |
| `Matching.NcmpMeans` | android/external/libpcap-1.1.1/gencode.c:720-744 | The block compares the field under the mask with the value and faults just when the field is not all in the packet. |
| `Matching.GenNcmp` | android/external/libpcap-1.1.1/gencode.c:720-744 | The test is turned round only for the two orderings, whatever the reverse flag says. |
| `Matching.ChunksMean` | android/external/libpcap-1.1.1/gencode.c:675-711 | Testing the later bytes first makes the fault exact: it occurs just when the string is not all there. |
| `Matching.GenBcmp` | android/external/libpcap-1.1.1/gencode.c:675-711 | Nothing is generated for the empty string; for any other offset, length and byte string the chain is true just when those bytes are all in the packet and equal, and faults just when they are not all there, if and only if the offset of its last piece does not wrap around 32 bits. |
| `Wlan.HostTrue` | android/external/libpcap-1.1.1/gencode.c:3892-4155 | A source or destination test is true just when the frame is a data or management frame whose address of that kind, at the place To DS and From DS give (sections 7.2.2 and 7.2.3 of IEEE 802.11-2007), is captured and equal. |
| `Wlan.PlacesByLayout` | android/external/libpcap-1.1.1/gencode.c:3892-4155 | The places follow from the frame layout: by type and, for data, by the DS bits, the source is address 2, 3 or 4 and the destination address 1 or 3, at the offsets their fields have behind frame control, duration and sequence control; control and reserved frames have neither, and a frame too short to tell is cut. |
| `Wlan.SourceIsParts` | android/external/libpcap-1.1.1/gencode.c:3892-4041 | The guards send every frame, of any length, to the one comparison that is right for it and to no other load. |
| `Wlan.DestinationIsParts` | android/external/libpcap-1.1.1/gencode.c:4043-4155 | The same for the destination address. |
| `Wlan.GenWlanhostop` | android/external/libpcap-1.1.1/gencode.c:3873-4219 | The generated piece means the test, for src, dst, both and either. |
| `Wlan.BothAndEitherTrue` | android/external/libpcap-1.1.1/gencode.c:4206-4216 | Exactly when the combined tests are true; either one also needs the source address to be captured. |
| `Wlan.EitherMissesCutFrame` | android/external/libpcap-1.1.1/gencode.c:4211-4216 | A frame cut off before its source address is missed although its destination address matches. |
| `ReadLoop.StartNext` | android/external/libpcap-1.1.1/pcap-bpf.c:969-979 | The cursor, moved by the size of a record rounded up to a multiple of four, is at the start of the next one. |
| `ReadLoop.Reader.Deliver` | android/external/libpcap-1.1.1/pcap-bpf.c:900-984 | Delivers the matching packets in order and stops at the end, after cnt packets, or when it finds the flag raised; Capture.PassesExactly and Capture.PassesAll say which packets match. |
| `ReadLoop.Reader.Read` | android/external/libpcap-1.1.1/pcap-bpf.c:769-985 | What is delivered is a prefix of what was waiting, the rest stays waiting, at most cnt packets for a positive cnt; a break with nothing delivered loses a buffer just when it was read in that call. |
| `ReadLoop.Session` | android/external/libpcap-1.1.1/pcap-bpf.c:769-985 | Over any sequence of calls the packets delivered are, in order and none twice, matching packets of the buffers read, those being the first of what the kernel had; without a break they are all of them but those waiting. |
| `ReadLoop.MatchingPlaces` | android/external/libpcap-1.1.1/pcap-bpf.c:925-982 | The matching packets are those of exactly the records that pass, each once and in order. |
| `Capture.PassesExactly` | android/external/libpcap-1.1.1/pcap-bpf.c:925-943 | A filter compiled from a condition, with a positive snapshot length and not in the kernel, passes a packet just when the prefix and the condition, run from registers that are all 0, come to an end on it and the condition is true. |
| `Capture.PassesSettled` | android/external/libpcap-1.1.1/pcap-bpf.c:925-943 | With the optimizer that is so of every packet on which they do not fault. |
| `Capture.PassesAll` | android/external/libpcap-1.1.1/pcap-bpf.c:925-943 | A filter in the kernel, or an empty one, passes every packet. |
| `Capture.CaptureFiltered` | android/external/libpcap-1.1.1/pcap-bpf.c:769-985 | From condition to callback: any condition compiled and read with, over any sequence of calls, delivers, in order and none twice, packets of the buffers read on which the condition is true; when the flag is never raised all of them but those waiting. |
| `Capture.CaptureOptimized` | android/external/libpcap-1.1.1/pcap-bpf.c:769-985 | The same for a condition whose tests keep to their registers, compiled with the optimizer, as long as the condition faults on no packet that comes. |
| `Capture.CaptureAll` | android/external/libpcap-1.1.1/pcap-bpf.c:769-985 | With the filter in the kernel, or with none, the same of all packets. |
| `RxRing.TakeOthers` | android/external/libpcap-1.1.1/pcap-dos.c:1325-1357 | Filling the next element does not touch the frames queued. |
| `RxRing.Ring.GetRxbuf` | android/external/libpcap-1.1.1/pcap-dos.c:1325-1357 | Queues a frame of 60 to 1514 bytes while fewer than num_elem - 1 are queued; when so many are, the ring is emptied; other lengths change nothing. |
| `RxRing.Ring.PeekRxbuf` | android/external/libpcap-1.1.1/pcap-dos.c:1283-1303 | Finds the oldest frame, if there is one, and leaves it queued. |
| `RxRing.Ring.ReleaseRxbuf` | android/external/libpcap-1.1.1/pcap-dos.c:1308-1319 | Removes the oldest frame; without one the ring comes to hold all its stale elements. |
| `RxRing.AllSound` | android/external/libpcap-1.1.1/pcap-dos.c:1283-1357 | In a run in which each release follows a successful peek with no overflow in between, the frame peeked at is still there. |
| `RxRing.Ring.RunAll` | android/external/libpcap-1.1.1/pcap-dos.c:1283-1357 | In any such run the ring is a queue of capacity num_elem - 1 that empties itself on overflow, its indices always in range, and every peek and every request for a buffer gets the answer that queue would give. |
| `RxRing.FirstInFirstOut` | android/external/libpcap-1.1.1/pcap-dos.c:1283-1357 | Without an overflow the frames come out in the order they went in, none lost and none twice. |
| `InterfaceList.GetInstance` | android/external/libpcap-1.1.1/inet.c:103-127 | The decimal number behind the first word of the name, whatever zeros lead it and whatever follows that is no digit; 0 for a name without digits, and 0x7fffffff for "any". |
| `InterfaceList.InstanceIsDecimal` | android/external/libpcap-1.1.1/inet.c:103-127 | A word without digits, any number of zeros, a number written in decimal and a rest that does not go on with a digit have that number. |
| `InterfaceList.InstanceWithoutDigits` | android/external/libpcap-1.1.1/inet.c:103-127 | A name without digits has number 0, but "any" has 0x7fffffff. |
| `InterfaceList.NumberOrder` | android/external/libpcap-1.1.1/inet.c:255-333 | On an ordered list devices of one kind come in the order of their decimal numbers, the tenth behind the ninth. |
| `InterfaceList.LoopbackLast` | android/external/libpcap-1.1.1/inet.c:255-333 | Loopback devices come behind all others, and devices of one kind and number as they were found. |
| `InterfaceList.InsertedListed` | android/external/libpcap-1.1.1/inet.c:255-353 | A new device put in front of the first it belongs in front of keeps the list in order: loopback last, then instance, then order of arrival, all names distinct. |
| `InterfaceList.DeviceList.FindPlace` | android/external/libpcap-1.1.1/inet.c:259-333 | The walk with a trailing pointer stops at that place. |
| `InterfaceList.DeviceList.Splice` | android/external/libpcap-1.1.1/inet.c:335-353 | The two pointer writes insert the node and leave the rest of the list linked as it was. |
| `InterfaceList.DeviceList.AddOrFindIf` | android/external/libpcap-1.1.1/inet.c:129-358 | A known name is found and changes nothing; a device that cannot be opened is left out; any other is inserted in its place, nothing is lost and the list stays in order without duplicates. |
| `InterfaceList.DeviceList.AddAll` | android/external/libpcap-1.1.1/inet.c:129-358 | After any sequence of calls all earlier devices are still listed and every device that can be opened is. |

## Left out

- opt_peep: one of its rewrites, of `jset #ffffffff` to always, is wrong when A is 0, and another assumes that X is not used later in the block.
- opt_root: it drops the statements of skipped blocks and appends to a possibly null list.
- opt_loop and the composition of passes in opt_blks: each pass over a graph is proved with analyses computed for the graph it starts from; the code goes on with analyses that have become stale.
- find_closure: its sets are computed but not used by the modelled passes.
- NumberingPass.NumberBlock: does not model the call of opt_peep in opt_blk, because opt_peep is left out.
- Rewriting.FinishingKeepsVerdicts: states one direction only; what goes may be in use by the analysis and still make no difference to any run.
- Pipeline.CompileOptimized: does not run statement rewriting and test pull-up, whose outcome depends on the graph; Pipeline.RewriteStatements and Pipeline.PullUp state it.
- Block-local jumps, the `slen - 2` case of convert_code_r and the loop of gen_protochain: they switch the optimizer off or need backward jumps.
- CodeGen.Generator.FinishParse: does not model the check that finish_parse puts in front for DLT_PPI.
- init_linktype, gen_linktype and the tables of link-layer offsets, DECnet, ATM, MTP and pf tests: long lists of finite cases.
- Wlan.GenWlanhostop: does not model addr1 to addr4, further cases of comparisons already covered, and link types with a prefix before the 802.11 header.
- Arithmetic.Compiler.GenLoad: does not model loads from network and transport headers, which carry a protocol check, or behind a variable-length prefix.
- Arithmetic.Compiler.CompileRelation: does not model the protocol checks of such loads, which gen_relation puts in front.
- Matching.GenNcmp: does not model fields behind a variable-length header, only those of the raw packet.
- The lexer, the LALR tables and name resolution: only the order in which the semantic actions combine blocks is used.
- Memory exhaustion and error exits by longjmp: an error is a failure result.
- The wrap-around of the mark counter: marks are a set that starts empty.
- ValueTable.Values.F: does not model the table's size limit itself; that it is never reached is stated by NumberingPass.NumberBlocks.
- InterfaceList.GetInstance: does not model the overflow of atoi, which C leaves undefined.
- The machine's own check of `k + size` for wrap-around, shifts by 32 or more and division by a zero constant, which C leaves undefined, count as faults.
- Concurrency of the interrupt handler within one ring operation: interrupts are disabled in the handler, and a peek reads both indices in one locked step.
- A return of X: no block that the compiler generates has one.
- Pointers to blocks are positions in the arena or the blocks array, so aliasing is kept but allocation is not modelled.
