# Verified models of Proxion's analysis algorithms

Proxion analyses proxy contracts: it disassembles and traces EVM bytecode,
searches a storage slot's history for past implementations, and uses a Solidity
front end whose intermediate code it lowers and types. This project models the
algorithms at the centre of those tools and proves what they promise. Where the
source updates objects in place the model is a class whose methods are proved
against functions on values; the theorems are then proved about those functions.

Check everything with `dafny verify dfyconfig.toml`.

| Part of the source | Modules |
|---|---|
| splitting conditional expressions | ExpressionSyntax, TernarySpec, TernaryMeaning, TernaryTerms, TernaryRuns, TernaryReach, TernaryTrees, SplitTernary |
| splitting the nodes that hold them | TernaryCfg, TernaryPaths, TernaryKept, TernaryExactness |
| backward tracing of storage keys | EvmCode, BackwardTrace, TraceExactness |
| storage layout | StorageLayout |
| bisection of a slot's history | Bisection |
| intermediate code: value/gas options, push/pop, constant types | ValueGas, PushPop, ConstantTypes, ConstantPrograms |
| components, call paths, inheritance queues | Graphs, Components, ComponentExactness, CallPaths, InheritanceQueue |
| rate limiter | Throttler |
| disassembly and memory | BigEndian, Disassembly, EvmMemory |
| shared helpers | Collections |

What the proofs turned up, each stated as a lemma:

- Splitting an expression once preserves meaning exactly when, whatever conditions
  are true, the conditionals it records agree and a conditional index puts into its
  list what is read there anyway; `x[c ? p : q] = b` is split wrongly.
- Repeated splitting ends on every expression and every graph, although a split can
  leave as many conditionals as there were.
- Splitting the nodes of a control-flow graph loses more. A condition that itself
  holds a conditional is split like a statement, after which both branches can
  follow whatever it was; and since a split node is put back as its father's last
  son, an IF whose first son is split after its second has its branches exchanged.
  Executions are kept exactly when neither happens: `(c1 ? c2 : c3) ? a : b` and
  `c ? (d ? x : y) : b` are the smallest inputs that fail.
- The backward trace overwrites its index at every DUP, walks through opaque
  results, and from an SSTORE follows the third stack element. Up to the first
  JUMPDEST, the traced word is the key on every run, for every interpretation of
  the instructions other than PUSH, DUP and SWAP, exactly when the walk that follows
  the instructions' effects ends at the same pushed constant.
- The component pass is documented as Kosaraju's algorithm, but it walks the
  postorder without reversing it, and computes ancestor sets. The components are
  the strongly connected ones exactly when, for every edge that leads from one to
  another, the postorder lists some node of the first before all of the second.
- A call with a value to a function that is itself named `value` is folded away;
  the final code has all calls, and every argument agrees with the call its chain
  fed, exactly when no call is in that position.
- A lowered `a.push(a.length)` stores the increased length, because the reference
  is read after the length was written.
- Constant typing is documented for literals, but retypes any operand, and keeps
  the first of two widths; every demand is met exactly when no operand can be
  reached by two. Where an array is itself retyped, the order of instructions
  decides what its elements become.
- The inheritance queues drain exactly when no queued contracts form a cycle.
- Grants of the rate limiter are spaced. Callers get through spaced by one grant
  less, and two can get through at one instant unless no time passes between
  reading the clock and leaving.
- A value that returns in a slot's history hides what was stored in between.
- A PUSH cut short by the end of the code is listed with too small a value.

Outside facts are parameters: the values of a slot by block number, the
basic blocks and their edges, the call graph, the sizes of types, the ancestors of
each contract, and the clock. The conditions they have to meet are named in the
models: `CodeOk`, `GraphOk`, `ProgramOk`, `Packable`, `WellFormed`, `Declared`.

## Model

| member | source | states |
|---|---|---|
| TernaryMeaning.SplitPreserves | slither/slither/utils/expression_manipulations.py:44-145 | under every pure compositional semantics, "if condition then true expression else false expression" means what the expression meant, whenever all recorded conditionals share the last one's condition or have equal branches and the extra list entries are harmless |
| TernaryTerms.SplitExact | slither/slither/utils/expression_manipulations.py:60-145 | for every expression: the split preserves meaning under all semantics if and only if, whatever terms are true, every recorded conditional takes the side selected by the last one's condition or has branches of one value, no tuple holds a conditional index, and next to one on the left of a binary operation its chosen branch has the right operand's value |
| TernaryTerms.AgreedIsPreserved | slither/slither/utils/expression_manipulations.py:60-145 | that condition on terms carries over to every semantics of any value type |
| TernaryTerms.PlainSplitExact | slither/slither/utils/expression_manipulations.py:60-145 | for recorded conditionals that hold no further one the condition can be read off the expression: consistent conditions or equal branches, and harmless extra list entries |
| TernaryTerms.PlainIsHarmless | slither/slither/utils/expression_manipulations.py:104-118 | without conditional indices in its lists an expression has no harmful extra entries |
| TernaryTerms.KeylessSplitExact | slither/slither/utils/expression_manipulations.py:60-145 | so for such expressions the split is right if and only if the recorded conditionals are consistent |
| TernaryMeaning.PickPreserves | slither/slither/utils/expression_manipulations.py:79-145 | each side alone keeps the meaning when every conditional met resolves to that side or does not matter |
| TernaryTerms.PickReflects | slither/slither/utils/expression_manipulations.py:79-145 | conversely, for either side and every choice of true terms: a side that keeps the meaning in the term semantics shows that every conditional met agreed with it, that no tuple has grown, and that a conditional index on the left equals the right operand |
| TernaryTerms.ShownIsKept | slither/slither/utils/expression_manipulations.py:79-145 | and a side of which all that holds keeps the meaning |
| TernaryMeaning.NothingPicked | slither/slither/utils/expression_manipulations.py:79-145 | without a conditional in reach both sides are the expression itself |
| TernaryRuns.SplitShrinks | slither/slither/utils/expression_manipulations.py:44-145 | for every expression the condition holds strictly fewer conditionals, and so does a side if and only if fewer come back on it, as chosen indices, than are removed |
| TernaryRuns.PickCount | slither/slither/utils/expression_manipulations.py:79-145 | conservation: the conditionals left on a side and those removed add up to those of the expression and those that come back |
| TernaryRuns.PlainIsLighter | slither/slither/utils/expression_manipulations.py:104-118 | without conditional indices in its lists every split leaves fewer conditionals on both sides |
| TernaryRuns.NestedIndexComesBack | slither/slither/utils/expression_manipulations.py:104-118 | `x[c ? (d ? p : q) : r] = b` has a true side with as many conditionals as before |
| TernaryRuns.PickOrdered | slither/slither/utils/expression_manipulations.py:79-145 | when no item after the first one holding a conditional is itself one: nothing raises, exactly one conditional is recorded, and both sides are again of that form |
| TernaryRuns.SplitOrdered | slither/slither/utils/expression_manipulations.py:44-145 | on such expressions the split always yields a condition and three expressions of the same form |
| TernaryReach.RaisedIffUnknown | slither/slither/utils/expression_manipulations.py:79-150 | without conditionals the split raises if and only if some operand, outside index accesses, is of a class it has no case for; otherwise it leaves the expression alone and records nothing |
| TernaryReach.RaisesOverUnknown | slither/slither/utils/expression_manipulations.py:79-150 | with conditionals it raises only over such an operand, and over any as long as nothing has been recorded |
| TernaryReach.LaterConditionalOverwrites | slither/slither/utils/expression_manipulations.py:57-74 | `(c ? a : b) + (d ? x : y)` is split into `a + x` and `b + y` under the condition d |
| TernaryReach.LaterNestedConditionalStays | slither/slither/utils/expression_manipulations.py:104-118 | `(c ? a : b) + -(d ? x : y)` is split under c, and the conditional further down stays |
| TernaryReach.ArgumentOfConditionalCallStays | slither/slither/utils/expression_manipulations.py:119-138 | so does one inside an argument once the called expression has recorded a condition |
| TernaryTrees.SplitUnburdens | slither/slither/utils/expression_manipulations.py:44-145 | why repeated splitting ends on every expression: the condition and both sides are lighter, where a conditional weighs its branches twice |
| TernaryTrees.SplittableIff | slither/slither/solc_parsing/declarations/function.py:1339-1354 | an expression can be split to the end if and only if its split records a condition and its three parts can |
| TernaryTrees.FilterPreserves | slither/slither/solc_parsing/declarations/function.py:1339-1354 | an ordered expression can always be split to the end, and the decision tree of its splits, the reference for the nodes, means what the expression meant |
| TernaryCfg.FunctionSolc.constructor | slither/slither/solc_parsing/declarations/function.py:87 | the nodes of one function by number |
| TernaryCfg.FunctionSolc.NewNode | slither/slither/solc_parsing/declarations/function.py:322-328 | a node gets the next number and comes last |
| TernaryCfg.FunctionSolc.RedirectFathers | slither/slither/solc_parsing/declarations/function.py:1395-1398 | every father loses the node and gets the condition node as its last son, as often as it had the node |
| TernaryCfg.FunctionSolc.SplitTernaryNode | slither/slither/solc_parsing/declarations/function.py:1361-1420 | the graph after one split: IF, two statements of the node's kind and an ENDIF with the node's sons, the node gone, everything else as it was |
| TernaryCfg.FunctionSolc.FilterTernary | slither/slither/solc_parsing/declarations/function.py:1339-1359 | terminates on every graph, with the first conditional node split again and again until none is left, and says whether anything was split; raises if and only if some expression of the given graph cannot be split to the end |
| TernaryCfg.CutSplittable | slither/slither/solc_parsing/declarations/function.py:1339-1420 | a split neither makes nor removes an expression that cannot be split to the end |
| TernaryCfg.SplitLowersTotal | slither/slither/solc_parsing/declarations/function.py:1339-1359 | the reason it ends: a split lowers the sum, over all nodes, of a weight that triples with each unit of an expression's weight |
| TernaryCfg.RedirectedTwo | slither/slither/solc_parsing/declarations/function.py:1395-1398 | of an IF's two sons the one that is split becomes the second |
| TernaryPaths.RecutHolds | slither/slither/solc_parsing/declarations/function.py:1361-1420 | one split anywhere in the graph keeps the shape into which a statement has been split, with the split part grown in place |
| TernaryPaths.RecutInOrder | slither/slither/solc_parsing/declarations/function.py:1395-1420 | as long as recorded conditions are plain, an IF is exchanged exactly while its true side has been split and its false side has not |
| TernaryKept.RootExecutes | slither/slither/core/cfg/node.py:669-679 | the executions of the graph from a shape's entry to its ENDIF are exactly those of the shape |
| TernaryKept.ShapeExact | slither/slither/solc_parsing/declarations/function.py:1339-1420 | a finished shape has exactly the executions of the expression if and only if the code keeps them |
| TernaryKept.TwoStatements | slither/slither/solc_parsing/declarations/function.py:1361-1420 | otherwise, if some recorded condition holds a conditional, some execution executes two statements instead of one |
| TernaryKept.WrongSide | slither/slither/solc_parsing/declarations/function.py:1395-1398 | otherwise, if all are plain: at some place inside the expression with a conditional on the true side alone, an execution that gets there by the outcomes that lead there takes the true outcome and executes the false side, which no execution of the expression does |
| TernaryExactness.StatementKeptIff | slither/slither/solc_parsing/declarations/function.py:1339-1420 | in every graph on which splitting does not raise, a statement with a conditional ends before an ENDIF that goes on to the statement's sons, and has exactly the executions of its expression if and only if every condition recorded on the way is conditional-free and no split has a conditional on its true side alone |
| TernaryExactness.OthersStay | slither/slither/solc_parsing/declarations/function.py:1339-1420 | a node without a conditional, be it the entry point, keeps its number, kind and expression, and its sons are as many as before: the nodes that now stand for its sons |
| TernaryExactness.NothingDangles | slither/slither/solc_parsing/declarations/function.py:1395-1420 | if all sons are nodes of the given graph, all sons are nodes of the resulting one |
| TernaryExactness.SplitNodeIsGone | slither/slither/solc_parsing/declarations/function.py:1385-1420 | a node with a conditional is not in the resulting graph |
| TernaryExactness.CurrentIsNode | slither/slither/solc_parsing/declarations/function.py:1339-1420 | and what stands for it is |
| TernaryExactness.NodeCount | slither/slither/solc_parsing/declarations/function.py:1368-1393 | every split takes four numbers and adds three nodes |
| TernaryExactness.KeptStatementHasValue | slither/slither/solc_parsing/declarations/function.py:1339-1420 | a statement that is kept has, under every semantics, an execution, and every one ends in the value of the decision tree, for an ordered expression the value of the original expression |
| TernaryExactness.NestedConditionIsLost | slither/slither/solc_parsing/declarations/function.py:1361-1420 | `(c1 ? c2 : c3) ? a : b`: the same decision and the same statement c2 or c3 are followed by a and by b |
| TernaryExactness.LoneTrueSideIsSwapped | slither/slither/solc_parsing/declarations/function.py:1395-1398 | `c ? (d ? x : y) : b`: the true outcome of c leads to b |
| TernaryExactness.BranchOrder | slither/slither/solc_parsing/declarations/function.py:1395-1398 | an IF or IFLOOP without a conditional keeps its node, and its two sons are exchanged if and only if the first is split after the second; equal sons stay equal |
| TernaryExactness.BranchKeptIff | slither/slither/solc_parsing/declarations/function.py:1339-1420 | an IF or IFLOOP, empty bodies and self-loops included, leads to its sons exactly by the outcomes of its condition if and only if the condition holds no conditional and its sons are not exchanged |
| TernaryRuns.LeftIndexIsSplitWrongly | slither/slither/utils/expression_manipulations.py:104-118 | assigning to an index access whose index is a conditional puts the index where the right operand is read: a concrete family in which meaning is lost |
| SplitTernary.SplitTernaryExpression.Split | slither/slither/utils/expression_manipulations.py:44-55 | the constructor leaves in its fields exactly the specified condition and two sides, raises exactly when specified, and writes to no node of the input tree |
| SplitTernary.SplitTernaryExpression.SplitConditional | slither/slither/utils/expression_manipulations.py:46-49 | a conditional is split into shallow copies of its three parts |
| SplitTernary.SplitTernaryExpression.ApplyCopy | slither/slither/utils/expression_manipulations.py:57-74 | one operand is stored on both sides: branches of a conditional, whose condition replaces the recorded one, or copies |
| SplitTernary.SplitTernaryExpression.CopyExpression | slither/slither/utils/expression_manipulations.py:77-150 | the two shallow copies are filled in to denote the specified sides, with the specified condition recorded and the input unchanged |
| SplitTernary.SplitTernaryExpression.CopyOperand | slither/slither/utils/expression_manipulations.py:97-102 | single operand held in `_expression` or `_called` |
| SplitTernary.SplitTernaryExpression.CopyCall | slither/slither/utils/expression_manipulations.py:119-138 | called expression first, then the arguments |
| SplitTernary.SplitTernaryExpression.CopyArguments | slither/slither/utils/expression_manipulations.py:128-138 | arguments are rebuilt from an empty list on both copies |
| SplitTernary.SplitTernaryExpression.CopyItems | slither/slither/utils/expression_manipulations.py:104-118 | list items from the left; a condition recorded by one stops the descent into later ones but not their replacement |
| SplitTernary.SplitTernaryExpression.CopyItem | slither/slither/utils/expression_manipulations.py:108-118 | one item contributes the specified pieces to each side |
| SplitTernary.SplitTernaryExpression.CopyKeyed | slither/slither/utils/expression_manipulations.py:109-114 | an index access with a conditional index contributes the access and the index itself |
| SplitTernary.SplitTernaryExpression.CopyAccess | slither/slither/utils/expression_manipulations.py:153-182 | two new accesses and two copied indices, one per branch, with the condition recorded |
| SplitTernary.Set | slither/slither/utils/expression_manipulations.py:25-40 | a setter changes one field of one node and nothing else |
| TraceExactness.WalkAgrees | proxion/AdvCheck.py:60-98 | on every forward run, the word found by a disciplined trace is the element at the traced index after the instruction |
| TraceExactness.SloadKeyIsTraced | proxion/AdvCheck.py:55-98 | a word that a disciplined trace finds from an SLOAD without crossing a JUMPDEST is the top of the stack on every run whenever that SLOAD is about to execute |
| TraceExactness.SstoreTracesThirdElement | proxion/AdvCheck.py:93-106 | from an SSTORE a disciplined trace answers the third stack element on every run |
| TraceExactness.SstoreReturnsAnotherElement | proxion/AdvCheck.py:93-106 | three PUSHes and an SSTORE: the key is w and the trace answers x |
| TraceExactness.FollowAgrees | proxion/AdvCheck.py:60-98 | on every run the walk that follows the effects of the instructions, DUP included, is right about each element: a constant, a result of a reached instruction, or an element it cannot know |
| TraceExactness.RerunIsRun | proxion/AdvCheck.py:93 | another value for one opaque result, carried through the rest of a run, gives a run |
| TraceExactness.ProducedKeyVaries | proxion/AdvCheck.py:93 | a key that an instruction other than PUSH, DUP and SWAP produces is no fixed word for every interpretation of it |
| TraceExactness.TracedKeyIff | proxion/AdvCheck.py:55-106 | for a reached SLOAD or SSTORE whose walk ends before a JUMPDEST: the traced word is the key on every run, for every interpretation of the other instructions, if and only if the faithful walk ends at that constant |
| TraceExactness.DisciplinedIsExact | proxion/AdvCheck.py:60-98 | a trace without DUPs above the index and without opaque producers other than SHA3 answers a constant, a hash or nothing exactly where the faithful walk ends at a PUSH, at a SHA3 or at the start of the code |
| TraceExactness.HashedKeyIsRecognised | proxion/AdvCheck.py:68-72 | a key left by a SHA3 is answered as a hash by such a trace, and gives no slot |
| TraceExactness.MappingReadHasNoSlot | proxion/AdvCheck.py:68-72 | two PUSHes, a SHA3 and an SLOAD, as for a mapping: a hash and no slot |
| TraceExactness.ShiftMeans | proxion/AdvCheck.py:73-83 | the index before an instruction names the duplicated element at DUP, the exchanged one at SWAP, and elsewhere the one as far from the bottom of the stack |
| BackwardTrace.IndexStaysPositive | proxion/AdvCheck.py:60-98 | at every place of a disciplined trace the index is at least 1 |
| BackwardTrace.DuplicateOverwritesTheIndex | proxion/AdvCheck.py:74-75 | a program whose key is v while the trace through DUP answers w |
| BackwardTrace.OpaqueResultIsWalkedThrough | proxion/AdvCheck.py:93 | a program whose key is an arithmetic result while the trace answers one of its operands |
| BackwardTrace.RecordedIsExact | proxion/AdvCheck.py:100-113 | adding one access keeps the reported slots sound and covering, across JUMPDESTs too |
| BackwardTrace.BackwardAnalyzer.constructor | proxion/AdvCheck.py:37-49 | the backward graph holds exactly the reversed edges between block starts |
| BackwardTrace.BackwardAnalyzer.TraceOpInput | proxion/AdvCheck.py:55-98 | halts on every graph, loops included; at most one non-trivial call per instruction; an answer has a derivation; no answer means nothing was missed from any visited start; without a JUMPDEST it is the straight walk |
| BackwardTrace.BackwardAnalyzer.TraceIncoming | proxion/AdvCheck.py:84-91 | the predecessors of a JUMPDEST are all visited unless one answers |
| BackwardTrace.BackwardAnalyzer.PreviousPc | proxion/AdvCheck.py:94-96 | the nearest lower address that holds an instruction, or -1 |
| BackwardTrace.BackwardAnalyzer.TraceAccess | proxion/AdvCheck.py:104-108 | one storage access traced with a fresh visited set: a slot has a derivation; without a slot a hash is derivable or nothing is found from any block start that leads to the access |
| BackwardTrace.BackwardAnalyzer.FindStorageAccess | proxion/AdvCheck.py:100-113 | every reported slot is derivable from an access of its kind; every slot reached without crossing a JUMPDEST is reported; and for any other access one slot it can reach is reported, unless a hash is derivable or nothing is found |
| StorageLayout.CompilationUnit.constructor | slither/slither/core/compilation_unit.py:247-249 | starts without layouts |
| StorageLayout.CompilationUnit.ComputeStorageLayout | slither/slither/core/compilation_unit.py:247-274 | the dictionary of every derived contract is the specified one; other entries stay |
| StorageLayout.CompilationUnit.LayOut | slither/slither/core/compilation_unit.py:249-274 | the loop over one contract's variables computes exactly the specified dictionary |
| StorageLayout.LayoutIsLegal | slither/slither/core/compilation_unit.py:253-274 | declaration order, no packed variable straddling a slot, and no later variable in a slot that a new-slot variable occupies |
| StorageLayout.LayoutIsLeftmost | slither/slither/core/compilation_unit.py:253-274 | no variable starts later than in any legal layout, and as many slots as hold the variables of a legal layout hold them here |
| StorageLayout.LeftmostAt | slither/slither/core/compilation_unit.py:257-274 | the same variable by variable, with the cursor behind it |
| StorageLayout.EndIsLeast | slither/slither/core/compilation_unit.py:270-274 | the cursor moves to the first position at which a later variable leaves the placed one alone |
| StorageLayout.WordAfterMapping | slither/slither/core/compilation_unit.py:257-274 | a full word declared behind a mapping is at slot 1, offset 0 |
| StorageLayout.StoredAt | slither/slither/core/compilation_unit.py:253-255 | every variable that is neither constant nor immutable is laid out, in its turn |
| StorageLayout.StoredFrom | slither/slither/core/compilation_unit.py:253-255 | and no other |
| StorageLayout.EveryContractIsLaidOut | slither/slither/core/compilation_unit.py:247-252 | every derived contract gets an entry, that of the last contract of its name |
| StorageLayout.OtherEntriesStay | slither/slither/core/compilation_unit.py:247-252 | and no other entry changes |
| StorageLayout.PlacedInSlot | slither/slither/core/compilation_unit.py:259-274 | packed: offset + size <= 32; new-slot: offset 0 |
| StorageLayout.PlacedInOrder | slither/slither/core/compilation_unit.py:253-274 | a later variable starts behind an earlier one, and behind every slot that a new-slot variable occupies |
| StorageLayout.RecordedPlacesAreDisjoint | slither/slither/core/compilation_unit.py:267-277 | looked up by name, byte ranges of different variables of a contract are disjoint |
| StorageLayout.SharedPrefixSamePlaces | slither/slither/core/compilation_unit.py:257-274 | lists sharing a (size, new slot) prefix place it identically |
| StorageLayout.AppendingMovesNothing | slither/slither/core/compilation_unit.py:253-274 | appending variables never moves an earlier one |
| StorageLayout.InsertionMovesNothingDown | slither/slither/core/compilation_unit.py:253-274 | inserting a variable never moves another to a lower byte |
| StorageLayout.FixedVariablesAreIgnored | slither/slither/core/compilation_unit.py:254-255 | a constant or immutable variable has no effect on the others |
| Bisection.SlotHistory.constructor | proxion/__main__.py:47-51 | starts with an empty table |
| Bisection.SlotHistory.GetVal | proxion/__main__.py:53-62 | answers the slot value, and fetches a block only when it is not in the table; "0x" and the zero word read as 0 |
| Bisection.SlotHistory.SearchDiff | proxion/__main__.py:64-71 | adds to the table exactly the specified blocks, each fetched once |
| Bisection.SlotHistory.CollapseTable | proxion/__main__.py:74-78 | the walk over the sorted table returns the run-collapsed values without the initial zero |
| Bisection.SlotHistory.BinarySearch | proxion/__main__.py:47-78 | the whole search in those terms |
| Bisection.QueryBound | proxion/__main__.py:64-73 | k changes between block 1 and block n cost at most 2 + k * ceil(log2(n - 1)) queries |
| Bisection.InnerBound | proxion/__main__.py:64-71 | the same bound for the blocks strictly inside any searched interval |
| Bisection.CeilLog2IsLeast | proxion/__main__.py:67 | the logarithm used in the bound is the least exponent whose power reaches the argument |
| Bisection.ProbedIsResolved | proxion/__main__.py:64-71 | any two neighbouring probed blocks hold equal values or are adjacent |
| Bisection.ProbedBlocksAreResolved | proxion/__main__.py:64-75 | the sorted table starts at block 1, ends at the right block, and has resolved gaps |
| Bisection.CollapsedIsSound | proxion/__main__.py:74-78 | for every history the result is a stutter-free chronological subsequence ending in a non-zero last value |
| Bisection.CompleteIffNothingHidden | proxion/__main__.py:53-78 | the result is the whole run-collapsed history if and only if the value is constant between neighbouring probed blocks of equal value |
| Bisection.CompleteWithoutRecurrence | proxion/__main__.py:53-78 | which is so whenever no value comes back after being replaced |
| Bisection.ReturningValueHidesTheRest | proxion/__main__.py:64-78 | when the right block has the value of block 1, that value is the whole answer, and every other value between them is missed |
| ValueGas.Refresh | slither/slither/slithir/convert.py:311-319 | records for every call the last earlier definition of what it calls |
| ValueGas.OriginIsLastWrite | slither/slither/slithir/convert.py:311-319 | a call learns from the last member access, call or assignment that writes the name it calls, itself included, whether that was a member access and which one; without one it learns nothing |
| ValueGas.Claim | slither/slither/slithir/convert.py:321-341 | option calls preceded by an argument mark it and are replaced by what they were called on |
| ValueGas.Update | slither/slither/slithir/convert.py:343-358 | drops the option calls and follows the replacements in calls and arguments |
| ValueGas.Follow | slither/slither/slithir/convert.py:350-358 | a replacement loop ends at the end of its chain |
| ValueGas.IntegrateValueGas | slither/slither/slithir/convert.py:299-367 | terminates on well-formed code, computes the iterated rounds, and leaves no option call |
| ValueGas.ReplacementsFall | slither/slither/slithir/convert.py:325-341 | replacements lead to earlier definitions, the reason the inner loops end |
| ValueGas.OnePassIsSound | slither/slither/slithir/convert.py:307-358 | a round keeps code well-formed |
| ValueGas.OnePassShrinks | slither/slither/slithir/convert.py:307-358 | a round with an option call removes an instruction, the reason the outer loop ends |
| ValueGas.ChainResolves | slither/slither/slithir/convert.py:346-358 | all option calls of a chain lead to the same name, however long the chain |
| ValueGas.ChainArgumentMatchesCall | slither/slither/slithir/convert.py:324-358 | after one round the argument before each option call stands, at the place the round moves it to, with the call id of the real call the chain fed, at that call's place; it is a value exactly if the option is the member `value`, and a gas limit exactly if it is the member `gas` |
| ValueGas.PlaceKeepsSort | slither/slither/slithir/convert.py:299-367 | the final place of an instruction, followed through all rounds, holds an instruction of the same kind that defines the same name |
| ValueGas.PlacesKeepOrder | slither/slither/slithir/convert.py:299-367 | and final places keep the order of the instructions |
| ValueGas.TakenNextIff | slither/slither/slithir/convert.py:146-159 | the second round takes a kept call for an option call if and only if, in the looked-up code, the name its `called` resolves to is defined by a member `value` or `gas` and the instruction kept just before it is an argument |
| ValueGas.ShadowedCallIsLost | slither/slither/slithir/convert.py:343-358 | and such a call is not in the final code |
| ValueGas.ArgumentsAgreeIff | slither/slither/slithir/convert.py:299-367 | for the final code, however many rounds: every real call is at its place, and the argument of every option is at its place, a VALUE exactly for a member `value` and a GAS exactly for a member `gas`, with the call id of the real call its chain fed, if and only if no real call is in that position |
| ValueGas.OptionIsFolded | slither/slither/slithir/convert.py:321-358 | `a.foo.gas(x)(y)` and `a.foo.value(x)(y)` end as one call of foo with x as gas limit, or as amount, and y as argument |
| ValueGas.OneRoundSufficesIff | slither/slither/slithir/convert.py:305-358 | the final code is that of one round if and only if no real call of the given code is in that position |
| ValueGas.OptionCallIsLost | slither/slither/slithir/convert.py:343-344 | no result of a claimed call is defined in the final code |
| ValueGas.FunctionNamedValueIsTakenForAnOption | slither/slither/slithir/convert.py:146-159 | a well-formed input whose call with a value to a function named `value` is in that position and is gone from the final code |
| ValueGas.WellFormedIsSound | slither/slither/slithir/convert.py:299-302 | unique names and definitions before uses are all the pass needs |
| PushPop.Lowering.NewReference | slither/slither/slithir/convert.py:1185 | reference variables are numbered afresh |
| PushPop.Lowering.NewTemporary | slither/slither/slithir/convert.py:1194 | temporary variables are numbered afresh |
| PushPop.Lowering.PushExpandArr | slither/slither/slithir/convert.py:1182-1214 | appends the length read, the increment and the length write |
| PushPop.Lowering.PushSetVal | slither/slither/slithir/convert.py:1217-1249 | appends the element reference and the store, through an array literal or from the element when there is no argument |
| PushPop.Lowering.ConvertToPush | slither/slither/slithir/convert.py:1252-1269 | the complete operation list of a push |
| PushPop.Lowering.ConvertToPop | slither/slither/slithir/convert.py:1272-1323 | the six operations of a pop |
| PushPop.PushRuns | slither/slither/slithir/convert.py:1182-1269 | on every storage state a lowered push appends one element, changes nothing else, and reverts exactly at the largest length; without an argument it yields the zero value |
| PushPop.PushStoresArgumentIff | slither/slither/slithir/convert.py:1207-1241 | the stored element is the argument's value before the call if and only if the argument does not read the length of the same array |
| PushPop.PopRuns | slither/slither/slithir/convert.py:1272-1323 | on every storage state a lowered pop removes and clears the last element, and reverts exactly on an empty array, in checked and unchecked scopes |
| PushPop.RunsRefine | slither/slither/slithir/convert.py:1182-1323 | for every sequence of pushes and pops on any number of arrays, no push reading the length of its own array, the lowered run reverts when the abstract arrays do and otherwise stores exactly them, with zero past every length; a finished run had every index in bounds |
| PushPop.PopUndoesPush | slither/slither/slithir/convert.py:1252-1323 | a push and a pop leave every storage location as it was |
| ConstantTypes.ConstantTypes.Retype | slither/slither/slithir/convert.py:1690-1695 | one operand: left alone if it is a signed integer, retyped to what is demanded, or an exception if its type has no inner type |
| ConstantTypes.ConstantTypes.RetypeEach | slither/slither/slithir/convert.py:1696-1702 | all operands against one source |
| ConstantTypes.ConstantTypes.RetypeArguments | slither/slither/slithir/convert.py:1713-1728 | each argument against the type at its position |
| ConstantTypes.ConstantTypes.Visit | slither/slither/slithir/convert.py:1682-1736 | the branches of the loop body; no change means the instruction's rules all hold |
| ConstantTypes.ConstantTypes.Pass | slither/slither/slithir/convert.py:1679-1736 | one pass, which stops at the first call without a function |
| ConstantTypes.ConstantTypes.Convert | slither/slither/slithir/convert.py:1671-1736 | terminates, and types and outcome are those of the specified fixed point |
| ConstantTypes.FixedIsExact | slither/slither/slithir/convert.py:1671-1736 | that fixed point never changes a signed integer, retypes only what the rules force and only to a width derivable from the given types, ends normally if and only if every rule before the first unresolved call holds, and raises if and only if it stops at an unreadable operand or a wrong argument count |
| ConstantTypes.FixedIsFinished | slither/slither/slithir/convert.py:1671-1736 | the pass ends normally if and only if its result is finished in the sense of the statements below: sound, and every visited rule met |
| ConstantTypes.FiredIsDerivable | slither/slither/slithir/convert.py:1692-1736 | a rule that fires passes on a width that is derivable from the given types along a chain of rules |
| ConstantTypes.RetypeIsSound | slither/slither/slithir/convert.py:1692-1736 | a single retyping keeps those run invariants |
| ConstantTypes.RetypeShrinks | slither/slither/slithir/convert.py:1678-1695 | the termination measure: variables without a signed integer type |
| ConstantTypes.IntegersAreLeast | slither/slither/slithir/convert.py:1671-1736 | after a finished run the integer variables are the least set closed under the rules |
| ConstantTypes.OrderDoesNotMatter | slither/slither/slithir/convert.py:1681-1736 | reordering or repeating instructions does not change which operands become integers |
| ConstantTypes.ArrayOrderMatters | slither/slither/slithir/convert.py:1729-1736 | where an array can itself be retyped it does: the same two instructions in either order end with different integers |
| ConstantTypes.FinishedIsStable | slither/slither/slithir/convert.py:1678-1680 | running the pass on its own result changes nothing |
| ConstantTypes.WidthsMatchIffUnique | slither/slither/slithir/convert.py:1693-1736 | after a finished run every demand on a retyped operand is met exactly if and only if, in the program as given, no operand that is not a signed integer has two derivable widths |
| ConstantTypes.ChainFixesWidth | slither/slither/slithir/convert.py:1693-1736 | if all demands are met, every variable of a chain has the width the chain carries |
| ConstantTypes.ConflictingWidths | slither/slither/slithir/convert.py:1682-1695 | two assignments of different width from one operand: the pass gives it the first, ends normally, and leaves a demand unmet |
| ConstantPrograms.MetIffSatisfied | slither/slither/slithir/convert.py:1682-1736 | what an instruction asks for, read off it kind by kind: an integer operand for an integer result on both sides of an operation, at each position of a call or structure, and for each element of an array literal |
| ConstantPrograms.BlockedIffStops | slither/slither/slithir/convert.py:1682-1736 | the operands and argument counts at which an instruction raises, likewise |
| ConstantPrograms.HandsOnIff | slither/slither/slithir/convert.py:1682-1728 | between which variables an instruction passes a type on |
| ConstantPrograms.GivesIff | slither/slither/slithir/convert.py:1713-1736 | and which types it gives that are not the type of a variable |
| ConstantPrograms.ConvertedProgram | slither/slither/slithir/convert.py:1671-1736 | for every program: the pass ends normally if and only if every instruction before the first unresolved call has what it asks for, raises if and only if one of them stops it, and changes a variable only from no integer to an integer type that such an instruction asks for |
| ConstantPrograms.IntegersAreForced | slither/slither/slithir/convert.py:1671-1736 | after a normal end the integers are the least set of variables that holds the given ones and what the instructions before the first unresolved call make of them |
| ConstantPrograms.WidthsMatchIffOneEach | slither/slither/slithir/convert.py:1671-1736 | and every retyped variable has every width asked of it if and only if at most one width can reach each variable along the instructions |
| Components.ComponentPass.constructor | slither/slither/utils/code_complexity.py:33-36 | nothing visited or assigned |
| Components.ComponentPass.Visit | slither/slither/utils/code_complexity.py:38-43 | depth-first: keeps the postorder in which the sons of a node come earlier or lead back to it |
| Components.ComponentPass.VisitSons | slither/slither/utils/code_complexity.py:41-42 | all sons are visited |
| Components.ComponentPass.VisitAll | slither/slither/utils/code_complexity.py:45-46 | a postorder of all nodes |
| Components.ComponentPass.Assign | slither/slither/utils/code_complexity.py:48-53 | collects, each once, nodes that reach the start, until no father is left out |
| Components.ComponentPass.AssignFathers | slither/slither/utils/code_complexity.py:52-53 | the fathers of a collected node |
| Components.ComponentPass.AddComponent | slither/slither/utils/code_complexity.py:55-59 | one more non-empty component |
| Components.ComponentPass.Group | slither/slither/utils/code_complexity.py:55-61 | components over the postorder |
| Components.ComponentPass.StronglyConnectedComponents | slither/slither/utils/code_complexity.py:23-61 | every component is its root and the nodes that reach it minus earlier components; together they hold all nodes; their roots follow the postorder, which holds exactly the nodes |
| Components.ComponentPass.NumberOfEdges | slither/slither/utils/code_complexity.py:9-20 | the number of pairs of a place in the list of nodes and a place in that node's list of sons |
| Components.ComponentPass.CyclomaticComplexity | slither/slither/utils/code_complexity.py:64-82 | E - N + 2P over those components |
| Components.ComponentFound | slither/slither/utils/code_complexity.py:48-59 | what one call of `assign` collects is exactly an ancestor set without earlier components |
| Components.ComponentsPartition | slither/slither/utils/code_complexity.py:55-61 | every node is in exactly one component |
| Components.CyclesStayTogether | slither/slither/utils/code_complexity.py:38-61 | nodes that reach each other are never separated |
| Components.ComponentCountBounds | slither/slither/utils/code_complexity.py:23-61 | number of sink components <= P <= number of strongly connected components |
| Components.AcyclicCount | slither/slither/utils/code_complexity.py:23-61 | on an acyclic graph P is the number of nodes without sons |
| Components.AcyclicExactIffNoEdges | slither/slither/utils/code_complexity.py:25-61 | on an acyclic graph P counts the strongly connected components, as the docstring has it, if and only if there is no edge |
| ComponentExactness.ExactIffSourcesFirst | slither/slither/utils/code_complexity.py:25-61 | on every graph, loops included: each component is the strongly connected component of its root if and only if, for each edge n -> m with no way back, some node mutual with n precedes in the postorder every node mutual with m |
| ComponentExactness.CountIffExact | slither/slither/utils/code_complexity.py:25-61 | P is the number of strongly connected components if and only if each component is one |
| ComponentExactness.NoCrossingIsExact | slither/slither/utils/code_complexity.py:25-61 | which holds on every graph whose edges all stay inside strongly connected components |
| Graphs.ClosedHoldsAncestors | slither/slither/utils/code_complexity.py:48-53 | a set closed under fathers holds every node that reaches it |
| CallPaths.PathFinder.constructor | slither/examples/scripts/possible_paths.py:87-89 | the program searched |
| CallPaths.PathFinder.FindFrom | slither/examples/scripts/possible_paths.py:87-121 | returns exactly the chains that extend the current path; terminates on cyclic call graphs |
| CallPaths.PathFinder.FindTargetPaths | slither/examples/scripts/possible_paths.py:124-137 | returns exactly the call chains to a target: at least two functions, none repeated, exposed at the start, each but the target declared and calling the next or a function of its full name in a contract that it inherits from |
| CallPaths.DefinitionsAre | slither/examples/scripts/possible_paths.py:73-84 | the definitions searched for are the function and those of the same full name in the contracts its contract inherits from |
| CallPaths.DeclaredAre | slither/examples/scripts/possible_paths.py:99-103 | callers are looked for among the functions some contract declares |
| CallPaths.OverriddenCallIsChain | slither/examples/scripts/possible_paths.py:73-115 | an exposed caller of a definition that the target overrides begins a chain |
| CallPaths.ChainIsReaching | slither/examples/scripts/possible_paths.py:117-119 | the recursive notion for a single target is the notion of call chain |
| CallPaths.OneMore | slither/examples/scripts/possible_paths.py:99-115 | a recursive call covers the chains through one caller |
| CallPaths.Continues | slither/examples/scripts/possible_paths.py:99-115 | a longer chain goes on with a function the search does not skip |
| InheritanceQueue.Parser.constructor | slither/slither/solc_parsing/slither_compilation_unit_solc.py:470-475 | the inheritance relation and the analysed flags |
| InheritanceQueue.Parser.AnalyzeInOrder | slither/slither/solc_parsing/slither_compilation_unit_solc.py:509-522 | the rotating queue analyses each contract once and after all its ancestors, within n(n+1)/2 pops |
| InheritanceQueue.Parser.AnalyzePart | slither/slither/solc_parsing/slither_compilation_unit_solc.py:524-606 | libraries first, then the queue, for each of the three later phases |
| InheritanceQueue.DrainsIffNothingStuck | slither/slither/solc_parsing/slither_compilation_unit_solc.py:509-606 | for a closed relation the queue empties if and only if no set of contracts waits for itself, and then within n(n+1)/2 pops |
| InheritanceQueue.DrainsIffNoCycle | slither/slither/solc_parsing/slither_compilation_unit_solc.py:509-606 | so it empties if and only if no queued contracts form an inheritance cycle |
| InheritanceQueue.StuckForever | slither/slither/solc_parsing/slither_compilation_unit_solc.py:532-549 | such a set is never analysed, however long the queue rotates |
| InheritanceQueue.CycleIsStuck | slither/slither/solc_parsing/slither_compilation_unit_solc.py:532-549 | the contracts of an inheritance cycle form such a set |
| InheritanceQueue.StuckHasCycle | slither/slither/solc_parsing/slither_compilation_unit_solc.py:532-549 | and every set that waits for itself contains an inheritance cycle |
| InheritanceQueue.RankedIsNotStuck | slither/slither/solc_parsing/slither_compilation_unit_solc.py:532-549 | an acyclic relation, given by ranks, has none |
| InheritanceQueue.SomeReady | slither/slither/solc_parsing/slither_compilation_unit_solc.py:539-546 | a live queue holds a contract whose ancestors have all been analysed |
| InheritanceQueue.PopWithinBudget | slither/slither/solc_parsing/slither_compilation_unit_solc.py:535-549 | every pop spends one unit of the remaining budget |
| InheritanceQueue.TriangleIsHalfSquare | slither/slither/solc_parsing/slither_compilation_unit_solc.py:535-549 | the budget is n(n+1)/2 |
| Throttler.StepKeepsInv | proxion/Throttler.py:19-35 | the invariant of every step of every process: one holder of the lock, what each phase knows about the clock, spaced grants, alternating denials |
| Throttler.RunKeepsInv | proxion/Throttler.py:19-35 | the invariant on every run of any number of processes |
| Throttler.GrantsAreSpaced | proxion/Throttler.py:21-31 | mutual exclusion, grants k apart are at least k/rate apart, no two consecutive lock sessions both denied |
| Throttler.AtMostRateGrants | proxion/Throttler.py:22-31 | a window of length T holds at most rate * T + 1 grants |
| Throttler.AtMostRateExits | proxion/Throttler.py:28-31 | counted by the moments callers are let through, at most rate * T + 2 |
| Throttler.ExitsAreSpaced | proxion/Throttler.py:28-31 | exits k apart are at least (k - 1)/rate apart |
| Throttler.ExitsCanCoincide | proxion/Throttler.py:21-31 | and no more: two callers can be let through at the same instant |
| Throttler.PromptExitsAreSpaced | proxion/Throttler.py:21-31 | unless no time passes between reading the clock and leaving: then exits k apart are at least k/rate apart |
| Throttler.ThroughputPerSession | proxion/Throttler.py:20-35 | of k complete lock sessions at least half, rounded down, let a caller through |
| Throttler.HolderCanMove | proxion/Throttler.py:21-35 | no deadlock: the holder of the lock has a step at once or, asleep, after at most 1/rate |
| Throttler.RefusedIsLetThrough | proxion/Throttler.py:28-35 | a refused process that meets no competitor gets through as soon as 1/rate has passed, or at any later moment it wakes |
| Disassembly.Disassembler.constructor | octopus/octopus/engine/disassembler.py:12-16 | code and empty lists |
| Disassembly.Disassembler.DisassembleOpcode | octopus/octopus/arch/evm/disassembler.py:50-71 | one instruction, with the operand cut off at the end of the code |
| Disassembly.Disassembler.Disassemble | octopus/octopus/engine/disassembler.py:27-63 | the sweep loop computes the specified listing; its dictionary has the indices of the listing as keys and at each the instruction there; empty code raises; an empty argument reuses the stored code |
| Disassembly.Bytes | octopus/octopus/core/instruction.py:58-65 | opcode followed by the operand bytes |
| Disassembly.EncodeSweep | octopus/octopus/core/instruction.py:58-80 | re-encoding the listing gives back the code from the start offset on, a truncated final PUSH included |
| Disassembly.SweepEncode | octopus/octopus/engine/disassembler.py:48-51 | disassembling an encoding returns the instructions |
| Disassembly.ListingIffTiles | octopus/octopus/engine/disassembler.py:48-51 | a list of instructions is a listing if and only if it tiles from 0 with well-formed instructions of which only the last is cut short: with EncodeSweep a bijection |
| Disassembly.SweepTiles | octopus/octopus/engine/disassembler.py:48-51 | every listing tiles from its start |
| Disassembly.OffsetsAreContiguous | octopus/octopus/core/instruction.py:67-80 | each offset is the previous end plus one, holds its own opcode, and the last instruction reaches the end |
| Disassembly.EveryByteOnce | octopus/octopus/engine/disassembler.py:48-51 | every byte from the start on lies in exactly one instruction |
| Disassembly.JumpdestsAreValid | octopus/octopus/arch/evm/disassembler.py:55-62 | the JUMPDEST offsets listed are exactly the valid destinations of section 9.4.3 of the Yellow Paper |
| Disassembly.TailIffBoundary | octopus/octopus/engine/disassembler.py:27-51 | a sweep from a later offset gives a tail of the listing if and only if the offset is an instruction boundary |
| Disassembly.SynchronizesIffNothingStraddles | octopus/octopus/engine/disassembler.py:48-51 | every sweep falls into step at a position if and only if no earlier byte, read as an opcode, has an operand reaching past it |
| Disassembly.InterpretationIffPushed | octopus/octopus/arch/evm/disassembler.py:64-69 | the recorded operand value is what the machine pushes if and only if the operand is whole or the value is zero |
| EvmMemory.Memory.constructor | octopus/octopus/core/memory.py:3-4 | zero bytes |
| EvmMemory.Memory.Extend | octopus/octopus/core/memory.py:22-23 | appends as many zero bytes as the argument says |
| EvmMemory.Memory.Mstore | octopus/octopus/core/memory.py:6-9 | grows if needed, then overwrites 32 bytes; a value that does not fit raises after the growth |
| EvmMemory.Memory.Mload | octopus/octopus/core/memory.py:16-20 | grows if needed and returns the big-endian word |
| EvmMemory.Encode | octopus/octopus/core/memory.py:9 | 32 big-endian bytes exactly for values from 0 to 2^256 - 1 |
| EvmMemory.BufferIsMemory | octopus/octopus/core/memory.py:6-23 | after every run each byte is that of an unbounded zero-initialised memory |
| EvmMemory.EveryLoadIsRight | octopus/octopus/core/memory.py:16-20 | every load of every run answers that memory's word, whatever the overlaps and the initial length |
| EvmMemory.WordSurvives | octopus/octopus/core/memory.py:6-20 | a stored word is loaded back as long as later stores keep clear of its bytes |
| EvmMemory.WordsBelow2To256Survive | octopus/octopus/core/memory.py:6-20 | so is every value from 0 to 2^256 - 1, and every other value is refused |
| EvmMemory.FitsIff | octopus/octopus/core/memory.py:9 | the values that fit 32 bytes are those |
| EvmMemory.MisalignedLoad | octopus/octopus/core/memory.py:6-20 | a load overlapping the last store from above sees its low bytes followed by older ones |
| EvmMemory.BufferStaysBelowTwice | octopus/octopus/core/memory.py:7-8 | the buffer is shorter than twice the highest end position touched |
| EvmMemory.ExtensionsAreRare | octopus/octopus/core/memory.py:22-23 | k extensions need positions exponential in k |
| BigEndian.DecodeEncode | octopus/octopus/core/memory.py:9 | decoding an encoding gives the value back if and only if it fits |
| BigEndian.EncodeDecode | octopus/octopus/core/memory.py:19 | encoding a decoded byte string gives it back |
| BigEndian.FirstByteWeighsMost | octopus/octopus/core/memory.py:19 | the first byte is the most significant |

## Left out

- TernaryTerms.PlainSplitExact: requires recorded conditionals, and right operands beside a conditional index, without a further conditional inside; SplitExact has no such restriction, but asks for values of terms where this one compares expressions.
- TernaryTrees.FilterPreserves: requires that no item after the first one holding a conditional is itself a conditional, and no conditional under an index; other expressions can raise or change meaning.
- TernaryMeaning.SplitPreserves: operands are evaluated without side effects, so the order of evaluation of condition and operands is not captured; `None` items of tuples are not modelled.
- TernaryCfg.FunctionSolc.SplitTernaryNode: fathers are found through the sons of all nodes instead of being stored twice; node numbers only grow; the variable declaration, scope and source mapping of a node, the assertion that both sides of a VARIABLE node are assignments, and THROW nodes, to which the parts of a split never belong, are not modelled.
- The removal of ENDIF nodes without fathers afterwards (slither/slither/solc_parsing/declarations/function.py:1306-1331).
- The call options gas, value and salt of a call expression, which the splitter does not visit.
- SplitTernary.SplitTernaryExpression.Split: lists of a node are sequence values, so a list object shared by two shallow copies is not modelled; the splitter always replaces such a list before appending to it.
- TraceExactness.TracedKeyIff: for walks that end before a JUMPDEST; across JUMPDESTs the trace starts predecessors at their first instruction, and only halting, derivability and coverage are proved (BackwardTrace.BackwardAnalyzer.TraceOpInput). Results of instructions other than PUSH, DUP and SWAP are arbitrary, so a key the machine computes as a constant, as by PUSH 5, PUSH 0, ADD, counts as one that varies.
- TraceExactness.ProducedKeyVaries: about arbitrary results of those instructions, as TracedKeyIff.
- Construction of the control-flow graph from bytecode, and selectors (proxion/AdvCheck.py:120-131).
- StorageLayout.LayOut: sizes of types are given, and `math.ceil(size / 32)` is integer ceiling, with which it agrees for sizes below 2^53.
- Bisection.SlotHistory.BinarySearch: fetching and formatting of words is not modelled; values are numbers.
- ValueGas.IntegrateValueGas: instructions are values in a list rather than objects shared with other lists, and the unused numbering at the end (slither/slither/slithir/convert.py:360-365) is dropped.
- PushPop.RunsRefine: for pushes whose argument reads the length of the same array see PushStoresArgumentIff; an argument-less push yields the element's value rather than an alias of it.
- PushPop.Lowering.PushExpandArr: types, source mappings and `points_to` of the generated variables are not modelled.
- PushPop.Lowering.PushSetVal: types and `points_to` likewise.
- PushPop.Lowering.ConvertToPush: types and `points_to` likewise.
- PushPop.Lowering.ConvertToPop: types and `points_to` likewise.
- ConstantTypes.ConstantTypes.Convert: the key types of a state variable's getter are given rather than computed from its type; operands that are functions are modelled for assignments only.
- ConstantTypes.IntegersAreLeast: requires that no array whose literal is visited was itself retyped, which a type-correct program never does; ArrayOrderMatters shows what happens otherwise.
- ConstantTypes.OrderDoesNotMatter: requires the same, and is false without it by ArrayOrderMatters.
- ConstantTypes.ChainFixesWidth: requires the same.
- ConstantTypes.WidthsMatchIffUnique: requires the same: no rule before the first unresolved call can retype such an array.
- ConstantPrograms.IntegersAreForced: requires the same, stated over the instructions.
- ConstantPrograms.WidthsMatchIffOneEach: requires the same, stated over the instructions.
- Throttler.AtMostRateGrants: the rate is positive, as the source divides by it; time is real rather than floating point and the clock never goes back; fairness of the lock and processes that die inside it are not modelled.
- Disassembly.Disassembler.Disassemble: code is given as bytes; hexadecimal strings, the removal of loader code and metadata (octopus/octopus/arch/evm/disassembler.py:20-48), text output, and the name, gas and description columns of the opcode table are not modelled.
- `mstore8` (octopus/octopus/core/memory.py:11-14), whose slice assignment inserts a byte, so later bytes move.
- CallPaths.PathFinder.FindTargetPaths: resolution of names and descriptors to functions, and printing.
- InheritanceQueue.Parser.AnalyzePart: what analysing a contract does beyond setting its flag, and the handling of contracts with missing ancestors (slither/slither/solc_parsing/slither_compilation_unit_solc.py:440-468).
- Network access, the compiler, databases, files, logging, reporting, detectors, `Storage.sload`, `Parser.py`, `propagate_types` and `extract_tmp_call`.
