# A model of pawn-analysis

pawn-analysis preprocesses and analyses Pawn sources. This project models its core algorithms in
Dafny and proves what they are for, on all inputs. It follows the code: where the code and its own
documentation or intent part, the code is modelled and the difference is a lemma. Data that code
changes step by step is a class or a loop here, proved against a function or a relation; the
theorems are about those.

**Control flow** (`syntax.dfy`, `cfg_*.dfy`, `flow_*.dfy`). The graph builder compiles a statement
tree to blocks and edges. The meaning of a body is a step semantics with continuations that knows
nothing of exits and edges: a condition with a known value is true unless the value is zero, any
other may be either, and a `for` without a condition is never left at its head. (Only `break` is
read as the builder reads it: it leaves the innermost loop or `switch`.) The blocks are the
statements of the body in reading order. On bodies whose if-arms and `do` bodies are not empty
braces and whose labels are not inside a dead or pruned part (labels directly in the outermost
braces qualify), a block is reachable exactly when some run executes it, and the body falls through
exactly when some run completes it. For bodies of any shape `cfg_control.dfy` reads off the tree
where control goes from each block, proves that runs execute exactly what is reached that way, and
that the graph is exact if and only if none of the edges it lost leads out of what it reaches and
none it invented leads out of what control gets to. What goes wrong is spelled out for four shapes
(`cfg_limits.dfy`, `cfg_exactness.dfy`, `cfg_buried.dfy`, `cfg_pruned.dfy`): an `if` with any arms
in front of other code is exact if and only if the builder is right about control coming out of it
(a live empty arm loses what follows, a missing first arm invents an exit), a `do` loop if and only
if its body is not empty braces or its condition never fails, a jump over a dead prefix into a
statement if and only if its label does not lead to the statement's end, and an `if` with labels in
an arm its condition rules out if and only if the graph goes on behind it anyway or does not get out
of that arm. An empty body completes, but the builder says it does not fall through. Moving a body
commutes with building its graph; reuse of a graph in another file keeps the old file in its spans
exactly when the body has not moved and is not empty. A cached check gives the clean results exactly
when no reused graph depends on a change of what names mean to the body, which the cache key does
not contain. As long as the names its conditions depend on keep their values this holds over any
chain of revisions; a parameter, or an earlier declaration in the file, that takes the name of such
a constant leaves a stale graph behind. On well-shaped bodies a missing return, an undefined label
and unreachable code are reported exactly where runs and gotos say so.

**Effects and constants** (`effects*.dfy`, `constant*.dfy`, `cells.dfy`). The effect iteration over
a call graph, in any order, with in-place updates, ends; which functions are complete, and every
fact of a complete function, does not depend on the order and is the least solution. Facts of
incomplete functions do depend on it, between what every order finds and the least solution. A
complete function writes, reads and changes exactly what it does itself and what its calls bring: a
change of an argument falls on the caller's last reference parameter of that symbol, or else on the
global. The memoised constant evaluator computes exactly the least fixpoint of the definitions, and
each operator gives the 64-bit signed number it stands for: wrapping sums and products, division
rounded towards zero, shifts by powers of two, bitwise operators bit by bit.

**Conditions** (`conditions.dfy`, `condition_*.dfy`). The precedence parser of `#if` accepts exactly
the renderings of well-parenthesised trees and computes their 64-bit values. All operands are
evaluated, so `0 && 1/0` has no value. The operators give the same numbers as in constants, and the
tighter of two takes the operand between them. A macro's body is evaluated on its own, with the
macro worth 0 inside it.

**Conditional compilation** (`conditionals.dfy`, `conditional_*.dfy`, `branch_spans.dfy`,
`edits.dfy`). Lines within the nesting limit form a tree, and the stack machine selects what the
tree means, threading the macro table: every group contributes its first branch whose condition
spells a tree that is not worth zero. Within the limit the recorded branch bodies are disjoint or
nested, and stay so under the shift of a local edit. Past the limit an `#elseif` or `#else` moves
the end of the first recorded branch; over all lines in order, whatever their nesting, the bodies
cross exactly when the last such directive stands behind the end of the first body and inside
another one, and for every limit there is such a file. A branch cut off by the end of the file is
recorded as empty.

**Macro expansion** (`macro_*.dfy`, `substitution_laws.dfy`, `expansion_laws.dfy`,
`invocation_laws.dfy`, `expanded_output.dfy`). Matching a pattern inverts writing it with its
captures; collecting arguments inverts joining them; expansion ends, its nesting limit can only be
reached with more macros than it allows, and every emitted token's provenance has the outermost
invocation on top and no macro twice. What an invocation is can be read off the tokens (a name
alone, with an argument list, or with an instance of its pattern on its line); every one of a macro
that is not hidden is replaced by the body with the arguments in place and rescanned with the macro
hidden, everything else stays. So no name of an object-like macro is left but where the macro was
hidden from the start or inside an invocation of that macro; the layers of such a token need not
name it. An invocation whose argument list never ends consumes the rest of the file and emits the
macro's name alone. A repeated label in a pattern keeps the text of its last occurrence, so writing
the pattern out with its arguments gives back what was matched, in the same places, exactly when
repeated labels captured alike. A file's output is the first tokens of its expansion up to the
limit, spelled with single spaces, and the span mapper's binary search finds what a scan finds.

**Files, caches, symbols** (`includes.dfy`, `token_cache.dfy`, `snapshots.dfy`, `symbols.dfy`,
`symbol_builder.dfy`, `lookup_laws.dfy`, `stable_ids.dfy`). Include recursion ends and restores the
counts of open frames, and every file but the root has one record that says where it was opened. The
lock-protected caches are step machines whose steps interleave freely. The callable index answers
like a scan after every builder step, and finds the first callable of the nearest scope whose range
holds the number of arguments. Signatures are encoded injectively, so stable IDs and export
fingerprints tell signatures apart.

## Model

| member | source | states |
|---|---|---|
| CfgBuilder.Builder.NewBlock | cfg/cfg.go:397-403 | appends one block numbered by its position, of the statement's kind and span |
| CfgBuilder.Builder.Edge | cfg/cfg.go:405-416 | adds a successor once; edges from no block, to no block or already there change nothing |
| CfgBuilder.Builder.Statement | cfg/cfg.go:199-229 | one statement compiled in place: new blocks, edges, labels and gotos and the fragment are those of the compilation function |
| CfgBuilder.Builder.Sequence | cfg/cfg.go:172-197 | a statement list threads each part's exits into the next part, drops the exits of a part behind a dead prefix unless it is a label, and collects breaks and continues |
| CfgBuilder.Builder.GotoStatement | cfg/cfg.go:231-244 | a goto to a known label gets its edge at once, any other waits under its name |
| CfgBuilder.Builder.LabelStatement | cfg/cfg.go:246-261 | a first label of a name is recorded and resolves the waiting gotos; a second one of the name is an ordinary block |
| CfgBuilder.Builder.SwitchStatement | cfg/cfg.go:263-296 | clauses start at the header, their exits and breaks leave, and without a default the header leaves too |
| CfgBuilder.Builder.Branch | cfg/cfg.go:298-327 | arms are compiled always but connected only where the condition may go |
| CfgBuilder.Builder.LoopStatement | cfg/cfg.go:329-384 | loop back edges and exits by kind of loop and by what is known of the condition |
| CfgCompile.CompileTracks | cfg/cfg.go:172-384 | whatever was built before, compiling a statement adds exactly the edges the tree calls for, its blocks in reading order, its first labels and its gotos |
| CfgBuild.ReachableBlocks | cfg/cfg.go:106-120 | the depth-first walk returns exactly the blocks on a path from the entry |
| CfgBuild.CollectUnresolved | cfg/cfg.go:86-91 | the gotos left waiting, collected from a map in any order and sorted, are those without a label, ascending by block |
| CfgBuild.Build | cfg/cfg.go:59-103 | the whole construction returns the one graph the body has |
| CfgTheorems.BuiltEdges | cfg/cfg.go:59-103 | the finished graph has one block per statement and exactly the edges of the tree, jumps included |
| CfgTheorems.ExecutedIsReachable | cfg/cfg.go:106-120 | on well-shaped bodies no run executes a block that the graph calls unreachable |
| CfgTheorems.ReachableIsExecuted | cfg/cfg.go:106-120 | a reachable block is executed by some run, for every body that has first arms where they count |
| CfgTheorems.ReachableIffExecuted | cfg/cfg.go:106-120 | reachable in the graph if and only if executed by some run of the step semantics |
| CfgTheorems.FallsThroughIffCompletes | cfg/cfg.go:92-101 | the graph falls through if and only if some run completes the body, which must not be empty |
| CfgTheorems.UnreachableSpans | sema/controlflow.go:264-283 | the spans reported are those of the blocks that are neither reachable nor a successor of any block |
| CfgTheorems.ReportedIsNeverExecuted | sema/controlflow.go:264-283 | no run executes a block that is reported as unreachable |
| CfgTheorems.GotoLeadsToFirstLabel | cfg/cfg.go:231-261 | a named goto has exactly one successor, the first label of its name before or after it, or none and is listed as unresolved |
| CfgTheorems.UnresolvedExactly | cfg/cfg.go:86-91 | the unresolved list is exactly the gotos whose name labels nothing, ascending by block |
| CfgListing.BlocksAreStatements | cfg/cfg.go:397-403 | the finished graph has exactly the statements of the body as blocks, braces not counted: in reading order, numbered from 1, each of its statement's kind and at its place |
| CfgListing.RunsExecuteListed | cfg/cfg.go:199-229 | a run that executes a block is about to execute the statement listed there |
| CfgListing.JumpsAndLabelsAreListed | cfg/cfg.go:231-261 | the jumps of a body are its named gotos and the labels its named label statements, each at its place in the list |
| CfgLimits.OutermostLabelsAreOpen | cfg/cfg.go:190-192 | labels directly in the outermost braces always meet the main result's label condition |
| CfgLimits.DoExactly | cfg/cfg.go:329-384 | a do loop in front of other code is exact if and only if it has no body, its body is not empty braces or its condition never fails |
| CfgLimits.DoExactIffBodyFull | cfg/cfg.go:329-384 | a do loop in front of other code is exact for every evaluator if and only if its body is not empty braces |
| CfgExactness.IfExactly | cfg/cfg.go:298-327 | an if in front of other code, with any condition and arms: exact if and only if control comes out of it (an arm that may be taken is missing, empty or falls through) just when the builder's exits say so |
| CfgExactness.MissingArmExactly | cfg/cfg.go:305-327 | an if without its first arm is exact if and only if its condition may hold, its else is empty or its else falls through |
| CfgExactness.IfExactIffArmsFull | cfg/cfg.go:305-327 | an if with its first arm, in front of other code, is exact for every evaluator if and only if no arm of it is empty braces |
| CfgExactness.MissingArmInventsControl | cfg/cfg.go:305-327 | an example: a missing first arm under a known-false condition gives the graph an exit no run takes |
| CfgShifted.PartFallsThrough | cfg/cfg.go:92-101 | whether the graph of a body finds a way through a part of it is what the graph of the part alone says |
| CfgBuried.BuriedExactly | cfg/cfg.go:172-197 | a jump over a dead prefix into a statement that holds its label: exact if and only if no exit of the statement lies on a path from the label |
| CfgBuried.BuriedLabelLosesControl | cfg/cfg.go:190-192 | an example: a goto into an arm, where the run goes on to what follows and the graph does not |
| CfgPruned.PrunedExactly | cfg/cfg.go:298-327 | an if with labels in the arm its condition rules out, behind any statement control can leave: exact if and only if the graph reaches an exit of the if or none of that arm |
| CfgPruned.PrunedLabelLosesControl | cfg/cfg.go:298-327 | an example: a jump into a ruled-out arm, where the run goes on to a block that is not in the graph and is reported as unreachable |
| CfgControl.HappensIffGetsTo | cfg/cfg.go:172-384 | for every body: runs execute exactly the blocks, and complete it exactly if the end, that control gets to going from block to block by the tree |
| CfgControl.ExactExactly | cfg/cfg.go:106-120 | for every body: the graph is exact if and only if no edge it lost leads out of its reachable blocks and no edge it invented leads out of those control gets to |
| CfgShift.ShiftGraph | sema/controlflow.go:208-230 | the copy has every block and unresolved goto moved and put into the new file, and nothing else changed |
| CfgShift.BuildMoves | sema/controlflow.go:208-230 | the graph of a moved body is the shifted graph of the body, for any evaluators that answer alike |
| CfgShift.ShiftTwice | sema/controlflow.go:208-230 | two shifts are one shift by the sum |
| CfgShift.ReuseExactly | sema/controlflow.go:196-230 | reuse gives the graph of the moved body if and only if it moved, stays in its file, or is empty |
| FlowCache.ReuseFlow | sema/controlflow.go:196-206 | a hit happens exactly on equal body and constants digests, and returns the graph a clean build would give in the scope the entry was built in |
| FlowCache.CheckFunction | sema/controlflow.go:83-194 | one function's graph is taken from the cache exactly on a hit, and is the one in the entry's scope then and in its own otherwise |
| FlowCache.CheckControlFlow | sema/controlflow.go:83-194 | one revision: the flows and diagnostics of those graphs in order, and a new cache that holds only graphs of five blocks or more |
| FlowCache.CheckRevisions | sema/controlflow.go:83-194 | a chain of revisions, each checked with the cache the one before left behind |
| FlowCache.ReuseIsCleanExactly | sema/controlflow.go:196-206 | a reused graph is the clean one if and only if the body has the same graph in the entry's scope as in the function's own |
| FlowCache.CheckIsCleanExactly | sema/controlflow.go:83-194 | a cached check gives the clean flows if and only if that holds for every declared function, and then the clean diagnostics |
| FlowCache.OriginsAreEarlier | sema/controlflow.go:162-176 | along a chain every entry was built for an earlier function with its stable ID, body and constants, in that function's scope |
| FlowCache.UndisturbedIsSame | sema/controlflow.go:147-161 | scopes that give the names a body's conditions depend on the same values give the body the same graph |
| FlowCache.ChainIsClean | sema/controlflow.go:83-194 | over any chain whose functions of one ID, body and constants differ only in such scopes, every cached check gives the clean flows and diagnostics |
| FlowCache.RenamedParameterMisleads | sema/controlflow.go:83-206 | an example: a parameter takes the name of a constant of a condition, everything else equal, and the reused graph lacks an edge of the clean one |
| FlowCache.EarlierVariableMisleads | sema/controlflow.go:196-262 | an example with equal parameters: a variable takes the name of the constant, which keeps its ID and value, and the reused graph lacks an edge of the clean one |
| FlowCache.SwappedConstantsMislead | sema/controlflow.go:196-262 | an example with equal parameters: the name goes from one known constant to another, and the reused graph lacks an edge of the clean one |
| FlowReports.MissingReturnExactly | sema/controlflow.go:183-191 | on a well-shaped body a missing return is reported if and only if the function has a tag other than void, is no test, is not empty and some run completes it |
| FlowReports.UndefinedLabelExactly | sema/controlflow.go:177-182 | a label is reported as undefined, at a place, if and only if a goto to it stands there and no label statement of the body has the name |
| FlowReports.UnreachableExactly | sema/controlflow.go:264-283 | on a well-shaped body code is reported as unreachable, at a place, if and only if a statement stands there that no run executes and nothing leads to |
| Effects.InsertSorted | sema/function_facts.go:566-573 | inserting keeps an ascending list ascending with exactly one element more |
| Effects.Equal | sema/function_facts.go:604-626 | the loop compares two lists |
| Effects.PropagateMutations | sema/function_facts.go:208-243 | the callee's mutated parameters land on the caller's arguments: own parameters, written variables, or a failed mapping |
| Effects.VisitCall | sema/function_facts.go:155-181 | one call adds exactly the effects it carries under the facts at hand; an incomplete callee adds none and costs completeness |
| Effects.Visit | sema/function_facts.go:147-197 | one visit reports a change exactly when the facts differ, and leaves what one visit makes of them |
| EffectFixpoint.UpdateLowersRank | sema/function_facts.go:141-199 | every update shrinks what is left to change, although the step is not monotone |
| EffectFixpoint.ResolveFunctionFacts | sema/function_facts.go:135-199 | the iteration ends for every call graph in every order, at facts no visit changes, and those are the resolved facts |
| EffectFixpoint.FixpointIsResolved | sema/function_facts.go:135-199 | any stable facts reached from the direct ones: complete exactly where everything callable is knowable, with exactly the least effects there; elsewhere at least the direct effects and those of calls to knowable functions, at most the least ones |
| EffectFixpoint.OrderDoesNotMatter | sema/function_facts.go:135-199 | two orders agree on completeness, on all facts of complete functions, and on those of an incomplete one for which every derivable effect is one that every order finds |
| EffectFixpoint.ReadsAreReachableReads | sema/function_facts.go:175-181 | the least reads of a function are the direct reads of everything it may call |
| EffectFixpoint.IncompleteFactsDependOnOrder | sema/function_facts.go:170-174 | two orders on one graph end with different reads for an incomplete function |
| EffectLaws.CompleteExactly | sema/function_facts.go:155-181 | in a resolved graph a function is complete if and only if it is by itself, what it calls is known, and every parameter its calls change has an argument that is its own reference parameter or a symbol of the table |
| EffectLaws.WritesExactly | sema/function_facts.go:208-243 | a complete function writes exactly what it writes itself, what its callees write, and the globals passed, other than as its own reference parameters, for a parameter that a call changes |
| EffectLaws.MutationsExactly | sema/function_facts.go:208-243 | a complete function changes its parameter exactly if it does so itself, or a call changes a symbol whose last reference parameter this is |
| EffectLaws.StrayMutationsAreDirect | sema/function_facts.go:208-243 | a change of a parameter the function does not have comes from its direct facts alone |
| EffectLaws.ReadsExactly | sema/function_facts.go:175-177 | a complete function reads exactly what it reads itself and what its callees read |
| EffectLaws.ImpureExactly | sema/function_facts.go:155-175 | a complete function is impure if and only if it is itself, or a callee or an external function it calls is |
| Cells.ShiftFacts | sema/constant.go:100-158 | a left shift is a product with a power of two as far as 64 bits go, a right shift the quotient rounded down; counts of 64 and more, and negative ones, leave only signs |
| Cells.Truncates | sema/constant.go:118-127 | quotient and remainder: dividend equals quotient times divisor plus a smaller remainder of the dividend's sign; only the least cell by -1 wraps |
| Cells.EachBit | sema/constant.go:132-137 | a bitwise operator gives each of the 64 bits from the two bits at its place |
| Cells.BitsTell | sema/constant.go:132-137 | cells with the same 64 bits are the same number |
| Constants.DerivesOnce | sema/constant.go:32-66 | finite evaluations of a constant never disagree |
| Constants.Resolver.Value | sema/constant.go:202-249 | with caching and the visiting set: only derived values are kept, and a derivable value is found unless it needs what is being visited |
| Constants.Resolver.EvalExpr | sema/constant.go:32-66 | evaluation of an expression, operand by operand, against the level semantics |
| Constants.ResolveConstants | sema/constant.go:181-250 | for any order of candidates a constant has a value in the result if and only if a finite evaluation derives it |
| Constants.ResultIsLeastFixpoint | sema/constant.go:181-250 | the result is the least fixpoint of the definitions |
| Constants.UnfoundedIsAbsent | sema/constant.go:202-249 | constants that strictly need each other, as on a cycle, never get a value |
| ConstantLaws.OperandLaws | sema/constant.go:32-47 | literals are worth their value, names what their constant is worth in the result, parentheses change nothing |
| ConstantLaws.BinaryConstant | sema/constant.go:100-159 | a constant defined by two operands of known worth has, for each operator, the signed number that it stands for, and none exactly for a division by zero or another operator |
| ConstantLaws.UnaryConstant | sema/constant.go:76-98 | the same for the operators in front of one operand |
| ConstantLaws.TernaryConstant | sema/constant.go:50-64 | a conditional definition is worth what its second part is if the first is not zero, and else its third |
| ConstantLaws.WithoutOperand | sema/constant.go:76-108 | a definition with an operand that has no value has none |
| ConstantLaws.DefinitionLaws | sema/constant.go:217-223 | an enum counts from 0, a member without a value of its own follows the one before it, and an explicit definition is worth its expression |
| ConditionEvaluator.Evaluator.ParseBinary | preprocess/ifexpr.go:70-87 | one level's operator loop, from any cursor: unknown exactly when the parser function fails, else its value and stopping place |
| ConditionEvaluator.Evaluator.ParseUnary | preprocess/ifexpr.go:169-186 | prefix operators, nested, against the parser function |
| ConditionEvaluator.Evaluator.ParsePrimaryExpr | preprocess/ifexpr.go:188-216 | literals, parentheses, defined and names, against the parser function |
| ConditionEvaluator.Evaluator.ParseDefinedExpr | preprocess/ifexpr.go:218-237 | defined with and without parentheses |
| ConditionEvaluator.Evaluator.EvalIdent | preprocess/ifexpr.go:239-263 | names: undefined or guarded is 0, other than object-like fails, else the whole body's value under a larger guard; ends for all macro tables |
| ConditionEvaluator.OperatorsByPrecedence | preprocess/ifexpr.go:89-167 | the ten operator tables are the precedence levels |
| ConditionTheorems.EvalCondition | preprocess/ifexpr.go:15-25 | a condition has a value exactly when all its tokens parse, and no tokens have none |
| ConditionGrammar.RenderingIsRead | preprocess/ifexpr.go:70-216 | at every level, a tree that fits it followed by anything looser is read as that tree |
| ConditionGrammar.ReadIsRendering | preprocess/ifexpr.go:70-216 | whatever is read at a level is the rendering of a fitting tree of that value |
| ConditionTheorems.AcceptedIffRendering | preprocess/ifexpr.go:15-25 | a condition has a value if and only if its tokens are the rendering of a well-parenthesised tree of that value |
| ConditionTheorems.MinimalRenderingEvaluates | preprocess/ifexpr.go:70-167 | a tree written with as few parentheses as it needs evaluates to the tree's value, and to none exactly when the tree has none |
| ConditionTheorems.ParenthesisedFits | preprocess/ifexpr.go:89-167 | parentheses stand exactly where the operand would not fit without |
| ConditionTheorems.UnknownExactly | preprocess/ifexpr.go:149-167 | a tree has no value if and only if some part of it divides by zero or names a macro without a value |
| ConditionTheorems.SelfReferenceIsZero | preprocess/ifexpr.go:239-263 | a macro defined as itself is worth 0 |
| ConditionLaws.BinaryCondition | preprocess/ifexpr.go:89-167 | two literals or conditions in parentheses with an operator between them: the condition has, for each operator, the signed number that it stands for, and none exactly for a division by zero |
| ConditionLaws.PrefixCondition | preprocess/ifexpr.go:169-186 | the same for the operators in front of one |
| ConditionLaws.LiteralCondition | preprocess/ifexpr.go:188-196 | a literal is worth what it says |
| ConditionLaws.NameCondition | preprocess/ifexpr.go:239-263 | a name is worth 0 if it is no macro's, nothing if the macro takes parameters, and the literal if the macro is one |
| ConditionLaws.DefinedCondition | preprocess/ifexpr.go:218-237 | defined is 1 for a macro's name and 0 for any other, with parentheses and without |
| ConditionLaws.TighterOperatorFirst | preprocess/ifexpr.go:70-167 | of two operators the tighter takes the operand between them, and of two equally tight ones the first |
| ConditionalEngine.Engine.EvaluateBranch | preprocess/directives.go:274-289 | a condition is evaluated only where the surroundings are active; one without a value is inactive and reported |
| ConditionalEngine.Engine.OpenBranch | preprocess/directives.go:358-373 | a branch record is appended and the frame on top points at it |
| ConditionalEngine.Engine.CloseBranch | preprocess/directives.go:375-384 | the record the top frame points at ends here |
| ConditionalEngine.Engine.HandleIf | preprocess/directives.go:251-272 | an #if pushes a frame, or past the limit a frame that takes nothing |
| ConditionalEngine.Engine.HandleElseif | preprocess/directives.go:291-318 | an #elseif closes the branch before it, past the limit too, and is asked only if none was taken |
| ConditionalEngine.Engine.HandleElse | preprocess/directives.go:320-341 | an #else closes the branch before it and is active if none was taken |
| ConditionalEngine.Engine.HandleEndif | preprocess/directives.go:343-356 | an #endif closes and pops, or is reported without a group |
| ConditionalEngine.Engine.Run | preprocess/engine.go:433-449 | a whole file's lines, in order, with a group left open at the end reported |
| Conditionals.StepKeepsLinked | preprocess/directives.go:251-356 | every line keeps each frame's memory of its surroundings right, past the limit too |
| Conditionals.ActiveIffAllEnclosingActive | preprocess/engine.go:284-289 | in every reachable state the top frame is active if and only if every enclosing branch is |
| ConditionalTrees.MachineFollowsForest | preprocess/directives.go:251-356 | from any state the machine does on a forest's lines what the forest means, and restores the stack when every group is closed |
| ConditionalTheorems.ReadForest | preprocess/directives.go:251-356 | every sequence of lines is a forest, stray directives and unclosed groups included |
| ConditionalTheorems.MachineSelectsTheTree | preprocess/directives.go:251-356 | all lines within the limit: selected tokens, macro updates, diagnostics and branch records are those of the tree |
| ConditionalTheorems.TruncatedIffTooDeep | preprocess/directives.go:258-265 | output is cut off if and only if some #if stands at the limit |
| ConditionalTheorems.GroupIsItsFirstHoldingBranch | preprocess/directives.go:251-341 | a group contributes its first branch whose condition holds under the table the group meets, or nothing |
| ConditionalTheorems.HoldsIffTrue | preprocess/directives.go:274-289 | a branch's condition holds if and only if it spells a tree worth something other than 0, and is reported if and only if no tree it spells has a value |
| ConditionalTheorems.AtMostOneBranchIsActive | preprocess/directives.go:291-341 | of the records of one group at most one is active |
| BranchSpans.BodiesNestExactly | preprocess/directives.go:251-384 | for every limit and all lines in order: two recorded bodies overlap without nesting if and only if the last #elseif or #else past the limit comes after the directive that ends the first body (if any does) and before one that ends a body at the limit; otherwise all are pairwise disjoint or nested |
| BranchSpans.ClosedFileNestsExactly | preprocess/directives.go:251-384 | in a file whose groups are all closed: if and only if no #elseif or #else past the limit comes after the directive that ends the first body |
| BranchSpans.BodiesNest | preprocess/directives.go:358-384 | after any run within the limit the recorded bodies are pairwise disjoint or nested |
| BranchSpans.PastLimitKeepsRecordsExactly | preprocess/directives.go:302-334 | in any reachable state inside a group past the limit, a line leaves all records alone if and only if it is no #elseif or #else that moves the first record's end |
| BranchSpans.PastLimitBodiesMayCross | preprocess/directives.go:330-334 | for every limit, a file whose recorded bodies overlap without nesting |
| Edits.CompatibleEdit | preprocess/reuse.go:191-205 | the edit splits both texts into a maximal common prefix and suffix, and is empty exactly for equal texts |
| Edits.ShiftIsMonotone | preprocess/reuse.go:256-267 | shifting keeps the order of offsets |
| Edits.ShiftStaysInside | preprocess/reuse.go:256-267 | every offset of the old text lands in the new one |
| Edits.ShiftInsideTheEdit | preprocess/reuse.go:256-267 | the ends of an edit go to the ends of the new text, and an offset inside keeps its distance from the start as far as the new text goes |
| Edits.ShiftedBranchKeepsItsText | preprocess/reuse.go:123-133 | a shifted record is of the same branch: directive and body cover the same text as before when they stand before or behind the edit, and a body around the edit covers its text with the edit made |
| Edits.ShiftBranches | preprocess/reuse.go:123-133 | the shifted records, one for one, are nested if the old ones were |
| Edits.SpanBeforeKeepsItsBytes | preprocess/reuse.go:249-267 | a span ending where the edit starts, or before, covers the same text |
| Edits.SpanAfterKeepsItsBytesExactly | preprocess/reuse.go:249-267 | a span starting where the edit ends, or later, covers the same text if and only if it is empty, starts behind the edit's start, or the length did not change |
| Edits.FirstEndingFrom | preprocess/reuse.go:237-239 | binary search for the first token ending at or after an offset |
| Edits.EditTouchesCode | preprocess/reuse.go:49-59 | true if and only if some token other than trivia overlaps the edit |
| Edits.TouchesMacro | preprocess/reuse.go:236-247 | true if and only if some token at the edit spells a macro's name |
| Edits.DirectiveRange | preprocess/reuse.go:207-234 | true if and only if some line the edit touches is a directive |
| MacroTokens.WrappedThrough | preprocess/expand.go:95-102 | a replacement's token gains exactly one layer naming the macro |
| MacroArguments.Frame.CollectArgs | preprocess/expand.go:173-212 | the scan from a file's cursor; on failure the cursor is at the end of the file |
| MacroArguments.CollectArgsSlice | preprocess/expand.go:323-358 | the scan over a detached run from an index |
| MacroArguments.FileAndRunAgree | preprocess/expand.go:169-212 | the same tokens in a file and in a run: same success, same arguments up to filled-in provenance, same stopping place |
| MacroArguments.CollectInvertsJoin | preprocess/expand.go:323-358 | collecting a comma-joined list of balanced arguments and a parenthesis returns the list, except that one empty argument reads as none |
| MacroArguments.CollectIsJoined | preprocess/expand.go:323-358 | whatever is collected is such a list with what follows it |
| MacroArguments.ListableExactly | preprocess/expand.go:323-358 | an argument can stand in a list if and only if it opens as many brackets as it closes, of whatever kinds, and has commas and closing parentheses only where these numbers differ |
| MacroPatterns.AssignSlots | preprocess/directives.go:163-176 | each label of a pattern gets a slot of its own |
| MacroPatterns.MatchPattern | preprocess/pattern.go:13-65 | the matching loop succeeds exactly when the pattern matches, with the captures stored by label |
| MacroPatterns.CaptureRun | preprocess/pattern.go:25-54 | a capture runs to its delimiter outside every bracket, or fails on a wrong bracket or the end |
| MacroPatterns.MatchInvertsInstance | preprocess/pattern.go:13-65 | matching an instance of a pattern followed by anything returns its captures and length |
| MacroPatterns.MatchesExactlyInstances | preprocess/pattern.go:13-65 | a match with these captures and this length exists if and only if those tokens are such an instance, so the decomposition is unique |
| MacroPatterns.CapturableExactly | preprocess/pattern.go:25-54 | a run can be captured if and only if its brackets match kind by kind and its delimiter is not spelled in it outside them |
| MacroPatterns.LiteralExactly | preprocess/pattern.go:56-69 | a token of a pattern that is no label matches exactly its kind and text |
| MacroPatterns.AssignedArguments | preprocess/pattern.go:55 | a label's argument is the capture of its last occurrence, its only one when labels are distinct |
| MacroPatterns.ArgumentsStandForCaptures | preprocess/pattern.go:13-65 | every place of a pattern captured text that reads like its argument if and only if repeated labels captured text that reads alike |
| MacroPatterns.ReproducesExactly | preprocess/pattern.go:13-65 | the pattern written out with a match's arguments reads like what was matched, each argument a capture in its place, if and only if repeated labels captured alike |
| MacroPatterns.RepeatedLabelMayReadAlike | preprocess/pattern.go:13-65 | an example: a label three times, where the written-out pattern reads like what was matched although the captures differ |
| MacroPatterns.RepeatedLabelKeepsTheLast | preprocess/pattern.go:55 | an example: two occurrences of one label match different texts, and the last stays |
| MacroSubstitution.SubstituteParams | preprocess/expand.go:214-246 | the loop over the replacement gives what each token contributes, wrapped once |
| MacroSubstitution.SubstituteText | preprocess/pattern.go:133-182 | the respelled replacement lexed again, each token with the provenance of the segment it starts in, found by one forward cursor |
| MacroSubstitution.CursorFinds | preprocess/pattern.go:170-180 | the forward cursor stands where a search from the start would |
| MacroSubstitution.SubstitutionIsLayered | preprocess/expand.go:214-246 | every token of a substitution has the invocation's span on top and one layer of the macro, none repeated if it was not being expanded |
| SubstitutionLaws.SubstitutionJoins | preprocess/expand.go:214-246 | a replacement in two parts is substituted part by part |
| SubstitutionLaws.OnePiece | preprocess/expand.go:218-245 | a parameter stands for its argument, token by token with one layer more; a missing argument or an undeclared label for nothing; any other token for itself |
| SubstitutionLaws.CallPutsArgument | preprocess/expand.go:214-246 | what is written as an argument of a call comes back where the replacement has its parameter |
| SubstitutionLaws.PatternReproducesMatch | preprocess/expand.go:214-246 | a macro whose replacement is its own pattern gives back what was matched, in the same places, if and only if repeated labels captured alike |
| SubstitutionLaws.TextReadsItsPieces | preprocess/pattern.go:133-182 | a substitution of text is the lexing of its pieces in order, with a space exactly where the replacement or the argument had a gap, each token with the provenance of the token its first character is from |
| SubstitutionLaws.LabelsAreNumbers | preprocess/macro.go:127-143 | a percent sign and a number in decimal is the label of that number |
| MacroExpansion.ExpandRun | preprocess/expand.go:248-318 | the rescanning loop, for all macro tables, ends and delivers exactly the expansion of the run, cut off as the output limit demands |
| MacroExpansion.AppendAllOut | preprocess/expand.go:86-93 | the loop delivers its tokens until the output is cut off |
| MacroExpansion.NoMacroNoChange | preprocess/expand.go:248-318 | a run that names no macro it could expand is emitted unchanged |
| MacroExpansion.CutNeedsManyMacros | preprocess/expand.go:249-263 | the nesting limit is reached only with more macros defined than it allows |
| MacroExpansion.ExpansionIsLayered | preprocess/expand.go:248-318 | everything emitted keeps the run's invocation span on top and names no macro twice |
| ExpansionLaws.InvocationIsReplaced | preprocess/expand.go:265-314 | a run that starts with an invocation of a macro that is not hidden expands to the expansion of the replacement, with the macro hidden, and then of what follows |
| ExpansionLaws.PlainIsKept | preprocess/expand.go:315-316 | a run that starts with no such invocation keeps its first token |
| ExpansionLaws.CutExactlyBeyondLimit | preprocess/expand.go:249-263 | a run is cut where more macros are hidden than the nesting limit allows, and otherwise only if an invocation in it is |
| ExpansionLaws.ObjectIsPlainIffHidden | preprocess/expand.go:292-300 | the name of an object-like macro without a pattern is kept if and only if the macro is hidden |
| ExpansionLaws.EmittedNames | preprocess/expand.go:248-318 | every token that an uncut expansion emits stands in a run, within nested invocations, at a place where no macro is invoked but hidden ones and those of the invocations around it |
| ExpansionLaws.ObjectNamesAreReplaced | preprocess/expand.go:248-318 | a name of an object-like macro is emitted only where the macro was hidden from the start, or within an invocation of that macro |
| ExpansionLaws.HiddenNameWithoutLayer | preprocess/expand.go:248-318 | an example: A becomes B becomes C becomes B, which is emitted with a layer of C alone |
| MacroInvocations.FitArguments | preprocess/expand.go:136-148 | missing and surplus arguments are fitted to the parameters, surplus joined by commas |
| MacroInvocations.FitCounts | preprocess/expand.go:136-148 | with parameters there is at least one argument and at most one per parameter, and fitting lists are left alone |
| MacroInvocations.EmitActive | preprocess/expand.go:8-35 | one round at the cursor: what it takes, what it delivers and the invocation it records |
| MacroInvocations.ExpandPatternAt | preprocess/pattern.go:71-90 | a matched pattern takes exactly its tokens, a failed one none |
| MacroInvocations.ExpandFunctionAt | preprocess/expand.go:125-157 | a call is expanded with its fitted arguments; without a closing parenthesis the name alone is emitted |
| MacroInvocations.ExpandFile | preprocess/engine.go:433-449 | a file without directives: every round moves on, so the run ends, with the output of all rounds and the invocations in order |
| MacroInvocations.OutputIsTraceable | preprocess/expand.go:95-123 | every token of the output was written where its provenance says, or has one of the file's invocations on top and no macro twice |
| MacroInvocations.FileCutNeedsManyMacros | preprocess/expand.go:249-263 | a whole file meets the nesting limit only with more macros than it allows |
| InvocationLaws.FitIsFitted | preprocess/expand.go:136-148 | no argument counts as one empty one, and the surplus arguments are one with the last, in order with commas between |
| InvocationLaws.SurplusComesBack | preprocess/expand.go:136-148 | collecting the last of the fitted arguments again gives the surplus arguments |
| InvocationLaws.FileInvocationIsReplaced | preprocess/expand.go:8-35 | an invocation in a file is replaced by the expansion of its replacement, and the file goes on behind it |
| InvocationLaws.OpenCallEndsFile | preprocess/expand.go:125-134 | a call without a closing parenthesis emits its name, and nothing follows |
| InvocationLaws.FilePlainIsKept | preprocess/expand.go:8-35 | any other token of a file is emitted as it is |
| InvocationLaws.FileEmitsWhatIsLeft | preprocess/expand.go:8-35 | everything that a file's uncut expansion holds is a token of the file that starts no invocation, or is left within the replacement of one |
| InvocationLaws.FileReplacesObjectNames | preprocess/expand.go:8-35 | a name of an object-like macro is in a file's uncut expansion only within an invocation of that macro |
| ExpandedOutput.Output.AppendOut | preprocess/expand.go:38-70 | one token appended to the buffer, or the output cut off at the limit, or nothing once it is cut off |
| ExpandedOutput.Output.ReserveOutputToken | preprocess/expand.go:72-84 | room for one token more within the capacity bound, contents kept |
| ExpandedOutput.OutputIsThePrefix | preprocess/expand.go:38-84 | the output is the first tokens up to the limit, spelled with single spaces, each covering its own text, and cut off exactly when there are more |
| MacroInvocations.FileShowsItsExpansion | preprocess/engine.go:433-449 | a file's output spells the first tokens of its expansion up to the output limit, is cut off exactly when there are more or the nesting limit was met, and with the end of the file has at most one token more than the limit, starts strictly increasing |
| ExpandedOutput.FinishedOutput | preprocess/engine.go:415-421 | with the end of the file there is at most one token more than the limit, and starts strictly increase |
| ExpandedOutput.MapSpan | analysis.go:946-969 | binary search for a node's token gives the answer of looking at every token |
| ExpandedOutput.TheOneTokenOfANode | analysis.go:946-969 | in an emitted output at most one token answers for a node, and it is found |
| Includes.ScanPath | preprocess/includes.go:8-42 | a path is read if and only if one stands behind the keyword on its line |
| Includes.Frame.ResyncAndFinishLine | preprocess/includes.go:103-113 | the cursor only moves forward and ends at a line's end or the file's |
| Includes.Frame.CollectRestOfLine | preprocess/directives.go:30-40 | the cursor ends behind a line's end or at the file's |
| Includes.Engine.HandleDirectiveLine | preprocess/directives.go:42-94 | every directive line moves the cursor and restores the open frames |
| Includes.Engine.HandleInclude | preprocess/includes.go:53-97 | an inactive include changes nothing, a malformed one is reported, and any other has its outcome recorded; the cursor never goes back, the open frames are restored, and as many files are added as records of opened ones |
| Includes.Engine.Resolve | preprocess/includes.go:53-97 | a path that is not found is recorded and reported unless optional, a file open twice or too deep is recorded and reported, and any other is added one level deeper with whatever it includes behind it, and recorded last |
| Includes.Engine.OpenFile | preprocess/includes.go:67-94 | an included file is recorded, entered within both limits and left again |
| Includes.Engine.Run | preprocess/engine.go:433-449 | for every source, resolver and behaviour the run ends; counts equal the open frames, no file is open more than twice below the root, no chain is deeper than the limit |
| Includes.PushCounts | preprocess/includes.go:53-83 | entering a file keeps counts and limits right |
| Includes.PopUndoesPush | preprocess/includes.go:83-92 | leaving a file gives back the very counts it was entered with |
| TokenCache.Cache.Write | preprocess/tokencache.go:60-69 | the write under the lock keeps an entry of equal content and replaces any other |
| TokenCache.Cache.Tokenize | preprocess/tokencache.go:31-71 | one caller gets the tokens of its content and keeps the cache faithful |
| TokenCache.AnswersAreOfTheContent | preprocess/tokencache.go:31-71 | under any interleaving every answered call has the tokens of the content it asked about |
| Snapshots.Update | query/snapshot.go:84-127 | stale versions are rejected; otherwise, walking the cache in any order, other documents keep their results and the updated one's become what it may build on |
| Snapshots.SameKeySameResult | query/snapshot.go:157-190 | under any interleaving all finished calls for one key on one snapshot return the same object |
| Snapshots.ResultsAreOfTheVersion | query/snapshot.go:157-190 | a finished call's result was made for the version its snapshot holds |
| Snapshots.CacheIsCurrent | query/snapshot.go:84-127 | every cache key carries the version the snapshot holds |
| Snapshots.PriorIsThePrecedingVersion | query/snapshot.go:84-127 | each prior result of a snapshot is the one result of the version its update replaced: made for it with the same options, the one the parent's cache holds, and the one every finished call on the parent for it returned |
| Snapshots.AnalysesBuildOnEarlierVersions | query/snapshot.go:157-190 | every analysis built on nothing or on a result for an earlier version of its document |
| Symbols.Lookup | symbol/symbol.go:267-279 | the walk outward ends and finds the symbol of the nearest scope that has the name |
| Symbols.LookupIndexed | symbol/symbol.go:283-309 | the path through the index finds the reference answer |
| Symbols.LookupByScan | symbol/symbol.go:311-335 | the path through all symbols finds the reference answer |
| Symbols.LookupCallable | symbol/symbol.go:282-335 | both paths return the same: in the nearest scope with any, the first callable that takes the arguments, or else the first |
| Symbols.FoundCallableEncloses | symbol/symbol.go:282-335 | what a call finds has its name, is callable and stands in a scope around the call |
| Symbols.FoundEncloses | symbol/symbol.go:267-279 | what a lookup finds has its name and stands in a scope around the use |
| LookupLaws.CallFindsFirst | symbol/symbol.go:282-335 | a call finds, in the nearest scope with a callable of the name that is no test, the first in order whose minimum and maximum hold the number of arguments, or else the first |
| LookupLaws.CallFindsNothingExactly | symbol/symbol.go:282-335 | a call finds nothing if and only if no scope around it has such a callable |
| LookupLaws.NameFindsNearest | symbol/symbol.go:267-279 | a name finds what the nearest scope around its use has by that name |
| LookupLaws.NameFindsNothingExactly | symbol/symbol.go:267-279 | a name finds nothing if and only if no scope around its use has it |
| SymbolBuilder.AppendingKeepsIndex | symbol/build.go:222-238 | after appending any symbol the index lists exactly the callables by scope and name, in order |
| SymbolBuilder.Builder.NewScope | symbol/build.go:216-220 | a new scope has a larger ID than its parent, and the table stays right |
| SymbolBuilder.Builder.AppendSymbol | symbol/build.go:222-238 | a symbol appended with its index entry keeps the table right |
| SymbolBuilder.Builder.Declare | symbol/build.go:240-272 | the symbol is always appended; its name takes the scope's entry if free or held by a forward declaration, and a second declaration is reported except for forward pairs and state variants |
| LookupLaws.DeclaredNameFinds | symbol/build.go:240-272 | after a declaration its name leads to it if the name was free, or if this is a definition and a forward declaration had it, and otherwise to what had it |
| LookupLaws.DefinitionIsFound | symbol/build.go:240-272 | after a forward declaration and its definition, in either order, the name leads to the definition |
| LookupLaws.RedeclaredExactly | symbol/build.go:243-265 | a declaration is reported as a second one exactly when its name is taken, it is no test, and the two are neither a forward declaration and a definition nor callables with state selectors |
| SymbolBuilder.Builder.OpenFunction | symbol/build.go:487-532 | giving a function its scope changes nothing a lookup sees |
| SymbolBuilder.Builder.AddReference | symbol/build.go:300-316 | a reference is recorded with what it means now, which has its name and encloses it |
| SymbolBuilder.Builder.ResolveFileReferences | symbol/build.go:279-298 | what was resolved stays; the rest resolves late, calls by lookup and other uses among the file's own names |
| StableIds.WriteStableSignature | symbol/symbol.go:201-231 | the bytes written for a signature |
| StableIds.WriteIsInjective | symbol/symbol.go:201-231 | different signatures with 32-bit arities have different bytes |
| StableIds.BuildStableIDs | symbol/symbol.go:167-199 | one pass gives every top-level declaration, and nothing else, its ID, and the fingerprint of their digests |
| StableIds.StableIdsAreDistinct | symbol/symbol.go:167-199 | no two declarations of a table share an ID |
| StableIds.StableIdTellsSignature | symbol/symbol.go:167-199 | equal IDs in any two tables mean equal signatures |
| StableIds.FingerprintComparesSignatures | symbol/symbol.go:191-198 | fingerprints are equal if and only if the multisets of top-level signatures are |
| StableIds.EqualFingerprintsMatchIds | symbol/symbol.go:167-199 | with equal fingerprints every ID of one table belongs to exactly one declaration of the other, with the same signature |

## Left out

- The lexer, the parser, the declaration index, syntax rebasing and line maps: statements, expressions and tokens are abstract values here, lexing a function.
- Cancellation and polling: every run goes to its end.
- Reading literals (`parseIntLiteral`, `parseCharLiteral`, `parseInteger`): a literal carries its value, or a given function reads it.
- SHA-256: a function without collisions; digests are compared as numbers, and the hash of a list of digests is a function of the list.
- Text is a sequence of characters; byte lengths and encodings matter only in signatures, where text is a sequence of bytes.
- Diagnostic messages, documentation links, tracing and timings; of diagnostics only the kinds that control the results are kept.
- FlowCache.CheckRevisions: a condition's value depends on the body and on the values of the file-scope constants that names from outside the body mean; which declaration a name means is part of each function here (how the table finds it is the subject of `symbols.dfy` and `symbol_builder.dfy`), and the evaluation itself is a given function.
- CfgTheorems.ReachableIffExecuted: holds under its shape conditions; what is true for all bodies is stated in `CfgControl.ExactExactly`.
- CfgBuilder.Builder.Statement: unknown or missing statement kinds and error nodes of the parser are not part of the model.
- EffectFixpoint.ResolveFunctionFacts: collecting the direct facts of one function from its syntax is not part of the model.
- Constants.ResolveConstants: finding the candidates and the symbol a name refers to is not part of the model.
- ConditionTheorems.EvalCondition: a missing macro table is an empty one.
- ConditionalTheorems.MachineSelectsTheTree: the model reads a file's lines as directives or as what an active line does; `#include` and the directives without effect on the macro table appear there as silent lines, `#endinput` as the end of the lines.
- ConditionalEngine.Engine.Run: `#endinput`, `#include` and the stop flag are not part of this loop; included files are the subject of `includes.dfy`.
- BranchSpans.BodiesNestExactly: one file's records; records of included files are separate.
- Edits.ShiftBranches: reuse is modelled for branch records; includes, invocations, diagnostics and macro spans are shifted by the same function.
- Single-token and trivia-only reuse, which rest on the lexer's locality.
- MacroInvocations.ExpandFile: a file without directives under a fixed macro table; conditional compilation, expansion and inclusion are each proved on their own and not composed into one run.
- MacroExpansion.ExpandRun: the table is fixed during an expansion, as in the code; parsing a `#define` line into a macro is modelled only where it numbers a pattern's labels.
- MacroPatterns.AssignSlots: label numbers are unbounded; in the source a label of very many digits overflows.
- MacroSubstitution.SubstituteText: deciding whether a macro's replacement needs text substitution is an attribute of the macro here.
- ExpandedOutput.OutputIsThePrefix: the cut by the output limit; the cut by the nesting limit is joined in `MacroInvocations.FileShowsItsExpansion`, the one by the conditional limit is not.
- ExpandedOutput.FinishedOutput: the end-of-file token may make the language's runtime grow the buffer; line and column numbers are not modelled.
- Includes.Engine.Run: which lines are active, and how many tokens other constructs take, is left open and may be anything; the root file is not counted among the open frames, as in the code.
- Snapshots.Update: the cache of complete results and the workspace index are handled like the cache and are not repeated; copying of document text is not modelled.
- Symbols.LookupCallable: tables are values; IDs are natural numbers, so a negative ID, which finds nothing, cannot be asked about.
- SymbolBuilder.Builder.ResolveFileReferences: walking the syntax tree is not part of the model; every sequence of builder steps is allowed instead.
- The checks that classify names no declaration explains, compare tags of assignments, returns and arguments, validate state and automaton names, report constants used before their declaration and count arguments are not modelled; neither is patching the references of a table after other files have changed.
- The parallel parsing and the pipeline of `AnalyzeContext` and `CompleteContext`.
