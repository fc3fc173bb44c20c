# zamuza: a Dafny model of the interaction-net compiler core

zamuza compiles *interaction nets* into programs and runs them. A program is a list of
**rules** and a **net** with **interfaces**:

- a rule is an active pair `A(x, y) >> B(z)` with the equations its right-hand side makes;
- a net is a list of equations `term -> term`;
- a name `#x` is an input and `@x` is an output.

The reduction follows the equation-stack model of "An Implementation Model for Interaction
Nets". The model covers the following parts of the repository:

- **AST and its printers** (`Ast`, `AstDecode`): the `Display` forms of names, terms,
  equations, rules and programs. A reader proves that nothing printed is lost.
- **Static checks** (`Check`): the following `check_program` checks, as loops over maps and
  sets:
  - every linear name occurs exactly twice;
  - head parameters are distinct;
  - inputs and outputs balance;
  - equations point the right way;
  - no two rules are written for the same ordered agent pair (the gap this leaves is
    under "## Findings").
- **Rule and net compiler.**
  - All three generations share one specification (`CompileSpec`, `CompileFacts`). Their
    builder classes (`Builders`) are proved equal to it:
    - the IR builder of `src/backend/builder.rs`;
    - the VM builder of `src/runtime/builder.rs`;
    - the C-emitting builder of `src/runtime.rs`.
  - The specification covers:
    - the arity-checked agent table seeded with `$`;
    - linear name resolution to slots or fresh names;
    - flattening terms into slot stores and equation pushes;
    - normalising rule keys so the smaller agent id is on the left.
  - The three back ends (`BackendSpec` with `BackendBuilder`, `RuntimeSpec` with
    `RuntimeBuilders`, `LegacySpec` with `LegacyRuntime`) add the rule table, the rule map, the
    functions and the entry point. Each proves that what it builds is well formed.
- **IR printers** (`BackendIr`): the text of locals, initializers, instructions, rules,
  functions, agent and function metadata, and the whole program, with the lines it reads
  back as.
- **Peephole optimiser** (`Optimize`): a fresh agent plus a free becomes a reuse.
- **Reduction VM** (`VmSpec`, `Vm`, `VmFacts`): a heap of cells indexed by position, the
  equation stack, and the `run` loop with its four cases:
  - indirection;
  - interaction by rule;
  - the no-rule error;
  - binding.

  Rule bodies run in a stack frame of initializers and instructions.
- **Line spans** (`Utils`): `lines_span`'s byte range and columns.

Shared modules are `Wrappers` (Option/Result), `Strings` (decimal printing and parsing,
join/split) and `Locals` (the `Local` type and agent metadata).

## Model

| member | source | states |
|---|---|---|
| Ast.AsName | src/ast.rs:34-47 | `as_name`/`into_name` return the bare identifier of both an input and an output name |
| Ast.NameToStringParts | src/ast.rs:23-30 | a name prints as `#` for an input or `@` for an output, followed by exactly its identifier |
| Ast.NameToStringInjective | src/ast.rs:23-30 | two names that print the same are the same name |
| Ast.ProgramLines | src/ast.rs:192-205 | a program prints one line per rule, per net equation and per interface |
| AstDecode.NameRoundTrip | src/ast.rs:23-30 | reading back a printed name gives the name and leaves the rest of the text |
| AstDecode.TermRoundTrip | src/ast.rs:59-94 | reading back a printed term gives the term; an agent with no body prints as its bare name, otherwise as `name(t1, t2, …)` |
| AstDecode.TermsRoundTrip | src/ast.rs:59-76 | the `, `-joined bodies of an agent read back as the same list of terms |
| AstDecode.EquationRoundTrip | src/ast.rs:105-109 | `left -> right` reads back as the same equation |
| AstDecode.EquationsRoundTrip | src/ast.rs:163-179 | the `, `-joined equations of a rule read back as the same list |
| AstDecode.NamesRoundTrip | src/ast.rs:120-137 | the `, `-joined parameters of a rule term read back as the same names |
| AstDecode.RuleTermRoundTrip | src/ast.rs:120-137 | a printed rule term, bare or with parameters, reads back as itself |
| AstDecode.RuleRoundTrip | src/ast.rs:148-179 | a printed rule `left >> right`, with ` => …` only when it has equations, reads back as itself |
| AstDecode.ProgramLinesNoNewline | src/ast.rs:192-205 | no printed line contains a line break, so one line holds one item |
| AstDecode.ProgramSplit | src/ast.rs:192-205 | splitting the printed program at line breaks gives exactly its lines and a final empty piece |
| AstDecode.RuleLineRoundTrip | src/ast.rs:194-196 | line i of a program reads back as rule i |
| AstDecode.NetLineRoundTrip | src/ast.rs:197-199 | the lines after the rules read back as the net equations, in order |
| AstDecode.InterfaceLineRoundTrip | src/ast.rs:200-202 | each interface line reads back as the equation `t -> $` |
| AstDecode.ProgramRoundTrip | src/ast.rs:192-205 | the printed program has one line per item, and every rule, equation and interface reads back from its own line in order |
| Check.CheckRuleTerms | src/check.rs:10-24 | Ok exactly when the two heads' parameter names are pairwise distinct; the error names the first repeated name |
| Check.CountNames | src/check.rs:26-37 | the map gains one count per name leaf of the term, through every agent body |
| Check.AddCountsCounts | src/check.rs:26-37 | counting from an empty map gives exactly the names that occur, each with its number of occurrences |
| Check.CheckAllTwice | src/check.rs:56-60 | Ok exactly when every count is 2; otherwise the error names a count that is not 2 |
| Check.CountEquations | src/check.rs:51-54 | counting over a list of equations adds every leaf of both sides of each one |
| Check.CheckRuleVariables | src/check.rs:40-62 | Ok exactly when every name has a total count, heads plus equations, of exactly 2; the error names a count that is not 2 |
| Check.CheckNetVariables | src/check.rs:65-81 | Ok exactly when every name has a count over interfaces plus net equations of exactly 2; the error names a count that is not 2 |
| Check.CheckConflict | src/check.rs:84-97 | Ok exactly when no two rules have the same ordered (left agent, right agent) name pair; the error names the first rule whose pair was already taken, after the one earlier rule that took it |
| Check.OrderedConflictPairUnique | src/check.rs:84-97 | the pair of rules a conflict error names is determined by the rule list: the later is the first repeat, the earlier the only rule before it with that key |
| Check.OrderedConflictMissesSwap | src/check.rs:87-90 | `A >> B` and `B >> A` pass the ordered check although they are rules for the same agent pair |
| Check.NoConflictIsStronger | src/check.rs:84-97 | the unordered condition implies the ordered one |
| Check.CheckConflictUnordered | src/check.rs:84-97 | Ok exactly when no two rules share the same unordered pair of agent names; the error names the first repeat and the earlier rule with its pair |
| Check.CheckTermIoBalance | src/check.rs:99-129 | the term's name leaves are walked in order, and the walk fails at the first name used as `In` twice or as `Out` twice |
| Check.CheckEquationsIoBalance | src/check.rs:131-140 | the walk runs over both sides of every equation; it fails with the first clash |
| Check.CheckNetIoBalance | src/check.rs:143-149 | a net balances exactly when the walk over interfaces and net equations from an empty map succeeds, and then with that walk's error |
| Check.CheckRuleIoBalance | src/check.rs:152-168 | a rule balances exactly when the walk over its equations succeeds, seeded with each head name's opposite flag |
| Check.IoFoldBalanced | src/check.rs:99-129 | the walk succeeds exactly when no name repeats its first direction, and its final map records each name's first direction |
| Check.SeedIsWalk | src/check.rs:152-162 | for distinct head names, the seed equals walking the heads with flipped directions |
| Check.RuleIoBalanced | src/check.rs:152-168 | a rule balances exactly when its flipped heads followed by its equation leaves use no name twice the same way |
| Check.NetIoBalanced | src/check.rs:143-149 | a net balances exactly when its leaves use no name twice the same way |
| Check.CheckEquationVarIoDir | src/check.rs:171-179 | rejects an `Out` name on the left and an `In` name on the right, each with its own message, and accepts everything else |
| Check.CheckRule | src/check.rs:183-191 | a rule passes exactly when its heads are distinct, its counts are 2, it balances and each of its equations points the right way; otherwise the error is that of the first of these four checks to fail, followed by `(in rule ...)` |
| Check.CheckRuleDirections | src/check.rs:188-190 | Ok exactly when every equation passes the direction check; otherwise the error is that of the first equation that fails it |
| Check.CheckProgram | src/check.rs:182-201 | `check_program` as written: Ok exactly when the local checks pass and no two rules share an ordered (left, right) agent-name pair; a failing local check reports the first local error, and only then is the first ordered conflict reported |
| Check.CheckLocal | src/check.rs:183-198 | Ok exactly when every rule passes, every net equation points the right way, and the net variables occur twice and balance; the error is the first failing rule's, else the first wrong-way net equation's with `(in equation ...)`, else the net count error, else the net balance error |
| Check.CheckProgramCorrected | src/check.rs:182-201 | the same checks with the unordered conflict test: Ok exactly when the local checks pass and no two rules share an unordered agent pair; errors in the same order, with the first unordered conflict last |
| Check.CorrectedProgramOk | src/check.rs:182-201 | every program the corrected check accepts, `check_program` accepts too |
| Check.ProgramAcceptsSwappedPair | src/check.rs:199 | the program with only the rules `A >> B` and `B >> A` passes `check_program` and fails the corrected check |
| CompileSpec.FirstIndexOf | src/backend/builder.rs:83-100 | the position of the first match, or none exactly when nothing matches |
| CompileSpec.FirstIndexOfDistinct | src/backend/builder.rs:121-144 | in a list without repeats, every entry is found at its own position |
| CompileSpec.AddAgent | src/backend/builder.rs:83-100 | a known name with equal arity gives its id and leaves the table unchanged; a known name with another arity is an error and changes nothing; an unknown name is appended at id = old length |
| CompileSpec.AddAgentDistinct | src/backend/builder.rs:83-100 | the agent table never holds a name twice |
| CompileSpec.AddAgentStable | src/backend/builder.rs:83-100 | adding an agent never moves an agent already in the table |
| CompileSpec.AddAgentIdempotent | src/backend/builder.rs:83-100 | asking for the same agent again gives the same id and the same table |
| CompileSpec.InterfaceAgentFirst | src/backend/builder.rs:74-80 | `$` with arity 1 stays at id 0 |
| CompileSpec.ResolveName | src/backend/builder.rs:121-144 | a head parameter gives `Slot` at its first position and never enters `names`; a known name gives `Name` at its first-seen index; a new name is appended |
| CompileSpec.ResolveNameIdempotent | src/runtime/builder.rs:116-139 | resolving the same name twice gives the same local and the same state |
| CompileSpec.ResolveNameDistinct | src/runtime/builder.rs:116-139 | `names` stays free of repeats, and different names resolve to different locals |
| CompileSpec.CompileTerm | src/backend/builder.rs:146-176 | a name term changes no table; an agent term gives `Agent(k)`, k being the number of terms before it, whose entry has the agent's name and arity |
| CompileSpec.CompileChildren | src/backend/builder.rs:164-171 | the sub-terms only extend the body and the table, and the result is the parent agent |
| CompileSpec.CompileEquation | src/backend/builder.rs:178-193 | an equation only extends the body and the agent table |
| CompileSpec.CompileOutputs | src/backend/builder.rs:407-410 | one output local per interface term |
| CompileSpec.RuleHead | src/backend/builder.rs:242-251 | fails exactly when either head's agent lookup fails; the heads keep their written order when the first id is <= the second and are swapped otherwise, so left id <= right id; each id's table entry has its head's name and arity |
| CompileSpec.RuleHeadTieKeepsOrder | src/backend/builder.rs:246-251 | a rule between two copies of one agent, such as `A(x) >> A(y)`, keeps the written order, with both ids equal |
| CompileSpec.CompileRule | src/backend/builder.rs:230-262 | the compiled rule's key has left <= right, and both ids are in the table |
| CompileSpec.CompileNet | src/backend/builder.rs:390-414 | a compiled net has one output per interface |
| CompileSpec.EquationsErrSticky | src/backend/builder.rs:260-262 | compilation stops at the first failing equation |
| CompileFacts.TermOwnSlots | src/backend/builder.rs:164-171 | an n-ary agent receives slot stores for slots 1..n, in order, once each |
| CompileFacts.ChildrenSlots | src/backend/builder.rs:164-171 | the stores into the parent are exactly slots 1..|children| in order |
| CompileFacts.TermStores | src/backend/builder.rs:152-176 | a term's instructions store only into the agents it creates |
| CompileFacts.TermFills | src/backend/builder.rs:152-176 | every agent a term creates has each of its slots stored once, in order |
| CompileFacts.TermScoped | src/backend/builder.rs:152-176 | a term's instructions use only locals the body declares |
| CompileFacts.EquationShape | src/backend/builder.rs:178-193 | an equation appends exactly one push, after all instructions of both sides |
| CompileFacts.EquationsPushCount | src/backend/builder.rs:260-262 | n equations give exactly n pushes |
| CompileFacts.TermSound | src/backend/builder.rs:152-176 | compiling a term keeps the body declared-only and filled, and its result is in scope |
| CompileFacts.EquationsSound | src/backend/builder.rs:260-262 | compiling equations keeps the body declared-only and filled |
| CompileFacts.RuleArgsInArity | src/backend/builder.rs:253-258 | the lower-id head's parameters are `Left(1..)` and the other head's are `Right(1..)`, within both arities |
| CompileFacts.RuleSound | src/backend/builder.rs:230-262 | a compiled rule's arguments are its heads' parameters, its body is sound, and it pushes once per equation |
| CompileFacts.NetSound | src/backend/builder.rs:390-414 | a compiled net has no arguments, is sound, has an in-scope output per interface, and pushes once per equation |
| CompileFacts.RuleTableDistinct | src/backend/builder.rs:230-275 | compiling a rule keeps agent names unique |
| CompileFacts.NetTableDistinct | src/backend/builder.rs:390-425 | compiling a net keeps agent names unique |
| CompileFacts.HeadKeySymmetric | src/backend/builder.rs:246-251 | `A >> B` and `B >> A` give the same rule-map key |
| Builders.GlobalBuilder.constructor | src/backend/builder.rs:74-80 | the table starts as `[("$", 1)]` |
| Builders.GlobalBuilder.AddOrGetAgent | src/backend/builder.rs:83-100 | the table and result are exactly those of `AddAgent` |
| Builders.BodyBuilder.constructor | src/backend/builder.rs:107-113 | a new body has no arguments, names, terms or instructions |
| Builders.BodyBuilder.Slot | src/backend/builder.rs:116-119 | appends one argument and changes nothing else |
| Builders.BodyBuilder.AddOrGetName | src/backend/builder.rs:121-144 | the new state and local are exactly those of `ResolveName` |
| Builders.BodyBuilder.AddTerm | src/backend/builder.rs:146-150 | appends the agent id and returns `Agent(len before push)` |
| Builders.BodyBuilder.Term | src/backend/builder.rs:152-176 | the body, table and result are exactly those of `CompileTerm` |
| Builders.BodyBuilder.Children | src/backend/builder.rs:164-171 | the body, table and result are exactly those of `CompileChildren` |
| Builders.BodyBuilder.Equation | src/backend/builder.rs:178-193 | the body, table and error are exactly those of `CompileEquation` |
| Builders.BodyBuilder.Equations | src/backend/builder.rs:260-262 | the body, table and error are exactly those of `CompileEquations` |
| Builders.BodyBuilder.Outputs | src/backend/builder.rs:407-410 | the body, table and outputs are exactly those of `CompileOutputs` |
| Builders.RuleHeadOf | src/backend/builder.rs:242-251 | the table and head are exactly those of `RuleHead` |
| Builders.RuleBody | src/backend/builder.rs:253-262 | the body and error are exactly those of compiling the equations from the rule's arguments |
| Builders.Arguments | src/backend/builder.rs:253-258 | appends the left head's parameters, then the right head's, as argument-slot pairs |
| BackendIr.LocalRoundTrip | src/backend/mod.rs:32-40 | `x{i}`, `a{i}` and `s{i}` read back as `Name`, `Agent` and `Slot` of that index |
| BackendIr.LocalToStringInjective | src/backend/mod.rs:32-40 | different locals print differently |
| BackendIr.RuleLinesShape | src/backend/mod.rs:215-228 | a rule prints its description comment, its header, one indented line per initializer, then per instruction, then `}` |
| BackendIr.FunctionLinesShape | src/backend/mod.rs:240-261 | a function prints its initializers, then its instructions, then `return` and the outputs joined by `, ` |
| BackendIr.OutputsRoundTrip | src/backend/mod.rs:249-257 | the `, `-joined outputs read back as the same list of locals |
| BackendIr.AgentMetaLineRoundTrip | src/backend/mod.rs:189-193 | an agent whose name has no space reads back, name and arity, from its `define_agent` line |
| BackendIr.AgentTableRoundTrip | src/backend/mod.rs:300-304 | line k of the agent table reads back as agent k |
| BackendIr.RuleMapLineRoundTrip | src/backend/mod.rs:311-315 | a `rules[l][r] = rule_i;` line reads back as the entry (l, r, i) |
| BackendIr.RuleMapTableRoundTrip | src/backend/mod.rs:311-315 | line k of `init_rules` reads back as rule-map entry k |
| BackendIr.LetLineRoundTrip | src/backend/mod.rs:189-193 | a `let NAME = define_…(N)` line with a space-free name reads back as that name and number |
| BackendIr.FunctionMetaLineRoundTrip | src/backend/mod.rs:269-277 | a function whose name has no space reads back, name and output count, from its `define_function` line, line break included |
| BackendIr.ProgramText | src/backend/mod.rs:298-339 | the printed program is its lines, each ended by one line break, section after section |
| BackendIr.ProgramSplit | src/backend/mod.rs:298-339 | when no agent name, rule description or push description holds a line break, cutting the printed program at its line breaks gives back exactly its lines and an empty last piece |
| BackendIr.SectionsAt | src/backend/mod.rs:298-339 | whatever the agent, rule, rule-map and function lines, the sections follow one another: `// Agents`, the agent lines, an empty line, `// Rules`, the rule lines, `function init_rules() {`, the rule-map lines, `}`, an empty line, `// Functions`, the function lines, then the eight lines of `main` and two empty pieces |
| BackendIr.ProgramReadBack | src/backend/mod.rs:298-339 | the split printed program has that layout, with the agent table, each rule's lines and an empty line, the rule map, and each function's lines and an empty line as the four parts |
| BackendIr.AgentTableReadBack | src/backend/mod.rs:300-303 | in that layout the lines after `// Agents` read back, in order, as the agents |
| BackendIr.RuleMapReadBack | src/backend/mod.rs:311-315 | in that layout the lines after `function init_rules() {` read back, in order, as the rule-map entries |
| BackendSpec.RuleInitLocals | src/backend/builder.rs:195-220 | initializers are the argument slots, then names, then agents, each group indexed 0.. |
| BackendSpec.BuildRuleDeclares | src/backend/builder.rs:195-220 | a local is declared by the built rule exactly when the body has it in scope |
| BackendSpec.BuildRuleDistinct | src/backend/builder.rs:195-220 | no local is declared twice |
| BackendSpec.CompiledRuleWf | src/backend/builder.rs:230-275 | every compiled rule is well formed: each local declared once; no read before declaration; each slot within its agent's arity |
| BackendSpec.CompiledRuleInits | src/backend/builder.rs:230-275 | every argument initializer of a compiled rule reads an existing slot of its side's agent |
| BackendSpec.InitialValid | src/backend/builder.rs:74-80 | the empty builder state is valid |
| BackendSpec.AddRuleValid | src/backend/builder.rs:230-275 | a rule that compiles keeps the state valid: rule index = position, map entry `(a_left <= a_right, index)` |
| BackendSpec.AddFunctionValid | src/backend/builder.rs:390-425 | a net that compiles keeps the state valid, and the entry point names the unique `Main` |
| BackendSpec.AddRulesValid | src/backend/builder.rs:34-44 | adding all rules keeps the state valid and leaves the functions alone |
| BackendSpec.AddFunctionsValid | src/backend/builder.rs:34-44 | adding all nets keeps the state valid and leaves the rules alone |
| BackendSpec.AddFunctionMeta | src/backend/builder.rs:420-423 | each net adds metadata with its name and output count |
| BackendSpec.AddFunctionsNames | src/backend/builder.rs:390-425 | the metadata names are the nets' names in order |
| BackendSpec.ModuleNames | src/backend/builder.rs:34-44 | after a module, the state is valid with one metadata entry per net, in order |
| BackendSpec.BuildRuntimeValid | src/backend/builder.rs:47-67 | a built program is valid; its functions are the nets in order; the entry point is the one net named `Main` |
| BackendSpec.EntryPointMissing | src/backend/builder.rs:427-433 | building fails with "entry point not found" exactly when no net is named `Main` |
| BackendSpec.AddRuleHeadFails | src/backend/builder.rs:242-251 | when the head's agents clash, the rule is not added and the error is returned |
| BackendSpec.AddRuleBodyFails | src/backend/builder.rs:260-262 | when an equation fails, the rule is not added and the error is returned |
| BackendSpec.AddRuleSucceeds | src/backend/builder.rs:264-272 | a compiled rule is appended at index = position, with map entry `(left id, right id, index)` |
| BackendSpec.AddRulesErrSticky | src/backend/builder.rs:35-37 | adding rules stops at the first error |
| BackendSpec.AddFunctionsErrSticky | src/backend/builder.rs:38-41 | adding nets stops at the first error |
| BackendBuilder.RulesBuilder.constructor | src/backend/builder.rs:223-227 | no rules and an empty rule map |
| BackendBuilder.RulesBuilder.Rule | src/backend/builder.rs:230-275 | the table, rules, map and error are exactly those of `AddRule` |
| BackendBuilder.FunctionsBuilder.constructor | src/backend/builder.rs:374-379 | no functions, no metadata, no entry point |
| BackendBuilder.FunctionsBuilder.EntryPoint | src/backend/builder.rs:382-388 | a second entry point is the error "entry point already exists" and changes nothing; the first is recorded |
| BackendBuilder.FunctionsBuilder.Function | src/backend/builder.rs:390-425 | the table, functions, metadata, entry point and error are exactly those of `AddFunction` |
| BackendBuilder.RuntimeBuilder.constructor | src/backend/builder.rs:20-31 | the state starts empty with `$` in the table |
| BackendBuilder.RuntimeBuilder.Module | src/backend/builder.rs:34-44 | the state and error are exactly those of adding the module's rules, then its nets |
| BackendBuilder.RuntimeBuilder.Build | src/backend/builder.rs:47-60 | the result is exactly that of `Build` on the state |
| BackendBuilder.BuildRuntime | src/backend/builder.rs:63-67 | the result is exactly that of `BuildRuntime` on the module |
| Optimize.FindAgentInit | src/backend/optimize.rs:17-24 | the first `Agent` initializer with the given id, or none exactly when there is none |
| Optimize.FindFree | src/backend/optimize.rs:26-33 | the first `FreeLeft` (or `FreeRight`), or none exactly when there is none |
| Optimize.ReuseSideUnchanged | src/backend/optimize.rs:17-34 | a side leaves the rule unchanged exactly when the initializer or the free is missing |
| Optimize.ReuseSideApplied | src/backend/optimize.rs:17-39 | an applied side removes the first match and the first free, and appends a reuse of the same index; initializer count stays, instruction count drops by one |
| Optimize.ReuseSideOnce | src/backend/optimize.rs:35-37 | each side adds at most one reuse |
| Optimize.ReuseSideWf | src/backend/optimize.rs:17-64 | a side keeps a well-formed rule well formed |
| Optimize.OptimizeWf | src/backend/optimize.rs:6-10 | optimising a built program keeps it valid |
| Optimize.FindAgentInitializer | src/backend/optimize.rs:17-24 | the loop finds exactly the first matching initializer and its index |
| Optimize.FindFreeInstruction | src/backend/optimize.rs:26-33 | the loop finds exactly the first free of that side |
| Optimize.ApplySide | src/backend/optimize.rs:17-39 | one side applied is exactly `ReuseSide` |
| Optimize.OptimizeNewFree | src/backend/optimize.rs:13-65 | the left, then the right side, using the ids of `rule_map[rule.index]` |
| Optimize.Optimize | src/backend/optimize.rs:6-10 | every rule is optimised with its own map entry |
| RuntimeSpec.BuildBody | src/runtime/builder.rs:190-212 | initializers are arguments, then names, then agents, each indexed 0..; one instruction per body op, in order, with no free instructions |
| RuntimeSpec.BuildMatchesBackend | src/runtime/builder.rs:190-212 | the VM build equals the IR build without the final `FreeLeft`, `FreeRight` |
| RuntimeSpec.CompiledRuleWf | src/runtime/builder.rs:222-267 | every compiled rule is well formed for its two agents |
| RuntimeSpec.BuildRuntime | src/runtime/builder.rs:44-62 | building fails exactly when adding the module fails; `build` itself never fails |
| RuntimeSpec.InitialValid | src/runtime/builder.rs:69-75 | the empty builder state is valid with `$` at id 0 |
| RuntimeSpec.AddRuleValid | src/runtime/builder.rs:222-267 | a rule keeps the state valid: map entry `(min id, max id, index)` |
| RuntimeSpec.AddFunctionValid | src/runtime/builder.rs:280-304 | a net keeps the state valid |
| RuntimeSpec.AddRulesValid | src/runtime/builder.rs:31-41 | all rules keep the state valid and the functions unchanged |
| RuntimeSpec.AddFunctionsValid | src/runtime/builder.rs:31-41 | all nets keep the state valid |
| RuntimeSpec.AddFunctionAppends | src/runtime/builder.rs:288-302 | a net appends one function with its name and one output per interface |
| RuntimeSpec.AddFunctionsInOrder | src/runtime/builder.rs:280-304 | functions follow the nets in order, each with its name and output count |
| RuntimeSpec.BuildRuntimeValid | src/runtime/builder.rs:58-62 | a built program is valid and its functions are the nets in order |
| RuntimeSpec.AddRuleSucceeds | src/runtime/builder.rs:256-264 | a compiled rule is appended at index = position with map entry `(left id, right id, index)` |
| RuntimeSpec.AddRuleHeadFails | src/runtime/builder.rs:234-235 | when the head's agents clash, the rule is not added |
| RuntimeSpec.AddRuleBodyFails | src/runtime/builder.rs:252-254 | when an equation fails, the rule is not added |
| RuntimeSpec.AddRulesErrSticky | src/runtime/builder.rs:32-34 | adding rules stops at the first error |
| RuntimeBuilders.RulesBuilder.constructor | src/runtime/builder.rs:215-219 | no rules and an empty map |
| RuntimeBuilders.RulesBuilder.Rule | src/runtime/builder.rs:222-267 | the table, rules, map and error are exactly those of `AddRule` |
| RuntimeBuilders.FunctionsBuilder.constructor | src/runtime/builder.rs:274-277 | no functions |
| RuntimeBuilders.FunctionsBuilder.Function | src/runtime/builder.rs:280-304 | the table, functions and error are exactly those of `AddFunction` |
| RuntimeBuilders.RuntimeBuilder.constructor | src/runtime/builder.rs:17-28 | the state starts empty with `$` in the table |
| RuntimeBuilders.RuntimeBuilder.Module | src/runtime/builder.rs:31-41 | the state and error are exactly those of `AddModule` |
| RuntimeBuilders.RuntimeBuilder.Build | src/runtime/builder.rs:44-55 | the program is exactly `Build` of the state |
| RuntimeBuilders.BuildRuntime | src/runtime/builder.rs:58-62 | the result is exactly that of `BuildRuntime` on the module |
| LegacySpec.LocalTextRoundTrip | src/runtime.rs:344-373 | `x{i}`, `t{i}` and `a{i}` read back as the local they name |
| LegacySpec.LocalTextInjective | src/runtime.rs:344-373 | different locals name different C variables |
| LegacySpec.DeclaredLocalOf | src/runtime.rs:446-468 | a `size_t* v = …;` line reads back as declaring the local `v` names |
| LegacySpec.DeclarationLine | src/runtime.rs:446-468 | declaration line d declares argument `a{d}`, then name `x{d - args}`, then agent `t{d - args - names}` |
| LegacySpec.BodyDeclarations | src/runtime.rs:446-468 | every local a body may use is declared at its own line of the C function, and no variable is declared twice |
| LegacySpec.FunctionBuild | src/runtime.rs:430-482 | building a function fails with "signature is not given" exactly when it has no signature |
| LegacySpec.GlobalTextCount | src/runtime.rs:299-324 | the agent-table text starts with `AGENT_COUNT` equal to the number of agents |
| LegacySpec.GlobalTextArities | src/runtime.rs:299-324 | the `ARITY` list reads back entry by entry as the table's arities |
| LegacySpec.GlobalTextNames | src/runtime.rs:307-312 | when no name has a comma, the `AGENTS` list splits back into one quoted entry per agent, in id order, and each holds exactly that agent's name |
| LegacySpec.InitLinesSplit | src/runtime.rs:538-558 | the joined rule-table lines split back into exactly those lines |
| LegacySpec.Build | src/runtime.rs:221-264 | building fails with "interface is not given" exactly when no interface was set |
| LegacySpec.AddRuleValid | src/runtime.rs:492-536 | a rule keeps the table seeded and unique, and its recorded pair has a_left <= a_right |
| LegacySpec.AddRulesValid | src/runtime.rs:210-218 | all rules keep the state valid and leave `main` and the interface alone |
| LegacySpec.AddEquationsValid | src/runtime.rs:198-201 | net equations keep the state valid |
| LegacySpec.SetInterfaceValid | src/runtime.rs:204-207 | the interface keeps the state valid |
| LegacySpec.ProgramBuilds | src/runtime.rs:210-264 | a program that adds rules, then equations, then the interface builds without error |
| LegacySpec.AddRuleSucceeds | src/runtime.rs:492-536 | a compiled rule records `(min id, max id)` and appends its C function named after its position |
| LegacySpec.AddRuleHeadFails | src/runtime.rs:505-506 | when the head's agents clash, the rule is not added |
| LegacySpec.AddRuleBodyFails | src/runtime.rs:528-530 | when an equation fails, the rule is not added |
| LegacySpec.AddRulesErrSticky | src/runtime.rs:211-213 | adding rules stops at the first error |
| LegacyRuntime.FunctionBuilder.constructor | src/runtime.rs:327-336 | an empty function with no signature, prologue or epilogue |
| LegacyRuntime.FunctionBuilder.Argument | src/runtime.rs:339-342 | appends one argument and nothing else |
| LegacyRuntime.FunctionBuilder.AddOrGetName | src/runtime.rs:344-367 | `a{i}` for an argument name, `x{i}` for a body name, with the indices of `ResolveName` |
| LegacyRuntime.FunctionBuilder.AddTerm | src/runtime.rs:369-373 | `t{k}`, k being the number of terms before it |
| LegacyRuntime.FunctionBuilder.Term | src/runtime.rs:390-412 | the body, table and text result correspond exactly to `CompileTerm`, one `t[j] = (size_t) sub;` per slot |
| LegacyRuntime.FunctionBuilder.Children | src/runtime.rs:397-409 | the body, table and text result correspond exactly to `CompileChildren` |
| LegacyRuntime.FunctionBuilder.Equation | src/runtime.rs:414-428 | the body, table and error are exactly those of `CompileEquation` |
| LegacyRuntime.FunctionBuilder.Equations | src/runtime.rs:528-530 | the body, table and error are exactly those of `CompileEquations` |
| LegacyRuntime.FunctionBuilder.SetText | src/runtime.rs:375-388 | sets signature, prologue and epilogue and nothing else |
| LegacyRuntime.ArgumentLines | src/runtime.rs:521-526 | the head's parameters become arguments `left[k+1]` / `right[k+1]` |
| LegacyRuntime.RulesBuilder.constructor | src/runtime.rs:485-489 | no rules and no functions |
| LegacyRuntime.RulesBuilder.RuleFunction | src/runtime.rs:517-533 | the body equals compiling the equations from the rule's arguments, and the text is the rule's C function |
| LegacyRuntime.RulesBuilder.Rule | src/runtime.rs:492-536 | the table, pairs, functions and error are exactly those of `AddRule` |
| LegacyRuntime.RuntimeBuilder.constructor | src/runtime.rs:172-184 | the state starts empty with `$` in the table |
| LegacyRuntime.RuntimeBuilder.Rule | src/runtime.rs:192-195 | the state and error are exactly those of `AddRule` |
| LegacyRuntime.RuntimeBuilder.Interface | src/runtime.rs:204-207 | the state and error are exactly those of `SetInterface` |
| LegacyRuntime.RuntimeBuilder.Program | src/runtime.rs:210-218 | rules, then equations, then the interface, exactly as `AddProgram` |
| LegacyRuntime.RuntimeBuilder.Build | src/runtime.rs:221-264 | the text or error is exactly that of `Build` |
| VmSpec.NewAgentCell | src/runtime/vm.rs:116-120 | a new cell at the end of the heap holds the agent id and exactly `agents[id].arity` unset slots; nothing else changes |
| VmSpec.NewNameCell | src/runtime/vm.rs:122-125 | the counter is incremented first, and the new cell carries the new counter value |
| VmSpec.Push | src/runtime/vm.rs:127-133 | the equation is appended; the overflow flag is raised once the length exceeds the bound and is never cleared |
| VmSpec.Pop | src/runtime/vm.rs:135-137 | the last pushed equation is removed and returned; none exactly when the stack is empty |
| VmSpec.SlotOf | src/runtime/vm.rs:100-112 | slots are 1-based: index i is slot i-1 of an agent; index 0 on an agent is the subtract-overflow panic; non-agents have no slots |
| VmSpec.Prepared | src/runtime/vm.rs:311-315 | the vector only grows, to at least index + 1, with unset new entries |
| VmSpec.Store | src/runtime/vm.rs:311-315 | stores at the index after preparing it, and keeps every other entry |
| VmSpec.Get | src/runtime/vm.rs:317-323 | the entry of the local's vector, or the index panic exactly when it is out of bounds |
| VmSpec.ArgumentSlot | src/runtime/vm.rs:343-376 | `SlotFromLeft`/`SlotFromRight` fail when the argument is unset or the slot is absent, and otherwise store the slot's value |
| VmSpec.SetSlot | src/runtime/vm.rs:380-402 | succeeds exactly when the target is set, has the slot, and the value is set; an unset target or value gives its own error; on success only slot `slot` of the target cell changes, to the value |
| VmSpec.PushLocals | src/runtime/vm.rs:403-413 | succeeds exactly when both locals are set; an unset left or right local gives its own error; on success both values are pushed as one equation and the heap is unchanged |
| VmSpec.OrderedPair | src/runtime/vm.rs:246-250 | the two agents are swapped when needed so that the looked-up key has a <= b |
| VmSpec.Bind | src/runtime/vm.rs:276-288 | binding changes only the heap |
| VmSpec.Step | src/runtime/vm.rs:195-290 | one iteration keeps the heap closed and never removes a cell |
| VmSpec.Loop | src/runtime/vm.rs:195-290 | the loop ends only with an empty stack, after at most `fuel` reductions |
| VmSpec.RuleMapOf | src/runtime/vm.rs:47-51 | the map's keys are exactly the keys of the entries |
| VmFacts.PushPop | src/runtime/vm.rs:127-137 | the stack is LIFO: popping after a push returns that equation and the old stack |
| VmFacts.NewNameEvolves | src/runtime/vm.rs:122-125 | issued name ids stay distinct and between 1 and the counter |
| VmFacts.StepIndirectionLeft | src/runtime/vm.rs:219-222 | a `Ref(v)` on the left pushes `(v, rhs)` and nothing else changes |
| VmFacts.StepIndirectionRight | src/runtime/vm.rs:223-226 | otherwise, a `Ref(v)` on the right pushes `(lhs, v)` and nothing else changes |
| VmFacts.StepBinds | src/runtime/vm.rs:276-288 | a `Name` on the left becomes `Ref(rhs)`, otherwise a `Name` on the right becomes `Ref(lhs)`; no other cell changes |
| VmFacts.StepUnsetSide | src/runtime/vm.rs:197-202 | an unset side of the popped equation is an error |
| VmFacts.StepInteracts | src/runtime/vm.rs:228-274 | two agents are looked up under `(min id, max id)`; with a rule, its body runs with the smaller-id agent as left, and its error carries the rule index unless it is a panic, which passes unchanged; without a rule, the step fails |
| VmFacts.StepNoRule | src/runtime/vm.rs:252-270 | with no rule for the pair in either order, the step fails with the no-rule error |
| VmFacts.InteractOrientation | src/runtime/vm.rs:246-250 | swapping the two agents of an equation gives the same step |
| VmFacts.PrintFails | src/runtime/vm.rs:139-174 | printing can fail only on an unset reference |
| VmFacts.PrintSucceeds | src/runtime/vm.rs:139-174 | printing succeeds when every reference is set |
| VmFacts.StepEvolves | src/runtime/vm.rs:195-290 | a step only fills slots, binds names and appends cells; it never lowers the counter or clears the overflow flag |
| VmFacts.LoopEvolves | src/runtime/vm.rs:195-290 | the whole loop keeps that invariant |
| VmFacts.LoopStops | src/runtime/vm.rs:195 | an empty stack ends the loop with no reduction; a failing step fails the loop |
| VmFacts.LoopUnfold | src/runtime/vm.rs:195-290 | each pop counts one reduction |
| VmFacts.LoopFuel | src/runtime/vm.rs:195-290 | more fuel never changes a finished run |
| VmFacts.RuleMapLoads | src/runtime/vm.rs:47-51 | entries with distinct, in-range indices always load, and exactly the named rules are taken |
| VmFacts.RuleMapLastWins | src/runtime/vm.rs:47-51 | a later entry for a key replaces an earlier one |
| VmFacts.BuiltRulesLoad | src/runtime/vm.rs:47-51 | the compiler's rule map always loads, and each key holds the last rule built for it |
| Vm.Runtime.constructor | src/runtime/vm.rs:56-62 | no cells, no names issued, an empty stack, overflow cleared |
| Vm.Runtime.NewAgent | src/runtime/vm.rs:116-120 | the new state and pointer are exactly `NewAgentCell` |
| Vm.Runtime.NewName | src/runtime/vm.rs:122-125 | the new state and pointer are exactly `NewNameCell` |
| Vm.Runtime.PushEquation | src/runtime/vm.rs:127-133 | the new state is exactly `Push` |
| Vm.Runtime.PopEquation | src/runtime/vm.rs:135-137 | the equation and new state are exactly `Pop`; an empty stack is unchanged |
| Vm.Runtime.Print | src/runtime/vm.rs:139-174 | the text or error is exactly `Print` at the given depth |
| Vm.Runtime.PrintSlotList | src/runtime/vm.rs:146-161 | the slot loop gives exactly `PrintSlots` |
| Vm.StackFrame.constructor | src/runtime/vm.rs:79-81 | three empty vectors |
| Vm.StackFrame.Get | src/runtime/vm.rs:317-323 | exactly `Get` |
| Vm.StackFrame.Init | src/runtime/vm.rs:333-376 | one initializer changes the runtime and frame exactly as `ExecInit`, or reports its error |
| Vm.StackFrame.ArgumentInit | src/runtime/vm.rs:343-376 | exactly `ArgumentSlot` |
| Vm.StackFrame.Instr | src/runtime/vm.rs:378-415 | one instruction changes the runtime exactly as `ExecInstr`, or reports its error |
| Vm.StackFrame.Inits | src/runtime/vm.rs:333-376 | the initializer loop is exactly `ExecInits` |
| Vm.StackFrame.Instrs | src/runtime/vm.rs:378-415 | the instruction loop is exactly `ExecInstrs` |
| Vm.StackFrame.Execute | src/runtime/vm.rs:325-417 | initializers, then instructions, exactly as `Execute` |
| Vm.VM.constructor | src/runtime/vm.rs:39-68 | the rule map is exactly `RuleMapOf` the entries, and the runtime starts empty |
| Vm.VM.Reduce | src/runtime/vm.rs:218-289 | one popped equation is reduced exactly as `Reduce` |
| Vm.VM.Interact | src/runtime/vm.rs:228-274 | exactly `Interact` |
| Vm.VM.Step | src/runtime/vm.rs:196-289 | one loop iteration is exactly `Step` |
| Vm.VM.Loop | src/runtime/vm.rs:195-290 | the `while` loop gives exactly `Loop`: the final state and the reduction count |
| Vm.VM.Run | src/runtime/vm.rs:179-307 | `main` runs, then the loop, then the output is printed at depth 1000, exactly as `Run`; a `bail!` error in `main` is reported as in `main`, a panic unchanged |
| Utils.SplitLinesConcat | src/utils.rs:9 | the pieces of `split_inclusive('\n')` concatenate back to the source |
| Utils.SplitLinesAreLines | src/utils.rs:9 | each piece is non-empty and ends at its only line break, except possibly the last |
| Utils.LinesSpanOf | src/utils.rs:4-30 | the two loops compute exactly `LinesSpan` |
| Utils.LinesSpanNone | src/utils.rs:11-21 | no span exactly when the source has fewer than `line_end` lines |
| Utils.LinesSpanEnds | src/utils.rs:11-24 | start is the byte length of lines 1..line_start-1; end - start is the length of lines line_start..=line_end |
| Utils.LinesSpanRange | src/utils.rs:9-24 | start <= end <= source length, and the range covers exactly lines line_start..=line_end |
| Utils.LinesSpanColumns | src/utils.rs:16-29 | the columns are `(col_start - 1, lines_middle + col_end)`, and one line returns `col_end` unchanged |
| Utils.LinesSpanPanics | src/utils.rs:26 | `col_start = 0` is the subtract-overflow panic |

## Left out

- The parsers (`src/parser.rs`, `src/frontend/parser.rs`) and diagnostic rendering are not
  part of this model. `AstDecode` is a reader for the printed form only.
- The C and executable targets and the tinycc bindings are not modelled. The reduction they
  carry as C text is modelled by the VM. The `PRELUDE` and `RUNTIME` constants of
  `src/runtime.rs` are parameters of `LegacySpec.Build`.
- `runtime::ir` is not part of this model. Its shapes are inferred from how
  `src/runtime/builder.rs` and `src/runtime/vm.rs` use it.
- The source's two IR shapes disagree:
  - `src/runtime/vm.rs` reads `program.main` with one `output`;
  - `src/runtime/builder.rs` builds a list of `functions`.

  The model follows each file as written (`RuntimeIr.VmProgram` and `RuntimeIr.Program`).
- `src/runtime.rs`'s `program` reads a single `interface` term, while `src/ast.rs` has a list
  of interfaces. `LegacySpec.Program` follows `src/runtime.rs`.
- `ast::Module` and `ast::Net`, which the newer builders consume, are declared in the front
  end. Their shapes are taken from the builders.
- Timing, the `f64` reductions-per-second figure, coloured tracing, and the stack-overflow
  warning are not modelled: they are I/O and clocks. The `overflowed` flag itself is
  modelled.
- Printing to standard output: `Run` and `Build` return the text instead.
- `Rc`/`RefCell` identity: a cell is a position in the heap sequence, and cells are never
  freed.
- Rust panics are results, `Err(Panic(reason))`: index out of bounds, `unwrap` on `None`, and
  the debug build's subtract overflow (slot index 0, `col_start = 0`). A panic unwinds past the
  `map_err` around a rule body or `main`, so only `bail!` errors gain the rule or `main` context
  (`InRuleContext`, `InMainContext`).
- The `RefCell` borrow panic is not modelled. On the slot-not-found path of `SetSlot`
  (`src/runtime/vm.rs:384-397`), the target is printed while its `borrow_mut` is still held,
  and printing a target whose slots or reference lead back to its own cell would panic
  there. The model returns the slot-not-found error instead.
- `function_meta` is printed by `FunctionMetaToString` but never by `Display for Program`
  (`src/backend/mod.rs:298-339`), so the program text holds no function metadata.
- HashMap iteration order is not modelled. `Check.CheckAllTwice`'s error names some count
  that is not 2, not a particular one. So the variable-count error of `Check.CheckRule`,
  `Check.CheckLocal`, `Check.CheckProgram` and `Check.CheckProgramCorrected` is pinned
  only to some variable whose count is not 2 (`Check.CountError`).
- The rule and equation descriptions the IR builder stores (`src/backend/builder.rs:183`,
  `:231`) are printed with the `Display` of `crate::frontend::ast` (imported at
  `src/backend/builder.rs:5`). That front-end AST is not part of this model. The model
  assumes it prints as `src/ast.rs` does, through `Ast.RuleToString` and
  `Ast.EquationToString`.
- Characters stand for bytes: `lines_span` counts bytes, and ASCII text is assumed.
- Vm.VM.Loop: the `while` loop of `run` may not terminate. The model runs at most `fuel`
  iterations and returns `OutOfFuel` when they are spent.
- Vm.VM.Run: runs under the same fuel bound.
- Vm.Runtime.NewAgent: requires `id < |agents|`. The source panics on a larger id, which
  compiled programs never produce.
- Vm.VM.constructor: requires the rule map to load, because `VM::new` panics otherwise.
  `VmFacts.BuiltRulesLoad` proves that the compiler's output always loads.
- Optimize.OptimizeNewFree: requires `rule.index < |rule_map|`. The source panics otherwise,
  and `Optimize.OptimizeWf` shows that built programs satisfy it.
- Optimize.Optimize: rewrites rules as values rather than in place.
- LegacyRuntime.FunctionBuilder.Build and LegacyRuntime.RulesBuilder.Build are text
  functions, stated through `LegacySpec.FunctionBuild` and `LegacySpec.RulesText`.

## Findings

| source | as written | input that shows it | evidently intended | confidence | as-written member | corrected member |
|---|---|---|---|---|---|---|
| src/check.rs:84-97 | the conflict check keys rules by the ordered pair (left agent name, right agent name) | rules `A >> B` and `B >> A`: both pass the check, both builders file them under the same normalised key (min id, max id), and `VM::new` keeps only the later one | two rules for the same unordered agent pair are a conflict | not executed | Check.CheckConflict, Check.OrderedConflictMissesSwap, Check.CheckProgram, Check.ProgramAcceptsSwappedPair | Check.CheckConflictUnordered, Check.NoConflictIsStronger, Check.CheckProgramCorrected, Check.CorrectedProgramOk |
