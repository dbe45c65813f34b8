# A verified model of the compiler's exact parts

This Dafny project models the parts of the Solcore compiler whose answers have to be exact, and proves what they are
for. `dafny verify dfyconfig.toml` checks all of it.

* **Hull checker** (`hull_ir`, `hull_typing`, `hull_builtins`, `hull_asm_typing`, `scope_stack`, `hull_checker`). The
  checker as a class with in-place methods on its scope stacks, function table and diagnostics, proved to report exactly
  what a pure description over flattened scopes reports.
* **What the checker accepts and reports** (`hull_judgement`, `hull_acceptance`, `hull_asm_names`,
  `hull_asm_judgement`, `hull_asm_targets`, `hull_reports`, `hull_asm_reports`). Rules over the syntax, for programs and
  for inline assembly, that compute no type and collect no diagnostic: a program has no diagnostics exactly when they
  allow it. Further rules say of each diagnostic what gives rise to it: exactly these are reported.
* **What acceptance means** (`hull_eval`, `hull_types`, `hull_soundness`, `hull_program_types`, `hull_programs`,
  `hull_references`, `hull_return_count`). A program without diagnostics never goes wrong, for recursion, loops, nested
  sums, n-ary injections, object-scoped functions and the stores of assembly; exactly when two uses of a referenced name
  may be exchanged; what `return_count` counts, and exactly when equal types count alike.
* **Alias normaliser** (`alias_types`, `alias_normalizer`, `alias_theorems`, `alias_budget`). Budget, expansion stack
  and errors in place; without errors the result is the full expansion of the type, and the errors are exact, the
  exhausted budget included.
* **Word literals** (`word_literals`) and **Keccak-256** (`keccak_spec`, `keccak`, `keccak_padding`, `keccak_bit_spec`,
  `keccak_bits`). Limb and lane arrays in place against exact arithmetic, and against FIPS 202 on strings of bits:
  algorithms 1 to 6 of section 3.2, the sponge of section 4 and pad10*1 of section 5.1, without the SHA-3 suffix.
* **Generated contract code** (`product_encodings`, `dispatch_names`, `deployment_yul`, `deployment_run`). Encoders and
  decoders of right-nested products, injective generated names, and a run of the generated deployment Yul.
* **Hull printer** (`hull_printer`, `hull_reader`). A reader with its own keywords reads back the types and expressions
  that are printed.
* **Lexical scanners** (`lexical`, `lexical_grammar`, `import_edits`, `folding`, `folding_balance`). One automaton for
  how a text is read, proved against a grammar of strings and comments; the edit planner and the folding scan are proved
  against it.
* **Graph walks and identity tables** (`module_discovery`, `module_loading`, `anchor_tables`, `anchor_duplicates`).

## How the source is read

* Spans, interning and the wording of diagnostics are left out; a diagnostic is its kind and the values it names.
* In the evaluator, `Wrong` is what the checker has to rule out. Reading a variable that was never assigned, assigning
  to a component of a pair that was never assigned, a `match` without a matching arm, an assignment to what is no place,
  a malformed literal and a stray `break` or `continue` are `Trapped`: `crates/hull/src/check.rs` does not check them.
  That a component needs its pair to be assigned first is a choice of the evaluator. Builtins and assembly blocks are an
  arbitrary oracle: a builtin answers a word read at its result type or halts; an assembly block stores words, in any
  order, in variables that its text assigns, or halts. Storing in a variable that is not there, or not a word, is
  `Wrong`; that this does not happen follows from the checks of assembly (`AcceptedAssignsWords`).
* In inline assembly the checker gives the bodies of `if` and `switch` no scope for variables, so a variable declared in
  one hides the one around the block from the statements behind it. In Yul it does not: `{ if 1 { let b := 1 } b := 2 }`
  is accepted whatever the type of the outer `b`, and stores a word in it (`HidingBlockStores`). An accepted block
  assigns only word variables in Yul exactly when the variables hidden in this way are words (`YulAssignsWordsExactly`).
  The soundness theorems take the checker's scopes.
* A `for` body sees the variables that its `post` declares, as unassigned slots. That is what the checker's one scope
  allows and what the backend's hoisting gives (`crates/yul/src/translate/lower.rs:291-316`); with it, soundness needs
  no condition on `post`.
* A `NamedRef` means the definition of its name. The soundness theorems ask that all uses of a referenced name have the
  same values (`CoherentProgram`); `MatchingProgram` is a test for it on the types. The condition is exact for uses: for
  all first-order types that two uses of a name wrap, the checker accepts the program that turns one into the other
  through a reference, and both directions are sound exactly when the uses have the same values
  (`UsesAreExchangeableExactly`). `AmbiguousReferenceBreaksSoundness` is the instance that returns a word as a boolean.
* `type_eq` is reflexive exactly on types in which no name wraps a bare reference.
* `return_count` counts a reference as one, so equal types may count differently. Over given definitions it is invariant
  exactly when every definition that some matching type equals counts one (`ReturnCountInvariantExactly`), where a type
  matches when `type_eq` accepts each use of a defined name for its definition. A definition that no matching type
  equals, because an undefined name in it wraps a reference, does no harm. `ReflexiveDefsCount` is the case of
  definitions that equal themselves, where all of them have to count one.
* A body that ends in an assembly block counts as terminating when the block ends in a halting builtin, and the
  evaluator halts there because it takes the checker's word for it: the assembly case of `NeverFallsThrough` holds by
  construction. The checker looks at the last statement only, so it also accepts a block that leaves earlier by `leave`.
* The lexical automaton is how `scan_source` reads a text. The lexer (`crates/parser/src/lexer.rs:304-316`) also has
  backtick and `${...}` tokens in which quotes and comment marks do not count, and reads an unterminated string as one
  bad byte and then goes on in code. The model does not cover such texts, which the parser reports.
* `insert_after_declaration_line` ends a line comment at a carriage return, the language only at a line feed. The
  insertion is therefore safe exactly when no lone carriage return ends the trailing comment. Otherwise the declaration
  is lost in that comment, and a text behind it, which was part of the comment, is read as code (`TailIsKeptExactly`).
  `LoneReturnLosesTheDeclaration` is a text where every declaration is lost.
* The documentation of `DefLocationTable::from_def_locations` promises a panic for every duplicate. The code compares
  neighbours after sorting by hash only. Over a set of definitions the promise holds exactly when the hash is injective
  on it (`DuplicatesRefusedExactly`). For one list: it is refused in every sorted order exactly when some definition has
  more copies than half of its hash class, rounded up; it is accepted in every order exactly when its definitions are
  distinct; and in between the order decides (`AlwaysRefusedExactly`, `NeverRefusedExactly`).
* `sort_unstable_by_key` may leave entries of one hash in any order. The lookup lemmas hold for every sorted order; the
  method that builds the table sorts by insertion.
* Texts are their bytes, one character per byte. Directory trees, import graphs, hash functions, the Yul memory and the
  value of `memoryguard(128)` are parameters. Arithmetic of Yul words is modulo 2^256; memory does not run out.
* Loading a module is one step of the world: the check of its root, reading its file and making its URL, in that order,
  with the first error.
* `keccak_f1600` is split into one method for each of its phases, and the `^` and `& !` of lanes are the functions `Xor`
  and `AndOfNot`; `rotate_left` by n is n rotations by one.

## Model

| member | source | states |
|---|---|---|
| `HullPrograms.FunctionsNeverGoWrong` | crates/hull/src/check.rs:264-613 | for any builtins on words and any assembly checker that lets blocks assign to word variables only: when nothing is reported, no finite call of a top-level function on well-typed arguments meets an undefined name, a projection or match on the wrong shape, a bad call or a bad store, and every returned value has the declared type |
| `HullPrograms.ObjectFunctionsNeverGoWrong` | crates/hull/src/check.rs:307-363 | the same for the functions of every object at any depth, with the functions visible there |
| `HullPrograms.ObjectsNeverGoWrong` | crates/hull/src/check.rs:307-325 | the same for the code an object runs, which returns no value |
| `HullPrograms.CheckedProgramsNeverGoWrong` | crates/hull/src/check.rs:253-287 | when `check_program`, with or without a database, reports nothing, no function of the program or of its objects and no object code goes wrong on well-typed arguments, and results have their declared types |
| `HullPrograms.CheckAsmIsSafe` | crates/hull/src/check.rs:615-828 | the assembly checks of the source are such a checker |
| `HullAcceptance.ProgramExactly` | crates/hull/src/check.rs:253-613 | `check_program`, with or without a database, reports nothing exactly when the rules allow the program |
| `HullAcceptance.ObjectExactly` | crates/hull/src/check.rs:307-325 | the same for an object and the objects inside it |
| `HullAcceptance.FunctionExactly` | crates/hull/src/check.rs:326-363 | the same for a function: first-order signature, allowed body, and an end where the result takes a slot |
| `HullAcceptance.AllowedExactly` | crates/hull/src/check.rs:370-450 | the same for a statement in a scope |
| `HullAcceptance.TypedExactly` | crates/hull/src/check.rs:451-612 | an expression has a type by the rules exactly when that type is inferred without a report |
| `HullAcceptance.SameExactly` | crates/hull/src/check.rs:1182-1219 | `type_eq` is the relation of the rules: one name for two uses of it, and otherwise the same shape with names aside |
| `HullAcceptance.SummandsExactly` | crates/hull/src/check.rs:1124-1138 | `nth_sum_payload` is the summand of that number in the sum nested to the right |
| `HullAcceptance.LastStatementDecides` | crates/hull/src/check.rs:1221-1276 | whatever comes before, a body terminates exactly when its last statement ends the function by the rules |
| `HullAcceptance.RegisterExactly` | crates/hull/src/check.rs:289-306 | registration reports nothing exactly for new and different names, and then adds exactly these functions |
| `HullReports.ProgramReported` | crates/hull/src/check.rs:253-613 | every diagnostic with its payload: reported of a program, with or without a database, exactly when the rules have a place for it |
| `HullReports.RulesAgree` | crates/hull/src/check.rs:264-613 | the rules for acceptance and those for diagnostics agree: a program is allowed exactly when there is a place for no diagnostic |
| `HullReports.ObjectReported` | crates/hull/src/check.rs:307-325 | the same as for a program, for an object and the objects inside it |
| `HullReports.FunctionReported` | crates/hull/src/check.rs:326-363 | the same for a function |
| `HullReports.StmtReported` | crates/hull/src/check.rs:370-450 | the same for a statement: what is wrong in it, and what comes from its parts in their scopes |
| `HullReports.Reported` | crates/hull/src/check.rs:451-612 | the same for an expression: what is wrong in it, given the types its parts are taken to have after an error, and what comes from the parts that are looked at |
| `HullReports.RegisterReported` | crates/hull/src/check.rs:289-306 | registration reports exactly the names that are taken, and the last function of a name counts |
| `HullAsmReports.BlockReported` | crates/hull/src/check.rs:615-656 | the same for an assembly block: functions defined twice, and what comes from its statements |
| `HullAsmReports.StmtReported` | crates/hull/src/check.rs:658-778 | the same for an assembly statement |
| `HullAsmReports.ExprReported` | crates/hull/src/check.rs:780-878 | the same for an assembly expression: an unknown function takes and gives nothing, and with the right number of arguments each of them must be a word |
| `HullAsmJudgement.BlockExactly` | crates/hull/src/check.rs:615-656 | an assembly block is accepted exactly when the rules allow it: functions of the block different and visible throughout, statements in order |
| `HullAsmJudgement.StmtExactly` | crates/hull/src/check.rs:658-778 | the same for a statement: targets are visible words, counts of names and results agree, conditions are words, statements give nothing |
| `HullAsmJudgement.ExprExactly` | crates/hull/src/check.rs:780-828 | an expression gives so many words, or can stand for a word, exactly when the checker finds so and reports nothing |
| `HullAsmJudgement.LookupExactly` | crates/hull/src/check.rs:830-878 | what a name in assembly calls: `usr$` a Hull function, then builtins, assembly functions and Hull functions |
| `HullAsmTargets.AcceptedAssignsWords` | crates/hull/src/check.rs:681-714 | a block without diagnostics assigns only variables of word types of the scopes around it, in the scopes of the checker |
| `HullAsmTargets.YulAssignsWordsExactly` | crates/hull/src/check.rs:728-756 | in the scopes of Yul it does so exactly when the variables hidden by a `let` in the body of an `if` or `switch` are words |
| `HullAsmTargets.HidingBlockStores` | crates/hull/src/check.rs:728-732 | an accepted block that in Yul stores a word in an outer variable, whatever its type |
| `HullReferences.ExchangeAccepted` | crates/hull/src/check.rs:264-613 | for every name and all first-order types that two uses of it wrap, the program that takes a value of one use and returns it through a reference as the other has no diagnostics |
| `HullReferences.ExchangeIsSoundExactly` | crates/hull/src/check.rs:1182-1219 | that program never goes wrong exactly when every value of the one use is a value of the other |
| `HullReferences.UsesAreExchangeableExactly` | crates/hull/src/check.rs:1182-1219 | two uses of a referenced name are sound in both directions exactly when they have the same values |
| `HullReferences.CoherentUsesAgree` | crates/hull/src/check.rs:1182-1219 | a program that meets the soundness condition holds both uses only when they have the same values |
| `HullReferences.AmbiguousReferenceBreaksSoundness` | crates/hull/src/check.rs:1182-1219 | the instance of a word and a boolean: the accepted program returns the word 5 as a boolean, under every choice of definitions |
| `HullProgramTypes.MatchingProgramIsCoherent` | crates/hull/src/check.rs:1182-1219 | a test on the types: when `type_eq` accepts each use of a defined name for its definition, the soundness condition holds |
| `HullPrograms.RefFreeProgramsNeverGoWrong` | crates/hull/src/check.rs:253-287 | a program without references that `check_program` accepts never goes wrong, under no condition at all |
| `HullPrograms.RefFreeCoherent` | crates/hull/src/ir.rs:272-290 | types without references meet the soundness condition with no definitions at all |
| `HullPrograms.ProgramCodeOk` | crates/hull/src/check.rs:264-306 | registration without a duplicate gives exactly the functions that calls find, each of them checked |
| `HullSoundness.ExprSound` | crates/hull/src/check.rs:451-612 | a checked expression evaluates to a value of its inferred type or stops without going wrong |
| `HullSoundness.StmtSound` | crates/hull/src/check.rs:370-430 | a checked statement keeps the declared types of all enclosing scopes and returns only values of the return type |
| `HullSoundness.LoopSound` | crates/hull/src/check.rs:389-407 | iterating body and post keeps the loop's scope well typed for any number of rounds |
| `HullSoundness.AltSound` | crates/hull/src/check.rs:431-450 | the arm that a value matches binds a payload of the type the checker gave the binder |
| `HullSoundness.FunctionSound` | crates/hull/src/check.rs:326-363 | a checked function called on values of its parameter types returns a value of its result type, recursion included |
| `HullSoundness.ProjectTyped` | crates/hull/src/check.rs:1124-1138 | the payload that an n-ary pattern takes out of a nested sum has the type `nth_sum_payload` gives |
| `HullSoundness.InjectTyped` | crates/hull/src/check.rs:1124-1138 | an n-ary injection of a payload of that type is a value of the sum |
| `HullSoundness.NeverFallsThrough` | crates/hull/src/check.rs:1221-1276 | a body that `body_terminates` accepts never ends by falling through |
| `HullTypes.TypeEqSound` | crates/hull/src/check.rs:1182-1219 | equal types have the same values when each use of a referenced name has the values of its definition |
| `HullTypes.TypeEqSymmetric` | crates/hull/src/check.rs:1182-1219 | `type_eq` is symmetric, references included |
| `HullTypes.TypeEqIsErasedEquality` | crates/hull/src/check.rs:1182-1219 | without references `type_eq` is equality of the types with names removed, hence an equivalence |
| `HullTypes.TypeEqReflexive` | crates/hull/src/check.rs:1182-1219 | a type equals itself exactly when no name in it wraps a bare reference |
| `HullReturnCount.ReturnCountInvariantExactly` | crates/hull/src/check.rs:1158-1219 | over given definitions, equal matching types count the same exactly when every definition that can be matched counts one |
| `HullReturnCount.ReturnCountIsWidest` | crates/hull/src/check.rs:1158-1176 | without references and functions, `return_count` is the largest number of slots that a value of the type takes |
| `HullReturnCount.MatchableExactly` | crates/hull/src/check.rs:1182-1219 | the syntactic test for it: a definition can be matched exactly when some matching type equals it |
| `HullReturnCount.ReflexiveDefsCount` | crates/hull/src/check.rs:1158-1219 | for definitions that equal themselves: exactly when all of them count one |
| `HullReturnCount.ReturnCountInvariant` | crates/hull/src/check.rs:1158-1168 | without references, equal types count the same number of results |
| `HullReturnCount.ReturnCountSeesReferences` | crates/hull/src/check.rs:1158-1168 | two equal types that count differently |
| `HullTypes.HasTypeStrip` | crates/hull/src/ir.rs:272-277 | `strip_named` keeps the values of a type |
| `HullChecker.CheckProgramInner` | crates/hull/src/check.rs:253-287 | the in-place checker reports exactly the diagnostics of the pure description, for every program |
| `HullChecker.NthSumPayloadLoop` | crates/hull/src/check.rs:1124-1138 | the loop over variables finds the same payload type as the recursive description |
| `HullChecker.Env.InferExprIn` | crates/hull/src/check.rs:465-612 | type and diagnostics are those of the description for the flattened scopes; no scope changes |
| `HullChecker.Env.CheckStmtIn` | crates/hull/src/check.rs:370-430 | diagnostics and the variables declared in the top scope are those of the description; the scopes below are untouched |
| `HullChecker.Env.CheckForIn` | crates/hull/src/check.rs:389-407 | init, cond, post and body are checked in that order in one scope, which is gone afterwards |
| `HullChecker.Env.CheckAltIn` | crates/hull/src/check.rs:431-450 | an arm is checked in a scope with its binder, which is gone afterwards |
| `HullChecker.Env.CheckFunctionIn` | crates/hull/src/check.rs:326-363 | the diagnostics of one function, with scopes and the expected return type restored |
| `HullChecker.Env.CheckObjectIn` | crates/hull/src/check.rs:307-325 | the functions of an object are visible in its own code only, and `funs` is restored before its inner objects |
| `HullChecker.Env.CheckAsmStmtIn` | crates/hull/src/check.rs:658-778 | diagnostics, variables and assembly functions after an assembly statement are those of the description |
| `HullChecker.Env.PredeclareIn` | crates/hull/src/check.rs:628-656 | assembly functions of a block are declared before its statements, duplicates reported |
| `ScopeStacks.Find` | crates/hull/src/check.rs:904-909 | searching outwards finds what the flattened scopes hold |
| `ScopeStacks.ScopeStack.Push` | crates/hull/src/scope_stack.rs:18-20 | the stack grows by one scope and is never empty |
| `ScopeStacks.ScopeStack.Pop` | crates/hull/src/scope_stack.rs:22-24 | the last scope comes off |
| `ScopeStacks.ScopeStack.SetLast` | crates/hull/src/scope_stack.rs:26-28 | only the last scope changes |
| `AliasTheorems.NormalizationPreservesMeaning` | crates/hir-ty/src/alias.rs:217-333 | with no error the value is the full expansion of the type, holds no resolvable alias, and normalising it again changes and reports nothing |
| `AliasTypes.SubstitutionCommutes` | crates/hir-ty/src/alias.rs:96-131 | substituting arguments into an alias body and then expanding is expanding the body with the expanded arguments bound |
| `AliasTheorems.ErrorsAreExact` | crates/hir-ty/src/alias.rs:300-333 | unless the budget ran out, there is no error exactly when every alias reached is applied to the right number of arguments and is not defined through itself |
| `AliasTheorems.ErrorsHaveWitnesses` | crates/hir-ty/src/alias.rs:300-354 | each `Cycle` names an alias that the type reaches and that has a path back to itself; each `Arity` names an application to that many arguments, in the type or in the body of an alias it reaches; the limit is reported at most once, at most 16384 nodes are used and the expansion stack is empty again |
| `AliasTheorems.ErrorsAreWitnessed` | crates/hir-ty/src/alias.rs:217-333 | the same for every step below that type, from any state of the stack and the budget |
| `AliasBudget.BudgetSufficesExactly` | crates/hir-ty/src/alias.rs:335-354 | for a type that can be expanded, the limit is reported exactly when its cost is more than 16384, and otherwise the cost is what was spent |
| `AliasBudget.CleanExactly` | crates/hir-ty/src/alias.rs:217-354 | no error is reported exactly when every alias reached is rightly applied and not recursive and the cost is within the budget |
| `AliasBudget.NormalizeTyAliases` | crates/hir-ty/src/alias.rs:366-379 | run in place on a fresh normaliser: free of errors exactly when every alias reached is rightly applied and not recursive and the budget suffices, and then the value is the full expansion |
| `AliasBudget.CostOfSubstitution` | crates/hir-ty/src/alias.rs:96-131 | normalising a body with arguments put in costs what the body costs with the arguments as environment |
| `AliasTheorems.ResultFitsBudget` | crates/hir-ty/src/alias.rs:335-343 | the size of an error-free result is at most the budget spent, so it can be normalised again |
| `AliasTheorems.NormalIsFixed` | crates/hir-ty/src/alias.rs:217-256 | a type without resolvable aliases that fits the budget is normalised to itself |
| `AliasTheorems.ModuleErrorsAreExact` | crates/hir-ty/src/alias.rs:412-440 | without an exhausted budget a module has no alias error exactly when all its declarations are fine and none is recursive |
| `AliasTheorems.ModuleErrorsAreWitnessed` | crates/hir-ty/src/alias.rs:412-440 | every error of a module has such a witness in one of its declarations |
| `AliasTheorems.ModuleIsCleanExactly` | crates/hir-ty/src/alias.rs:412-440 | deduplication neither loses nor invents an error |
| `AliasTheorems.DedupErrors` | crates/hir-ty/src/alias.rs:607-617 | every error once, in the order of their first occurrences |
| `AliasTheorems.TypeAliasNormalizationErrors` | crates/hir-ty/src/alias.rs:412-440 | the loop over declarations, which stops at the first exhausted budget, gives the deduplicated errors of the module |
| `AliasNormalizers.Normalize` | crates/hir-ty/src/alias.rs:217-256 | every run keeps the expansion stack, only adds errors, never gains budget, and reports the limit exactly when it first runs out |
| `AliasNormalizers.AliasNormalizer.NormalizeTy` | crates/hir-ty/src/alias.rs:217-256 | the in-place normaliser leaves exactly the state and the value of the state function, for recursive aliases too |
| `AliasNormalizers.AliasNormalizer.ExpandAliasCtor` | crates/hir-ty/src/alias.rs:300-333 | cycle, arity and expansion as in the state function; the stack stays without duplicates and is restored |
| `AliasNormalizers.AliasNormalizer.ConsumeNode` | crates/hir-ty/src/alias.rs:335-343 | one node is taken, or the limit reported |
| `WordLiterals.ParseWordLiteral` | crates/hull/src/word.rs:42-74 | for every string: the limbs hold its value modulo 2^256, `overflow` is set exactly when the value is at least 2^256, and exactly the malformed strings are errors |
| `WordLiterals.LiteralValueExactly` | crates/hull/src/word.rs:42-74 | a literal has the value that its digits denote by their places, in either case, behind `0x` or `0X` to the base 16 |
| `WordLiterals.RefusedExactly` | crates/hull/src/word.rs:42-62 | a literal is refused exactly when it denotes nothing, with the error of its kind |
| `WordLiterals.Word256.MulAddSmall` | crates/hull/src/word.rs:77-87 | limbs and carry of a multiply-and-add in place |
| `WordLiterals.MulAddValue` | crates/hull/src/word.rs:77-87 | result limbs plus carry are the exact product and sum |
| `WordLiterals.DigitStep` | crates/hull/src/word.rs:77-87 | one digit keeps the limbs congruent to the value read so far, and the carry tells whether it left the range |
| `WordLiterals.DivRemSmall` | crates/hull/src/word.rs:104-112 | limbs and remainder of a division in place |
| `WordLiterals.DivRemValue` | crates/hull/src/word.rs:104-112 | quotient and remainder are exact |
| `WordLiterals.Word256.ToDecimalString` | crates/hull/src/word.rs:89-101 | the decimal spelling of the value |
| `WordLiterals.DecimalRoundTrip` | crates/hull/src/word.rs:89-101 | the decimal spelling denotes its number |
| `WordLiterals.DecimalIsUnique` | crates/hull/src/word.rs:89-101 | it is the only spelling without leading zeros that does |
| `WordLiterals.CanonicalWordLiteral` | crates/hull/src/word.rs:38-40 | the decimal spelling of the value modulo 2^256, or the parse error |
| `WordLiterals.CanonicalAgreesOnResidues` | crates/hull/src/word.rs:38-40 | two literals have one canonical form exactly when they are congruent modulo 2^256 |
| `WordLiterals.WrapWordLiteral` | crates/hull/src/word.rs:28-36 | a literal in range keeps its spelling, others become the decimal of their residue |
| `WordLiterals.WrapIsIdempotent` | crates/hull/src/word.rs:28-36 | wrapping keeps the residue and wrapping again changes nothing |
| `Keccak.KeccakF1600` | crates/hir/src/keccak.rs:67-102 | for every state, the array ends as 24 rounds of iota after chi after pi after rho after theta |
| `Keccak.ApplyTheta` | crates/hir/src/keccak.rs:69-82 | the in-place theta is the step mapping of section 3.2.1 |
| `Keccak.ApplyRhoPi` | crates/hir/src/keccak.rs:84-91 | the fused loop stores pi after rotation by the offsets |
| `Keccak.DestinationIsBijective` | crates/hir/src/keccak.rs:84-91 | the fused index map hits every lane exactly once, and what it undoes |
| `Keccak.ApplyChi` | crates/hir/src/keccak.rs:93-98 | the in-place chi is the step mapping of section 3.2.4 |
| `Keccak.RotationOffsetsAreGenerated` | crates/hir/src/keccak.rs:33-35 | the offset table is what algorithm 2 of section 3.2.2 generates |
| `Keccak.RoundConstantsAreGenerated` | crates/hir/src/keccak.rs:6-31 | the constant table is what the shift register of algorithms 5 and 6 generates |
| `Keccak.AbsorbBlock` | crates/hir/src/keccak.rs:61-65 | the first 17 lanes take the little-endian lanes of the block, the others stay |
| `Keccak.Keccak256` | crates/hir/src/keccak.rs:38-59 | for every input, absorbing block by block and padding the rest is the sponge over the whole padded message, on lanes and on bits |
| `KeccakBits.HashOnBits` | crates/hir/src/keccak.rs:38-102 | for every message, the bits of the hash are the hash of its bits: rate 1088, pad10*1, 24 rounds of algorithms 1 to 6, 256 bits of output |
| `KeccakBits.StepMappingsOnBits` | crates/hir/src/keccak.rs:67-102 | theta, rho, pi, chi and iota on lanes are the algorithms of section 3.2 on the bit string of section 3.1, in boolean operations |
| `KeccakBits.PackedBit` | crates/hir/src/keccak.rs:61-65 | bit j of byte k of a block is bit 8k + j of its lane |
| `Keccak.LastBlock` | crates/hir/src/keccak.rs:46-50 | the remainder in a zeroed block with the two flipped bits is the remainder padded |
| `KeccakPadding.PadIsPad10Star1` | crates/hir/src/keccak.rs:46-50 | as bits, the padding is pad10*1 of section 5.1 to the rate of 1088 |
| `KeccakPadding.PaddingIsInjective` | crates/hir/src/keccak.rs:46-50 | no two messages pad to the same blocks |
| `KeccakPadding.LaneRoundTrip` | crates/hir/src/keccak.rs:54-64 | reading a lane byte by byte undoes the packing of its bytes |
| `DeploymentRun.ArgumentsArrive` | crates/hir-ty/src/prepare.rs:756-859 | for code that is the deployer followed by any bytes, setup and copy leave exactly those bytes behind their length at the free pointer, the free pointer just past them, and the rest of memory as it was |
| `DeploymentRun.PrologueRuns` | crates/hir-ty/src/prepare.rs:620-630 | how setup, the refusal of value and the copy end for every code length and call value: reverts exactly on truncated code or refused value |
| `DeploymentRun.SetupRuns` | crates/hir-ty/src/prepare.rs:827-859 | setup stores the free pointer and reverts with no data exactly when the code is shorter than the deployer |
| `DeploymentRun.NonpayableRuns` | crates/hir-ty/src/prepare.rs:861-885 | value sent is refused with the four bytes of the selector, otherwise nothing changes |
| `DeploymentRun.ArgumentSizeRead` | crates/hir-ty/src/prepare.rs:762-769 | the subtraction yields the true argument size: it cannot underflow once setup has passed |
| `DeploymentRun.RuntimeIsReturned` | crates/hir-ty/src/prepare.rs:887-924 | the runtime object is returned byte for byte |
| `ProductEncodings.CtorFieldsRoundTrip` | crates/hir-ty/src/lower.rs:422-428 | a constructor of any number of fields gets back exactly its fields |
| `ProductEncodings.CtorParams` | crates/hir-ty/src/lower.rs:422-428 | for none, one or several fields: exactly the list of that many types whose product the fields are |
| `ProductEncodings.FieldsRoundTrip` | crates/hir-ty/src/lower.rs:752-811 | two or more fields are read back from their product, a last field that is itself a product included |
| `ProductEncodings.OneFieldFlattened` | crates/hir-ty/src/lower.rs:752-779 | a single field survives the flattening exactly when it is neither a tuple nor unit, which is why one field is not flattened |
| `ProductEncodings.TupleParamsInPlace` | crates/hir-ty/src/lower.rs:752-779 | the vector that is split and pushed to is the list of parameters |
| `ProductEncodings.PushProductTailParams` | crates/hir-ty/src/lower.rs:800-811 | the heads along the tail are appended, and what ends it |
| `ProductEncodings.ShapeRoundTrip` | crates/hir-ty/src/desugar.rs:97-163 | a list goes into a shape and back with its length and under any map |
| `ProductEncodings.CanonicalRoundTrip` | crates/hir-ty/src/desugar.rs:97-143 | exactly the shapes in which no unit ends a pair come back from their elements |
| `ProductEncodings.EncodersAgree` | crates/hir-ty/src/prepare.rs:1502-1562 | nested generated types and expressions, flat generated patterns and shapes stand for the same product |
| `ProductEncodings.LoweredEncodersAgree` | crates/hir-ty/src/lower.rs:263-266 | lowering the nested or the flat syntax of a list of types gives their product |
| `ProductEncodings.PatternsDestructure` | crates/hir-ty/src/prepare.rs:645-662 | the generated pattern binds exactly the constructor arguments, in order, products among them included |
| `DispatchNames.NameRoundTrip` | crates/hir-ty/src/prepare.rs:168-180 | a generated name, read by its prefix, its last underscores and the lengths, gives back the two names, for all byte strings |
| `DispatchNames.SpellingIsReadable` | crates/hir-ty/src/prepare.rs:168-180 | the readable spelling stands in front, and is all of the name exactly without underscores in the two names |
| `DispatchNames.NameTypeNameIsInjective` | crates/hir-ty/src/prepare.rs:168-180 | two pairs of byte strings with one generated name are the same pair |
| `DispatchNames.DispatchNameTypes` | crates/hir-ty/src/prepare.rs:1050-1060 | one name for each method name of a contract, in order of first use |
| `Sequences.FirstUsesAreInOrder` | crates/hir-ty/src/prepare.rs:1050-1060 | keeping each element where it comes first leaves them in the order of their first uses |
| `DispatchNames.ModuleNamesAreDistinct` | crates/hir-ty/src/prepare.rs:1050-1060 | with distinct contract names no two generated names of a module are the same |
| `HullReader.TypeRoundTrip` | crates/hull/src/pretty.rs:252-266 | the text of a type, read by a reader with its own keywords and operators, gives back the type |
| `HullReader.ExpressionRoundTrip` | crates/hull/src/pretty.rs:268-305 | the text of an expression gives back the expression without its annotations |
| `HullReader.TyIsRead` | crates/hull/src/pretty.rs:252-266 | the same in front of whatever the printer puts behind a type, which is left to be read |
| `HullReader.ExprIsRead` | crates/hull/src/pretty.rs:268-305 | the same for expressions |
| `HullReader.TypesAreUniquelyReadable` | crates/hull/src/pretty.rs:252-266 | two types with the same text are the same type |
| `HullReader.ExpressionsAreUniquelyReadable` | crates/hull/src/pretty.rs:268-305 | two expressions with the same text differ in annotated types at most |
| `LexicalGrammar.TokensAreRead` | crates/lsp/src/folding.rs:106-180 | a text of string literals with escapes, line comments, nested block comments and other bytes is read from code to code, and just the other bytes and the opening marks are read in code |
| `ImportEdits.SkipLineComment` | crates/lsp/src/import_edits.rs:505-510 | the first line break or the end |
| `ImportEdits.SkipBlockComment` | crates/lsp/src/import_edits.rs:512-536 | the end of the nested comment as the language reads it; nothing exactly when it stays open or none starts |
| `ImportEdits.SafeEndOfLine` | crates/lsp/src/import_edits.rs:462-495 | only blanks and comments lie between the declaration and the answer, and the answer is where they stop |
| `ImportEdits.LineEndIsUnique` | crates/lsp/src/import_edits.rs:462-495 | that leaves one answer |
| `ImportEdits.InsertAfterDeclarationLine` | crates/lsp/src/import_edits.rs:426-453 | the edit for that answer, or none for a bad offset |
| `ImportEdits.InsertedText` | crates/lsp/src/import_edits.rs:426-453 | the whole new text for each kind of answer; at the end of the file no line ending follows the declaration |
| `ImportEdits.NoEditExactly` | crates/lsp/src/import_edits.rs:426-453 | there is no edit exactly for an open block comment and for a place of 2^32 or beyond |
| `ImportEdits.PreferredLineEnding` | crates/lsp/src/import_edits.rs:496-503 | the ending of the first line that has one |
| `ImportEdits.DeclarationStartsInCode` | crates/lsp/src/import_edits.rs:426-495 | the inserted declaration starts in code exactly when no lone carriage return ends the trailing comment |
| `ImportEdits.HeadIsKept` | crates/lsp/src/import_edits.rs:426-453 | every byte before the insertion stays and reads as before |
| `ImportEdits.DeclarationIsRead` | crates/lsp/src/import_edits.rs:426-453 | the declaration is read as on its own |
| `ImportEdits.TailIsKept` | crates/lsp/src/import_edits.rs:426-453 | every byte behind the insertion stays and reads as before |
| `ImportEdits.TailIsLost` | crates/lsp/src/import_edits.rs:426-453 | behind a one-line declaration that a lone carriage return puts into a comment, the rest of the text does not read as before |
| `ImportEdits.TailIsKeptExactly` | crates/lsp/src/import_edits.rs:426-495 | the text behind a one-line declaration reads as before exactly when no lone carriage return ends the trailing comment |
| `ImportEdits.PairedReturnsAreNotLone` | crates/lsp/src/import_edits.rs:477-486 | in a text whose carriage returns all precede a line feed, none ends a comment alone |
| `ImportEdits.LoneReturnLosesTheDeclaration` | crates/lsp/src/import_edits.rs:477-486 | a text in which every declaration is inserted inside a line comment |
| `ImportEdits.PlainTextIsClosed` | crates/lsp/src/import_edits.rs:372-383 | a declaration without quotes and slashes starts and ends in code |
| `Folding.ScanSource` | crates/lsp/src/folding.rs:106-180 | the delimiter pairs of the text, and all its line and block comments in order |
| `Folding.PairingIsSound` | crates/lsp/src/folding.rs:147-175 | pairs are nested or disjoint, of matching delimiters, opened and closed in code; no opening delimiter is lost |
| `Folding.InsideIsPaired` | crates/lsp/src/folding.rs:147-175 | inside a pair every opening delimiter is paired inside it |
| `FoldingBalance.PairsAllExactly` | crates/lsp/src/folding.rs:147-175 | every delimiter in code, opening or closing, is an end of a pair exactly when the delimiters in code are balanced by the grammar |
| `FoldingBalance.AllPairedMeans` | crates/lsp/src/folding.rs:147-175 | that is, no opening delimiter is left over and no closing one was dropped |
| `Folding.BlockEndsAgree` | crates/lsp/src/folding.rs:131-146 | block comments end where `skip_block_comment` ends them, open ones at the end of the text |
| `Folding.SkipBlock` | crates/lsp/src/folding.rs:131-146 | past the nested comment, with no byte of it read as code |
| `Folding.SkipString` | crates/lsp/src/folding.rs:114-123 | past the string literal, escapes included |
| `ModuleDiscovery.Collector.Collect` | crates/driver/src/paths.rs:115-152 | the walk ends, records what the function of the directory graph says, and restores `ancestors` on every way out |
| `ModuleDiscovery.FoundExactly` | crates/driver/src/paths.rs:115-152 | a file or stem is recorded exactly when a chain of directories without a repeated physical one leads to it |
| `ModuleDiscovery.OwnItemsExactly` | crates/driver/src/paths.rs:136-148 | a directory entry makes an item exactly when it is called `stem.sol` with a stem: its stem always, its path when it is a file |
| `ModuleDiscovery.OrderDoesNotMatter` | crates/driver/src/paths.rs:121-123 | the order of directory listings changes nothing |
| `ModuleDiscovery.ModuleFsSnapshot` | crates/driver/src/paths.rs:94-113 | an item is recorded exactly when a chain of directories without repeat leads to it from one of the roots |
| `ModuleLoading.Database.LoadReachableModules` | crates/driver/src/modules.rs:14-109 | on success every module reached is loaded, nothing else was added, each was expanded once; on failure a reference of a reached module does not load; cycles end |
| `ModuleLoading.Database.Expand` | crates/driver/src/modules.rs:36-99 | the references of a module are loaded and queued in order, or the first that fails is reported |
| `ModuleLoading.VisitedIsAll` | crates/driver/src/modules.rs:24-31 | when the queue is empty everything reachable was visited |
| `AnchorTables.AllocationsAreDistinct` | crates/hir/src/anchor.rs:294-340 | all allocations of a run are distinct exactly when no key is used more than 2^32 times |
| `AnchorTables.KeyCanonicalizer.AllocDef` | crates/hir/src/anchor.rs:294-340 | the ordinal is the saturated number of earlier uses of the same key |
| `AnchorTables.FromDefLocations` | crates/hir/src/anchor.rs:193-216 | a sorted permutation of the entries without equal neighbours, or a refusal with a witness |
| `AnchorTables.ResolveDefLocation` | crates/hir/src/anchor.rs:223-240 | the binary search misses no entry of the definition |
| `AnchorTables.TableAgreesWithList` | crates/hir/src/anchor.rs:193-240 | for distinct definitions and any hash function the table answers like the list |
| `AnchorDuplicates.DuplicatesRefusedExactly` | crates/hir/src/anchor.rs:188-211 | the documented promise: every list with a duplicate over a set of definitions is refused in every order exactly when the hash is injective on the set |
| `AnchorDuplicates.AlwaysRefusedExactly` | crates/hir/src/anchor.rs:202-211 | a list is refused in every order exactly when some definition has more copies than half of its hash class, rounded up |
| `AnchorDuplicates.NeverRefusedExactly` | crates/hir/src/anchor.rs:202-211 | a list is accepted in every order exactly when its definitions are distinct |
| `AnchorDuplicates.Arrange` | crates/hir/src/anchor.rs:202-211 | where no definition has too many copies, a sorted order without equal neighbours |
| `AnchorTables.RefusedExactly` | crates/hir/src/anchor.rs:204-211 | in any order, distinct definitions are not refused, and without collisions among its definitions a list with a duplicate is |
| `AnchorTables.CollisionHidesDuplicate` | crates/hir/src/anchor.rs:204-211 | under any hash, two definitions that collide can hide a duplicate of one around the other |

## Left out

- The values that inline assembly computes: it is a step that stores arbitrary words in the variables it assigns, or
  halts. Its checks are modelled in full, `if` and `switch` bodies without a scope of their own included.
- HullChecker.CheckProgramInner: the order of the diagnostics, and how often one comes, is described by `HullTyping`
  alone; the rules of `HullReports` say which there are.
- Patterns, statements and objects of the Hull printer, and `write_stmt_inline`, which prints several statements as `{}`
  and so cannot be read back.
- `normalize_pred`, `normalize_qual_ty` and `normalize_scheme`, which map `normalize_ty` over their parts.
- `matching_selector_close` and `contains_only_trivia`: loops over the comment skippers that add nothing hard.
- The grouping of line comments into folds, and every use of the line index.
- Gas, and memory near the end of the 2^256 address space: the deployment theorems ask that the code and its arguments
  end before it.
- The rest of contract preparation: fallbacks, ABI types, overlays and cloned bodies.
- ModuleLoading.Database.LoadReachableModules: takes a finite set of module keys closed under references, since a run
  over infinitely many modules would not end.
- ModuleDiscovery.Collector.Collect: the entries and identities of directories do not change during the walk.
- AnchorTables.FromDefLocations: a panic is the answer `None`.
- HullSoundness.NeverFallsThrough: says nothing of its own about assembly blocks, which halt in the evaluator wherever
  `asm_block_terminates` says so; the semantics of inline assembly is not part of this model.
- Interning, incremental recomputation, spans, diagnostic texts, argument parsing and file, process and network input
  and output.
- The parser, name resolution, type inference, specialisation and the Yul and Sonatina backends.
