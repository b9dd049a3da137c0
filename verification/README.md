# Verification model of the multi-satellite mission executor

A Dafny 4.11 model of the mission engine: the two expression interpreters, behaviour-tree
execution over a three-scope variable store, template instantiation, the message codec with its
framing and priority queue, and the coordinator's batch/ACK protocol and node registry. Every
routine that works by updating state is a method or a class with fields, proved equal to a
function on values; the properties are then proved about those functions, for all inputs, all
runs and all reachable states. `dafny verify dfyconfig.toml` checks everything.

| file | what it models |
|---|---|
| `Wrappers`, `Text` | options and results (the C++ exceptions); character classes, trimming, the decimal and hexadecimal numerals `strtod` reads, `std::to_string` of integers, `std::map` key order |
| `NumericExpression`, `Numerals`, `NumericGrammar` | the arithmetic interpreter with its cursor; the numerals; its grammar, soundness and completeness |
| `Tokens`, `TokenPrinting`, `Constraints`, `ConditionGrammar`, `Comparisons`, `Lookahead`, `ConditionRewriting` | the condition tokenizer and interpreter; spelling, grammar, what comparisons mean, lookahead, rewriting |
| `Values`, `Variables` | variable values and typed comparison; scopes and snapshots |
| `Behavior`, `Templates`, `Instantiation`, `Idempotence` | behaviour trees and `${...}` instantiation; the instantiated node at every path; when instantiating twice is instantiating once |
| `ValueExpressions`, `CalculatedValues` | value expressions, and what they are worth by the form of their text |
| `Execution`, `Commands`, `NodeOutcomes`, `GenericExecutor` | trees, commands and tasks; what each command and each node does; the executor object |
| `ControlFlow`, `Flattening`, `ExpressionRewriting`, `TaskProperties`, `ValueInvariants`, `KnownValues`, `PlainRuns`, `ReadSets`, `Assignments`, `Mailbox` | control nodes as chains of runs; flattening; replacing the expressions of a tree; atomicity, the frame of global writes, initial stores; invariants of all values in a run (no default-constructed value; no infinity); what expressions read; ASSIGN; SEND and RECEIVE |
| `WireCodec`, `Framing`, `MessageQueue`, `InterSatComm` | header codec, length-prefixed frames over a chunked stream, the bounded priority queue, sending |
| `NodeRegistry`, `BatchProtocol`, `SatelliteSimulator`, `MissionRuns` | alias registry; dispatch, satellite answers, ACKs in any order, timeout and tally; a satellite's cache and batch loop over its executor; the protocol with executing satellites |

The C++ library calls on numbers (`stoi`, `stod`, `strtod`, arithmetic on doubles, `sqrt`,
rounding, `to_string`) are fields of the record `Values.Library`, and the arithmetic interpreter
is generic in its numbers: each theorem holds whatever these calls return. Messages of results
and exceptions are data instead of texts. The cancel flag is a countdown (`fuse`) that raises it
before any chosen look; the shared mailbox receives arbitrary packets from other executors
between two accesses (`feed`).

Doubles are finite reals, the two infinities and NaN. Differences in the comparison of two
numbers are exact.

Properties that turned out false of the code, each with an input that defeats it and the exact
condition under which it holds, as an if-and-only-if:

| property | defeated by | holds exactly when |
|---|---|---|
| of two numbers, exactly one of `<`, `==`, `>` holds | `Values.EqualAndLess` | `Values.NumericTrichotomy` |
| negating a comparison is comparing with the opposite operator | `ConditionRewriting.UnplainDefeatsNnf` | `Values.ComplementNegates` for two values, `ConditionRewriting.ComparingComplement` in a condition |
| negation normal form keeps the value of every condition | `ConditionRewriting.UnplainDefeatsNnf` | `ConditionRewriting.PlainIsExact`, on texts `ConditionRewriting.PlainNamesIsExact` |
| ASSIGN is a simultaneous assignment | `Assignments.LaterKeyReadsNewValue` | `Assignments.SimultaneousIffUnaffected` |
| a snapshot id restores the scopes of its creation | `Variables.SnapshotOverwritten` | `Variables.SnapshotBoundIsExact` |
| instantiating twice is instantiating once | `Idempotence.EmptyValueReopens` | `Idempotence.IdempotentIffStable`, `Idempotence.InstantiateTwice` |
| flattening a tree changes no run | `Flattening.RaisedFlagTellsApart` | `Flattening.ConstantFlagIsExact` |
| messages of one priority leave in the order in which they were accepted | `MessageQueues.TiesMayOvertake` | `MessageQueues.ArrivalOrderIsExact` |
| every live node is found under its own id | `NodeRegistries.BorrowedIdHidesANode`, `NodeRegistries.BorrowedSatelliteIdDoubles` | `NodeRegistries.RegisteredKeepsConsistent` |
| the shutdown loop empties the registry | `NodeRegistries.BorrowedIdHidesANode` | `NodeRegistries.EmptiedUnlessBorrowedBefore` |
| a satellite that ran all its tasks with success is counted | `BatchProtocol.LateSuccessIsNotCounted` | `BatchProtocol.ReportIsExact`, `MissionRuns.CountedMeansExecuted` |

Where the code and its documentation disagree, the model follows the code:

- `docs/src-code-introduction-word.md:302` lists `!` as negation; the tokenizer makes it an
  operator, and a condition that starts with it always fails (`ConditionGrammar.BangIsRejected`).
- `demo.txt:85-88` computes `dx`, `dy`, `dz` and then `dist` from them; ASSIGN walks its
  parameters in key order, so `dist` is evaluated first (`Assignments.LaterKeyReadsNewValue`
  and `Assignments.SimultaneousIffUnaffected` say what then holds).

## Model

| member | source | states |
|---|---|---|
| NumericExpression.NumericExpressionParser.Run | src/executor/generic_executor.cpp:104-112 | `parse` returns the value, or throws the error, of the specification on the text and store |
| NumericExpression.NumericExpressionParser.SkipBlanks | src/executor/generic_executor.cpp:119-124 | the cursor stops at the first non-blank |
| NumericExpression.NumericExpressionParser.Consume | src/executor/generic_executor.cpp:126-133 | eats the expected character behind blanks, or only the blanks |
| NumericExpression.NumericExpressionParser.ParseIdentifier | src/executor/generic_executor.cpp:135-151 | reads the longest identifier |
| NumericExpression.NumericExpressionParser.ParseNumber | src/executor/generic_executor.cpp:153-163 | reads the longest numeral |
| Numerals.NumeralMeans | src/executor/generic_executor.cpp:153-163 | the numerals are digits with or without a point and with or without an exponent, and the hexadecimal ones |
| Numerals.LongestNumeral | src/executor/generic_executor.cpp:153-163 | the longest one at the head of a text is read |
| NumericExpression.NumericExpressionParser.ParseFactor | src/executor/generic_executor.cpp:191-232 | signs, parentheses, numerals, variables and calls; terminates because the cursor advances |
| NumericExpression.NumericExpressionParser.ParseNamed | src/executor/generic_executor.cpp:214-229 | `sqrt` calls, unknown functions, variables |
| NumericExpression.NumericExpressionParser.ParseTerm | src/executor/generic_executor.cpp:234-250 | the product loop, with the division-by-zero error |
| NumericExpression.NumericExpressionParser.ParseExpression | src/executor/generic_executor.cpp:252-264 | the sum loop |
| NumericGrammar.ParseComplete | src/executor/generic_executor.cpp:99-265 | every text of the grammar, with any blanks and redundant parentheses, evaluates to its tree's left-associative, precedence-respecting value, or throws exactly that tree's error |
| NumericGrammar.ParseSound | src/executor/generic_executor.cpp:99-265 | every accepted text is in the grammar and is worth its tree |
| NumericGrammar.ParseDecidesTheGrammar | src/executor/generic_executor.cpp:99-265 | `parse` returns v exactly on the texts of trees worth v |
| NumericGrammar.MinimalInGrammar | src/executor/generic_executor.cpp:191-264 | printing with the fewest parentheses stays in the grammar and keeps the tree |
| NumericGrammar.MinimalTextEvaluates | src/executor/generic_executor.cpp:191-264 | precedence and left association: the minimally parenthesized text evaluates as the tree it was printed from |
| Text.CharacterClasses | src/executor/generic_executor.cpp:119-151 | blanks, digits and the characters of identifiers are those of the C locale |
| Text.Trim | src/constraint/evaluator.cpp:294-300 | the two index loops and `substr` remove exactly the outer blanks |
| Tokens.Tokenize | src/constraint/evaluator.cpp:40-128 | the index loop, with i strictly increasing, yields the tokens of the trimmed text and END |
| Tokens.LexNumberAt | src/constraint/evaluator.cpp:70-78 | an optional minus sign, digits and points |
| Tokens.LexWordAt | src/constraint/evaluator.cpp:103-123 | the longest word; keywords in three spellings |
| Tokens.LexSymbolAt | src/constraint/evaluator.cpp:79-124 | two-character operators before one-character ones; `!` is an operator; other characters are skipped |
| TokenPrinting.TokenizeUndoesPrint | src/constraint/evaluator.cpp:40-128 | tokenizing a printed token list, with any blanks between tokens, returns the list and exactly one END |
| TokenPrinting.TokenizeWords | src/constraint/evaluator.cpp:40-128 | the same however each token is written: `and`, `AND` and `&&`, the words for true and false, either quote |
| TokenPrinting.ScanPrintable | src/constraint/evaluator.cpp:40-128 | every token of every text has a spelling, so END stands only at the end |
| TokenPrinting.ScanIgnoresTrimming | src/constraint/evaluator.cpp:42-49 | trimming first makes no difference |
| Constraints.ConstraintEvaluator.Evaluate | src/constraint/evaluator.cpp:6-8 | only the verdict of `evaluateDetailed` |
| Constraints.ConstraintEvaluator.EvaluateDetailed | src/constraint/evaluator.cpp:10-38 | empty text, verdict and message; exceptions become a failed verdict |
| Constraints.ConstraintEvaluator.ParseExpression | src/constraint/evaluator.cpp:130-142 | OR without short-circuit, cursor by reference |
| Constraints.ConstraintEvaluator.ParseAndExpression | src/constraint/evaluator.cpp:144-152 | AND without short-circuit |
| Constraints.ConstraintEvaluator.ParseNotExpression | src/constraint/evaluator.cpp:154-164 | prefix NOT |
| Constraints.ConstraintEvaluator.ParsePrimary | src/constraint/evaluator.cpp:166-228 | parentheses, numbers, identifiers, errors |
| Constraints.ConstraintEvaluator.ParseNamed | src/constraint/evaluator.cpp:185-226 | comparison or truth value of a variable, with the order of the errors |
| ConditionGrammar.EvaluatePrinted | src/constraint/evaluator.cpp:10-38 | a printed condition evaluates to its strict denotation: true exactly when every leaf is defined and the tree is true |
| ConditionGrammar.EvaluateWritten | src/constraint/evaluator.cpp:10-128 | the same for a condition whose tokens are written in any of their spellings |
| Comparisons.NumbersCompare | src/constraint/evaluator.cpp:185-288 | on the text: `x op y` over numbers is satisfied exactly when the left one stands in that relation to the right one, the tolerance for equality, infinities and NaN included; y may be a variable, a number or a word for true or false |
| Comparisons.TextsCompare | src/constraint/evaluator.cpp:185-275 | the same over texts, in their lexical order, if one side is a text and neither a BOOL; numbers count as their decimal texts |
| Comparisons.TruthsCompare | src/constraint/evaluator.cpp:185-263 | the same over truths, false before true, if one side is a BOOL |
| Comparisons.VariablesCompare | src/constraint/evaluator.cpp:185-288 | `x < y` over variables with finite numbers a and b is satisfied exactly when a < b, and so for the other five operators |
| Comparisons.UnknownComparesWithNothing | src/constraint/evaluator.cpp:276-288 | UNKNOWN beside a number satisfies no operator |
| Comparisons.MissingSide | src/constraint/evaluator.cpp:205-218 | a missing variable is an error; the right side is looked up first |
| Comparisons.FlagMeans | src/constraint/evaluator.cpp:220-224 | a variable alone is satisfied when true, an INT other than zero or a non-empty text; DOUBLE is an error |
| Comparisons.NumberMeans | src/constraint/evaluator.cpp:181-184 | a number alone is false exactly when written `0`, `0.0` or as a word for false |
| Comparisons.StrLessMeans | src/constraint/evaluator.cpp:264-275 | the lexical order: the first differing character decides, a proper beginning is less |
| ConditionGrammar.EvaluateMinimal | src/constraint/evaluator.cpp:130-228 | OR weaker than AND weaker than NOT: the minimally parenthesized text of any tree evaluates to the tree's denotation |
| ConditionGrammar.EvaluateDecides | src/constraint/evaluator.cpp:10-38 | a text is satisfied exactly when its tokens begin with a true condition of the grammar that the rest does not extend; the rest is ignored |
| ConditionGrammar.OneTokenLookahead | src/constraint/evaluator.cpp:130-228 | a success depends only on the tokens consumed and one token of lookahead |
| Lookahead.OrDepends | src/constraint/evaluator.cpp:130-228 | any result, value or error, depends only on the tokens looked at: after an error nothing behind the token that caused it matters, after a success at most one token behind those consumed |
| ConditionGrammar.OrSound | src/constraint/evaluator.cpp:134-228 | what is consumed is the token list of a condition with that value |
| ConditionGrammar.OrComplete | src/constraint/evaluator.cpp:134-228 | a condition of the grammar is consumed whole, with its value or its first error |
| ConditionGrammar.BangIsRejected | src/constraint/evaluator.cpp:98-114 | a condition that starts with `!` fails, whatever follows |
| ConditionRewriting.ComparingComplement | src/constraint/evaluator.cpp:230-288 | a comparison in a condition may be replaced by its opposite exactly when, if both sides have values, the operator or its opposite holds of them |
| ConditionRewriting.PlainIsTurnable | src/constraint/evaluator.cpp:230-288 | over INT, finite DOUBLE, BOOL and STRING values all comparisons have opposites |
| ConditionRewriting.NnfDenotes | src/constraint/evaluator.cpp:134-160 | negation normal form keeps the value and the reported error if the comparisons it turns round have opposites |
| ConditionRewriting.UnplainDefeatsNnf | src/constraint/evaluator.cpp:278-284 | an infinite, NaN or UNKNOWN variable: `not (x == x)` holds and its normal form `x != x` does not |
| ConditionRewriting.PlainIsExact | src/constraint/evaluator.cpp:134-288 | normal form keeps value and error of all conditions with operands exactly in the stores of INT, finite DOUBLE, BOOL and STRING values |
| ConditionRewriting.PlainNamesIsExact | src/constraint/evaluator.cpp:10-288 | `evaluate` cannot tell any condition's text from its normal form's exactly when the variables that a text can name have such values |
| ConditionRewriting.NnfEvaluates | src/constraint/evaluator.cpp:134-288 | `evaluate` cannot tell a condition's text from that of its negation normal form, even when a leaf fails |
| ConditionRewriting.RearrangedEvaluates | src/constraint/evaluator.cpp:134-152 | exchanging operands of connectives anywhere is invisible to `evaluate` |
| Values.ComplementNegates | src/constraint/evaluator.cpp:230-288 | negating a comparison is the complementary comparison exactly when one of the two holds, for all values, infinities and NaN included |
| Values.EqualAndLess | src/constraint/evaluator.cpp:278-281 | `==` and `<` can both hold: the tolerance breaks trichotomy |
| Values.NumericTrichotomy | src/constraint/evaluator.cpp:278-284 | trichotomy holds exactly when the numbers are the same finite one or at least the tolerance apart; infinities and NaN included |
| Values.ConvertParamMeans | src/executor/variable_manager.cpp:35-72 | a parameter is INT exactly when `stoi` used all of its text, else DOUBLE when `stod` did, else BOOL for the words for true and false, else a text |
| Values.FractionIsDouble | src/executor/variable_manager.cpp:41-60 | 12.75 is not INT 12 |
| Variables.ScopesHide | src/executor/variable_manager.cpp:5-30 | LOCAL hides INTERMEDIATE hides GLOBAL, and setting a variable changes how no other is seen |
| Variables.VariableManager.SetVariable | src/executor/variable_manager.cpp:5-8 | one binding of one scope changes |
| Variables.VariableManager.Clear | src/executor/variable_manager.cpp:31-34 | one scope becomes empty |
| Variables.VariableManager.SetFromParams | src/executor/variable_manager.cpp:35-72 | the loop overlays the converted parameters on one scope |
| Variables.VariableManager.TakeSnapshot | src/executor/variable_manager.cpp:98-108 | stores the three scopes under a new id |
| Variables.VariableManager.RestoreSnapshot | src/executor/variable_manager.cpp:109-120 | brings the three scopes back, or fails for an unknown id |
| Variables.SnapshotIdInjective | src/executor/variable_manager.cpp:145-149 | different counters give different ids |
| Variables.SnapshotRestores | src/executor/variable_manager.cpp:98-120 | an id restores the scopes of its creation, whatever sets, clears, snapshots and restores happened since, for fewer than 2^32 snapshots |
| Variables.SnapshotBoundIsExact | src/executor/variable_manager.cpp:98-149 | it does so after all histories with n later snapshots exactly when n is below 2^32 |
| Variables.SnapshotOverwritten | src/executor/variable_manager.cpp:98-149 | after any larger number the counter has wrapped: the id restores the scopes as they were when the number of later snapshots last reached a multiple of 2^32 |
| Templates.ReplaceVariables | src/parser/behavior_parser.cpp:5-24 | the in-place loop terminates (text length minus position) and equals a one-pass substitution that never rescans inserted values |
| Templates.RewrittenIsSubstitute | src/parser/behavior_parser.cpp:5-24 | every intermediate text of the loop completes to that substitution |
| Templates.BuildTemplateParams | src/parser/behavior_parser.cpp:26-48 | precedence init < constant < task parameter |
| Templates.MergeInto | src/parser/behavior_parser.cpp:32-45 | a merge loop in key order is the union |
| Templates.ExpandNode | src/parser/behavior_parser.cpp:50-75 | node by node: parameters, command, expression, the default of an observing condition, children in order |
| Templates.Instantiate | src/parser/behavior_parser.cpp:79-91 | one expanded tree with the merged parameters |
| Instantiation.InstantiatedAt | src/parser/behavior_parser.cpp:26-91 | at every path of the instantiated tree stands the definition's node with each parameter, the command and the expression replaced in one pass, `true` for exactly the observing Conditions left empty, and everything else unchanged |
| Instantiation.ParameterTakesValue | src/parser/behavior_parser.cpp:5-57 | a parameter `${k}` becomes the task's parameter, else the root's constant, else its initial value, else stays |
| CalculatedValues.CalculationMeans | src/executor/generic_executor.cpp:584-591 | the text of an arithmetic tree is worth the tree's number in the library's arithmetic: near an integer that INT, otherwise the DOUBLE, or the tree's first error |
| CalculatedValues.InfixMeans | src/executor/generic_executor.cpp:165-189 | `x - y` over INT, DOUBLE and BOOL variables is the library's difference of their numbers, and so for `+`, `*` and `/` |
| CalculatedValues.ComparisonIsBool | src/executor/generic_executor.cpp:570-572 | `x < y` over variables with finite numbers is the BOOL a < b, and so for the other operators |
| CalculatedValues.LiteralMeans | src/executor/generic_executor.cpp:574-582 | a literal without point and exponent is INT, any other DOUBLE |
| CalculatedValues.QuotedMeans | src/executor/generic_executor.cpp:553-557 | a quoted text is the text between its quotes |
| CalculatedValues.TruthWordMeans | src/executor/generic_executor.cpp:559-564 | the words for true and false |
| CalculatedValues.VariableMeans | src/executor/generic_executor.cpp:566-568 | a variable's name is worth its value, whatever else the text could mean |
| CalculatedValues.ConditionMeans | src/executor/generic_executor.cpp:570-572 | any other text with a sign of comparison is worth its condition's verdict |
| CalculatedValues.PlainTextMeans | src/executor/generic_executor.cpp:593 | a text of none of these forms is itself |
| Templates.SubstituteKnown | src/parser/behavior_parser.cpp:14-18 | a known template becomes its value, which is not rescanned |
| Idempotence.IdempotentIffStable | src/parser/behavior_parser.cpp:5-24 | unless a changed name nests a changed template, substitution is idempotent on all texts exactly when no template changes, or every value of a name without `}` is non-empty and closes every template that it, or a dollar in front of it, opens |
| Idempotence.NoOpeningClosesClean | src/parser/behavior_parser.cpp:5-24 | names without `${` nest no template |
| Idempotence.NestedNameSpares | src/parser/behavior_parser.cpp:5-24 | with a changed name that nests a changed template the condition is not necessary |
| Idempotence.SubstituteTwice | src/parser/behavior_parser.cpp:5-24 | that condition suffices whatever the names |
| Idempotence.InertIsStable | src/parser/behavior_parser.cpp:5-24 | non-empty values free of `$`, `{` and `}` meet it |
| Idempotence.InstantiateTwice | src/parser/behavior_parser.cpp:26-91 | the same for whole trees: instantiating every definition with these declarations twice is instantiating it once exactly under that condition on the merged parameters |
| Idempotence.EmptyValueReopens | src/parser/behavior_parser.cpp:14-18 | an empty value breaks idempotence: the text around it closes up to a new template |
| NodeOutcomes.ObservationsShow | src/executor/generic_executor.cpp:509-545 | every observed name gets in LOCAL its sensor's value in the store before: the sensor's own, else its alias's, else what the name held, else the sensor's default; nothing else changes |
| NodeOutcomes.CancelledNode | src/executor/generic_executor.cpp:600-602 | a cancelled node fails under its own name and changes nothing |
| NodeOutcomes.BlockedNode | src/executor/generic_executor.cpp:606-618 | a node of any kind whose precondition does not hold fails with the reason behind its observations; neither children nor command run |
| NodeOutcomes.ConditionNode | src/executor/generic_executor.cpp:668-681 | a Condition succeeds exactly when it has an expression that is satisfied in the observed store; otherwise the failing node is itself |
| NodeOutcomes.RunningNode | src/executor/generic_executor.cpp:620-660 | a node whose precondition holds runs what its kind says; world, failure and exception are handed on, and after a success each parameter is put out under the node's name and no longer under its own |
| Commands.SaysInAnyCase | src/executor/generic_executor.cpp:756 | a command is named in any case, between any blanks |
| Commands.AssignMeans | src/executor/generic_executor.cpp:762-769 | the command `ASSIGN`, in any case and between blanks, evaluates all parameters in key order, each in a store that has the values of the keys before in LOCAL; it puts them all out or throws the first error |
| Commands.MoveMeans | src/executor/generic_executor.cpp:771-791 | `MOVE_TO` does so for those of x, y, z it has, into LOCAL and, as POS_X, POS_Y, POS_Z, into GLOBAL |
| Commands.SendMeans | src/executor/generic_executor.cpp:793-806 | `SEND` changes no variable and posts the values when it has them all |
| Commands.ReceiveMeans | src/executor/generic_executor.cpp:808-844 | `RECEIVE` reads the mailbox once, stores the packet's value or the value of its own expression in LOCAL, and notes whether there was a packet |
| Commands.EmitMeans | src/executor/generic_executor.cpp:846-853 | `EMIT_COMMAND` stores into INTERMEDIATE only |
| Commands.ReportMeans | src/executor/generic_executor.cpp:860-868 | `REPORT_TARGET` sets `target_reported` and `reported_k` for every key k in GLOBAL |
| Commands.NextTaskMeans | src/executor/generic_executor.cpp:855-858 | `NEXT_TASK` sets LOCAL `next_task`, and nothing else |
| Commands.ExitMeans | src/executor/generic_executor.cpp:870-873 | `EXIT` sets GLOBAL `mission_exit`, and nothing else |
| Commands.NoOpMeans | src/executor/generic_executor.cpp:758-760 | `NO_OP` changes nothing |
| Commands.SetvarMeans | src/executor/generic_executor.cpp:875-887 | SETVAR stores its expression's value in GLOBAL under its trimmed name, or fails without a name |
| Commands.SetvarMalformedMeans | src/executor/generic_executor.cpp:875-889 | without an equals sign behind the sixth place it fails and changes nothing |
| Commands.UnsupportedMeans | src/executor/generic_executor.cpp:891 | any other command fails and changes nothing |
| GenericExecutor.Executor.EvaluateValueExpression | src/executor/generic_executor.cpp:547-594 | quoted texts, booleans, variables, comparisons, literals, arithmetic, plain texts, in this order |
| GenericExecutor.Executor.ApplyObservationValues | src/executor/generic_executor.cpp:509-545 | sensor, alias, own variable, default; in key order, each seeing the ones before |
| GenericExecutor.Executor.ExecuteCommand | src/executor/generic_executor.cpp:738-747 | the empty command succeeds |
| GenericExecutor.Executor.ExecuteBuiltinCommand | src/executor/generic_executor.cpp:749-892 | the eleven verbs with their scopes, outputs and errors |
| GenericExecutor.Executor.RunParams | src/executor/generic_executor.cpp:762-806 | the parameter loops of ASSIGN, SEND, EMIT_COMMAND and REPORT_TARGET |
| GenericExecutor.Executor.MoveTo | src/executor/generic_executor.cpp:771-791 | MOVE_TO writes x, y, z to LOCAL and the position sensors to GLOBAL |
| GenericExecutor.Executor.Receive | src/executor/generic_executor.cpp:808-844 | RECEIVE reads the mailbox once, falls back to the expressions, sets `result_to` |
| GenericExecutor.Executor.SetGlobal | src/executor/generic_executor.cpp:875-889 | SETVAR and its two failures |
| GenericExecutor.Executor.AppendNodeParamsToOutputs | src/executor/generic_executor.cpp:267-281 | outputs of a node qualified by its name |
| GenericExecutor.Executor.ExecuteNode | src/executor/generic_executor.cpp:596-660 | cancellation, observations, precondition, dispatch, qualified outputs |
| GenericExecutor.Executor.ExecuteCondition | src/executor/generic_executor.cpp:668-681 | missing, true and false expressions |
| GenericExecutor.Executor.ExecuteSequence | src/executor/generic_executor.cpp:683-695 | stops at the first failure, merges outputs |
| GenericExecutor.Executor.ExecuteSelector | src/executor/generic_executor.cpp:697-710 | first success; failed branches are not undone |
| GenericExecutor.Executor.ExecuteParallel | src/executor/generic_executor.cpp:712-736 | all children one after another; the first failing node is reported |
| GenericExecutor.Executor.InitializeTaskContext | src/executor/generic_executor.cpp:484-495 | empties the task scopes, writes the three context keys and the parameters |
| GenericExecutor.Executor.InitializeBehaviorDefaults | src/executor/generic_executor.cpp:497-507 | inits, constants, then children |
| GenericExecutor.Executor.PrepareTask | src/executor/generic_executor.cpp:433-443 | context, snapshot, defaults, parameters again |
| GenericExecutor.Executor.RunRootNode | src/executor/generic_executor.cpp:445-465 | cancellation before the root, then the root |
| GenericExecutor.Executor.Settle | src/executor/generic_executor.cpp:451-468 | the verdict of a task behind its root's run, with the rollback |
| GenericExecutor.Executor.ExecuteTask | src/executor/generic_executor.cpp:423-482 | the whole task: failures rolled back when enabled, exceptions always, task scopes emptied |
| ControlFlow.SequenceRuns | src/executor/generic_executor.cpp:683-695 | the runs of the children in order, each in the world its predecessor left, up to the first that fails or throws, which is returned unchanged; success exactly if all succeed, with merged outputs |
| ControlFlow.SelectorRuns | src/executor/generic_executor.cpp:697-710 | the same up to the first that succeeds or throws; failure exactly if all fail |
| ControlFlow.ParallelRuns | src/executor/generic_executor.cpp:712-736 | all children run once, in order, whatever fails; only an exception stops it; the first failing child is named |
| ControlFlow.FirstFailedIffSomeFails | src/executor/generic_executor.cpp:722-735 | a name is reported exactly when some child failed |
| ValueInvariants.NodeKeeps | src/executor/generic_executor.cpp:596-892 | a property of all values around a tree, kept by the value expressions of its commands, holds of all values after any node, its outputs included |
| ValueInvariants.TaskKeeps | src/executor/generic_executor.cpp:423-507 | the same through a whole task whose declarations and parameters convert to such values |
| KnownValues.NodeKnown | src/executor/generic_executor.cpp:596-892 | no default-constructed value enters a store, a packet or the outputs through any node |
| KnownValues.TaskKnown | src/executor/generic_executor.cpp:423-507 | nor through a whole task |
| Mailbox.SendPostsValues | src/executor/generic_executor.cpp:793-806 | SEND posts one packet with every expression's value in the store before it |
| Mailbox.SendThrowsUntouched | src/executor/generic_executor.cpp:793-806 | or throws, and then has changed nothing |
| Mailbox.SentIsReceived | src/executor/generic_executor.cpp:793-844 | a RECEIVE of sent keys, by any executor that finds the packet, stores and outputs the sender's values and changes no other variable |
| TaskProperties.FailedTaskIsAtomic | src/executor/generic_executor.cpp:423-495 | with rollback, however a task fails, GLOBAL ends as it began apart from the three context keys, LOCAL and INTERMEDIATE end empty |
| TaskProperties.FinalStore | src/executor/generic_executor.cpp:451-471 | the store every task leaves: GLOBAL is what the tree made of it after a success, and after a failure without rollback; otherwise, after an exception always, it is as before plus the three context keys; the mailbox is never rolled back |
| TaskProperties.InitialScopes | src/executor/generic_executor.cpp:433-443 | the root starts with the task's three ids in GLOBAL and an empty INTERMEDIATE |
| TaskProperties.OneSnapshot | src/executor/generic_executor.cpp:433-434 | every task takes one snapshot, of the store with its context, and leaves all others |
| TaskProperties.ResultMeans | src/executor/generic_executor.cpp:445-468 | a task's result: its root's, one look at the cancel flag later, with an exception turned into a failure; or the cancellation before the root |
| TaskProperties.NodeOutside | src/executor/generic_executor.cpp:596-892 | no node writes GLOBAL outside the fixed frame and the SETVAR targets of its tree |
| TaskProperties.TaskWritesInsideFrame | src/executor/generic_executor.cpp:484-892 | a task changes GLOBAL only at the context keys, POS_X/Y/Z, target_reported, mission_exit, keys starting with reported_, and the SETVAR targets of the expanded tree |
| TaskProperties.InitialLocal | src/executor/generic_executor.cpp:437-507 | LOCAL at the root: task parameter, else the last declaration in tree order, converted |
| TaskProperties.InitialStoreAgreesWithTemplate | src/parser/behavior_parser.cpp:26-48 | what `${k}` was replaced by is what LOCAL holds for k, exactly unless a descendant redeclares k with a different value |
| Flattening.FlattenedNodeRunsAlike | src/executor/generic_executor.cpp:596-736 | under a constant cancel flag, dissolving Sequences in Sequences and Selectors in Selectors anywhere keeps result, outputs, message, exception, variables and mailbox |
| Flattening.FlattenedTaskRunsAlike | src/executor/generic_executor.cpp:423-736 | the same for whole tasks from the uninstantiated definition, rollback included |
| Flattening.FlattenIsFlattened | src/executor/generic_executor.cpp:683-710 | full flattening is one of these transformations and leaves nothing to dissolve |
| Flattening.ConstantFlagIsExact | src/executor/generic_executor.cpp:596-736 | all trees run like all their flattenings exactly under a cancel flag that does not change |
| Flattening.RaisedFlagTellsApart | src/executor/generic_executor.cpp:600-602 | a flag raised after any number of looks tells some tree from its flattening |
| ExpressionRewriting.RewordedNodeRunsAlike | src/executor/generic_executor.cpp:596-736 | replacing expressions anywhere in a tree, by expressions equally satisfied in the stores where a run evaluates them, keeps verdict, failing node, outputs, variables, mailbox and exception |
| ExpressionRewriting.NormalFormTaskRunsAlike | src/executor/generic_executor.cpp:423-736 | a task over normal forms of its expressions runs alike, up to the text quoted by the message of a failed precondition |
| PlainRuns.PlainTaskRunsAlike | src/executor/generic_executor.cpp:423-736 | it does so, checked before the run, if machine, packets and declarations hold INT, finite DOUBLE, BOOL and STRING values, no value expression is an infinite literal, and none calculates unless the library's arithmetic stays finite |
| ExpressionRewriting.RearrangedTaskRunsAlike | src/executor/generic_executor.cpp:423-736 | the same for exchanged operands of connectives, from every machine |
| Flattening.SequenceConcat | src/executor/generic_executor.cpp:683-695 | a sequence of a + b is a, then b if a succeeded |
| Flattening.SelectorConcat | src/executor/generic_executor.cpp:697-710 | a selector over a + b is a, then b if a failed |
| ReadSets.ValueReadsItsNames | src/executor/generic_executor.cpp:547-594 | a value expression reads only the variables named in the part of its text that the branch taken evaluates; quoted texts and literals read nothing |
| Assignments.SimultaneousIffUnaffected | src/executor/generic_executor.cpp:762-769 | if all expressions have values before the command, ASSIGN stores and outputs exactly these if and only if no expression changes its value when the keys sorted before its own hold theirs |
| Assignments.AssignStoresValuesBefore | src/executor/generic_executor.cpp:762-769 | it does so from every store when no expression reads, in the interpreter that its form selects, a key sorted before its own |
| Assignments.AssignThrowsFirstError | src/executor/generic_executor.cpp:762-769 | it throws the error of the first key, in key order, without a value, if no expression up to that one is affected |
| Assignments.LaterKeyReadsNewValue | src/executor/generic_executor.cpp:763-767 | an expression naming an earlier key reads the new value |
| WireCodec.ReadUint16BE | src/coordinator/inter_sat_comm.cpp:44-52 | two big-endian bytes at the cursor, or failure |
| WireCodec.ReadUint32BE | src/coordinator/inter_sat_comm.cpp:54-64 | four |
| WireCodec.ReadUint64BE | src/coordinator/inter_sat_comm.cpp:66-80 | eight |
| WireCodec.ReadLengthAndString | src/coordinator/inter_sat_comm.cpp:129-136 | a length byte and that many characters |
| WireCodec.DeserializeMessage | src/coordinator/inter_sat_comm.cpp:138-202 | the cursor version equals the specification: fields in order, failures, unknown priority as NORMAL |
| WireCodec.Serialize | src/coordinator/inter_sat_comm.cpp:82-127 | bytes pushed one by one equal the specification, length bytes truncated |
| WireCodec.BigEndianInverse | src/coordinator/inter_sat_comm.cpp:92-125 | reading back what was written |
| WireCodec.FromBigEndianInverse | src/coordinator/inter_sat_comm.cpp:44-80 | writing back what was read |
| WireCodec.RoundTrip | src/coordinator/inter_sat_comm.cpp:82-202 | decode(encode(m) + suffix) = m exactly for ids of at most 255 bytes, a defined priority and a truthful payload size |
| WireCodec.StrictPrefixRejected | src/coordinator/inter_sat_comm.cpp:138-202 | no strict prefix of such an encoding decodes |
| WireCodec.WireLayout | src/coordinator/inter_sat_comm.cpp:82-127 | the bytes field by field up to the source: numbers with their most significant byte first |
| WireCodec.WireLayoutBehindSource | src/coordinator/inter_sat_comm.cpp:106-126 | and from the destination's length to the payload |
| WireCodec.DecodedWasEncoded | src/coordinator/inter_sat_comm.cpp:138-202 | whatever decodes is an encoding followed by ignored bytes |
| WireCodec.ReencodingIsPrefix | src/coordinator/inter_sat_comm.cpp:138-202 | re-encoding gives a prefix of the input exactly when the priority byte was 1..4 |
| WireCodec.StampedIsTruthful | src/coordinator/inter_sat_comm.cpp:475-502 | `sendMessage`'s stamping makes a message truthful exactly when ids and payload are short enough |
| WireCodec.StampedFields | src/coordinator/inter_sat_comm.cpp:475-502 | what `sendMessage` fills in and what it keeps of the caller's header, with the format's constants |
| Framing.FrameMeans | src/coordinator/inter_sat_comm.cpp:866-887 | a received frame is four bytes of length, most significant first, from 1 to 8388608, and that many bytes |
| Framing.SendableMeans | src/coordinator/inter_sat_comm.cpp:827-834 | exactly such frames are sent |
| Framing.Socket.RecvAll | src/coordinator/inter_sat_comm.cpp:204-219 | fills the buffer from any chunks, unless the stream ends first |
| Framing.Socket.SendData | src/coordinator/inter_sat_comm.cpp:827-864 | one frame, or a strict prefix of it; refuses empty and oversized data |
| Framing.Socket.SendAll | src/coordinator/inter_sat_comm.cpp:840-855 | everything, or a strict prefix |
| Framing.Socket.ReceiveData | src/coordinator/inter_sat_comm.cpp:866-887 | the next frame of the stream, or failure for a bad size or a short stream |
| Framing.Socket.ReceiveMessages | src/coordinator/inter_sat_comm.cpp:603-637 | the messages of a connection until it fails; frames that do not decode are skipped |
| Framing.Socket.SendMessages | src/coordinator/inter_sat_comm.cpp:640-663 | whatever the chunks and wherever sending stops, whole frames and a piece are on the wire; on a new connection the other end receives exactly the first `sent` messages if and only if they are truthful |
| Framing.StreamReassembles | src/coordinator/inter_sat_comm.cpp:827-887 | a list of messages of at most 8 MiB arrives unchanged and in order exactly when all are truthful |
| Framing.CutStream | src/coordinator/inter_sat_comm.cpp:866-887 | a stream cut at any byte yields what its whole frames yield: exactly the messages that arrived whole if and only if these are truthful |
| Framing.WholeFramesIsMaximal | src/coordinator/inter_sat_comm.cpp:866-887 | that number is the largest prefix of the list whose frames fit |
| Framing.TrailingBytesIgnored | src/coordinator/inter_sat_comm.cpp:866-887 | an unfinished frame behind whole ones yields nothing, whatever these hold |
| MessageQueues.MessageQueue.Push | src/coordinator/inter_sat_comm.cpp:228-241 | accepted exactly below the bound |
| MessageQueues.MessageQueue.Pop | src/coordinator/inter_sat_comm.cpp:242-258 | some least entry by (priority number, timestamp), or failure on empty |
| MessageQueues.MessageQueue.Clear | src/coordinator/inter_sat_comm.cpp:267-272 | pops everything |
| MessageQueues.TopExists | src/coordinator/inter_sat_comm.h:100-103 | a non-empty queue has a least entry under `operator<` |
| MessageQueues.BoundedAndConserved | src/coordinator/inter_sat_comm.cpp:228-272 | over every history the size stays within the bound and accepted = popped + cleared + queued as multisets |
| MessageQueues.QueueServesInArrivalOrder | src/coordinator/inter_sat_comm.h:100-103 | if accepted pushes of one priority come at increasing times, the queue has exactly the histories of a line in arrival order served at its first most urgent entry |
| MessageQueues.LanesAreFifo | src/coordinator/inter_sat_comm.h:100-103 | under that condition each priority class leaves in the order of acceptance |
| MessageQueues.ArrivalOrderIsExact | src/coordinator/inter_sat_comm.h:100-103 | whatever was pushed, every answer to later pops is in arrival order exactly when no two queued, distinguishable entries of one priority have timestamps that fail to increase |
| MessageQueues.TiesMayOvertake | src/coordinator/inter_sat_comm.h:100-103 | within one millisecond either order is possible |
| InterSatComm.Comm.SendMessage | src/coordinator/inter_sat_comm.cpp:475-519 | empty target, stamping, sequence number, local handler or queue |
| InterSatComm.Comm.GetNextSequenceId | src/coordinator/inter_sat_comm.cpp:750-752 | returns the old counter, which wraps at 2^32 |
| InterSatComm.Comm.RegisterLocalHandler | src/coordinator/inter_sat_comm.cpp:521-527 | ignores the empty id |
| InterSatComm.Comm.UnregisterLocalHandler | src/coordinator/inter_sat_comm.cpp:529-532 | removes one handler |
| InterSatComm.TargetMeans | src/coordinator/inter_sat_comm.cpp:475-484 | a given destination goes before the message's own |
| InterSatComm.RecipientsMean | src/coordinator/inter_sat_comm.cpp:690-716 | a message reaches the handler of its destination, or every handler without one, if its magic number is right |
| InterSatComm.SentMessageIsDelivered | src/coordinator/inter_sat_comm.cpp:640-716 | a message arrives as it was stamped exactly when both ids have at most 255 bytes and its 31 fixed bytes, ids and payload fit a frame; it passes the magic check and reaches only its target's handler |
| NodeRegistries.NodeRegistry.RegisterNode | src/coordinator/node_registry.cpp:33-95 | ids from metadata and their stand-ins, eviction of the satellite's old node, aliases |
| NodeRegistries.NodeRegistry.UnregisterNode | src/coordinator/node_registry.cpp:97-110 | removes the resolved node and its aliases |
| NodeRegistries.NodeRegistry.EraseAliases | src/coordinator/node_registry.cpp:146-154 | the erase-while-iterating loop removes exactly the aliases of one node |
| NodeRegistries.NodeRegistry.GetNodeInfo | src/coordinator/node_registry.cpp:112-123 | lookup through the aliases |
| NodeRegistries.NodeRegistry.GetAllNodeIds | src/coordinator/node_registry.cpp:125-136 | all ids once, in order |
| NodeRegistries.NodeRegistry.Initialize | src/coordinator/node_registry.cpp:14-21 | idempotent |
| NodeRegistries.NodeRegistry.Shutdown | src/coordinator/node_registry.cpp:23-31 | empties an initialized registry |
| NodeRegistries.IdsMean | src/coordinator/node_registry.cpp:41-67 | communication and satellite id are the first non-empty of `node_id`, the message's id and `satellite_id`, and of these in the opposite order |
| NodeRegistries.RefusedMeans | src/coordinator/node_registry.cpp:37-63 | refused exactly by a closed registry or without any id |
| NodeRegistries.RegisteredMeans | src/coordinator/node_registry.cpp:69-92 | the nodes and aliases behind an accepted registration, each: the new node, the replaced one, the ids that lead to either, and all others unchanged |
| NodeRegistries.UnregisteredMeans | src/coordinator/node_registry.cpp:97-110 | exactly the node that the id leads to and the ids that lead to it are removed |
| NodeRegistries.AliasesAlwaysLive | src/coordinator/node_registry.cpp:33-110 | over every history all aliases point to live nodes |
| NodeRegistries.ClosedIsEmpty | src/coordinator/node_registry.cpp:14-37 | over every history a registry that is not open is empty |
| NodeRegistries.RegisteredKeepsConsistent | src/coordinator/node_registry.cpp:33-95 | a registration keeps "every live node is found by its id and its satellite's" exactly when it takes no other node's ids |
| NodeRegistries.DisciplinedIsConsistent | src/coordinator/coordinator.cpp:449-469 | over every history under the coordinator's discipline every live node resolves to itself |
| NodeRegistries.OneNodePerSatellite | src/coordinator/node_registry.cpp:65-69 | then each satellite id has at most one node |
| NodeRegistries.BorrowedIdHidesANode | src/coordinator/node_registry.cpp:83-92 | a message that carries the id of another node, sorted before its own communication id, hides that node: the shutdown loop in key order leaves it |
| NodeRegistries.EmptiedUnlessBorrowedBefore | src/coordinator/coordinator.cpp:212-219 | after a registration in a consistent registry, unregistering the listed ids in order empties it exactly unless the message borrowed the id of a live node that sorts before the communication id |
| NodeRegistries.BorrowedSatelliteIdDoubles | src/coordinator/node_registry.cpp:65-89 | a communication id equal to another satellite's id leads to two nodes for one satellite |
| NodeRegistries.UnregisterAllEmpties | src/coordinator/coordinator.cpp:212-219 | unregistering all listed ids of a consistent registry leaves no node and no alias |
| NodeRegistries.UnregisterAllNodes | src/coordinator/coordinator.cpp:212-219 | the shutdown loop empties a consistent registry |
| NodeRegistries.RegisterSatelliteNodes | src/coordinator/coordinator.cpp:449-484 | the registration loop; true exactly if one registration was accepted |
| NodeRegistries.ScheduleRegistered | src/coordinator/coordinator.cpp:449-484 | a schedule with distinct ids is registered completely and nothing else is |
| SatelliteSimulators.SatelliteSimulator.ExecuteSingleTask | src/executor/satellite_simulator.cpp:267-325 | the verdict and the state of one task; the behaviour cache cannot be noticed; an unknown behaviour fails |
| SatelliteSimulators.SatelliteSimulator.HandleBatchTaskAssign | src/executor/satellite_simulator.cpp:195-265 | the ACK and the progress and completion messages of a batch, each task run in the state its predecessors left; the unreadable batch |
| SatelliteSimulators.SatelliteSimulator.RunNext | src/executor/satellite_simulator.cpp:215-255 | one round: progress notice, execution, completion notice, bookkeeping |
| SatelliteSimulators.SatelliteSimulator.RunBatch | src/executor/satellite_simulator.cpp:210-257 | the batch loop |
| SatelliteSimulators.AcceptedMeansAllSucceeded | src/executor/satellite_simulator.cpp:215-257 | a batch is accepted exactly when every behaviour could be loaded and every task succeeded |
| SatelliteSimulators.RunsAssignment | src/executor/satellite_simulator.cpp:267-325 | a task is executed with the assignment's ids and parameters |
| SatelliteSimulators.AckNamesTasks | src/executor/satellite_simulator.cpp:246-257 | the ACK accepts the ids of exactly the tasks that succeeded and rejects those of the others, with the reason |
| BatchProtocol.Record | src/executor/satellite_simulator.cpp:231-254 | one round's completion message and bookkeeping |
| BatchProtocol.AckAccountsForTasks | src/executor/satellite_simulator.cpp:215-257 | accepted and rejected ids together are the batch; accepted exactly when none is rejected |
| BatchProtocol.ProgressIsMonotone | src/executor/satellite_simulator.cpp:224 | percentages fit their byte, never decrease, never reach 100 |
| BatchProtocol.StatusTables.Begin | src/coordinator/coordinator.cpp:261-275 | tracks exactly the satellites with tasks, unfinished and failed |
| BatchProtocol.StatusTables.OnCoordinatorBatchAck | src/coordinator/coordinator.cpp:388-420 | finishes a tracked satellite with its verdict; ignores others |
| BatchProtocol.StatusTables.Done | src/coordinator/coordinator.cpp:286-296 | the wait's predicate |
| BatchProtocol.StatusTables.Tally | src/coordinator/coordinator.cpp:299-315 | unfinished satellites become finished and failed after a timeout; counts |
| BatchProtocol.StatusTables.MarkUnfinished | src/coordinator/coordinator.cpp:299-307 | the marking loop |
| BatchProtocol.StatusTables.CountSuccesses | src/coordinator/coordinator.cpp:309-315 | the counting loop is the number of successful satellites |
| BatchProtocol.DistributeAllTasks | src/coordinator/coordinator.cpp:486-576 | one batch with all tasks per tracked satellite that can be served; reports failure exactly if one cannot |
| BatchProtocol.EveryRunIsSound | src/coordinator/coordinator.cpp:245-325 | the invariant of tables, answers and report over every interleaving of dispatch, execution, reordered, repeated or lost ACKs, and timeout |
| BatchProtocol.ReportIsExact | src/coordinator/coordinator.cpp:299-315 | a satellite is counted exactly when it ran every scheduled task with success and its ACK was handled before the tally; all tracked satellites are finished |
| BatchProtocol.FullWaitCountsAll | src/coordinator/coordinator.cpp:282-315 | when the wait ends because all answered, exactly the satellites that succeeded are counted |
| BatchProtocol.ReportIsFinal | src/coordinator/coordinator.cpp:388-420 | nothing after the tally changes the report |
| BatchProtocol.CountsAlwaysAgree | src/coordinator/coordinator.cpp:404-411 | the comparison of task counts never changes a verdict |
| MissionRuns.EveryRunIsTruthful | src/executor/satellite_simulator.cpp:195-265 | in every run in which satellites execute their tasks, what a satellite has done so far is a prefix of its executor's results, and it has a batch only if it was served |
| MissionRuns.CountedMeansExecuted | src/coordinator/coordinator.cpp:245-325 | the satellites counted are exactly those whose ACK came in time, that could read their batch, and each of whose tasks found its behaviour and succeeded in the state its predecessors left; the ACK of a batch executed to its end is the one the satellite's handler computes |
| BatchProtocol.LateSuccessIsNotCounted | src/coordinator/coordinator.cpp:299-307 | a run in which a satellite succeeds and is not counted because its ACK came after the timeout |

## Left out

- Sockets, `select`, `accept`, `bind`, thread creation and the heartbeat: a connection is a byte stream that splits sends and receives anywhere and fails at any byte; detached threads are steps in any order.
- Renaming of connections and the per-node statistics in the receive and send threads.
- JSON parsing and dumping, file loading and schedules' text form: payloads and schedules are values.
- `workerLoop` and the asynchronous task queue: nothing enqueues a task.
- Changes of the behaviour file while the program runs: the file is a constant map. In `BatchProtocol` the outcome of each task is a free choice, in `MissionRuns` the executor's.
- The texts `inf`, `infinity` and `nan` as numerals of `strtod`: the arithmetic parser calls it only at a digit or a point. Other conversions of texts to doubles are parameters and may return them.
- Rounding in the comparison of doubles: differences are exact; every other operation on doubles is a parameter and may round.
- `char` beyond ASCII in the character classes.
- Integer overflow: `llround` results cast to `int` outside the int range, `completed * 100` for more than 21 million tasks in a batch, and `static_cast<int>` of sizes.
- Wall-clock values other than the queue's and the registry's timestamps, the logger, console texts, `execution_time_ms`, `confidence`, and the wording of messages.
- Lookups that return constants: `messageTypeToString`, `getNodeTypeName`.
- Registration fields that the registry never reads again (address, port, capabilities, heartbeat times, status).
- A second `Coordinator::run`, and duplicate satellite ids in a schedule in the protocol's runs: one run, one batch per satellite.
- NodeRegistries.NodeRegistry.EraseAliases: takes the id by value; the source passes a reference into the map it edits (src/coordinator/node_registry.cpp:72).
- TaskProperties.FailedTaskIsAtomic: says nothing about the shared mailbox, which the source does not roll back; `FinalStore` and `ExecuteTask` say what it holds.
- Assignments.AssignThrowsFirstError: one way only: an affected expression may throw the same error in the same store, and the two outcomes then agree.
- Idempotence.IdempotentIffStable: excludes changed names that nest a changed template, such as `x${y`; there stability suffices (`SubstituteTwice`) and is not necessary (`NestedNameSpares`), and no exact condition is stated.
- Idempotence.InstantiateTwice: excludes the same names.
- MessageQueues.MessageQueue.Pop: models the moment the wait has ended, not the blocking itself.
- SatelliteSimulators.SatelliteSimulator.HandleBatchTaskAssign: leaves out the timestamps and the fixed texts of progress and completion messages.
