# Verification of the build engine's kernels

A Dafny 4.11 model of the in-memory kernels of a BitBake-style build engine, with proofs of what they
promise. Classes, fields and loops follow the Rust code; what the loops compute is stated by functions and
relations over values, and the main results are lemmas about those.

| files | what they model |
|---|---|
| `Digraph.dfy` | directed graphs: walks, cycles, topological orders, depth |
| `RecipeGraph.dfy` | the recipe arena and its three depth-first algorithms |
| `TaskDependencies.dfy`, `SchedulerRuns.dfy`, `Scheduler.dfy` | the dependency map and chain lengths; runs of the scheduler as a state machine; the scheduler object, each of whose methods is a step of that machine |
| `IncludeResolver.dfy` | the memoising include resolver over a fixed set of files |
| `VariableText.dfy`, `Expansion.dfy`, `ExpansionTheorems.dfy`, `ResolverTheorems.dfy` | texts with `${NAME}` references; the two expanders on strings; when they are exact; names with defaults |
| `LogicalEval.dfy`, `LogicalTheorems.dfy`, `AtomConditions.dfy` | evaluation of `and`/`or`/`not` conditions by text rewriting; that it undoes printing, and for exactly which conditions |
| `FunctionArgs.dfy`, `ArgumentTheorems.dfy` | splitting the arguments of a call; what written arguments read back as |
| `SyntaxTree.dfy`, `Grammar.dfy`, `Parser.dfy` | trees and their builder; what the parser makes of the tokens from each position; the parser, which does exactly that |
| `GrammarTheorems.dfy`, `Scripts.dfy`, `ScriptReading.dfy` | lossless parsing; written statements are read back; what parses without errors was written as statements |
| `StringOrder.dfy`, `SignatureCache.dfy`, `SignatureTheorems.dfy` | signatures over the task graph; what they track |
| `LruCache.dfy` | the eviction policy, compared between capacities |
| `PythonIR.dfy`, `PythonExecutor.dfy`, `PythonOperations.dfy`, `PythonTheorems.dfy` | the flat code, its score, its two executors; what single operations compute; compiling expression trees |
| `Wrappers.dfy`, `Text.dfy`, `WordTheorems.dfy` | options and results; whitespace, words and prefixes; what they are by positions |

`dafny verify dfyconfig.toml` checks the whole project.

## How the code is modelled

- Iteration over hash maps and sets picks an arbitrary remaining element, so every result holds for every order.
- The binary heap is a multiset from which an arbitrary best entry is taken.
- The tree builder holds open nodes inside each other around the list of finished ones; the token list is the input.
  The recursive descent is also a function of the tokens, `Grammar.ParseFrom`, which every parsing method is proved
  to follow; the results about the parser are about that function, and so about the methods.
- The file system, path joining and the expansion of variables in include paths are fixed parameters of the
  include resolver. Its two recursive methods take the chain of files being parsed as a ghost argument, so that
  entries left behind by earlier failures can be told from those in progress.
- The hash is a function parameter. The results that need it assume it injective with digests free of `|` and `=`;
  `IdealHashExists` shows that there are such functions.
- The evaluator of simple conditions, the expansion of references inside the executor, the texts that string
  methods produce and the Python interpreter are function parameters.
- A table of variables and a text are given as chunks, literals or references, and the string functions work on
  their rendering. The results about full expansion are for plain texts: literals in which no reference begins and
  that do not end in `$`, names nonempty and without `$` and `}`; the methods themselves are modelled on all strings.

## Where the code and its documentation disagree

- `scheduler.rs:107-110` walks the dependencies-first order backwards, so the critical path length that the
  comment describes is never computed: `ReversedLengths` and `ReversedOrderIsLongestIff` say what is, and
  `ForwardOrderGivesLongestChains` that the same recurrence would be right without `.rev()`.
- `bitbake_config.rs:176` and the test at `bitbake_config.rs:267-274` say that `${${A}}` is expanded. The name ends at
  the first closing brace, so that it is only if there is a variable called `${A`: `NestedReferenceIff`, and for the
  variables of the test `NestedReferenceExample`.
- `simple_python_eval.rs:964` promises operators at top level only, outside parentheses and quotes. Evaluation agrees
  with the and/or/not structure of a condition if and only if its atoms are good: `AtomConditionIsExact`. An atom is
  split that has a bare operator word at an end where a space follows (`PaddingIsNeeded`; with
  `d.getVar('X') == 'a'` and ` or` in `ComparisonNeedsPadding`), and groups are closed by quoted parentheses.
- `python_ir.rs:423-426` sends costly code to the interpreter even if it has no complex operation to run;
  `CompiledExecution` shows that compiled statements therefore fail exactly above a cost of 50.
- `signature_cache.rs:176` joins recipe and task names with a colon, so that keys are unique only if recipe names have
  none: `NamesMakeKeys`, `ColonsMakeKeysCollide`.

## Model

| member | source | states |
|---|---|---|
| TaskDependencies.TaskDepsMembers | convenient-bitbake/src/scheduler.rs:152-200 | A task depends on exactly its `after` tasks, the tasks its declared dependencies name by id or else by recipe and name, and, if its own name is compile, install or configure with anything around it, the `do_populate_sysroot` tasks of the recipes its recipe depends on; `before` constraints contribute nothing |
| TaskDependencies.SysrootNames | convenient-bitbake/src/scheduler.rs:185-191 | A task waits for sysroots exactly if its name is one of the three words with some text before and some text after it |
| TaskDependencies.BuildTaskDependencies | convenient-bitbake/src/scheduler.rs:152-200 | For any map iteration order the loops build that dependency map |
| TaskDependencies.TopologicalSort | convenient-bitbake/src/scheduler.rs:203-241 | Ends on cyclic graphs too, lists every node once, and on an acyclic graph every task after its dependencies |
| TaskDependencies.ForwardOrderGivesLongestChains | convenient-bitbake/src/scheduler.rs:115-125 | Run over a dependencies-first order, the length recurrence computes the longest dependency chain that ends at each task, which is its stated intent |
| TaskDependencies.LongestChainUnique | convenient-bitbake/src/scheduler.rs:106-125 | A task has one longest chain length, so the result above does not depend on the order |
| TaskDependencies.ReversedLengths | convenient-bitbake/src/scheduler.rs:109-125 | Run with `.rev()`, as the code does, the recurrence gives 1 for every task |
| TaskDependencies.ReversedOrderIsLongestIff | convenient-bitbake/src/scheduler.rs:109-125 | The reversed traversal is right exactly for graphs in which no task depends on anything |
| TaskDependencies.CountDependents | convenient-bitbake/src/scheduler.rs:127-134 | Counts, for every task, the entries of dependency lists that name it |
| SchedulerRuns.PriorityOrderIsTotal | convenient-bitbake/src/scheduler.rs:20-31 | The comparison is a total order that ranks by chain length, then dependents, then estimated time |
| SchedulerRuns.MaxExists | convenient-bitbake/src/scheduler.rs:47-57 | A nonempty queue has a best entry, whatever ties there are |
| SchedulerRuns.BatchIsBest | convenient-bitbake/src/scheduler.rs:244-265 | A batch comes in non-increasing priority with nothing better left queued, is no longer than the limit, falls short of it only if the queue is emptied, and takes nothing but queued idle tasks |
| SchedulerRuns.HandedOutTaskIsReady | convenient-bitbake/src/scheduler.rs:244-327 | In every run, a handed-out task has all its dependencies completed, was neither completed nor running, and is running afterwards |
| SchedulerRuns.HandedOutAgainOnlyAfterFailure | convenient-bitbake/src/scheduler.rs:244-327 | In every run, two hand-outs of one task have a failure of that task between them |
| SchedulerRuns.QueueAndBatchIdsDistinct | convenient-bitbake/src/scheduler.rs:288-327 | In every run, queue and batch ids stay distinct |
| SchedulerRuns.BooksKeptIff | convenient-bitbake/src/scheduler.rs:268-285 | Completed and running stay disjoint sets of prioritised tasks exactly for the events that complete or fail only what is allowed |
| SchedulerRuns.DisciplinedRunKeepsBooks | convenient-bitbake/src/scheduler.rs:268-338 | In every run that completes and fails only running tasks, completed and running stay disjoint subsets of the prioritised tasks |
| SchedulerRuns.PendingCountsTheRest | convenient-bitbake/src/scheduler.rs:330-338 | So the `pending` subtraction never underflows and counts the remaining tasks |
| SchedulerRuns.OnlyBuildableIsCompleted | convenient-bitbake/src/scheduler.rs:152-327 | In every run that completes and fails only running tasks, with failures or without, no completed task reaches a dependency cycle or a missing dependency |
| SchedulerRuns.QuiescentWithFailures | convenient-bitbake/src/scheduler.rs:273-327 | When such a run has come to rest, the completed tasks are exactly the buildable ones that reach no task that failed after the last completion: a failed task is queued again only by the next completion |
| SchedulerRuns.QuiescentMeansDone | convenient-bitbake/src/scheduler.rs:152-327 | In a failure-free run that has come to rest, the completed tasks are exactly those from which no dependency cycle and no missing dependency can be reached |
| SchedulerRuns.QuiescentMeansAllDone | convenient-bitbake/src/scheduler.rs:152-327 | On a closed acyclic graph that is every task |
| SchedulerRuns.ReadyMakesProgress | convenient-bitbake/src/scheduler.rs:244-265 | Asking for at least one task returns an empty batch exactly if the queue is empty |
| SchedulerRuns.ProductiveRunsAreShort | convenient-bitbake/src/scheduler.rs:244-285 | A failure-free run of productive steps has at most two steps for each task |
| Scheduler.TaskScheduler.AnalyzeCriticalPaths | convenient-bitbake/src/scheduler.rs:99-149 | Caches the priorities along some scheduler order for every node; on an acyclic graph the cached chain length is always 1 |
| Scheduler.TaskScheduler.Initialize | convenient-bitbake/src/scheduler.rs:90-97 | Gives every node a priority and queues what is ready; a new scheduler thereby reaches the initial state of the run model |
| Scheduler.TaskScheduler.UpdateReadyQueue | convenient-bitbake/src/scheduler.rs:288-327 | For any map order, adds exactly the eligible tasks that are not queued yet |
| Scheduler.TaskScheduler.GetReadyTasks | convenient-bitbake/src/scheduler.rs:244-265 | Is a `Ready` step of the run model for any choice among equal priorities |
| Scheduler.TaskScheduler.MarkTaskRunning | convenient-bitbake/src/scheduler.rs:268-270 | Is a `MarkRunning` step of the run model |
| Scheduler.TaskScheduler.MarkTaskCompleted | convenient-bitbake/src/scheduler.rs:273-279 | Is a `MarkCompleted` step of the run model |
| Scheduler.TaskScheduler.MarkTaskFailed | convenient-bitbake/src/scheduler.rs:282-285 | Is a `MarkFailed` step of the run model |
| Scheduler.TaskScheduler.GetStats | convenient-bitbake/src/scheduler.rs:330-338 | Succeeds exactly if neither subtraction underflows; on kept books `pending` is the number of tasks neither completed nor running |
| RecipeGraph.FirstNamedIsFirst | convenient-bitbake/src/recipe_graph.rs:258-269 | Looking a task up by name finds the first task of that name, or there is none |
| RecipeGraph.FirstAddedTaskWins | convenient-bitbake/src/recipe_graph.rs:217-269 | Adding a task changes a lookup only if there was no task of that recipe and name before |
| RecipeGraph.RecipeGraph.AddRecipe | convenient-bitbake/src/recipe_graph.rs:177-187 | Adds a recipe under a fresh id, rebinds the name, and leaves the other recipes as they are |
| RecipeGraph.RecipeGraph.AddTask | convenient-bitbake/src/recipe_graph.rs:217-233 | Adds a task under a fresh id to its recipe, if that exists, and leaves the other tasks as they are |
| RecipeGraph.RecipeGraph.AddDependency | convenient-bitbake/src/recipe_graph.rs:278-283 | Adds an edge once, and nothing if the recipe does not exist |
| RecipeGraph.RecipeGraph.AddTaskDependency | convenient-bitbake/src/recipe_graph.rs:294-299 | Adds a task dependency, and nothing if the task does not exist |
| RecipeGraph.RecipeGraph.TopologicalSort | convenient-bitbake/src/recipe_graph.rs:427-470 | For every graph and map order: Ok exactly if the graph is acyclic, and then every node once, after all its dependencies; the recipe that an error names lies on a cycle |
| RecipeGraph.RecipeGraph.DetectCycles | convenient-bitbake/src/recipe_graph.rs:376-424 | Every reported list is a closed walk of distinct nodes, taking away the edges that close them leaves an acyclic graph, and nothing is reported exactly if the graph is acyclic, that is, if the topological sort succeeds |
| RecipeGraph.EveryCycleIsReported | convenient-bitbake/src/recipe_graph.rs:376-424 | So every closed walk of the graph uses the closing edge of a reported cycle |
| RecipeGraph.GenuineCycleMeansCyclic | convenient-bitbake/src/recipe_graph.rs:397-424 | A reported list proves that its first node lies on a cycle |
| RecipeGraph.RecipeGraph.GetAllDependencies | convenient-bitbake/src/recipe_graph.rs:339-365 | On any graph: without duplicates exactly the ids that can be reached, other than the root itself |
| IncludeResolver.LoadSucceedsIff | convenient-bitbake/src/include_resolver.rs:69-136 | Loading without a cache succeeds exactly if nothing reachable is being parsed, unparsable, missing though required, or on an include cycle |
| IncludeResolver.ResolvedIff | convenient-bitbake/src/include_resolver.rs:102-207 | Resolving a recipe succeeds exactly if it requires nothing missing and no cycle, unparsable file or missing required file can be reached |
| IncludeResolver.ChainDoesNotMatter | convenient-bitbake/src/include_resolver.rs:69-99 | What is being parsed further up the chain changes neither whether a file loads nor what it means |
| IncludeResolver.MeaningIsResolved | convenient-bitbake/src/include_resolver.rs:69-99 | Loading a file and resolving its recipe agree |
| IncludeResolver.LastIncludeWins | convenient-bitbake/src/include_resolver.rs:148-204 | A merged variable has the value of the last include that defines it, and otherwise the own one |
| IncludeResolver.ListsAreGathered | convenient-bitbake/src/include_resolver.rs:166-190 | Inherits and dependencies of the result are the own ones and those of all includes |
| IncludeResolver.FirstSourceWins | convenient-bitbake/src/include_resolver.rs:173-178 | A merged source of a URL is the own one, or else the one of the first include that has a source of that URL, and otherwise there is none |
| IncludeResolver.UnionKeepsDistinct | convenient-bitbake/src/include_resolver.rs:166-190 | Merging lists introduces no duplicate |
| IncludeResolver.IncludeResolver.ParseIncludeFile | convenient-bitbake/src/include_resolver.rs:69-99 | With any cache and any leftover parsing entries of earlier failures, answers as the resolver without cache would; terminates because the files outside the parsing set decrease |
| IncludeResolver.IncludeResolver.ResolveInclude | convenient-bitbake/src/include_resolver.rs:102-136 | A missing file fails exactly if required; a found one answers like its meaning |
| IncludeResolver.IncludeResolver.FindIncludeFile | convenient-bitbake/src/include_resolver.rs:50-66 | The file next to the recipe, or else the first one on the search paths |
| IncludeResolver.FirstPlaceWins | convenient-bitbake/src/include_resolver.rs:50-66 | Of the recipe directory and the search paths in their order the first place that has the file is taken, and nothing is found exactly if no place has it |
| IncludeResolver.IncludeResolver.ResolveAllIncludes | convenient-bitbake/src/include_resolver.rs:139-207 | Ok exactly if the uncached resolution is, with the same recipe; on an error the variables are untouched |
| IncludeResolver.IncludeResolver.ResolveRecipe | convenient-bitbake/src/include_resolver.rs:139-207 | The same for any sequence of calls on one resolver, including calls after failures |
| IncludeResolver.IncludeResolver.ClearCache | convenient-bitbake/src/include_resolver.rs:210-213 | Empties the cache and the set of files being parsed |
| VariableText.CycleFreeIffRanked | convenient-bitbake/src/bitbake_config.rs:176-209 | A text has a finite rank exactly if no cycle of references can be reached from it |
| VariableText.FullIsExpanded | convenient-bitbake/src/bitbake_config.rs:167-170 | The full expansion has no known reference left |
| VariableText.FullStable | convenient-bitbake/src/bitbake_config.rs:167-170 | Looking deeper than the rank changes neither expansion nor weight |
| VariableText.ReplaceFirstStep | convenient-bitbake/src/bitbake_config.rs:185-196 | Substituting the first known reference keeps the full expansion and takes one off the weight |
| Expansion.VariableExpander.Expand | convenient-bitbake/src/bitbake_config.rs:170-219 | The loops substitute the first known reference until nothing changes or 100 iterations have passed, on every string |
| Expansion.VariableExpander.SubstituteOne | convenient-bitbake/src/bitbake_config.rs:182-204 | The inner scan replaces the first known reference of the string, skipping unknown and unclosed ones |
| Expansion.SimpleResolver.Resolve | convenient-bitbake/src/resolver.rs:110-156 | The loops rewrite the string in rounds until nothing changes or 10 rounds have passed, on every string; what a round makes of a name with a default is in `ResolverTheorems` |
| Expansion.SimpleResolver.RewriteAll | convenient-bitbake/src/resolver.rs:117-146 | One round replaces every captured reference that has a value, wherever it occurs by then |
| ExpansionTheorems.ScanReplacesFirst | convenient-bitbake/src/bitbake_config.rs:182-204 | On plain texts the string scan is substitution of the first known chunk |
| ExpansionTheorems.ReplaceIsReplaceAll | convenient-bitbake/src/resolver.rs:131-133 | On plain texts replacing the matched string replaces exactly the references of that name |
| ExpansionTheorems.CapturesAreNames | convenient-bitbake/src/resolver.rs:111-123 | On plain texts the captures are the references |
| ExpansionTheorems.ExpandIsFullIff | convenient-bitbake/src/bitbake_config.rs:170-219 | With any budget the result is the full expansion exactly if the weight is within the budget |
| ExpansionTheorems.ExpanderIsExactUpTo100 | convenient-bitbake/src/bitbake_config.rs:170-219 | As written, the expander is exact exactly up to weight 100 |
| ExpansionTheorems.RoundLowersRank | convenient-bitbake/src/resolver.rs:113-142 | A round keeps the full expansion and lowers the rank |
| ExpansionTheorems.FixpointHasNoRank | convenient-bitbake/src/resolver.rs:144-146 | The early exit on an unchanged string is taken only when there is nothing left to expand |
| ExpansionTheorems.ResolveIsFullIff | convenient-bitbake/src/resolver.rs:110-156 | For whatever table the resolver looks names up in, with any number of rounds the result is the full expansion exactly if that many rounds leave nothing known |
| ResolverTheorems.ResolveIsFull | convenient-bitbake/src/resolver.rs:110-156 | So with at least as many rounds as the rank the result is the full expansion, defaults included |
| ExpansionTheorems.RankBoundsRounds | convenient-bitbake/src/resolver.rs:113-142 | As many rounds as the rank leave nothing known |
| ExpansionTheorems.FindOpenIsFirst | convenient-bitbake/src/bitbake_config.rs:184-184 | The search for an opening finds the first `${`, and nothing exactly if there is none |
| ExpansionTheorems.FindDefaultIsFirst | convenient-bitbake/src/resolver.rs:127-133 | The search for a default finds the first `:-`, and nothing exactly if there is none |
| ExpansionTheorems.PassLiteral | convenient-bitbake/src/bitbake_config.rs:182-204 | A literal in which no reference begins is passed over by both scans, stray `$` included |
| ResolverTheorems.ValueIff | convenient-bitbake/src/resolver.rs:127-146 | A name stands for the variable before its first `:-` where that is set and for the text after it where it is not; a name without `:-` stands for its variable; there is no value exactly for an unset name without default |
| ResolverTheorems.ResolveWithDefaultsIff | convenient-bitbake/src/resolver.rs:110-156 | For texts with and without defaults and any number of rounds: the result is the full expansion, in which a variable that is set beats the default, exactly if that many rounds leave nothing to expand |
| ResolverTheorems.ValueBeatsDefault | convenient-bitbake/src/resolver.rs:117-146 | A reference with a default to a variable that is set becomes its value in one round, which is the result if it has no references |
| ResolverTheorems.FewerRoundsThanRankFail | convenient-bitbake/src/resolver.rs:110-156 | For every smaller number of rounds some text of that rank is not expanded in full, so the bound is tight |
| ResolverTheorems.ExpandersAgree | convenient-bitbake/src/resolver.rs:110-156 | Without defaults, both expanders give the full expansion exactly if the weight is at most 100 and ten rounds leave nothing known, as they do at rank 10 or less; then nothing is left for either to substitute |
| ResolverTheorems.DefaultsDisagree | convenient-bitbake/src/resolver.rs:117-146 | With a default and no variable of the name they differ: the resolver gives the default, the expander leaves the reference |
| ExpansionTheorems.NestedReferenceIff | convenient-bitbake/src/bitbake_config.rs:176-189 | For a reference to x inside a reference the name that is looked up is `${x`: nothing is substituted exactly if there is no such key, and otherwise its value is, with a closing brace left over |
| ExpansionTheorems.NestedReferenceExample | convenient-bitbake/src/bitbake_config.rs:266-274 | With A = B and B = value, as in the test, the nested reference to A stays as it is and is not `value` |
| LogicalEval.MatchingParen | convenient-bitbake/src/simple_python_eval.rs:867-886 | Finds where the depth returns to zero, quotes not heeded |
| LogicalEval.FindOperator | convenient-bitbake/src/simple_python_eval.rs:965-992 | Finds the first occurrence outside parentheses and quotes |
| LogicalEval.EvalLogicalExpression | convenient-bitbake/src/simple_python_eval.rs:860-962 | Computes the evaluation function; on every string it terminates by the number of opening parentheses and then the length |
| LogicalEval.GroupOpens | convenient-bitbake/src/simple_python_eval.rs:888-908 | The content of a group and the rewritten text each have fewer opening parentheses, though the text may be longer |
| LogicalTheorems.EvalOfPrint | convenient-bitbake/src/simple_python_eval.rs:860-962 | The minimally parenthesised text of every and/or/not tree over good atoms evaluates to the three-valued short-circuit meaning of the tree; `AtomConditionIsExact` shows that no other atoms would do |
| LogicalTheorems.FirstOperator | convenient-bitbake/src/simple_python_eval.rs:965-992 | The first operator after a balanced text without operators is the one that follows it |
| LogicalTheorems.GroupEndAt | convenient-bitbake/src/simple_python_eval.rs:867-892 | A group of balanced text is closed by its own parenthesis, with the content before and the rest after it |
| LogicalTheorems.EvalOfLeadingTree | convenient-bitbake/src/simple_python_eval.rs:888-908 | The value of a leading group takes its place in the text |
| LogicalTheorems.FillKeepsMeaning | convenient-bitbake/src/simple_python_eval.rs:888-908 | Replacing the leading group by its value keeps the meaning of the tree |
| LogicalTheorems.RotatedOr | convenient-bitbake/src/simple_python_eval.rs:911-928 | Splitting chains of `or` at the first operator keeps the meaning |
| LogicalTheorems.RotatedAnd | convenient-bitbake/src/simple_python_eval.rs:931-948 | Splitting chains of `and` at the first operator keeps the meaning |
| AtomConditions.AtomConditionIsExact | convenient-bitbake/src/simple_python_eval.rs:860-992 | A text x is a good atom if and only if, for all evaluators of conditions and all trees over good atoms and x, the printed tree evaluates to its meaning; all that is asked of x is that quotes and parentheses that match in number match in order |
| AtomConditions.EvalBelow | convenient-bitbake/src/simple_python_eval.rs:860-962 | A text with fewer opening parentheses than x, or with no more of them and without x in it, is evaluated without ever coming to x |
| AtomConditions.OperatorAtAtomEnd | convenient-bitbake/src/simple_python_eval.rs:911-928 | An atom that ends in a bare `or` is split there when another operator follows |
| AtomConditions.PaddingIsNeeded | convenient-bitbake/src/simple_python_eval.rs:911-928 | So a condition that becomes false when ` or` hangs on to it is evaluated to true, and the tree means false |
| AtomConditions.ComparedValues | convenient-bitbake/src/simple_python_eval.rs:1069-1079 | A variable compared with its own value is such a condition: the comparison is true, and with ` or` at its end it is false, because the quotes do not come off |
| AtomConditions.ComparisonNeedsPadding | convenient-bitbake/src/simple_python_eval.rs:911-928 | So for every such comparison, which is a good atom itself, the tree with ` or` at its end is evaluated to true and means false |
| AtomConditions.ComparisonExample | convenient-bitbake/src/simple_python_eval.rs:1046-1079 | The comparison of X with the value a is the text `d.getVar('X') == 'a'`, and a good atom |
| FunctionArgs.FindMatchingParen | convenient-bitbake/src/simple_python_eval.rs:1565-1586 | Finds the parenthesis that closes the call, quoted text not heeded |
| FunctionArgs.ParseArgs | convenient-bitbake/src/simple_python_eval.rs:1589-1673 | The loop runs the splitter over the text; what comes of a written argument list is in `ArgumentTheorems` |
| FunctionArgs.ParseFunctionArgs | convenient-bitbake/src/simple_python_eval.rs:1545-1562 | Finds the call, its parentheses and its arguments, or nothing |
| ArgumentTheorems.ReadOfPrint | convenient-bitbake/src/simple_python_eval.rs:1545-1673 | A written call anywhere in an expression, its arguments made of plain runs, quoted texts of both kinds and nested parentheses, reads back as one text per argument: quoted texts without their marks, inner calls verbatim with their quotes, commas and parentheses, whitespace at the end lost unless the argument is quoted and nothing else; only a single argument that comes out empty is taken for none |
| ArgumentTheorems.ReadsNothing | convenient-bitbake/src/simple_python_eval.rs:1545-1586 | Nothing is read if the name does not occur, if no parenthesis follows its first occurrence, or if the parenthesis of a written call is never closed |
| ArgumentTheorems.ClosingSkips | convenient-bitbake/src/simple_python_eval.rs:1565-1586 | The search for the closing parenthesis passes over every written piece, with its quoted texts of both kinds and its nested parentheses |
| ArgumentTheorems.FeedTop | convenient-bitbake/src/simple_python_eval.rs:1604-1636 | Outside parentheses marks are dropped and everything else is kept |
| ArgumentTheorems.FeedInside | convenient-bitbake/src/simple_python_eval.rs:1604-1636 | Inside parentheses every character is kept, marks and commas included |
| ArgumentTheorems.QuotedReadsBackIff | convenient-bitbake/src/simple_python_eval.rs:1638-1673 | One quoted text reads back as that text exactly if it ends without whitespace or is nothing but whitespace |
| ArgumentTheorems.BareReadsBackIff | convenient-bitbake/src/simple_python_eval.rs:1604-1673 | An argument with nothing quoted outside parentheses reads back verbatim exactly if it ends without whitespace |
| ArgumentTheorems.IndexOfIsFirst | convenient-bitbake/src/simple_python_eval.rs:1549-1554 | The call is found at the first occurrence of the name |
| ArgumentTheorems.RoundTripIff | convenient-bitbake/src/simple_python_eval.rs:1545-1673 | Quoted texts come back unchanged exactly if the list is not a single empty text and each is all whitespace or ends without whitespace |
| WordTheorems.WordsAreMaximal | convenient-bitbake/src/python_ir_executor.rs:339-339 | Splitting at whitespace yields exactly the maximal stretches without whitespace, in order |
| WordTheorems.AmongWordsIff | convenient-bitbake/src/python_ir_executor.rs:339-339 | A text is among the words exactly if it is nonempty, has no whitespace and stands there between whitespace or ends |
| WordTheorems.TrimUnique | convenient-bitbake/src/simple_python_eval.rs:1638-1673 | Trimming takes the whitespace at both ends away and nothing else |
| Parser.Parser.ParseRoot | convenient-bitbake/src/parser.rs:66-85 | For every token list the builder ends with one finished root node; its leaves are exactly the tokens before EOF, which are all but the last if EOF is the last token and no other; no error is reported exactly if these tokens are a script, and then every assignment has its parts in order and there is no error node; nodes and errors are those of the grammar |
| Parser.Parser.Statements | convenient-bitbake/src/parser.rs:69-82 | Works up to EOF, item by item, and adds the nodes and errors of the grammar |
| Parser.Parser.StatementOrError | convenient-bitbake/src/parser.rs:69-82 | A statement, or one error and one error node; every turn moves forward |
| Parser.Parser.Statement | convenient-bitbake/src/parser.rs:87-109 | True exactly if the first token is a statement keyword, a comment or a newline, or a name that is followed by an assignment operator, seen over whitespace, names, override marks and bracketed flags, and standing right behind the name with its overrides and flag; adds exactly the nodes and errors of the statement |
| Parser.Parser.Assignment | convenient-bitbake/src/parser.rs:111-171 | One assignment node on every path, with its name, operator and value or up to where the operator is missing, and the errors for an open flag or a missing operator |
| Parser.Parser.AssignmentContents | convenient-bitbake/src/parser.rs:112-170 | Name node, whitespace, operator, whitespace, value node, in that order; or an error where the operator should be |
| Parser.Parser.Value | convenient-bitbake/src/parser.rs:173-213 | The value extends to the end of the line, where a line goes on only after a backslash |
| Parser.Parser.InheritStatement | convenient-bitbake/src/parser.rs:215-230 | One inherit node over the keyword and the class names after it, to the first token that is neither name nor whitespace |
| Parser.Parser.IncludeStatement | convenient-bitbake/src/parser.rs:232-246 | One include node over the keyword and the rest of the line |
| Parser.Parser.RequireStatement | convenient-bitbake/src/parser.rs:248-262 | One require node over the keyword and the rest of the line |
| Parser.Parser.ExportStatement | convenient-bitbake/src/parser.rs:264-278 | One export node over the keyword and one name |
| Parser.Parser.LineContents | convenient-bitbake/src/parser.rs:232-262 | Takes the rest of the line and nothing more |
| Parser.Parser.FunctionDefinition | convenient-bitbake/src/parser.rs:280-327 | One function node over keyword, name, parameter list and braced body, as far as they are there; what is left open runs to EOF |
| Parser.Parser.Bump | convenient-bitbake/src/parser.rs:347-352 | Moves one token, which is not EOF, into the open node |
| Parser.Parser.Expect | convenient-bitbake/src/parser.rs:354-362 | Takes the token exactly if it is of the expected kind, or reports what was expected and found and moves nothing |
| Parser.Parser.ReportError | convenient-bitbake/src/parser.rs:364-370 | Appends one error with the message and the span of the current token |
| Parser.Parser.SkipTrivia | convenient-bitbake/src/parser.rs:372-376 | Adds the trivia as leaves and stops at the first other token |
| Parser.Parser.SkipWhitespaceInline | convenient-bitbake/src/parser.rs:378-382 | Adds the whitespace as leaves and stops at the first other token |
| Parser.Parser.IsAssignmentAhead | convenient-bitbake/src/parser.rs:384-421 | Is the lookahead of the grammar, which `AheadIff` characterises |
| Parser.Parser.AdvanceWithError | convenient-bitbake/src/parser.rs:423-443 | One error node up to and including the next newline, or up to the next statement keyword or EOF |
| Parser.Parser.FinishNode | convenient-bitbake/src/parser.rs:84-84 | Closes the innermost node into its parent |
| Parser.RootIsWhole | convenient-bitbake/src/parser.rs:66-85 | The nodes of the grammar make the whole tree: leaves, end, errors and shape |
| Parser.ParseScript | convenient-bitbake/src/parser.rs:47-85 | Every script, written as tokens and parsed, gives no error and one node for every statement, in order, between the leaves of whitespace, comments and newlines |
| GrammarTheorems.ParseIsLossless | convenient-bitbake/src/parser.rs:66-85 | From every position, nothing is lost and nothing invented: the leaves are the tokens up to EOF, in order |
| GrammarTheorems.ParseEndsAtEof | convenient-bitbake/src/parser.rs:69-82 | Parsing goes on to the first EOF |
| GrammarTheorems.ErrorFreeIsWellShaped | convenient-bitbake/src/parser.rs:66-171 | Without errors there is no error node, and every assignment has its five parts in order |
| Scripts.StatementIsRead | convenient-bitbake/src/parser.rs:87-327 | A written assignment with overrides and flag, inherit list, include or require line, export or function with nested braces, followed by what may follow it, is read as exactly its node, without error |
| Scripts.ScriptIsRead | convenient-bitbake/src/parser.rs:66-327 | Parsing undoes writing: a list of statements is read without errors as exactly the nodes of its statements, in order |
| Scripts.StatementsAreRead | convenient-bitbake/src/parser.rs:69-82 | The statements before any position are read as they were written, whatever comes after them |
| Scripts.RecoveryGoesOn | convenient-bitbake/src/parser.rs:423-443 | A line that no statement begins is one error and one error node, and what comes after it is read as if it were not there |
| ScriptReading.AheadIff | convenient-bitbake/src/parser.rs:384-421 | The lookahead says yes exactly if an assignment operator comes after whitespace, names, override marks and bracketed flags, in any number and order |
| ScriptReading.StatementIff | convenient-bitbake/src/parser.rs:87-171 | When a statement is recognised, by its first token and by the operator after its name |
| ScriptReading.ReadStatement | convenient-bitbake/src/parser.rs:87-327 | What is parsed as a statement without errors was written as one |
| ScriptReading.ErrorFreeIff | convenient-bitbake/src/parser.rs:66-327 | No error is reported exactly for scripts, so the written form covers everything that the parser accepts |
| StringOrder.SameSortIff | convenient-bitbake/src/signature_cache.rs:99-105 | Sorting forgets exactly the order |
| StringOrder.JoinInjective | convenient-bitbake/src/signature_cache.rs:84-128 | Fields without separators can be read back from what is fed to the hash |
| SignatureCache.EnhancedTaskSignature.Compute | convenient-bitbake/src/signature_cache.rs:81-131 | Hashes the fields in their fixed order, sorted where the order must not matter |
| SignatureCache.EnhancedTaskSignature.GetSignature | convenient-bitbake/src/signature_cache.rs:134-139 | Computes the signature once and then returns the stored one |
| SignatureCache.SortKeys | convenient-bitbake/src/signature_cache.rs:107-109 | For any map order the sorted keys are the same |
| SignatureCache.SignatureCache.ComputeSignatures | convenient-bitbake/src/signature_cache.rs:161-232 | Stores the computed signatures of the pass and keeps entries of other keys |
| SignatureCache.SignatureCache.CollectDepSignatures | convenient-bitbake/src/signature_cache.rs:193-201 | Collects the signatures found so far, passing over dependencies that are not tasks |
| SignatureTheorems.PassComputesSigs | convenient-bitbake/src/signature_cache.rs:174-227 | Over a dependency-first order the pass gives every task the hash of its own inputs and its dependencies' signatures, all the way down |
| SignatureTheorems.OrderDoesNotMatter | convenient-bitbake/src/signature_cache.rs:174-227 | Any two dependency-first orders over all tasks give the same signature map |
| SignatureTheorems.DepOrderDoesNotMatter | convenient-bitbake/src/signature_cache.rs:99-105 | Permuting `depends_on` lists gives the same signature map |
| SignatureTheorems.FieldsDetermineInputs | convenient-bitbake/src/signature_cache.rs:84-128 | Equal fields come from equal names, hashes, overrides and the same dependency signatures in whatever order |
| SignatureTheorems.SignaturesTrackCones | convenient-bitbake/src/signature_cache.rs:161-232 | With an injective hash, two builds store the same signature exactly if names, held recipe hash, held task code, machine and distro agree for the task and, along dependencies with equal keys, for everything below it; a missing code counts as empty and a missing recipe hash as unknown |
| SignatureTheorems.ChangeReachesExactlyDependents | convenient-bitbake/src/signature_cache.rs:161-232 | In one task graph a stored signature changes exactly if an input of a reachable task does |
| SignatureTheorems.CodeChangeReachesExactlyDependents | convenient-bitbake/src/signature_cache.rs:174-227 | Another entry of `task_impls` changes exactly the signatures of the tasks that are that task or reach it |
| SignatureTheorems.RecipeChangeReachesExactlyDependents | convenient-bitbake/src/signature_cache.rs:174-227 | Another entry of `recipe_hashes` changes exactly the signatures of the tasks that reach a task of that recipe |
| SignatureTheorems.NamesMakeKeys | convenient-bitbake/src/signature_cache.rs:176-176 | Tasks with different names are stored under different keys, if recipe names have no colon |
| SignatureTheorems.ColonsMakeKeysCollide | convenient-bitbake/src/signature_cache.rs:176-176 | Without that condition two tasks can share a key |
| LruCache.LruCache.GetEntry | convenient-bitbake/src/lru_cache.rs:22-29 | Get on the in-place map and queue is get on the model |
| LruCache.LruCache.InsertEntry | convenient-bitbake/src/lru_cache.rs:31-44 | Insert on the in-place map and queue is insert on the model, with the same returned value |
| LruCache.LruCache.TouchKey | convenient-bitbake/src/lru_cache.rs:46-49 | Moves the key to the end of the order |
| LruCache.RunKeepsValid | convenient-bitbake/src/lru_cache.rs:22-49 | Over every trace the keys are the duplicate-free order and the size is at most the capacity |
| LruCache.OrderIsRecency | convenient-bitbake/src/lru_cache.rs:31-49 | The order is by last use, so the entry that is evicted is the least recently used one |
| LruCache.InclusionOverTraces | convenient-bitbake/src/lru_cache.rs:22-49 | Over every trace the smaller cache stays included in the larger one: entries, values and order |
| LruCache.HitsStayHits | convenient-bitbake/src/lru_cache.rs:22-49 | Every lookup of a trace that hits in the smaller cache hits in the larger one, with the same value |
| LruCache.LargerCacheHoldsMore | convenient-bitbake/src/lru_cache.rs:22-49 | Starting empty, for capacities c and d with c at most d: after every trace the larger cache holds what the smaller one does, in the same order, and every lookup on the way that hits in the smaller one hits in the larger one |
| PythonIR.PythonIR.AddOperation | convenient-bitbake/src/python_ir.rs:249-258 | Appends one operation under the next id, without a result |
| PythonIR.PythonIR.AddProducer | convenient-bitbake/src/python_ir.rs:261-279 | Appends one operation whose result is a fresh value |
| PythonIR.PythonIR.AddStringLiteral | convenient-bitbake/src/python_ir.rs:268-279 | Appends a literal |
| PythonIR.PythonIR.AddGetVar | convenient-bitbake/src/python_ir.rs:282-297 | Appends a read and records it |
| PythonIR.PythonIR.AddSetVar | convenient-bitbake/src/python_ir.rs:300-305 | Appends a write and records its value as the latest |
| PythonIR.PythonIR.AddAppendVar | convenient-bitbake/src/python_ir.rs:308-317 | Appends and records the value only if the variable has none recorded |
| PythonIR.PythonIR.AddPrependVar | convenient-bitbake/src/python_ir.rs:320-328 | Prepends and records the value only if the variable has none recorded |
| PythonIR.PythonIR.AddConditional | convenient-bitbake/src/python_ir.rs:331-349 | Appends a conditional |
| PythonIR.PythonIR.AddContains | convenient-bitbake/src/python_ir.rs:352-375 | Appends a containment test and records its read |
| PythonIR.PythonIR.CalculateComplexity | convenient-bitbake/src/python_ir.rs:381-419 | For any map order the score is the sum of the costs, at most 100 |
| PythonIR.CostAmongFewer | convenient-bitbake/src/python_ir.rs:381-419 | Taking one operation out of the remaining ones takes exactly its cost off the rest |
| PythonIR.PythonIR.ExecutionStrategy | convenient-bitbake/src/python_ir.rs:422-428 | Static up to 3, hybrid up to 50, the interpreter above |
| PythonIR.PythonIRBuilder.Build | convenient-bitbake/src/python_ir.rs:545-548 | Returns the code as built, with its score |
| PythonExecutor.IRExecutor.ExecuteOperationStatic | convenient-bitbake/src/python_ir_executor.rs:187-247 | One operation in static mode |
| PythonExecutor.IRExecutor.ExecuteOperationHybrid | convenient-bitbake/src/python_ir_executor.rs:250-401 | One operation in hybrid mode, and whether it is supported; what each computes is in `PythonOperations` |
| PythonExecutor.IRExecutor.ExecuteStatic | convenient-bitbake/src/python_ir_executor.rs:114-129 | Runs all operations in static mode |
| PythonExecutor.IRExecutor.ExecuteHybrid | convenient-bitbake/src/python_ir_executor.rs:132-144 | Runs the operations up to the first that fails |
| PythonExecutor.FirstComplexIsFirst | convenient-bitbake/src/python_ir_executor.rs:150-152 | The code that is picked for the interpreter is that of the first complex operation, if there is one |
| PythonExecutor.IRExecutor.ExecutePython | convenient-bitbake/src/python_ir_executor.rs:147-184 | Hands that code and the initial variables to the interpreter, and gives a failure without variables if there is none or the interpreter fails |
| PythonExecutor.IRExecutor.Execute | convenient-bitbake/src/python_ir_executor.rs:102-111 | Executes in the way that the score chooses, with the state and result of that way on success and on failure |
| PythonExecutor.FailureStays | convenient-bitbake/src/python_ir_executor.rs:132-138 | Nothing is executed after a failure |
| PythonOperations.ContainsIff | convenient-bitbake/src/python_ir_executor.rs:333-350 | A containment test succeeds exactly if the item is nonempty, has no whitespace and stands in the value between whitespace or ends |
| PythonOperations.ReadGives | convenient-bitbake/src/python_ir_executor.rs:259-274 | A read gives the value as it is or expanded, and the empty text for an unknown variable |
| PythonOperations.ConditionIff | convenient-bitbake/src/python_ir_executor.rs:425-431 | A condition is false exactly for False, false, 0, no and the empty text |
| PythonOperations.LogicalIff | convenient-bitbake/src/python_ir_executor.rs:371-379 | The connectives by the truth of their operands, read back from the texts they write |
| PythonOperations.DeMorgan | convenient-bitbake/src/python_ir_executor.rs:527-537 | The negated conjunction and the disjunction of the negations come out alike |
| PythonOperations.ComparesIff | convenient-bitbake/src/python_ir_executor.rs:512-525 | The seven comparisons by the first difference of the texts; exactly one of smaller, equal and greater holds; `in` is standing on its own |
| PythonOperations.ConcatIsAssociative | convenient-bitbake/src/python_ir_executor.rs:308-315 | Three values put together from the left or from the right give the same text, undefined ones counting as empty |
| PythonOperations.ListGives | convenient-bitbake/src/python_ir_executor.rs:381-389 | A list becomes the texts of its defined items with spaces between them |
| PythonOperations.ListHolds | convenient-bitbake/src/python_ir_executor.rs:334-389 | A containment test on a list of words finds exactly those words |
| PythonOperations.DeletedIsGone | convenient-bitbake/src/python_ir_executor.rs:391-394 | A deleted variable reads as empty, the others as before; deleting cannot fail |
| PythonOperations.MethodFailsIff | convenient-bitbake/src/python_ir_executor.rs:352-361 | Which string methods fail for want of an argument, and what the others are given |
| StringOrder.AtMostIff | convenient-bitbake/src/python_ir_executor.rs:512-524 | The order of texts is decided by the first difference |
| PythonTheorems.MadeCode | convenient-bitbake/src/python_ir.rs:249-375 | Through the interface only literals, reads, conditionals and containment tests get results |
| PythonTheorems.StaticIsSound | convenient-bitbake/src/python_ir.rs:381-428 | At score 3 or less static and hybrid execution end in the same variables, values and read log |
| PythonTheorems.HybridFailsIff | convenient-bitbake/src/python_ir_executor.rs:250-401 | Hybrid execution fails exactly if the code holds a comprehension, loop, branch or complex operation |
| PythonTheorems.BuilderCodeNeverFails | convenient-bitbake/src/python_ir.rs:381-548 | Code of the builder with score 50 or less never fails in hybrid mode |
| PythonTheorems.AddedComprehensionFails | convenient-bitbake/src/python_ir.rs:249-258 | Not so for operations added directly: a comprehension chooses hybrid execution and fails in it |
| PythonTheorems.ComplexForcesPython | convenient-bitbake/src/python_ir.rs:413-428 | A complex operation forces the interpreter |
| PythonTheorems.EmittedIsSsa | convenient-bitbake/src/python_ir.rs:249-375 | Code emitted through the builder defines every value once, before its uses |
| PythonTheorems.EmitExprEvaluates | convenient-bitbake/src/python_ir_executor.rs:250-350 | Executing the code of an expression tree puts its value into its result, logs its reads and disturbs nothing else |
| PythonTheorems.CompilationKeepsMeaning | convenient-bitbake/src/python_ir_executor.rs:132-350 | For every statement list the hybrid run ends in the variables and read log of direct evaluation, in which a test asks whether the item stands on its own in the variable and a condition whether its text is one of the five that count as false; and the builder has recorded the same reads |
| PythonTheorems.CompiledCost | convenient-bitbake/src/python_ir.rs:381-412 | The score of compiled statements, from the statements alone: 1 or 4 for a read, 5 for a test or a choice, 1 for setting and 2 for extending a variable |
| PythonTheorems.CompiledExecution | convenient-bitbake/src/python_ir_executor.rs:102-184 | Executing compiled statements succeeds exactly up to a cost of 50, counted on the statements, and then the result is that of direct evaluation, whichever mode is chosen |
| PythonTheorems.CompileAndExecute | convenient-bitbake/src/python_ir_executor.rs:102-144 | The same through builder, score and executor as they stand |

## Left out

- Integer widths: ids, counters and scores are unbounded; the wrap-around of 32-bit ids and the overflow of the score sum are not modelled.
- `before` constraints of tasks: the dependency map ignores them, and so does the model.
- Direct mutation of recipes and tasks through `get_recipe_mut` and `get_task_mut`, deserialised graphs and deserialised code: they can break the arena's invariants.
- Providers, runtime dependencies, dependents, DOT output and statistics of the recipe graph: single loops over maps.
- `get_critical_path`, `estimate_critical_path_time` and `get_parallelism_level` of the scheduler: reports.
- Adding search paths to an include resolver that already has cached files; paths that spell one file several ways.
- IncludeResolver.IncludeResolver.ResolveAllIncludes: which error is reported may differ from the uncached resolver, because leftover entries are reported as a cycle; only success and its result are proved equal.
- ResolverTheorems.ExpandersAgree: is for names without `:-`, because with them the expanders differ, as `DefaultsDisagree` shows; references inside defaults are in the model of `resolve` but not in the results.
- AtomConditions.AtomConditionIsExact: leaves out texts in which a parenthesis outside quotes is closed before it is opened although the numbers match, which are no Python conditions; some of them can be atoms.
- Nested references, literals that end in `$` and tables with reachable cycles: modelled by the methods, outside the results about full expansion.
- The built-in variables that the resolver derives from a recipe's name and version: part of its given map.
- LogicalEval.EvalLogicalExpression: texts are ASCII, so that byte and character positions agree.
- ArgumentTheorems.RoundTripIff: is for texts free of single quotes, which the written form cannot hold, and for ASCII texts.
- ArgumentTheorems.ReadOfPrint: is for arguments whose quotes close and whose parentheses match; the splitter is modelled on all texts.
- The wording of parse errors, and the lexer: tokens and their spans are given.
- Scripts.RecoveryGoesOn: is for lines that no statement begins; names without an operator and assignments that break off are in `ParseFrom`, with their nodes and errors.
- SignatureTheorems.SignaturesTrackCones: assumes an injective hash, names and hashes free of `|`, distinct task names and recipe names free of colons; SHA-256 is not part of this model.
- Saving and loading signatures, file hashes, cleaning of outputs: input and output.
- PythonExecutor.IRExecutor.ExecutePython: the interpreter is a parameter; which code it is given and what is made of its success or failure is modelled.
- PythonExecutor.IRExecutor.ExecuteOperationHybrid: the texts that string methods make of their arguments are a parameter; their missing arguments are modelled. Error messages are not.
- Expansion of references inside the executor is a total parameter, because its loops need not end on self-references.
- Recognition of Python code by patterns, override operators, class tables, source addresses and task bodies: not part of this model.
