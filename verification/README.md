# Verified model of the model hub

Dafny 4.11. `dafny verify dfyconfig.toml` checks the whole project.

The hub takes requests for AI models, routes them to providers, polls the providers, bills the clients and runs
workflows of such requests. Its state lives in MongoDB documents, Redis keys and Bull queues that many workers read
and conditionally update. This project models the parts whose correctness does not show in any single function and
proves what they keep.

**Workflow engine.** `ExecutionGraph` and `CycleDetection` turn a definition into a graph, layer it and look for
cycles; `Digraph` is the independent reference: walks, acyclicity, longest chains. `WorkflowProtocol` is the run as
a protocol: every write of a worker is decided from a snapshot and guarded by a condition on the current document. A
history lets each write be decided from any earlier state of the run, which covers every interleaving of any number of
workers and every staleness; the safety results hold of all histories. `WorkflowEngine` is the scheduler itself, with
its loops. Between any two of its database calls an arbitrary batch of writes by others may come in. `WorkflowPass`
says what a pass does: as a function of the run, which an undisturbed scheduler computes, and as the writes that it
has issued, whoever interferes; `WorkflowBranches` says on edges, statuses and branches alone which nodes it skips,
leaves waiting and starts. `WorkflowSlots` counts the running nodes, `WorkflowProgress` has progress under any
interleaving. `WorkflowSelection` has the two closures, `WorkflowRetry` retry as one step and runs with retries, in
which the lease is what it is in Redis, an id in a set; `JobIds` has the ids under which jobs are queued.

**Expressions.** `Expressions` is the reference: abstract syntax, meaning, grammar, printer. `ExpressionLexer` and
`ExpressionParser` are the hand-written lexer and the one-pass evaluator, proved to compute that meaning.
`ExpressionPrecedence` prints with the fewest parentheses and reads back. `ExpressionTokens`, `ExpressionLaws` and
`ExpressionValues` describe the language without the grammar: its tokens, its rows of operators, and what they yield.

**Money.** `Wallets`, `Billing` and `TaskLifecycle` are the services with their collections as fields; `BillingLaws`
has the amounts of each operation. `TaskBilling` runs creations, submissions, polls, cancellations and credits in any
order; `TaskPolling` says when tasks are polled and how their status moves. Amounts are exact (`real`).

**Circuit breaker.** `CircuitBreaker` is the store with its compare-and-set, expiring keys and one-second cache, and
the service on top; `BreakerRuns` has the runs, once with readers that act on any state whatever and once with fresh
reads and a clock, and `BreakerLaws` when a breaker moves, told from the events; `BreakerCodec` and `Json` have the
stored text and the script's pattern.

**Limits, routing, MP4.** `SlidingWindow` and `RunLeases` are the rate limiter and the lease script; `Routing`,
`RoutingProperties`, `RoutingLaws` and `Weights` the choice of rule and provider; `Mp4Boxes`, `Mp4Metadata` and
`Mp4Laws` the box walker of ISO/IEC 14496-12 section 4.2 and what it extracts. `Options`, `FiniteSets` and `Text` are
helpers.

Classes keep the fields that the services update, and the contracts of their methods tie the new fields to a function
of the old ones; the results about those functions are lemmas. A rejected promise or an exception is a result value.

Where the code is not what its documentation or the names suggest, the model follows the code and a lemma says exactly
how far it goes:

- A labelled edge never holds its target back, so it can start before the condition that chooses the branch
  (`LabelledEdgesNeverHoldBack`, `BranchOvertakesItsCondition`), and nodes are claimed as their own dependencies
  finish, while
  `docs/workflow-and-portal.md` describes scheduling layer by layer.
- `detectCycle` treats the empty id as no parent, so its report may stay open (`DetectCycle` has the exact condition,
  `AnOpenReport` a definition).
- A claim decided before a retry repeats a job id exactly when its node was retried
  (`ClaimRepeatsExactlyWhenRetriedSince`, `StaleClaimAfterRetryRepeatsAJob`).
- A run that is retried before the lease of its failure is removed loses the new lease too
  (`LeaseSurvivesExactlyWhenNoneIsOwed`, `EarlyRetryLosesItsLease`).
- A failure under fail-fast whose last write comes after a retry ends the retried run
  (`OnlyFailFastEndsUnfinishedRuns`, `ALateFailureEndsTheRetriedRun`).
- In `continue` mode refused jobs let more nodes run than there are slots (`SlotsOverrunExactly`,
  `RefusedJobOverrunsTheSlots`).
- A retry opens skipped nodes again although nodes behind them may have run (`RetryKeepsOrderExactlyWhenNoneIsOvertaken`,
  `ARetryOvertakes`).
- `docs/billing-system.md` calls billing idempotent, but `settle` on a settled record debits again
  (`SettlingAgainDebitsAgain`, `TwoSettlementsOfOneTask`); that tasks are charged once rests on their statuses
  (`ReachableIsOrderly`).
- A task that is cancelled, whose provider has no adapter, or that is done at once with a usage that cannot be worked
  out is never refunded; every other end frees the reservation (`UnrefundedMoneyStaysFrozen`, `ACancelledReservation`,
  `AnUnknownUsage`). A task that is done at once may succeed unpaid (`ImmediateSuccessMayBeUnpaid`,
  `AnUnpaidSuccess`). A release that fails three times leaves money frozen (`LostReleaseLeavesMoneyFrozen`,
  `ALostRelease`).
- A submitted task without a provider's id, or whose provider has no adapter, stays due and never times out
  (`NotYetPolled`). One whose provider has succeeded but whose settlement does not go through stays due as it is, the
  poll not counted, until it is too old (`OpenPollsComeLater`, `TimesOutExactly`).
- A stale worker ends the cooldown of an open breaker early, or moves its opening time, exactly when it records a
  result on a copy of another opening or finds the cooldown of such a copy over (`StaysOpenExactlyWhileUndisturbed`,
  `AStaleEvaluationAdmitsEarly`).
- Simulation and production disagree on a rule without an `enabled` field (`SameCandidates`), and on ties
  (`WinnerIgnoresFetchOrder`).
- Calls that the rate limiter denies still fill its window (`AllowedExactlyWithinTheLimit`).
- A `moov` in the bytes before the real box is taken for it (`WrittenMoovIsFound`, `AnEarlierMoovIsFound`).
- In expressions both operands of `&&` and `||` are always evaluated.

## Model

| member | source | states |
|---|---|---|
| ExecutionGraph.Resolve | src/workflow/execution-graph.resolver.ts:29-99 | the graph has exactly the defined ids and the pairs of the edges that join two of them, each once and in both adjacency lists; entry and exit nodes are those without dependencies and without dependents |
| ExecutionGraph.TopologicalSort | src/workflow/execution-graph.resolver.ts:106-150 | layer k holds, once each, exactly the nodes whose longest dependency chain has k edges; no layer is empty; every node is emitted exactly when the graph is acyclic |
| Digraph.LongestChainUnique | src/workflow/execution-graph.resolver.ts:106-150 | a node has one longest-chain length, so no node is emitted in two layers |
| ExecutionGraph.LayersAreComplete | src/workflow/execution-graph.resolver.ts:106-150 | a layering that stops growing contains every node that has a longest chain, so what is left out hangs behind a cycle |
| ExecutionGraph.GetParallelNodes | src/workflow/execution-graph.resolver.ts:235-255 | the nodes not completed whose dependencies all are, each once |
| ExecutionGraph.ParallelNodesAreTheNextLayer | src/workflow/execution-graph.resolver.ts:235-255 | fed the completed layers, getParallelNodes gives the next layer of the sort as a set, and nothing after the last one |
| CycleDetection.DetectCycle | src/workflow/execution-graph.resolver.ts:157-227 | null exactly when the graph has no directed cycle, self-loops included; a report is a walk that ends in the back edge of a search path from an entry node or a node no entry leads to, cut exactly where the parent walk stops, and closes up exactly when the cycle is a self-loop or no empty id lies on it before its last node |
| CycleDetection.AnOpenReport | src/workflow/execution-graph.resolver.ts:180-187 | a definition with an empty node id whose report is a, b and the empty id: it does not close up |
| CycleDetection.CycleDetector.SearchRoots | src/workflow/execution-graph.resolver.ts:207-222 | a report comes from a root that no earlier root leads to |
| CycleDetection.CycleDetector.BuildCycle | src/workflow/execution-graph.resolver.ts:177-192 | the report is a walk whose last two nodes are the ends of the back edge found; it closes up exactly when the cycle is a self-loop or no node with an empty id lies on it before its last node |
| CycleDetection.CycleDetector.Dfs | src/workflow/execution-graph.resolver.ts:173-205 | a search without a report finishes the node and everything reachable from it; a report certifies a cycle |
| CycleDetection.ReportIsRight | src/workflow/execution-graph.resolver.ts:177-192 | the parent walk from the back edge is a report, with the exact condition under which it closes up |
| CycleDetection.Validate | src/workflow/execution-graph.resolver.ts:296-377 | a definition is accepted exactly when ids are unique, nodes complete, edge ends known and the graph acyclic; an acyclic one comes with its chain-length layers, all nodes included |
| CycleDetection.WellFormedWrittenOut | src/workflow/execution-graph.resolver.ts:305-344 | what well-formed means: unique node and edge ids, known ends, and for each node type the data that it needs |
| Digraph.FinishOrderRulesOutCycles | src/workflow/execution-graph.resolver.ts:157-227 | an order in which every node comes after all it leads to rules out cycles: what the black nodes of the search certify |
| WorkflowProtocol.HistoriesAreSafe | src/workflow/workflow-execution.service.ts:596-832 | under any interleaving of stale workers every reachable run keeps its statuses coherent, respects dependency order, explains each skip and dispatches each (node, attempt) once; nothing terminal changes again |
| WorkflowProtocol.StepKeepsSafe | src/workflow/workflow-execution.service.ts:629-649 | one conditional write, decided from any earlier state, keeps all of that |
| WorkflowProtocol.DependencyOrder | src/workflow/workflow-execution.service.ts:717-724 | a node that runs or has run has every source of its unlabelled edges succeeded or skipped |
| WorkflowProtocol.OneFinalisation | src/workflow/workflow-execution.service.ts:424-446 | at most one finalising write wins a run without retries; before it the lease is untouched, after it nodes and status never change and the lease stays until the winner removes it, once |
| WorkflowProtocol.OneLease | src/workflow/workflow-execution.service.ts:685-686 | without retries one release is owed or done as soon as the run has ended and none before, and the lease that the run got is there exactly while none is done |
| WorkflowProtocol.FinalStatusIsRight | src/workflow/workflow-execution.service.ts:659-690 | a succeeded run has only succeeded or skipped nodes, a failed one has a failed node, a cancelled one has no pending or running node, a running one no cancelled node; every skip of a selected node has a failed or unchosen source to explain it |
| WorkflowProtocol.DispatchAtMostOnce | src/workflow/workflow-execution.service.ts:756-775 | no (node, attempt) is handed to the queue twice in any history without retry |
| WorkflowProtocol.LabelledEdgesNeverHoldBack | src/workflow/workflow-execution.service.ts:717-730 | in every state of every active run a pending node may be claimed exactly when each unlabelled edge into it has a source that succeeded or was skipped |
| WorkflowProtocol.ReadyAtStart | src/workflow/workflow-execution.service.ts:717-730 | so the first pass may claim a selected node exactly when every edge into it from a selected node carries a label |
| WorkflowProtocol.BranchOvertakesItsCondition | src/workflow/workflow-execution.service.ts:826-833 | a run in which the target of a labelled edge is claimed while its condition is still pending |
| WorkflowProtocol.TransitionsAreBounded | src/workflow/workflow-execution.service.ts:603-731 | no history makes more than two status changes per node |
| WorkflowProtocol.StepUsesMoves | src/workflow/workflow-execution.service.ts:603-731 | a write uses up at least one of the remaining moves for each node it changes |
| WorkflowEngine.SomePendingNodeIsReady | src/workflow/workflow-execution.service.ts:651-731 | in an acyclic run with nothing left to skip, nothing running and something unfinished, some pending node is ready |
| WorkflowEngine.WorkflowExecution.SkipToFixpoint | src/workflow/workflow-execution.service.ts:603-657 | ends whatever others do, and a snapshot that it ends with has had one of its skips issued if it had any; undisturbed, it is `SkipAll`, the skip loop of `Pass`, whose skips `PassSkipsExactly` and `UnchosenIsSkipped` fix on edges, statuses and branches |
| WorkflowEngine.WorkflowExecution.SkipNodes | src/workflow/workflow-execution.service.ts:634-653 | reports a change only if a node moved; undisturbed, exactly the nodes asked for are skipped |
| WorkflowEngine.WorkflowExecution.ScheduleReadyNodes | src/workflow/workflow-execution.service.ts:596-732 | under interference the pass extends the history and follows up every earlier change; undisturbed it makes of the run exactly what `Pass` says (`UnchosenIsSkipped`, `PassSkipsExactly`, `PassUsesTheSlots` say what that is), on an acyclic graph leaves an active run with a running node, and stays within max(1, maxParallelism) if it started so and either no job is refused or a refusal ends the run |
| WorkflowEngine.WorkflowExecution.DispatchReadyNodes | src/workflow/workflow-execution.service.ts:705-731 | the claiming half of a pass: a free slot and a ready node mean that a claim is issued; undisturbed it is `Dispatch` from the snapshot, with the same progress and bound |
| WorkflowEngine.WorkflowExecution.EnqueueNode | src/workflow/workflow-execution.service.ts:734-808 | the claim is issued whatever others do; undisturbed, a claimed node whose job is accepted runs, and one whose job is refused is failed, with all that follows from it, before the call returns |
| WorkflowEngine.WorkflowExecution.OnNodeComplete | src/workflow/workflow-execution.service.ts:395-465 | the report is written once and followed up if it changed the run; undisturbed, the report of a running node uses up a move and leaves the run ended or with a running node |
| WorkflowEngine.WorkflowExecution.OnNodeFailed | src/workflow/workflow-execution.service.ts:467-531 | the same for a failure, with both failure strategies; under fail-fast fewer nodes run afterwards |
| WorkflowEngine.WorkflowExecution.FailRun | src/workflow/workflow-execution.service.ts:501-525 | undisturbed, a failure under fail-fast ends the run and changes no other node |
| WorkflowEngine.WorkflowExecution.Cancel | src/workflow/workflow-execution.service.ts:171-247 | a cancelled run has only finished nodes; a refused cancellation finds a run that is no longer active |
| WorkflowEngine.WorkflowExecution.UpdateOne | src/workflow/workflow-execution.service.ts:634-649 | the write takes effect exactly when its condition holds of the document at that time, after whatever other workers wrote |
| WorkflowEngine.RunToEnd | src/workflow/workflow-execution.service.ts:596-732 | whatever jobs report and in whatever order, an acyclic run ends after at most 2 x |nodes| reports |
| WorkflowSelection.ResolveTargetNodeIds | src/workflow/workflow-execution.service.ts:567-594 | an unknown id is refused; otherwise exactly the requested nodes and those with a path to one of them, or all nodes when none is requested |
| WorkflowSelection.DownstreamIds | src/workflow/workflow-execution.service.ts:300-313 | exactly the retried nodes and those reachable from them |
| WorkflowProgress.DoneWorkersLeaveARunningNode | src/workflow/workflow-execution.service.ts:596-732 | under any interleaving, once each report, each round of skips and the start have been followed by a finished pass, an acyclic run that is still active has a running node |
| WorkflowProgress.NoIdlePass | src/workflow/workflow-execution.service.ts:603-731 | on an active acyclic run without a running node no pass that read its current nodes can have finished |
| WorkflowSlots.RefusedJobOverrunsTheSlots | src/workflow/workflow-execution.service.ts:596-732 | the scheduler run on three independent nodes in continue mode, with one slot and a queue that refuses one job: after the first pass two nodes run |
| WorkflowSlots.SlotsOverrunExactly | src/workflow/workflow-execution.service.ts:705-808 | in continue mode, when no pending node waits for another, an undisturbed pass lets more nodes run than there are slots exactly when the queue accepts more jobs than there are free slots and refuses one before the free slots are used up |
| WorkflowSlots.PassRuns | src/workflow/workflow-execution.service.ts:705-808 | the number of nodes that then run, worked out on the verdicts of the queue alone, inner passes included |
| WorkflowSlots.FillOverrunsExactly | src/workflow/workflow-execution.service.ts:710-731 | nested passes over a list of verdicts exceed their slots exactly under that condition |
| WorkflowBranches.UnchosenIsSkipped | src/workflow/workflow-execution.service.ts:616-633 | an undisturbed pass skips every pending node that has an edge from an unskipped node of the run and whose every such edge is labelled and comes from a source that has ended with another branch |
| WorkflowBranches.BehindAFailureIsSkipped | src/workflow/workflow-execution.service.ts:625-633 | it skips every pending node behind a failed or cancelled source whose edge has no label or the label that the source chose |
| WorkflowBranches.PassSkipsExactly | src/workflow/workflow-execution.service.ts:603-657 | it skips nothing without one of these two reasons, and while the run stays active it leaves no node pending that has one |
| WorkflowBranches.ReportSkipsTheUnchosen | src/workflow/workflow-execution.service.ts:395-465 | the report of a condition stores its branch and success, and a pending target all of whose edges come from it with another label, or from sources that ended with another branch, is skipped before the report returns |
| WorkflowBranches.ReportKeepsTheChosen | src/workflow/workflow-execution.service.ts:826-833 | a target of the condition with its branch as label, or without a label, is skipped by the report only because another source failed or was cancelled |
| WorkflowBranches.PassUsesTheSlots | src/workflow/workflow-execution.service.ts:705-731 | unless the pass ends the run, max(1, maxParallelism) nodes run after it, or every pending node waits for a source that has neither succeeded nor been skipped; also when jobs are refused on the way |
| WorkflowBranches.PassKeepsToTheSlots | src/workflow/workflow-execution.service.ts:705-731 | no more than max(1, maxParallelism) nodes run after a pass that found no more running, when no job is refused or a refusal ends the run |
| WorkflowRetry.Retry | src/workflow/workflow-execution.service.ts:249-360 | conflict exactly when the run has not failed or no failed node was asked for, then the missing workflow, the policy and the full lease set refuse; otherwise retried nodes start a new attempt, skipped nodes downstream are pending again, all else is unchanged, and the run is leased if it was or if the lease is granted |
| WorkflowRetry.RetriesDispatchOnce | src/workflow/workflow-execution.service.ts:289-325 | with retries, and with every write decided from any state since the last retry, no (node, attempt) is enqueued twice and no begun attempt is missing |
| WorkflowRetry.RetryKeepsOrderExactlyWhenNoneIsOvertaken | src/workflow/workflow-execution.service.ts:289-325 | a retry keeps every started node behind finished unlabelled sources exactly when none of the skipped nodes that it opens again has a started target that is not retried |
| WorkflowRetry.OrderSurvivesRetries | src/workflow/workflow-execution.service.ts:289-325 | over whole runs with retries and stale writes the dependency order holds as long as no retry opens a node behind which another has started |
| WorkflowRetry.ARetryOvertakes | src/workflow/workflow-execution.service.ts:289-325 | a whole run in which a retry makes a skipped node pending again behind a node that has succeeded |
| WorkflowRetry.ClaimRepeatsExactlyWhenRetriedSince | src/workflow/workflow-execution.service.ts:756-775 | a claim decided from any earlier state, also before a retry, repeats a job exactly when the node's attempt has moved on since |
| WorkflowRetry.StaleClaimAfterRetryRepeatsAJob | src/workflow/workflow-execution.service.ts:756-775 | a whole run whose first state justifies a claim that, after the retry at its end, enqueues the old attempt again |
| WorkflowRetry.AttemptsGrow | src/workflow/workflow-execution.service.ts:289-299 | attempts never go back, across retries either |
| WorkflowRetry.LeaseWhileRunning | src/workflow/workflow-policy.service.ts:138-171 | while a run stays active its lease is lost exactly at the first release that was owed from before |
| WorkflowRetry.LeaseSurvivesExactlyWhenNoneIsOwed | src/workflow/workflow-execution.service.ts:273-287 | an active leased run, such as one just retried, keeps its lease in every continuation while active exactly when no release is owed at that time |
| WorkflowRetry.EarlyRetryLosesItsLease | src/workflow/workflow-execution.service.ts:523-523 | a run retried before its release goes on running without a lease |
| WorkflowRetry.PatientRetriesKeepTheLease | src/workflow/workflow-execution.service.ts:273-287 | if every retry waits for the release before it, an active run owes none and keeps the lease of its last start, and a finished one owes at most one |
| WorkflowRetry.OnlyFailFastEndsUnfinishedRuns | src/workflow/workflow-execution.service.ts:424-510 | of the finishing writes, whenever they were decided, exactly that of a failure under fail-fast ends an active run with an unfinished node |
| WorkflowRetry.ALateFailureEndsTheRetriedRun | src/workflow/workflow-execution.service.ts:494-510 | a whole run in which two nodes fail, the first failure ends the run, a retry reopens both, and the late write of the second failure ends the retried run before a node is tried |
| JobIds.JobIdInjective | src/workflow/workflow-execution.service.ts:757-759 | within a run, equal job ids come from equal node ids, as texts, and equal attempts |
| JobIds.Utf8Injective | src/workflow/workflow-execution.service.ts:758-758 | two texts with the same UTF-8 form are the same |
| JobIds.Base64Injective | src/workflow/workflow-execution.service.ts:758-758 | the URL-safe base64 of two byte strings is equal only if they are |
| JobIds.DigitsInOrder | src/workflow/workflow-execution.service.ts:758-758 | the 64 digits and their order |
| JobIds.FourDigitsHoldThreeOctets | src/workflow/workflow-execution.service.ts:758-758 | four digits of six bits each hold the same number as three octets |
| JobIds.Utf8HoldsTheCharacter | src/workflow/workflow-execution.service.ts:758-758 | the number of octets of a character by its size, and its bits in them |
| ExpressionParser.SafeExpressionParser.Parse | src/workflow/safe-expression.service.ts:166-170 | the one-pass evaluator returns a value exactly when the token list parses to an abstract syntax tree within the depth limit and that tree evaluates to the value; which tree that is, `StrongerRowBindsFirst` says operator by operator |
| ExpressionParser.SafeExpressionParser.ParseOr | src/workflow/safe-expression.service.ts:172-179 | reads exactly the tokens of an expression of the weakest row of `StrongerRowBindsFirst`, the one of ||, and yields its value, or fails where parsing or evaluation fails |
| ExpressionParser.SafeExpressionParser.ParseAnd | src/workflow/safe-expression.service.ts:181-188 | the same for the row above it, the one of && |
| ExpressionParser.SafeExpressionParser.ParseEquality | src/workflow/safe-expression.service.ts:190-199 | the same at the level of the equality operators |
| ExpressionParser.SafeExpressionParser.ParseComparison | src/workflow/safe-expression.service.ts:201-214 | the same at the level of the comparisons |
| ExpressionParser.SafeExpressionParser.ParseAdditive | src/workflow/safe-expression.service.ts:216-230 | the same at the level of + and - |
| ExpressionParser.SafeExpressionParser.ParseMultiplicative | src/workflow/safe-expression.service.ts:232-246 | the same at the level of *, / and %, division by zero failing |
| ExpressionParser.SafeExpressionParser.ParseUnary | src/workflow/safe-expression.service.ts:248-253 | the same for prefix operators |
| ExpressionParser.SafeExpressionParser.ParsePrimary | src/workflow/safe-expression.service.ts:255-307 | the same for literals, paths and parentheses, the nesting depth restored on success |
| ExpressionParser.SafeExpressionParser.ParseAccessors | src/workflow/safe-expression.service.ts:277-296 | the same for property accesses: only literal ones, and no calls |
| Expressions.PrintParseRoundTrip | src/workflow/safe-expression.service.ts:166-307 | printing any tree fully parenthesised, within the depth limit, and parsing gives the tree back |
| Expressions.PrintedParses | src/workflow/safe-expression.service.ts:248-307 | a printed expression is read back wherever it stands in a token list |
| ExpressionPrecedence.MinimalPrintParseRoundTrip | src/workflow/safe-expression.service.ts:172-253 | printing any tree with only the parentheses that the six rows of operators and left associativity require, and parsing, gives the tree back |
| ExpressionPrecedence.ShownReads | src/workflow/safe-expression.service.ts:172-253 | a minimally printed operand is read at its level wherever it stands |
| ExpressionPrecedence.MinimalTextMeansTheExpression | src/workflow/safe-expression.service.ts:30-54 | the text with the fewest parentheses evaluates to the meaning of the tree |
| ExpressionLaws.StrongerRowBindsFirst | src/workflow/safe-expression.service.ts:172-246 | the operators stand in six rows, named text by text; of two next to each other the one in the stronger row takes the operand between them, and within a row the left one |
| ExpressionLaws.OnlyTheRowsAreOperators | src/workflow/safe-expression.service.ts:172-246 | two operands with an operator token between them parse exactly when its text stands in one of the rows |
| ExpressionLaws.PrefixBindsFirst | src/workflow/safe-expression.service.ts:248-253 | the prefix operators are !, - and +, and they bind before every binary operator |
| ExpressionLaws.OnlyTheseNames | src/workflow/safe-expression.service.ts:268-276 | a lone identifier is one of the three keywords or one of the five context names, or it is refused |
| ExpressionLaws.ThirtyTwoLevels | src/workflow/safe-expression.service.ts:255-307 | a fully parenthesised expression is read back exactly when it nests at most 32 levels deep |
| ExpressionLaws.PrintedIsOperand | src/workflow/safe-expression.service.ts:255-307 | literals, paths and anything in parentheses are operands wherever they stand |
| ExpressionValues.Connectives | src/workflow/safe-expression.service.ts:172-188 | the connectives and the negation yield booleans by the five falsy values |
| ExpressionValues.OrOfAnd | src/workflow/safe-expression.service.ts:172-188 | a, or, b, and, c evaluates to the truth of a or that of b and c together |
| ExpressionValues.BothOperandsAreEvaluated | src/workflow/safe-expression.service.ts:172-188 | an operator has no value unless all its operands have one, the connectives included |
| ExpressionValues.Equality | src/workflow/safe-expression.service.ts:190-199 | the four equality operators: same kind and content, objects by reference, the short forms no laxer than the long ones |
| ExpressionValues.Comparisons | src/workflow/safe-expression.service.ts:201-214 | numbers compare as numbers, mirrored operators agree, and everything else is left to JavaScript |
| ExpressionValues.NumbersAddAndDivide | src/workflow/safe-expression.service.ts:216-246 | sum and product; the difference undoes the sum and the quotient the product; no quotient by zero |
| ExpressionValues.RemainderIsWhatIsLeft | src/workflow/safe-expression.service.ts:232-246 | the remainder is what an integral multiple of the divisor leaves, smaller than it and of the sign of the dividend; none for zero |
| ExpressionValues.OnlyNumbersCompute | src/workflow/safe-expression.service.ts:216-246 | a text on either side makes + a concatenation; any other operand that is not a number fails |
| ExpressionValues.Signs | src/workflow/safe-expression.service.ts:248-253 | the prefix minus gives the number that adds up to zero, the prefix plus the number itself, and both fail on anything else |
| ExpressionValues.Accesses | src/workflow/safe-expression.service.ts:309-322 | an access reads an own field or yields undefined, and fails on the forbidden names, those that their table inherits included |
| ExpressionLexer.Tokenize | src/workflow/safe-expression.service.ts:56-154 | the index-and-push loop yields the tokens of repeated longest-first recognition, eof last, or fails on an unknown token, a bad escape, an open string or more than 512 tokens |
| ExpressionLexer.ScanString | src/workflow/safe-expression.service.ts:98-133 | the loop decodes the escapes up to the first unescaped closing quote and says where the string ends |
| ExpressionLexer.TokensRebuildTheText | src/workflow/safe-expression.service.ts:56-154 | blanks and written tokens, in order, rebuild the text, and there are at most 512 of them |
| ExpressionLexer.LexRebuilds | src/workflow/safe-expression.service.ts:67-150 | the same for any recogniser that consumes a way to write its token |
| ExpressionLexer.RenderLexRoundTrip | src/workflow/safe-expression.service.ts:56-154 | tokenizing the printed form of up to 512 tokens, strings escaped and a space after each, gives the list back |
| ExpressionLexer.EscapeReadsBack | src/workflow/safe-expression.service.ts:101-131 | decoding an escaped string gives the string and stops at its closing quote |
| ExpressionTokens.EveryTokenIsRead | src/workflow/safe-expression.service.ts:56-154 | up to 512 tokens of the language, spelled out kind by kind, are read as themselves |
| ExpressionTokens.OnlyTokensAreRead | src/workflow/safe-expression.service.ts:56-154 | whatever the text, only such tokens are read, and at most 512 |
| ExpressionTokens.LongestOperatorIsRead | src/workflow/safe-expression.service.ts:75-91 | the longest of the sixteen operators that the text starts with is read, whatever follows |
| ExpressionTokens.QuotedTextIsRead | src/workflow/safe-expression.service.ts:98-133 | a text in either kind of quotes reaches up to the next quote of its kind, and fails without one |
| ExpressionTokens.SixEscapes | src/workflow/safe-expression.service.ts:110-125 | the escapes are n, r, t, the backslash and the two quotes; any other fails |
| ExpressionTokens.BlanksAreSkipped | src/workflow/safe-expression.service.ts:69-72 | exactly the 25 blanks of JavaScript are skipped |
| ExpressionTokens.LongTextsAreRefused | src/workflow/safe-expression.service.ts:37-42 | a text of more than 1000 characters has no value |
| ExpressionLexer.TokensEndInEof | src/workflow/safe-expression.service.ts:152-153 | a successful tokenize ends in its only eof, so the parser never reads past it |
| ExpressionLexer.Evaluate | src/workflow/safe-expression.service.ts:30-54 | evaluating a text yields the value of its tree; a blank or overlong text, or one that does not lex or parse, fails |
| ExpressionLexer.PrintedTextMeansTheExpression | src/workflow/safe-expression.service.ts:30-54 | printing any tree as text, within the limits, and evaluating gives the meaning of the tree |
| Wallets.WalletService.FreezeFunds | src/billing/wallet.service.ts:153-184 | succeeds exactly when balance minus frozen covers the amount, then moves it to frozen and logs it; otherwise changes nothing |
| Wallets.WalletService.UnfreezeFunds | src/billing/wallet.service.ts:191-218 | releases the amount if that much is frozen, else changes nothing |
| Wallets.WalletService.DebitFunds | src/billing/wallet.service.ts:228-275 | succeeds exactly when the available balance covers the amount, then takes it and logs balance before and after |
| Wallets.WalletService.CreditFunds | src/billing/wallet.service.ts:282-313 | creates a missing wallet, adds the amount and logs it |
| Wallets.OperationsAreAudited | src/billing/wallet.service.ts:153-313 | after any operation every wallet is what replaying the log gives, and each logged balance continues the one before it |
| Wallets.OperationsStaySolvent | src/billing/wallet.service.ts:153-313 | 0 <= frozen <= balance survives every operation, for a debit of any amount and the others of non-negative ones |
| BillingLaws.WalletsMove | src/billing/wallet.service.ts:153-313 | when each of the four operations is allowed, by how much it moves balance and frozen amount of that wallet alone, and the one entry that it logs; otherwise nothing changes |
| Billing.BillingService.CreateRecord | src/billing/billing.service.ts:66-89 | refuses a second record for a task; otherwise adds an estimated one and nothing else |
| Billing.BillingService.Settle | src/billing/billing.service.ts:117-155 | only an estimated or pre-deducted record becomes settled, with its cost; any other call changes nothing |
| Billing.BillingService.MarkRefunded | src/billing/billing.service.ts:163-197 | only an estimated or pre-deducted record becomes refunded; any other call changes nothing |
| Billing.BillingAdapter.InitBilling | src/billing/billing.adapter.ts:96-168 | the new wallets, log and records and the outcome, for every policy, usage type and failure |
| Billing.BillingAdapter.Settle | src/billing/billing.adapter.ts:182-249 | the new books and whether the call throws: release, then debit of unit price x usage, then the record, a failed debit marking the record failed (`SettleCharges` and `SettleIsFree` say it in amounts) |
| Billing.BillingAdapter.Refund | src/billing/billing.adapter.ts:262-292 | the new books: a reservation is released within the retries and an open record closed |
| Billing.BillingAdapter.RetryUnfreeze | src/billing/billing.adapter.ts:300-335 | the funds are released exactly when one of at most three attempts gets through, and only once |
| Billing.FrozenMoneyIsAccountedFor | src/billing/billing.adapter.ts:96-292 | after any sequence of operations: solvent wallets, a faithful log, frozen money equal to the sum of the open reservations of each key, no record both settled and refunded |
| Billing.ReservationIsFrozen | src/billing/billing.adapter.ts:202-207 | a reservation can always be released in full, so unfreeze never hits its insufficient branch |
| Billing.SettlesExactlyWhenCovered | src/billing/billing.adapter.ts:200-238 | settling an internal task goes through exactly when its owner has a wallet whose available balance, plus the task's own reservation if it has one, covers the cost |
| Billing.EstimateCoversTheCost | src/billing/billing.adapter.ts:202-222 | a cost within the estimate never fails to debit |
| BillingLaws.SettleCharges | src/billing/billing.adapter.ts:182-249 | a settlement of an internal task goes through exactly when its wallet covers unit price x usage, its own reservation included; then it takes exactly that from the balance and an open record is settled with it; the reservation is freed either way, and no other wallet or record changes |
| BillingLaws.SettleIsFree | src/billing/billing.adapter.ts:182-249 | a settlement without a record, or of an external one, takes nothing; an open external record is settled with unit price x usage |
| BillingLaws.RefundFrees | src/billing/billing.adapter.ts:262-335 | a refund frees the reservation exactly if one of three attempts gets through, and closes an open record; the balance stays |
| BillingLaws.InitBills | src/billing/billing.adapter.ts:96-168 | when a new task is ready, short of funds or refused, and that exactly a covered internal task by count or duration has its estimate frozen |
| BillingLaws.CostIsTheProduct | src/billing/billing.adapter.ts:191-192 | nothing costs nothing, and the cost of two usages together is the sum of their costs |
| Billing.SettlingAgainDebitsAgain | src/billing/billing.adapter.ts:224-238 | a second settlement of an internal task goes through exactly when the balance covers the cost again, and then takes it twice while the record shows one settlement |
| Billing.TwoSettlementsOfOneTask | src/billing/billing.adapter.ts:224-249 | a wallet of 10 and a task of price 1: after two settlements 8 are left and the record shows one |
| Billing.LostReleaseLeavesMoneyFrozen | src/billing/billing.adapter.ts:310-335 | when all attempts to release fail, the books stay in step exactly if nothing was reserved |
| Billing.ALostRelease | src/billing/billing.adapter.ts:310-335 | three operations after which 1 of 10 is frozen for no open record |
| Billing.ReservedAfterWrite | src/billing/billing.adapter.ts:140-160 | writing one record changes the sum of reservations by the change of its own share |
| Billing.WriteIsReserved | src/billing/billing.adapter.ts:140-160 | a wallet write and a record write that match keep frozen money equal to the sum of reservations |
| TaskLifecycle.TaskRepository.UpdateStatus | src/task/task.repository.ts:45-63 | moves the task and counts a version exactly when its status is one of the expected ones |
| TaskLifecycle.TaskService.CreateTask | src/task/task.service.ts:194-253 | a task is stored exactly when billing is ready, and billing comes first |
| TaskLifecycle.TaskService.CancelTask | src/task/task.service.ts:318-361 | succeeds exactly for the owner's pending or submitted task; the books are untouched |
| TaskLifecycle.FeatureQueueProcessor.SubmitToProvider | src/queue/feature-queue.processor.ts:69-277 | the new tasks and books for every way a submission ends, and when the queue is asked to try again (`SubmissionsEnd`, `AcceptedIsDueAfterTheInterval`) |
| TaskLifecycle.PollingService.PollSingleTask | src/polling/polling.service.ts:70-326 | the new tasks and books for every way a poll ends, time-out before everything the provider says, settlement before success |
| TaskLifecycle.PollingService.ScheduleNextPoll | src/polling/polling.service.ts:347-350 | the wait grows by a fifth up to the maximum and one poll is counted |
| TaskPolling.NoTaskIsForgotten | src/task/task.repository.ts:65-77 | in every reachable world each SUBMITTED or PROCESSING task is due from some time on |
| TaskPolling.AcceptedIsDueAfterTheInterval | src/queue/feature-queue.processor.ts:212-215 | an accepted task is due exactly from one default interval after its submission on, with no poll counted |
| TaskPolling.OpenPollsComeLater | src/polling/polling.service.ts:70-326 | with positive intervals, a poll that leaves a task open sets a later time exactly unless the provider reported success and the settlement did not go through, or there is no adapter or no provider id; then the task stays as it is |
| TaskPolling.PollsEnd | src/polling/polling.service.ts:122-326 | what a poll within the limits makes of the task, answer by answer: the status, the count, and the next wait in numbers |
| TaskPolling.NotYetPolled | src/polling/polling.service.ts:70-90 | a task that is not due, or without an adapter or a provider id, is left alone, so without them it never times out |
| TaskPolling.TimesOutExactly | src/polling/polling.service.ts:92-120 | a poll times a task out exactly when it is one poll too many or comes after the maximum duration |
| TaskPolling.PollsAreCounted | src/polling/polling.service.ts:317-322 | polls at due times that find the provider at work are counted one by one, the next one due a wait later |
| TaskPolling.GivesUpAfterTheLastPoll | src/polling/polling.service.ts:92-120 | an accepted task whose provider never gets done is PROCESSING through maxPollCount due polls, and the next one ends it in TIMEOUT |
| TaskPolling.StatusMoves | src/task/task.repository.ts:45-63 | an event moves the status of a task only forward along its life, counts one version exactly then, and leaves owner, creation time and limits alone |
| TaskPolling.SubmissionsEnd | src/queue/feature-queue.processor.ts:91-262 | where a submission leaves the task, reply by reply, and that the queue tries again exactly when it is still pending |
| TaskPolling.CancelsExactly | src/task/task.service.ts:318-361 | a cancellation ends exactly the pending or submitted task of its owner, and touches no money |
| TaskPolling.CreationStores | src/task/task.service.ts:194-253 | a task is stored exactly when its billing is ready, pending and never polled |
| TaskBilling.ReachableIsOrderly | src/polling/polling.service.ts:96-323 | over every run: sound books, at most one debit per task and only for a successful one, poll counts within the limit, nothing reserved for a timed-out task |
| TaskBilling.TerminalIsAbsorbing | src/task/task.repository.ts:45-63 | no later event of any run changes a task in a terminal status, its billing record or its debits |
| TaskBilling.OthersStay | src/polling/polling.service.ts:70-326 | an event leaves every other task, its record and its debits as they were |
| TaskBilling.PolledSuccessIsChargedOnce | src/polling/polling.service.ts:230-277 | an internal task that a poll brings to success has, for good, exactly one debit: unit price x reported usage, from its owner's balance; nothing stays reserved |
| TaskBilling.PolledFailureIsFree | src/polling/polling.service.ts:96-120 | a task that a poll ends in TIMEOUT or FAILED has no debit and nothing reserved, for good |
| TaskBilling.UnrefundedMoneyStaysFrozen | src/queue/feature-queue.processor.ts:91-262 | of all the events that end a task, exactly a cancellation, a provider without an adapter and an immediate success with unknown usage leave its reservation, on an unchanged record and frozen for ever; every other end frees it |
| TaskBilling.ImmediateSuccessMayBeUnpaid | src/queue/feature-queue.processor.ts:168-215 | a task done at once succeeds whether or not it is paid: one debit for good if its usage is known and its owner's wallet covers the cost, none ever otherwise; its reservation is freed exactly if the usage is known |
| TaskBilling.AnUnpaidSuccess | src/queue/feature-queue.processor.ts:168-215 | a run in which a task done at once succeeds and is not paid |
| TaskBilling.ACancelledReservation | src/task/task.service.ts:318-361 | a run after which 1 of 10 stays frozen for a cancelled task |
| TaskBilling.AnUnknownUsage | src/queue/feature-queue.processor.ts:186-203 | a run after which 1 of 10 stays frozen for a task that succeeded at once with an unknown usage |
| TaskBilling.SettleDebits | src/billing/billing.adapter.ts:182-249 | a settlement adds exactly one debit, for its own task, if it succeeds for an internal record, and none otherwise |
| CircuitBreaker.CircuitBreakerStore.CompareAndSetState | src/provider-health/circuit-breaker-store.service.ts:245-279 | writes with a renewed lifetime exactly when the stored state, CLOSED if missing, is the expected one; what a reader sees next is what is stored |
| CircuitBreaker.CircuitBreakerStore.GetState | src/provider-health/circuit-breaker-store.service.ts:176-213 | returns a cached state younger than a second, else the live stored one, and reads stay the same at that time |
| CircuitBreaker.CircuitBreakerService.AllowRequest | src/provider-health/circuit-breaker.service.ts:97-122 | admits by the state seen: always, never, or while probes are missing |
| CircuitBreaker.CircuitBreakerService.Evaluate | src/provider-health/circuit-breaker.service.ts:132-253 | the stored key after evaluating the state seen, other providers untouched (`OpensExactly` and `HalfOpensExactly` say when it moves) |
| CircuitBreaker.CircuitBreakerService.RecordResult | src/provider-health/circuit-breaker.service.ts:261-407 | the stored key after recording a result on the state seen, other providers untouched |
| CircuitBreaker.CircuitBreakerService.ManualOverride | src/provider-health/circuit-breaker.service.ts:415-458 | forces OPEN or CLOSED whatever is stored and refuses HALF_OPEN |
| CircuitBreaker.CircuitBreakerService.ClearOverride | src/provider-health/circuit-breaker.service.ts:464-487 | removes only the override, and writes nothing when no state is seen |
| BreakerRuns.AttemptsAreLegal | src/provider-health/circuit-breaker.service.ts:132-407 | whatever a worker has read, it expects one state and writes that state or a legal successor |
| BreakerRuns.StatesMoveAlongEdges | src/provider-health/circuit-breaker-store.service.ts:24-48 | between two racing writes the state stays or moves CLOSED-OPEN, OPEN-HALF_OPEN, HALF_OPEN-CLOSED or HALF_OPEN-OPEN, unless the key expires between them |
| BreakerRuns.OpenClosesThroughHalfOpen | src/provider-health/circuit-breaker.service.ts:132-407 | over any run of racing writes, an open breaker is closed later only by way of HALF_OPEN or expiry |
| BreakerRuns.OpeningStaysExactlyWhenUndisturbed | src/provider-health/circuit-breaker.service.ts:200-307 | a write on an open breaker keeps it open with its opening time exactly when the worker neither records a result on an open copy with another opening time nor finds the cooldown of its copy over; otherwise it puts back the opening time of the copy, or makes the breaker half-open |
| BreakerRuns.StaysOpenExactlyWhileUndisturbed | src/provider-health/circuit-breaker.service.ts:200-307 | over any run of racing writes during the cooldown the breaker stays open with its opening time throughout exactly when no worker disturbs it so; copies of the same opening never do |
| BreakerRuns.NotAdmittedWhileUndisturbed | src/provider-health/circuit-breaker.service.ts:98-124 | then no request is admitted before openedAt + cooldown |
| BreakerRuns.AStaleEvaluationAdmitsEarly | src/provider-health/circuit-breaker.service.ts:200-243 | a run of four writes, each decided from what the store held, in which requests are admitted one millisecond after an opening with a cooldown of 50, without any result recorded on an open copy |
| BreakerRuns.NotAdmittedWhileCooling | src/provider-health/circuit-breaker.service.ts:200-243 | with fresh reads, no request is admitted before openedAt + cooldown, whatever is recorded or evaluated meanwhile |
| BreakerRuns.FreshRunsKeep | src/provider-health/circuit-breaker.service.ts:135-135 | the key of an open breaker always outlasts its cooldown by the margin |
| BreakerRuns.ClosesExactlyAfterEnoughProbes | src/provider-health/circuit-breaker.service.ts:309-346 | with fresh reads, a half-open breaker closes exactly at a success that completes probeRequestCount successes in a row since it became half-open |
| BreakerRuns.ProbesAreCounted | src/provider-health/circuit-breaker.service.ts:347-362 | probeSuccesses is the number of successes in a row recorded since the breaker became half-open |
| BreakerLaws.OpensExactly | src/provider-health/circuit-breaker.service.ts:151-170 | an evaluation opens a closed or missing breaker exactly when more failures than the threshold came in a row, or the samples suffice and the error rate x 100 exceeds its threshold; otherwise it writes nothing |
| BreakerLaws.FailuresAreCounted | src/provider-health/circuit-breaker.service.ts:266-300 | a live key holds the number of failures in a row since the last success and since the key was last gone |
| BreakerLaws.FailuresInARowOpen | src/provider-health/circuit-breaker.service.ts:158-170 | one failure more than the threshold, in a row on a live key, and an evaluation always open a closed breaker |
| BreakerLaws.HalfOpensExactly | src/provider-health/circuit-breaker.service.ts:200-243 | an evaluation makes an open breaker half-open exactly after its cooldown and leaves a half-open one alone |
| BreakerLaws.ResultsMove | src/provider-health/circuit-breaker.service.ts:261-407 | what a recorded result makes of a breaker in each state: the state, the opening time, both streaks and the lifetime of the key |
| BreakerLaws.AdmitsExactly | src/provider-health/circuit-breaker.service.ts:97-122 | a request is admitted without a live key, by a closed breaker, and by a half-open one while fewer probes than needed have succeeded in a row |
| BreakerLaws.ForcedState | src/provider-health/circuit-breaker.service.ts:415-458 | the record that a manual override writes; forcing it closed forgets the failures |
| BreakerLaws.ForcedStays | src/provider-health/circuit-breaker.service.ts:132-300 | while its key lives, a forced breaker stays as it was forced whatever is evaluated or recorded |
| BreakerCodec.DeserializeUndoesSerialize | src/provider-health/circuit-breaker-store.service.ts:82-170 | deserialize gives back every state that serialize wrote, override included |
| BreakerCodec.ScriptReadsTheState | src/provider-health/circuit-breaker-store.service.ts:40-41 | the script's pattern captures the top-level state of every serialized record, whatever the override and its operator contain |
| BreakerCodec.ScriptComparesStates | src/provider-health/circuit-breaker-store.service.ts:40-47 | so the script's comparison succeeds exactly when the stored state is the expected one |
| Json.ParseUndoesWrite | src/provider-health/circuit-breaker-store.service.ts:82-106 | JSON.parse undoes JSON.stringify on every value of the model, nested objects and escapes included |
| Json.WrittenCharsReadBack | src/provider-health/circuit-breaker-store.service.ts:98-98 | every text survives escaping and unescaping |
| Json.HexDigits | src/provider-health/circuit-breaker-store.service.ts:106-106 | a hexadecimal escape in either case gives its character, surrogates alone none |
| SlidingWindow.RateLimiterService.Acquire | src/redis/rate-limiter.service.ts:15-41 | the new sorted set and the answer: the call is added whether or not it is allowed, other keys untouched |
| SlidingWindow.WindowHoldsRecentCalls | src/redis/rate-limiter.service.ts:23-27 | after each call the set holds exactly the calls of the window that ends with it; the key's expiry loses none |
| SlidingWindow.AllowedExactlyWithinTheLimit | src/redis/rate-limiter.service.ts:31-32 | a call is allowed exactly when its window, itself included, has no more calls than the limit, denied ones counted |
| SlidingWindow.NoWindowExceedsTheLimit | src/redis/rate-limiter.service.ts:15-41 | whenever it ends, no window of windowMs contains more allowed calls than maxRequests |
| RunLeases.WorkflowPolicyService.AcquireRun | src/workflow/workflow-policy.service.ts:126-167 | grants exactly when the owner is known and fewer than the maximum of unexpired leases are stored; the new leases and key expiry |
| RunLeases.WorkflowPolicyService.ReleaseRun | src/workflow/workflow-policy.service.ts:169-171 | removes exactly the run's lease |
| RunLeases.ExpiryDropsNoLiveLease | src/workflow/workflow-policy.service.ts:138-157 | what the script finds are exactly the leases that were granted, not released and have not ended: the key's expiry drops none of them |
| RunLeases.GrantedExactlyWhenThereIsRoom | src/workflow/workflow-policy.service.ts:140-141 | a lease is granted exactly when fewer than maxConcurrentRuns are live by the answers given so far |
| RunLeases.LiveLeasesAreBounded | src/workflow/workflow-policy.service.ts:126-171 | at no time are more leases live than maxConcurrentRuns |
| RoutingProperties.RankingSorts | src/task/provider-routing.service.ts:105-109 | sorting the candidates keeps them all and leaves none ahead of an earlier one by specificity and then priority |
| RoutingProperties.RankedFront | src/task/provider-routing.service.ts:105-111 | the front of the ranking is the first fetched among the best |
| RoutingProperties.WinnerIgnoresFetchOrder | src/task/provider-routing.service.ts:105-111 | the winner is the same for every fetch order exactly when no other candidate shares its specificity and priority |
| RoutingProperties.SameCandidates | src/task/provider-routing.service.ts:86-101 | production and simulation consider the same rules exactly when no eligible rule lacks the enabled field |
| RoutingProperties.SimulationMatchesProduction | src/task/provider-routing.service.ts:81-240 | without ties and with the field set, production and simulation hit the same rule and provider however each fetches the rules |
| RoutingProperties.LatencyPicksTheFastest | src/task/provider-routing.service.ts:422-504 | a non-OPEN target of least effective latency; null exactly when fewer than two targets are named or all are OPEN |
| RoutingProperties.CostPicksTheCheapest | src/task/provider-routing.service.ts:514-628 | a non-OPEN target of least cost and among those of least latency; null exactly when all are OPEN |
| RoutingProperties.WeightedAvoidsOpen | src/task/provider-routing.service.ts:259-313 | a target that is not OPEN; null exactly when all are |
| RoutingProperties.PrimaryFallbackFailsOver | src/task/provider-routing.service.ts:327-411 | the failover flag is set exactly when the primary's breaker refuses it, and then the fallback is used; null exactly without a primary, without a fallback for a refused one, or for an admitted one whose weights leave no target |
| RoutingLaws.HitsComeFromRulesInForce | src/task/provider-routing.service.ts:81-134 | a hit comes from an enabled, complete rule in its time window for this client, that no other such rule precedes by client and then by priority, resolved with the seed of client, model and rule |
| RoutingLaws.CompleteRulesResolve | src/task/provider-routing.service.ts:631-686 | what each strategy needs to be a candidate, on the items of the rule |
| RoutingLaws.LatencyGivesTheFastest | src/task/provider-routing.service.ts:422-504 | of the named targets that are not OPEN none is faster, unknown ones counting 5 seconds; nothing exactly when all are OPEN |
| RoutingLaws.CostGivesTheCheapest | src/task/provider-routing.service.ts:514-628 | of the named items whose provider is not OPEN none is cheaper, or as cheap and faster, with the defaults written out; nothing exactly when all are OPEN |
| RoutingLaws.WeightedSplitsByShare | src/task/provider-routing.service.ts:256-303 | item i is given when the bucket of the seed lies in its share, which starts at the weights of the items before it whose provider is not OPEN |
| RoutingLaws.PrimaryOrFallback | src/task/provider-routing.service.ts:327-411 | the whole answer of a complete primary and fallback rule: refused, alone, probing or split by the two weights |
| RoutingLaws.FixedGivesItsProvider | src/task/provider-routing.service.ts:248-255 | a complete fixed rule gives its provider, without a failover |
| RoutingLaws.TiesGoRound | src/task/provider-routing.service.ts:474-482 | choices that tie are taken in turn by the hash of the seed |
| RoutingLaws.SeedsDiffer | src/task/provider-routing.service.ts:112-112 | names without the separator give different seeds to different clients, models or rules |
| RoutingLaws.TrimTakesBlanksAway | src/task/provider-routing.service.ts:650-663 | trimming takes blanks away at both ends, all of them and nothing else |
| Routing.NormalizeWeightedTargets | src/task/provider-routing.service.ts:650-663 | the loop keeps exactly the targets with a name and a positive finite weight, in order |
| Routing.WeightedTargetsKeepTheirPlace | src/task/provider-routing.service.ts:650-663 | a weighted target stands right after those that the items before it give; an item without name or positive weight adds nothing |
| Routing.OnlyWeightedTargets | src/task/provider-routing.service.ts:650-663 | every target found comes from a weighted item |
| Weights.Pick | src/task/provider-routing.service.ts:692-702 | the subtracting loop picks the target whose share holds the bucket |
| Weights.ComputeHash | src/task/provider-routing.service.ts:705-711 | the loop computes the absolute 32-bit hash of the seed's code units |
| Weights.LastUnitMatters | src/task/provider-routing.service.ts:706-710 | seeds that differ only in their last code unit have different hashes |
| Weights.FnvStep | src/task/provider-routing.service.ts:706-710 | the offset basis and the prime of 32-bit FNV-1a, and one step of it |
| Weights.XorBits | src/task/provider-routing.service.ts:708-708 | a bit of the exclusive or is set exactly when it is set in one of the two numbers and not in the other |
| Weights.NumberIsTheSize | src/task/provider-routing.service.ts:711-711 | the number of a seed is the size of its hash as a signed word |
| Weights.BucketInRange | src/task/provider-routing.service.ts:711-711 | a bucket lies from 0 up to the modulus, also for a fractional sum of weights |
| Weights.WholeBucket | src/task/provider-routing.service.ts:711-711 | for a whole sum of weights the bucket is the integer remainder |
| Weights.SharesAreTheWeights | src/task/provider-routing.service.ts:692-702 | target i is picked exactly for the buckets from the sum of the earlier weights up to that sum plus its own weight |
| Weights.EachTargetGetsItsWeight | src/task/provider-routing.service.ts:692-702 | with whole weights each target gets exactly its weight out of the sum-many whole buckets |
| Mp4Boxes.WalkChildBoxes | src/metadata/mp4-metadata.util.ts:15-37 | the cursor loop visits the boxes up to the first place where no whole box starts, and ends on any bytes |
| Mp4Boxes.VisitsAreDisjointAndInBounds | src/metadata/mp4-metadata.util.ts:15-37 | on any bytes the visited payloads lie within the bounds, in order and at least a header apart |
| Mp4Boxes.WalkUndoesWrite | src/metadata/mp4-metadata.util.ts:15-37 | boxes written back to back with 32-bit or 64-bit sizes are visited exactly, in order |
| Mp4Boxes.PayloadsAreInPlace | src/metadata/mp4-metadata.util.ts:15-37 | each visited range holds the payload written and each visited type is the type written |
| Mp4Laws.WholeBoxes | src/metadata/mp4-metadata.util.ts:22-35 | a whole box starts exactly where its header fits and its 32-bit, or for 1 its 64-bit, size holds the header and ends within the bounds |
| Mp4Laws.FourBytes | src/metadata/mp4-metadata.util.ts:23-23 | numbers are read with their first byte highest |
| Mp4Metadata.ParseMoovBox | src/metadata/mp4-metadata.util.ts:84-122 | the nested walks give the last duration of the mvhd boxes and the first codec of the stsd boxes under trak/mdia/minf/stbl |
| Mp4Metadata.FindMoovBoxInBuffer | src/metadata/mp4-metadata.util.ts:125-140 | the first position where a whole moov box starts, and null exactly when there is none |
| Mp4Metadata.WrittenMoovIsFound | src/metadata/mp4-metadata.util.ts:125-140 | a written moov box is found exactly when nothing before it reads as one |
| Mp4Metadata.AnEarlierMoovIsFound | src/metadata/mp4-metadata.util.ts:125-140 | a free box with an empty moov box inside, before the movie: that one is found |
| Mp4Metadata.ParseUndoesWrite | src/metadata/mp4-metadata.util.ts:84-122 | parsing a written moov box gives what its tree of boxes says |
| Mp4Metadata.MovieReadsBack | src/metadata/mp4-metadata.util.ts:84-122 | of any written movie, whatever other boxes lie before, between or inside, parsing gives the last duration that an mvhd box has and the first codec that an stsd box under trak/mdia/minf/stbl has |
| Mp4Metadata.UsualMovieReadsBack | src/metadata/mp4-metadata.util.ts:84-122 | of a movie in which tkhd, mdhd, vmhd and stts come before the boxes on the path, the duration of mvhd and the format of stsd are read back |
| Mp4Metadata.MvhdReadsBack | src/metadata/mp4-metadata.util.ts:39-53 | of a written header of either version, the seconds read times the timescale are the duration; nothing is read exactly when one of the two is zero |
| Mp4Metadata.StsdReadsBack | src/metadata/mp4-metadata.util.ts:71-82 | a visible four-character format of a first entry that fits is read back |
| Mp4Laws.DurationExactly | src/metadata/mp4-metadata.util.ts:39-53 | for each version the two fields, and that the duration in seconds times the timescale is the duration field; none exactly when one is zero, the payload too short or the version unknown |
| Mp4Laws.CodecExactly | src/metadata/mp4-metadata.util.ts:71-82 | the codec is the format of a first entry that is there and fits, without NUL and blanks, exactly when three or four visible characters are left |

## Left out

- Controllers, permissions and menus, parameter mapping, statistics, events, metrics, callbacks, the web front ends, storage, pricing tables: plumbing, or easy members.
- Failures of MongoDB and Redis, and crashes between two writes of one billing step: the code does not protect against them; only the retried release is modelled with failures.
- `run` itself (permission and schema checks before the document exists), statistics, timestamps, node inputs and outputs other than `branchId`.
- WorkflowProtocol.Run: the job log counts jobs at the claim, also those that the queue then refuses; so at-most-once is stated of claims, which bound the jobs.
- WorkflowEngine.WorkflowExecution.ScheduleReadyNodes: the parallelism bound is for a pass that is not disturbed. In `continue` mode with refused jobs it is decided exactly where no pending node waits for another (`SlotsOverrunExactly`); elsewhere a failed node may skip nodes, which frees others in the middle of the pass, so that which jobs are tried depends on the graph, and only the direction without refusals is stated.
- WorkflowProgress.DoneWorkersLeaveARunningNode: that every worker has followed up its changes is its hypothesis; `ScheduleReadyNodes`, `OnNodeComplete` and `OnNodeFailed` show it of one worker under any interference.
- WorkflowProtocol.DependencyOrder: for runs without retries; with them the order holds as far as `OrderSurvivesRetries` says.
- WorkflowRetry.Retry: one atomic step; the code makes several writes and takes the lease in between. Of two retries at once the loser removes the winner's lease, which is not modelled, and neither is the error path after the claim.
- The time-out of a lease: in the runs of the workflow engine a lease ends only by release; `RunLeases` has the time-outs.
- Node ids are a set and the definition is fixed during a run; the order of skips and claims is that of the definition.
- JobIds.JobIdInjective: node ids are texts of whole characters; lone surrogates, which UTF-8 cannot tell apart, are not modelled.
- Expressions.Eval: number literals, `String(v)`, comparison of operands that are not both numbers, and properties of boxed strings are parameters; numbers are real, without NaN, infinities or rounding.
- Positions of tokens, which only error messages use; a number cannot start with a dot because the dot is punctuation first.
- Money is exact; IEEE rounding and the rounding for display are not modelled. A failed write of a log entry, which the code only logs, is left out.
- `computeActualUsageValue` and the price estimate: the usage and the estimate are parameters, absent when working them out throws.
- TaskLifecycle.PollingService.PollSingleTask: one atomic step that is applied only to due tasks, as the query of the poller selects them.
- Circuit breaker metrics and configuration are parameters; the time between a worker's read and its script is modelled in `BreakerRuns`, not in the service class.
- Json.Parse: arrays, fractions, exponents and negative numbers are refused, and texts hold whole characters, so lone surrogates are not modelled; nothing that `serialize` writes needs them. Times are texts; converting them to milliseconds is not modelled.
- `acquireConcurrent`: a check and then an act, so it bounds nothing under concurrency.
- SlidingWindow.NoWindowExceedsTheLimit: for windows that contain one of their two ends, as milliseconds count; the pipeline is one step and the random member ids are taken as unique.
- Routing: the routing metrics and the debug record; weights, costs and latencies are real. The database filter on the model is taken as done.
- Weights.Pick: subtraction of weights is exact.
- `parseTkhdDimensions`: its offsets are not those of the track header of ISO/IEC 14496-12 section 8.3.2, so width and height are not modelled. Fetching ranges of a URL is left out.
- Mp4Metadata.MvhdReadsBack: 64-bit numbers are exact, where the code rounds to a double; sizes are compared with a buffer length, which rounding cannot change.
