# Verified models of the stream operators and of the layer that feeds them

The stream data processor passes Arrow record batches through handlers that keep state between calls, and connects
pipelines by a PUB/SUB pair. This project models the stateful handlers as classes with their loops and fields, states
what each of them means for a whole stream, and proves that the loops compute it. It does the same for the codecs below
them, and proves safety of the start-up handshake over all its runs.

`dafny verify dfyconfig.toml` checks the project.

## How the model is built

- A record batch is a sequence of rows. `Sequences` and `Timeline` hold the shared vocabulary: the stable sort behind
  every `sortByColumn`, and the rows of a stream before, after and between two times.
- Each imperative component is a class or method whose contract ties the new state to a function of the old one
  (`Feed`, `Emit`, `Run`, `Read`, `AfterSending`, ...). Theorems about whole runs are stated on those functions.
- **Windowing** (`WindowSpec`, `WindowHandlers`, `WindowTheorems`, `WindowProperties`, `DynamicWindow`). The deque of
  slices, the horizon and `next_emit_` refine a declarative stream of windows `[e_k - period, e_k)`; the dynamic
  handler refines the handler that is fed one row at a time.
- **Derivatives** (`DerivativeSpec`, `DerivativeHandlers`, `DerivativeRuns`, `DerivativeMeaning`, `Polynomials`,
  `Lagrange`, `FiniteDifference`, `DerivativeExactness`). The two pointers and the deques hold each row's
  neighbourhood; runs are characterised with the exact condition under which a call throws; the finite-difference sum
  is exact on polynomials, and so is the handler that uses it. The solver is a parameter that is only required to be
  right where the matrix is regular and there is a solution; such solvers exist, and for distinct arguments the matrix
  is regular and the solution is given.
- **Join** (`JoinSpec`, `JoinHandlers`, `JoinProperties`). The greedy tolerance groups partition the rows, as few as
  possible; the column builders stay in step.
- **Threshold** (`ThresholdSpec`, `ThresholdMachine`, `ThresholdHistory`, `ThresholdBounds`). When the threshold moves
  is characterised by the history of rows alone.
- **Handshake** (`HandshakeSpec`, `Handshake`, `HandshakeSafety`, `HandshakeDelivery`, `HandshakeCompletion`). A
  transition system of one publisher and `n` subscribers; the handlers are classes that refine its steps, the
  guarantees hold after every sequence of actions, some sequence delivers everything, and it is stated from which
  states everything can still be sent.
- **Codecs** (`Varint`, `Framing`, `LengthPrefix`, `StringUtils`, `GroupString`, `GroupRoundTrip`).
- **Grouping** (`GroupKeys`, `Grouping`, `GroupingProperties`, `GroupingByNames`). Which keys get a group, when nulls
  make grouping fail, and which rows the groups hold.

## What the code does not do in general

Where a natural claim fails, the code is modelled as it is and the exact condition is proved.

- With `period == every` the rows already emitted are those before `next_emit_ - every`, not before `next_emit_`
  (`TumblingConserves`).
- A decrease that is called off scales the threshold without clamping it to the minimum. Runs keep the minimum exactly
  if they never take that edge to below it, and all runs do exactly for the options named in `MinimumKeptByOptions`.
- A request that is still incomplete after its second chunk loses as many bytes as the first had, and a chunk that ends inside
  a length loses the part of the length. `ReadIsRight` and `NextCallIsRight` give the condition, `BodyInThreePieces`
  what becomes of such a body.
- Times are divided by the unit before they are compared, so readings further apart than the neighbourhood,
  by less than a unit, or two across time zero, can count as near. `NearInTimes` gives the bounds, which meet for
  times of whole units.
- A body of 2^32 bytes or more is framed with a truncated length (`FrameRoundTrip`).
- Grouping by columns keeps every row exactly if none has a null in them. A null beside several values of its column
  is lost without an error, beside one value it makes grouping fail, and a last column of nulls leaves an empty group
  (`GroupsPartitionRows`, `EmptyGroups`, `NullsAreLost`; `GroupKeys.Accepts` is the exact condition for success).
- A negative length can take `splitMessage` back, and its loop need not end (`GoesRoundMeans`).
- `splitMessage` takes every length for zero once `errno` is `ERANGE` (`SplitWrapped`).
- After a delimiter of more than one character `split` goes on one character further, not past the delimiter
  (`SplitOfConcatenation`, `ConcatenationOfSplit`).
- Join key strings do not tell rows apart in general: columns named once each do exactly if there is at most one
  (`KeyIsSafe`). With more of them they do on rows in which no text before the last has a comma (`KeyTellsRowsApart`).
- Stopping the publisher sends the end message even if data is still buffered (`StopSendsEverything`).
- Payloads that read "connect" are dropped and "end" stops a subscriber; what was sent arrives exactly if there are
  none (`DeliveredAsIs`).
- The derivative handler throws if a watched column has no reading at all when the first row is due; a run throws
  exactly then, at its first output (`WaitingRun`, `NoWaitRun`).

## Model

| member | source | states |
|---|---|---|
| `Sequences.SortBy` | src/utils/compute_utils.cpp:85-106 | the sorted rows are in key order and are the same rows, as often as they occurred |
| `Sequences.SortByStable` | src/utils/compute_utils.cpp:85-106 | sorting keeps the relative order of rows with equal keys |
| `ComputeUtils.TsLowerBound` | src/utils/compute_utils.cpp:137-171 | the index returned is the first one whose time satisfies the predicate, or the number of rows; the search ends |
| `WindowHandlers.WindowHandler.Handle` | src/record_batch_handlers/stateful_handlers/window_handler.cpp:9-76 | on the sorted batch, output and all fields are those of one step of the windowing specification; an unset next_emit_ begins one period after the first row if the first window is to be filled, else one step after it, and then moves in steps to the first boundary after the last row |
| `WindowHandlers.WindowHandler.EmitLoop` | src/record_batch_handlers/stateful_handlers/window_handler.cpp:47-75 | the loop ends and yields what the specification of the loop yields, whatever the batch and the deque |
| `WindowHandlers.WindowHandler.CloseWindow` | src/record_batch_handlers/stateful_handlers/window_handler.cpp:48-71 | one pass puts out the rows of the window that closes, moves the boundary, and keeps what the next window may need |
| `WindowHandlers.WindowHandler.EmitWindow` | src/record_batch_handlers/stateful_handlers/window_handler.cpp:78-108 | drops what is too old and puts out the rest as maximal runs of equal schema |
| `WindowHandlers.WindowHandler.ConcatenateRuns` | src/record_batch_handlers/stateful_handlers/window_handler.cpp:86-107 | neighbouring batches are joined exactly where their schemas agree |
| `WindowHandlers.WindowHandler.RemoveOldRecords` | src/record_batch_handlers/stateful_handlers/window_handler.cpp:110-137 | afterwards the deque lacks exactly the leading rows before next_emit_ - period, and holds no empty batch |
| `WindowHandlers.WindowHandler.SetPeriodOption` | src/record_batch_handlers/stateful_handlers/window_handler.h:49-60 | the period is replaced; if next_emit_ is set, no window has closed and the first is to be filled, next_emit_ - period is kept, unless that takes next_emit_ below zero or before the change; nothing else changes |
| `WindowHandlers.WindowHandler.SetEveryOption` | src/record_batch_handlers/stateful_handlers/window_handler.h:62-72 | the step is replaced; if next_emit_ is set, and a window has closed or the first need not be filled, next_emit_ - every is kept, unless that takes next_emit_ below zero or before the change; nothing else changes |
| `WindowTheorems.WindowRefinement` | src/record_batch_handlers/stateful_handlers/window_handler.cpp:9-137 | over any run of batches in time order the output is, in order, every window that has closed; window j is [e_0 + j * every - period, e_0 + j * every), where e_0 is one period after the first row if the first window is to be filled, else one step after it; next_emit_ is the first boundary after the last row, and the deque is determined by the history |
| `WindowTheorems.FeedRefines` | src/record_batch_handlers/stateful_handlers/window_handler.cpp:38-75 | one more batch adds exactly the windows it closes |
| `WindowSpec.EmitMovesBoundary` | src/record_batch_handlers/stateful_handlers/window_handler.cpp:47-71 | from any state the loop moves next_emit_ in whole steps to the first boundary after the last row, and sets emitted_first_ exactly if it moves it |
| `WindowSpec.SortedBatchOrdered` | src/record_batch_handlers/stateful_handlers/window_handler.cpp:14-16 | rows are sorted by their raw timestamps, so their seconds are in order, too |
| `WindowProperties.FeedConcat` | src/record_batch_handlers/stateful_handlers/window_handler.cpp:9-76 | from any state, one batch or its two halves give the same output, boundary, flag and buffered rows |
| `WindowProperties.PiecesExactly` | src/record_batch_handlers/stateful_handlers/window_handler.cpp:86-107 | a sequence of batches cuts a window into non-empty one-schema batches, neighbours differing, exactly if it is what is put out |
| `WindowProperties.TumblingConserves` | src/record_batch_handlers/stateful_handlers/window_handler.cpp:24-71 | with period == every, emitted rows followed by buffered rows are the rows received; emitted are those before next_emit_ - every |
| `WindowProperties.OverlapBound` | src/record_batch_handlers/stateful_handlers/window_handler.cpp:24-71 | each received row is emitted once for each closed window that contains its second, and these are at most ceil(period / every) |
| `DynamicWindow.DynamicWindowHandler.Handle` | src/record_batch_handlers/stateful_handlers/window_handler.cpp:139-245 | a batch gives the output and the state of the row-at-a-time handler: set the options the row asks for, feed the row |
| `DynamicWindow.OneRow` | src/record_batch_handlers/stateful_handlers/window_handler.cpp:198-241 | from any state one row first has the options of its columns taken over: next_emit_ keeps its distance to where the open window was counted from, unless that takes it before the second of that row; then the row is fed |
| `DynamicWindow.TwoRows` | src/record_batch_handlers/stateful_handlers/window_handler.h:62-72 | after a first row, a second one that asks for another step meets the boundary at the first row plus that step, or plus the old one if that is before the second row; a window closes exactly if the row is not before it |
| `DynamicWindow.DynamicWindowHandler.CutAtChanges` | src/record_batch_handlers/stateful_handlers/window_handler.cpp:178-245 | the slicing loop ends, although a pass may consume no row, and refines the row-at-a-time handler |
| `DynamicWindow.DynamicWindowHandler.Advance` | src/record_batch_handlers/stateful_handlers/window_handler.cpp:198-241 | a pass feeds a slice in which no row asks for a change, sets what changes at the next row, and makes progress |
| `DynamicWindow.DynamicWindowHandler.FindNewWindowOptionIndex` | src/record_batch_handlers/stateful_handlers/window_handler.cpp:247-268 | the index is the first row that asks for another value |
| `DynamicWindow.QuietSlice` | src/record_batch_handlers/stateful_handlers/window_handler.cpp:198-205 | rows that ask for no change may be fed as one batch |
| `DynamicWindow.CallsAreRowAtATime` | src/record_batch_handlers/stateful_handlers/window_handler.cpp:139-245 | over any number of calls, too, the result is that of feeding all rows one at a time |
| `DerivativeHandlers.DerivativeHandler.Handle` | src/record_batch_handlers/stateful_handlers/derivative_handler.cpp:9-183 | outcome of a call: another schema than the buffered batch, a watched column that not exactly one field is named after, the exception for a column never read, or exactly the rows that became ready, each with its derivatives over the neighbourhood in everything received |
| `DerivativeHandlers.DerivativeHandler.Advance` | src/record_batch_handlers/stateful_handlers/derivative_handler.cpp:77-128 | both pointers move so that the deques hold exactly the neighbourhood of the row |
| `DerivativeHandlers.DerivativeHandler.Evict` | src/record_batch_handlers/stateful_handlers/derivative_handler.cpp:77-96 | the deques lose exactly the rows older than the neighbourhood |
| `DerivativeHandlers.DerivativeHandler.PushReady` | src/record_batch_handlers/stateful_handlers/derivative_handler.cpp:98-128 | the deques gain exactly the rows up to the end of the neighbourhood |
| `DerivativeHandlers.DerivativeHandler.RowLoop` | src/record_batch_handlers/stateful_handlers/derivative_handler.cpp:71-161 | the loop ends with every ready row put out, or because a watched column was never read |
| `DerivativeHandlers.DerivativeHandler.Step` | src/record_batch_handlers/stateful_handlers/derivative_handler.cpp:73-160 | a row is put out unless, with waiting, nothing received lies beyond its neighbourhood |
| `DerivativeRuns.WaitingRun` | src/record_batch_handlers/stateful_handlers/derivative_handler.cpp:53-164 | with waiting, a call of a run throws exactly if a row becomes ready and a watched column has no reading when the first row is due, and then nothing was put out; otherwise the rows put out are those with a later row beyond their neighbourhood, with derivatives over the whole stream |
| `DerivativeRuns.NoWaitRun` | src/record_batch_handlers/stateful_handlers/derivative_handler.cpp:53-164 | without waiting, a run throws exactly if that holds of the first accepted batch alone; otherwise all rows are put out, each with derivatives over the rows received by the end of its batch |
| `DerivativeRuns.Drive` | src/record_batch_handlers/stateful_handlers/derivative_handler.cpp:9-183 | a fresh handler fed with the batches puts out what the run of the specification does, and throws exactly if that does |
| `DerivativeRuns.BatchingDoesNotMatter` | src/record_batch_handlers/stateful_handlers/derivative_handler.cpp:53-164 | with waiting, two ways of cutting the same stream agree in whether a call throws, in the rows and in the derivatives |
| `DerivativeRuns.NearMeans` | src/record_batch_handlers/stateful_handlers/derivative_handler.cpp:77-101 | a row counts as near exactly if the distance of the scaled times, times the unit, is at most the neighbourhood |
| `DerivativeSpec.StampedMeans` | src/record_batch_handlers/stateful_handlers/derivative_handler.cpp:185-194 | a batch is its readings, each once and earliest first, each with its own time divided by the unit, the rest dropped towards zero |
| `DerivativeMeaning.NearInTimes` | src/record_batch_handlers/stateful_handlers/derivative_handler.cpp:77-101 | by the readings' own times: at most the whole units of the neighbourhood apart is near, a unit more is not (two, across zero), and for times of whole units nearness is a distance of at most the neighbourhood |
| `DerivativeMeaning.RunNearness` | src/record_batch_handlers/stateful_handlers/derivative_handler.cpp:77-101 | the same of any two rows that a run has received |
| `DerivativeMeaning.WatchedMeans` | src/record_batch_handlers/stateful_handlers/derivative_handler.cpp:103-118 | the readings of a column are the times and values of the rows that have a cell there that is not null, in their order |
| `DerivativeMeaning.ReadyMeans` | src/record_batch_handlers/stateful_handlers/derivative_handler.cpp:130-135 | with waiting a row has been put out exactly if the last row received lies further than the neighbourhood after it; without, every row has |
| `DerivativeMeaning.StarvedMeans` | src/record_batch_handlers/stateful_handlers/derivative_handler.cpp:137-146 | a row is due while a column was never read exactly if some watched column has no value in the rows up to the neighbourhood after it |
| `DerivativeMeaning.WaitingThrows` | src/record_batch_handlers/stateful_handlers/derivative_handler.cpp:130-146 | a run with waiting throws exactly if the last row lies further than the neighbourhood after the first, and some watched column has no value up to the neighbourhood after the first |
| `DerivativeMeaning.NoWaitThrows` | src/record_batch_handlers/stateful_handlers/derivative_handler.cpp:130-146 | a run without waiting throws exactly if that is so of the first batch in which all watched columns are found |
| `DerivativeMeaning.BufferedSchemaMeans` | src/record_batch_handlers/stateful_handlers/derivative_handler.cpp:18-23 | the schema further batches must have is that of the first batch in which all watched columns are found |
| `DerivativeMeaning.TakenMeans` | src/record_batch_handlers/stateful_handlers/derivative_handler.cpp:18-51 | a further batch is taken exactly if all watched columns are found in it and its schema is that one, if there is one |
| `DerivativeSpec.NamesAreFound` | src/record_batch_handlers/stateful_handlers/derivative_handler.cpp:33-51 | a column is found by its name exactly if one field and no other has it |
| `DerivativeExactness.CellIsTrueDerivative` | src/record_batch_handlers/stateful_handlers/derivative_handler.cpp:137-158 | with the finite-difference calculator, a row whose column lies on a polynomial with no more coefficients than there are readings in reach gets its true derivative, and null exactly if two readings have the same time or there are not more of them than the order |
| `DerivativeExactness.RunIsExact` | src/record_batch_handlers/stateful_handlers/derivative_handler.cpp:53-164 | so does every row put out by a run in which no call throws |
| `DerivativeExactness.Calculate` | src/utils/compute_utils.cpp:173-238 | the calculator, with null for each of its exceptions, is the function the handler is given |
| `FiniteDifference.CalculateDerivative` | src/utils/compute_utils.cpp:173-238 | the four exceptions exactly in their cases, in this order; otherwise the weighted sum of the solution that the chosen solver gives of the Taylor system |
| `FiniteDifference.FillColumn` | src/utils/compute_utils.cpp:200-206 | the running product fills the column with delta^n / n! |
| `FiniteDifference.TaylorRegular` | src/utils/compute_utils.cpp:190-207 | the matrix built for distinct arguments is regular |
| `FiniteDifference.WeightsSolve` | src/utils/compute_utils.cpp:209-212 | for distinct arguments the system has a solution: the derivatives of the Lagrange basis polynomials |
| `FiniteDifference.ExactOnPolynomials` | src/utils/compute_utils.cpp:190-237 | on samples of a polynomial of degree below the number of points the sum is its derivative of the given order |
| `FiniteDifference.Exchange` | src/utils/compute_utils.cpp:209-237 | weighting samples is weighting derivatives by the rows of the matrix |
| `Polynomials.TaylorExact` | src/utils/compute_utils.cpp:200-206 | a polynomial is the sum of its Taylor terms |
| `JoinHandlers.JoinHandler.Handle` | src/record_batch_handlers/join_handler.cpp:11-152 | which error occurs when, the first in batch order; otherwise the rows are the joined rows of all keys, in some order of the keys, sorted by time, one for each group and cell by cell as the first row with the column has it |
| `JoinHandlers.JoinHandler.IndexRows` | src/record_batch_handlers/join_handler.cpp:34-66 | every key maps to the ordered set of exactly its rows; or the first batch whose new columns have no builder, or whose time column cannot be used, and why |
| `JoinHandlers.JoinHandler.AddColumns` | src/record_batch_handlers/join_handler.cpp:35-52 | a builder for each column not met before, unless one of them has a type without builders |
| `JoinHandlers.JoinHandler.GetJoinKey` | src/record_batch_handlers/join_handler.cpp:154-206 | the key string and the time of a row, or what is wrong with the time column: missing, neither timestamp nor INT64, or INT64 without a unit |
| `JoinHandlers.JoinHandler.JoinKey` | src/record_batch_handlers/join_handler.cpp:72-129 | the nested loops append the tolerance groups of one key, all columns in step with row_count |
| `JoinHandlers.JoinHandler.FillRow` | src/record_batch_handlers/join_handler.cpp:94-117 | a row appends its own cell to exactly the columns its batch has and the group has not filled, and fills them |
| `JoinHandlers.JoinHandler.CloseGroup` | src/record_batch_handlers/join_handler.cpp:81-92 | closing a group makes all builders equally long, with a null where the group had no value |
| `JoinHandlers.BuildersInStep` | src/record_batch_handlers/join_handler.cpp:68-129 | each builder has one entry per finished group, and one more exactly where filled |
| `JoinSpec.LessIsStrictTotalOrder` | src/record_batch_handlers/join_handler.h:38-51 | the comparison of join values is a strict total order |
| `JoinProperties.RowOrder` | src/record_batch_handlers/join_handler.h:38-51 | the rows of a key come by time, at the same time by batch, and within a batch in its order |
| `JoinProperties.GroupsPartition` | src/record_batch_handlers/join_handler.cpp:77-126 | the groups of a key, one after another, are its rows in order |
| `JoinProperties.GroupsWithin` | src/record_batch_handlers/join_handler.cpp:80-92 | all rows of a group lie within tolerance after its first row |
| `JoinProperties.AnchorsApart` | src/record_batch_handlers/join_handler.cpp:80-92 | the first rows of the groups are pairwise more than the tolerance apart |
| `JoinProperties.GreedyIsOptimal` | src/record_batch_handlers/join_handler.cpp:72-129 | no grouping of the rows with spans of at most the tolerance has fewer groups |
| `JoinProperties.GreedyIsGrouping` | src/record_batch_handlers/join_handler.cpp:80-92 | the greedy groups are such a grouping |
| `JoinProperties.FirstCellMeans` | src/record_batch_handlers/join_handler.cpp:94-126 | the joined rows are one for each group, with a cell for each column that some batch has: what stands there in the first row, in order, whose batch has the column, and null if there is none |
| `JoinProperties.EveryRowIsJoinedOnce` | src/record_batch_handlers/join_handler.cpp:54-129 | over all keys and groups every input row occurs exactly once, and nothing else |
| `JoinProperties.KeyOrderDoesNotMatter` | src/record_batch_handlers/join_handler.cpp:72-146 | two results for the same batches hold the same rows, whatever the order of the hash map |
| `JoinProperties.JoinIsInTimeOrder` | src/record_batch_handlers/join_handler.cpp:142-144 | if nothing is rejected and tolerance >= 0, every joined row has a time cell that is not null, and these are in order |
| `JoinProperties.NothingRejected` | src/record_batch_handlers/join_handler.cpp:34-66 | nothing is rejected exactly if no batch has a column, not met before, of a type without builders or, having rows, a time column that is missing, of another type, or an INT64 without unit |
| `JoinProperties.FirstFaultMeans` | src/record_batch_handlers/join_handler.cpp:34-66 | otherwise the error is that of the first such batch; a column without builder is noticed before the rows are looked at |
| `JoinProperties.KeyTellsRowsApart` | src/record_batch_handlers/join_handler.cpp:157-169 | equal key strings mean equal join columns if no text before that of the last column has a comma, whatever the names and the last text |
| `JoinProperties.KeyIsAmbiguous` | src/record_batch_handlers/join_handler.cpp:157-169 | with two join columns named once, every row gives rise to two rows that differ in both and have the same key string |
| `JoinProperties.KeyIsSafe` | src/record_batch_handlers/join_handler.cpp:157-169 | columns named once each tell all rows apart exactly if there is at most one of them |
| `ThresholdMachine.ThresholdStateMachine.Handle` | src/record_batch_handlers/stateful_handlers/threshold_state_machine.cpp:233-261 | output and state are those of the run of the step function; an error leaves the state before the failing row |
| `ThresholdMachine.ThresholdStateMachine.AddInOK` | src/record_batch_handlers/stateful_handlers/threshold_state_machine.cpp:61-97 | one row in the calm state: the threshold appended and the next state; no time is needed exactly if the value lies between the trigger and the threshold |
| `ThresholdMachine.ThresholdStateMachine.AddInIncrease` | src/record_batch_handlers/stateful_handlers/threshold_state_machine.cpp:113-158 | one row in the increase state: after more than increase_after above it the row gets threshold * increase_scale_factor, or the maximum if that is less, and else the threshold |
| `ThresholdMachine.ThresholdStateMachine.AddInDecrease` | src/record_batch_handlers/stateful_handlers/threshold_state_machine.cpp:174-229 | one row in the decrease state: after more than decrease_after at or below the trigger the row gets threshold * decrease_scale_factor, or the minimum if that is more, and else the threshold; a value back above the trigger leaves the scaled threshold |
| `ThresholdMachine.CreateHandler` | src/record_batch_handlers/stateful_handlers/threshold_state_machine.cpp:278-286 | the factory starts calm at the default threshold |
| `ThresholdSpec.RunOfComplete` | src/record_batch_handlers/stateful_handlers/threshold_state_machine.cpp:233-261 | on complete rows nothing fails, and every row gets exactly one threshold despite delegation |
| `ThresholdSpec.RunConcat` | src/record_batch_handlers/stateful_handlers/threshold_state_machine.cpp:233-261 | two batches in turn are one longer run |
| `ThresholdHistory.StateIsHistory` | src/record_batch_handlers/stateful_handlers/threshold_state_machine.cpp:61-229 | the state after any run can be read off the rows and the thresholds they got |
| `ThresholdHistory.RaisedExactlyWhenDue` | src/record_batch_handlers/stateful_handlers/threshold_state_machine.cpp:126-144 | a row is raised exactly if the maximal run of rows above their thresholds before it started more than increase_after ago and the row is above, too; it gets the previous threshold times the increase factor, or the maximum if that is less |
| `ThresholdHistory.HighRunHasOneThreshold` | src/record_batch_handlers/stateful_handlers/threshold_state_machine.cpp:113-158 | during such a run the threshold does not change |
| `ThresholdHistory.HighSinceMeans` | src/record_batch_handlers/stateful_handlers/threshold_state_machine.cpp:82-87 | the start that the machine remembers is the first row of the maximal high run |
| `ThresholdHistory.LoweredExactlyWhenDue` | src/record_batch_handlers/stateful_handlers/threshold_state_machine.cpp:187-206 | a timed decrease happens exactly if the value is at or below the trigger and the first row that can have started the pending decrease lies more than decrease_after back; the row gets the previous threshold times the decrease factor, or the minimum if that is more |
| `ThresholdHistory.ThresholdOtherwise` | src/record_batch_handlers/stateful_handlers/threshold_state_machine.cpp:219-226 | any other row gets the previous threshold, times the decrease factor if the previous row called a decrease off, and the first row gets the default |
| `ThresholdSpec.TriggerIs` | src/record_batch_handlers/stateful_handlers/threshold_state_machine.cpp:194-196 | the trigger is the threshold times the trigger factor |
| `ThresholdHistory.LowRunHasOneThreshold` | src/record_batch_handlers/stateful_handlers/threshold_state_machine.cpp:174-229 | while a decrease is pending the threshold does not change |
| `ThresholdHistory.LowSinceMeans` | src/record_batch_handlers/stateful_handlers/threshold_state_machine.cpp:89-94 | the start that the machine remembers is the first row below its trigger, not following a row above its threshold, since which all rows are low and none was lowered |
| `ThresholdHistory.PendingMeans` | src/record_batch_handlers/stateful_handlers/threshold_state_machine.cpp:89-94 | a decrease is pending exactly if there is such a row |
| `ThresholdBounds.ThresholdsInBounds` | src/record_batch_handlers/stateful_handlers/threshold_state_machine.cpp:132-135 | with sensible options every emitted threshold of every run is in [0, max] |
| `ThresholdBounds.StepKeepsMinimum` | src/record_batch_handlers/stateful_handlers/threshold_state_machine.cpp:194-226 | one step keeps the minimum exactly if it does not leave the decrease state by the unclamped recovery edge to a value below it |
| `ThresholdBounds.MinimumKeptWithoutDips` | src/record_batch_handlers/stateful_handlers/threshold_state_machine.cpp:219-226 | a run keeps the minimum exactly if no row takes that edge to below it |
| `ThresholdBounds.MinimumKeptByOptions` | src/record_batch_handlers/stateful_handlers/threshold_state_machine.cpp:219-226 | all runs keep the minimum exactly if the minimum is 0, the decrease factor is 1, or the trigger factor is at least 1 |
| `Handshake.PublisherConsumer.StartSending` | src/consumers/publisher_consumer.cpp:77-102 | sends none while subscribers are missing, else as many buffered payloads as the socket takes, in order |
| `Handshake.PublisherConsumer.FlushBuffer` | src/consumers/publisher_consumer.cpp:89-102 | sends the first buffered payload if the socket is writeable, else nothing |
| `Handshake.PublisherConsumer.OnTimer` | src/consumers/publisher_consumer.cpp:43-51 | invites, using up the socket, exactly while the timer runs, subscribers are missing and the socket is writeable; the timer stops once all are counted |
| `Handshake.PublisherConsumer.OnSynchronize` | src/consumers/publisher_consumer.cpp:59-73 | a confirmation is counted once and its poller closed |
| `Handshake.PublisherConsumer.Stop` | src/consumers/publisher_consumer.cpp:26-40 | sends what it may, then the end message, and closes everything |
| `Handshake.Publisher.TrySynchronize` | src/utils/transport_utils.cpp:121-127 | sends an invitation exactly while subscribers are expected |
| `Handshake.SubscriberProducer.OnPoll` | src/producers/subscriber_producer.cpp:19-49 | reads messages up to the end message; the first one makes it ready, later payloads are handled |
| `Handshake.SubscriberProducer.Read` | src/producers/subscriber_producer.cpp:27-42 | what one message does, and when it triggers the confirmation |
| `Handshake.SubscriberProducer.OnSynchronize` | src/producers/subscriber_producer.cpp:51-62 | becomes ready to confirm, and confirms at once if already invited |
| `Handshake.SubscriberProducer.Start` | src/producers/subscriber_producer.cpp:9-16 | drains what is there and opens the pollers |
| `HandshakeSafety.InvAct` | src/consumers/publisher_consumer.cpp:10-102 | every action of the system keeps the invariant |
| `HandshakeSafety.NoDataBeforeAllConfirmed` | src/consumers/publisher_consumer.cpp:77-87 | in every reachable state each subscriber has confirmed at most once, and if data was sent all have confirmed and are ready |
| `HandshakeSafety.NoDataDiscarded` | src/producers/subscriber_producer.cpp:32-38 | what a subscriber discards is never data |
| `HandshakeSafety.HandledInOrder` | src/producers/subscriber_producer.cpp:25-43 | what a subscriber has handled is a prefix of what it should make of all that was consumed; after the end message it is all that was sent |
| `HandshakeSafety.HandledIsPrefixOfConsumed` | src/producers/subscriber_producer.cpp:25-43 | without "connect" and "end" payloads it is a prefix of what was consumed, in order and without duplicates |
| `HandshakeSafety.DeliveredAsIs` | src/producers/subscriber_producer.cpp:25-43 | in every reachable state, a subscriber that has read the end message has handled what was sent exactly if no payload among it reads "connect" or "end" |
| `HandshakeDelivery.Delivery` | src/consumers/publisher_consumer.cpp:10-102 | for any number of subscribers and any payloads there is a run in which all that is consumed is sent and every subscriber handles it up to the end message |
| `HandshakeCompletion.CanStillSendAll` | src/consumers/publisher_consumer.cpp:10-102 | from a reachable state all that was consumed can still be sent exactly if nothing is buffered, or the publisher was not stopped and each subscriber was counted or has open all pollers it still needs |
| `HandshakeSafety.StopSendsEverything` | src/consumers/publisher_consumer.cpp:26-33 | stopping sends all that was consumed exactly if nothing is buffered, or all are counted and the socket takes it all |
| `Varint.EncodeTo` | src/utils/uvarint_utils.cpp:17-27 | the loop writes the encoding of the value |
| `Varint.DecodeFrom` | src/utils/uvarint_utils.cpp:29-55 | end of file, too large, or the value and the rest, exactly as the digits say, after at most five bytes |
| `Varint.RoundTrip` | src/utils/uvarint_utils.cpp:17-55 | decoding what was encoded, whatever follows, gives the value and leaves what follows |
| `Varint.AtMostFiveBytes` | src/utils/uvarint_utils.cpp:17-27 | every 32-bit value takes at most five bytes |
| `Varint.EncodeIsShortest` | src/utils/uvarint_utils.cpp:17-27 | no varint with the same digit sum is shorter |
| `Varint.EncodedByte` | src/utils/uvarint_utils.cpp:17-27 | byte i holds digit i of the value to base 128, with the high bit set exactly if it is not the last |
| `Framing.KapacitorRequestReader.ReadRequests` | src/kapacitor_udf/utils/rw_utils.cpp:10-44 | bodies handed out, residual state and exception are those of the specification of a call |
| `Framing.WriteToStreamWithUvarintLength` | src/kapacitor_udf/utils/rw_utils.cpp:46-50 | writes the size as 32-bit varint and the body |
| `Framing.ReadIsRight` | src/kapacitor_udf/utils/rw_utils.cpp:10-44 | from the right state a call hands out exactly the completed bodies; it ends in the right state exactly if no length is cut and no body is left incomplete by its second chunk |
| `Framing.NextCallIsRight` | src/kapacitor_udf/utils/rw_utils.cpp:27-43 | the following call is right for every next chunk exactly under that condition |
| `Framing.BodyInThreePieces` | src/kapacitor_udf/utils/rw_utils.cpp:27-43 | a body that comes in three pieces is handed out as its first two, cut to the length of the second, and the third |
| `Framing.DeliveredInChunks` | src/kapacitor_udf/utils/rw_utils.cpp:10-44 | chunks cut that way are read as if they had come in one piece |
| `Framing.FramesArrive` | src/kapacitor_udf/utils/rw_utils.cpp:10-50 | written frames cut that way come out as they were written, and nothing is left |
| `Framing.FrameRoundTrip` | src/kapacitor_udf/utils/rw_utils.cpp:46-50 | a written frame reads back as its body exactly if the body is shorter than 2^32 bytes |
| `Framing.ParseConcat` | src/kapacitor_udf/utils/rw_utils.cpp:15-42 | parsing a stream in two steps is parsing it at once |
| `LengthPrefix.SplitMessage` | src/utils/transport_utils.cpp:30-45 | the parts, with sizes read as strtol reads them; or that the loop does not end, or reads past the buffer for a size cut by its end |
| `LengthPrefix.GoesRoundMeans` | src/utils/transport_utils.cpp:34-42 | the loop does not end exactly if it makes any number of passes; a negative size takes it back to an offset it has met |
| `LengthPrefix.SizeStringExists` | src/utils/transport_utils.cpp:67-71 | padding succeeds exactly for sizes below 10^10, with ten digits |
| `LengthPrefix.SizeRoundTrip` | src/utils/transport_utils.cpp:67-87 | parsing inverts padded printing, unless errno is already ERANGE, which gives 0 |
| `LengthPrefix.SizeWithSign` | src/utils/transport_utils.cpp:73-87 | zeros, white space, a sign and digits read as the number the digits make, negative after a minus sign |
| `LengthPrefix.SizeWithoutSign` | src/utils/transport_utils.cpp:73-87 | without a sign they read as that number |
| `LengthPrefix.PassMeans` | src/utils/transport_utils.cpp:34-42 | a pass adds the part behind the size and goes on by the size, back if it is negative; from before the buffer it ends |
| `LengthPrefix.SplitWrapped` | src/utils/transport_utils.cpp:16-45 | splitting concatenated wrapped messages gives them back exactly if errno is not already ERANGE or all are empty |
| `StringUtils.SplitString` | src/utils/string_utils.cpp:9-25 | the find loop yields the parts of the specification |
| `StringUtils.FindMeans` | src/utils/string_utils.cpp:9-25 | the search gives the first occurrence, and none exactly if there is none |
| `StringUtils.ConcatenateStrings` | src/utils/string_utils.cpp:27-40 | the loop yields the parts with the delimiter between them |
| `StringUtils.SplitOfConcatenation` | src/utils/string_utils.cpp:9-40 | splitting undoes concatenating exactly for the stated parts and delimiters |
| `StringUtils.ConcatenationOfSplit` | src/utils/string_utils.cpp:9-40 | concatenating undoes splitting exactly if the delimiter has one character or does not occur |
| `GroupString.ConstructGroupFromOrderedMap` | src/metadata/grouping.cpp:99-109 | names and values side by side, in the order of the map |
| `GroupString.Encode` | src/kapacitor_udf/utils/grouping_utils.cpp:49-75 | the string is the measurement, if the group has it, and a newline, and the columns whose type is TAG as name, "=" and value, separated by commas |
| `GroupString.EncodeTag` | src/kapacitor_udf/utils/grouping_utils.cpp:63-71 | one more column with type TAG adds name, "=" and value, after a comma if tags came before |
| `GroupString.EncodeMeasurement` | src/kapacitor_udf/utils/grouping_utils.cpp:60-62 | the measurement column puts its value and a newline in front |
| `GroupString.EncodeOther` | src/kapacitor_udf/utils/grouping_utils.cpp:60-71 | a column of any other type, or of none, adds nothing |
| `GroupString.LexMeans` | src/metadata/grouping.cpp:99-109 | the order of the map is by the first character that differs, a text before its continuations |
| `GroupString.Parse` | src/kapacitor_udf/utils/grouping_utils.cpp:15-47 | the group of the parsed map, or the exception |
| `GroupString.PutMeans` | src/kapacitor_udf/utils/grouping_utils.cpp:26-44 | putting an entry replaces the value of its name and nothing else |
| `GroupRoundTrip.ParsedIsClean` | src/kapacitor_udf/utils/grouping_utils.cpp:15-47 | whatever is parsed, no tag name or value has a separator and the measurement has no newline |
| `GroupRoundTrip.RoundTrip` | src/kapacitor_udf/utils/grouping_utils.cpp:15-75 | a group survives exactly if each of its columns is the measurement or has type TAG, tags have no separators, and the measurement has no newline |
| `Grouping.GroupSortingByColumns` | src/utils/compute_utils.cpp:77-83 | grouping succeeds exactly under the stated condition on nulls; then the groups are the rows of each key that has a group, in strict lexicographic order of the keys: each holds rows that agree, without nulls, in every named column that the batch has, and they come in order of the first name in which they differ |
| `Grouping.Sort` | src/utils/compute_utils.cpp:15-73 | the recursion fails exactly under that condition, and else appends the groups by the columns, from the i-th on, that the batch has |
| `Grouping.SortFirst` | src/utils/compute_utils.cpp:28-73 | the loop over one column, nulls last, ends: each pass drops the rows with the least value, and the first one all nulls |
| `GroupingByNames.PresentMeans` | src/utils/compute_utils.cpp:15-27 | a name counts, in its place, exactly if the batch has the column |
| `GroupingByNames.GroupsByNames` | src/utils/compute_utils.cpp:15-83 | by the given names: the groups hold each row that has no nulls in the named columns that the batch has, as often as the batch; rows agree in all of these within a group and not across, and groups are in order |
| `GroupingByNames.AgreeingRowsShareAGroup` | src/utils/compute_utils.cpp:24-73 | rows that agree, without nulls, in all named columns that the batch has are in one group |
| `GroupKeys.KeysOfAreKeys` | src/utils/compute_utils.cpp:77-83 | the keys are those that have a group, each once, in strict lexicographic order |
| `GroupKeys.KeysAreDetermined` | src/utils/compute_utils.cpp:77-83 | there is only one such list of keys, so the groups are determined by the rows |
| `GroupingProperties.GroupsAreNotEmpty` | src/utils/compute_utils.cpp:77-83 | without nulls no group is empty |
| `GroupingProperties.GroupsPartitionRows` | src/utils/compute_utils.cpp:77-83 | grouping succeeds and the groups hold every row as often as the batch exactly if no row has a null in a grouping column (and there are rows, unless there are no columns) |
| `GroupingProperties.GroupsHoldComplete` | src/utils/compute_utils.cpp:45-69 | the groups hold exactly the rows without nulls in the grouping columns |
| `GroupingProperties.EmptyGroups` | src/utils/compute_utils.cpp:40-56 | there is an empty group exactly if all rows under some key have a null in the last column |
| `GroupingProperties.OneColumnAccepts` | src/utils/compute_utils.cpp:34-69 | by one column grouping succeeds exactly if there are rows, and the nulls are none, all, or beside different values |
| `GroupingProperties.NullsAreLost` | src/utils/compute_utils.cpp:45-69 | a null beside two values is lost, beside one value grouping fails, and two nulls leave an empty group |
| `GroupingProperties.GroupsAreDistinct` | src/utils/compute_utils.cpp:77-83 | each group is constant on the columns, and the values grow lexicographically from group to group |
| `GroupingProperties.GroupsAreSorted` | src/utils/compute_utils.cpp:77-83 | one after another, the groups are lexicographically sorted |

## Left out

- Arrow's sort, take, filter, slice and concatenate are functions on sequences; the sort is stable, as `SortIndices`
  is.
- Empty batches: the window and derivative handlers read row 0 of each batch.
- `every <= 0`, negative times, and batches that arrive out of time order, in the window theorems: the code does not
  guard against them, and it uses `next_emit_ == 0` for "not set".
- Negative neighbourhoods and unit segments <= 0 of the derivative handler, and accepted batches out of time order.
- Missing time columns, time units or metadata entries of the window and derivative handlers, and values that cannot
  be cast.
- Null timestamps, null duration cells of the dynamic window, and null watched values of the threshold machine: the
  code uses the value field of a null scalar there.
- Null cells in the join handler, and join columns missing from a batch that has rows: the code reads invalid scalars
  or null pointers there. Mixed types for one column name are not modelled either.
- JoinProperties.KeyIsSafe: join columns that are named more than once.
- `time_utils::convertTime`: durations and join times come in seconds, and the conversion does not overflow.
- Doubles are reals in the threshold and finite-difference parts, and scaled times are exact integers; NaN, infinities
  and rounding are not modelled. Integers do not overflow except where a 32-bit size is written.
- The Eigen solvers: any function that solves regular systems that have a solution.
- Virtual dispatch of threshold states and of `IWindowHandler`: the states are a datatype, the dynamic handler holds a
  `WindowHandler`.
- Masks and shifts of the varint codec are written as remainders and quotients by 128.
- Protobuf parsing of request bodies: the reader hands out bytes.
- What `splitMessage` reads past the end of the buffer, and buffers so long that an offset exceeds 2^64 without a
  negative length.
- The empty delimiter of `split`, for which the program throws.
- The event loop, sockets and their high-water marks: once a subscriber has joined, its channel loses nothing and
  keeps the order; a send succeeds when the socket is reported writeable.
- `GroupDispatcher`, `FilterHandler`, `MapHandler`, `DefaultHandler`, `LogHandler`, parsers, option parsing, metadata
  setters and the group parser for points: only easy members.
