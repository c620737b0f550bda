# Database concurrency control, modelled in Dafny

The repository simulates three database concurrency-control protocols. Each one is a
single-threaded engine that replays a log of read (`R`), write (`W`) and commit (`C`)
operations. There is no real concurrency. A transaction "waits" only in the sense that
its operation is queued or replayed later. This project models each engine as pure
state-transition functions over immutable data:

- **Two-phase locking** (2pl/twoPL.py, and its copy 2pl/main.py), module `TwoPhaseLocking`.
  - The state holds:
    - a lock table mapping each item to its list of `(S|X, transaction)` entries;
    - the queue of refused commands;
    - the final result list;
    - the arrival order of transactions.
  - A read conflicts only with another transaction's exclusive entry. A write conflicts
    with any entry of another transaction, and it upgrades the writer's own shared lock.
  - On a conflict:
    - an older requester rolls the younger holder back (the rule textbooks call
      wound-wait);
    - a younger requester is refused and its command is queued.
  - A rollback puts the victim's results back at the front of the queue.
  - After every commit the queue is drained once. A transaction that is refused during a
    drain pass is skipped for the rest of that pass.
  - A queue left over at the end of the log is simulated again as a new log.
- **Multiversion timestamp ordering** (mvcc/lib.py, mvcc/Mvcc.py).
  - Modules `Versions` and `Mvcc`.
  - Every item has a chain of versions `(read_ts, write_ts, dependents)`. New versions are
    appended at the end.
  - A read bumps the read timestamp of one version.
  - A write either overwrites a version in place or appends a new one. It fails when
    every version was read by a younger transaction.
  - A failed operation aborts its transaction, and the abort cascades through the
    dependents of every version the transaction created. Then each aborted transaction
    restarts with a fresh timestamp and replays its operations.
- **Optimistic concurrency control**: occ/Lib.py with occ/Occ.py (module `Occ`), and the
  older occ/main.py (module `OccLog`).
  - Both share the transaction record, the `Fin(n) | Inf` timestamps and the three-case
    validation test (module `Optimistic`).
  - occ/Occ.py restarts a failed transaction at once.
  - occ/main.py queues the failed transaction and replays it in `rollback_all` after the
    whole log.
- **Operation parsing**: the `Operation` parser of mvcc/lib.py and occ/Lib.py (module
  `Operations`), and the `;`-separated log parser of occ/main.py (`OccLog.ParseCommand`).
  Both rest on the small string helpers of module `Text`.

Supporting modules:
- `Outcomes` holds `Option` and `Result`.
- `Seqs` holds sequence helpers, among them the one first-match lookup (`FirstWith`) that both `find_transaction` methods use.
- `Closure` computes the reachability closure that the cascading abort walks.

Each module named `...Findings` or `...Scenario` evaluates the model on concrete logs.
The engines loop without a bound in three places:
- the re-simulation of the leftover queue in 2PL;
- the replay in `run_operation` of both MVCC and occ/Occ.py;
- `rollback_all` of occ/main.py.

Each of these loops is driven by a `fuel` argument, and running out of fuel is the result
`Err(OutOfFuel)`.

Where the code and the design comments disagree, the model follows the code:
- 2PL: the comments name wait-die, but the code implements wound-wait.
- MVCC timestamps: a transaction's timestamp at first sight is its own number, not the
  arrival counter.
- MVCC chains: they are in insertion order, not sorted by write timestamp.
- occ/Occ.py validation: the first earlier-validated transaction decides the whole
  validation, because of an early `return True`.

## Model

| member | source | states |
|---|---|---|
| Text.Upper | occ/main.py:51 | ASCII lower-case letters map to their upper-case letter, every other character is unchanged |
| Text.ParseInt | occ/main.py:65-66 | a number is recognised exactly when the text is an optional sign followed by at least one digit, and a digit string yields its decimal value |
| Text.ParseDecimal | mvcc/lib.py:40 | parsing the decimal rendering of a natural number gives that number back |
| Text.SplitJoin | occ/main.py:45 | splitting at `;` recovers the parts that were joined with `;`, when no part contains `;` |
| Text.RemoveSpaces | occ/main.py:45 | the result has no space, a text without spaces is unchanged, and one character is dropped exactly when it is a space |
| Text.RemoveSpacesAppend | occ/main.py:45 | removing spaces works piece by piece: the result for a concatenation is the results for the parts, one after the other, so every other character stays, in its order |
| Operations.Parse | mvcc/lib.py:38-42 | a line parses exactly when there is text before its first `(` and what follows the letter there is a number `int()` accepts; the letter is the first character and the number is that text's value; there is an item exactly when the line has `(`, and it is the text up to the next `(` (or the end) without its last character |
| Operations.ParseAccess | mvcc/lib.py:38-42 | the line `Op + decimal(n) + "(" + L + ")"`, with no `(` in L, parses to letter Op, number n and item L |
| Operations.ParseCommit | occ/Lib.py:13-16 | the line `Op + decimal(n)` parses to letter Op and number n, with no item |
| Operations.ParseRender | occ/Lib.py:7-17 | parsing is a left inverse of rendering an operation as a log line |
| TwoPhaseLocking.Release | 2pl/twoPL.py:48-53 | after a release, no entry of the transaction is left on any item; every entry of another transaction stays; each other transaction's entries on each item are the same list as before; no item is added or removed |
| TwoPhaseLocking.DisownedConserves | 2pl/main.py:16-19 | the results kept plus the results taken out are the original results, as a multiset |
| TwoPhaseLocking.DisownedAppend | 2pl/twoPL.py:14-17 | the results are filtered in one pass in order: what is left of a concatenation is what is left of each part, one after the other, and a single entry is left exactly when it is not the victim's |
| TwoPhaseLocking.Rollback | 2pl/twoPL.py:8-19 | the victim's locks are released; the results left are the original results, in their order, with exactly the victim's entries filtered out; its results go to the front of the queue in their original order; results and queue together are conserved as a multiset; the arrival order is unchanged |
| TwoPhaseLocking.RollbackTwice | 2pl/main.py:10-21 | rolling a transaction back twice is the same as rolling it back once |
| TwoPhaseLocking.ReleaseKeepsWellLocked | 2pl/main.py:46-51 | releasing keeps the table well locked: no exclusive entry shares an item with another transaction's entry |
| TwoPhaseLocking.Grant | 2pl/twoPL.py:32-45 | a read appends a shared entry; a write appends an exclusive entry, and first drops the writer's shared entry when it holds one; other items are unchanged |
| TwoPhaseLocking.GrantLast | 2pl/main.py:32-44 | when no conflicting entry is left, the granted lock is the item's last entry, no entry conflicts with it, and the table stays well locked |
| TwoPhaseLocking.Scan | 2pl/twoPL.py:21-46 | the scan succeeds exactly when every conflicting entry belongs to a younger transaction; on success no conflicting entry is left on the item; the requester's locks and results are untouched; the results left are the original ones, in their order, with the entries of some set of other transactions (those rolled back) filtered out; the queue only grows; the table stays well locked |
| TwoPhaseLocking.Acquire | 2pl/twoPL.py:21-46 | granted exactly when every conflicting entry (for a read, another transaction's exclusive entry; for a write, any entry of another transaction) is held by a younger transaction; when granted, the requested lock is the item's last entry and nothing conflicts with it; when refused, the requester's locks are unchanged; the table stays well locked |
| TwoPhaseLocking.Execute | 2pl/twoPL.py:55-90 | it fails exactly on a short command or a letter other than R, W or C. A read or write is granted exactly under the acquisition rule; the results are then the earlier results, in order, less the entries of the rolled-back transactions, followed by `Op+num(item)` as the last entry. A refused one changes none of its transaction's results or locks, and the rest of the results only lose rolled-back transactions' entries, keeping their order. A commit releases the locks and appends `C+num`. Other transactions only lose results, through a rollback |
| TwoPhaseLocking.Retry | 2pl/main.py:96-104 | a command of a transaction already refused in this drain pass is queued again without running; the refused set only grows, and a refused transaction only loses results |
| TwoPhaseLocking.Drain | 2pl/twoPL.py:104-122 | a transaction already refused in the pass gains no result for the rest of it (it keeps its results, or loses them all through a rollback); the arrival order is unchanged; the table stays well locked |
| TwoPhaseLocking.Register | 2pl/main.py:107-115 | the transaction joins the arrival order only if absent; an unseen item gets an empty lock list; nothing else changes |
| TwoPhaseLocking.Admit | 2pl/twoPL.py:134-146 | a command whose transaction already has a queued entry is appended to the queue without running; otherwise it runs and is queued when refused |
| TwoPhaseLocking.Step | 2pl/main.py:92-128 | every transaction seen stays in the arrival order, the order has no duplicates, and the table stays well locked |
| TwoPhaseLocking.Pass | 2pl/twoPL.py:102-154 | after the main loop, every transaction of the log is in the arrival order, an order without duplicates keeps none, and the table stays well locked |
| TwoPhaseLocking.Simulate | 2pl/twoPL.py:92-170 | a finished simulation leaves the queue empty and every transaction of the log in the arrival order; an order without duplicates keeps none, and a well-locked table stays well locked |
| TwoPhaseLockingScenario.Scenario | 2pl/twoPL.py:92-170 | on `R1(A) W2(A) C1 C2`, the write of T2 waits behind T1's shared lock and runs in the drain after C1; the result is `R1(A) C1 W2(A) C2` |
| TwoPhaseLockingFindings.ReleaseAsWritten | 2pl/twoPL.py:48-53 | the release as written removes from a list while iterating over it; it keeps every item and never lengthens a list |
| TwoPhaseLockingFindings.ReadAfterOwnWrite | 2pl/twoPL.py:23-33 | a read after the transaction's own write puts its shared entry right behind its exclusive one |
| TwoPhaseLockingFindings.ReleaseKeepsCommittedEntry | 2pl/twoPL.py:48-53 | on the entries `[X1, S1]`, the release as written leaves `S1` behind after T1 commits, while `Release` leaves nothing |
| TwoPhaseLockingFindings.RollbackAsWritten | 2pl/twoPL.py:8-19 | the rollback as written moves the victim's results exactly as `Rollback` does |
| TwoPhaseLockingFindings.ScanAsWritten | 2pl/twoPL.py:35-42 | the scan as written iterates the live list; when it refuses, some conflicting entry of an older holder is on the item |
| TwoPhaseLockingFindings.ScanSkipsSecondHolder | 2pl/twoPL.py:35-42 | with the entries `[S2, S3]`, rolling T2 back shifts S3 into the slot the loop has passed, so the write of T1 sees no conflict |
| TwoPhaseLockingFindings.AcquireBreaksExclusivity | 2pl/twoPL.py:35-45 | from a well-locked table, the acquisition as written grants T1's write while T3 still holds a shared lock, so the table is no longer well locked; `Acquire` keeps it well locked |
| Versions.AddNewVersion | mvcc/lib.py:86-97 | an unseen item gets the one-version chain, a known item gets the version at the end of its chain, and other items are unchanged |
| Versions.Get | mvcc/lib.py:99-105 | the lookup succeeds exactly for an item that has a chain, and returns that chain |
| Versions.GetAfterAdd | mvcc/lib.py:86-105 | after adding a version, its item's chain is the old chain with the version appended, and every other item's lookup is unchanged |
| Versions.RemoveId | mvcc/Mvcc.py:171 | removing a version succeeds exactly when the chain holds it; the chain loses exactly that version and keeps every other one |
| Mvcc.Find | mvcc/Mvcc.py:20-29 | the position of the first transaction with that number, or none exactly when no transaction has it |
| Mvcc.PrepareItem | mvcc/Mvcc.py:31-40 | an item named by a read or write gets a one-version chain of a fresh version unless it has a chain already; existing chains are not touched |
| Mvcc.PrepareItems | mvcc/Mvcc.py:229-230 | before anything runs, every item of a read or write has a chain; existing chains are kept; a chain created here is one fresh `TransactionItem`, with version, read and write timestamps 0 and no dependents |
| Mvcc.Prepare | mvcc/Mvcc.py:42-59 | a transaction seen for the first time gets its own number as timestamp and the counter goes up by one; a known one only records the operation |
| Mvcc.LastBelow | mvcc/Mvcc.py:100-106 | newest first, the first version whose read timestamp is below the reader's, and none exactly when there is no such version |
| Mvcc.ReadChain | mvcc/Mvcc.py:89-108 | only the version `LastBelow` picks changes: its read timestamp becomes the reader's and the reader becomes its last dependent; no read timestamp goes down |
| Mvcc.LastAtMost | mvcc/Mvcc.py:121-124 | newest first, the first version whose read timestamp is at most the writer's, and none exactly when there is no such version |
| Mvcc.Write | mvcc/Mvcc.py:110-146 | fails exactly when every version was read by a younger transaction, and then changes nothing. Otherwise, if the picked version carries the writer's timestamp, nothing changes. If not, a version with the writer's timestamp and the writer as its only dependent is appended to the chain and to the writer's created versions |
| Mvcc.Process | mvcc/Mvcc.py:61-153 | a read always succeeds as `ReadChain` says; a write succeeds as `Write` says; a commit succeeds and changes nothing; any other letter fails and changes nothing |
| Mvcc.RemoveAll | mvcc/Mvcc.py:168-171 | after the removal, no version created by an aborted transaction is left in the store, and every version no aborted transaction created is still in its chain; no item is added or removed, and no version is added |
| Mvcc.Abort | mvcc/Mvcc.py:155-187 | the aborted list starts with the transaction and has no duplicates; it is closed under the dependents of created versions; a version leaves the store exactly when an aborted transaction created it, so initial and committed versions stay; nothing but the store changes |
| Mvcc.AbortIsLeast | mvcc/Mvcc.py:173-184 | the aborted set is contained in every set that holds the transaction and is closed under dependents |
| Mvcc.AbortIsReachable | mvcc/Mvcc.py:173-184 | every aborted transaction after the first depends on an earlier aborted one |
| Mvcc.RestartTxn | mvcc/Mvcc.py:204-211 | the counter goes up by one and becomes the transaction's timestamp; its created versions are forgotten; the restart is recorded |
| Mvcc.AbortKeepsStamps | mvcc/Mvcc.py:196-201 | a failed operation and its abort change only the store |
| Mvcc.RunOp | mvcc/Mvcc.py:189-215 | running an operation never moves the counter back; earlier restarts are kept, and restart timestamps stay strictly increasing |
| Mvcc.RestartAll | mvcc/Mvcc.py:204-215 | each aborted transaction takes a restart: the counter grows by at least their number, at least that many restarts are recorded after the earlier ones, and restart timestamps stay strictly increasing |
| Mvcc.RunLogSplit | mvcc/Mvcc.py:233-235 | running a log in two pieces is running it whole |
| Mvcc.Run | mvcc/Mvcc.py:217-235 | a completed run had an item on every read and write, and its restarts took strictly increasing timestamps |
| MvccFindings.AbortAsWritten | mvcc/Mvcc.py:155-187 | the recursive abort as written, with no visited set; its result starts with the transaction, and it only removes versions |
| MvccFindings.LogReachesBefore | mvcc/Mvcc.py:217-235 | the log `W1(X) W1(Y) R2(X) R2(Y) R2(Z) W2(Z)` reaches a state where T2 depends on T1 through two versions |
| MvccFindings.WriteFails | mvcc/Mvcc.py:121-146 | in that state the write `W1(Z)` finds every version of Z read by T2 and fails |
| MvccFindings.AbortRevisits | mvcc/Mvcc.py:168-184 | the abort as written then reaches T2 twice and removes its version of Z twice, which fails (Python's `ValueError`) |
| MvccFindings.AbortCascades | mvcc/Mvcc.py:155-187 | the corrected abort of T1 in the same state aborts `[1, 2]` and removes each created version once |
| Optimistic.Fresh | occ/Lib.py:33-47 | a new transaction has empty read and write sets, no operations, and infinite start, validation and finish (the record of occ/main.py is the same without operations) |
| Optimistic.Find | occ/Occ.py:21-30 | the position of the first transaction with that number, or none exactly when no transaction has it |
| Optimistic.Meets | occ/Occ.py:176-182 | the intersection loop finds an item exactly when some item written by Ti is read by Tj |
| Optimistic.PassesOnNumbers | occ/Occ.py:168-193 | with finite timestamps, Ti passes exactly when finish(Ti) < start(Tj), or when start(Tj) < finish(Ti) < validation(Tj) and no item written by Ti is read by Tj; an unfinished Ti never passes |
| Optimistic.DecideFirst | occ/Occ.py:153-195 | valid exactly when every earlier-validated Ti passes or comes after another earlier-validated one, that is, when the first such Ti passes |
| Optimistic.DecideAll | occ/main.py:137-173 | valid exactly when every earlier-validated Ti passes |
| Optimistic.EveryThenFirst | occ/Occ.py:156-195 | what the all-transactions test validates, the first-transaction test validates too |
| Optimistic.OneEarlierAgree | occ/Occ.py:156-195 | with at most one earlier-validated transaction, the two tests agree |
| Optimistic.PendingFails | occ/main.py:148-173 | an earlier-validated transaction that has not finished fails every validation under the all-transactions test, and under the first-transaction test when it comes first |
| Occ.Prepare | occ/Occ.py:32-50 | a transaction seen for the first time joins the end of the registry with the current counter as start, and the counter goes up by one; a known one only records the operation |
| Occ.Process | occ/Occ.py:52-122 | a read adds its item to the read set only if absent, and moves the counter by one. A temporary write does the same on the write set and also appends to the local buffer. A commit validates. Any other letter fails and changes nothing. Other transactions are untouched |
| Occ.Validate | occ/Occ.py:139-211 | the validation timestamp is the next counter value. The outcome is the rule's decision. A valid transaction finishes two counter steps later, so start < validation < finish. An invalid one keeps its finish. Other transactions are untouched |
| Occ.ProcessKeeps | occ/Occ.py:52-84 | a successful operation keeps the registry invariant (distinct numbers, timestamps in order and below the counter, no duplicate set entries) and leaves nothing validated but unfinished |
| Occ.Restart | occ/Occ.py:238-253 | the counter goes up by one and becomes the new start; the sets are emptied; validation and finish become infinite; the recorded operations are kept |
| Occ.RetryKeeps | occ/Occ.py:233-257 | a failed operation followed by its transaction's restart keeps the registry invariant |
| Occ.RunOp | occ/Occ.py:226-257 | running an operation, with its replays, keeps the registry invariant and never moves the counter back |
| Occ.Run | occ/Occ.py:259-276 | after a completed run, every transaction that finished has start < validation < finish, and none is validated but unfinished |
| OccFindings.LogReachesBefore | occ/Occ.py:259-273 | the log `R1(X) W2(A) C1 R2(B) R3(A) C2` leaves T1 finished (at 7) before T3 started (at 8), and T2 finished (at 13) after writing A while T3, which read A, ran |
| OccFindings.FirstDecidesWrongly | occ/Occ.py:156-195 | there `C3` validates under the code as written, because T1 comes first and passes; under the all-transactions test it fails on T2 |
| OccLog.ParseCommand | occ/main.py:46-81 | an empty command is an error; an unknown letter, a read or write without both parentheses, or `)` before `(` stops the parse; a read or write parses exactly when `int()` accepts the text between letter and `(`, and carries that number and the text between the parentheses; a commit parses exactly when `int()` accepts the rest after the letter, and carries that number; the letter is upper-cased |
| OccLog.ParseCommitAt | occ/main.py:71-73 | a commit command carries the number after its letter and no item |
| OccLog.ParseCommands | occ/main.py:44-82 | the parsed operations are those of the commands before the first one that stops the parse |
| OccLog.StopDropsRest | occ/main.py:51-78 | everything from the first stopping command on is dropped |
| OccLog.ParseLogRender | occ/main.py:38-82 | a log of operations rendered and joined with `;` parses back to the same operations |
| OccLog.EnsureSpec | occ/main.py:262-264 | a number seen for the first time gets a fresh transaction started at the current counter, and the counter does not move |
| OccLog.ActSpec | occ/main.py:84-123 | a read adds its item to the read set only if absent, and a write does the same on the write set; each moves the counter by one; a commit validates; an unregistered number is an error |
| OccLog.ValidateSpec | occ/main.py:125-210 | the queue is unchanged exactly when every earlier-validated transaction passes; a valid transaction finishes two steps after validating; an invalid one joins the end of the rollback queue |
| OccLog.StepSpec | occ/main.py:260-277 | one command of the main loop fails only as a read or write without an item, and moves the counter forward |
| OccLog.PassSpec | occ/main.py:260-277 | the main loop never moves the counter back, and it completes on a log whose reads and writes name their items |
| OccLog.CommandsSpec | occ/main.py:234-237 | the replayed commands are exactly the log's commands of that number |
| OccLog.CommandsAppend | occ/main.py:234-237 | the replay list is built in one pass in log order: for a concatenated log it is the list for each part, one after the other, and a single command is in it exactly when it has that number, so order and repetitions are those of the log |
| OccLog.ReplaySpec | occ/main.py:240-251 | the replay keeps every transaction's number, never moves the counter back, and completes when every command is registered and named |
| OccLog.ResetSpec | occ/main.py:217-231 | the head of the queue is reset: new start at the next counter, empty sets, infinite validation and finish; it leaves the queue |
| OccLog.RollbackAll | occ/main.py:212-253 | when the loop completes the queue is empty; an empty queue completes at once; the invariant is kept; from a valid state it stops only by completing or running out of fuel |
| OccLog.RunSpec | occ/main.py:255-280 | after a completed run the queue is empty, the registry invariant holds, and every transaction validated exactly when it finished |
| OccLog.ParsedRunsOrLoops | occ/main.py:255-280 | a log that parses runs to the end or stops only by running out of fuel |
| OccLog.PendingBlocks | occ/main.py:148-173 | as written, a queued transaction keeps a validation timestamp and no finish, so every later validation of another transaction fails |
| OccLog.ClearedFailsOnConflict | occ/main.py:148-173 | once failed transactions lose their validation timestamp, only a genuine conflict fails a validation: another finished transaction overlapping Tj and writing an item Tj read, or finishing exactly at Tj's start |
| OccLogFindings.LivelockAsWritten | occ/main.py:212-253 | on `R1(A);W3(A);C3;C1;C2` the rollback loop as written never empties its queue: T1 and T2 block each other for ever |
| OccLogFindings.ClearedCompletes | occ/main.py:212-253 | with the correction the same log completes and every transaction finishes |

## Left out

- Printing, ANSI colours, the lock-table dumps and the `__str__` methods are left out. They do not affect the state.
- The file reading and the `__main__` blocks are left out: the model starts from the list of log lines, or from the input string for occ/main.py.
- mvcc/FileHandler.py and mvcc/main.py are not part of this model.
- `local_vars` of both optimistic engines is kept as a plain sequence that nothing reads.
- Termination of the three unbounded loops is not proved: the leftover re-simulation of 2PL, the replay of `run_operation`, and `rollback_all`. Each one runs on `fuel`, and running out is `Err(OutOfFuel)`.
- The state reset at the end of `simulate` is left out. `TwoPhaseLocking.Run` returns the result list the run prints before the reset. 2pl/main.py differs from 2pl/twoPL.py only in printing and in resetting after the recursive re-run, so both copies share one model.
- TwoPhaseLocking.Execute: a command shorter than its indices is `Err(Malformed)` where Python raises `IndexError`. An unknown letter is `Err(UnknownCommand)` where the source raises `Exception()`.
- TwoPhaseLocking.Scan: an id missing from `transactionOrder` ranks after every listed id, where Python's `list.index` raises `ValueError`. This cannot happen from `simulate`, which registers every id before executing its command.
- Mvcc.Process: a read or write of an unknown item or transaction is an error result; the source raises `KeyError` or `AttributeError`.
- Mvcc.Process: an unknown letter makes the operation fail, which aborts and restarts its transaction. The source's `process` returns `False` there.
- Mvcc.Abort: the cascade is computed with a visited set, so it never removes a version twice. The relation to the recursion as written (`MvccFindings.AbortAsWritten`) is shown only on the log in the findings, not proved for all inputs.
- Mvcc.Abort: the frame that keeps every version no aborted transaction created is stated for stores whose chains hold no repeated id. That the engine keeps the ids distinct (it draws them from a counter) is not proved.
- Versions.RemoveId: versions are told apart by an `id` drawn from a counter. The source uses object identity in `list.remove`.
- Text.ParseInt: only an optional sign followed by digits is accepted. Python's `int()` also accepts surrounding blanks, underscores between digits and non-ASCII Unicode decimal digits, none of which the logs of these engines contain.
- OccLog.ParseCommand: an empty command, for example after a trailing `;`, is `Err(Malformed)` where Python raises `IndexError`.
- OccLog.ParseLogRender: it is stated only for items without `(`, `)`, `;` or spaces, which are the items such a log can carry.
- Occ.Run: when a finish timestamp equals a start timestamp, the tie reaches the "otherwise invalid" case, as in the code. The model does not argue whether that was intended.
- Serializability of the produced schedules is not stated for any of the three engines.

## Findings

| source | as written | input that shows it | evidently intended | confidence | as-written member | corrected member |
|---|---|---|---|---|---|---|
| 2pl/twoPL.py:48-53 | `_release_locks` removes entries from the list it is iterating over, so an entry right after a removed one is skipped | `W1(A) R1(A) C1 W2(A) C2`: the read puts `S1` behind `X1`; the commit removes `X1` but skips `S1`, which T1 keeps after committing | every entry of the committing transaction is released | high (not executed) | TwoPhaseLockingFindings.ReleaseKeepsCommittedEntry | TwoPhaseLocking.Release |
| 2pl/twoPL.py:35-42 | `_acquire_lock` iterates the live entry list while `_rollback` removes the rolled-back holder from it, so the next holder is skipped | `R1(B) R2(A) R3(A) W1(A)`: T1's write rolls T2 back; T3's shared lock shifts into the passed slot, and T1 gets an exclusive lock beside it | every conflicting holder is checked, so an exclusive lock never shares an item | high (not executed) | TwoPhaseLockingFindings.AcquireBreaksExclusivity | TwoPhaseLocking.Acquire |
| mvcc/Mvcc.py:168-184 | `handle_abort` recurses into every dependent with no record of transactions already aborted, and removes their versions again | `W1(X) W1(Y) R2(X) R2(Y) R2(Z) W2(Z) W1(Z)`: T2 depends on T1 through X and through Y; the second visit removes T2's version of Z again, and `list.remove` raises | each dependent transaction is aborted once | high (not executed) | MvccFindings.AbortRevisits | Mvcc.Abort |
| occ/Occ.py:156-195 | `process_validate` returns `True` as soon as the first earlier-validated transaction passes, without checking the others | `R1(X) W2(A) C1 R2(B) R3(A) C2 C3`: T1 passes, so C3 validates although T2 wrote A, which T3 read, while T3 ran | every earlier-validated transaction must pass, as in occ/main.py | high (not executed) | OccFindings.FirstDecidesWrongly | Optimistic.DecideAll |
| occ/main.py:148-173 | a failed transaction keeps its validation timestamp with an infinite finish until `rollback_all` resets it, so it fails every other validation meanwhile | `R1(A);W3(A);C3;C1;C2`: C1 fails on T3, then C2 fails on the pending T1; in `rollback_all`, T1 and T2 keep failing on each other and the queue never empties | a failed transaction takes no further part in validation until it is replayed | medium (not executed) | OccLogFindings.LivelockAsWritten | OccLogFindings.ClearedCompletes |
