# go-kit in Dafny

A model of the protocols and state machines of go-kit, with proofs of what they promise:

- **Retrying HTTP transport** (`Retry.dfy`, `RetryAfter.dfy`, `RetryTransport.dfy`, `AttemptLoop.dfy`,
  `RetryLoop.dfy`, `RetryRuns.dfy`, `RetryFailures.dfy`, `RetryExits.dfy`). `AttemptLoop` is the object of the code, field by field, and its methods are
  proved against functions on values. What base, the budget, `GetBody`, the contexts, the retry predicate and the
  random source answer are parameters, so every statement is about all of them. Everything done to a response, a
  context or the budget is an event of a log, and the statements about runs are statements about the log.
- **Keyed mutex** (`KeyedMutex.dfy`), **work pool** (`WorkPool.dfy`) and **cron scheduler** (`CronScheduler.dfy`):
  systems of atomic steps with a program counter for every goroutine, over any number of goroutines, keys, tasks and
  jobs, and every interleaving.
- **Cron specs** (`CronSpec.dfy`): the parser, which fills tables in place, against a grammar and a meaning for it.
- **YAML secret walks** (`YamlTree.dfy`, `YamlRules.dfy`, `YamlWalk.dfy`) over **tagged encryption** (`Crypter.dfy`,
  `Base64.dfy`): the walks overwrite the scalars of a node tree in place and are proved against functions on trees;
  the statements are about those. base64url is implemented (section 5 of RFC 4648, padding omitted as in section 3.2);
  the AEAD is a parameter with two laws.
- **Migrater** (`MigrationFiles.dfy`, `Migrater.dfy`): methods over a database object, under any plan of failures.

`Wrappers.dfy`, `Sums.dfy` and `GoText.dfy` hold what the models share: Option and Result, sums over sequences, and the
parts of Go's integers, `strconv` and `strings` that the code relies on. All integers that are 64 or 32 bits wide in
the code and can leave their range wrap explicitly.

`dafny verify dfyconfig.toml` checks the whole project.

## Where the code and its comments differ

The model follows the code. Each difference is a lemma with a concrete case or the exact condition:

- `normalizeErr` is documented to pass errors other than timeouts to the classifier as they came
  (httpclient/retry_transport.go:200-203). The attempt's own `cancel` has run before it looks at the attempt's context
  (lines 139-140), so with the caller alive every failure of base becomes the timeout error and is retried:
  `FailureAsDocumentedIff`, `PermanentFailureRetried`.
- The clamp of a large Retry-After is documented not to wrap to a negative duration. It does when `maxRetryAfter` is
  within a second of the largest duration: `PromiseKeptIff`, `PastCapWraps`.
- `Unlock` of a key that is locked by someone else is documented to panic (mutex.go:78-80). It need not: without an
  interruption it panics if and only if the entry's mutex is not locked, so never while somebody holds the key
  (`UnlockPanicsIff`, `LoneUnlockPanicsIff`), and two goroutines can then hold the key (`ForeignUnlockBreaksExclusion`).
  When the holder's own `Unlock` comes in between, it can panic (`ForeignUnlockMayPanic`).
- A step near the largest int makes `parseTerm` index with a negative number: `OpenTermPanicsIff`, `FieldPanicsIff`.
- The migrater's README says that the hash is over raw bytes, so that a change of line endings reads as drift
  (migrater/README.md:41). The code replaces CRLF before hashing and executing (migrater/migrater.go:300):
  `LineEndingsDoNotDriftIff`.
- The work pool's README says that `Run` busy-waits (workpool/README.md:32); the code parks on the WaitGroup.

## Model

| member | source | states |
|---|---|---|
| `RetryRuns.Ownership` | httpclient/retry_transport.go:72-183 | in every run each response of base is drained, closed and its context cancelled, once and in this order, or returned live with its own cancel in the body; a context without a response is cancelled once; a returned response is that of the last attempt made |
| `RetryRuns.NothingLeaks` | httpclient/retry_transport.go:64-90 | once the caller has closed the returned body, every response and context of the run has been disposed of exactly once |
| `RetryRuns.OnceOwned` | httpclient/retry_transport.go:93-165 | one attempt takes over at most one held response, settles it, and leaves at most its own response held or final |
| `RetryRuns.LoopOwned` | retry/retry.go:136-153 | the retrier's loop, from any attempt and any held response, keeps exactly one owner for every response and context |
| `RetryRuns.BudgetBalance` | httpclient/retry_transport.go:82-104 | base is called at most max(maxRetries, 1) times and at most once for a non-retryable method; of the attempts made, which are the retrier's calls of `once`, each but the first asks the budget once and records the answer once; base calls = 1 + recorded grants - failed rewinds |
| `RetryRuns.NothingStaleSent` | httpclient/retry_transport.go:118-135 | no attempt after the first sends the original body of a request that has one, and after the caller's death has been seen no context is made, no request sent and no budget asked |
| `RetryExits.RoundTripEnds` | httpclient/retry_transport.go:72-183 | the result of a retryable request, told from the answers of base, budget, `GetBody`, contexts and classifier alone: the first attempt that does not lead to another decides it, and the number of attempts made is that attempt's, or one less if the caller was dead before it |
| `RetryExits.OneAttemptEnds` | httpclient/retry_transport.go:83-88 | a request that is not retryable has one attempt, and the caller gets its response or its error |
| `RetryExits.RefusedIff` | httpclient/retry_transport.go:73-80 | the error for a body that cannot be replayed is returned if and only if the request is retryable and has a body without `GetBody`, and then nothing at all has happened |
| `RetryExits.ErrorEnds` | httpclient/retry_transport.go:93-146 | an error that the classifier refuses, or that comes with the attempts used up, is the result, and the log has no event of a later attempt |
| `RetryExits.DenialEnds` | httpclient/retry_transport.go:97-101 | so for a denial of the budget: the result is the budget error, and the denied attempt makes no context |
| `RetryExits.FailedBodyEnds` | httpclient/retry_transport.go:125-132 | so for a failing `GetBody`: the result is its error, and the attempt does not call base |
| `RetryExits.DefaultEndings` | httpclient/classify.go:35-58 | with the default classifier every denial of the budget ends the run, a failing `GetBody` does unless its error is a timeout or refused connection and no context's, and a response worth retrying is returned only when the attempts are used up |
| `RetryExits.EventsAre` | httpclient/retry_transport.go:93-146 | which attempts asked the budget and got which answer, made a context, rewound the body, called base and with which body, and got a response: exactly those that the answers call for, up to the last one made |
| `RetryExits.NothingAfterLast` | httpclient/retry_transport.go:93-165 | no event of any kind is of an attempt after the last one made |
| `RetryExits.StepsInOrder` | httpclient/retry_transport.go:93-135 | when the budget is asked or a context made nothing of an earlier attempt is open; each answer of the budget is recorded at once; a further attempt begins only right after a yes; base is called right after the rewind or the context |
| `RetryExits.RoundTripWaits` | retry/retry.go:136-153 | how often a run sleeps, and that the wait after attempt a is the retrier's delay for what that attempt asks for: the delay of its status, the hint of the error of `GetBody`, or none |
| `RetryFailures.RoundTripIsDoCtx` | httpclient/retry_transport.go:87-89 | a retryable request is one run of the retrier: same waits, same error, but a success and a last retryable status give the response |
| `RetryLoop.LoopIsDoCtx` | retry/retry.go:128-154 | the same from any attempt on, by attempts |
| `RetryFailures.FirstFinalResponse` | httpclient/retry_transport.go:148-183 | a returned response carries base's status for its attempt and is the first not worth retrying (by method, status and Retry-After cap), or the last one when the attempts are used up or the predicate refuses its status |
| `RetryFailures.NoSentinel` | httpclient/retry_transport.go:170-183 | the retryable-status sentinel is never returned as an error |
| `RetryFailures.FailureAsDocumentedIff` | httpclient/retry_transport.go:138-143 | what the classifier is shown for a failure of base is what lines 200-203 promise if and only if the caller is dead or the attempt's deadline had passed; the default classifier retries if and only if the caller is alive |
| `RetryFailures.PermanentFailureRetried` | httpclient/retry_transport.go:138-143 | a base that always fails, whatever its errors, is called max(maxRetries, 1) times and the caller gets the timeout error |
| `RetryFailures.RetryAfterHonoured` | httpclient/retry_transport.go:217-245 | a number of seconds within the cap is waited out in full with up to a tenth on top, when a tenth on top of the cap fits |
| `RetryAfter.PromiseKeptIff` | httpclient/retry_transport.go:217-245 | on a 429 or 503 every positive number of seconds is honoured in full when seconds times 10^9 is within the cap and refused otherwise, for all numbers, if and only if the cap is at most MaxInt64 - 1s |
| `RetryAfter.PastCapWraps` | httpclient/retry_transport.go:233-236 | with a larger cap, a number of seconds past it is taken for a negative delay within it |
| `RetryAfter.OtherHeaders` | httpclient/retry_transport.go:226-245 | on any other status the header does not count; on a 429 or 503 without a positive number of seconds a date to come does, within the cap |
| `AttemptLoop.RoundTrip` | httpclient/retry_transport.go:72-90 | result and log are those of `RoundTripped`, whose results, waits and events the lemmas of `RetryExits` and `RetryRuns` give from the answers alone |
| `AttemptLoop.AttemptLoop.Once` | httpclient/retry_transport.go:93-104 | all fields, the error and the log after one attempt: the state that `RetryExits.LedTo` gives from the answers alone, with the budget error for a denial |
| `RetryExits.OnceIs` | httpclient/retry_transport.go:93-165 | what one attempt gives the retrier, whatever is held when it begins: the budget error for a denial, the error of `GetBody`, the caller's death or the timeout for a failure of base, the status error with the response held, or the final response |
| `AttemptLoop.AttemptLoop.DrainPrev` | httpclient/retry_transport.go:109-115 | the held response is drained, closed and cancelled with its own cancel, and no longer held |
| `AttemptLoop.AttemptLoop.Send` | httpclient/retry_transport.go:118-146 | context, rewound body, call of base, and cancel on failure, in order |
| `AttemptLoop.AttemptLoop.Normalise` | httpclient/retry_transport.go:204-212 | the error by which context is dead, cancel included |
| `AttemptLoop.AttemptLoop.Classify` | httpclient/retry_transport.go:151-165 | held with the delay to honour, or final with the cancel in its body |
| `AttemptLoop.AttemptLoop.DoCtx` | retry/retry.go:133-153 | the fields after the retrier's whole loop over `Once` |
| `AttemptLoop.AttemptLoop.Result` | httpclient/retry_transport.go:170-183 | the final response, the held one, or the error with the held one disposed of |
| `Retry.DoMeaning` | retry/retry.go:111-154 | every run is a number of attempts that led to another, each followed by the wait due to its error, and one of five endings, with the error that ending returns; at most max(maxRetries, 1) calls |
| `Retry.DoCtx` | retry/retry.go:128-154 | the loop computes the run that `DoMeaning` describes |
| `Retry.HintHonouredIff` | retry/retry.go:208-217 | a hint h waits in [h, h + max(h/10, 1)) for every roll if and only if h + max(h/10, 1) - 1 fits in 64 bits, or there is no jitter |
| `Retry.HintIsSpread` | retry/retry.go:210-217 | with jitter every wait from h up to a tenth more is that of some roll |
| `Retry.BackoffRangeIff` | retry/retry.go:218-222 | without a hint and jitter the delay is step times the attempt's number if and only if that fits in 64 bits; with jitter it is from 0 up to it for every roll if and only if a negative multiple has not wrapped above it |
| `Retry.BackoffIsSpread` | retry/retry.go:218-222 | with jitter every wait from 0 up to the multiple of the step is that of some roll |
| `Retry.BackoffTotalIff` | retry/retry.go:117-127 | without hints and jitter, the delays of n failing attempts add up to step * n(n-1)/2 if and only if the last of them fits in 64 bits |
| `Retry.New` | retry/retry.go:90-109 | each field has what the last setting of its kind asks for, the defaults being the first; attempts below one count as one |
| `KeyedMutex.MutualExclusion` | mutex.go:62-104 | in every reachable state at most one goroutine is between the return of `Lock(k)` and the lookup of its `Unlock(k)` |
| `KeyedMutex.AccountingIsExact` | mutex.go:62-104 | the map's keys are exactly those waited on or held, each refcount is their number, nobody waits on a detached entry or while holding the global lock, and the map is empty when nobody uses it |
| `KeyedMutex.UnlockFindsWhatLockLocked` | mutex.go:90-104 | `Unlock` finds the very entry that this goroutine's `Lock` locked, and never unlocks an unlocked mutex |
| `KeyedMutex.OnlyClientsBlock` | mutex.go:62-104 | when no step inside `Lock` or `Unlock` is left, every goroutine is outside or waits for a key that a client holds |
| `KeyedMutex.DiscountKeepsInvIff` | mutex.go:90-101 | a lookup by `Unlock` keeps the accounting if and only if the goroutine holds the key or nobody uses it |
| `KeyedMutex.UnlockPanicsIff` | mutex.go:75-104 | from its lookup of a listed key on, an uninterrupted `Unlock` by anyone panics if and only if the entry's mutex is not locked, that is if and only if nobody holds the key or is giving it up |
| `KeyedMutex.LoneUnlockPanicsIff` | mutex.go:75-104 | the same of a whole call, so no uninterrupted call that lines 78-80 promise a panic for panics |
| `KeyedMutex.ForeignUnlockMayPanic` | mutex.go:75-104 | a run in which an `Unlock` of a key held by another goroutine is interrupted and panics |
| `KeyedMutex.ForeignUnlockBreaksExclusion` | mutex.go:75-80 | a run in which an `Unlock` by another goroutine panics nowhere and leaves two goroutines holding one key |
| `KeyedMutex.RecreatedWhileReleasing` | mutex.go:82-103 | a run that reaches the subtle state: the entry dropped and recreated while the old per-key mutex is still locked |
| `KeyedMutex.StepKeepsInv` | mutex.go:62-104 | every step of every goroutine keeps the whole accounting |
| `WorkPool.RunReturnsAfterAllTasks` | workpool/workpool.go:76-83 | when the winning `Run` has returned, and ever after, what has run is what was given to `Do` before the first call of `Run`, each task as often as it was given; both counters are 0, and the queue is empty and was closed once |
| `WorkPool.NothingPanics` | workpool/workpool.go:60-112 | no send on a closed queue, no second close, no negative WaitGroup, and no task runs more often than it was accepted |
| `WorkPool.ClosedAcceptsNothing` | workpool/workpool.go:60-63 | after `Run` has closed the pool no task is accepted, ever |
| `WorkPool.AcceptedIsGiven` | workpool/workpool.go:60-79 | in every interleaving the pool is closed if and only if `Run` has been called, and the tasks accepted are exactly those of the calls of `Do` before that |
| `WorkPool.CallsOfDo` | workpool/workpool.go:60-70 | a call of `Do` before any call of `Run` is under way with its task, and one after changes nothing |
| `WorkPool.CallsOfRun` | workpool/workpool.go:76-79 | the first call of `Run` waits, every other returns at once |
| `WorkPool.QueueFits` | workpool/workpool.go:46-49 | the queue never holds more than its capacity |
| `WorkPool.New` | workpool/workpool.go:37-55 | at least one worker, the buffer asked for or 100 a worker and one, and a panic exactly for a negative buffer |
| `WorkPool.IsRunningExact` | workpool/workpool.go:85-88 | `IsRunning` says whether tasks are in flight for fewer than 2^31 of them, and exactly what it says for more |
| `WorkPool.WorkIsNeverStuck` | workpool/workpool.go:60-112 | while the WaitGroup is positive a worker or a blocked `Do` can take a step |
| `WorkPool.StepsLeaveLess` | workpool/workpool.go:60-112 | every step of the pool lowers a measure over producers, queue, workers and `Run` |
| `WorkPool.ClosedPoolStops` | workpool/workpool.go:76-112 | after close only as many steps as the measure says are taken, however further calls interleave |
| `WorkPool.StoppedPoolIsDone` | workpool/workpool.go:76-112 | when `Run` was called and no step is left, the winning `Run` has returned, every worker has exited, and what has run is what was given to `Do` before |
| `WorkPool.DoRacingRunPanics` | workpool/workpool.go:22-25 | a run that breaks the rule about `Do` racing `Run` and sends on the closed queue |
| `WorkPool.StepKeepsInv` | workpool/workpool.go:60-112 | every step keeps the accounting of tasks, counters and the closed queue |
| `CronScheduler.AtMostOncePerMinute` | crontab/crontab.go:188-209 | a job is dispatched in strictly increasing minutes, and only at minutes its schedule matches |
| `CronScheduler.NoOverlap` | crontab/crontab.go:202-229 | without overlap no two fires of a job are in flight, panicking ones included |
| `CronScheduler.WaitGroupIsExact` | crontab/crontab.go:188-258 | the WaitGroup counts the fires that have not finished, is never raised once some call of `Shutdown` has started to wait on it, timed out or not, and the stop channel is closed at most once |
| `CronScheduler.StoppedAddsNothing` | crontab/crontab.go:131-137 | once stopped is set no job is added, nothing dispatched and nothing added to the WaitGroup, ever |
| `CronScheduler.ShutdownNilMeansDrained` | crontab/crontab.go:238-258 | when `Shutdown` has returned nil, and ever after, every dispatched fire has finished, none can start, and every running flag is clear |
| `CronScheduler.ShutdownReturns` | crontab/crontab.go:252-257 | in every interleaving a call of `Shutdown` has returned the context's error if and only if its deadline expired at one of its selects, and nil if and only if it found its wait over with the deadline not expired |
| `CronScheduler.PatientShutdownReturnsNil` | crontab/crontab.go:231-258 | a call of `Shutdown` whose deadline never expires has returned nil when no step is left |
| `CronScheduler.ShutdownCanReturnNil` | crontab/crontab.go:238-254 | a run in which `Shutdown` returns nil |
| `CronScheduler.AddJobReturns` | crontab/crontab.go:126-138 | an `AddJob` that has returned nil has left a job with its schedule, and one that has returned ErrClosed ran on a stopped scheduler |
| `CronScheduler.JobsAreThoseAdded` | crontab/crontab.go:133-137 | there is one job for each `AddJob` that was not refused, and no other |
| `CronScheduler.TickIsComplete` | crontab/crontab.go:192-208 | a tick that is over has dispatched every due job at that minute, except those it skipped, unless the scheduler was stopped |
| `CronScheduler.SkippedMeansInFlight` | crontab/crontab.go:202-204 | a job is skipped only while a fire of it has not cleared its flag |
| `CronScheduler.NothingWedges` | crontab/crontab.go:188-258 | when no step is left, the ticker sleeps, every fire is gone and every call of `AddJob` and `Shutdown` has returned |
| `CronScheduler.DrainEnds` | crontab/crontab.go:188-258 | once stopped is set, the number of further steps of all goroutines is bounded by a measure, and four more for each further tick |
| `CronScheduler.ClockStepBackFiresTwice` | crontab/crontab.go:199-205 | a run in which the clock steps back and a job fires twice in one minute: the rule about the clock is needed |
| `CronScheduler.StepKeepsInv` | crontab/crontab.go:126-258 | every step keeps lock, counters, flags, history and progress of the tick in agreement |
| `CronSpec.AcceptedSpecMatches` | crontab/schedule.go:27-78 | an accepted spec has five words in whatever gaps of space, and its job is due exactly when each word names the clock's value, with the day rule of Vixie cron and 7 read as Sunday |
| `CronSpec.SpecOutcome` | crontab/schedule.go:41-78 | of a text laid out of words and gaps: rejected with their number unless there are five; accepted if and only if all five are fine; else the first that is not decides, with its rejection or panic |
| `GoText.FieldsIff` | crontab/schedule.go:42 | `strings.Fields`: the fields of a text are those words that it is laid out of with gaps of space, in order |
| `GoText.SplitIff` | crontab/schedule.go:84 | `strings.Split`: the parts are those without the separator whose join is the text |
| `GoText.AtoiIff` | crontab/schedule.go:147 | `strconv.Atoi` reads exactly the digits, signed or not, whose value fits in 64 bits |
| `GoText.PlaceValue` | crontab/schedule.go:147 | the value of digits is positional: what stands left of n digits counts 10^n times |
| `CronSpec.TermGrammar` | crontab/schedule.go:95-155 | exactly the terms of a grammar given without the parser are accepted, with the bounds and step they denote |
| `CronSpec.TermRejection` | crontab/schedule.go:95-155 | every other term is rejected with the error of the first text in it that is at fault: the step, the lower value, the upper one, their order |
| `CronSpec.FieldMeaning` | crontab/schedule.go:80-113 | the values of an accepted field are exactly those denoted by some of the terms that it is, joined with commas; there is one, and all are in range |
| `CronSpec.ValuesAreMultiples` | crontab/schedule.go:109-111 | a term's values are those between its bounds whose distance from the lower one the step divides |
| `CronSpec.FieldAcceptedIff` | crontab/schedule.go:82-90 | a field is accepted if and only if every term of its comma-separated list is well formed and none overflows |
| `CronSpec.FieldPanicsIff` | crontab/schedule.go:82-113 | parsing a field panics if and only if some term overflows and all before it are fine |
| `CronSpec.FieldRejectsIff` | crontab/schedule.go:82-90 | a field is rejected with an error if and only if some term is and all before it are fine |
| `CronSpec.TermOutcome` | crontab/schedule.go:95-113 | the same for a term, both ways |
| `CronSpec.OpenTermPanicsIff` | crontab/schedule.go:95-113 | the term "a/n" panics if and only if a + n exceeds MaxInt64 |
| `CronSpec.FirstFailureDecides` | crontab/schedule.go:84-88 | terms after the first that is not accepted are never looked at |
| `CronSpec.Parse` | crontab/schedule.go:41-78 | the tables are those of the spec's meaning with Sunday folded, and rejections and panics are those that `SpecOutcome` gives by the words of the text |
| `CronSpec.ParseField` | crontab/schedule.go:82-90 | the table filled in place holds exactly the union of the terms' values |
| `CronSpec.ParseTerm` | crontab/schedule.go:95-113 | the table gains exactly the term's values |
| `CronSpec.Mark` | crontab/schedule.go:109-111 | the loop sets exactly the values on the step's grid, and indexes out of range if and only if the step overflows |
| `YamlRules.EncryptDocumentByRule` | crypter/yaml/yaml.go:155-249 | the walk changes exactly the scalars that a rule on positions names (nearest enclosing mapping key, reached through sequences only, is secret; `!!str`; no YAML 1.1 boolean; no `{{`; not tagged), keys and structure stay, and `Stats` are the numbers of such positions |
| `YamlRules.RoleIsRule` | crypter/yaml/yaml.go:155-217 | the mutual recursion of `walk` and `encryptSecret` reaches a node as secret if and only if the rule on positions says so |
| `YamlRules.PickedIs` | crypter/yaml/yaml.go:200-217 | the set whose size `Stats` reports has exactly the positions reached as secret with a scalar of the kind counted |
| `YamlTree.CandidateIff` | crypter/yaml/yaml.go:222-231 | a scalar is looked at if and only if it is a string, none of the six boolean words in any case, and without "{{" anywhere |
| `YamlRules.WalkCounts` | crypter/yaml/yaml.go:232-247 | one call of `Encrypt` for each scalar encrypted, and the counters, for any subtree |
| `YamlRules.EncryptTwice` | crypter/yaml/yaml.go:219-249 | a second encrypt walk is the identity, encrypts nothing and skips what the first encrypted or skipped |
| `YamlRules.RoundTripIff` | crypter/yaml/yaml.go:155-361 | decrypting the encrypted document succeeds and restores it, up to the style of the scalars encrypted, if and only if no tagged string was in a value position |
| `YamlRules.DocumentRoundTripIff` | crypter/yaml/yaml.go:111-142 | the same with the crypter of crypter/crypter.go, for which encrypting never fails while random bytes can be read |
| `YamlRules.DecryptWalkIff` | crypter/yaml/yaml.go:303-361 | the decrypt walk succeeds if and only if every tagged string it visits decrypts to an untagged one, and then replaces those and nothing else |
| `YamlRules.DecryptDocumentByRule` | crypter/yaml/yaml.go:303-361 | by position: decrypting succeeds if and only if every tagged string that is reached without entering a mapping's key, a scalar or an alias decrypts to an untagged one, and then these are replaced and nothing else |
| `YamlRules.UntaggedIff` | crypter/yaml/yaml.go:303-340 | the condition of the round trip by position: no tagged string is reached so |
| `YamlRules.DecryptTwice` | crypter/yaml/yaml.go:303-361 | a successful decrypt walk leaves no tagged string in a value position and is idempotent |
| `YamlRules.WalkFailsWithEncrypt` | crypter/yaml/yaml.go:238-241 | the walk fails only with the last call it made of `Encrypt` |
| `YamlRules.AeadIsSound` | crypter/yaml/yaml.go:48-53 | the repository's crypter has what the walks need of one |
| `YamlWalk.EncryptWalk.Walk` | crypter/yaml/yaml.go:155-173 | the tree in place and the counters are those of the walk's function |
| `YamlWalk.EncryptWalk.MappingValues` | crypter/yaml/yaml.go:178-192 | the same for the pairs of a mapping |
| `YamlWalk.EncryptWalk.EncryptSecret` | crypter/yaml/yaml.go:200-217 | the same under a secret key |
| `YamlWalk.EncryptWalk.Scalar` | crypter/yaml/yaml.go:222-249 | one scalar and the counters, in place |
| `YamlWalk.EncryptDocument` | crypter/yaml/yaml.go:129-135 | the whole document, with fresh counters |
| `YamlWalk.DecryptWalk.Walk` | crypter/yaml/yaml.go:303-319 | the tree in place is that of the decrypt walk's function |
| `YamlWalk.DecryptWalk.MappingValues` | crypter/yaml/yaml.go:333-340 | the values of a mapping, never its keys |
| `YamlWalk.DecryptWalk.Scalar` | crypter/yaml/yaml.go:346-361 | one scalar, in place, with both ways to fail |
| `Crypter.RoundTripIff` | crypter/crypter.go:251-336 | `Decrypt` after `Encrypt` gives the string back if and only if it was not tagged to begin with |
| `Crypter.IsEncryptedIff` | crypter/crypter.go:210-221 | a string counts as encrypted if and only if it is the start tag and at least one more character |
| `Crypter.EncryptMeaning` | crypter/crypter.go:251-286 | without random bytes exactly the tagged strings get through; with them `Encrypt` does not fail, and frames base64 text of the nonce followed by the sealed string |
| `Crypter.UntaggedPasses` | crypter/crypter.go:288-306 | a string that does not begin with the start tag and more passes through `Decrypt` as it is |
| `Crypter.DecryptUndoesEncrypt` | crypter/crypter.go:251-336 | through nonce, seal, base64url, tags and back |
| `Crypter.EncryptOutput` | crypter/crypter.go:280-285 | the output is tagged, ends in the end tag, has no brace or line break, and encrypts to itself |
| `Crypter.DecryptsIff` | crypter/crypter.go:303-336 | a tagged string decrypts to a plaintext if and only if it frames base64 text of a nonce and a ciphertext that opens to it |
| `Crypter.DecryptErrors` | crypter/crypter.go:303-336 | which error a tagged string gives: all but the failed open are decided by its characters, by end tag, empty payload, alphabet and length |
| `Crypter.LawsCanBeMet` | crypter/crypter.go:195-207 | the laws assumed of the AEAD can be met |
| `Crypter.Encrypt` | crypter/crypter.go:251-286 | the buffers filled and appended to hold the framed string |
| `Base64.DecodeOfEncode` | crypter/crypter.go:280-283 | decoding undoes encoding for every tail length |
| `Base64.EncodeOfDecodeIff` | crypter/crypter.go:316-319 | a text that decodes is the encoding of what it decodes to if and only if it has no line break and its spare bits are zero |
| `Base64.DecodeFailsIff` | crypter/crypter.go:316-319 | a text does not decode if and only if it has a character outside the alphabet or one too many to end on a byte, and its length gives the number of bytes |
| `Base64.Letters` | crypter/crypter.go:280-283 | the letters are those of section 5 of RFC 4648, each for its place |
| `Base64.SameBits` | crypter/crypter.go:280-283 | four sextets and three bytes are one 24-bit number, most significant first |
| `Base64.LineBreaksSkipped` | crypter/crypter.go:316-319 | a text decodes like itself without line breaks |
| `Base64.SpareBitsIgnored` | crypter/crypter.go:316-319 | the spare bits of the last letter do not matter |
| `Migrater.RunsConverge` | migrater/migrater.go:194-214 | after any sequence of runs failing anywhere, the database is the initial one with a prefix of the files pending at first applied once each and in order |
| `Migrater.SuccessIsFinal` | migrater/migrater.go:194-214 | a successful run completes the prefix, with every script's effect, in order, and a row for every file of the directory whose name ends in ".sql" and begins with a digit; later runs change nothing |
| `Migrater.RunStepIsPrefix` | migrater/migrater.go:176-215 | one run applies a prefix of what it finds pending, and all of it if it succeeds |
| `Migrater.FilesStepIsPrefix` | migrater/migrater.go:208-214 | the same of the loop over the files, wherever a file fails, panics or loses the answer to its commit |
| `Migrater.CommitAllEffects` | migrater/migrater.go:424-446 | applied files leave exactly their scripts' effects, in order, and exactly their rows |
| `Migrater.DuplicatesBlockEveryRun` | migrater/migrater.go:203-206 | two files with one id stop every run before anything is applied |
| `Migrater.RunSucceedsIff` | migrater/migrater.go:176-215 | a run fails with the setup, with two files of one id, or at the first file that its fault meets, with that file's error, and otherwise succeeds; the database has what was pending before that file, and that file itself only when it failed after its commit |
| `Migrater.FilesEnd` | migrater/migrater.go:208-214 | the same of the loop over the files, from any file on |
| `Migrater.UndisturbedFilesSucceed` | migrater/migrater.go:208-214 | a run that nothing disturbs succeeds |
| `Migrater.DirectoryPending` | migrater/migrater.go:289-316 | what is pending is in order, and is exactly the directory's migration files with an id and without a row |
| `Migrater.AppliedRow` | migrater/migrater.go:424-446 | a file that some run has applied has the row with the hash of its content, after all later runs too |
| `Migrater.DriftsIffChanged` | migrater/migrater.go:305-316 | once runs have applied a file, a file with its id is drift if and only if its hash is another one, and then as the change from the one to the other |
| `Migrater.LineEndingsDoNotDriftIff` | migrater/migrater.go:300-303 | a file reads the same with LF and with CRLF line endings if and only if its LF form has no CRLF |
| `Migrater.Runner.Run` | migrater/migrater.go:176-215 | database and error after a run, for every plan of failures; the drift logged is only, and after a successful run exactly, that of the directory's migration files whose row has another hash |
| `Migrater.Runner.ApplyFile` | migrater/migrater.go:289-327 | one file: skipped, left alone, applied or failed, with what the database then holds and every event logged |
| `Migrater.Runner.Apply` | migrater/migrater.go:424-446 | script and row, both or neither, and neither for an id that has a row |
| `Migrater.SortedFilesAre` | migrater/migrater.go:225-264 | the files a run goes through are the one strictly ordered arrangement of the directory's migration files, and their non-empty ids are distinct |
| `MigrationFiles.CollectFiles` | migrater/migrater.go:225-264 | an error that names, in order, two migration files of the directory sharing an id if and only if there are such; else the directory's files whose names end in ".sql", each as often as it is there, in strict order |
| `MigrationFiles.CandidatesAre` | migrater/migrater.go:238-241 | the files collected are exactly the entries that are no directories and whose names are some stem and ".sql", each as often as it is there |
| `MigrationFiles.ClashIff` | migrater/migrater.go:243-248 | two of them share an id if and only if two such entries of the directory do |
| `MigrationFiles.NameLessIff` | migrater/migrater.go:256 | the tiebreaker is the order by the first byte that differs, a prefix before what it begins |
| `MigrationFiles.SortedUnique` | migrater/migrater.go:252-257 | there is one ordered arrangement of the same files, so the sorting algorithm does not matter |
| `MigrationFiles.NumericOrder` | migrater/migrater.go:252-257 | prefixes with different values that fit are processed in true numeric order, whatever their zero padding |
| `MigrationFiles.NumericKeySaturates` | migrater/migrater.go:275-284 | the key is the prefix's value, saturated at MaxInt |
| `MigrationFiles.MigrationID` | migrater/migrater.go:459-465 | the longest prefix of digits |
| `MigrationFiles.DistinctIdsOfSorted` | migrater/migrater.go:243-249 | the files handed on have pairwise distinct non-empty ids |

## Left out

- Keyed mutex, work pool and cron scheduler are step systems on values rather than objects with locks: Dafny's methods are sequential, and the interleaving of goroutines is what the statements are about. Go's memory model and fairness of locks are not modelled; progress is stated as enabled steps and a decreasing measure.
- A task or job that never returns, and a task that calls `Do` or `Run` of its own pool. A panicking task ends like any other, its recovery is part of the step that runs it.
- The 32-bit counter inside sync.WaitGroup.
- The cron scheduler's alignment to the next minute, its ticker and time zones: ticks are any non-decreasing sequence of minutes, and what a minute looks like on the wall clock is a parameter.
- Base returning both a response and an error, or panicking; a panicking retry predicate, budget or `GetBody`; responses whose drain blocks.
- A Retry-After in the form of an HTTP date: the time left until it is a parameter.
- The per-attempt deadline's arithmetic (httpclient/retry_transport.go:187-198): whether it has passed is a parameter.
- `onAttempt`, connection tracing, elapsed times and the texts of errors. An error from below is what `errors.Is` and `errors.As` can find in it.
- Nil receivers, contexts, functions and predicates (retry/retry.go:157-168, crypter/yaml/yaml.go:112-114).
- Construction of the HTTP client, options and the dial guard.
- YAML decoding and encoding, comments, and the short cuts on bytes (crypter/yaml/yaml.go:115-128, 265-280); nil nodes; the target of an alias; a nil `Stats`, which changes nothing but the counters.
- Trees in which a node occurs twice, which the decoder does not build.
- AES-GCM: a lawful AEAD is assumed to undo its seal and to add 16 bytes; key lengths and the nonce pool.
- Strings are sequences of bytes; `strings.ToLower` is modelled for ASCII, which is enough because no other letter lowers into a YAML 1.1 boolean.
- SQL, drivers and the state table's creation and columns: the database is a map of recorded ids and a sequence of effects, a transaction is committed whole or not at all, and the answer to a commit may be lost. Failures before the files are looked at are one case. A read error of the directory and the checks of the table name are left out.
- sort.Slice itself: insertion sort stands in for it, and `SortedUnique` shows that the choice does not matter.
- Elapsed-time logging of the migrater; the messages on drift are in the log as events.
- `slices.go`, `maps.go`, `list.go`, `strings.go` and the other small helpers, `template/` and `format/`: they would add only easy members or wrap libraries that cannot be seen.
