# threads-postpone: retry, publish sequence and batch scheduler

This project models the control logic of `index.js` of threads-postpone, a
script that publishes posts (a primary text, a second thread text and an
optional image) to Threads on behalf of several accounts, each identified by a
cookie set. The browser work is abstracted; what remains is three sequential
rules, written as imperative Dafny and proved against reference definitions:

- `retry.dfy` — `retryOperation`: a counted loop that invokes a fallible
  operation up to `retries` times (default 5), waits `delayMs` (default 1000)
  after every failed attempt except the last, and re-throws the last error.
  The operation is an oracle `op: nat -> Outcome` saying how attempt k ends.
  `RetryOperation` returns the number of invocations, the number of delays,
  the completion and the event trace; it is proved equal to the reference run
  `Run`, and the lemmas state what that run does.
- `publish.dfy` — `postponePost`: launch a browser, open a page, then in a
  try block call `setCookies` once and `createPost`, `addSecondThread`,
  `addImageToPost` (only when `imagePath` is truthy) and `submitPost`, each in
  its own `retryOperation`; the catch block logs the escaping error, the
  finally block closes the browser. Each step is an opaque oracle
  `env(step)(k)`. `PostponePost` produces the event trace (ending in `Close`)
  and is proved equal to `Publish`, which runs the steps through the reference
  definition `RunSteps`.
- `scheduler.dfy` — `scheduleMultiplePostsInBatchesForMultipleCookies` and
  the same loop in `main`: for each cookie set, slice the posts into batches
  of `batchSize`, schedule every post of a batch at once (`schedulePost` is the
  `Schedule` action, with delay 0 and the account's cookies), and cool down
  for `interval` only when another batch of the same account follows.
  `Batches` is the pure partition; the loops are proved equal to
  `AccountActions`, `AccountsFrom` and `MainFrom`.
- `outcomes.dfy` — shared values: errors, step outcomes, how a call settles.

Where the code departs from what its comments and names suggest (the comment at
index.js:107 says the main operations are wrapped in `retryOperation`), the model
follows the code:

- `setCookies` (index.js:113) is awaited once and is not wrapped in
  `retryOperation`; a failure aborts the try block at once.
- `addSecondThread` is called whether or not second-thread text exists
  (index.js:115); there is no skip.
- `browser.newPage()` (index.js:110) runs before the try block: if it rejects,
  `postponePost` rejects and the launched browser is never closed
  (`CloseExactlyOnce` states this case).
- Scheduled posts are fire-and-forget (`setTimeout`, index.js:128-132): a batch
  is not awaited before its cooldown; the trace records the scheduling only, and
  a rejection of a scheduled run is unhandled (see "Left out").
- `main` reads `postsForCookies[i]` per account (index.js:301); when there are
  fewer post lists than cookie sets, reading `.length` of `undefined` throws a
  TypeError after the earlier accounts were scheduled (`MainFrom`).
- `batchSize > 0` is required. With 0 and a non-empty list the `j += batchSize`
  loop never ends: it schedules nothing (`posts.slice(0, 0)` is empty) and cools
  down forever; a negative size schedules one slice and then loops the same way.
  The requirement also excludes the harmless case of an empty list, where the
  loop never starts.

## Model

| member | source | states |
|---|---|---|
| `Retry.RetryOperation` | index.js:91-105 | The loop's invocations, delays, completion and event trace are exactly those of the reference run, and the two counts are the numbers of invocations and delays in the trace. |
| `Retry.SucceedsOnAttempt` | index.js:92-96 | If attempt k (k ≤ retries) is the first that resolves, the operation is invoked exactly k times, there are k − 1 delays, and the call returns normally. |
| `Retry.Exhausted` | index.js:96-102 | If every attempt throws, the operation is invoked exactly `retries` times, there are `retries` − 1 delays, the last event is the final invocation (no delay after it), and the final attempt's error is re-thrown. |
| `Retry.ThrowsIff` | index.js:92-104 | The call throws if and only if there is at least one attempt and every attempt throws; with `retries` ≤ 0 it returns normally. |
| `Retry.Bounds` | index.js:92-99 | Never more than max(0, `retries`) invocations, nothing at all when `retries` ≤ 0, and one delay fewer than invocations. |
| `Retry.RunFromShape` | index.js:92-99 | The trace alternates invocations of consecutive attempt numbers with delays of `delayMs`, starts and ends with an invocation, and is empty exactly when no attempt is left. |
| `Publish.PerformStep` | index.js:113-119 | A step's events and completion: `setCookies` is invoked once, every other step runs through `retryOperation` with 5 attempts and 1000 ms delays. |
| `Publish.TryBlock` | index.js:112-119 | The try block's events and escaping error equal the reference `RunSteps` over the planned steps: in order, stopping at the first step that throws. |
| `Publish.PostponePost` | index.js:108-125 | The whole trace and settlement equal `Publish`: launch, page, try block, logged error if any, then close; rejection only when launching or opening the page fails. |
| `Publish.RunStepsStarted` | index.js:112-119 | The steps started in the try block are the planned steps up to and including the first that throws, in order, each started once. |
| `Publish.RunStepsThrown` | index.js:112-119 | Exactly the error of the first step that throws escapes the try block; nothing escapes when every step returns. |
| `Publish.RunStepsTouches` | index.js:112-119 | Every event of the try block is a step event of a started step: no step after the first that throws runs at all. |
| `Publish.StepsFollowPlan` | index.js:112-119 | Within `postponePost`, steps start in the order setCookies, createPost, addSecondThread, addImageToPost (if `imagePath` is truthy), submitPost, up to the first step that throws, and every step event belongs to a started step. |
| `Publish.ErrorIsCaught` | index.js:112-124 | When a step throws (setCookies on its only call, any other step after its 5 attempts), its error does not escape: the last two events are logging that error and closing the browser, and the call resolves. |
| `Publish.NothingLoggedOnSuccess` | index.js:112-124 | When no step throws, nothing is logged and the call resolves. |
| `Publish.AllStepsRun` | index.js:113-119 | When no step throws, every planned step runs: the first three are setCookies, createPost, addSecondThread, addImageToPost runs iff `imagePath` is truthy, and submitPost is last. |
| `Publish.CloseExactlyOnce` | index.js:109-124 | Once browser and page are open, `Close` occurs exactly once, as the last event, and the call resolves; a failed launch does nothing; a failed `newPage` rejects with no `Close`. |
| `Scheduler.FlattenBatches` | index.js:140-141 | Concatenating the batches, in order, gives back the post list. |
| `Scheduler.BatchSizes` | index.js:140-141 | No batch is empty, none holds more than `batchSize` posts, and every batch but the last holds exactly `batchSize`. |
| `Scheduler.BatchBounds` | index.js:140-141 | The number b of batches is zero exactly for an empty list, and otherwise (b − 1)·batchSize < n ≤ b·batchSize. |
| `Scheduler.BatchesPartition` | index.js:140-141 | The three facts above together: the batches partition the post list. |
| `Scheduler.BatchCount` | index.js:140 | There are ⌈n / batchSize⌉ batches. |
| `Scheduler.BatchIsSlice` | index.js:140-141 | Batch k is `posts.slice(k·batchSize, k·batchSize + batchSize)`, and its offset is inside the list. |
| `Scheduler.ScheduleBatch` | index.js:144-146 | The inner loop schedules every post of the batch, in order, with delay 0 and the account's cookies. |
| `Scheduler.ScheduleAccount` | index.js:140-153 | One account's batch loop equals `AccountActions` of the batches: the `j + batchSize < posts.length` test adds a cooldown exactly when another batch follows. |
| `Scheduler.ScheduleMultiplePostsInBatches` | index.js:135-155 | The loop over cookie sets equals the concatenation of every account's actions, in account order, with nothing between accounts. |
| `Scheduler.MainLoop` | index.js:298-319 | `main`'s loop equals `MainFrom`: each account with its own post list, and a TypeError rejection at the first account without one. |
| `Scheduler.AccountSchedule` | index.js:140-152 | Per account, every post is scheduled exactly once in list order, with ⌈n / batchSize⌉ − 1 cooldowns (none for an empty list). |
| `Scheduler.AccountScheduledFor` | index.js:140-146 | One account's batch loop schedules its whole post list, in order, under that account and nothing under any other. |
| `Scheduler.AllAccountsScheduled` | index.js:136-154 | Over all cookie sets, each account is scheduled the full post list exactly once, in order, and an index outside the cookie-set list gets nothing. |
| `Scheduler.AllAccountsCooldowns` | index.js:136-154 | The total number of cooldowns is the number of cookie sets times ⌈n / batchSize⌉ − 1 (zero for an empty post list). |
| `Scheduler.NoCooldownBetweenAccounts` | index.js:136-154 | Every cooldown sits between two schedules of the same account (never first, last, or between accounts), and every schedule uses its account's cookies and delay 0. |
| `Scheduler.MainScheduled` | index.js:298-316 | In `main`, each account reached gets exactly its own list `postsForCookies[a]`, once and in order; accounts from the first missing list on get nothing, so on the TypeError rejection every earlier account was fully scheduled. |
| `Scheduler.MainCooldowns` | index.js:304-316 | In `main`, the number of cooldowns is the sum over the accounts reached of ⌈n_a / batchSize⌉ − 1 for each account's own list (zero for an empty list). |
| `Scheduler.MainShape` | index.js:298-316 | In `main`, every cooldown sits between two schedules of the same account (never first, last, or between accounts), and every schedule belongs to a reached account and uses its cookies and delay 0. |
| `Scheduler.MainAgreesWithScheduler` | index.js:298-319 | `main` resolves iff there is a post list for every cookie set (else the `.length` TypeError); with the same list for every account it produces exactly the scheduler function's actions. |
| `Scheduler.OneAccountFourPosts` | index.js:140-152 | One account, four posts, batches of three: three schedules, one cooldown, one schedule. |
| `Scheduler.TwoAccountsSingleBatches` | index.js:136-154 | Two accounts with three posts each and batches of three: each account's posts scheduled once and no cooldown. |

## Left out

- The Puppeteer and DOM work inside `setCookies`, `createPost`, `addSecondThread`, `addImageToPost` and `submitPost` (index.js:8-89): foreign browser calls, modelled only as the outcome of each attempt. That `submitPost` clicks every element whose text is `'Post'` is therefore not represented.
- Wall-clock timing of `delay` and `setTimeout` (index.js:4-6, 128-132): delays and cooldowns are trace events carrying their duration.
- The concurrency of the fire-and-forget `postponePost` runs started by `schedulePost`: their completion order and overlap with a cooldown are scheduling concerns, not sequential logic; the scheduler's trace stops at the scheduling.
- An unhandled rejection of a scheduled `postponePost`: `schedulePost` (index.js:129-131) drops the promise, so when `puppeteer.launch`, `browser.newPage` or `browser.close` rejects (index.js:109-110, 123), Node ends the whole process (version 15 and later). A scheduler still waiting in `await delay(interval)` (index.js:151, 315) is then cut off, so later batches and accounts are never scheduled. The scheduler lemmas (`AllAccountsScheduled`, `MainScheduled`, `MainCooldowns` and the others) describe the run to its end; in such a program run only a prefix of that trace happens.
- A rejection of `browser.close()` in the finally block: the model assumes closing completes.
- Console logging, except the catch block's `console.error`, which is the `LogError` event; the per-attempt message of `retryOperation` (index.js:97) is not an event.
- The hard-coded `postsForCookies`, `allCookies`, `batchSize` and `interval` tables (index.js:157-296), which are parameters here, and the top-level `main()` call (index.js:321).
- JavaScript values that are not integers for `retries`, `batchSize` or `interval` (fractions, `NaN`): the model takes integers, and a natural `batchSize` above zero.
- A thrown JavaScript value is modelled by its message only.
