# Lottery server draw logic, in Dafny

The lottery server loads a roster of participants and a list of prize tiers. Operators
send it `start`, `stop`, `get_prizes` and `get_winners` commands.

- `start` on a prize index launches a draw session. The session first returns the
  prize's old winners to the pool of available participants. It then redraws the
  prize's winners on every tick.
- `stop` cancels the session. The session then commits its last tick's winners to the
  winner ledger and removes them from the pool.
- Blacklist rules keep listed participants from winning prizes above a given index.

This project models that draw logic, from `lottery.go`, in five modules:

- `Model` (model.dfy): participants, prizes, blacklist rules, the draw errors, and
  ID-distinctness of a list and of a bag.
- `Selection` (selection.dfy): `removeWinners`, `getAvailParticipantsForPrize` and
  `verifyWinners`. Each is a loop method proved against a specification: `Without`
  and `Eligibles` are recursive filters, `ForPrize` adds the two early returns to
  `Eligibles`, and `IdsDistinct` says that no two entries share an ID. Lemmas state
  what these specifications mean.
- `Sampler` (sampler.dfy): `_getWinners` and `round`. Their sampling loop is proved
  against `Draw`, and the outcome of `_getWinners` is the function `DrawForPrize`.
- `Ledger` (ledger.dfy): the pool and the winner ledger as values. It defines the
  partition of the roster they are meant to keep, and what one draw session does to
  them (`RunTicks`). It proves that a session keeps the partition.
- `Session` (session.dfy): the global state as a class `Lottery`. Its methods are the
  dispatcher rules of `processAction`, the ledger read of `getWinners`, and the session
  of `start`, which updates the pool and the ledger in place.

The `Aliasing` module (aliasing.dfy) models one behaviour of the Go code that the rest
of the model deliberately corrects; see "## Findings".

Randomness is a parameter. The k-th `rand.Intn(len)` of a draw, counting from 0, is
`rng(k) % len`. Each tick of a session has its own `rng`, so a session takes a sequence
of them. A goroutine that runs until it is cancelled is modelled by the ticks it ran
before it saw the cancellation, followed by its commit.

Three facts about the code shape the model:

- A restart returns all of the prize's old winners to the pool. There is no redo of a
  single winner by position.
- Running draws are tracked per prize index in `cancelMap`, not as one global session.
- `stop` does not wait for the session to commit. It waits only on the context it just
  cancelled.

## Model

| member | source | states |
|---|---|---|
| Selection.RemoveWinners | lottery.go:273-291 | the result is `Without(origin, winners)`: an entry is kept iff it is in `origin` and no winner has its ID |
| Selection.FindId | lottery.go:276-283 | the inner scan finds a winner iff some winner carries the ID |
| Selection.WithoutMembers | lottery.go:273-291 | an entry is in the result of removal iff it is in `origin` and no winner carries its ID |
| Selection.WithoutConcat | lottery.go:275-288 | removal works entry by entry in `origin`'s order: it distributes over concatenation |
| Selection.WithoutCount | lottery.go:275-288 | every copy of an entry is kept if no winner carries its ID, and none is kept otherwise |
| Selection.ExactlyWinnersRemoved | lottery.go:243 | on a pool with unique IDs that the winners were taken from, what is left plus the winners is exactly the pool |
| Selection.AvailParticipantsForPrize | lottery.go:293-325 | the result is `ForPrize`: `origin` itself when it or the rule list is empty, otherwise the eligible entries in order |
| Selection.BarredByRules | lottery.go:304-319 | the scan over the rules finds the ID iff some rule with `MaxPrizeIndex < prizeIndex` lists it |
| Selection.ListsId | lottery.go:310-315 | the scan of one rule's IDs finds the ID iff the rule lists it |
| Selection.ForPrizeMembers | lottery.go:302-324 | a participant is kept iff it is in `origin` and no rule with `MaxPrizeIndex < prizeIndex` lists its ID |
| Selection.EligiblesMembers | lottery.go:302-324 | the filter keeps an entry iff it is in `origin` and not barred |
| Selection.EligiblesNoRules | lottery.go:298-300 | with no rule, the filter keeps all of `origin`, which is what the early return gives |
| Selection.ForPrizeIsFilter | lottery.go:294-300 | the two early returns agree with the filter |
| Selection.EligiblesConcat | lottery.go:303-323 | the filter keeps order: it distributes over concatenation |
| Selection.EligiblesSameBars | lottery.go:305-319 | the filter depends only on which entries are barred |
| Selection.RuleAtOrAboveIgnored | lottery.go:307-309 | adding a rule whose `MaxPrizeIndex` is at or above the prize index does not change the result |
| Selection.VerifyWinners | lottery.go:383-393 | true iff no two winners share an ID |
| Model.DistinctIffUnique | lottery.go:383-393 | a list's IDs are pairwise distinct iff its bag of entries has each entry once and no shared ID |
| Sampler.Sample | lottery.go:366-373 | the winners are `Draw(pool, n, rng, 0)`'s: `n` of them, a sub-multiset of the pool, so each comes from its own position |
| Sampler.DrawSplitsPool | lottery.go:366-373 | every pick moves one entry: the winners and what is left of the working list together are the list drawn from |
| Sampler.DrawTakesFromPool | lottery.go:366-373 | a draw of `n` yields `n` winners, a sub-multiset of the list drawn from |
| Sampler.RemoveAtBag | lottery.go:372 | the removal takes out exactly the picked entry |
| Sampler.DrawFromUniqueIsDistinct | lottery.go:366-379 | drawing from a pool with unique IDs yields ID-distinct winners, so the duplicate check does not fire |
| Sampler.GetWinnersForPrize | lottery.go:327-381 | each of the five guard errors and when it is returned; on success, `min(Num, eligible)` ID-distinct winners taken from the filtered pool |
| Sampler.DrawForPrizeWinners | lottery.go:354-381 | a successful draw had a drawable prize, and its winners are `min(Num, eligible)` ID-distinct entries of the filtered pool, each available and not barred |
| Sampler.DrawForPrizeSucceeds | lottery.go:327-381 | on a pool with unique IDs, a drawable prize with an eligible participant is always drawn successfully |
| Sampler.Round | lottery.go:395-422 | an error for a non-positive count or an empty list; otherwise `min(prizeNum, len)` entries drawn without replacement |
| Ledger.RunTicksStopsAtError | lottery.go:251-260 | once a tick fails, the session's outcome is that failure |
| Ledger.FullPoolPartition | main.go:114 | with distinct roster IDs, the whole roster as the pool and an empty ledger partition the roster |
| Ledger.RunTicksSucceeds | lottery.go:232-270 | no tick fails when every single draw is bound to succeed |
| Ledger.ReturnedPoolIsUnique | lottery.go:223-226 | after the old winners return, the pool and the rest of the ledger make up the roster, and the pool's IDs are unique |
| Ledger.SessionWinners | lottery.go:232-260 | a successful session's winners come from the candidates and are eligible; there are winners only for a drawable prize |
| Ledger.CommitKeepsPartition | lottery.go:239-243 | committing winners taken from the returned pool keeps the pool and the ledger a partition of the roster |
| Ledger.CommitKeepsDrawable | lottery.go:239-240 | after the commit, every non-empty ledger entry still belongs to a drawable prize and holds only eligible participants |
| Ledger.FailureOnlyWithoutPrior | lottery.go:251-259 | from a consistent state, a session on a prize with old winners never fails |
| Ledger.FailureWithPriorDoubleCounts | lottery.go:223-226 | if the failure path were taken on a prize with old winners, they would be in both the pool and the ledger |
| Ledger.SessionKeepsPartition | lottery.go:221-260 | one session keeps the partition of the roster and the eligibility of the ledger; a failing session commits nothing and only happens without old winners |
| Session.Lottery.constructor | main.go:114 | everyone is available, the ledger and both maps are empty; with distinct roster IDs the state is consistent |
| Session.Lottery.GetWinners | lottery.go:184-187 | the ledger entry of the prize index, or no winners when there is none |
| Session.Lottery.StartAction | lottery.go:142-149 | ignored when the prize index is registered; otherwise registers it with a fresh uncancelled context |
| Session.Lottery.StopAction | lottery.go:151-162 | ignored when the prize index is not registered; otherwise cancels its context and unregisters it, with `ctxMap`'s keys kept |
| Session.Lottery.ReturnOldWinners | lottery.go:223-230 | the prize's ledger entry, if any, is appended to the pool; the ledger and both maps are unchanged |
| Session.Lottery.Commit | lottery.go:239-243 | the prize's ledger entry becomes the winners and the pool becomes `Without(pool, winners)`; nothing else changes |
| Session.Lottery.ProcessAction | lottery.go:120-164 | the dispatch by name: queries answer without changing state. `start` on an unregistered prize index registers it, adds an uncancelled context and answers that a draw was spawned; on a registered one it changes nothing and does not answer so. `stop` on a registered prize index cancels its context and unregisters it; on an unregistered one it changes nothing; it never answers. Other names change nothing |
| Session.Lottery.Start | lottery.go:199-271 | the outcome is `RunTicks` on the pool plus the old winners. On success the prize's entry becomes the winners, other entries are unchanged, and the pool loses exactly them. On failure only the pool changes. A consistent state stays consistent |
| Session.RunTickLoop | lottery.go:232-270 | the tick loop's outcome is `RunTicks` of its ticks |
| Aliasing.ShiftOut | lottery.go:372 | one in-place removal on the shared backing array: the array keeps its length |
| Aliasing.ShiftOutSlices | lottery.go:372 | after the removal, the working slice is the list a private copy would have after the pick, and the cells past it, the old last cell among them, keep their values |
| Aliasing.AliasedDraw | lottery.go:366-373 | the picks made on the shared array: the winners, and a backing array of the same length |
| Aliasing.AliasedDrawWinners | lottery.go:366-373 | drawing on the shared array yields the same winners as drawing from a private copy |
| Aliasing.CommitKeepsDuplicates | lottery.go:243 | removing winner A from the pool [B, B] keeps both copies of B |
| Aliasing.DuplicateBreaksPartition | lottery.go:239-243 | a pool holding a participant twice is never part of a partition of the roster |
| Aliasing.AliasedTickDuplicates | lottery.go:298-299 | with no blacklist, one pick on the roster [A, B] leaves the global pool as [B, B] |
| Aliasing.PairPartition | main.go:114 | before any session, the roster [A, B] all available and an empty ledger partition the roster |
| Aliasing.CommitAfterTickBreaks | lottery.go:239-243 | committing winner A after a tick that left the pool [B, B] counts B twice: the partition is lost |
| Aliasing.AliasedCommitBreaksPartition | lottery.go:239-243 | committing after that tick leaves B counted twice: the partition is lost |

## Left out

- Loading the roster CSV and the JSON configuration, parsing commands and sending
  responses are I/O and library calls. This covers `loadParticipants`, `loadConfig`,
  `parseAction`, `sendResponse`, the marshalling in `getPrizes` and `getWinners`, and
  the per-tick and final responses of `start`. main.go and log.go are not part of this
  model, except that main.go:114 makes the whole roster available.
- Concurrency is not modelled: goroutines, contexts, the 100 ms sleep between ticks,
  and the mutex. The mutex is created afresh for every message, so it orders nothing.
  A session is a finite sequence of ticks followed by its commit, run atomically. A
  `stop` that returns before the session has committed, and two sessions interleaving,
  are not modelled.
- `math/rand` and its reseeding before every pick are replaced by the `rng` parameter.
- The error branch after the filter (lottery.go:350-352) cannot be taken, because the
  filter's error is always nil. It is not modelled.
- The error message texts are replaced by the `DrawError` constructors. The empty list
  returned with every error is implicit in `Err`.
- Sampler.GetWinnersForPrize: the sampler draws from a private copy of the filtered
  pool. It does not model the in-place shifting of the global pool's backing array
  when there is no blacklist; `Aliasing` models that behaviour.
- Sampler.Round: it draws from a private copy and does not model the shifting of the
  caller's slice (lottery.go:418). No code in the server calls `round`.
- Session.Lottery.Start: the partition is claimed only from a consistent state. The
  failure path at lottery.go:256-259 keeps the returned old winners in the pool and
  leaves the ledger unchanged. `Ledger.FailureWithPriorDoubleCounts` shows this would
  count them twice, and `Ledger.FailureOnlyWithoutPrior` shows a consistent state
  never takes it.

## Findings

| source | as written | input that shows it | evidently intended | confidence | as-written member | corrected member |
|---|---|---|---|---|---|---|
| lottery.go:298-299, 372 | with no blacklist, `getAvailParticipantsForPrize` returns the global `availParticipants` slice itself. The removal `append(s[0:idx], s[idx+1:]...)` then shifts entries inside the global pool's array, while the pool keeps its length | roster A, B (IDs "1", "2"), no blacklist, one prize with Num 1; `start`, one tick picking index 0, `stop`. The tick leaves the pool as [B, B]; the commit records A and keeps [B, B], so B is counted twice | the draw works on a copy and leaves the global pool untouched until the commit | high (not executed) | Aliasing.AliasedTickDuplicates, Aliasing.AliasedCommitBreaksPartition | Ledger.SessionKeepsPartition |
