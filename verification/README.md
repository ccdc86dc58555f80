# Likes, cached posts, ids and breakers: a verified model

A Dafny 4.11 model of four parts of the repository, each followed over whole runs.
`dafny verify dfyconfig.toml` checks everything.

**The like pipeline** (interaction service). A Like or Unlike commits a transaction on `likes`,
then moves a counter, then a relation set and a per-user set, then sends a message; a consumer
collects messages into batches, removes duplicate targets and copies each relation set's size into
`like_count`; a consistency checker repairs drift. Four stores are supposed to agree and nothing but
the order of these steps and a clamp at zero keeps them together. `LikeStore` holds the stores and
their operations, `LikePipeline` interleaves any number of requests with the consumer,
`LikeConservation` and `LikeAgreement` say what every interleaving keeps. `LikeCache`, `LikeLogic`,
`TargetKey`, `KafkaSyncer`, `KafkaConsumer` and `ConsistencyChecker` are the program's own classes and
loops, proved against the same functions; `BatchRefinement` shows that the batch handler is the
pipeline's consumer. Three modules look under the pipeline's assumptions, each stating exactly what
then still holds: `RepairRaces` lets the checker's own steps interleave with all of this,
`CounterRaces` takes the counter commands apart (`CounterSurplus` is what the two share), and
`ConsumerFleet` has any number of consumers.

**The read-through cache** (post service). `CacheLoader` interleaves any number of `GetOrLoad` calls
on one post id, in any number of processes, over an explicit clock; `LoaderSingleFlight` and `LoaderStaleness` are its two
guarantees, and `LoaderService` is `GetOrLoad` statement by statement under arbitrary interference,
each statement being the machine's next move. `LoaderReads` is a lone read and what it leaves,
`LoaderPaths` what a call comes to on each of its paths whatever fails on it, and
`LoaderAsWritten` the loader with the lock's answer compared as the code compares it. `EmptyValueCache`, `LocalCache`, `HotService` and
`PostRepository` are the parts of the post detail service as classes, `ServiceHistory` their serial
histories over a changing database.

**The circuit breaker**: `CircuitBreaker` is the class and its state as a value, `BreakerRuns` what
it does over runs.

**The snowflake generator**: `Bits` is 64-bit shifts and masks, `Snowflake` the layout, the generator
with its spin, and runs over arbitrary clocks.

## How to read the model

- A machine has a total function `Next(state, event)`; an event that cannot happen leaves the state
  alone. `Run` folds it over a sequence, so a lemma about every sequence of events is a lemma about
  every interleaving and every pattern of failures the events can express.
- A call to Redis, MySQL or Kafka takes a flag saying whether it succeeds; clocks are parameters.
  The failure rate of the breaker is a real number, times are integers.
- Main results: `NoLostSync`, `EventuallySynced`, `Conservation`, `NeverNegativeIff`,
  `AgreementWhenQuiet`, `FourStoresAgree`, `EvenIffInStep`, `NoLostSyncIff`, `ChecksHealIff`,
  `SplitConservation`, `EvenIff`, `FleetLosesNothing`, `ServedTakesEffect`, `SingleFlight`, `OwnWriteIsReadIff`,
  `HotReadIsKept`, `OnlyTheOwnerReleases`, `BoundedStaleness`, `CacheTransparency`, `FailedReadsOpen`,
  `MarkersDieIff`, `RemovalHoldsIff`, `RefinesSimpleBreaker`, `ReclosesIff`, `LockOutReachableIff`, `StrictlyIncreasing`,
  `OrderedIffWithin41Bits`, `ParseCompose`/`ComposeParse`, `BatchInsensitivity`, `ConsumerConservation`,
  `TablesAfterShutdownIff`, `LostInACrashIff`, `KeyRoundTrip`, `RepairConverges`, `SweepRepairs`.

Choices:

- Transactions are serialisable and, except in `CounterRaces`, each `LikeCache` call is one step, the
  INCR with its SETEX
  (interaction/internal/cache/like_cache.go:58-68) and the DECR with its clamp included; the clamp's
  write has a failure of its own, as its error is dropped
  (interaction/internal/cache/like_cache.go:77-80). A missing counter reads as 0. Like keys do not expire.
- interaction/internal/cache/like_cache.go:108-109 uses a name that is not defined; its intent, a
  refresh of the two sets' time to live that leaves their members alone, is not a step of its own.
- Rows are found by (target, user) without the kind (interaction/internal/repository/like_repository_impl.go:160-161),
  so results about counts take the kind to be a function of the target id (`Typed`).
- Except in `ConsumerFleet`, messages go to one consumer, whose handler finishes before the next
  batch. A message counts as sent when it reaches the topic; the writer is asynchronous
  (interaction/internal/kafka/producer.go:30) and would not report its loss.
- post/internal/repository/cache_loader.go:120 compares the script's result, an integer, with the
  string "1". As written the comparison never holds: no call acquires the lock, every miss waits out
  the timeout, and nothing is ever cached, which `LoaderAsWritten` proves. Everywhere else the intent is
  modelled: the lock is acquired exactly when the script returned 1. Lock tokens are distinct: they
  are the calls' numbers.
- A post's JSON form is the post. `Post` keeps the id, the view count the thresholds look at and one
  `content` for all other columns.
- Bits are 64-bit two's complement with shifted-out bits lost; counters elsewhere do not reach 64 bits.

Where the code and its documents disagree the code is followed:

- interaction/KAFKA_README.md:127-128 writes the counter into `like_count`; the code writes the relation
  set's size (interaction/internal/sync/kafka_syncer.go:93-97), which `WrittenOncePerBatch` states.
- interaction/CONSISTENCY_SOLUTION.md:90 counts rows without a type filter; the code filters by type
  (interaction/internal/sync/consistency_checker.go:230).

What the code does not do, with a concrete witness or the exact condition:

- overlapping requests of one user on one target make the counter drift upward, and no later run
  without a refused counter command brings it back (`OverlapDrifts`, `OverlapDriftsForEver`);
- a counter can be negative, exactly when Redis refuses a clamp's write (`NeverNegativeIff`);
- a repair by the checker in the middle of a Like leaves counter and `like_count` wrong with nothing
  pending (`RepairRacesALike`), or `like_count` alone and beyond the reach of every later check
  (`SilentRepairIsForEver`, `ChecksHealIff`); `EvenIffInStep` and `NoLostSyncIff` say which repairs are safe;
- two Likes whose INCR and SETEX cross leave the counter too low (`TwoLikesCollide`), and `LevelIff` and
  `EvenIff` say when the commands may be taken for one step;
- messages carry their target as a key, but the writer has no balancer that uses it; two consumers with
  messages about one target can lose a sync (`TwoConsumersLoseASync`), routing by target cannot
  (`FleetLosesNothing`);
- what a consumer hands over with a done context, the shutdown's batch included, is never written
  (`TablesAfterShutdownIff`), and since successful messages are never committed, a commit for a
  malformed one can lose collected ones in a crash (`LostInACrashIff`);
- a post read, updated and read again through `GetOrLoad` is stale until the loader's Redis lifetime
  has passed (`OwnWriteIsReadIff`), as an update leaves `post:cache` alone
  (post/internal/repository/hot_service.go:274-285, post/internal/repository/cache_loader.go:26);
- a process whose local cache holds a post does not see an update made in another (`HonestElsewhereIff`);
- the checker never reads `like_count` and repairs it only if another count is wrong (`LikeCountIsRightIff`);
- a new breaker can come to refuse every request until a reset exactly if its settings ask for more
  successes than an episode has probes (`LockOutReachableIff`), as the defaults do (`DefaultsLockOut`);
- a missing post's marker outlives its bound only if Redis refused the last marking (`MarkersDieIff`);
- a read after an update is honest exactly when the detail key is gone (`HonestAfterUpdateIff`);
- the ids of a run are in order exactly while the elapsed time stays within 41 bits (`OrderedIffWithin41Bits`).

## Model

| member | source | states |
|---|---|---|
| LikeStore.TransactMovesOneUser | interaction/internal/logic/likelogic.go:35-75 | a transaction reports a change exactly when the user was not yet where the request wanted; then it moves that one user in or out of the target's active users, otherwise the table is untouched |
| LikeStore.Int8Wraps | interaction/internal/logic/likelogic.go:62 | a stored kind is the given one modulo 256, and the given one itself exactly within 8 signed bits |
| LikeStore.RelateMembership | interaction/internal/cache/like_cache.go:95-128 | one user moves in one relation set if the first command succeeds and one target in one user set if both do; no other membership and no counter changes |
| LikeStore.RelateMovesOneUser | interaction/internal/cache/like_cache.go:102-106 | with no failure the per-user sets stay the inverse of the relation sets |
| LikePipeline.RowsAreForever | interaction/internal/repository/like_repository_impl.go:118-158 | over every run no row disappears or changes id or kind, and a row has an unlike time exactly while it is inactive |
| LikePipeline.TransactWrites | interaction/internal/logic/unlikelogic.go:40-61 | a changing transaction writes one row only: a like activates it, stamps it and clears the unlike time, an unlike changes status and unlike time alone |
| LikePipeline.Distinct | interaction/internal/sync/kafka_syncer.go:40-49 | the worklist has every target of the batch, each once |
| LikePipeline.NoLostSync | interaction/internal/sync/kafka_syncer.go:82-116 | in every state of every interleaving of requests and consumer, failures included, a target whose like_count differs from its set's size has an unsent request, a message, an unfinished sync, or a recorded failure; a stale reading always has a newer message behind it |
| LikePipeline.EventuallySynced | interaction/internal/logic/likelogic.go:86-107 | as long as messages and the consumer's calls succeed, whatever fails elsewhere, the difference is always still on its way, and once everything has drained every like_count is its set's size |
| LikeConservation.Conservation | interaction/internal/cache/like_cache.go:58-83 | whatever overlaps and fails, the clamp's write included: counter + likes owed - unlikes owed = active rows + what the clamp added - refused increments + refused decrements |
| LikeConservation.NeverNegativeIff | interaction/internal/cache/like_cache.go:77-80 | a counter is not negative in any state of a run if and only if Redis took every clamp write that was due |
| LikeConservation.RaisedOnlyGrows | interaction/internal/cache/like_cache.go:70-83 | what the clamp has added to a counter is never taken back |
| LikeConservation.DriftsOnlyUpward | interaction/internal/logic/unlikelogic.go:34-76 | while no counter command is refused a quiet counter exceeds the active rows by exactly what the clamp added, and by no less whenever the requests come to rest later |
| LikeAgreement.ClampNeverFires | interaction/internal/cache/like_cache.go:77-80 | while one user's requests on one target do not overlap and no increment was refused, no decrement meets the clamp |
| LikeAgreement.SetsAgreeWhenQuiet | interaction/internal/cache/like_cache.go:95-128 | quiet relation sets are the active users if no relation set command was refused, whatever fails elsewhere |
| LikeAgreement.CountersAgreeWhenQuiet | interaction/internal/cache/like_cache.go:58-83 | no clamp fires and quiet counters are the active rows if no counter command was refused, whatever fails elsewhere |
| LikeAgreement.MirrorStays | interaction/internal/cache/like_cache.go:102-126 | the user sets stay the inverse of the relation sets under any overlap, if no user set command that is reached is refused |
| LikeAgreement.AgreementWhenQuiet | interaction/internal/logic/unlikelogic.go:33-81 | from agreement, under any interleaving across users and targets: each store agrees again whenever no request is in flight, under the success of its own commands alone; failed transactions, messages and consumer calls do not matter |
| LikeAgreement.FourStoresAgree | interaction/internal/logic/likelogic.go:34-107 | once drained, and with messages and consumer calls succeeding too, like_count agrees as well; transactions and user sets may fail |
| LikeAgreement.OverlapDrifts | interaction/internal/cache/like_cache.go:70-83 | an Unlike overtaking a Like of the same user fires the clamp and leaves the counter at 1 with no active row |
| LikeAgreement.OverlapDriftsForEver | interaction/internal/cache/like_cache.go:70-83 | however that run goes on without a refused counter command, the counter is at least one too high whenever it comes to rest |
| LikeCaching.LikeCache.GetLikeCount | interaction/internal/cache/like_cache.go:40-56 | reads the counter, a missing one as 0, and reports a Redis error |
| LikeCaching.LikeCache.IncrLikeCount | interaction/internal/cache/like_cache.go:58-68 | adds one and returns the new count; an error changes nothing |
| LikeCaching.LikeCache.DecrLikeCount | interaction/internal/cache/like_cache.go:70-83 | subtracts one; below 0 it returns 0 and writes 0, and if that write is refused Redis keeps the negative count |
| LikeCaching.LikeCache.SetLikeCount | interaction/internal/cache/like_cache.go:85-88 | overwrites the counter and nothing else |
| LikeCaching.LikeCache.AddLikeRelation | interaction/internal/cache/like_cache.go:95-112 | adds the user to the relation set and then the target to the user set; the first error stops it |
| LikeCaching.LikeCache.RemoveLikeRelation | interaction/internal/cache/like_cache.go:114-128 | the mirror image |
| LikeCaching.LikeCache.GetLikeRelationCount | interaction/internal/cache/like_cache.go:130-138 | the size of the relation set |
| LikeLogic.LikeRepository.FindByTargetAndUser | interaction/internal/repository/like_repository_impl.go:160-171 | the row of (target, user), none when there is none, or an error |
| LikeLogic.LikeRepository.Create | interaction/internal/repository/like_repository_impl.go:118-140 | succeeds exactly when an id is generated, the statement succeeds and the key is new; otherwise the table is untouched |
| LikeLogic.LikeRepository.Update | interaction/internal/repository/like_repository_impl.go:142-158 | must meet one row; writes status and times, never id or kind |
| LikeLogic.ServedIsOneRequest | interaction/internal/logic/likelogic.go:34-107 | an uninterrupted run of one request's pipeline steps moves the stores together if and only if its transaction changed a row |
| LikeLogic.ServedTakesEffect | interaction/internal/logic/likelogic.go:34-107 | a request whose user is already there or whose transaction cannot write leaves every store alone; any other moves exactly its user in the table, and counter, sets and queue as far as their own commands are taken |
| LikeLogic.LikeService.Like | interaction/internal/logic/likelogic.go:31-112 | on success the user is among the active users; a success that was not already there moves counter, relation set, user set and queue exactly as far as each own command was taken, and any other outcome touches nothing; fails exactly when the transaction does; all this is the pipeline's uninterrupted request |
| LikeLogic.LikeService.Unlike | interaction/internal/logic/unlikelogic.go:30-99 | the mirror image, clamp included |
| TargetKey.KeyRoundTrip | interaction/internal/sync/kafka_syncer.go:43-70 | every int32 kind and int64 id, negative ones included, survives printing, splitting and parsing |
| TargetKey.KeyInjective | interaction/internal/sync/kafka_syncer.go:40-49 | two keys are equal exactly when kind and id are, so deduplicating by string is deduplicating by pair |
| KafkaSyncer.Database.UpdateLikeCount | interaction/internal/sync/kafka_syncer.go:108-112 | writes like_count of an existing row and logs the statement; a missing row is not created |
| KafkaSyncer.KafkaLikeCountSyncer.SyncSingleTarget | interaction/internal/sync/kafka_syncer.go:82-116 | writes the relation set's size, whatever the counter says, exactly when all three calls succeed and the kind has a table |
| KafkaSyncer.OneMoreKey | interaction/internal/sync/kafka_syncer.go:43-48 | one message more keeps the keys the printed distinct targets: skipping a known key skips a known target and no other |
| KafkaSyncer.KafkaLikeCountSyncer.Deduplicate | interaction/internal/sync/kafka_syncer.go:40-49 | returns the keys of the distinct targets in order of first appearance |
| KafkaSyncer.KafkaLikeCountSyncer.SyncKey | interaction/internal/sync/kafka_syncer.go:54-75 | a printed key is never malformed, and leads to its own target's write |
| KafkaSyncer.KafkaLikeCountSyncer.SyncKeys | interaction/internal/sync/kafka_syncer.go:53-76 | performs exactly the worklist's writes, in order; a failing target does not stop the rest |
| KafkaSyncer.WritesSync | interaction/internal/sync/kafka_syncer.go:53-76 | in whatever order and however often targets come, the writes leave each written row at its set's size and every other row as it was |
| KafkaSyncer.KafkaLikeCountSyncer.ProcessBatch | interaction/internal/sync/kafka_syncer.go:37-80 | the tables and the log of statements after a batch, whichever calls fail |
| KafkaSyncer.BatchRowByRow | interaction/internal/sync/kafka_syncer.go:51-116 | after a batch a row holds its set's size if a message named it and its three calls succeeded, and its old count otherwise; no row comes or goes |
| KafkaSyncer.WrittenOncePerBatch | interaction/internal/sync/kafka_syncer.go:93-109 | each distinct target with a table is written once with its set's size, nothing else is written, and the counters have no influence |
| KafkaSyncer.BatchesAreOneSet | interaction/internal/sync/kafka_syncer.go:37-80 | a sequence of batches leaves the tables that one sync of all their targets leaves |
| KafkaSyncer.BatchInsensitivity | interaction/internal/sync/kafka_syncer.go:37-80 | permuting, duplicating, redelivering or re-splitting messages changes nothing |
| BatchRefinement.BatchInThePipeline | interaction/internal/sync/kafka_syncer.go:37-116 | the batch handler leaves what the pipeline's consumer leaves when it flushes and works off its buffer, for every pattern of failures |
| KafkaConsumer.Consumer.ProcessBatch | interaction/internal/kafka/consumer.go:135-144 | hands the batch to the handler once; its error changes nothing here |
| KafkaConsumer.Consumer.StartBatchConsumer | interaction/internal/kafka/consumer.go:85-133 | what was handed over, collected and committed is the specified outcome of the schedule up to its shutdown |
| KafkaConsumer.ConsumerConservation | interaction/internal/kafka/consumer.go:94-131 | for every schedule: batches handed over, then the collected rest, are the decoded messages in order; batches are neither empty nor above capacity; nothing is left after a tick or the shutdown, and only these cut a batch short; only undecodable messages are committed |
| KafkaConsumer.TablesAfterATick | interaction/internal/kafka/consumer.go:103-107 | over a Redis that stands still, and whatever calls keep failing, the tables after a tick depend on the decoded messages' targets alone, not on batch size, earlier ticks or errors |
| KafkaConsumer.TablesAfterShutdownIff | interaction/internal/kafka/consumer.go:96-101 | after a shutdown every decoded message has been synced if and only if each row of a target still collected when the context was done, or fetched afterwards, already holds its set's size: a done context refuses the UPDATEs, the shutdown's own included |
| KafkaConsumer.LostInACrashIff | interaction/internal/kafka/consumer.go:117-122 | a decoded message is neither handed over nor delivered again after a crash if and only if it is still collected and a malformed one after it in its partition has been committed |
| ConsistencyChecker.LikeConsistencyChecker.GetMySQLCount | interaction/internal/sync/consistency_checker.go:220-238 | the number of active rows of the target and its type; an unknown type is an error |
| ConsistencyChecker.LikeConsistencyChecker.CheckSingleTarget | interaction/internal/sync/consistency_checker.go:183-218 | the three counts and whether they are all equal, or the first error |
| ConsistencyChecker.LikeConsistencyChecker.FixInconsistency | interaction/internal/sync/consistency_checker.go:271-306 | overwrites a differing counter and like_count with the relation count; each failure leaves its own store alone |
| ConsistencyChecker.LikeConsistencyChecker.ForceCheckAndFix | interaction/internal/sync/consistency_checker.go:308-319 | a check and, if it fails, the repair; errors only if the check could not be made |
| ConsistencyChecker.LikeConsistencyChecker.PeriodicCheck | interaction/internal/sync/consistency_checker.go:130-145 | the stores and the reported number after checking all targets in turn; with repair switched off the stores are as before |
| ConsistencyChecker.RepairIsHarmless | interaction/internal/sync/consistency_checker.go:271-306 | whatever fails, counter and like_count each become right exactly when the check answered, found a difference and that write was taken; otherwise they, and everything else always, are as before |
| ConsistencyChecker.RepairConverges | interaction/internal/sync/consistency_checker.go:183-319 | without failures: counter = set size; like_count too exactly if two compared counts differed; a second repair changes nothing; a re-check passes exactly if active rows = set size |
| ConsistencyChecker.LikeCountIsRightIff | interaction/internal/sync/consistency_checker.go:207-216 | like_count is right afterwards if and only if it was right before or the check failed |
| ConsistencyChecker.SweepRepairs | interaction/internal/sync/consistency_checker.go:117-147 | whatever fails for which target, a sweep repairs every target it meets as far as its own calls succeed and touches no other, in any order and with repetitions |
| ConsistencyChecker.SweepOnlyReports | interaction/internal/sync/consistency_checker.go:130-145 | with repair switched off a sweep changes nothing, whatever fails, and reports every position whose check answers and finds a difference |
| ConsistencyChecker.SecondSweep | interaction/internal/sync/consistency_checker.go:117-147 | the first sweep, whatever fails, reports the targets whose check answers and differs; the next one, with nothing failing, those whose active rows still differ from their set or whose counter could not be put right |
| ConsistencyChecker.CheckBetweenRequests | interaction/internal/sync/consistency_checker.go:207-210 | after disciplined runs without refused counter or relation set commands a check between requests passes; after any run without refused counter commands in which the clamp added to the counter it does not |
| RepairRaces.CheckIsRepair | interaction/internal/sync/consistency_checker.go:308-319 | a check's steps with nothing in between are the checker's own operation, whichever calls fail |
| RepairRaces.CheckerWritesCountsOnly | interaction/internal/sync/consistency_checker.go:271-306 | no step of the checker touches rows, sets, requests or messages |
| RepairRaces.SetsAgreeBesideTheChecker | interaction/internal/sync/consistency_checker.go:117-147 | whatever the checker writes and whenever, quiet relation sets are the active users |
| CounterSurplus.StepKeepsSurplus | interaction/internal/logic/likelogic.go:86-94 | in a disciplined run a counter is its set's size, adjusted by the requests between counter and relation step, up to a surplus that only the clamp changes |
| CounterSurplus.NoDeficitNoClamp | interaction/internal/logic/unlikelogic.go:73-81 | a counter without a deficit against its set is positive whenever a decrement is due |
| RepairRaces.EvenIffInStep | interaction/internal/sync/consistency_checker.go:275-286 | beside requests, consumer and any number of checks a counter is right in every state if and only if every repair writes the set's size adjusted by the requests between counter and relation step |
| RepairRaces.CounterAgreesBesideTheChecker | interaction/internal/sync/consistency_checker.go:275-286 | with every repair in step a counter at rest is the number of active rows |
| RepairRaces.CalmRepairIsInStep | interaction/internal/sync/consistency_checker.go:275-286 | a repair is in step when the set has the size the check read and no request on the target is between counter and relation step |
| RepairRaces.NoLostSyncIff | interaction/internal/sync/consistency_checker.go:299-300 | over every run of requests, one consumer and checks, failures included, a wrong like_count always has something pending or a recorded failure if and only if no repair writes a stale size with nothing left to correct it |
| RepairRaces.RepairRacesALike | interaction/internal/sync/consistency_checker.go:183-306 | a check that reads between a Like's counter and relation steps, and repairs after the Like is synced, leaves counter and like_count 0 with one active row, nothing failed and nothing pending |
| RepairRaces.ChecksHealIff | interaction/internal/sync/consistency_checker.go:207-216 | with requests and consumer at rest some sequence of checks puts like_count right if and only if it is right already or two of the three compared counts differ |
| RepairRaces.SilentRepairIsForEver | interaction/internal/sync/consistency_checker.go:183-306 | a check that reads the rows after a Like's commit and counter and set before its INCR, and writes after the Like is synced, leaves row, counter and set at 1 and like_count at 0, nothing failed or pending, through every later check |
| CounterRaces.PairIsOneStep | interaction/internal/cache/like_cache.go:58-83 | with nothing in between, the two commands are the pipeline's one counter step, for both outcomes of each |
| CounterRaces.OtherStepsAreThePipelines | interaction/internal/logic/likelogic.go:86-107 | all other steps are the pipeline's own, a request sending its second command before it goes on |
| CounterRaces.SplitConservation | interaction/internal/cache/like_cache.go:58-83 | with the two commands apart, whatever overlaps and fails, a counter is off its balance by exactly what the second commands added to the counts they met |
| CounterRaces.LevelIff | interaction/internal/cache/like_cache.go:60-65 | the balance holds in every state of a run if and only if every second command meets the count it writes |
| CounterRaces.ImbalanceStays | interaction/internal/cache/like_cache.go:60-65 | an imbalance stays as it is while no second command rewrites the counter |
| CounterRaces.EvenIff | interaction/internal/cache/like_cache.go:60-65 | in a disciplined run the counter is in step with its set in every state if and only if every second command meets the count it writes |
| CounterRaces.CounterAgrees | interaction/internal/cache/like_cache.go:60-65 | a counter at rest is then the number of active rows |
| CounterRaces.UndisturbedLikeMeetsItsOwn | interaction/internal/cache/like_cache.go:60-65 | a Like's SETEX meets its own count if no other counter command of the target comes between it and its INCR |
| CounterRaces.TwoLikesCollide | interaction/internal/cache/like_cache.go:58-68 | INCR, INCR, SETEX 2, SETEX 1 by two users leave the counter at 1 with two active rows, nothing failed and no request owed to it |
| ConsumerFleet.FleetLosesNothing | interaction/internal/kafka/producer.go:46-52 | with every message routed by its target, any number of consumers and any failures, a wrong like_count always has something pending or a recorded failure |
| ConsumerFleet.FleetIsSynced | interaction/internal/sync/kafka_syncer.go:82-116 | so once all is at rest without a failed sync every like_count is its set's size |
| ConsumerFleet.TwoConsumersLoseASync | interaction/internal/kafka/producer.go:25-32 | with one target's messages at two consumers, of any numbers, the older reading can be written last: nothing failed, all at rest, two users in the set, like_count 1 |
| CacheLoader.OnlyHotPostsAreCached | post/internal/repository/cache_loader.go:85-99 | in every run neither Redis nor any process holds a post below the threshold |
| LoaderStaleness.BoundedStaleness | post/internal/repository/cache_loader.go:42-106 | whatever fails or is written meanwhile, a result returned at t was the database's value at some time within load delay + Redis TTL + local TTL + two handling delays before t |
| LoaderReads.ReadIsCurrentIff | post/internal/repository/cache_loader.go:42-55 | a lone read after its process's local entry is gone always answers, with the current row if and only if the loader's Redis entry has run out or already holds that row |
| LoaderReads.HotReadIsKept | post/internal/repository/cache_loader.go:42-97 | a lone read that answers a hot post keeps it in its process: for the local lifetime, unless dropped there, every later call of that process answers the same post, whatever is written, whatever fails and whatever calls run |
| LoaderReads.OwnWriteIsReadIff | post/internal/repository/post_repository_impl.go:79-82 | a hot post is read, updated and read again: the second read has the new content if and only if more than the loader's Redis lifetime has passed |
| LoaderPaths.RedisDownReadsTheRow | post/internal/repository/cache_loader.go:61-65 | with Redis down and nothing local a call answers with the row as it is, and leaves caches and lock alone |
| LoaderPaths.DirectLoadFails | post/internal/repository/cache_loader.go:61-65 | and if that load fails too it answers nothing and has touched nothing |
| LoaderPaths.LockIsTakenIff | post/internal/repository/cache_loader.go:108-121 | the lock is to be had exactly when there is none or its lease has run out; it is then leased to the call for 400 ms, otherwise the call waits |
| LoaderPaths.Releases | post/internal/repository/cache_loader.go:67-68 | a call answers even if Redis refuses its release; the lock then stays for its lease |
| LoaderPaths.SecondLookFindsLocal | post/internal/repository/cache_loader.go:70-72 | a copy that came into the process before the lock was had is the answer: nothing is loaded, the lock is released |
| LoaderPaths.SecondLookFindsRedis | post/internal/repository/cache_loader.go:73-78 | so is a live Redis entry, kept locally exactly if it is hot |
| LoaderPaths.SecondLookMisses | post/internal/repository/cache_loader.go:70-80 | with neither, or a failed Redis read, the load starts |
| LoaderPaths.LoadedFindsLocal | post/internal/repository/cache_loader.go:85-88 | a copy that came into the process during the load is answered in place of the loaded post |
| LoaderPaths.LoadedFindsRedis | post/internal/repository/cache_loader.go:89-94 | so is a live Redis entry, kept locally exactly if it is hot |
| LoaderPaths.LoadedColdIsNotStored | post/internal/repository/cache_loader.go:96-102 | otherwise the loaded post is the answer; below the threshold no cache is touched |
| LoaderPaths.LoadedHotIsStored | post/internal/repository/cache_loader.go:96-102 | and at or above it the post is stored in the process always and in Redis if Redis takes it |
| LoaderPaths.FailedLoadFreesTheLock | post/internal/repository/cache_loader.go:67-83 | a failed load under the lock answers nothing, caches nothing and frees the lock |
| LoaderPaths.WaiterFindsLocal | post/internal/repository/cache_loader.go:146-149 | a waiting call answers with the live local copy of its process |
| LoaderPaths.WaiterFindsRedis | post/internal/repository/cache_loader.go:150-155 | or else with the live Redis entry, which it keeps locally exactly if it is hot |
| LoaderPaths.WaiterGoesOn | post/internal/repository/cache_loader.go:141-159 | with neither it goes on waiting and has changed nothing |
| LoaderPaths.TimeoutLoadsDirectly | post/internal/repository/cache_loader.go:143-145 | a wait can time out after five seconds and not before; the call then answers with the row and leaves caches and lock alone |
| LoaderAsWritten.NothingIsEverCached | post/internal/repository/cache_loader.go:116-120 | with the comparison as written, in no run does a call hold the lock or cache anything |
| LoaderAsWritten.EveryMissWaitsOut | post/internal/repository/cache_loader.go:120-146 | with the comparison as written, a call whose lock command is answered goes on only after the wait timeout, unless it is cancelled |
| LoaderSingleFlight.SingleFlight | post/internal/repository/cache_loader.go:57-106 | for any number of calls in any number of processes at most one is loading, and after a load that wrote a Redis entry no other starts before that entry has run out |
| LoaderSingleFlight.HotSingleFlight | post/internal/repository/cache_loader.go:80-102 | for a hot post without failures, of two loads the earlier one stored an entry that had run out, or met a copy another call had just promoted |
| LoaderSingleFlight.OnlyTheOwnerReleases | post/internal/repository/cache_loader.go:108-134 | until its lease ends a lock stays with its holder unless the holder releases it: no release of another call deletes it, whatever fails |
| LoaderService.StepsAreTheMachines | post/internal/repository/cache_loader.go:42-160 | every step on a call's legal path is the machine's own transition from each state where the caller meets the same |
| LoaderService.CacheLoader.GetLocal | post/internal/repository/hot_post_local_cache.go:30-43 | an entry still alive, or nothing; the call moves on as the machine does |
| LoaderService.CacheLoader.GetRedisCache | post/internal/repository/cache_loader.go:162-176 | an entry still alive and readable, or nothing |
| LoaderService.CacheLoader.SetLocal | post/internal/repository/hot_post_local_cache.go:45-61 | a post at or above the threshold becomes the local copy of this process, stored now; any other changes nothing |
| LoaderService.CacheLoader.SetRedisCache | post/internal/repository/cache_loader.go:178-188 | the post becomes the Redis entry, stored now, if Redis takes it; its error is dropped |
| LoaderService.CacheLoader.AcquireLock | post/internal/repository/cache_loader.go:108-121 | takes the lock with this call's token exactly when no lease runs; an error is reported and changes nothing |
| LoaderService.CacheLoader.ReleaseLock | post/internal/repository/cache_loader.go:123-134 | deletes the lock only while it holds this call's token, and touches nothing else |
| LoaderService.CacheLoader.LoadFn | post/internal/repository/post_repository_impl.go:80-82 | starts a load, then reads the row or fails |
| LoaderService.CacheLoader.GetOrLoad | post/internal/repository/cache_loader.go:42-55 | under arbitrary interference the whole call is a legal path of the machine from its first phase, and its answer is the value or failure the path ends with |
| LoaderService.CacheLoader.GetWithLock | post/internal/repository/cache_loader.go:57-106 | the same from the lock on: direct load on a lock error, release after holding it, wait otherwise |
| LoaderService.CacheLoader.LoadLocked | post/internal/repository/cache_loader.go:70-102 | from acquiring to just before the release: double check, load, check again, store |
| LoaderService.CacheLoader.WaitForCache | post/internal/repository/cache_loader.go:136-160 | polls both caches; a timeout loads directly, a cancelled context fails |
| LoaderService.OneLoadPerCall | post/internal/repository/cache_loader.go:57-160 | no call ever starts a second load |
| LoaderService.LoadsAreLogged | post/internal/repository/cache_loader.go:57-106 | the counted steps are exactly those that log a load, one each, by this call |
| LoaderService.AcquiredIsReleased | post/internal/repository/cache_loader.go:67-68 | each acquired lock gets exactly one release step before the call is over, and a call that did not acquire makes none |
| EmptyValues.NewSettings | post/internal/repository/empty_value_cache.go:69-73 | a positive setting is kept, any other becomes 60, so the lifetime in force is positive |
| EmptyValues.SyncMapCache.Set | post/internal/repository/empty_value_cache.go:41-48 | stores the value with its expiry |
| EmptyValues.SyncMapCache.Get | post/internal/repository/empty_value_cache.go:50-61 | finds an entry up to and including its expiry |
| EmptyValues.SyncMapCache.Delete | post/internal/repository/empty_value_cache.go:63-67 | removes one key |
| EmptyValues.EmptyValueCache.CacheEmpty | post/internal/repository/empty_value_cache.go:80-98 | marks locally and, if Redis accepts it, in Redis, for the same time |
| EmptyValues.EmptyValueCache.IsEmptyCached | post/internal/repository/empty_value_cache.go:100-122 | true exactly when a level has a live marker; a Redis-only marker is promoted |
| EmptyValues.EmptyValueCache.RemoveEmptyCache | post/internal/repository/empty_value_cache.go:124-137 | removes the local marker always, the Redis one if Redis accepts |
| EmptyValues.HorizonStays | post/internal/repository/empty_value_cache.go:100-122 | without a new marking no sequence of reads and removals lets a marker outlive its horizon |
| EmptyValues.MarkersDieIff | post/internal/repository/empty_value_cache.go:80-122 | after marking at t for k seconds no later read reports the post missing past t + k + local lifetime, if and only if Redis took the marker or held none that lasts longer |
| EmptyValues.MarkingIsSeen | post/internal/repository/empty_value_cache.go:80-122 | a marking at t for k seconds is seen by every read up to t + k, with or without Redis, until the id is marked again or removed |
| EmptyValues.RemovalHoldsIff | post/internal/repository/empty_value_cache.go:124-137 | after a removal no read reports the post missing until the next marking, if and only if Redis took the removal or held no marker |
| EmptyValues.OthersAreLeft | post/internal/repository/empty_value_cache.go:80-137 | marking, asking for and removing one id change no answer about another |
| EmptyValues.TheBoundIsReached | post/internal/repository/empty_value_cache.go:116-118 | a refused removal and a read at the last instant keep the post missing up to that bound |
| LocalCaching.HotPostLocalCache.Get | post/internal/repository/hot_post_local_cache.go:30-43 | the entry, if there is one |
| LocalCaching.HotPostLocalCache.Set | post/internal/repository/hot_post_local_cache.go:45-61 | stores a post at or above the threshold, ignores any other |
| LocalCaching.HotPostLocalCache.Delete | post/internal/repository/hot_post_local_cache.go:63-66 | removes one entry |
| LocalCaching.HotPostLocalCache.UpdateViewCount | post/internal/repository/hot_post_local_cache.go:68-76 | re-stores a present entry under the new count; a count below the threshold leaves the old entry |
| HotService.HotPostService.CachePostDetail | post/internal/repository/hot_service.go:155-174 | a hot post is stored locally, the marker goes, and the detail key is written if Redis takes it, which is what is reported |
| HotService.HotPostService.GetCachedPostDetail | post/internal/repository/hot_service.go:176-218 | the cached answer and the effect on caches and breaker, in the order local, marker, breaker, Redis |
| HotService.CachedReadMoves | post/internal/repository/hot_service.go:176-218 | a local hit changes nothing; else a live marker answers missing; else Redis is asked if it is there and the breaker allows, the breaker is told the outcome once, and only a hot post found there is kept locally |
| HotService.HotPostService.GetPostDetailWithFallback | post/internal/repository/hot_service.go:220-250 | the answer and the caches after falling back to the database; a Redis error exactly when an allowed read failed, a fetch error only when the fetch did, a missing post always leaves a local marker, and only a found post touches the caches |
| HotService.HotPostService.DeletePostCache | post/internal/repository/hot_service.go:274-285 | drops the local entry and marker always, the detail key if Redis accepts |
| ServiceHistory.CacheTransparency | post/internal/repository/hot_service.go:155-285 | after every history from empty caches whose writes dropped the detail key, the next answer is the database's own, or an error for a call that was made and failed; with those calls succeeding it is the database's own |
| ServiceHistory.HonestAfterUpdateIff | post/internal/repository/hot_service.go:274-285 | a read let through after an update is honest if and only if the detail key was deleted or absent |
| ServiceHistory.HonestElsewhereIff | post/internal/repository/hot_service.go:176-179 | after an update in another process, a read let through is honest if and only if this process's local cache does not hold the post |
| ServiceHistory.CreatedPostIsServed | post/internal/repository/hot_service.go:220-250 | a post created at u is served by every read after u plus two marker lifetimes whose own calls succeed, however often it was found missing before |
| ServiceHistory.ErrorsAreExcused | post/internal/repository/hot_service.go:220-236 | whatever is cached, a Redis error is answered only if the breaker let a read through that failed, a fetch error only if the fetch failed, and an open breaker never shows |
| ServiceHistory.FoundIsKept | post/internal/repository/hot_service.go:155-218 | a post once answered is answered again whatever the database does: a hot one even if everything fails, a cold one while Redis has its key and is asked |
| ServiceHistory.OnlyHotPostsAreLocal | post/internal/repository/hot_service.go:156-158 | in no history does a post below the threshold enter the local cache |
| ServiceHistory.MissingIsRemembered | post/internal/repository/hot_service.go:238-243 | a fetch that found nothing answers every read for a marker's lifetime, whatever the database then holds and whatever fails |
| ServiceHistory.DropForgets | post/internal/repository/hot_service.go:274-285 | after a drop that Redis took, the next read of that id is the database's answer or an excused error, whatever was cached |
| ServiceHistory.DropLeavesOthers | post/internal/repository/hot_service.go:274-285 | a drop, taken or not, changes no answer about another id |
| ServiceHistory.FailedReadsOpen | post/internal/repository/hot_service.go:193-198 | as many failed Redis reads as the threshold leaves each answer with the error and together open the breaker, changing nothing else |
| ServiceHistory.OpenSparesRedis | post/internal/repository/hot_service.go:189-191 | until the timeout after the last failure reads are then the database's answer, independent of Redis, and leave the breaker alone |
| PostRepositories.PostRepository.Update | post/internal/repository/post_repository_impl.go:196-209 | the author's statement changes the content of that row alone, anyone else's no row; the caches then drop the post; a failed statement leaves everything, a failed invalidation is reported with the row already changed; one Update event of the histories |
| PostRepositories.PostRepository.Delete | post/internal/repository/post_repository_impl.go:211-218 | the author's statement removes that row alone, anyone else's none; caches and errors as for an update |
| PostRepositories.FallbackReadsOwnWrite | post/internal/repository/hot_service.go:220-250 | after an author's update that dropped the detail key, every later read by `GetPostDetailWithFallback` in the same process has the new content until the next write, or is an error for a call that failed |
| CircuitBreaking.CircuitBreaker.constructor | post/internal/repository/circuit_breaker.go:54-75 | zero settings become the defaults and the breaker starts closed with all counters 0 |
| CircuitBreaking.Normalized | post/internal/repository/circuit_breaker.go:55-69 | every non-zero setting is kept; zeros become 5 failures, 3 successes, 30 seconds, 1 probe and a rate of one half |
| CircuitBreaking.CircuitBreaker.Allow | post/internal/repository/circuit_breaker.go:83-106 | the answer; an open breaker whose timeout has passed becomes half-open, and only a half-open admission is counted |
| CircuitBreaking.CircuitBreaker.RecordSuccess | post/internal/repository/circuit_breaker.go:108-126 | half-open, enough successes close it; closed, the failures are forgotten; open, nothing changes |
| CircuitBreaking.CircuitBreaker.RecordFailure | post/internal/repository/circuit_breaker.go:128-150 | closed, it opens exactly at the threshold or the failure rate; half-open, it opens; the time of the failure is always kept |
| CircuitBreaking.CircuitBreaker.Call | post/internal/repository/circuit_breaker.go:152-165 | refuses without running, or runs and records the outcome once |
| CircuitBreaking.CircuitBreaker.ResetBreaker | post/internal/repository/circuit_breaker.go:167-175 | closes and clears everything but the time of the last failure |
| BreakerRuns.ClosedCountsTheStreak | post/internal/repository/circuit_breaker.go:108-150 | in every reachable closed state failures = requests = the failures since the last success, closing or reset, and that is 0 or below the threshold |
| BreakerRuns.TripsOnTheThresholdthFailure | post/internal/repository/circuit_breaker.go:135-144 | a closed breaker trips exactly on the threshold-th failure of its streak (on the first, if the setting is negative); the failure rate never decides |
| BreakerRuns.RefinesSimpleBreaker | post/internal/repository/circuit_breaker.go:83-175 | under any settings no sequence of events tells it from a breaker with one counter per state and no failure rate |
| BreakerRuns.HalfOpenAccounting | post/internal/repository/circuit_breaker.go:90-103 | an episode admits at most MaxHalfOpenReqs + 1 requests and counts no more successes than it admitted plus those outstanding at entry |
| BreakerRuns.ReclosesIff | post/internal/repository/circuit_breaker.go:117-124 | an episode can re-close if and only if SuccessThreshold fits its admissions and the results it inherited |
| BreakerRuns.SpentForEver | post/internal/repository/circuit_breaker.go:98-103 | a half-open breaker with all probes used and reported never moves again without a reset |
| BreakerRuns.LockedOutIffSpent | post/internal/repository/circuit_breaker.go:83-106 | a breaker in any mode refuses all later requests if and only if it is in that state |
| BreakerRuns.LockOutReachableIff | post/internal/repository/circuit_breaker.go:83-150 | a new breaker can reach that state without a reset if and only if SuccessThreshold exceeds what one episode admits |
| BreakerRuns.DefaultsLockOut | post/internal/repository/circuit_breaker.go:35-41 | a new breaker with the default settings is there after five failures, the timeout, and two successes |
| BreakerRuns.DefaultsRefuseFor30s | post/internal/repository/circuit_breaker.go:35-41 | with the default settings four failures in a row refuse nothing, and the fifth refuses every request for thirty seconds and no longer |
| Snowflake.LayoutIsSum | post/pkg/snowid/snowflake.go:87-91 | shifting and or-ing is adding, and the id is not negative exactly while time fits 41 bits |
| Snowflake.ParseCompose | post/pkg/snowid/snowflake.go:94-99 | parsing recovers time, node and sequence of a composed id |
| Snowflake.ComposeParse | post/pkg/snowid/snowflake.go:94-99 | composing the parsed parts gives back any non-negative 64-bit id |
| Snowflake.SpinPast | post/pkg/snowid/snowflake.go:79-81 | the spin ends at the first reading past the last time, if there ever is one |
| Snowflake.New | post/pkg/snowid/snowflake.go:55-64 | a generator is made exactly for the nodes 0 to 1023, with time and sequence 0 |
| Snowflake.Generator.NextInMillisecond | post/pkg/snowid/snowflake.go:76-82 | the sequence moves on modulo 4096 and a wrap waits for the next millisecond |
| Snowflake.Generator.Advance | post/pkg/snowid/snowflake.go:70-87 | time and sequence after a call; a backward clock is refused and changes nothing |
| Snowflake.Generator.Generate | post/pkg/snowid/snowflake.go:66-92 | fails exactly on a backward clock, changing nothing; otherwise the id composed of the last reading, the node and the sequence; and how far the clock was read |
| Snowflake.StepExactly | post/pkg/snowid/snowflake.go:70-87 | a call fails exactly on a backward clock or an endless spin; otherwise the sequence counts up within a millisecond, waits at 4095, and is 0 in every new one |
| Snowflake.StepAdvances | post/pkg/snowid/snowflake.go:72-87 | a successful call increases (time, sequence), a failed one changes nothing |
| Snowflake.StrictlyIncreasing | post/pkg/snowid/snowflake.go:66-92 | for every clock trace the ids of a run strictly increase while time fits 41 bits |
| Snowflake.RateBound | post/pkg/snowid/snowflake.go:76-87 | after k successful calls lastTime * 4096 + sequence is at least k |
| Snowflake.IdsNeedTime | post/pkg/snowid/snowflake.go:76-87 | n consecutive ids span at least ceil(n / 4096) - 1 milliseconds, and at most 4096 share one |
| Snowflake.NodesNeverCollide | interaction/pkg/snowid/snowflake.go:66-92 | runs on two different nodes never share an id |
| Snowflake.OrderedIffWithin41Bits | post/pkg/snowid/snowflake.go:66-92 | up to the 42nd bit of time, the ids of a run are in order if and only if the elapsed time has stayed within 41 bits |
| Snowflake.OrderBreaksAt41Bits | post/pkg/snowid/snowflake.go:89 | the first id past 41 bits is negative, below every earlier one |

## Left out

- LoaderStaleness.BoundedStaleness: bounds the time a value stays in a caller's hands by two explicit delays, which are 0 if promotion and return are instantaneous; `UpdateViewCount`, which re-stores local entries, is not among the loader's writers.
- LoaderSingleFlight.SingleFlight: assumes, as it must, that the lock script and the re-check answer, no wait times out and no holder outlives its lease; all other commands may fail.
- LoaderService.CacheLoader.GetOrLoad: the number of polls before the wait ends is a parameter, so that the ticker and the timer need no scheduling model.
- CacheLoader.OnlyHotPostsAreCached: the loader machine follows one post id; the cron warm-up and the post detail service, which share the local caches, are not among its callers.
- ServiceHistory.CacheTransparency: histories are serial, of one process (`HonestElsewhereIff` says where that matters), and leave out `CacheLoader` and `UpdateViewCount` as writers; an id found missing is not created later in them, which `CreatedPostIsServed` treats instead.
- LikeCaching.LikeCache.IncrLikeCount: the INCR and the SETEX are one step in the class; `CounterRaces` takes them apart. Like keys do not expire.
- ConsistencyChecker.RepairConverges: starts from stores that stand still; `RepairRaces` has the checks that interleave with requests.
- Snowflake.OrderedIffWithin41Bits: past the 42nd bit, 139 years after the epoch, the shifted time wraps around and ids may be positive again.
- KafkaConsumer.Consumer.StartBatchConsumer: decoding is part of each turn, and the log of hand-overs does not record the context; `TablesAfter` puts it back in. The service starts the consumer with a context that is never done (interaction/cmd/server/main.go:38-39), so there a shutdown is a crash.
- API gateway, authentication, generated RPC code and service wiring.
- The bloom filter and the count sketches behind view counts: unseen or approximate; `GetPostDetail` overwriting the view count with them.
- Hot scores, ranked sets and their cleanup: floating-point exponentials and an external sorted set.
- `LikeCountSyncer` and the checker declared twice as `LikeDataConsistencyChecker`: no caller fills the first, and the second repeats the modelled checks.
- `GetWithEmptyCheck`, `ClearAllEmptyCache`, JSON failures, and one-message `Start` of the consumer.
- Random sampling of targets, alarms, logging, tickers and goroutine start and stop: parameters or nothing.
- `Init` and `NextID` with their default node: they wrap `New` and `Generate`.
- SQL text, pagination, comment counting and status queries: they would only add easy members.
