# Verified model of the ticket platform's core protocols

Dafny models of the parts of the platform whose correctness depends on more than one function, with
proofs about every run:

* the seat inventory in Redis: hold, release, both commit scripts and seeding, as Lua scripts that run
  atomically and as steps of a protocol in which seats, hold records, ledger entries and limit keys may
  expire at any moment;
* the booking service around it: the hold, commit and release handlers, the reaper and the reservation
  and order tables;
* the virtual waiting room: pool, Fisher-Yates shuffle, active queue, batch admission, token bucket;
* the contracts: ticket NFT and secondary market with their payment ledger, and the staking token;
* the codecs: RLP fields, base64url, and the signed queue token with its two verifiers.

Code that updates state is a class whose methods follow the source's loops and assignments
(`RedisServer`, `BookingService`, `WaitingRoomWorker`, `TicketNFT`, `TicketMarketplace`,
`CrowdTicToken`, and array methods for the shuffle and the base64url buffers). Each method's contract
equates its whole new state and reply with a specification function of the old state; the theorems are
about these functions and about sequences of their steps.

`dafny verify dfyconfig.toml` checks the whole project.

## Files

| file | contents |
|---|---|
| Collections, Bytes, Ethereum | sets, sums, splices; big-endian numbers; addresses and the word size |
| Redis, Scripts | the keyspace of one category, what each script does to it, and the scripts with their loops |
| Effects | what each script answers and leaves, field by field |
| Seeding, SeatNames | the seeding script, its zero-padded seat numbers, and when two names meet |
| Protocol | arbitrary runs of scripts and expirations |
| Worlds, Accounting, Inventory | history of holds, the invariant, the callers' discipline and its exactness |
| Limits, CommitScripts | the per-user limit; the two commit scripts compared; replays |
| Booking, Service | handlers, tables and reaper; which requests keep everything in agreement |
| Interleaving | the same handlers in pieces, interleaved in any way |
| Answers | what each request and sweep answers and leaves; orders keep their rows |
| Shuffle, TokenBucket, WaitingRoom, Queue | the waiting room and its runs |
| Lottery | the fair draw at T-0; what joins and admissions do |
| Tickets, Resale, Staking | the contracts and their runs |
| Settlement, Payouts | who gets which ticket and how much: every transaction's success and effect |
| Rlp, Base64Url, QueueToken | the codecs |

## What needs the callers' discipline

The scripts trust their callers. `Worlds.Addressed` is what every handler sees to: holds come under new
ids, holds and commits name at least one seat. `Worlds.Disciplined` is the rest: a hold that is granted
names no seat twice; a commit that sells does so for an open hold and names each of its seats once; a
release is that of an open hold, with a list as long as the hold is large that has every seat still
carrying the hold's id; re-seeding keeps to one numbering and brings back no seat that expired under an
open hold. Whether a call is granted or sells can be read off the keyspace before the call
(`Protocol.Takes`).

* No discipline: `NoDoubleSale`, `SeatSoldToOneHold`, `SoldUntilReleased`, `OnlyHeldExpireAlways`,
  `CountersAddUpToQuota`, `ReplayIsIdempotent` and `CommitsAgreeIff` hold in arbitrary runs or for
  arbitrary calls.
* Discipline: `ConsistentAlways`, `CountersAgreeWithSeats`, `CountersAddUp`, `NeverFalselySoldOut`,
  `UserNeverExceedsMaximum`, `ScriptsAreInterchangeable`.
* `DisciplineIsExact` shows that the discipline asks for nothing superfluous: in a consistent state any
  addressed call, whatever hold and seats it names, keeps seats and counters in agreement if and only if
  it is disciplined. `ConsistentExactly` says the same of runs.
* `RequestIsExact`, `SweepIsExact` and `AgreementExactly` carry this over to the booking service's
  requests, sweeps and tables: a run stays in agreement up to a point if and only if every request and
  sweep up to it met the conditions that no handler checks.

## Where the code does less than its documentation or design asks

In each case the model follows the code, a lemma says exactly when the intended property holds, and
where it fails the lemma or a companion describes the failing calls.

* Sweeps pick reservations by expiry alone (services/booking-service/internal/store/postgres.go:120), and the
  orders' foreign key keeps the row of a committed hold (sql/001_schema.sql:93), so a committed hold is
  released when its row expires and again at every later sweep. `SweepIsExact`: a sweep keeps seats and
  counters in agreement if and only if its batch holds no committed hold. The owner of a paid hold can release
  it too, because the release handler checks only the owner
  (services/booking-service/internal/handler/release.go:50-62); `RequestIsExact` has the condition.
  `SweptSaleIsResold`, `ReleasedSaleIsResold`: two users end up with paid orders for one seat.
* Two releases of one open hold that both read its row before either ran its script, the owner's and the
  reaper's say, move the counters twice (services/booking-service/internal/handler/release.go:44-62, 141-161).
  `LateReleaseIsExact` and `InterleavingExactly` for every interleaving, `ReadTogetherReleasedTwice` for the
  failing one.
* A commit request may name any of an open hold's seats, as often as it likes, and is answered as paid: one of
  two held seats alone, which leaves the other HELD under a committed hold, or one seat twice, which sells two
  for one in the counters (services/booking-service/internal/handler/commit.go:55-91). `CommitIsExact` and
  `RequestIsExact` for every request, `AnyListIsPaid`, `PartialAndRepeatedListsArePaid`, `PartOfHoldIsSold`
  for the failing ones.
* The booking service's commit script counts a committed hold's seats as sold a second time once its ledger
  entry expired (services/booking-service/internal/redis/lua.go:64-66, 83-84). `CommitIsExact`,
  `CommitsAgreeIff`.
* The standalone commit clamps its decrement but not its increment (redis/lua/commit.lua:149-154), which lifts
  the counters above the quota when held is too low. `ApplyKeepsBalance`, `CountersAddUpToQuota`;
  `ClampLiftsCounters` is a run.
* A commit request under a new idempotency key for a hold that has an order is answered as paid and recorded
  as another order, because the reply ALREADY_COMMITTED is not looked at
  (services/booking-service/internal/handler/commit.go:91-118). `OneOrderIff`, `OneOrderExactly` and
  `RepeatedCommitOrdersAgain`. Such an order names whatever seats the request names, even another hold's;
  `RequestIsExact` has the condition and `SeatInOneOrder` what follows where it is met.
* A commit request names its hold by id alone, and the ledger is asked before the seats' user is
  (services/booking-service/internal/handler/commit.go:77-83,
  services/booking-service/internal/redis/lua.go:64-66), so a user who names another user's committed hold is
  answered as paid and gets an order of it. `OwnOrdersIff`, `OwnOrdersExactly`, `AnotherUserIsPaid`.
* The TTL of a held seat deletes the seat, and a later release, which is meant to restore the stock
  (redis/lua/release.lua:1), returns only the counter. `MissingUntilSeeded`: nobody can hold such a seat until
  it is seeded again. `AvailableIsHoldableIff`: the counter of available seats is right about the seats that
  can be held if and only if none expired under a hold released since. `ExpiredSeatIsCounted` is a run.
* Reservation rows keep only seat ids that parse, in canonical form
  (services/booking-service/internal/handler/hold.go:108-113), and release by those. `MirrorIsFaithful`. Seat
  ids such as the seeding script makes leave a row without seats, `UnparsedLeaveNothing`.
* Seeding across a change of pad width, from 9999 to 10000 seats, names every seat anew
  (redis/seed.lua:75-84). `SeedingComposesIff`, `SeatsAfterTwoSeedings`. Re-seeding while a seat is expired
  under an open hold creates a seat that is counted twice. `SeedIsExact`.
* A newcomer may be put in front of others when more than one user was admitted within a few milliseconds
  (edge/waiting-room/src/index.ts:432). `MoveKeepsLine`, `PositionExactly`, `OvertakingAfterShuffle`.
* A request for more users than the rate is never admitted, although it is answered with a retry hint
  (edge/waiting-room/src/index.ts:319-326, 629). `OversizedBatchNeverAdmits`.
* The first token id is 0, which `seatToToken` also uses for "none" (contracts/TicketNFT.sol:60-62), so that
  seat can be minted once more. `OneTokenIff` and `OneTokenExactly` say when a seat gets a second token,
  `FirstSeatMintedTwice` is a run; beside token 0 no seat gets two, `SeatHasOneToken`.
* A ticket listed by anyone but its original owner can be neither bought nor delisted, because moving it into
  escrow has locked it (contracts/TicketNFT.sol:148-156). `BuySucceedsIff`, `DelistSucceedsIff`,
  `ListedByAnotherStays`; `ListedAndStuck` is a run.
* Tightening a ceiling leaves existing listings as they are, so a purchase can exceed the new ceiling
  (contracts/TicketNFT.sol:124-128). `CappedIff`, `CappedExactly`, `CappedAlways`; `BoughtAboveCeiling` is a
  run.
* Rewards are minted without a look at the supply cap (contracts/CrowdTicLaunch.sol:76-83). `CapKeptIff`,
  `CapExactly`; five hours and a half after deployment one claim can pass the cap, `CapIsPassed`.
* A claim that pays restarts the 30-day lock (contracts/CrowdTicLaunch.sol:57, 79). `ClaimRelocksIff`. The
  reward constant is modelled as written; it amounts to about 100 tokens per staked token and day, where its
  comment says about 1% a year (contracts/CrowdTicLaunch.sol:19).
* `buy` names its reentrancy guard twice (contracts/TicketMarketplace.sol:97), which would refuse every
  purchase; one guard is modelled. `PullPayment`, `_exists` and a `_beforeTokenTransfer` hook that runs on
  every transfer are modelled as the code intends them, whatever library version provides them.
* Lists with more than 55 bytes of payload get a byte-string header
  (services/booking-service/internal/blockchain/sign.go:83), and quantities printed with an odd number of hex
  digits are encoded as 0 (services/booking-service/internal/blockchain/sign.go:93-96).
  `LongListReadsAsString`, `QuantityIsEncodedIff`.

## Assumptions

One event and one ticket category; hold and order ids are what their callers pass; the seat keys of a
request are its seat ids behind a fixed prefix. The theorems about counters, limits and tables start from
any stock of different seat names: the seeding script's (`OpeningIsConsistent`), or others, such as the
UUIDs of which alone the handlers keep reservation rows, created some other way. The clock of the waiting room never runs backwards;
scores are whole numbers; bucket levels are exact, in thousandths of a token. Random draws, seat-id
parsing, the MAC and the JSON printer and parser are parameters; parsing is taken to undo printing
where that matters. A failed allowlist lookup of the middleware is the case without a store. Seat keys
of the NFT are pairs, as if Keccak-256 were injective. A listing and its `hasListing` flag are one map
entry. Payees accept their withdrawals; whether a buyer accepts a refund is a parameter.

## Model

| member | source | states |
|---|---|---|
| Scripts.RedisServer.Hold | services/booking-service/internal/redis/lua.go:19-41 | The hold script, with its validation and write loops, changes the keyspace and replies exactly as the atomic step `HoldScript`: all or nothing, first failing test first |
| Scripts.RedisServer.CheckAvailable | redis/lua/hold.lua:20-23 | The validation loop reports the first seat that is not AVAILABLE, and none if and only if all are |
| Scripts.RedisServer.Release | services/booking-service/internal/redis/lua.go:44-59 | The release script frees exactly the named seats that carry the hold id, and moves counters and limit by the number of keys regardless |
| Scripts.RedisServer.Commit | services/booking-service/internal/redis/lua.go:62-88 | The booking service's commit script refines the step `CommitScript`: ledger first, then all seats must be HELD by or SOLD to the hold and user |
| Scripts.RedisServer.CheckMine | services/booking-service/internal/redis/lua.go:67-75 | Its validation loop reports the first seat that is neither HELD by nor SOLD to this hold and user |
| Scripts.RedisServer.CommitIdempotent | redis/lua/commit.lua:32-166 | The standalone commit refines `CommitStandalone`: fast path, validation, pure replay, sale with clamped decrement, ledger |
| Scripts.RedisServer.ScanSeats | redis/lua/commit.lua:74-107 | The validation loop stops with the error the first offending seat calls for, and its count of sold seats reaches the number of keys if and only if all are SOLD |
| Scripts.RedisServer.MoveHeldToSold | redis/lua/commit.lua:146-154 | The clamped move takes no more out of held than it has, and adds all of `need` to sold |
| Redis.SeatError | redis/lua/commit.lua:75-107 | A seat passes the standalone validation if and only if it is HELD by or SOLD to this hold and user, the condition of the booking service's script |
| Effects.HoldAnswers | services/booking-service/internal/redis/lua.go:20-30 | Which test a refused hold failed first, if and only if for each answer; the seat it names is the first one not AVAILABLE; it is granted if and only if the counters, the limit and all seats allow it, and otherwise nothing changes |
| Effects.HoldEffect | services/booking-service/internal/redis/lua.go:31-40 | A granted hold writes holder, hold id and expiry to exactly its seats, moves available, held and its user's limit by their number, keeps a record, and changes nothing else, field by field |
| Effects.ReleaseEffect | services/booking-service/internal/redis/lua.go:44-59 | A release frees exactly the named seats that carry its hold id, keeps their sale data, moves counters and its user's limit by the number of names and drops the record |
| Effects.ReleaseUndoesHold | services/booking-service/internal/redis/lua.go:19-59 | Releasing a hold just granted on free seats restores seats, counters, limits and records: the two scripts are inverse |
| Effects.CommitAnswers | services/booking-service/internal/redis/lua.go:62-75 | The ledger answers first; then a sale is made if and only if every seat is HELD or SOLD with this hold id and user; otherwise the first seat that is not is named with its status, and nothing changes |
| Effects.CommitEffect | services/booking-service/internal/redis/lua.go:76-88 | A sale stamps exactly the HELD ones of its seats, takes their TTLs, moves held to sold, and writes the ledger in both directions |
| Effects.ScanErrorIs | redis/lua/commit.lua:74-107 | Which of the five errors the validation stops with, read off the first offending seat, the hold record and whether a sold seat came before |
| Effects.ClampedMoveIs | redis/lua/commit.lua:146-154 | Held falls by the number of seats but not below 0, sold rises by all of it |
| Effects.StandaloneAnswers | redis/lua/commit.lua:39-142 | The standalone script's answers in the order of its tests: arguments, inventory, ledger in both directions, first offending seat, replay, sale; refused and fast-path calls change nothing |
| Effects.StandaloneEffect | redis/lua/commit.lua:127-164 | A standalone sale stamps buyer, time and version on exactly the HELD ones of its seats, clears their expiry, and writes the ledger only with an order id |
| Protocol.TakesIff | services/booking-service/internal/redis/lua.go:20-30 | Holds are granted and commits sell if and only if tests on the keyspace before the call are met; otherwise holds are refused |
| Protocol.OnlyHeldExpireAlways | services/booking-service/internal/redis/lua.go:33-51 | In every state of every run a seat key carries a TTL exactly while the seat is HELD |
| Protocol.SoldUntilReleased | services/booking-service/internal/redis/lua.go:27-89 | A sold seat stays sold to the same hold and user until a release names that hold and that seat, whatever else runs or expires |
| Protocol.NoDoubleSale | services/booking-service/internal/redis/lua.go:27-89 | In every run: if two commits of different holds both sell a seat, a release with the first hold's id and that seat ran between them |
| Protocol.SeatSoldToOneHold | services/booking-service/internal/redis/lua.go:61-89 | In every run that never releases a committed hold, each seat is sold to at most one hold |
| Protocol.CountersAddUpToQuota | services/booking-service/internal/redis/lua.go:35-36 | Whatever the callers do, available + held + sold = quota in a state of a run if and only if no standalone commit was clamped on the way to it |
| Protocol.ApplyKeepsBalance | redis/lua/commit.lua:144-154 | One step keeps available + held + sold = quota if and only if it is not a standalone commit that passes its tests and finds held below the number of seats |
| Protocol.MissingUntilSeeded | services/booking-service/internal/redis/lua.go:27-33 | In every run a missing seat stays missing, and every hold that names it is refused, until a seeding names it |
| Seeding.Seed | redis/seed.lua:27-115 | The seeding script refines `SeedScript`: argument checks, inventory creation or growth, creation of the missing seats, and its counts of created and skipped seats |
| Seeding.SeedLoop | redis/seed.lua:78-101 | The creation loop creates exactly the names that have no seat, and counts those it created and those it skipped |
| Seeding.PadNumber | redis/seed.lua:82-83 | The padding loop yields the decimal number with leading zeros up to the width |
| Seeding.SeatNameInjective | redis/seed.lua:75-86 | Two seat names are equal if and only if number and printed width are |
| Seeding.NamesAreDistinct | redis/seed.lua:81-86 | One seeding call names every seat once |
| Seeding.NamesOverlap | redis/seed.lua:75-86 | With equal pad widths a smaller seeding names a subset of a larger one's seats; with different ones they have no name in common |
| Seeding.SeedingComposes | redis/seed.lua:38-101 | On every store, seeding q1 and then q2 >= q1 with one pad width is seeding q2 |
| Seeding.SeatsAfterTwoSeedings | redis/seed.lua:74-101 | Two seedings of a fresh category leave exactly q2 seats with one pad width and q1 + q2 across two |
| Seeding.SeedingComposesIff | redis/seed.lua:38-101 | On a fresh category seeding twice agrees with seeding once if and only if the pad widths agree |
| SeatNames.PadWidthIff | redis/seed.lua:75-76 | Within the script's bound of 50000 seats numbers are four digits wide below 10000 and five from there on |
| SeatNames.NumberOfSeat | redis/seed.lua:81-84 | The printed number of the i-th seat has only digits, exactly that width, and the value i |
| SeatNames.SeedingComposesBelow | redis/seed.lua:75-101 | So growing a category is the same as seeding it at once if and only if it does not pass from below 10000 seats to 10000 or more |
| SeatNames.NamesMeetIff | redis/seed.lua:82-86 | Two seats of any two calls share a key if and only if event, category, prefix, number and width agree, for event ids without a closing brace and category ids without a colon |
| SeatNames.ColonsLetNamesMeet | redis/seed.lua:84-86 | With a colon in a category id two categories share seats |
| SeatNames.BracesLetNamesMeet | redis/seed.lua:84-86 | With a closing brace in an event id two events share seats |
| SeatNames.SeedAnswers | redis/seed.lua:27-33 | The first argument found wrong decides the answer, and such a call changes nothing |
| SeatNames.SeedEffect | redis/seed.lua:38-115 | A call creates a free seat of version 1 for exactly its missing names, counts both kinds up to the quota, lifts quota and available seats by the same amount, and changes no other seat, counter or key |
| Accounting.HoldIsExact | services/booking-service/internal/redis/lua.go:23-36 | A hold under a new id keeps counters and seats in agreement if and only if it is refused or names no seat twice |
| Accounting.ReleaseIsExact | services/booking-service/internal/redis/lua.go:45-58 | A release, of whatever hold and seats, keeps everything in agreement if and only if the hold is open and the list is as long as the hold is large and has every seat that still carries its id, or it is an empty release of a hold that is neither open nor committed |
| Accounting.CommitOfBought | services/booking-service/internal/redis/lua.go:64-84 | Committing a committed hold again is accepted, without selling anything, exactly by the booking script, for the hold's user and any of its seats, after the ledger entry is gone |
| Accounting.SaleIsExact | services/booking-service/internal/redis/lua.go:67-84 | A commit that sells for an open hold keeps everything in agreement if and only if it names each of the hold's seats once |
| Accounting.CommitIsExact | services/booking-service/internal/redis/lua.go:62-88 | A commit with either script, of whatever hold and seats, keeps everything in agreement if and only if it sells nothing, by tests readable before the call, or is that of an open hold and names each of its seats once |
| Accounting.SeedIsExact | redis/seed.lua:51-101 | Re-seeding keeps everything in agreement if and only if it names as many seats as the quota says and brings back none that expired under an open hold |
| Accounting.ExpiryKeepsCounters | services/booking-service/internal/redis/lua.go:32-36 | An expiring seat moves from the HELD seats to the expired seats of its open hold, so that the held counter still covers it |
| Inventory.DisciplineIsExact | services/booking-service/internal/redis/lua.go:19-89 | In a consistent state a call under a new hold id or with at least one seat, whatever else it names, leads to a consistent state if and only if it is disciplined |
| Inventory.ConsistentAlways | services/booking-service/internal/redis/lua.go:19-89 | Under the discipline seats, holds, ledger and counters agree in every state of every run, expirations included |
| Inventory.ConsistentExactly | services/booking-service/internal/redis/lua.go:19-89 | A run stays in agreement up to a point if and only if it was disciplined up to it |
| Inventory.CountersAgreeWithSeats | services/booking-service/internal/redis/lua.go:35-36 | From any freshly stocked category: sold counts the SOLD seats, held the HELD seats and the expired seats of unreleased holds, available the AVAILABLE seats and the expired seats of released ones, and they sum to the quota |
| Inventory.CountersAddUp | services/booking-service/internal/redis/lua.go:54-55 | The counters of a consistent state are non-negative and add up to the number of seats ever seeded |
| Inventory.NeverFalselySoldOut | services/booking-service/internal/redis/lua.go:20-30 | A hold of different seats that are all AVAILABLE is granted or meets the user's limit; SOLD_OUT never refuses it |
| Inventory.AvailableIsHoldableIff | services/booking-service/internal/redis/lua.go:46-55 | In a consistent state the available counter is at least the number of AVAILABLE seats, and equal to it if and only if every missing seat expired under a hold still open |
| Inventory.ExpiredSeatIsCounted | redis/lua/release.lua:5-14 | A run: a seat is held, expires and is released, is counted as available and is gone |
| Inventory.ClampLiftsCounters | redis/lua/commit.lua:146-154 | A run: a release under another hold id moves the counter, and the standalone commit of the seat is clamped and lifts the counters above the quota |
| Inventory.OpeningIsConsistent | redis/seed.lua:40-101 | What the seeding script makes of an empty store is a stock of as many different seats as the quota says, and consistent |
| Inventory.GrowthIsDisciplined | redis/seed.lua:51-63 | Growing a category within its pad width meets the re-seeding rule, so available + held + sold = quota survives growth between holds and commits |
| Limits.ReleaseLimitIsExact | services/booking-service/internal/redis/lua.go:56-57 | Releasing an open hold keeps every limit counter right if and only if it names the user of the hold and as many seats as the hold has |
| Limits.UserNeverExceedsMaximum | services/booking-service/internal/redis/lua.go:24-37 | In every state of a disciplined run the limit counter is the total size of the user's unreleased holds, and the user's HELD and SOLD seats never exceed the maximum |
| CommitScripts.CommitsAgreeIff | redis/lua/commit.lua:50-164 | For every store, on a call with fresh order id the two commit scripts agree on seats, counters, ledger and reply if and only if it is not an accepted call that finds all seats sold or held below their number |
| CommitScripts.DisciplinedCommitsAgree | redis/lua/commit.lua:109-154 | In a consistent state neither the clamp nor the already-sold case occurs, so the scripts agree on every disciplined commit |
| CommitScripts.ScriptsAreInterchangeable | redis/lua/commit.lua:50-158 | In a disciplined run any of the booking script's commits may be run by the standalone script: all states stay alike and all replies the same |
| CommitScripts.ReplayReplies | redis/lua/commit.lua:109-117 | A standalone commit over seats sold to its hold and user answers ALREADY_COMMITTED, changes nothing but the ledger, and links the order to the hold again |
| CommitScripts.ReplayIsIdempotent | redis/lua/commit.lua:50-117 | So does every replay at any later point of any run in which those seats were not released, whatever else ran or expired, the ledger entries included |
| Booking.BookingService.HandleHold | services/booking-service/internal/handler/hold.go:54-128 | The handler changes Redis and tables and answers as `Serve`: idempotency, seat count, script, reservation row |
| Booking.BookingService.HandleCommit | services/booking-service/internal/handler/commit.go:48-130 | The handler changes Redis and tables and answers as `Serve`: seats of the request or else of the row, script, order row |
| Booking.BookingService.HandleRelease | services/booking-service/internal/handler/release.go:44-101 | The handler refines `Serve`: it releases with the row's own user and seats, only for the owner, and deletes the row unless an order refers to it, as `ReleaseAnswers` and `ReleaseRequestEffect` state without it |
| Booking.BookingService.ParseSeats | services/booking-service/internal/handler/hold.go:108-113 | The loop keeps the seat ids that parse, in canonical form and in order |
| Booking.BookingService.ExpiredReservations | services/booking-service/internal/store/postgres.go:119-134 | The query yields expired rows only, each once, at most the limit, and all of them when fewer |
| Booking.BookingService.DeleteReservation | services/booking-service/internal/store/postgres.go:114-117 | The row goes unless an order refers to its hold (sql/001_schema.sql:93) |
| Booking.BookingService.SweepOnce | services/booking-service/internal/handler/release.go:140-171 | One sweep releases the rows of some batch of expired rows, in order, whatever became of their holds |
| Answers.ReleaseAnswers | services/booking-service/internal/handler/release.go:44-66 | NOT FOUND, FORBIDDEN and released, each if and only if: without a row; for a caller who is given and is not the row's user; otherwise. In the first two cases store and tables stay as they are |
| Answers.ReleaseNeedsOwner | services/booking-service/internal/handler/release.go:54-60 | If a release request changes store or tables, its caller is absent or the row's user |
| Answers.ReleaseRequestEffect | services/booking-service/internal/handler/release.go:62-101 | A release frees the row's seats that carry the hold, lowers the limit of the row's user by the row's seats, and drops the row if and only if no order refers to it |
| Answers.HoldRequestAnswers | services/booking-service/internal/handler/hold.go:54-105 | Every answer if and only if: idempotent replay, seat count against the maximum, no inventory, sold out, limit against the same maximum, first seat taken, created; only the last changes anything |
| Answers.HoldRequestEffect | services/booking-service/internal/handler/hold.go:107-115 | A created hold is mirrored under its id with user, parsed seats and expiry, unless the id has a row |
| Answers.CommitRequestAnswers | services/booking-service/internal/handler/commit.go:48-118 | Every answer if and only if, about the client's seats or the row's when it names none; a paid one runs the script on these seats and adds exactly their order under key and user |
| Answers.EmptyListMeansRow | services/booking-service/internal/handler/commit.go:57-70 | A commit request without seats does exactly what the same request with the row's seats does |
| Answers.MirrorOfParts | services/booking-service/internal/handler/hold.go:107-113 | Seat ids are read back one by one and in order, those that do not parse left out |
| Answers.SweptTables | services/booking-service/internal/handler/release.go:140-171 | A sweep deletes exactly the rows of its batch that have no order, and no order |
| Answers.SweepTakesExpired | services/booking-service/internal/store/postgres.go:119-134 | A sweep keeps every unexpired row and deletes at most the limit; when fewer were due, no expired row without an order is left |
| Answers.SweptSeats | services/booking-service/internal/handler/release.go:72-101 | A sweep frees exactly the seats that a row of its batch names and that carry its hold; every other seat is as it was |
| Answers.SweptLimits | services/booking-service/internal/handler/release.go:72-101 | A sweep lowers every user's limit by the seats that the user's own rows in the batch name, and moves counters from held to available only |
| Answers.ForeignKeyAlways | sql/001_schema.sql:93 | In every run each order's hold keeps its row |
| Answers.ForeignKeyUnderInterleaving | services/booking-service/internal/store/postgres.go:33-79 | The same for every interleaving of script calls and table statements, none of which changes or removes an order |
| Service.MirrorIsFaithful | services/booking-service/internal/handler/hold.go:80-115 | The reservation row names the seats of its hold if and only if every seat id of the request was canonical |
| Service.UnparsedLeaveNothing | services/booking-service/internal/handler/hold.go:108-115 | A row names no seat if and only if no seat id of the request parses |
| Service.RequestIsExact | services/booking-service/internal/handler/commit.go:55-118 | Every request with a new hold id keeps seats, counters, rows and orders in agreement if and only if it is good: a granted hold names different seats that the row mirrors, a commit that sells names each seat of an open hold once, one answered as paid orders only seats of its hold, a released hold is not committed |
| Service.RequestKeepsConsistency | services/booking-service/internal/handler/commit.go:72-99 | Every request with a new hold id keeps seats and counters in agreement if and only if the script call it leads to, if any, is disciplined |
| Service.AnyListIsPaid | services/booking-service/internal/handler/commit.go:55-130 | A commit request that names any seats its open hold still has is answered PAID, and keeps the agreement if and only if it names each of the hold's seats once |
| Service.PartialAndRepeatedListsArePaid | services/booking-service/internal/handler/commit.go:55-130 | Naming one of two held seats, or the held seat twice, is answered PAID and breaks the agreement |
| Service.PartOfHoldIsSold | services/booking-service/internal/handler/commit.go:55-130 | From a stock of two seats: after a hold of both, a commit request for one is answered PAID and breaks the agreement |
| Service.OneOrderIff | services/booking-service/internal/handler/commit.go:48-118 | A request leaves every hold with at most one order if and only if it is not a commit request under a new idempotency key, for a hold with a row and an order, whose ledger entry lives or whose named seats are all HELD by or SOLD to it |
| Service.OneOrderExactly | services/booking-service/internal/handler/commit.go:48-118 | Over any run of requests, sweeps and expirations every hold has at most one order if and only if no request of the run ordered again |
| Service.OwnOrdersIff | services/booking-service/internal/handler/commit.go:77-118 | A request keeps every order with the user of its hold if and only if it is not a commit request answered as paid for another user's hold |
| Service.OwnOrdersExactly | services/booking-service/internal/handler/commit.go:77-118 | Over any run of requests, sweeps and expirations all orders are of their holds' users if and only if no request of the run ordered for another |
| Service.AnotherUserIsPaid | services/booking-service/internal/handler/commit.go:91-130 | In a consistent state such a request is served from the ledger: it is answered PAID, adds an order and leaves the store as it is |
| Service.SeatInOneOrder | services/booking-service/internal/store/postgres.go:41-79 | In every good run in which no request orders again no seat is in two paid orders |
| Service.StockedTablesAgree | services/booking-service/internal/store/postgres.go:33-79 | A freshly stocked category with empty tables is a state of agreement |
| Service.SweepIsExact | services/booking-service/internal/store/postgres.go:119-134 | A sweep over any batch of rows keeps seats and counters in agreement if and only if no row belongs to a committed hold |
| Service.AgreementAlways | services/booking-service/internal/handler/release.go:72-102 | In every state of a run of good requests, good sweeps and expirations from a state of agreement seats, counters, rows and orders agree |
| Service.AgreementExactly | services/booking-service/internal/handler/release.go:140-171 | A run of requests, sweeps and expirations from a state of agreement stays in agreement up to a point if and only if it was good up to it |
| Interleaving.UninterruptedIsServe | services/booking-service/internal/handler/commit.go:48-130 | A handler whose script call and table statement follow each other directly does what it does in one step |
| Interleaving.UninterruptedIsSweep | services/booking-service/internal/handler/release.go:149-169 | So does a sweep |
| Interleaving.PieceIsExact | services/booking-service/internal/handler/release.go:72-92 | A script call or a table statement, of whatever handler and with whatever it read before, keeps seats, counters and tables in agreement if and only if it is fit: disciplined, a row of its hold's seats, an order of a committed hold's seats, or without effect |
| Interleaving.InterleavingExactly | services/booking-service/internal/handler/release.go:140-171 | Any interleaving of handlers and sweeps stays in agreement up to a point if and only if all pieces up to it were fit |
| Interleaving.LateReleaseIsExact | services/booking-service/internal/handler/release.go:44-62 | A release whose row was read at an earlier point of the run keeps the agreement if and only if its hold is still open when the script runs |
| Interleaving.ReadTogetherReleasedTwice | services/booking-service/internal/handler/release.go:44-62 | Of two releases that read the row of one open hold before either ran, the second frees no seat, counts all the hold's seats as available once more and breaks the agreement |
| Service.SweptSaleIsResold | services/booking-service/internal/handler/release.go:149-161 | After one sweep over the row of a bought seat, that seat is sold to another user; both have a paid order for it |
| Service.ReleasedSaleIsResold | services/booking-service/internal/handler/release.go:54-67 | After its owner released the paid hold of a seat, that seat is sold to another user; both have a paid order for it |
| Service.RepeatedCommitOrdersAgain | services/booking-service/internal/handler/commit.go:91-118 | A request that orders again is answered PAID and adds one more order of its hold, without any change to the store while the ledger entry lives |
| Shuffle.ShuffleInPlace | edge/waiting-room/src/index.ts:337-344 | The in-place loop leaves in the array the order the draws describe |
| Shuffle.ShuffledPermutes | edge/waiting-room/src/index.ts:337-344 | The result is a permutation of the input, for all draws |
| Shuffle.DrawsAreDetermined | edge/waiting-room/src/index.ts:337-344 | For distinct elements different draws give different orders |
| Shuffle.ShuffleIsBijective | edge/waiting-room/src/index.ts:337-344 | For distinct elements every permutation is produced by exactly one vector of draws j in 0..i |
| Shuffle.ShuffledEnds | edge/waiting-room/src/index.ts:337-344 | The last place gets the element its draw names, and the others are shuffled after the swap by the other draws |
| WaitingRoom.WaitingRoomWorker.TokenBucketConsume | edge/waiting-room/src/index.ts:299-333 | The bucket refills by elapsed time up to one second's worth, refuses or charges, and stores the level either way, as `Consume` |
| TokenBucket.RetryHintIsLeast | edge/waiting-room/src/index.ts:319-326 | A refused request within capacity succeeds after d ms without other callers if and only if d is at least the retry hint |
| TokenBucket.TooMuchNeverSucceeds | edge/waiting-room/src/index.ts:300-326 | A request for more than the capacity is refused in every state at every time |
| TokenBucket.RateBound | edge/waiting-room/src/index.ts:314-333 | Over any stretch of calls, lost states included, the tokens charged number at most rate + rate * t / 1000 |
| TokenBucket.ForgettingChangesNoVerdict | edge/waiting-room/src/index.ts:304-332 | Refused calls, and losing the state after its 120 s lifetime, change no later verdict: all are those of a bucket that ignores refusals and never loses state |
| TokenBucket.ConsumeIs | edge/waiting-room/src/index.ts:293-334 | The level is the stored one plus the rate for each millisecond since, at most a second's worth, which missing state stands for; a call is allowed if and only if it covers the need, and only then takes it |
| WaitingRoom.WaitingRoomWorker.HandleJoin | edge/waiting-room/src/index.ts:426-455 | A join enters the active queue and leaves the pool, or enters the pool before the sale, keeps a member who is already there, and reports the 1-based position |
| WaitingRoom.WaitingRoomWorker.FindMember | edge/waiting-room/src/index.ts:432-436 | The search finds the first position of a member, and -1 if and only if there is none |
| WaitingRoom.WaitingRoomWorker.RemoveMember | edge/waiting-room/src/index.ts:438-441 | The filter keeps everyone but the member, in order |
| WaitingRoom.WaitingRoomWorker.MaybeShufflePool | edge/waiting-room/src/index.ts:753-765 | A pool becomes the active queue in shuffled order exactly if it is not empty and the active queue is; `EveryOrderOnce` says what shuffled means |
| WaitingRoom.WaitingRoomWorker.HandleAdmit | edge/waiting-room/src/index.ts:605-690 | Admission shuffles if due, charges the bucket for what it will take, and pops that many smallest scores, as `Admit` |
| Lottery.SaleOpens | edge/waiting-room/src/index.ts:753-765 | A pool without a queue becomes the queue: the shuffled members with consecutive scores from the clock on, watermark 0, bucket kept; otherwise nothing changes |
| Lottery.EveryOrderOnce | edge/waiting-room/src/index.ts:753-765 | For every order of a pool exactly one vector of draws makes it the queue |
| Lottery.DrawIsFair | edge/waiting-room/src/index.ts:337-344 | In every reachable state in which a sale opens, by its start or by the first admission: for every order of the pool exactly one vector of draws has it served in that order, behind those admitted before |
| Lottery.JoinEffect | edge/waiting-room/src/index.ts:424-455 | A join reaches the queue, behind as many as wait, if there is one or the sale has started, and leaves the pool; before that it reaches the pool under its score; nobody enters twice |
| Lottery.PositionIsPlace | edge/waiting-room/src/index.ts:424-455 | A join reports the member's place, counted from 1, in the sorted queue or pool it reached |
| Lottery.AdmissionTakes | edge/waiting-room/src/index.ts:616-660 | An admission takes the batch, at most 2000 and at most those waiting, or as many as these allow without a batch, from the front, and charges and counts as many, or nobody at all |
| Lottery.QueueIsEmptyIff | edge/waiting-room/src/index.ts:617-626 | Nobody is found waiting if and only if pool and queue are empty |
| Queue.SortIsStableSort | edge/waiting-room/src/index.ts:433 | Sorting by score yields a sorted permutation in which entries of one score keep their order |
| Queue.HallInvAlways | edge/waiting-room/src/index.ts:424-453 | In every state of every run pool and active queue are duplicate-free, disjoint and sorted; pool, active queue and admissions together are the effective joins; every active score is below clock + length + debt |
| Queue.EmptyHallIsOrderly | edge/waiting-room/src/index.ts:424-453 | Runs start in an empty room |
| Queue.MoveLosesNobody | edge/waiting-room/src/index.ts:671-690 | Whoever is in the active queue is still there after any move or was admitted by it |
| Queue.WatermarkCountsAdmissions | edge/waiting-room/src/index.ts:679-690 | Between two shuffles, which reset it (lines 757-763), the watermark grows by exactly the number of users admitted |
| Queue.NoDebtFreesTail | edge/waiting-room/src/index.ts:432 | At debt 0 nobody in the active queue scores higher than a newcomer |
| Queue.MoveKeepsLine | edge/waiting-room/src/index.ts:424-453 | A move overtakes nobody, admitted or waiting, if and only if it is not a newcomer's arrival in front of a higher score |
| Queue.FirstComeFirstServed | edge/waiting-room/src/index.ts:671-677 | In a run whose newcomers find the tail free, the order of service only ever grows at its end |
| Queue.PositionIsExact | edge/waiting-room/src/index.ts:436-455 | In such a run, whoever stands behind p others is the (p+1)-th to be admitted from then on |
| Queue.PositionExactly | edge/waiting-room/src/index.ts:436-455 | In every run, whoever stands behind p others, and in front of whom n newcomers were put while waiting, is the (p+n+1)-th to be admitted from then on, so that the position was exact if and only if n is 0 |
| Queue.ReportedPosition | edge/waiting-room/src/index.ts:430-436 | A newcomer is told the end of the queue if and only if nobody waiting scores higher |
| Queue.OvertakingAfterShuffle | edge/waiting-room/src/index.ts:757-763 | A newcomer within the millisecond of a call that shuffled and admitted k users overtakes exactly the last k - 1 who wait, or all if fewer |
| Queue.AdmissionsAreRateBounded | edge/waiting-room/src/index.ts:629-677 | Between any two states of any run the users admitted number at most rate + rate * t / 1000 |
| Queue.OversizedBatchNeverAdmits | edge/waiting-room/src/index.ts:629-640 | An admission call that asks for more users than the rate is refused in every state |
| Tickets.TicketNFT.Mint | contracts/TicketNFT.sol:51-80 | Minting succeeds and changes the NFT exactly as `MintTicket`: token ids count up from 0, the ceiling is 120% rounded down |
| Tickets.TicketNFT.Cancel | contracts/TicketNFT.sol:83-90 | Cancelling burns an existing ticket for the owner of the contract and leaves the seat's entry behind |
| Tickets.TicketNFT.SetKYCVerified | contracts/TicketNFT.sol:93-97 | The registry or the owner sets or clears one user's verification, nobody else anything |
| Tickets.TicketNFT.SetCeiling | contracts/TicketNFT.sol:124-128 | The owner sets the ceiling of an existing ticket to at least its face value, and nothing else changes |
| Tickets.TicketNFT.BeforeTokenTransfer | contracts/TicketNFT.sol:133-159 | The hook refuses locked tickets and recipients without the required KYC, and locks the ticket when anyone but its original owner gives it away |
| Tickets.TicketNFT.Transfer | contracts/TicketNFT.sol:133-159 | A transfer needs owner or approval, runs the hook, and changes nothing when refused |
| Tickets.TicketMarketplace.ListForSale | contracts/TicketMarketplace.sol:65-79 | Listing moves the ticket into escrow at a price of at most the ceiling, or reverts |
| Tickets.TicketMarketplace.Unlist | contracts/TicketMarketplace.sol:82-93 | Delisting by the seller or the market's owner returns the ticket to the seller, or reverts |
| Tickets.TicketMarketplace.Purchase | contracts/TicketMarketplace.sol:97-123 | A purchase credits seller and owner as `PriceIsSplit` states, moves the ticket, ends the listing and refunds the rest, or reverts |
| Tickets.TicketMarketplace.SetRoyaltyBps | contracts/TicketMarketplace.sol:135-138 | The owner sets the royalty to at most 10000 basis points |
| Tickets.TicketMarketplace.Withdraw | contracts/TicketMarketplace.sol:140-142 | A withdrawal takes the whole credit of its payee out of the escrow, if the escrow covers it |
| Resale.InvAlways | contracts/TicketMarketplace.sol:65-123 | In every state of every run a listed ticket that exists is in escrow, and is locked if and only if its seller is not its original owner |
| Resale.LockedNeverMoves | contracts/TicketNFT.sol:147-156 | A locked ticket stays with its holder for ever, unless it is burned, and then for good |
| Resale.ResoldAtMostOnce | contracts/TicketNFT.sol:133-159 | In every run: after a transfer by someone other than the original owner a ticket never changes hands again |
| Resale.EscrowFreesOnce | contracts/TicketMarketplace.sol:82-123 | In every run escrow releases each ticket at most once, by purchase or delisting |
| Resale.BuySucceedsIff | contracts/TicketMarketplace.sol:97-120 | A purchase of a listing succeeds if and only if the ticket exists, its seller is the original owner, KYC and payment suffice and the refund is accepted |
| Resale.DelistSucceedsIff | contracts/TicketMarketplace.sol:82-93 | A delisting succeeds if and only if the ticket exists, its seller is the original owner with the required KYC, and the caller is seller or market owner |
| Resale.ListedByAnotherStays | contracts/TicketMarketplace.sol:65-93 | A ticket listed by anyone but its original owner stays in escrow until it is burned |
| Resale.ListedAndStuck | contracts/TicketMarketplace.sol:65-93 | From deployment: a ticket changes hands, its new owner lists it, and both purchase and delisting fail |
| Resale.CappedIff | contracts/TicketNFT.sol:124-128 | A transaction keeps every listed price within its ticket's ceiling if and only if it is not the owner's change of a listed ticket's ceiling to at least its face value and below its price |
| Resale.CappedExactly | contracts/TicketNFT.sol:124-128 | A run keeps prices within the ceilings up to a point if and only if there was no such change up to it |
| Resale.BoughtAboveCeiling | contracts/TicketNFT.sol:124-128 | From deployment: mint at 100, list at 120, tighten to 100, and a purchase at 120 succeeds |
| Resale.CappedAlways | contracts/TicketMarketplace.sol:62-79 | In every run without such a tightening every purchase pays at most the ceiling |
| Resale.PaymentsConserved | contracts/TicketMarketplace.sol:97-142 | In every run the ether sent with successful buys equals refunds + withdrawals + credits, the escrow backs the credits, and royalty never exceeds price |
| Resale.BuySplitsPrice | contracts/TicketMarketplace.sol:103-115 | A purchase changes everyone's credit by exactly the seller's part and the royalty (which `PriceIsSplit` fixes by inequalities), delivers the ticket and ends the listing |
| Settlement.PriceIsSplit | contracts/TicketMarketplace.sol:103-109 | For a sale at `price` by another than the market's owner, the owner gains r with 10000 r <= price * rate < 10000 (r + 1) and the seller price - r; nobody else gains, the escrow gains the price |
| Settlement.OnlyTradesPay | contracts/TicketMarketplace.sol:103-142 | No transaction but purchases and withdrawals touches credits or escrow |
| Settlement.WithdrawPays | contracts/TicketMarketplace.sol:140-142 | A withdrawal takes the payee's whole credit out of the escrow and changes nothing else |
| Settlement.BuyDelivers | contracts/TicketMarketplace.sol:111-115 | A purchase hands the ticket to the buyer, ends the listing and touches no other token or listing |
| Settlement.ListSucceedsIff | contracts/TicketMarketplace.sol:65-79 | Exactly which listings succeed, and that the market then holds the ticket and offers it for its owner at the price |
| Settlement.DelistReturns | contracts/TicketMarketplace.sol:82-93 | A delisting, by seller or owner, hands the ticket back to the seller and ends the listing |
| Settlement.RateIsSet | contracts/TicketMarketplace.sol:135-138 | The royalty rate changes only by its owner, to at most the whole price; all else stays |
| Settlement.MintRecords | contracts/TicketNFT.sol:51-80 | Exactly which mints succeed, and the whole record: seat, face value, KYC flag, original owner, unlocked, and a ceiling c with 100 c <= 120 * faceValue < 100 (c + 1) |
| Settlement.CancelBurns | contracts/TicketNFT.sol:83-90 | The owner alone burns an existing ticket, whose seat stays taken |
| Settlement.KycIsSet | contracts/TicketNFT.sol:93-97 | Registry or owner alone set one user's flag, either way |
| Settlement.CeilingIsSet | contracts/TicketNFT.sol:124-128 | The owner alone sets an existing ticket's ceiling to no less than its face value, and nothing else |
| Settlement.TransferMovesIff | contracts/TicketNFT.sol:133-159 | Exactly which transfers succeed by owner, approval, lock and KYC flag of the receiver; the ticket is locked if and only if the giver is not its original owner, and its approval ends |
| Resale.WithdrawalsAlwaysPaid | contracts/TicketMarketplace.sol:140-142 | No withdrawal is refused for lack of funds, and it leaves no credit |
| Resale.SeatHasOneToken | contracts/TicketNFT.sol:59-76 | In every run two tokens minted for one seat include token 0 |
| Resale.OneTokenIff | contracts/TicketNFT.sol:59-76 | A transaction leaves every seat with at most one token if and only if it is not a valid mint by the owner for the seat whose entry is token 0 |
| Resale.OneTokenExactly | contracts/TicketNFT.sol:59-76 | Over any run every seat has at most one token if and only if there was no such mint |
| Resale.FirstSeatMintedTwice | contracts/TicketNFT.sol:59-76 | From deployment: two mints of one seat succeed and leave it with tokens 0 and 1 |
| Resale.MintSucceedsIff | contracts/TicketNFT.sol:59-76 | A valid mint succeeds if and only if no token other than 0 was ever minted for the seat |
| Resale.DeployedIsSound | contracts/TicketMarketplace.sol:56-59 | Freshly deployed contracts satisfy all the invariants |
| Staking.CrowdTicToken.StakeTokens | contracts/CrowdTicLaunch.sol:37-49 | Staking claims, moves the tokens to the contract and restarts the lock, within the supply cap, or reverts |
| Staking.CrowdTicToken.UnstakeTokens | contracts/CrowdTicLaunch.sol:52-66 | Unstaking after the lock claims and pays back as `UnstakePays` states, or reverts |
| Staking.CrowdTicToken.ClaimReward | contracts/CrowdTicLaunch.sol:69-83 | A claim mints the reward rounded down and moves the time stamp only if it pays |
| Staking.CrowdTicToken.AirdropTokens | contracts/CrowdTicLaunch.sol:91-101 | An airdrop mints every amount, or reverts on mismatched lengths or beyond the supply cap |
| Staking.SolventAlways | contracts/CrowdTicLaunch.sol:37-66 | In every state of every run totalStaked is the sum of the stakes and the contract's balance covers it |
| Staking.UnstakeSucceedsIff | contracts/CrowdTicLaunch.sol:52-66 | An unstake succeeds if and only if the amount is positive, staked and unlocked; lack of funds is never a reason |
| Staking.ClaimRelocksIff | contracts/CrowdTicLaunch.sol:57-83 | Claiming locks an unlocked stake again if and only if it pays anything |
| Staking.StakeSucceedsIff | contracts/CrowdTicLaunch.sol:37-49 | A stake succeeds if and only if the amount is positive, fits under the cap with supply and stakes, and is covered by balance and pending reward |
| Staking.CapKeptIff | contracts/CrowdTicLaunch.sol:37-101 | A transaction keeps the supply within MAX_SUPPLY if and only if it is not a claim, or a stake or unstake that its guards let through, with a pending reward the cap has no room for; none lowers the supply |
| Staking.CapExactly | contracts/CrowdTicLaunch.sol:37-101 | Over any run the supply is within MAX_SUPPLY if and only if there was no such transaction |
| Staking.CapIsPassed | contracts/CrowdTicLaunch.sol:29-83 | From deployment: stake everything, wait 20000 seconds, claim, and the supply exceeds MAX_SUPPLY |
| Staking.ScheduleYield | contracts/CrowdTicLaunch.sol:69-83 | For a constant stake, claims of which k paid yield with what is pending at most the single-claim reward and at least that minus k |
| Staking.DeployedIsSolvent | contracts/CrowdTicLaunch.sol:29-32 | The token is solvent after deployment, with 5 million tokens |
| Payouts.PendingIs | contracts/CrowdTicLaunch.sol:69-74 | The pending reward p satisfies 10^18 p <= stake * seconds * 1157407407407407 < 10^18 (p + 1) |
| Payouts.ClaimPays | contracts/CrowdTicLaunch.sol:76-87 | A claim mints exactly the pending reward to its user and restarts the period if and only if it is more than nothing; no other account changes |
| Payouts.StakeTakes | contracts/CrowdTicLaunch.sol:37-49 | A stake moves the amount from its user, reward paid first, to the contract, adds it to stake and total and sets the stamp to now; no other account changes |
| Payouts.UnstakePays | contracts/CrowdTicLaunch.sol:52-66 | An unstake in a solvent state raises the user's balance by pending reward and amount, lowers contract balance and stake by the amount; no other account changes |
| Payouts.StakeComesBack | contracts/CrowdTicLaunch.sol:37-66 | An amount staked can be unstaked if and only if 30 days passed, and then everybody has what they had, the user with the reward of the time on top |
| Payouts.AirdropPays | contracts/CrowdTicLaunch.sol:91-101 | Exactly which airdrops succeed, and that every account then has all its entries more, and the supply their sum |
| Rlp.EncodeList | services/booking-service/internal/blockchain/sign.go:75-84 | The list encoder yields its header and the concatenated item encodings, whose form `EncodingIsCanonical` and `LongListReadsAsString` fix |
| Rlp.DecodeEncode | services/booking-service/internal/blockchain/sign.go:113-132 | A decoder recovers every encoded byte string and whatever follows it |
| Bytes.BigEndianIsShortest | services/booking-service/internal/blockchain/sign.go:126-131 | No big-endian form of a number is shorter than the encoder's, and no other is as short |
| Rlp.EncodeIsShortest | services/booking-service/internal/blockchain/sign.go:113-132 | Whatever the decoder reads as a byte string is at least as long as its encoding, and equal to it if as long: the encoder's form is the one shortest |
| Rlp.EncodingIsCanonical | services/booking-service/internal/blockchain/sign.go:75-132 | The same for all fields together: of the texts that decode to them, theirs is the one shortest |
| Rlp.DecodeAllEncodeAll | services/booking-service/internal/blockchain/sign.go:75-79 | A concatenation of any number of encoded byte strings decodes to exactly these |
| Rlp.FieldsAreDetermined | services/booking-service/internal/blockchain/sign.go:69-79 | Two field lists have the same concatenated encoding if and only if they are equal |
| Rlp.LongListReadsAsString | services/booking-service/internal/blockchain/sign.go:80-83 | A list header is in the list range if and only if the payload has at most 55 bytes, and then is 0xc0 plus their number; a longer list is the encoding of its payload as a byte string |
| Rlp.QuantityIsEncodedIff | services/booking-service/internal/blockchain/sign.go:88-97 | A quantity printed in hex is encoded as itself if and only if it is 0 or has an even number of digits; otherwise as 0 |
| Rlp.HexDecodesIff | services/booking-service/internal/blockchain/sign.go:93-97 | A text decodes if and only if it is an even number of hex digits, then to one byte for each two |
| Rlp.HexValueIff | services/booking-service/internal/blockchain/sign.go:93-93 | Hex digits are read in either case, and nothing else is one |
| Rlp.HexOfIsMinimal | services/booking-service/internal/blockchain/sign.go:86-97 | A printed quantity has no leading zeros, so the parity that decides is that of its size |
| Base64Url.EncodeBuffer | edge/waiting-room/src/index.ts:84-92 | The loop over the buffer, btoa and the replacements yield `Encode` of its bytes |
| Base64Url.DecodeToBytes | edge/waiting-room/src/index.ts:94-101 | Padding, atob and the copying loop yield the decoded bytes in a fresh buffer, or nothing when atob throws |
| Base64Url.DecodeEncode | edge/waiting-room/src/index.ts:84-101 | Decoding undoes encoding for all bytes (section 5 of RFC 4648) |
| Base64Url.EncodeIsStandard | edge/waiting-room/src/index.ts:84-91 | The encoder is the standard's: one character for each six bits, the last completed by zeros, each the one of the URL alphabet at their value, without padding |
| Base64Url.DecodesIff | edge/waiting-room/src/index.ts:93-100 | A text without padding decodes if and only if it has only digits of either alphabet and not one more than a multiple of four |
| Base64Url.EncodeHasNoStop | edge/waiting-room/src/index.ts:91 | No encoded text contains a full stop |
| QueueToken.SignedHasThreeParts | edge/waiting-room/src/index.ts:131-138 | A signed token splits into exactly its three parts (section 7.1 of RFC 7515) |
| QueueToken.ReadSigned | edge/waiting-room/src/index.ts:147-160 | Reading a signed token under its secret gives back its claims |
| QueueToken.ReadUnderOtherSecret | edge/middleware.ts:67-84 | Under another secret it is read if and only if the two secrets give the same MAC on its text |
| QueueToken.ReadIsAuthentic | edge/waiting-room/src/index.ts:146-161 | A token is read if and only if it has three parts, the last decodes to the MAC of the other two as they stand, and the second decodes and parses |
| QueueToken.PoliciesCompare | edge/waiting-room/src/index.ts:162-170 | For any payload, issued here or not: asked for the same issuer and audience, the waiting room accepts it if and only if the middleware would on any route and it has a token id |
| QueueToken.AcceptedThroughout | edge/waiting-room/src/index.ts:162-167 | For any payload, acceptance lasts from then on up to 5 seconds after its expiry, or without end if it has none |
| QueueToken.WorkerAcceptsIssued | edge/waiting-room/src/index.ts:141-170 | Whatever the token was issued with and the verifier is asked for, it accepts exactly for iat - 5 <= now <= exp + 5, named token id, user and event, and the issuer and audience asked for, if any |
| QueueToken.MiddlewareAcceptsIssued | edge/middleware.ts:182-238 | The middleware accepts it exactly in that window, for the issuer and audience it expects, with user and event named, on a route of no other event, with its jti stored, absent or no store; without a secret it lets everything pass |
| QueueToken.JtiOutlivesWindow | edge/waiting-room/src/index.ts:704-706 | The stored jti entry is present throughout the window |
| QueueToken.VerifiersAgree | edge/middleware.ts:123-238 | With matching configuration both verifiers agree on every issued token at every moment |

## Left out

- Several events and categories at once, and with them the event tag of the keys and `EVENT_ID_REQUIRED`: the keyspace is that of one category.
- HTTP parsing, CORS, cookies, redirects, NATS publishing, audit logging, metrics, RPC polling, start-up: no state worth proving.
- Booking.BookingService.HandleCommit: does not model a failing order insert, which is answered with 202 after Redis has committed; database calls succeed.
- Booking.BookingService.HandleRelease: does not model a failing script call, after which the handler keeps the row.
- Booking.BookingService.SweepOnce: a release script call that fails is not modelled; the reaper then deletes the row all the same.
- Service.AgreementAlways: each handler is one step there; Interleaving takes the handlers apart, but leaves a script call and a single table statement whole.
- Limits.UserNeverExceedsMaximum: assumes that limit keys do not expire and that all holds use one maximum.
- TokenBucket.RateBound: levels are exact, where the code computes in IEEE doubles.
- TokenBucket.RetryHintIsLeast: as above; the code's hint may be off by rounding.
- WaitingRoom.WaitingRoomWorker.HandleAdmit: the admission secret, fractional batches, the watermark's lifetime and the loop that issues tokens are not part of the method; issued tokens are the subject of QueueToken.
- WaitingRoom.WaitingRoomWorker.HandleJoin: input checks, Turnstile, rate limits by address and fingerprint, and random fractional scores are not modelled; the pre-sale score is a parameter.
- The Upstash branch of the waiting room, which runs several commands that are not atomic, and lost updates between overlapping key-value handlers.
- The status endpoint of the waiting room, which issues tokens up to the watermark outside the bucket, and the scheduled sweep over pools.
- Seeding.Seed: fractional quotas, the price and the event's meta hash are not modelled.
- Scripts.RedisServer.CommitIdempotent: the sale time is a parameter; the script falls back to the server's clock when none is given.
- Tickets.TicketMarketplace.Purchase: asks whether the refund is accepted before the transfer, because a revert after it undoes the payments.
- Tickets.TicketNFT.Mint: metadata, `eventMinted` and the recipient's callback of a safe mint are not modelled.
- Staking.CrowdTicToken.ClaimReward: overflow of the reward product, ERC-20 allowances and transfers of ownership are not modelled.
- Resale.PaymentsConserved: a payee that refuses its withdrawal is not modelled; its credit would stay.
- IdentityRegistry, ABI encoding, transaction signing, the read service, payment worker, frontend and deployment scripts: only easy facts, or foreign libraries.
- Base64Url.DecodeToBytes: `atob`'s skipping of white space is not modelled.
- The booking service's own middleware that checks queue tokens with a JWT library.
