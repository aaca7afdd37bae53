# Disbursement service: a verified model

The service creates disbursements, optionally under an idempotency key, approves,
rejects or deletes them, keeps an audit log of what it did, lists them in pages,
and hands out access and refresh tokens. It uses no locks: its guarantees rest on
a primary-key insert inside one transaction, on conditional updates
(`status = 'PENDING'`, `revoked_at IS NULL`), and on a retry loop of two rounds.
This project models that logic in Dafny and proves what those three things do and
do not guarantee when any number of requests interleave.

## How the model is built

- `Entities`, `Store`: the rows, requests, responses and audit entries, and every
  repository call as one function of the tables it finds. gorm's soft delete is
  part of each call: reads and conditional writes see undeleted rows only. The
  primary keys, the amount check and the widths of the text columns are modelled
  (the database is in its strict default mode): an id that is already taken, an
  amount below the minimum, a text or a key wider than its column is a refused
  write, not an assumption.
- `AtomicSpec`: the specification. `Atomic` is a request as one indivisible action;
  a history is a sequence of points (a request settles, sees an expired key row, or
  sweeps a key), legal when each point is what the specification says on the tables
  left by the points before it.
- `Protocol`: the service as it runs. Each request has a program counter; one
  repository call is one step, as the notes on InnoDB in `ARCHITECTURE.md` argue. A
  schedule is any sequence of steps of any requests. Any call may fail without
  effect, or take effect and still report failure; audit writes may fail
  separately. Clocks (`now`, taken once per request) are unconstrained.
- `Linearization`: every run is equivalent to a legal sequential history, with the
  same tables and explained responses, in an order that respects real time. The
  theorems on keys, rows, fees and audit are proved on legal histories, or on
  program counters where the history is not enough, and hold of every run.
- `Idempotency`, `Schedules`, `KeyRows`, `KeyRaces`, `Windows`, `HeldKeys`,
  `VanishedRows`, `Retries`, `Replays`, `Refusals`: the idempotency key.
- `Lifecycle`, `Consistency`, `AuditTrail`: the row, the cache and the ledger, the log.
- `Promises`: what each request promises, in terms of its fields, the columns it finds
  and the response alone.
- `SerialRuns`: requests served one after another.
- `Batches`, `Listing`: batch creation; filter, order and pages, with 64-bit
  wrap-around.
- `Sessions`: login, refresh and logout as concurrent requests.
- `Services`, `Accounts`: the repositories, usecases and the handler as objects
  updated in place, each method proved against the specification above.

A batch in the concurrent model is its items, each an unkeyed create of its own:
the code shares nothing between items but the loop.

## Assumptions

Times are whole ticks. Hashes are values that only get compared; where a theorem
needs the request hash to tell bodies apart it says so. The cached body is the
value it decodes to (the round trip through JSON). A caller's name and user id come
from the users table, whose columns are as wide as those they are copied to, and a
request hash is 64 characters. The results of parsing a key header or a date and of
comparing a password are inputs. The clock passed to a step is the one the call reads.

## Where the code and its documentation disagree

- `ARCHITECTURE.md:7` says a disbursement cannot be created twice under one key.
  What the design means, one creation per key and window, is false: the delete of an
  expired row goes by key alone, so two requests that both read the expired row can
  each create one in the same window, even with equal clocks (`StaleDelete`); and one
  whose clock is behind can create where another has deleted the row.
  `OneCreationPerWindowIff` gives the exact condition, on a key that starts free and on
  one that starts with a row. The exact conditions for at most one creation in a run
  are `FreshKeyCommitsOnceIff` and `HeldKeyCommitsOnceIff`; for deletes that remove the
  row that was read, `SweepsAreHonestIff`.
- The pages of a listing are right exactly while `(page - 1) * limit` fits 64 bits
  or the wrapped offset is past the end (`PageIsRightIff`); `WrappedPage` is a page
  number at which they are not. The announced page count has its own exact condition
  and counterexample (`TotalPagesRightIff`, `WrappedCount`).
- A key with braces or a `urn:uuid:` prefix passes the check for a UUID
  (`internal/usecase/disbursements.go:79`) but is wider than its column, so every
  create under it is answered 500 (`WideKeyIsRefused`); a key that fits is never the
  cause of a refusal (`KeyedCreateRefusedIff`).
- A keyed create whose row is deleted between its failed insert and its read is
  answered 500 although nothing failed. `FreshRowNeverVanishesIff` and
  `HeldRowNeverVanishesIff` say exactly when no schedule can do that.

## Model

| member | source | states |
|---|---|---|
| Linearization.RunIsLinearizable | internal/usecase/disbursements.go:52-292 | Under every schedule and fault pattern the run's history is legal, replaying it one whole action at a time gives the run's tables, and every response without a database fault is the one its action gets at its point; a lost race is a refusal there, a retry conflict or vanished key means the request was never carried out. |
| Linearization.CarriedOutOnce | internal/usecase/disbursements.go:98-134 | No request, retries included, takes effect twice. |
| Linearization.RespectsRealTime | internal/usecase/disbursements.go:52-292 | A request finished before another began comes before it in the sequential history. |
| Linearization.SweepIsLicensed | internal/usecase/disbursements.go:108-118 | A key row leaves the table only by a request that earlier read, under that key, a row expired at its own clock. |
| Idempotency.KeyConservation | internal/repository/disbursements.go:26-37 | For every key and run: creations plus the row present first equal removals of a present row plus the row present now. |
| Idempotency.RemovalBetweenCommits | internal/usecase/disbursements.go:108-118 | Between two creations under one key a row of it was removed, by a request that had read an expired row of it before. |
| Idempotency.OneDisbursementPerWindow | internal/usecase/disbursements.go:98-136 | A key free at the start, no other clock past the first row's expiry: at most one creation in every interleaving, no delete, and every request answers with that one creation (created once, replayed to the same user and hash), a mismatch, or a 500 of its own insert. |
| Refusals.KeyedCreateRefusedIff | internal/usecase/disbursements.go:79-107 | A create whose key parses, which fits the table and carries an id of its own, is refused under no schedule if and only if the key is no wider than its column. |
| Refusals.WideKeyIsRefused | internal/usecase/disbursements.go:79-107 | A create under a key that parses but is wider than its column is, in every run, refused or failed by the database, and writes nothing. |
| KeyRaces.FreshKeyCommitsOnceIff | internal/usecase/disbursements.go:98-134 | A free key yields at most one disbursement under every schedule if and only if no clock is past the expiry that a storable request would set, or only one request can be stored. |
| HeldKeys.HeldKeyCommitsOnceIff | internal/usecase/disbursements.go:98-134 | A key that starts with a row yields at most one new disbursement under every schedule if and only if one request at most can be stored; or one at most is past that row, and nobody is past the expiry a storable request would set, unless only two can be stored and the one past the first row alone is past the other. |
| Windows.OneCreationPerWindowIff | internal/usecase/disbursements.go:98-134 | Every creation under a key is past the windows of all earlier ones, the one whose row the key starts with included, under every schedule, if and only if whenever anybody but a storable request is past a row (the first one of a held key, on a free key those that storable requests would set) that request is past it too, and no other storable one is. |
| Windows.StaleDelete | internal/usecase/disbursements.go:113-118 | Any two storable requests that find the first row expired have a schedule in which both create, the second in the window of the first, whatever their clocks: the counterexample to one creation per key and window. |
| KeyRaces.SweepsAreHonestIff | internal/repository/disbursements.go:127-129 | Deletes by key remove only the row that was read, under every schedule, if and only if no two requests are past one row (the first, or one that a storable request would set) while another can still be stored in between; or the key starts with a row nobody finds expired. |
| VanishedRows.FreshRowNeverVanishesIff | internal/usecase/disbursements.go:108-111 | On a free key no schedule, with faults or without, answers a request that lost its insert with the 500 of a missing row if and only if at most two requests use the key or no clock is past the expiry that a storable one would set. |
| VanishedRows.HeldRowNeverVanishesIff | internal/usecase/disbursements.go:108-111 | On a key that starts with a row, whatever its requests carry: the same if and only if no request with another beside it on the key is past that row. |
| Retries.RetryConflictUnreachable | internal/usecase/disbursements.go:98-136 | If requests inside the loop together on one key have clocks within one lifetime, the final conflict is never answered. |
| Retries.RetryConflictUnreachableIff | internal/usecase/disbursements.go:98-136 | The final conflict is unreachable under every schedule if and only if no clock is past the expiries two storable others would set, nor past both the row the key starts with and a storable other's; or the key starts with a row nobody finds expired. |
| Replays.ReplayAnswersTheRequest | internal/usecase/disbursements.go:120-133 | A replayed response is the pending creation of a request of the same user with the same body, field by field, whose expiry the replaying clock has not passed; or the body of the row the key starts with, of the same user and hash and not expired. |
| Promises.CreatedInRun | internal/usecase/disbursements.go:52-107 | In every run a create answered as created put the row it reports, column by column, under a new id, and with it, for a key, the key row where there was none, expiring a lifetime after its clock. |
| Promises.MismatchInRun | internal/usecase/disbursements.go:120-122 | In every run a mismatch is answered only where an unexpired row of another user or body holds the key. |
| Promises.RefusedInRun | internal/usecase/disbursements.go:218-232 | In every run a status change or delete is turned down only for a status that is none of the two, or where, at one point, the row is missing, deleted or decided, as the response says. |
| Promises.FaultIsOwn | internal/usecase/disbursements.go:52-292 | A database fault is answered only by a request one of whose own calls failed. |
| Promises.WriteSettles | internal/usecase/disbursements.go:236-243 | A write that does not fail changes its row when that is still live and pending, is answered as a lost race when it is not, and as refused when the note is too wide. |
| Lifecycle.OneDecisionPerDisbursement | internal/repository/disbursements.go:87-111 | Among all approvals, rejections and deletes of a disbursement at most one succeeds. |
| Lifecycle.RowsFreeze | internal/repository/disbursements.go:87-111 | Between any two moments of a run rows stay, a decided or deleted row never changes again, and a row still pending has not changed. |
| Lifecycle.StatusChangeReadsAreExact | internal/usecase/disbursements.go:222-260 | A successful status change read the very row its write replaced, by Approved for APPROVED and Rejected for REJECTED, with the caller as approver and the new note unless it is empty; response, audit entry and table state what it wrote, and the row stays so. |
| Lifecycle.RereadFindsOwnWrite | internal/usecase/disbursements.go:245-248 | Whenever a request is about to re-read, the row is there and is what this request wrote. |
| Lifecycle.DeleteReadIsExact | internal/usecase/disbursements.go:264-287 | A successful delete read the row it deleted, and its entry says so in the caller's name. |
| Lifecycle.LostRaceHasWinner | internal/usecase/disbursements.go:240-243 | A lost race is answered only when another request on the same disbursement has taken effect. |
| Consistency.CacheAgreesWithTable | internal/repository/disbursements.go:26-37 | In every reachable state each key row caches the creation snapshot of a stored disbursement with equal immutable columns, no two keys share one, texts fit their columns, an approver is set exactly on approved and rejected rows, and only pending rows are deleted. |
| Consistency.LedgerBalances | internal/usecase/disbursements.go:45-50 | In every run the fees of all rows are 2500 per row plus 2500 per large row, and grow by creations only. |
| AuditTrail.AuditDoesNotInterfere | internal/usecase/disbursements.go:310-316 | Runs that differ only in which audit writes fail have equal tables and responses; the log with failures is part of the log without. |
| AuditTrail.AuditNeverInvents | internal/usecase/disbursements.go:294-317 | Under any faults each entry written is deserved by an effect, and no more often. |
| AuditTrail.AuditNamesCaller | internal/usecase/disbursements.go:294-317 | Under any faults every entry in the log states what one request did, at the point where it was carried out, and names that request's caller. |
| AuditTrail.AuditTellsHistory | internal/usecase/disbursements.go:294-317 | Without failures and all done, the entries of a disbursement, read in any order, give its status, note, approver and deletion; one creation entry, one more iff it is no longer live and pending; the entry of a deletion names the caller of the request that deleted it. |
| SerialRuns.ServedAloneIsAtomic | internal/usecase/disbursements.go:52-137 | From any reachable state a request served alone, for six steps or more without faults, gives the tables, response and entry of its atomic action; the two rounds never run out. |
| SerialRuns.SerialRunIsComposition | internal/usecase/disbursements.go:52-292 | The schedule that serves any requests one after another ends with the tables, the responses and the log of their atomic actions composed. |
| SerialRuns.CreationsSpanLifetimes | internal/usecase/disbursements.go:88-118 | In that schedule, under an advancing clock, the requests answered with a creation under one key are more than a lifetime apart and n of them span n - 1 lifetimes. |
| Services.DisbursementRepository.CreateWithIdempotency | internal/repository/disbursements.go:26-37 | Both inserts or none: a taken key, a key too wide or a refused row leaves both tables as they were. |
| Services.DisbursementRepository.UpdateStatus | internal/repository/disbursements.go:87-103 | The row changes, and one row is affected, iff it is live and pending and the note fits its column; an empty note keeps the old one; a note too wide for a live pending row is refused, for any other row it goes unnoticed. |
| Services.DisbursementRepository.SoftDelete | internal/repository/disbursements.go:105-111 | The row is marked deleted, and one row is affected, iff it is live and pending. |
| Services.DisbursementRepository.FindAll | internal/repository/disbursements.go:53-85 | The narrowed query's size, the search text as a pattern with its wildcards, and the page of its ordered rows at the 64-bit offset. |
| Services.DisbursementUsecase.Create | internal/usecase/disbursements.go:52-137 | From the header, the tables and the response: without a key a request that fits is created, anything else refused, keys untouched; a key that is no UUID is a bad request, one wider than 36 characters refused; a row of the key not expired at the call's clock is replayed to the same user and hash and is a mismatch otherwise; an absent or expired one is replaced together with the creation, or cleared if that is refused. The row, the key row and the log entry are given column by column. |
| Services.DisbursementUsecase.CreateBatch | internal/usecase/disbursements.go:141-185 | The loop equals creating the valid items one by one by the unkeyed create, in results, tables and log, and so keeps what BatchIsPartial says. |
| Services.DisbursementUsecase.List | internal/usecase/disbursements.go:187-203 | Normalises the caller's filter in place, refuses exactly a status that is none of the three, a date that is none, or a range that ends before it starts, and answers the page, in the order of the column and direction asked for, newest first by default, and the total. |
| Services.DisbursementUsecase.UpdateStatus | internal/usecase/disbursements.go:217-261 | APPROVED approves and REJECTED rejects a live pending row, any other word is a bad request; the row gets the caller as approver, the clock, and the note if there is one; a missing, deleted or decided row and a too wide note are refused as such, leaving all as it was; the entry names caller, old and new status and note. |
| Services.DisbursementUsecase.Delete | internal/usecase/disbursements.go:263-292 | A live pending row is marked deleted at the clock and logged in the caller's name; a missing or deleted row is not found, a decided one refused, leaving all as it was. |
| Services.DisbursementUsecase.WriteAudit | internal/usecase/disbursements.go:294-317 | A failing audit write is dropped and changes nothing else. |
| Services.DisbursementHandler.List | internal/handler/disbursements.go:21-33 | The pagination speaks of the page and limit the usecase normalised and read. |
| Services.DisbursementHandler.CreateBatch | internal/handler/disbursements.go:65-96 | 201, 400 or 207 as all, none or some items were created. |
| Batches.BatchIsPartial | internal/usecase/disbursements.go:141-185 | One result per item, index i at position i; an item succeeds iff its texts are given and fit their columns, its amount is 10000 or more and its id is free; the table gains exactly the successes, under distinct ids, with one entry each in the caller's name. |
| Batches.BatchAppends | internal/usecase/disbursements.go:141-185 | A batch of xs and ys is the batch xs followed by the batch ys with shifted indices. |
| Batches.ResponseCode | internal/handler/disbursements.go:79-92 | 400 iff no result is a success, 201 iff there are results and all are. |
| Listing.NormalizedIsSafeAndStable | internal/domain/entity/disbursements.go:81-103 | Whatever came in, page, limit, sort column and direction are within the whitelist, texts are trimmed, and normalising again changes nothing. |
| Listing.NormalizedWords | internal/domain/entity/disbursements.go:81-103 | Field by field: the defaults and bounds; ascending exactly for the word asc in any letter case; texts trimmed, the status in capitals. |
| Listing.TrimSpaceIsMiddle | internal/domain/entity/disbursements.go:99-102 | Trimming drops the spaces at the two ends, all of them, and nothing else. |
| Listing.DisbursementFilter.Normalize | internal/domain/entity/disbursements.go:81-103 | The in-place updates come to the normalised filter: page one, limit 20 and at most 100, created_at and desc by default. |
| Listing.PageIsRightIff | internal/repository/disbursements.go:75-79 | A page is the page asked for iff its offset fits 64 bits or the list ends before the wrapped offset. |
| Listing.WrappedPage | internal/repository/disbursements.go:75-79 | The page number that wraps: page 92233720368547760 of 100 rows, past the end of any list, is answered with the first page. |
| Listing.TotalPagesRightIff | pkg/common/httpresponse/response.go:46-65 | The page count is the ceiling, at least one, iff the sum fits 64 bits or one page holds everything. |
| Listing.PaginationFields | pkg/common/httpresponse/response.go:46-65 | Total, page and size as asked for, page one and ten rows by default, at least one page. |
| Listing.PagesTile | internal/repository/disbursements.go:75-79 | Pages one to the announced count put together are the list; later pages whose offset fits are empty. |
| Listing.ListingTiles | internal/usecase/disbursements.go:187-203 | The responses to pages one to the announced count of one query, put together, are its whole list. |
| Listing.SearchFindsPart | internal/repository/disbursements.go:56-58 | A search text without wildcards selects exactly the names that contain it. |
| Listing.ListedIsComplete | internal/repository/disbursements.go:53-85 | A row is in the list iff it is undeleted, its name matches the pattern, its status is the one asked for, and it was created from the first day to the end of the last. |
| Listing.ListedInOrder | internal/repository/disbursements.go:75-76 | The list goes up or down the amount or the creation time as asked for, and no row is listed twice. |
| Sessions.LoginIsAuthentic | internal/usecase/auth.go:50-81 | In every run a login succeeds only with the right password of a known user, for that user, with a session stored under the hash; it is unauthorised only for an unknown user or a wrong password. |
| Sessions.LogoutIsFinal | internal/usecase/auth.go:83-133 | Once a logout has succeeded, no refresh with that token that starts later succeeds, in any interleaving. |
| Sessions.RevocationIsFinal | internal/repository/auth.go:67-72 | The first revocation time is never overwritten and nothing extends a token's lifetime. |
| Sessions.SessionIsBounded | internal/usecase/auth.go:83-170 | Every access token of a session expires, in whole seconds, within the refresh lifetime plus the access lifetime of the refresh token's issue, plus the time its refresh took between check and signature. |
| Sessions.RefreshHasCheck | internal/usecase/auth.go:83-113 | Behind every successful refresh is a moment in it at which the token was stored, not revoked and not expired. |
| Accounts.AuthRepository.RevokeRefreshToken | internal/repository/auth.go:67-72 | Revokes only a token not yet revoked. |
| Accounts.AuthUsecase.Login | internal/usecase/auth.go:50-81 | A known user with the right password and a new hash is logged in: access token and session are theirs, with the two lifetimes counted from their own clocks; anybody else is unauthorised and stores nothing. It is what a login does alone in the concurrent model. |
| Accounts.AuthUsecase.Refresh | internal/usecase/auth.go:83-114 | A stored token neither revoked nor expired gets its user an access token, any other is unauthorised; the stored tokens stay as they are. It is what a refresh does alone. |
| Accounts.AuthUsecase.Logout | internal/usecase/auth.go:116-133 | A stored token is revoked at the clock unless it was before, an unknown one unauthorised, and nothing else changes. It is what a logout does alone. |
| Accounts.AuthUsecase.GenerateAccessToken | internal/usecase/auth.go:135-148 | The expiry is the last whole second not after the clock plus the access lifetime. |

## Left out

- CreationsSpanLifetimes: asks that clocks on the key do not run backwards from one request to the next, which is what serving them one after another means; a refused create may otherwise clear the key for a request with an older clock.
- FreshKeyCommitsOnceIff: asks that requests on the key carry new, distinct ids, as the id source provides; they need not fit the table. The other exact conditions on a key ask the same, HeldRowNeverVanishesIff alone does not.
- OneCreationPerWindowIff: asks that the lifetime of a key is not negative.
- KeyedCreateRefusedIff: asks that the create fits the table and that no other create carries its id; what is refused otherwise is `Insertable`.
- SweepsAreHonestIff: a row the key starts with caches a stored disbursement, as it does in every reachable state (CacheAgreesWithTable).
- SessionIsBounded: asks that the shared clock does not run backwards and the refresh lifetime is not negative; the time between a refresh's check and its signature is its own parameter.
- ListingTiles: asks for fewer than 2^63 - 100 rows; what happens to the announced count beyond that is TotalPagesRightIff.
- Services.DisbursementUsecase.Create: the objects are called one request at a time and their database calls do not fail; interleavings and faults are in `Protocol`.
- Services.DisbursementRepository.FindAll: ties of the sort column are broken by id so that the order is fixed; the code leaves them to the database.
- Listing.DisbursementFilter.Normalize: as in NormalizedIsSafeAndStable, letters whose other case is outside ASCII too are left as they are; a status or sort direction holding one is none of the known words either way.
- Trailing spaces beyond the width of a text column, which the database cuts off where it refuses anything else.
- Collation of text and key columns (searches that ignore letter case and accents), millisecond rounding of stored times, and time zones.
- The id and time of an audit entry, the response code stored with a key, log lines and error texts.
- JSON, SHA-256, bcrypt, JWT signing and random sources beyond the assumptions above; key headers and dates enter parsed.
- `Detail` reads one undeleted row; the audit listing filters and pages the log as the listing does the disbursements; the other pagination helpers are not used by these handlers.
- Routing, roles, rate limits, middlewares, health checks, configuration, connectors, migrations.
