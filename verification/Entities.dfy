/** The entities of the disbursement service: rows, idempotency keys, requests,
    responses and audit entries. Identifiers are numbers (only compared), time is
    counted in whole ticks, and the bytes of a cached response are represented by
    the value they decode to. */
module Entities {

  datatype Option<+T> = None | Some(value: T)

  type Id = nat
  type Time = int

  const MIN_AMOUNT: int := 10_000
  const FEE_THRESHOLD: int := 5_000_000

  // the widths of the text columns, in characters
  const NAME_WIDTH: nat := 255
  const ACCOUNT_WIDTH: nat := 50
  const BANK_WIDTH: nat := 20
  const NOTE_WIDTH: nat := 500
  const KEY_WIDTH: nat := 36

  datatype Status = Pending | Approved | Rejected

  datatype Disbursement = Disbursement(
    id: Id,
    recipientName: string,
    accountNumber: string,
    bankCode: string,
    amount: int,
    adminFee: int,
    note: string,
    status: Status,
    createdBy: string,
    approvedBy: Option<string>,
    createdAt: Time,
    updatedAt: Time)

  /** A stored disbursement; `deletedAt` is the soft-delete column. */
  datatype Row = Row(d: Disbursement, deletedAt: Option<Time>)

  /** A stored idempotency key; `body` is the response it caches. */
  datatype KeyRow = KeyRow(
    key: string,
    userId: string,
    digest: string,
    body: Disbursement,
    expiresAt: Time,
    createdAt: Time)

  datatype CreateRequest = CreateRequest(
    recipientName: string,
    accountNumber: string,
    bankCode: string,
    amount: int,
    note: string)

  /** What a create draws from its surroundings: a new id, the caller's name, the clock. */
  datatype Stamp = Stamp(id: Id, actor: string, now: Time)

  /** One request as it reaches the usecase. `digest` is the hash of `req`;
      `keyIsUuid` says whether the key header parses. */
  datatype Op =
    | PlainCreate(req: CreateRequest, stamp: Stamp)
    | KeyedCreate(req: CreateRequest, stamp: Stamp, key: string, keyIsUuid: bool, userId: string, digest: string)
    | UpdateStatus(id: Id, target: string, note: string, actor: string)
    | Delete(id: Id, actor: string)

  /** The error wrapped in a 500 response. */
  datatype Cause =
    | DbFault      // the call itself failed
    | RowMissing   // a row that was expected is not there
    | RowRefused   // the table refused the new row or the new values

  datatype Outcome =
    | Created(d: Disbursement)
    | Replayed(d: Disbursement)
    | Updated(d: Disbursement)
    | Deleted
    | BadRequest
    | NotFound
    | KeyMismatch
    | RetryConflict
    | AlreadyFinal(status: Status)
    | NotPending
    | LostRace
    | Internal(cause: Cause)

  /** The `before` and `after` documents of an audit entry, by action. */
  datatype Change =
    | CreatedAs(d: Disbursement)
    | StatusChanged(fromStatus: Status, fromNote: string, toStatus: Status, toNote: string, approvedBy: string)
    | DeletedFrom(status: Status)

  datatype AuditEntry = AuditEntry(entityId: Id, actor: string, change: Change)

  /** The texts of a request fit the columns they are stored in. */
  predicate TextFits(d: Disbursement)
  {
    && |d.recipientName| <= NAME_WIDTH
    && |d.accountNumber| <= ACCOUNT_WIDTH
    && |d.bankCode| <= BANK_WIDTH
    && |d.note| <= NOTE_WIDTH
  }

  function CalculateAdminFee(amount: int): int
  {
    if amount >= FEE_THRESHOLD then 5000 else 2500
  }

  /** The disbursement a create request stands for. */
  function Draft(req: CreateRequest, stamp: Stamp): Disbursement
  {
    Disbursement(stamp.id, req.recipientName, req.accountNumber, req.bankCode,
                 req.amount, CalculateAdminFee(req.amount), req.note, Pending,
                 stamp.actor, None, stamp.now, stamp.now)
  }

  /** The idempotency row a keyed create prepares before its first insert. */
  function KeyRowFor(op: Op, ttl: Time): KeyRow
    requires op.KeyedCreate?
  {
    KeyRow(op.key, op.userId, op.digest, Draft(op.req, op.stamp), op.stamp.now + ttl, op.stamp.now)
  }

  function TargetStatus(target: string): Option<Status>
  {
    if target == "APPROVED" then Some(Approved)
    else if target == "REJECTED" then Some(Rejected)
    else None
  }

  /** The row values after an approval or a rejection; an empty note keeps the old one. */
  function Decide(d: Disbursement, status: Status, note: string, actor: string, at: Time): Disbursement
  {
    d.(status := status,
       approvedBy := Some(actor),
       updatedAt := at,
       note := if note != "" then note else d.note)
  }

  predicate LivePending(row: Row)
  {
    row.deletedAt.None? && row.d.status.Pending?
  }

  /** `a` and `b` agree on every column no transition may touch. */
  predicate SameOrigin(a: Disbursement, b: Disbursement)
  {
    && a.id == b.id
    && a.recipientName == b.recipientName
    && a.accountNumber == b.accountNumber
    && a.bankCode == b.bankCode
    && a.amount == b.amount
    && a.adminFee == b.adminFee
    && a.createdBy == b.createdBy
    && a.createdAt == b.createdAt
  }

  predicate Expired(row: KeyRow, now: Time)
  {
    now > row.expiresAt
  }

  function CreatedEntry(actor: string, d: Disbursement): AuditEntry
  {
    AuditEntry(d.id, actor, CreatedAs(d))
  }

  function StatusEntry(id: Id, actor: string, current: Disbursement, updated: Disbursement): AuditEntry
  {
    AuditEntry(id, actor,
               StatusChanged(current.status, current.note, updated.status, updated.note, actor))
  }

  function DeletedEntry(id: Id, actor: string, current: Disbursement): AuditEntry
  {
    AuditEntry(id, actor, DeletedFrom(current.status))
  }
}
