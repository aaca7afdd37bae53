/** The repositories and the usecase as objects, updated in place and called one
    request at a time. */
module Services {
  import opened Entities
  import opened Store
  import opened AtomicSpec
  import opened Protocol
  import opened Batches
  import opened Promises
  import L = Listing

  datatype RepoError = KeyExists | NoSuchRow | Refused

  /** The two tables of the disbursement repository. */
  class DisbursementRepository {
    var rows: map<Id, Row>
    var keys: map<string, KeyRow>

    constructor ()
      ensures State() == EMPTY_TABLES
    {
      rows := map[];
      keys := map[];
    }

    function State(): Tables
      reads this
    {
      Tables(rows, keys)
    }

    method Create(d: Disbursement) returns (err: Option<RepoError>)
      modifies this`rows
      ensures err == if Insertable(old(State()), d) then None else Some(Refused)
      ensures State() == if Insertable(old(State()), d) then InsertRow(old(State()), d) else old(State())
    {
      if d.id in rows || d.amount < MIN_AMOUNT || !TextFits(d) {
        return Some(Refused);
      }
      rows := rows[d.id := Row(d, None)];
      return None;
    }

    /** Both inserts or none: a refused disbursement takes its key row back out. */
    method CreateWithIdempotency(d: Disbursement, idem: KeyRow) returns (err: Option<RepoError>)
      modifies this
      ensures match InsertKeyed(old(State()), idem, d)
              case Stored(t) => err == None && State() == t
              case KeyTaken => err == Some(KeyExists) && State() == old(State())
              case RowRefusal => err == Some(Refused) && State() == old(State())
    {
      if |idem.key| > KEY_WIDTH {
        return Some(Refused);
      }
      if idem.key in keys {
        return Some(KeyExists);
      }
      var before := keys;
      keys := keys[idem.key := idem];
      err := Create(d);
      if err != None {
        keys := before;
      }
    }

    method FindByID(id: Id) returns (found: Option<Disbursement>)
      ensures found == FindLive(State(), id)
    {
      if id in rows && rows[id].deletedAt == None {
        return Some(rows[id].d);
      }
      return None;
    }

    /** The conditional write: nothing happens unless the row is live and pending. */
    method UpdateStatus(id: Id, status: Status, note: string, actor: string, at: Time)
      returns (affected: nat, err: Option<RepoError>)
      modifies this`rows
      ensures match CasStatus(old(State()), id, status, note, actor, at)
              case Affected(t, n) => err == None && affected == n && State() == t
              case WriteRefused => err == Some(Refused) && State() == old(State())
    {
      if id !in rows || rows[id].deletedAt != None || rows[id].d.status != Pending {
        return 0, None;
      }
      if |note| > NOTE_WIDTH {
        return 0, Some(Refused);
      }
      var values := rows[id].d.(status := status, approvedBy := Some(actor), updatedAt := at);
      if note != "" {
        values := values.(note := note);
      }
      rows := rows[id := Row(values, None)];
      return 1, None;
    }

    method SoftDelete(id: Id, at: Time) returns (affected: nat)
      modifies this`rows
      ensures Affected(State(), affected) == Store.SoftDelete(old(State()), id, at)
    {
      if id !in rows || rows[id].deletedAt != None || rows[id].d.status != Pending {
        return 0;
      }
      rows := rows[id := rows[id].(deletedAt := Some(at))];
      return 1;
    }

    /** The query is narrowed filter by filter, counted, then cut to one page. */
    method FindAll(f: L.Filter) returns (page: seq<Disbursement>, total: int)
      requires f.limit >= 0
      ensures total == |L.Listed(rows, f)|
      ensures page == L.PageOf(L.Listed(rows, f), f.page, f.limit)
    {
      var query := set id | id in rows && rows[id].deletedAt == None;
      if f.search != "" {
        query := set id | id in query && L.Like(rows[id].d.recipientName, "%" + f.search + "%");
      }
      if f.status != "" {
        query := set id | id in query && L.StatusName(rows[id].d.status) == f.status;
      }
      if f.dateFrom.Day? {
        query := set id | id in query && rows[id].d.createdAt >= f.dateFrom.n * L.DAY;
      }
      if f.dateTo.Day? {
        query := set id | id in query && rows[id].d.createdAt < (f.dateTo.n + 1) * L.DAY;
      }
      assert forall id :: id in query <==> id in rows && L.Matches(rows[id], f);
      assert query == L.Selected(rows, f);
      total := |query|;
      var ids := L.Ordered(rows, f, query);
      page := L.PageOf(L.RowsOf(rows, ids), f.page, f.limit);
    }

    method FindIdempotencyKey(key: string) returns (found: Option<KeyRow>)
      ensures found == FindKey(State(), key)
    {
      if key in keys {
        return Some(keys[key]);
      }
      return None;
    }

    method DeleteIdempotencyKey(key: string)
      modifies this`keys
      ensures State() == DeleteKey(old(State()), key)
    {
      keys := keys - {key};
    }
  }

  /** The audit table, which may be out of order. */
  class AuditLogRepository {
    var logs: seq<AuditEntry>
    var available: bool

    constructor ()
      ensures logs == [] && available
    {
      logs := [];
      available := true;
    }

    method Create(entry: AuditEntry) returns (ok: bool)
      modifies this`logs
      ensures ok == available
      ensures logs == old(logs) + if available then [entry] else []
    {
      if available {
        logs := logs + [entry];
      }
      ok := available;
    }
  }

  /** The insert of either round settles the request as its atomic action does, or
      finds the row that the first round left. */
  lemma InsertSettles(t0: Tables, t: Tables, op: Op, ttl: Time, at: Time)
    requires op.KeyedCreate? && op.keyIsUuid
    requires || t == t0
             || (Keyed(op) && op.key in t0.keys && Expired(t0.keys[op.key], op.stamp.now) && t == DeleteKey(t0, op.key))
    ensures match InsertKeyed(t, KeyRowFor(op, ttl), Draft(op.req, op.stamp))
            case Stored(t') => Atomic(t0, op, ttl, at) == Effect(t', Answer(None, Created(Draft(op.req, op.stamp))))
            case RowRefusal => Atomic(t0, op, ttl, at) == Refuse(t, Internal(RowRefused))
            case KeyTaken => t == t0 && Keyed(op)
  {
    if op.key !in t0.keys {
      assert DeleteKey(t0, op.key) == t0;
    }
    var idem := KeyRowFor(op, ttl);
    assert (t0.keys - {op.key})[op.key := idem] == t0.keys[op.key := idem];
  }

  class DisbursementUsecase {
    const repo: DisbursementRepository
    const auditRepo: AuditLogRepository
    const idemTtl: Time

    constructor (repo: DisbursementRepository, auditRepo: AuditLogRepository, idemTtl: Time)
      ensures this.repo == repo && this.auditRepo == auditRepo && this.idemTtl == idemTtl
    {
      this.repo := repo;
      this.auditRepo := auditRepo;
      this.idemTtl := idemTtl;
    }

    /** A failed audit write is dropped. */
    method WriteAudit(entry: AuditEntry)
      modifies auditRepo`logs
      ensures auditRepo.logs == old(auditRepo.logs) + if auditRepo.available then [entry] else []
    {
      var ok := auditRepo.Create(entry);
    }

    /** The request a create call stands for: without a key header it is unkeyed. */
    static function CreateOp(req: CreateRequest, key: string, keyIsUuid: bool, userId: string, digest: string,
                             stamp: Stamp): Op
    {
      if key == "" then PlainCreate(req, stamp) else KeyedCreate(req, stamp, key, keyIsUuid, userId, digest)
    }

    /** The object carried out `op` as one atomic action, and logged it if it could. */
    twostate predicate Performed(op: Op, at: Time, out: Outcome)
      reads this, repo, auditRepo
    {
      var e := Atomic(old(repo.State()), op, idemTtl, at);
      && repo.State() == e.t
      && out == e.answer.outcome
      && auditRepo.available == old(auditRepo.available)
      && auditRepo.logs == old(auditRepo.logs) + if auditRepo.available then EntriesFor(op, e.answer) else []
    }

    /** The two-round loop comes to one look-up-or-create: without a key header a
        storable request is created; with a key that is a UUID and fits its column, a
        row of the key that is not expired is replayed or rejected, and an absent or
        expired one replaced together with the creation. */
    method Create(req: CreateRequest, key: string, keyIsUuid: bool, userId: string, digest: string, stamp: Stamp)
      returns (out: Outcome)
      modifies repo, auditRepo`logs
      ensures Performed(CreateOp(req, key, keyIsUuid, userId, digest, stamp), stamp.now, out)
      ensures key == "" ==> repo.keys == old(repo.keys) && (out.Created? || out == Internal(RowRefused))
      ensures key != "" && !keyIsUuid ==> out == BadRequest && repo.keys == old(repo.keys)
      ensures key != "" && keyIsUuid && |key| > 36 ==> out == Internal(RowRefused) && repo.keys == old(repo.keys)
      ensures key != "" && keyIsUuid && |key| <= 36 ==>
                if key in old(repo.keys) && stamp.now <= old(repo.keys)[key].expiresAt then
                  && repo.keys == old(repo.keys)
                  && (if old(repo.keys)[key].userId == userId && old(repo.keys)[key].digest == digest
                      then out == Replayed(old(repo.keys)[key].body) else out == KeyMismatch)
                else if out.Created? then
                  repo.keys == old(repo.keys)[key := KeyRow(key, userId, digest, out.d, stamp.now + idemTtl, stamp.now)]
                else
                  out == Internal(RowRefused) && repo.keys == old(repo.keys) - {key}
      ensures out == Internal(RowRefused) && |key| <= 36 ==>
                || stamp.id in old(repo.rows) || req.amount < 10_000
                || |req.recipientName| > 255 || |req.accountNumber| > 50 || |req.bankCode| > 20 || |req.note| > 500
      ensures out.Created? ==>
                && stamp.id !in old(repo.rows) && req.amount >= 10_000
                && |req.recipientName| <= 255 && |req.accountNumber| <= 50 && |req.bankCode| <= 20 && |req.note| <= 500
                && out.d == Disbursement(stamp.id, req.recipientName, req.accountNumber, req.bankCode, req.amount,
                                         if req.amount >= 5_000_000 then 5000 else 2500, req.note, Pending,
                                         stamp.actor, None, stamp.now, stamp.now)
      ensures repo.rows == if out.Created? then old(repo.rows)[stamp.id := Row(out.d, None)] else old(repo.rows)
      ensures auditRepo.logs == old(auditRepo.logs)
                + if out.Created? && auditRepo.available
                  then [AuditEntry(stamp.id, stamp.actor, CreatedAs(out.d))] else []
    {
      CreateWritesRow(repo.State(), CreateOp(req, key, keyIsUuid, userId, digest, stamp), idemTtl, stamp.now);
      PlainCreateAnswers(repo.State(), req, stamp, idemTtl, stamp.now);
      KeyedCreateAnswers(repo.State(), req, stamp, key, keyIsUuid, userId, digest, idemTtl, stamp.now);
      var d := Draft(req, stamp);
      if key == "" {
        var err := repo.Create(d);
        if err != None {
          return Internal(RowRefused);
        }
        WriteAudit(CreatedEntry(stamp.actor, d));
        return Created(d);
      }
      if !keyIsUuid {
        return BadRequest;
      }
      var idem := KeyRow(key, userId, digest, d, stamp.now + idemTtl, stamp.now);
      for round := 0 to ROUNDS
        invariant auditRepo.logs == old(auditRepo.logs)
        invariant round == 0 ==> repo.State() == old(repo.State())
        invariant round > 0 ==> |key| <= KEY_WIDTH && key in old(repo.keys) && Expired(old(repo.keys)[key], stamp.now)
        invariant round > 0 ==> repo.State() == DeleteKey(old(repo.State()), key)
        invariant round < 2
      {
        InsertSettles(old(repo.State()), repo.State(), CreateOp(req, key, keyIsUuid, userId, digest, stamp),
                      idemTtl, stamp.now);
        var err := repo.CreateWithIdempotency(d, idem);
        if err == None {
          WriteAudit(CreatedEntry(stamp.actor, d));
          return Created(d);
        }
        if err != Some(KeyExists) {
          return Internal(RowRefused);
        }
        assert round == 0;
        var existing := repo.FindIdempotencyKey(key);
        match existing {
          case None => return Internal(RowMissing);
          case Some(row) =>
            if stamp.now > row.expiresAt {
              repo.DeleteIdempotencyKey(key);
              continue;
            }
            if row.userId != userId || row.digest != digest {
              return KeyMismatch;
            }
            return Replayed(row.body);
        }
      }
      return RetryConflict;
    }

    /** Items one by one: an invalid or refused item fails alone. */
    method CreateBatch(items: seq<BatchItem>) returns (results: seq<BatchItemResult>)
      modifies repo, auditRepo`logs
      ensures var r := RunBatch(old(repo.State()), items, 0);
              && repo.State() == r.t && results == r.results
              && BatchOk(old(repo.State()), items, r)
              && auditRepo.logs == old(auditRepo.logs) + if auditRepo.available then r.log else []
    {
      results := [];
      ghost var done := RunBatch(old(repo.State()), [], 0);
      for i := 0 to |items|
        invariant done == RunBatch(old(repo.State()), items[..i], 0)
        invariant repo.State() == done.t && results == done.results
        invariant auditRepo.logs == old(auditRepo.logs) + if auditRepo.available then done.log else []
      {
        var item := items[i];
        assert items[..i + 1][..i] == items[..i] && items[..i + 1][i] == item;
        done := ItemRun(done, item, i);
        if !ValidItem(item.req) {
          results := results + [Failed(i, InvalidItem)];
          continue;
        }
        var d := Draft(item.req, item.stamp);
        var err := repo.Create(d);
        if err != None {
          results := results + [Failed(i, NotStored)];
          continue;
        }
        WriteAudit(CreatedEntry(item.stamp.actor, d));
        results := results + [BatchItemResult(i, true, Some(d), None)];
      }
      assert items[..|items|] == items;
      BatchIsPartial(old(repo.State()), items);
    }

    /** The caller's filter object is normalised in place. */
    method List(filter: L.DisbursementFilter) returns (answer: L.ListAnswer)
      modifies filter
      ensures filter.f == L.Normalized(old(filter.f))
      ensures filter.f.limit >= 0 && answer == L.ListSpec(repo.rows, filter.f)
      ensures answer.ListRefused? <==>
                || filter.f.status !in {"", "PENDING", "APPROVED", "REJECTED"}
                || filter.f.dateFrom.BadDate? || filter.f.dateTo.BadDate?
                || (filter.f.dateFrom.Day? && filter.f.dateTo.Day? && filter.f.dateFrom.n > filter.f.dateTo.n)
      ensures answer.ListRows? ==>
                && answer.total == |L.Listed(repo.rows, filter.f)|
                && answer.rows == L.PageOf(L.Listed(repo.rows, filter.f), filter.f.page, filter.f.limit)
      ensures answer.ListRows? ==> L.InOrder(answer.rows, filter.f.sortBy, filter.f.sortOrder)
      ensures old(filter.f.sortBy) == "" && old(filter.f.sortOrder) == "" && answer.ListRows? ==>
                L.InOrder(answer.rows, "created_at", "desc")
    {
      L.NormalizedWords(filter.f);
      filter.Normalize();
      L.NormalizedIsSafeAndStable(old(filter.f));
      var f := filter.f;
      L.ListSpecMeans(repo.rows, f);
      if f.status != "" && f.status != "PENDING" && f.status != "APPROVED" && f.status != "REJECTED" {
        return L.ListRefused;
      }
      if f.dateFrom.BadDate? || f.dateTo.BadDate? {
        return L.ListRefused;
      }
      if f.dateFrom.Day? && f.dateTo.Day? && f.dateFrom.n > f.dateTo.n {
        return L.ListRefused;
      }
      var rows, total := repo.FindAll(f);
      return L.ListRows(rows, total);
    }

    method UpdateStatus(id: Id, target: string, note: string, actor: string, at: Time) returns (out: Outcome)
      modifies repo, auditRepo`logs
      ensures Performed(Op.UpdateStatus(id, target, note, actor), at, out)
      ensures if target != "APPROVED" && target != "REJECTED" then out == BadRequest
              else if id !in old(repo.rows) || old(repo.rows)[id].deletedAt != None then out == NotFound
              else if old(repo.rows)[id].d.status != Pending then out == AlreadyFinal(old(repo.rows)[id].d.status)
              else if |note| > 500 then out == Internal(RowRefused)
              else
                && out.Updated?
                && out.d == old(repo.rows)[id].d.(status := if target == "APPROVED" then Approved else Rejected,
                                                  note := if note == "" then old(repo.rows)[id].d.note else note,
                                                  approvedBy := Some(actor),
                                                  updatedAt := at)
                && auditRepo.logs == old(auditRepo.logs)
                     + if auditRepo.available
                       then [AuditEntry(id, actor, StatusChanged(Pending, old(repo.rows)[id].d.note,
                                                                 out.d.status, out.d.note, actor))]
                       else []
      ensures repo.rows == if out.Updated? then old(repo.rows)[id := Row(out.d, None)] else old(repo.rows)
      ensures repo.keys == old(repo.keys)
      ensures !out.Updated? ==> auditRepo.logs == old(auditRepo.logs)
    {
      StatusChangeAnswers(repo.State(), id, target, note, actor, idemTtl, at);
      var status := TargetStatus(target);
      if status == None {
        return BadRequest;
      }
      var found := repo.FindByID(id);
      if found == None {
        return NotFound;
      }
      var current := found.value;
      if current.status != Pending {
        return AlreadyFinal(current.status);
      }
      var affected, err := repo.UpdateStatus(id, status.value, note, actor, at);
      if err != None {
        return Internal(RowRefused);
      }
      if affected == 0 {
        return LostRace;
      }
      var updated := repo.FindByID(id);
      if updated == None {
        return Internal(RowMissing);
      }
      WriteAudit(StatusEntry(id, actor, current, updated.value));
      return Updated(updated.value);
    }

    method Delete(id: Id, actor: string, at: Time) returns (out: Outcome)
      modifies repo, auditRepo`logs
      ensures Performed(Op.Delete(id, actor), at, out)
      ensures if id !in old(repo.rows) || old(repo.rows)[id].deletedAt != None then out == NotFound
              else if old(repo.rows)[id].d.status != Pending then out == NotPending
              else
                && out == Deleted
                && repo.rows == old(repo.rows)[id := Row(old(repo.rows)[id].d, Some(at))]
                && auditRepo.logs == old(auditRepo.logs)
                     + if auditRepo.available then [AuditEntry(id, actor, DeletedFrom(Pending))] else []
      ensures repo.keys == old(repo.keys)
      ensures out != Deleted ==> repo.rows == old(repo.rows) && auditRepo.logs == old(auditRepo.logs)
    {
      DeleteAnswers(repo.State(), id, actor, idemTtl, at);
      var found := repo.FindByID(id);
      if found == None {
        return NotFound;
      }
      var current := found.value;
      if current.status != Pending {
        return NotPending;
      }
      var affected := repo.SoftDelete(id, at);
      if affected == 0 {
        return LostRace;
      }
      WriteAudit(DeletedEntry(id, actor, current));
      return Deleted;
    }
  }

  class DisbursementHandler {
    const usecase: DisbursementUsecase

    constructor (usecase: DisbursementUsecase)
      ensures this.usecase == usecase
    {
      this.usecase := usecase;
    }

    /** The pagination is built from the page and limit the usecase normalised, so
        it speaks of the page that was read. */
    method List(filter: L.DisbursementFilter) returns (answer: L.ListAnswer, pagination: L.Pagination)
      modifies filter
      ensures filter.f == L.Normalized(old(filter.f))
      ensures filter.f.limit >= 0 && answer == L.ListSpec(usecase.repo.rows, filter.f)
      ensures answer.ListRows? ==>
                && pagination.total == answer.total
                && pagination.page == filter.f.page && pagination.perPage == filter.f.limit
                && pagination == L.NewPagination(answer.total, pagination.page, pagination.perPage)
    {
      answer := usecase.List(filter);
      L.NormalizedIsSafeAndStable(old(filter.f));
      pagination := L.NewPagination(0, 1, 1);
      if answer.ListRows? {
        pagination := L.NewPagination(answer.total, filter.f.page, filter.f.limit);
      }
    }

    /** The response code of a batch says whether all, some or none of its items
        were created. */
    method CreateBatch(items: seq<BatchItem>) returns (code: int, results: seq<BatchItemResult>)
      modifies usecase.repo, usecase.auditRepo`logs
      ensures var r := RunBatch(old(usecase.repo.State()), items, 0);
              && usecase.repo.State() == r.t && results == r.results
      ensures code in {201, 207, 400}
      ensures |results| == |items|
      ensures code == 400 <==> forall i :: 0 <= i < |results| ==> !results[i].success
      ensures code == 201 <==> items != [] && forall i :: 0 <= i < |results| ==> results[i].success
    {
      results := usecase.CreateBatch(items);
      code := ResponseCode(results);
    }
  }
}
