/** What each request promises, said of its fields, the columns it finds and the
    response alone. */
module Promises {
  import opened Entities
  import opened Store
  import opened AtomicSpec
  import opened Protocol
  import opened Linearization

  // ---------- One action ----------

  /** A create, with a key or without, puts one row in the table, or none. */
  lemma CreateWritesRow(t: Tables, op: Op, ttl: Time, at: Time)
    requires op.PlainCreate? || op.KeyedCreate?
    ensures var e := Atomic(t, op, ttl, at);
            var req, stamp, out := op.req, op.stamp, e.answer.outcome;
            && (out.Created? ==>
                  && stamp.id !in t.rows && req.amount >= 10_000
                  && |req.recipientName| <= 255 && |req.accountNumber| <= 50
                  && |req.bankCode| <= 20 && |req.note| <= 500
                  && out.d == Disbursement(stamp.id, req.recipientName, req.accountNumber, req.bankCode, req.amount,
                                           if req.amount >= 5_000_000 then 5000 else 2500, req.note, Pending,
                                           stamp.actor, None, stamp.now, stamp.now)
                  && e.t.rows == t.rows[stamp.id := Row(out.d, None)]
                  && EntriesFor(op, e.answer) == [AuditEntry(stamp.id, stamp.actor, CreatedAs(out.d))])
            && (!out.Created? ==> e.t.rows == t.rows && EntriesFor(op, e.answer) == [])
  {
  }

  /** Without a key a create depends on its own fields and its id alone. */
  lemma PlainCreateAnswers(t: Tables, req: CreateRequest, stamp: Stamp, ttl: Time, at: Time)
    ensures var e := Atomic(t, PlainCreate(req, stamp), ttl, at);
            && e.t.keys == t.keys
            && (if stamp.id !in t.rows && req.amount >= 10_000
                   && |req.recipientName| <= 255 && |req.accountNumber| <= 50
                   && |req.bankCode| <= 20 && |req.note| <= 500
                then e.answer.outcome.Created? else e.answer.outcome == Internal(RowRefused))
  {
  }

  /** With a key: refused as no UUID, refused as too wide, settled by a live row, or
      else created, or refused with the key cleared. */
  lemma KeyedCreateAnswers(t: Tables, req: CreateRequest, stamp: Stamp, key: string, keyIsUuid: bool,
                           userId: string, digest: string, ttl: Time, at: Time)
    ensures var e := Atomic(t, KeyedCreate(req, stamp, key, keyIsUuid, userId, digest), ttl, at);
            var out := e.answer.outcome;
            if !keyIsUuid then out == BadRequest && e.t.keys == t.keys
            else if |key| > 36 then out == Internal(RowRefused) && e.t.keys == t.keys
            else if key in t.keys && stamp.now <= t.keys[key].expiresAt then
              && e.t.keys == t.keys
              && (if t.keys[key].userId == userId && t.keys[key].digest == digest
                  then out == Replayed(t.keys[key].body) else out == KeyMismatch)
            else if stamp.id !in t.rows && req.amount >= 10_000
                    && |req.recipientName| <= 255 && |req.accountNumber| <= 50
                    && |req.bankCode| <= 20 && |req.note| <= 500
            then
              && out.Created?
              && e.t.keys == t.keys[key := KeyRow(key, userId, digest, out.d, stamp.now + ttl, stamp.now)]
            else out == Internal(RowRefused) && e.t.keys == t.keys - {key}
  {
  }

  lemma StatusChangeAnswers(t: Tables, id: Id, target: string, note: string, actor: string, ttl: Time, at: Time)
    ensures var op := UpdateStatus(id, target, note, actor);
            var e := Atomic(t, op, ttl, at);
            var out := e.answer.outcome;
            && e.t.keys == t.keys
            && (if target != "APPROVED" && target != "REJECTED" then out == BadRequest
                else if id !in t.rows || t.rows[id].deletedAt != None then out == NotFound
                else if t.rows[id].d.status != Pending then out == AlreadyFinal(t.rows[id].d.status)
                else if |note| > 500 then out == Internal(RowRefused)
                else
                  && out.Updated?
                  && out.d == t.rows[id].d.(status := if target == "APPROVED" then Approved else Rejected,
                                            note := if note == "" then t.rows[id].d.note else note,
                                            approvedBy := Some(actor),
                                            updatedAt := at)
                  && e.t.rows == t.rows[id := Row(out.d, None)]
                  && EntriesFor(op, e.answer)
                     == [AuditEntry(id, actor, StatusChanged(Pending, t.rows[id].d.note,
                                                             out.d.status, out.d.note, actor))])
            && (!out.Updated? ==> e.t.rows == t.rows && EntriesFor(op, e.answer) == [])
  {
  }

  lemma DeleteAnswers(t: Tables, id: Id, actor: string, ttl: Time, at: Time)
    ensures var op := Delete(id, actor);
            var e := Atomic(t, op, ttl, at);
            var out := e.answer.outcome;
            && e.t.keys == t.keys
            && (if id !in t.rows || t.rows[id].deletedAt != None then out == NotFound
                else if t.rows[id].d.status != Pending then out == NotPending
                else
                  && out == Deleted
                  && e.t.rows == t.rows[id := Row(t.rows[id].d, Some(at))]
                  && EntriesFor(op, e.answer) == [AuditEntry(id, actor, DeletedFrom(Pending))])
            && (out != Deleted ==> e.t.rows == t.rows && EntriesFor(op, e.answer) == [])
  {
  }

  // ---------- Any run ----------

  /** The response of a request that has one, whether or not its entry is written. */
  function Response(w: World, r: nat): Option<Outcome>
  {
    if r >= |w.pcs| then None
    else
      match w.pcs[r]
      case Done(out) => Some(out)
      case Auditing(_, out) => Some(out)
      case _ => None
  }

  /** Where a response that reports no fault, no vanished row, no lost race and no
      conflict was decided. */
  lemma ResponsePoint(c: Config, t0: Tables, sched: seq<Step>, r: nat) returns (i: nat)
    requires r < |c.ops| && Response(Run(c, t0, sched), r).Some?
    requires Response(Run(c, t0, sched), r).value !in {Internal(DbFault), Internal(RowMissing), RetryConflict, LostRace}
    ensures var h := Run(c, t0, sched).history;
            && i < |h| && h[i].rid == r && h[i].note.Settle?
            && EventOk(c, Play(c, t0, h[..i]), h[..i], h[i])
            && Atomic(Play(c, t0, h[..i]), c.ops[r], c.ttl, h[i].at).answer.outcome
               == Response(Run(c, t0, sched), r).value
            && Play(c, t0, h[..i + 1]) == Atomic(Play(c, t0, h[..i]), c.ops[r], c.ttl, h[i].at).t
  {
    RunKeepsInv(c, t0, sched);
    var w := Run(c, t0, sched);
    assert PcOk(w.t, Answers(w.history), Saws(w.history), r, c.ops[r], w.pcs[r]);
    i := AnswerHasPoint(c, t0, w.history, r);
  }

  /** In every run, a create answered as created put the very row it reports into the
      table, at one point, under an id that was new; and with it, for a key, the key
      row, where there was none. */
  lemma CreatedInRun(c: Config, t0: Tables, sched: seq<Step>, r: nat) returns (i: nat)
    requires r < |c.ops| && Response(Run(c, t0, sched), r).Some? && Response(Run(c, t0, sched), r).value.Created?
    ensures c.ops[r].PlainCreate? || c.ops[r].KeyedCreate?
    ensures var h, op, d := Run(c, t0, sched).history, c.ops[r], Response(Run(c, t0, sched), r).value.d;
            && i < |h| && h[i].rid == r
            && d == Disbursement(op.stamp.id, op.req.recipientName, op.req.accountNumber, op.req.bankCode,
                                 op.req.amount, if op.req.amount >= 5_000_000 then 5000 else 2500, op.req.note, Pending,
                                 op.stamp.actor, None, op.stamp.now, op.stamp.now)
            && var before, after := Play(c, t0, h[..i]), Play(c, t0, h[..i + 1]);
               && d.id !in before.rows && after.rows == before.rows[d.id := Row(d, None)]
               && (op.PlainCreate? ==> after.keys == before.keys)
               && (op.KeyedCreate? ==>
                     && op.keyIsUuid && |op.key| <= 36 && op.key !in before.keys
                     && after.keys == before.keys[op.key := KeyRow(op.key, op.userId, op.digest, d,
                                                                   op.stamp.now + c.ttl, op.stamp.now)])
  {
    i := ResponsePoint(c, t0, sched, r);
    var h, op := Run(c, t0, sched).history, c.ops[r];
    var before := Play(c, t0, h[..i]);
    CreateByCreates(before, op, c.ttl, h[i].at);
    CreateWritesRow(before, op, c.ttl, h[i].at);
    if op.KeyedCreate? {
      KeyedCreateAnswers(before, op.req, op.stamp, op.key, op.keyIsUuid, op.userId, op.digest, c.ttl, h[i].at);
    } else {
      PlainCreateAnswers(before, op.req, op.stamp, c.ttl, h[i].at);
    }
  }

  lemma CreateByCreates(t: Tables, op: Op, ttl: Time, at: Time)
    requires Atomic(t, op, ttl, at).answer.outcome.Created?
    ensures op.PlainCreate? || op.KeyedCreate?
  {
  }

  /** In every run, a mismatch is answered only where the key is held, unexpired, by a
      row of another user or another body. */
  lemma MismatchInRun(c: Config, t0: Tables, sched: seq<Step>, r: nat) returns (i: nat)
    requires r < |c.ops| && c.ops[r].KeyedCreate? && Response(Run(c, t0, sched), r) == Some(KeyMismatch)
    ensures var h, op := Run(c, t0, sched).history, c.ops[r];
            && i < |h| && h[i].rid == r
            && var keys := Play(c, t0, h[..i]).keys;
               && op.keyIsUuid && op.key in keys && op.stamp.now <= keys[op.key].expiresAt
               && (keys[op.key].userId != op.userId || keys[op.key].digest != op.digest)
  {
    i := ResponsePoint(c, t0, sched, r);
    var h, op := Run(c, t0, sched).history, c.ops[r];
    KeyedCreateAnswers(Play(c, t0, h[..i]), op.req, op.stamp, op.key, op.keyIsUuid, op.userId, op.digest,
                       c.ttl, h[i].at);
  }

  /** In every run, a status change or a delete is turned down only for the reason it
      is given: a status that is none of the two, or, at one point, a row that is not
      there, or one that is decided. */
  lemma RefusedInRun(c: Config, t0: Tables, sched: seq<Step>, r: nat) returns (i: nat)
    requires r < |c.ops| && (c.ops[r].UpdateStatus? || c.ops[r].Delete?)
    requires Response(Run(c, t0, sched), r).Some?
    requires var out := Response(Run(c, t0, sched), r).value;
             out.BadRequest? || out.NotFound? || out.AlreadyFinal? || out.NotPending?
    ensures var h, op, out := Run(c, t0, sched).history, c.ops[r], Response(Run(c, t0, sched), r).value;
            && i < |h| && h[i].rid == r
            && var rows := Play(c, t0, h[..i]).rows;
               match out
               case BadRequest => op.UpdateStatus? && op.target !in {"APPROVED", "REJECTED"}
               case NotFound => op.id !in rows || rows[op.id].deletedAt != None
               case AlreadyFinal(status) =>
                 op.UpdateStatus? && status != Pending && op.id in rows && rows[op.id].deletedAt == None
                 && rows[op.id].d.status == status
               case NotPending =>
                 op.Delete? && op.id in rows && rows[op.id].deletedAt == None && rows[op.id].d.status != Pending
               case _ => true
  {
    i := ResponsePoint(c, t0, sched, r);
    var h, op := Run(c, t0, sched).history, c.ops[r];
    if op.UpdateStatus? {
      StatusChangeAnswers(Play(c, t0, h[..i]), op.id, op.target, op.note, op.actor, c.ttl, h[i].at);
    } else {
      DeleteAnswers(Play(c, t0, h[..i]), op.id, op.actor, c.ttl, h[i].at);
    }
  }

  lemma ActReportsNoFault(t: Tables, answers: map<nat, Answer>, saws: map<nat, KeyRow>,
                          rid: nat, op: Op, pc: Pc, ttl: Time, at: Time)
    requires PcOk(t, answers, saws, rid, op, pc) && !pc.Done? && !pc.Auditing?
    ensures Act(t, op, pc, ttl, at).pc != Done(Internal(DbFault))
  {
  }

  /** A database fault is answered only by a request one of whose own calls failed. */
  lemma {:induction false} FaultIsOwn(c: Config, t0: Tables, sched: seq<Step>, r: nat) returns (n: nat)
    requires r < |c.ops| && r < |Run(c, t0, sched).pcs| && Run(c, t0, sched).pcs[r] == Done(Internal(DbFault))
    ensures n < |sched| && sched[n].rid == r && sched[n].fault != NoFault
  {
    var p, s := sched[..|sched| - 1], sched[|sched| - 1];
    var w := Run(c, t0, p);
    RunKeepsInv(c, t0, p);
    if w.pcs[r] == Done(Internal(DbFault)) {
      n := FaultIsOwn(c, t0, p, r);
    } else {
      n := |p|;
      assert PcOk(w.t, Answers(w.history), Saws(w.history), r, c.ops[r], w.pcs[r]);
      if Moves(c, w, s) {
        ActReportsNoFault(w.t, Answers(w.history), Saws(w.history), s.rid, c.ops[s.rid], w.pcs[s.rid], c.ttl, s.at);
      }
    }
  }

  /** A request about to write the row it read: its write, if it does not fail, takes
      effect when the row is still live and pending, and is answered as a lost race
      when it is not; a note too wide is refused. */
  lemma WriteSettles(c: Config, t0: Tables, sched: seq<Step>, s: Step)
    requires s.rid < |c.ops| == |Run(c, t0, sched).pcs| && Run(c, t0, sched).pcs[s.rid].Swapping? && s.fault == NoFault
    ensures var w, w', r := Run(c, t0, sched), Run(c, t0, sched + [s]), s.rid;
            var op := c.ops[r];
            && (op.UpdateStatus? || op.Delete?) && op.id in w.t.rows && |w'.pcs| == |c.ops|
            && if w.t.rows[op.id].deletedAt != None || w.t.rows[op.id].d.status != Pending then
                 w'.pcs[r] == Done(LostRace) && w'.t == w.t
               else if op.UpdateStatus? && |op.note| > 500 then
                 w'.pcs[r] == Done(Internal(RowRefused)) && w'.t == w.t
               else
                 && w'.pcs[r] == (if op.UpdateStatus? then Rereading(w.t.rows[op.id].d)
                                  else Auditing(AuditEntry(op.id, op.actor, DeletedFrom(Pending)), Deleted))
                 && op.id in w'.t.rows && w'.t.rows[op.id] != w.t.rows[op.id]
  {
    RunKeepsInv(c, t0, sched);
    RunSnoc(c, t0, sched, s);
    var w, op := Run(c, t0, sched), c.ops[s.rid];
    assert PcOk(w.t, Answers(w.history), Saws(w.history), s.rid, op, w.pcs[s.rid]);
  }
}
