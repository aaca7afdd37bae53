/** What always holds between the two tables, and the fee ledger. */
module Consistency {
  import opened Entities
  import opened Store
  import opened AtomicSpec
  import opened Protocol
  import opened Linearization

  /** A stored disbursement: its texts fit, its fee is the fee of its amount, it has an approver
      exactly when it is approved or rejected, and only pending rows are deleted. */
  predicate RowOk(id: Id, row: Row)
  {
    && row.d.id == id
    && row.d.amount >= MIN_AMOUNT && TextFits(row.d)
    && row.d.adminFee == CalculateAdminFee(row.d.amount)
    && (row.d.approvedBy.Some? <==> row.d.status.Approved? || row.d.status.Rejected?)
    && (row.deletedAt.Some? ==> row.d.status.Pending?)
  }

  /** A disbursement as it is at the moment of creation. */
  predicate CreationSnapshot(d: Disbursement)
  {
    && d.status.Pending? && d.approvedBy.None?
    && d.createdAt == d.updatedAt
    && d.adminFee == CalculateAdminFee(d.amount)
  }

  /** A key row: its cached body is the creation snapshot of a stored disbursement,
      which may be decided or deleted by now but keeps its immutable columns, and
      is the snapshot still while it is live and pending. */
  predicate KeyOk(t: Tables, ttl: Time, k: string, row: KeyRow)
  {
    && row.key == k
    && row.expiresAt == row.createdAt + ttl
    && row.createdAt == row.body.createdAt
    && CreationSnapshot(row.body)
    && row.body.id in t.rows
    && SameOrigin(row.body, t.rows[row.body.id].d)
    && (LivePending(t.rows[row.body.id]) ==> t.rows[row.body.id].d == row.body)
  }

  ghost predicate TablesOk(t: Tables, ttl: Time)
  {
    && (forall id :: id in t.rows ==> RowOk(id, t.rows[id]))
    && (forall k :: k in t.keys ==> KeyOk(t, ttl, k, t.keys[k]))
    && (forall k1, k2 :: k1 in t.keys && k2 in t.keys && t.keys[k1].body.id == t.keys[k2].body.id ==> k1 == k2)
  }

  /** One action adds a disbursement, perhaps with its key row; or decides or
      deletes one live pending row; or drops a key row; or changes nothing. */
  predicate AddsRow(t: Tables, t': Tables, op: Op, ttl: Time)
  {
    && (op.PlainCreate? || op.KeyedCreate?)
    && var d := Draft(op.req, op.stamp);
       && Insertable(t, d)
       && t'.rows == t.rows[d.id := Row(d, None)]
       && (t'.keys == t.keys || (op.KeyedCreate? && t'.keys == t.keys[op.key := KeyRowFor(op, ttl)]))
  }

  predicate ChangesRow(t: Tables, t': Tables, op: Op)
  {
    && (op.UpdateStatus? || op.Delete?)
    && op.id in t.rows && LivePending(t.rows[op.id])
    && op.id in t'.rows && !LivePending(t'.rows[op.id])
    && t' == t.(rows := t.rows[op.id := t'.rows[op.id]])
    && SameOrigin(t.rows[op.id].d, t'.rows[op.id].d)
    && (t'.rows[op.id].deletedAt.Some? ==> t'.rows[op.id].d == t.rows[op.id].d)
    && (t'.rows[op.id].deletedAt.None? ==> t'.rows[op.id].d.approvedBy.Some? && !t'.rows[op.id].d.status.Pending?)
    && (TextFits(t.rows[op.id].d) ==> TextFits(t'.rows[op.id].d))
  }

  predicate DropsKey(t: Tables, t': Tables, op: Op)
  {
    t'.rows == t.rows && (t'.keys == t.keys || (op.KeyedCreate? && t'.keys == t.keys - {op.key}))
  }

  lemma ActionShape(t: Tables, op: Op, ttl: Time, at: Time, note: Note)
    ensures var t' := ApplyNote(t, op, ttl, at, note);
            AddsRow(t, t', op, ttl) || ChangesRow(t, t', op) || DropsKey(t, t', op)
  {
  }

  lemma AddsRowOk(t: Tables, t': Tables, op: Op, ttl: Time)
    requires TablesOk(t, ttl) && AddsRow(t, t', op, ttl)
    ensures TablesOk(t', ttl)
  {
    forall k | k in t'.keys ensures KeyOk(t', ttl, k, t'.keys[k]) {
      if k in t.keys {
        assert KeyOk(t, ttl, k, t.keys[k]);
      }
    }
    forall k1, k2 | k1 in t'.keys && k2 in t'.keys && t'.keys[k1].body.id == t'.keys[k2].body.id
      ensures k1 == k2
    {
      if k1 in t.keys {
        assert KeyOk(t, ttl, k1, t.keys[k1]);
      }
      if k2 in t.keys {
        assert KeyOk(t, ttl, k2, t.keys[k2]);
      }
    }
  }

  lemma ChangesRowOk(t: Tables, t': Tables, op: Op, ttl: Time)
    requires TablesOk(t, ttl) && ChangesRow(t, t', op)
    ensures TablesOk(t', ttl)
  {
    assert RowOk(op.id, t.rows[op.id]);
    forall k | k in t'.keys ensures KeyOk(t', ttl, k, t'.keys[k]) {
      assert KeyOk(t, ttl, k, t.keys[k]);
    }
  }

  lemma ActionKeepsTablesOk(t: Tables, op: Op, ttl: Time, at: Time, note: Note)
    requires TablesOk(t, ttl)
    ensures TablesOk(ApplyNote(t, op, ttl, at, note), ttl)
  {
    var t' := ApplyNote(t, op, ttl, at, note);
    ActionShape(t, op, ttl, at, note);
    if AddsRow(t, t', op, ttl) {
      AddsRowOk(t, t', op, ttl);
    } else if ChangesRow(t, t', op) {
      ChangesRowOk(t, t', op, ttl);
    } else {
      assert forall k :: k in t'.keys ==> KeyOk(t, ttl, k, t.keys[k]) && t'.keys[k] == t.keys[k];
    }
  }

  lemma {:induction false} HistoryKeepsTablesOk(c: Config, t0: Tables, h: seq<Event>)
    requires TablesOk(t0, c.ttl)
    ensures TablesOk(Play(c, t0, h), c.ttl)
  {
    if h != [] {
      var p, e := h[..|h| - 1], h[|h| - 1];
      HistoryKeepsTablesOk(c, t0, p);
      if e.rid < |c.ops| {
        ActionKeepsTablesOk(Play(c, t0, p), c.ops[e.rid], c.ttl, e.at, e.note);
      }
    }
  }

  /** In every reachable state, whatever fails: each key row's body is the creation
      snapshot of a stored disbursement, no two keys share one, and every row is
      well formed. */
  lemma CacheAgreesWithTable(c: Config, t0: Tables, sched: seq<Step>)
    requires TablesOk(t0, c.ttl)
    ensures TablesOk(Run(c, t0, sched).t, c.ttl)
  {
    RunKeepsInv(c, t0, sched);
    HistoryKeepsTablesOk(c, t0, Run(c, t0, sched).history);
  }

  // ---------- The fee ledger ----------

  ghost function FeesOf(rows: map<Id, Row>): int
    decreases |rows|
  {
    if rows == map[] then 0
    else
      var id :| id in rows;
      rows[id].d.adminFee + FeesOf(rows - {id})
  }

  function LargeRows(rows: map<Id, Row>): set<Id>
  {
    set id | id in rows && rows[id].d.amount >= FEE_THRESHOLD
  }

  lemma {:induction false} FeesByCount(rows: map<Id, Row>)
    requires forall id :: id in rows ==> rows[id].d.adminFee == CalculateAdminFee(rows[id].d.amount)
    ensures FeesOf(rows) == 2500 * |rows| + 2500 * |LargeRows(rows)|
    decreases |rows|
  {
    if rows == map[] {
      assert LargeRows(rows) == {};
    } else {
      var id :| id in rows && FeesOf(rows) == rows[id].d.adminFee + FeesOf(rows - {id});
      var rest := rows - {id};
      assert rest.Keys == rows.Keys - {id} && |rest.Keys| == |rows.Keys| - 1;
      FeesByCount(rest);
      if rows[id].d.amount >= FEE_THRESHOLD {
        assert LargeRows(rows) == LargeRows(rest) + {id};
      } else {
        assert LargeRows(rows) == LargeRows(rest);
      }
    }
  }

  /** Disbursements created in a history, with and without a key. */
  function Creations(h: seq<Event>): nat
  {
    if h == [] then 0
    else
      var e := h[|h| - 1];
      Creations(h[..|h| - 1]) + if e.note.Settle? && e.note.answer.outcome.Created? then 1 else 0
  }

  /** The creations of large disbursements. */
  function LargeCreations(h: seq<Event>): nat
  {
    if h == [] then 0
    else
      var e := h[|h| - 1];
      LargeCreations(h[..|h| - 1]) +
      if e.note.Settle? && e.note.answer.outcome.Created? && e.note.answer.outcome.d.amount >= FEE_THRESHOLD
      then 1 else 0
  }

  lemma AddedLargeRows(rows: map<Id, Row>, d: Disbursement)
    requires d.id !in rows
    ensures LargeRows(rows[d.id := Row(d, None)])
         == if d.amount >= FEE_THRESHOLD then LargeRows(rows) + {d.id} else LargeRows(rows)
  {
  }

  lemma AddedRowCounts(rows: map<Id, Row>, d: Disbursement)
    requires d.id !in rows
    ensures var rows' := rows[d.id := Row(d, None)];
            && |rows'| == |rows| + 1
            && |LargeRows(rows')| == |LargeRows(rows)| + (if d.amount >= FEE_THRESHOLD then 1 else 0)
  {
    AddedLargeRows(rows, d);
    assert d.id !in LargeRows(rows);
    assert rows[d.id := Row(d, None)].Keys == rows.Keys + {d.id};
  }

  lemma ChangedRowCounts(rows: map<Id, Row>, id: Id, row: Row)
    requires id in rows && rows[id].d.amount == row.d.amount
    ensures |rows[id := row]| == |rows| && |LargeRows(rows[id := row])| == |LargeRows(rows)|
  {
    assert rows[id := row].Keys == rows.Keys;
    assert LargeRows(rows[id := row]) == LargeRows(rows);
  }

  lemma ActionCounts(t: Tables, op: Op, ttl: Time, at: Time, note: Note)
    requires note.Settle? ==> note.answer == Atomic(t, op, ttl, at).answer
    ensures var t' := ApplyNote(t, op, ttl, at, note);
            var made := note.Settle? && note.answer.outcome.Created?;
            && |t'.rows| == |t.rows| + (if made then 1 else 0)
            && |LargeRows(t'.rows)| == |LargeRows(t.rows)|
                 + (if made && note.answer.outcome.d.amount >= FEE_THRESHOLD then 1 else 0)
  {
    var t' := ApplyNote(t, op, ttl, at, note);
    ActionShape(t, op, ttl, at, note);
    if AddsRow(t, t', op, ttl) {
      AddedRowCounts(t.rows, Draft(op.req, op.stamp));
      CreationAddsRow(t, op, ttl, at, note);
    } else if ChangesRow(t, t', op) {
      ChangedRowCounts(t.rows, op.id, t'.rows[op.id]);
    } else {
      CreationAddsRow(t, op, ttl, at, note);
    }
  }

  lemma CreationAddsRow(t: Tables, op: Op, ttl: Time, at: Time, note: Note)
    requires note.Settle? ==> note.answer == Atomic(t, op, ttl, at).answer
    ensures var made := note.Settle? && note.answer.outcome.Created?;
            && (made <==> AddsRow(t, ApplyNote(t, op, ttl, at, note), op, ttl))
            && (made ==> note.answer.outcome.d == Draft(op.req, op.stamp))
  {
    if op.PlainCreate? || op.KeyedCreate? {
      var d := Draft(op.req, op.stamp);
      assert d.id in t.rows[d.id := Row(d, None)];
    }
  }

  lemma {:induction false} HistoryCounts(c: Config, t0: Tables, h: seq<Event>)
    requires Legal(c, t0, h) && TablesOk(t0, c.ttl)
    ensures |Play(c, t0, h).rows| == |t0.rows| + Creations(h)
    ensures |LargeRows(Play(c, t0, h).rows)| == |LargeRows(t0.rows)| + LargeCreations(h)
  {
    if h != [] {
      var p, e := h[..|h| - 1], h[|h| - 1];
      HistoryCounts(c, t0, p);
      HistoryKeepsTablesOk(c, t0, p);
      ActionCounts(Play(c, t0, p), c.ops[e.rid], c.ttl, e.at, e.note);
    }
  }

  /** The ledger, in every run: fees grow by creation only, by 2500 for each
      disbursement created and 2500 more for each large one; approvals, rejections,
      deletes, replays and expiries leave the total as it is. */
  lemma LedgerBalances(c: Config, t0: Tables, sched: seq<Step>)
    requires TablesOk(t0, c.ttl)
    ensures var w := Run(c, t0, sched);
            && FeesOf(w.t.rows) == 2500 * |w.t.rows| + 2500 * |LargeRows(w.t.rows)|
            && FeesOf(w.t.rows) == FeesOf(t0.rows) + 2500 * Creations(w.history) + 2500 * LargeCreations(w.history)
  {
    RunKeepsInv(c, t0, sched);
    var w := Run(c, t0, sched);
    HistoryKeepsTablesOk(c, t0, w.history);
    HistoryCounts(c, t0, w.history);
    FeesByCount(w.t.rows);
    FeesByCount(t0.rows);
  }
}
