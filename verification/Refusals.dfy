/** Which keyed creates a table refuses. */
module Refusals {
  import opened Entities
  import opened Store
  import opened AtomicSpec
  import opened Protocol
  import opened Linearization

  // ---------- A key that parses but is wider than its column ----------

  predicate WideKey(op: Op)
  {
    op.KeyedCreate? && op.keyIsUuid && |op.key| > KEY_WIDTH
  }

  lemma WideKeyWritesNothing(c: Config, t0: Tables, h: seq<Event>, i: nat)
    requires Legal(c, t0, h) && i < |h| && h[i].rid < |c.ops| && WideKey(c.ops[h[i].rid])
    ensures Play(c, t0, h[..i + 1]) == Play(c, t0, h[..i])
  {
    LegalPrefix(c, t0, h, i + 1);
    assert h[..i + 1][..i] == h[..i];
  }

  lemma WideKeyAnswer(c: Config, t0: Tables, h: seq<Event>, r: nat)
    requires Legal(c, t0, h) && r < |c.ops| && WideKey(c.ops[r]) && r in Answers(h)
    ensures Answers(h)[r].outcome == Internal(RowRefused)
  {
    var i := AnswerHasPoint(c, t0, h, r);
  }

  /** In every run, each create under such a key is refused, or fails with the
      database, and writes nothing. */
  lemma WideKeyIsRefused(c: Config, t0: Tables, sched: seq<Step>, r: nat)
    requires r < |c.ops| && WideKey(c.ops[r])
    ensures var w := Run(c, t0, sched);
            && r < |w.pcs|
            && (w.pcs[r].Done? ==> w.pcs[r].outcome in {Internal(RowRefused), Internal(DbFault)})
            && forall i :: 0 <= i < |w.history| && w.history[i].rid == r
                 ==> Play(c, t0, w.history[..i + 1]) == Play(c, t0, w.history[..i])
  {
    RunKeepsInv(c, t0, sched);
    var w := Run(c, t0, sched);
    assert PcOk(w.t, Answers(w.history), Saws(w.history), r, c.ops[r], w.pcs[r]);
    if r in Answers(w.history) {
      WideKeyAnswer(c, t0, w.history, r);
    }
    forall i | 0 <= i < |w.history| && w.history[i].rid == r
      ensures Play(c, t0, w.history[..i + 1]) == Play(c, t0, w.history[..i])
    {
      WideKeyWritesNothing(c, t0, w.history, i);
    }
  }

  // ---------- Otherwise, a storable create under its own id is never refused ----------

  predicate Creates(op: Op)
  {
    op.PlainCreate? || op.KeyedCreate?
  }

  /** No other create of the run carries the id of `r`, nor does the table. */
  ghost predicate OwnId(c: Config, t0: Tables, r: nat)
    requires r < |c.ops| && Creates(c.ops[r])
  {
    && c.ops[r].stamp.id !in t0.rows
    && forall q: nat :: q < |c.ops| && q != r && Creates(c.ops[q]) ==> c.ops[q].stamp.id != c.ops[r].stamp.id
  }

  lemma RowAdded(t: Tables, op: Op, ttl: Time, at: Time, answered: bool, saw: bool, note: Note, id: Id)
    requires NoteOk(t, op, ttl, at, answered, saw, note)
    requires id in ApplyNote(t, op, ttl, at, note).rows && id !in t.rows
    ensures note.Settle? && Creates(op) && op.stamp.id == id
  {
  }

  /** A row is there from the start or was made by an answered create with its id. */
  lemma {:induction false} RowHasCreator(c: Config, t0: Tables, h: seq<Event>, id: Id) returns (q: nat)
    requires Legal(c, t0, h) && id in Play(c, t0, h).rows && id !in t0.rows
    ensures q < |c.ops| && Creates(c.ops[q]) && c.ops[q].stamp.id == id && q in Answers(h)
  {
    var p, e := h[..|h| - 1], h[|h| - 1];
    if id in Play(c, t0, p).rows {
      q := RowHasCreator(c, t0, p, id);
    } else {
      RowAdded(Play(c, t0, p), c.ops[e.rid], c.ttl, e.at, e.rid in Answers(p), e.rid in Saws(p), e.note, id);
      q := e.rid;
    }
  }

  /** A refusal by the specification has a cause: the key's width, the row's columns,
      or its id. */
  lemma RefusalHasCause(t: Tables, op: Op, ttl: Time, at: Time)
    requires op.KeyedCreate? && op.keyIsUuid && |op.key| <= KEY_WIDTH
    requires Atomic(t, op, ttl, at).answer.outcome == Internal(RowRefused)
    ensures !Insertable(t, Draft(op.req, op.stamp))
  {
  }

  lemma NotRefused(c: Config, t0: Tables, h: seq<Event>, r: nat)
    requires Legal(c, t0, h) && r < |c.ops| && c.ops[r].KeyedCreate? && c.ops[r].keyIsUuid
    requires |c.ops[r].key| <= KEY_WIDTH && Storable(Draft(c.ops[r].req, c.ops[r].stamp)) && OwnId(c, t0, r)
    requires r in Answers(h)
    ensures Answers(h)[r].outcome != Internal(RowRefused)
  {
    if Answers(h)[r].outcome == Internal(RowRefused) {
      var i := AnswerHasPoint(c, t0, h, r);
      RefusalHasCause(Play(c, t0, h[..i]), c.ops[r], c.ttl, h[i].at);
      var q := RowHasCreator(c, t0, h[..i], c.ops[r].stamp.id);
      assert false;
    }
  }

  lemma WideKeyWitness(c: Config, t0: Tables, r: nat) returns (sched: seq<Step>)
    requires r < |c.ops| && WideKey(c.ops[r])
    ensures FaultFree(sched)
    ensures var w := Run(c, t0, sched); r < |w.pcs| && w.pcs[r] == Done(Internal(RowRefused))
  {
    sched := [Quiet(r, 0), Quiet(r, 0)];
    RunSnoc(c, t0, [], Quiet(r, 0));
    RunSnoc(c, t0, [Quiet(r, 0)], Quiet(r, 0));
    assert [] + [Quiet(r, 0)] == [Quiet(r, 0)] && [Quiet(r, 0)] + [Quiet(r, 0)] == sched;
  }

  /** A keyed create that passed the check of its key, fits the table and carries an
      id of its own: no schedule refuses it if and only if the key is no wider than
      its column. */
  lemma KeyedCreateRefusedIff(c: Config, t0: Tables, r: nat)
    requires r < |c.ops| && c.ops[r].KeyedCreate? && c.ops[r].keyIsUuid
    requires Storable(Draft(c.ops[r].req, c.ops[r].stamp)) && OwnId(c, t0, r)
    ensures (forall sched :: r < |Run(c, t0, sched).pcs| ==> Run(c, t0, sched).pcs[r] != Done(Internal(RowRefused)))
            <==> |c.ops[r].key| <= KEY_WIDTH
  {
    if |c.ops[r].key| <= KEY_WIDTH {
      forall sched | r < |Run(c, t0, sched).pcs| ensures Run(c, t0, sched).pcs[r] != Done(Internal(RowRefused)) {
        RunKeepsInv(c, t0, sched);
        var w := Run(c, t0, sched);
        assert PcOk(w.t, Answers(w.history), Saws(w.history), r, c.ops[r], w.pcs[r]);
        if r in Answers(w.history) {
          NotRefused(c, t0, w.history, r);
        }
      }
    } else {
      var sched := WideKeyWitness(c, t0, r);
    }
  }
}
