/** The one-way life of a disbursement: pending, then approved, rejected or deleted,
    by exactly one request, whatever the interleaving. */
module Lifecycle {
  import opened Entities
  import opened Store
  import opened AtomicSpec
  import opened Protocol
  import opened Linearization

  /** `op` is an approval, a rejection or a delete of disbursement `id`. */
  predicate Targets(op: Op, id: Id)
  {
    (op.UpdateStatus? || op.Delete?) && op.id == id
  }

  predicate Decided(o: Outcome)
  {
    o.Updated? || o.Deleted?
  }

  /** A point of the history at which disbursement `id` leaves the pending state. */
  ghost predicate Decision(c: Config, h: seq<Event>, i: nat, id: Id)
  {
    && i < |h| && h[i].rid < |c.ops| && Targets(c.ops[h[i].rid], id)
    && h[i].note.Settle? && Decided(h[i].note.answer.outcome)
  }

  lemma DecidesRow(t: Tables, op: Op, ttl: Time, at: Time, id: Id)
    requires Targets(op, id) && Decided(Atomic(t, op, ttl, at).answer.outcome)
    ensures var e := Atomic(t, op, ttl, at);
            && id in t.rows && LivePending(t.rows[id]) && e.answer.before == Some(t.rows[id].d)
            && id in e.t.rows && !LivePending(e.t.rows[id])
  {
  }

  lemma DecisionPoint(c: Config, t0: Tables, h: seq<Event>, i: nat, id: Id)
    requires Legal(c, t0, h) && Decision(c, h, i, id)
    ensures var before, after := Play(c, t0, h[..i]), Play(c, t0, h[..i + 1]);
            && id in before.rows && LivePending(before.rows[id])
            && h[i].note.answer.before == Some(before.rows[id].d)
            && id in after.rows && !LivePending(after.rows[id])
            && h[i].note.answer.outcome == Atomic(before, c.ops[h[i].rid], c.ttl, h[i].at).answer.outcome
            && after == Atomic(before, c.ops[h[i].rid], c.ttl, h[i].at).t
  {
    LegalPrefix(c, t0, h, i + 1);
    assert h[..i + 1][..i] == h[..i];
    DecidesRow(Play(c, t0, h[..i]), c.ops[h[i].rid], c.ttl, h[i].at, id);
  }

  lemma DecidedBetween(c: Config, t0: Tables, h: seq<Event>, i: nat, j: nat, id: Id)
    requires Legal(c, t0, h) && i <= j <= |h|
    requires id in Play(c, t0, h[..i]).rows && !LivePending(Play(c, t0, h[..i]).rows[id])
    ensures id in Play(c, t0, h[..j]).rows && !LivePending(Play(c, t0, h[..j]).rows[id])
  {
    LegalPrefix(c, t0, h, j);
    assert h[..j][..i] == h[..i];
    HistoryEvolves(c, t0, h[..j], i);
  }

  lemma DecisionsAreUnique(c: Config, t0: Tables, h: seq<Event>, i: nat, j: nat, id: Id)
    requires Legal(c, t0, h) && Decision(c, h, i, id) && Decision(c, h, j, id)
    ensures i == j
  {
    var lo, hi := if i < j then i else j, if i < j then j else i;
    DecisionPoint(c, t0, h, lo, id);
    DecisionPoint(c, t0, h, hi, id);
    if lo < hi {
      DecidedBetween(c, t0, h, lo + 1, hi, id);
    }
  }

  predicate Succeeded(w: World, rid: nat)
  {
    rid < |w.pcs| &&
    match w.pcs[rid]
    case Auditing(_, out) => Decided(out)
    case Done(out) => Decided(out)
    case _ => false
  }

  lemma SuccessIsDecision(c: Config, t0: Tables, w: World, rid: nat) returns (i: nat)
    requires Inv(c, t0, w) && rid < |c.ops| && Succeeded(w, rid)
    ensures c.ops[rid].UpdateStatus? || c.ops[rid].Delete?
    ensures Decision(c, w.history, i, c.ops[rid].id) && w.history[i].rid == rid
    ensures w.history[i].note.answer == Answers(w.history)[rid] && rid in Answers(w.history)
    ensures w.pcs[rid].outcome == w.history[i].note.answer.outcome
  {
    assert PcOk(w.t, Answers(w.history), Saws(w.history), rid, c.ops[rid], w.pcs[rid]);
    i := AnswerHasPoint(c, t0, w.history, rid);
  }

  /** Among all approvals, rejections and deletes of a disbursement at most one
      succeeds, under every schedule. */
  lemma OneDecisionPerDisbursement(c: Config, t0: Tables, sched: seq<Step>, id: Id, a: nat, b: nat)
    requires a < |c.ops| && b < |c.ops| && Targets(c.ops[a], id) && Targets(c.ops[b], id)
    requires Succeeded(Run(c, t0, sched), a) && Succeeded(Run(c, t0, sched), b)
    ensures a == b
  {
    RunKeepsInv(c, t0, sched);
    var w := Run(c, t0, sched);
    var i := SuccessIsDecision(c, t0, w, a);
    var j := SuccessIsDecision(c, t0, w, b);
    DecisionsAreUnique(c, t0, w.history, i, j, id);
  }

  lemma {:induction false} HistoryOnlyGrows(c: Config, t0: Tables, sched: seq<Step>, n: nat)
    requires n <= |sched|
    ensures Run(c, t0, sched[..n]).history <= Run(c, t0, sched).history
  {
    if n == |sched| {
      assert sched[..n] == sched;
    } else {
      assert sched[..|sched| - 1][..n] == sched[..n];
      HistoryOnlyGrows(c, t0, sched[..|sched| - 1], n);
    }
  }

  /** From any moment of a run to any later one: rows stay; a row that has left the
      live pending state never changes again; a row that is still live and pending
      has not changed since. */
  lemma RowsFreeze(c: Config, t0: Tables, sched: seq<Step>, n: nat, id: Id)
    requires n <= |sched| && id in Run(c, t0, sched[..n]).t.rows
    ensures var now, later := Run(c, t0, sched[..n]).t.rows[id], Run(c, t0, sched).t.rows;
            && id in later
            && SameOrigin(now.d, later[id].d)
            && (!LivePending(now) || LivePending(later[id]) ==> later[id] == now)
  {
    RunKeepsInv(c, t0, sched[..n]);
    RunKeepsInv(c, t0, sched);
    HistoryOnlyGrows(c, t0, sched, n);
    var h0, h := Run(c, t0, sched[..n]).history, Run(c, t0, sched).history;
    assert h[..|h0|] == h0;
    HistoryEvolves(c, t0, h, |h0|);
  }

  /** The unsynchronised reads of a successful status change are exact. There is a
      point at which the row, live and pending, was the one read before; the write
      turned it into the row read after; the audit entry and the response state
      that transition, and the row is still so. */
  lemma StatusChangeReadsAreExact(c: Config, t0: Tables, sched: seq<Step>, rid: nat)
    returns (i: nat, current: Disbursement)
    requires rid < |c.ops| && c.ops[rid].UpdateStatus? && Succeeded(Run(c, t0, sched), rid)
    ensures var w, op := Run(c, t0, sched), c.ops[rid];
            && i < |w.history| && w.history[i].rid == rid
            && op.target in {"APPROVED", "REJECTED"}
            && var before, after := Play(c, t0, w.history[..i]), Play(c, t0, w.history[..i + 1]);
               var written := current.(status := if op.target == "APPROVED" then Approved else Rejected,
                                       note := if op.note == "" then current.note else op.note,
                                       approvedBy := Some(op.actor),
                                       updatedAt := w.history[i].at);
               && op.id in before.rows
               && before.rows[op.id] == Row(current, None) && current.status == Pending
               && after == before.(rows := before.rows[op.id := Row(written, None)])
               && w.pcs[rid].outcome == Updated(written)
               && (w.pcs[rid].Auditing? ==>
                     w.pcs[rid].entry
                     == AuditEntry(op.id, op.actor,
                                   StatusChanged(Pending, current.note, written.status, written.note, op.actor)))
               && op.id in w.t.rows && w.t.rows[op.id] == Row(written, None)
  {
    RunKeepsInv(c, t0, sched);
    var w := Run(c, t0, sched);
    i := SuccessIsDecision(c, t0, w, rid);
    DecisionPoint(c, t0, w.history, i, c.ops[rid].id);
    current := Play(c, t0, w.history[..i]).rows[c.ops[rid].id].d;
    HistoryEvolves(c, t0, w.history, i + 1);
  }

  /** So is the read of a successful delete: the row it read is the row it deleted,
      unchanged but for the deletion mark, and its entry says so. */
  lemma DeleteReadIsExact(c: Config, t0: Tables, sched: seq<Step>, rid: nat) returns (i: nat, current: Disbursement)
    requires rid < |c.ops| && c.ops[rid].Delete? && Succeeded(Run(c, t0, sched), rid)
    ensures var w, op := Run(c, t0, sched), c.ops[rid];
            && i < |w.history| && w.history[i].rid == rid
            && op.id in Play(c, t0, w.history[..i]).rows
            && Play(c, t0, w.history[..i]).rows[op.id] == Row(current, None) && current.status == Pending
            && w.pcs[rid].outcome == Deleted
            && (w.pcs[rid].Auditing? ==> w.pcs[rid].entry == AuditEntry(op.id, op.actor, DeletedFrom(Pending)))
            && op.id in w.t.rows && w.t.rows[op.id] == Row(current, Some(w.history[i].at))
  {
    RunKeepsInv(c, t0, sched);
    var w := Run(c, t0, sched);
    i := SuccessIsDecision(c, t0, w, rid);
    DecisionPoint(c, t0, w.history, i, c.ops[rid].id);
    current := Play(c, t0, w.history[..i]).rows[c.ops[rid].id].d;
    HistoryEvolves(c, t0, w.history, i + 1);
  }

  /** The re-read after a winning write never misses: it returns the row this
      request wrote, and the row read earlier is the one the write replaced. */
  lemma RereadFindsOwnWrite(c: Config, t0: Tables, sched: seq<Step>, rid: nat)
    requires var w := Run(c, t0, sched); rid < |c.ops| && rid < |w.pcs| && w.pcs[rid].Rereading?
    ensures var w, op := Run(c, t0, sched), c.ops[rid];
            && op.UpdateStatus? && rid in Answers(w.history)
            && Answers(w.history)[rid].before == Some(w.pcs[rid].current)
            && Answers(w.history)[rid].outcome.Updated?
            && FindLive(w.t, op.id) == Some(Answers(w.history)[rid].outcome.d)
  {
    RunKeepsInv(c, t0, sched);
  }

  /** Requests waiting to write have either the current row in hand or a winner
      ahead of them. */
  ghost predicate HasWinner(c: Config, w: World, rid: nat)
    requires rid < |c.ops|
  {
    exists a: nat ::
      && a < |c.ops| && a != rid && (c.ops[rid].UpdateStatus? || c.ops[rid].Delete?)
      && Targets(c.ops[a], c.ops[rid].id)
      && a in Answers(w.history) && Decided(Answers(w.history)[a].outcome)
  }

  ghost predicate RaceAccounted(c: Config, w: World, rid: nat)
    requires rid < |c.ops| == |w.pcs|
  {
    match w.pcs[rid]
    case Swapping(current) =>
      (c.ops[rid].UpdateStatus? || c.ops[rid].Delete?) && c.ops[rid].id in w.t.rows
      && (LivePending(w.t.rows[c.ops[rid].id]) || HasWinner(c, w, rid))
    case Done(out) => out.LostRace? ==> HasWinner(c, w, rid)
    case _ => true
  }

  lemma WinnerStays(c: Config, w: World, rid: nat, at: Time, note: Note, w': World, b: nat)
    requires b < |c.ops| && HasWinner(c, w, b)
    requires w'.history == w.history + Record(rid, at, note) && (note.Settle? ==> rid !in Answers(w.history))
    ensures HasWinner(c, w', b)
  {
    if note.Silent? {
      assert w'.history == w.history;
    } else {
      assert w'.history[..|w'.history| - 1] == w.history;
    }
    var a: nat :|
      && a < |c.ops| && a != b && Targets(c.ops[a], c.ops[b].id)
      && a in Answers(w.history) && Decided(Answers(w.history)[a].outcome);
    assert a in Answers(w'.history) && Answers(w'.history)[a] == Answers(w.history)[a];
  }

  lemma ActDecides(t: Tables, answers: map<nat, Answer>, saws: map<nat, KeyRow>,
                   rid: nat, op: Op, pc: Pc, ttl: Time, at: Time, id: Id)
    requires PcOk(t, answers, saws, rid, op, pc) && !pc.Done? && !pc.Auditing?
    requires id in t.rows && LivePending(t.rows[id])
    ensures var m := Act(t, op, pc, ttl, at);
            && id in m.t.rows
            && (LivePending(m.t.rows[id]) || (Targets(op, id) && m.note.Settle? && Decided(m.note.answer.outcome)))
  {
  }

  lemma ActRaces(t: Tables, answers: map<nat, Answer>, saws: map<nat, KeyRow>,
                 rid: nat, op: Op, pc: Pc, ttl: Time, at: Time)
    requires PcOk(t, answers, saws, rid, op, pc) && !pc.Done? && !pc.Auditing?
    ensures var m := Act(t, op, pc, ttl, at);
            && (m.pc.Swapping? ==>
                  (op.UpdateStatus? || op.Delete?) && op.id in m.t.rows && LivePending(m.t.rows[op.id]))
            && (m.pc == Done(LostRace) ==> pc.Swapping? && op.id in t.rows && !LivePending(t.rows[op.id]))
            && (m.note.Settle? ==> rid !in answers)
  {
  }

  lemma NextRaceAccounted(c: Config, t0: Tables, w: World, s: Step, b: nat)
    requires Inv(c, t0, w) && b < |c.ops| && RaceAccounted(c, w, b)
    ensures |Next(c, w, s).pcs| == |c.ops| && RaceAccounted(c, Next(c, w, s), b)
  {
    var w' := Next(c, w, s);
    if Moves(c, w, s) {
      var op, pc := c.ops[s.rid], w.pcs[s.rid];
      var m := Act(w.t, op, pc, c.ttl, s.at);
      ActRaces(w.t, Answers(w.history), Saws(w.history), s.rid, op, pc, c.ttl, s.at);
      if HasWinner(c, w, b) {
        WinnerStays(c, w, s.rid, s.at, m.note, w', b);
      }
      if b != s.rid && w.pcs[b].Swapping? && LivePending(w.t.rows[c.ops[b].id]) {
        ActDecides(w.t, Answers(w.history), Saws(w.history), s.rid, op, pc, c.ttl, s.at, c.ops[b].id);
        if !LivePending(m.t.rows[c.ops[b].id]) {
          HistorySnoc(c, t0, w.history, Event(s.rid, s.at, m.note));
          assert s.rid in Answers(w'.history) && Answers(w'.history)[s.rid] == m.note.answer;
          assert HasWinner(c, w', b);
        }
      } else if w.pcs[b].Swapping? {
        HistoryEvolvesStep(c, t0, w, s);
      }
    } else if s.rid < |c.ops| && w.pcs[s.rid].Auditing? {
      assert PcOk(w.t, Answers(w.history), Saws(w.history), s.rid, c.ops[s.rid], w.pcs[s.rid]);
      assert w'.history == w.history && w'.t == w.t;
    } else {
      assert w'.history == w.history && w'.t == w.t;
    }
  }

  lemma HistoryEvolvesStep(c: Config, t0: Tables, w: World, s: Step)
    requires Inv(c, t0, w)
    ensures Evolves(w.t, Next(c, w, s).t)
  {
    var w' := Next(c, w, s);
    NextKeepsInv(c, t0, w, s);
    assert w.history <= w'.history && w'.history[..|w.history|] == w.history;
    HistoryEvolves(c, t0, w'.history, |w.history|);
  }

  lemma {:induction false} RunRaceAccounted(c: Config, t0: Tables, sched: seq<Step>, b: nat)
    requires b < |c.ops|
    ensures |Run(c, t0, sched).pcs| == |c.ops| && RaceAccounted(c, Run(c, t0, sched), b)
  {
    if sched != [] {
      RunRaceAccounted(c, t0, sched[..|sched| - 1], b);
      RunKeepsInv(c, t0, sched[..|sched| - 1]);
      NextRaceAccounted(c, t0, Run(c, t0, sched[..|sched| - 1]), sched[|sched| - 1], b);
    }
  }

  /** A lost race has a winner: the conflict is answered only when another request
      on the same disbursement has taken effect. */
  lemma LostRaceHasWinner(c: Config, t0: Tables, sched: seq<Step>, b: nat) returns (a: nat, out: Outcome)
    requires b < |c.ops| && b < |Run(c, t0, sched).pcs| && Run(c, t0, sched).pcs[b] == Done(LostRace)
    ensures a < |c.ops| && a != b && (c.ops[b].UpdateStatus? || c.ops[b].Delete?) && Targets(c.ops[a], c.ops[b].id)
    ensures Decided(out) && CarriedOut(c, t0, Run(c, t0, sched).history, a, out)
  {
    RunRaceAccounted(c, t0, sched, b);
    RunKeepsInv(c, t0, sched);
    var w := Run(c, t0, sched);
    a :| a < |c.ops| && a != b && Targets(c.ops[a], c.ops[b].id)
      && a in Answers(w.history) && Decided(Answers(w.history)[a].outcome);
    out := Answers(w.history)[a].outcome;
    AnsweredCarriedOut(c, t0, w.history, a);
  }
}
