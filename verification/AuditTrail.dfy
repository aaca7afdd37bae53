/** The audit log: it never disturbs the business, never invents, and, when nothing
    fails, tells the whole story of every disbursement. */
module AuditTrail {
  import opened Entities
  import opened Store
  import opened AtomicSpec
  import opened Protocol
  import opened Linearization
  import opened Promises

  // ---------- Audit failures do not matter ----------

  /** The schedules differ at most in what befalls the audit writes. */
  ghost predicate SameBusiness(s1: seq<Step>, s2: seq<Step>)
  {
    |s1| == |s2| && forall i :: 0 <= i < |s1| ==> s1[i].(auditFault := NoFault) == s2[i].(auditFault := NoFault)
  }

  ghost predicate AuditNeverFails(s: seq<Step>)
  {
    forall i :: 0 <= i < |s| ==> !s[i].auditFault.FailBefore?
  }

  lemma NextIgnoresAuditFault(c: Config, w1: World, w2: World, s1: Step, s2: Step)
    requires w1.t == w2.t && w1.pcs == w2.pcs && w1.history == w2.history
    requires s1.(auditFault := NoFault) == s2.(auditFault := NoFault)
    ensures var w1', w2' := Next(c, w1, s1), Next(c, w2, s2);
            && w1'.t == w2'.t && w1'.pcs == w2'.pcs && w1'.history == w2'.history
            && (|| (w1'.audit == w1.audit && w2'.audit == w2.audit)
                || (exists e :: w1'.audit in {w1.audit, w1.audit + [e]} && w2'.audit == w2.audit + [e])
                || s2.auditFault.FailBefore?)
  {
    assert s1.rid == s2.rid && s1.at == s2.at && s1.fault == s2.fault;
  }

  /** Whatever audit writes fail, the tables, the responses and the history are the
      same, and the log only lacks entries. */
  lemma {:induction false} AuditDoesNotInterfere(c: Config, t0: Tables, s1: seq<Step>, s2: seq<Step>)
    requires SameBusiness(s1, s2)
    ensures var w1, w2 := Run(c, t0, s1), Run(c, t0, s2);
            && w1.t == w2.t && w1.pcs == w2.pcs && w1.history == w2.history
            && (AuditNeverFails(s2) ==> multiset(w1.audit) <= multiset(w2.audit))
  {
    if s1 != [] {
      var p1, p2, x1, x2 := s1[..|s1| - 1], s2[..|s2| - 1], s1[|s1| - 1], s2[|s2| - 1];
      AuditDoesNotInterfere(c, t0, p1, p2);
      NextIgnoresAuditFault(c, Run(c, t0, p1), Run(c, t0, p2), x1, x2);
    }
  }

  // ---------- Entries owed, entries written ----------

  function EntryOf(op: Op, note: Note): seq<AuditEntry>
  {
    if note.Settle? then EntriesFor(op, note.answer) else []
  }

  /** The entries the answers of a history deserve, in order. */
  function DueLog(c: Config, h: seq<Event>): seq<AuditEntry>
  {
    if h == [] then []
    else
      var e := h[|h| - 1];
      DueLog(c, h[..|h| - 1]) +
      if e.rid < |c.ops| && e.note.Settle? then EntriesFor(c.ops[e.rid], e.note.answer) else []
  }

  /** The entry a request in flight still has to write. */
  function DebtOf(op: Op, answers: map<nat, Answer>, rid: nat, pc: Pc): seq<AuditEntry>
  {
    if pc.Auditing? then [pc.entry]
    else if pc.Rereading? && rid in answers then EntriesFor(op, answers[rid])
    else []
  }

  function Sum(ds: seq<multiset<AuditEntry>>): multiset<AuditEntry>
  {
    if ds == [] then multiset{} else Sum(ds[..|ds| - 1]) + ds[|ds| - 1]
  }

  lemma Exchange(a: multiset<AuditEntry>, b: multiset<AuditEntry>, x: multiset<AuditEntry>,
                 was: multiset<AuditEntry>, m: multiset<AuditEntry>)
    requires b + was == a + m
    ensures (b + x) + was == (a + x) + m
  {
    assert (b + x) + was == (b + was) + x;
    assert (a + x) + m == (a + m) + x;
  }

  lemma {:induction false} SumUpdate(ds: seq<multiset<AuditEntry>>, r: nat, m: multiset<AuditEntry>)
    requires r < |ds|
    ensures Sum(ds[r := m]) + ds[r] == Sum(ds) + m
  {
    var n, ds' := |ds| - 1, ds[r := m];
    if r == n {
      assert ds'[..n] == ds[..n] && ds'[n] == m;
      assert (Sum(ds[..n]) + m) + ds[n] == (Sum(ds[..n]) + ds[n]) + m;
    } else {
      assert ds'[..n] == ds[..n][r := m] && ds'[n] == ds[n] && ds[..n][r] == ds[r];
      SumUpdate(ds[..n], r, m);
      Exchange(Sum(ds[..n]), Sum(ds'[..n]), ds[n], ds[r], m);
    }
  }

  lemma {:induction false} SumOfNothing(ds: seq<multiset<AuditEntry>>)
    requires forall i :: 0 <= i < |ds| ==> ds[i] == multiset{}
    ensures Sum(ds) == multiset{}
  {
    if ds != [] {
      SumOfNothing(ds[..|ds| - 1]);
    }
  }

  function Debts(c: Config, w: World): seq<multiset<AuditEntry>>
    requires |c.ops| == |w.pcs|
  {
    var answers := Answers(w.history);
    seq(|c.ops|, i requires 0 <= i < |c.ops| => multiset(DebtOf(c.ops[i], answers, i, w.pcs[i])))
  }

  function Owed(c: Config, w: World): multiset<AuditEntry>
    requires |c.ops| == |w.pcs|
  {
    Sum(Debts(c, w))
  }

  /** Only the request that moves changes what it owes. */
  lemma OwedChange(c: Config, w: World, w': World, r: nat)
    requires |c.ops| == |w.pcs| == |w'.pcs| && r < |c.ops|
    requires forall i: nat :: i < |c.ops| && i != r ==>
               w.pcs[i] == w'.pcs[i] && (i in Answers(w.history) <==> i in Answers(w'.history))
               && (i in Answers(w.history) ==> Answers(w.history)[i] == Answers(w'.history)[i])
    ensures Owed(c, w') + multiset(DebtOf(c.ops[r], Answers(w.history), r, w.pcs[r]))
         == Owed(c, w) + multiset(DebtOf(c.ops[r], Answers(w'.history), r, w'.pcs[r]))
  {
    var d := multiset(DebtOf(c.ops[r], Answers(w'.history), r, w'.pcs[r]));
    assert Debts(c, w') == Debts(c, w)[r := d];
    SumUpdate(Debts(c, w), r, d);
  }

  /** A request owes nothing before its effect, its entry after it, and the same
      entry until it is written. */
  lemma ActDebt(t: Tables, answers: map<nat, Answer>, saws: map<nat, KeyRow>,
                rid: nat, op: Op, pc: Pc, ttl: Time, at: Time)
    requires PcOk(t, answers, saws, rid, op, pc) && !pc.Done? && !pc.Auditing?
    ensures var m := Act(t, op, pc, ttl, at);
            var answers' := if m.note.Settle? then answers[rid := m.note.answer] else answers;
            DebtOf(op, answers', rid, m.pc) == DebtOf(op, answers, rid, pc) + EntryOf(op, m.note)
  {
  }

  lemma DueSnoc(c: Config, h: seq<Event>, rid: nat, at: Time, note: Note)
    ensures DueLog(c, h + Record(rid, at, note))
         == DueLog(c, h) + (if rid < |c.ops| && note.Settle? then EntriesFor(c.ops[rid], note.answer) else [])
    ensures Answers(h + Record(rid, at, note)) == if note.Settle? then Answers(h)[rid := note.answer] else Answers(h)
  {
    if note.Silent? {
      assert h + Record(rid, at, note) == h;
    } else {
      assert (h + [Event(rid, at, note)])[..|h|] == h;
    }
  }

  /** What is written and what is owed is at most what is due, and all of it while
      nothing has failed. */
  ghost predicate Accounted(c: Config, w: World, clean: bool)
  {
    && |w.pcs| == |c.ops|
    && multiset(w.audit) + Owed(c, w) <= multiset(DueLog(c, w.history))
    && (clean ==> multiset(w.audit) + Owed(c, w) == multiset(DueLog(c, w.history)))
  }

  lemma DebtPaid(written: multiset<AuditEntry>, owed: multiset<AuditEntry>, due: multiset<AuditEntry>,
                 owed': multiset<AuditEntry>, due': multiset<AuditEntry>,
                 before: multiset<AuditEntry>, after: multiset<AuditEntry>, more: multiset<AuditEntry>, exact: bool)
    requires written + owed <= due && (exact ==> written + owed == due)
    requires owed' + before == owed + after && due' == due + more
    requires after <= before + more && (exact ==> after == before + more)
    ensures written + owed' <= due' && (exact ==> written + owed' == due')
  {
    forall e: AuditEntry
      ensures (written + owed')[e] <= due'[e] && (exact ==> (written + owed')[e] == due'[e])
    {
      assert (owed' + before)[e] == (owed + after)[e] && (written + owed)[e] <= due[e];
      assert after[e] <= (before + more)[e];
    }
  }

  /** An effect brings its entry as a new debt; a reported failure drops the debt. */
  lemma MoveDebt(c: Config, w: World, w': World, rid: nat, at: Time, m: Move, pc': Pc)
    requires rid < |c.ops| == |w.pcs|
    requires w' == World(m.t, w.audit, w.pcs[rid := pc'], w.history + Record(rid, at, m.note))
    requires pc' == m.pc || pc' == Done(Internal(DbFault))
    requires var op, pc, answers := c.ops[rid], w.pcs[rid], Answers(w.history);
             var answers' := if m.note.Settle? then answers[rid := m.note.answer] else answers;
             DebtOf(op, answers', rid, m.pc) == DebtOf(op, answers, rid, pc) + EntryOf(op, m.note)
    ensures var op := c.ops[rid];
            var before := DebtOf(op, Answers(w.history), rid, w.pcs[rid]);
            var after := DebtOf(op, Answers(w'.history), rid, w'.pcs[rid]);
            && DueLog(c, w'.history) == DueLog(c, w.history) + EntryOf(op, m.note)
            && (if pc' == m.pc then after == before + EntryOf(op, m.note) else after == [])
            && (forall i: nat :: i < |c.ops| && i != rid ==>
                  w.pcs[i] == w'.pcs[i] && (i in Answers(w.history) <==> i in Answers(w'.history))
                  && (i in Answers(w.history) ==> Answers(w.history)[i] == Answers(w'.history)[i]))
  {
    DueSnoc(c, w.history, rid, at, m.note);
  }

  lemma MovedAccounted(c: Config, w: World, w': World, rid: nat, at: Time, m: Move, pc': Pc, clean: bool)
    requires rid < |c.ops| == |w.pcs| && Accounted(c, w, clean)
    requires w' == World(m.t, w.audit, w.pcs[rid := pc'], w.history + Record(rid, at, m.note))
    requires pc' == m.pc || (pc' == Done(Internal(DbFault)) && !clean)
    requires var op, pc, answers := c.ops[rid], w.pcs[rid], Answers(w.history);
             var answers' := if m.note.Settle? then answers[rid := m.note.answer] else answers;
             DebtOf(op, answers', rid, m.pc) == DebtOf(op, answers, rid, pc) + EntryOf(op, m.note)
    ensures Accounted(c, w', clean)
  {
    var op := c.ops[rid];
    var more := EntryOf(op, m.note);
    var before := DebtOf(op, Answers(w.history), rid, w.pcs[rid]);
    var after := DebtOf(op, Answers(w'.history), rid, w'.pcs[rid]);
    MoveDebt(c, w, w', rid, at, m, pc');
    OwedChange(c, w, w', rid);
    assert multiset(before + more) == multiset(before) + multiset(more);
    assert multiset(DueLog(c, w.history) + more) == multiset(DueLog(c, w.history)) + multiset(more);
    DebtPaid(multiset(w.audit), Owed(c, w), multiset(DueLog(c, w.history)),
             Owed(c, w'), multiset(DueLog(c, w'.history)),
             multiset(before), multiset(after), multiset(more), clean);
  }

  lemma MoveAccounted(c: Config, t0: Tables, w: World, s: Step, clean: bool)
    requires Inv(c, t0, w) && Accounted(c, w, clean) && (clean ==> Clean(s))
    requires Moves(c, w, s)
    ensures Accounted(c, Next(c, w, s), clean)
  {
    var op, pc := c.ops[s.rid], w.pcs[s.rid];
    ActDebt(w.t, Answers(w.history), Saws(w.history), s.rid, op, pc, c.ttl, s.at);
    MovedAccounted(c, w, Next(c, w, s), s.rid, s.at, Act(w.t, op, pc, c.ttl, s.at), Next(c, w, s).pcs[s.rid], clean);
  }

  lemma EntryMoves(log: seq<AuditEntry>, entry: AuditEntry, owed: multiset<AuditEntry>, owed': multiset<AuditEntry>)
    requires owed' + multiset([entry]) == owed
    ensures multiset(log + [entry]) + owed' == multiset(log) + owed
    ensures multiset(log) + owed' <= multiset(log) + owed
  {
    assert multiset(log + [entry]) == multiset(log) + multiset([entry]);
    assert (multiset(log) + multiset([entry])) + owed' == multiset(log) + (owed' + multiset([entry]));
  }

  lemma AuditAccounted(c: Config, t0: Tables, w: World, s: Step, clean: bool)
    requires Inv(c, t0, w) && Accounted(c, w, clean) && (clean ==> Clean(s))
    requires s.rid < |c.ops| && w.pcs[s.rid].Auditing?
    ensures Accounted(c, Next(c, w, s), clean)
  {
    var w' := Next(c, w, s);
    var entry := w.pcs[s.rid].entry;
    EntryPaid(c, w, w', s.rid);
    assert w'.history == w.history && w'.audit in {w.audit, w.audit + [entry]};
    EntryMoves(w.audit, entry, Owed(c, w), Owed(c, w'));
  }

  lemma EntryPaid(c: Config, w: World, w': World, r: nat)
    requires r < |c.ops| == |w.pcs| && w.pcs[r].Auditing? && w'.history == w.history
    requires w'.pcs == w.pcs[r := Done(w.pcs[r].outcome)]
    ensures Owed(c, w') + multiset([w.pcs[r].entry]) == Owed(c, w)
  {
    OwedChange(c, w, w', r);
  }

  lemma FaultAccounted(c: Config, t0: Tables, w: World, s: Step)
    requires Inv(c, t0, w) && Accounted(c, w, false)
    requires s.rid < |c.ops| && !w.pcs[s.rid].Done? && !w.pcs[s.rid].Auditing?
    requires !w.pcs[s.rid].Start? && s.fault.FailBefore?
    ensures Accounted(c, Next(c, w, s), false)
  {
    var w' := Next(c, w, s);
    OwedChange(c, w, w', s.rid);
    DebtPaid(multiset(w.audit), Owed(c, w), multiset(DueLog(c, w.history)),
             Owed(c, w'), multiset(DueLog(c, w.history)),
             multiset(DebtOf(c.ops[s.rid], Answers(w.history), s.rid, w.pcs[s.rid])), multiset{}, multiset{}, false);
  }

  lemma NextAccounted(c: Config, t0: Tables, w: World, s: Step, clean: bool)
    requires Inv(c, t0, w) && Accounted(c, w, clean) && (clean ==> Clean(s))
    ensures Accounted(c, Next(c, w, s), clean)
  {
    if s.rid < |c.ops| && !w.pcs[s.rid].Done? {
      if w.pcs[s.rid].Auditing? {
        AuditAccounted(c, t0, w, s, clean);
      } else if !w.pcs[s.rid].Start? && s.fault.FailBefore? {
        FaultAccounted(c, t0, w, s);
      } else {
        MoveAccounted(c, t0, w, s, clean);
      }
    }
  }

  lemma {:induction false} RunAccounted(c: Config, t0: Tables, sched: seq<Step>)
    ensures Accounted(c, Run(c, t0, sched), FaultFree(sched))
  {
    if sched == [] {
      SumOfNothing(Debts(c, Initial(c, t0)));
    } else {
      var p := sched[..|sched| - 1];
      RunAccounted(c, t0, p);
      RunKeepsInv(c, t0, p);
      if FaultFree(sched) {
        assert forall i :: 0 <= i < |p| ==> p[i] == sched[i];
      }
      NextAccounted(c, t0, Run(c, t0, p), sched[|sched| - 1], FaultFree(sched));
    }
  }

  /** Under any faults the log holds nothing but entries that answers of the history
      deserve, each no more often than it is deserved. */
  lemma AuditNeverInvents(c: Config, t0: Tables, sched: seq<Step>)
    ensures multiset(Run(c, t0, sched).audit) <= multiset(DueLog(c, Run(c, t0, sched).history))
  {
    RunAccounted(c, t0, sched);
  }

  // ---------- Who is named ----------

  lemma {:induction false} DueEntryHasPoint(c: Config, t0: Tables, h: seq<Event>, e: AuditEntry) returns (i: nat)
    requires Legal(c, t0, h) && e in DueLog(c, h)
    ensures i < |h| && h[i].rid < |c.ops| && h[i].note.Settle? && e in EntriesFor(c.ops[h[i].rid], h[i].note.answer)
  {
    var p := h[..|h| - 1];
    if e in DueLog(c, p) {
      i := DueEntryHasPoint(c, t0, p, e);
    } else {
      i := |p|;
    }
  }

  /** `e` says what request `r`, carried out at point `i`, did, and names its caller. */
  ghost predicate EntryOfRequest(c: Config, t0: Tables, h: seq<Event>, e: AuditEntry, i: nat, r: nat)
  {
    && i < |h| && h[i].rid == r < |c.ops| && h[i].note.Settle?
    && var op, out := c.ops[r], Atomic(Play(c, t0, h[..i]), c.ops[r], c.ttl, h[i].at).answer.outcome;
       match e.change
       case CreatedAs(d) =>
         && (op.PlainCreate? || op.KeyedCreate?)
         && e.entityId == op.stamp.id && e.actor == op.stamp.actor && out == Created(d)
       case StatusChanged(fromStatus, _, toStatus, toNote, approvedBy) =>
         && op.UpdateStatus? && op.target in {"APPROVED", "REJECTED"}
         && e.entityId == op.id && e.actor == op.actor && approvedBy == op.actor
         && fromStatus == Pending && toStatus == (if op.target == "APPROVED" then Approved else Rejected)
         && (op.note != "" ==> toNote == op.note)
         && out.Updated? && out.d.status == toStatus && out.d.note == toNote
       case DeletedFrom(status) =>
         && op.Delete? && e.entityId == op.id && e.actor == op.actor
         && status == Pending && out == Deleted
  }

  lemma EntryNamesRequest(c: Config, t0: Tables, h: seq<Event>, e: AuditEntry, i: nat)
    requires Legal(c, t0, h) && i < |h| && h[i].rid < |c.ops| && h[i].note.Settle?
    requires e in EntriesFor(c.ops[h[i].rid], h[i].note.answer)
    ensures EntryOfRequest(c, t0, h, e, i, h[i].rid)
  {
    LegalPrefix(c, t0, h, i + 1);
    assert h[..i + 1][..i] == h[..i];
    var t, op, at := Play(c, t0, h[..i]), c.ops[h[i].rid], h[i].at;
    match op
    case PlainCreate(_, _) => CreateWritesRow(t, op, c.ttl, at);
    case KeyedCreate(_, _, _, _, _, _) => CreateWritesRow(t, op, c.ttl, at);
    case UpdateStatus(id, target, note, actor) => StatusChangeAnswers(t, id, target, note, actor, c.ttl, at);
    case Delete(id, actor) => DeleteAnswers(t, id, actor, c.ttl, at);
  }

  /** Under any faults every entry in the log states what one request did, at the
      point where it was carried out, and names that request's caller. */
  lemma AuditNamesCaller(c: Config, t0: Tables, sched: seq<Step>, e: AuditEntry) returns (i: nat, r: nat)
    requires e in Run(c, t0, sched).audit
    ensures EntryOfRequest(c, t0, Run(c, t0, sched).history, e, i, r)
  {
    RunKeepsInv(c, t0, sched);
    AuditNeverInvents(c, t0, sched);
    var w := Run(c, t0, sched);
    assert e in multiset(w.audit) && e in multiset(DueLog(c, w.history));
    i := DueEntryHasPoint(c, t0, w.history, e);
    r := w.history[i].rid;
    EntryNamesRequest(c, t0, w.history, e, i);
  }

  // ---------- The story of one disbursement ----------

  /** The entries about one disbursement, in the order of the log. */
  function About(log: seq<AuditEntry>, id: Id): seq<AuditEntry>
  {
    if log == [] then []
    else About(log[..|log| - 1], id) + if log[|log| - 1].entityId == id then [log[|log| - 1]] else []
  }

  lemma {:induction false} AboutConcat(a: seq<AuditEntry>, b: seq<AuditEntry>, id: Id)
    ensures About(a + b, id) == About(a, id) + About(b, id)
  {
    if b == [] {
      assert a + b == a;
    } else {
      assert (a + b)[..|a + b| - 1] == a + b[..|b| - 1];
      AboutConcat(a, b[..|b| - 1], id);
    }
  }

  lemma {:induction false} AboutCounts(log: seq<AuditEntry>, id: Id, e: AuditEntry)
    ensures multiset(About(log, id))[e] == if e.entityId == id then multiset(log)[e] else 0
  {
    if log != [] {
      AboutCounts(log[..|log| - 1], id, e);
      assert log == log[..|log| - 1] + [log[|log| - 1]];
    }
  }

  lemma SameEntriesAbout(a: seq<AuditEntry>, b: seq<AuditEntry>, id: Id)
    requires multiset(a) == multiset(b)
    ensures multiset(About(a, id)) == multiset(About(b, id))
  {
    forall e: AuditEntry ensures multiset(About(a, id))[e] == multiset(About(b, id))[e] {
      AboutCounts(a, id, e);
      AboutCounts(b, id, e);
    }
  }

  /** `story` is what happened to the disbursement in `row`: its creation, then, iff
      it is no longer live and pending, its decision or its deletion. */
  ghost predicate Tells(story: seq<AuditEntry>, row: Row)
  {
    && |story| == (if LivePending(row) then 1 else 2)
    && story[0].change.CreatedAs? && story[0].actor == row.d.createdBy
    && var d := story[0].change.d;
       && SameOrigin(d, row.d) && d.status.Pending? && d.approvedBy.None?
       && if LivePending(row) then row.d == d
          else if row.deletedAt.Some? then
            row.d == d && story[1].change == DeletedFrom(Pending)
          else
            && row.d.approvedBy == Some(story[1].actor)
            && story[1].change == StatusChanged(Pending, d.note, row.d.status, row.d.note, story[1].actor)
  }

  ghost predicate StoryOk(t: Tables, log: seq<AuditEntry>, id: Id)
  {
    if id in t.rows then Tells(About(log, id), t.rows[id]) else About(log, id) == []
  }

  lemma OneMoreAbout(log: seq<AuditEntry>, more: seq<AuditEntry>, id: Id)
    requires |more| <= 1
    ensures About(log + more, id) == About(log, id) + if |more| == 1 && more[0].entityId == id then more else []
  {
    AboutConcat(log, more, id);
    if |more| == 1 {
      assert more[..|more| - 1] == [];
    }
  }

  /** A change of one live pending row adds the second chapter to its story. */
  lemma DecisionTells(story: seq<AuditEntry>, row: Row, row': Row, e: AuditEntry, at: Time)
    requires Tells(story, row) && LivePending(row)
    requires
      || (row' == row.(deletedAt := Some(at)) && e.change == DeletedFrom(Pending))
      || (&& row'.deletedAt.None? && !row'.d.status.Pending? && SameOrigin(row.d, row'.d)
          && row'.d.approvedBy == Some(e.actor)
          && e.change == StatusChanged(Pending, row.d.note, row'.d.status, row'.d.note, e.actor))
    ensures Tells(story + [e], row')
  {
  }

  /** What an action does to row `id`, and the entry about it, if any: a first
      entry makes the row, a second one decides or deletes it, none leaves it. */
  ghost predicate Chapter(t: Tables, t': Tables, more: seq<AuditEntry>, at: Time, id: Id)
  {
    && |more| <= 1
    && (if |more| == 1 && more[0].entityId == id then
          if id !in t.rows then
            && id in t'.rows && LivePending(t'.rows[id]) && t'.rows[id].d.approvedBy.None?
            && more[0] == CreatedEntry(t'.rows[id].d.createdBy, t'.rows[id].d)
          else
            && LivePending(t.rows[id]) && id in t'.rows
            && (|| (t'.rows[id] == t.rows[id].(deletedAt := Some(at)) && more[0].change == DeletedFrom(Pending))
                || (&& t'.rows[id].deletedAt.None? && !t'.rows[id].d.status.Pending?
                    && SameOrigin(t.rows[id].d, t'.rows[id].d)
                    && t'.rows[id].d.approvedBy == Some(more[0].actor)
                    && more[0].change == StatusChanged(Pending, t.rows[id].d.note, t'.rows[id].d.status,
                                                       t'.rows[id].d.note, more[0].actor)))
        else
          (id in t'.rows <==> id in t.rows) && (id in t.rows ==> t'.rows[id] == t.rows[id]))
  }

  lemma CreateChapter(t: Tables, op: Op, ttl: Time, at: Time, id: Id)
    requires op.PlainCreate? || op.KeyedCreate?
    ensures var e := Atomic(t, op, ttl, at); Chapter(t, e.t, EntriesFor(op, e.answer), at, id)
  {
  }

  lemma DecideChapter(t: Tables, op: Op, ttl: Time, at: Time, id: Id)
    requires op.UpdateStatus? || op.Delete?
    requires forall i :: i in t.rows ==> t.rows[i].d.id == i
    ensures var e := Atomic(t, op, ttl, at); Chapter(t, e.t, EntriesFor(op, e.answer), at, id)
  {
  }

  lemma ActionOnRow(t: Tables, op: Op, ttl: Time, at: Time, note: Note, id: Id)
    requires NoteOk(t, op, ttl, at, false, note.Swept?, note)
    requires forall i :: i in t.rows ==> t.rows[i].d.id == i
    ensures Chapter(t, ApplyNote(t, op, ttl, at, note), EntryOf(op, note), at, id)
  {
    if note.Settle? {
      if op.PlainCreate? || op.KeyedCreate? {
        CreateChapter(t, op, ttl, at, id);
      } else {
        DecideChapter(t, op, ttl, at, id);
      }
    }
  }

  lemma ActionTells(t: Tables, op: Op, ttl: Time, at: Time, note: Note, log: seq<AuditEntry>, id: Id)
    requires NoteOk(t, op, ttl, at, false, note.Swept?, note)
    requires forall i :: i in t.rows ==> t.rows[i].d.id == i
    requires StoryOk(t, log, id)
    ensures var more := EntryOf(op, note);
            StoryOk(ApplyNote(t, op, ttl, at, note), log + more, id)
  {
    var more := EntryOf(op, note);
    var t' := ApplyNote(t, op, ttl, at, note);
    ActionOnRow(t, op, ttl, at, note, id);
    OneMoreAbout(log, more, id);
    if |more| == 1 && more[0].entityId == id && id in t.rows {
      DecisionTells(About(log, id), t.rows[id], t'.rows[id], more[0], at);
      assert more == [more[0]];
    }
  }

  lemma ActionKeepsIds(t: Tables, op: Op, ttl: Time, at: Time, note: Note)
    requires forall i :: i in t.rows ==> t.rows[i].d.id == i
    ensures var t' := ApplyNote(t, op, ttl, at, note); forall i :: i in t'.rows ==> t'.rows[i].d.id == i
  {
  }

  lemma {:induction false} HistoryTells(c: Config, t0: Tables, h: seq<Event>, id: Id)
    requires Legal(c, t0, h) && id !in t0.rows
    requires forall i :: i in t0.rows ==> t0.rows[i].d.id == i
    ensures StoryOk(Play(c, t0, h), DueLog(c, h), id)
    ensures forall i :: i in Play(c, t0, h).rows ==> Play(c, t0, h).rows[i].d.id == i
  {
    if h != [] {
      var p, e := h[..|h| - 1], h[|h| - 1];
      HistoryTells(c, t0, p, id);
      ActionTells(Play(c, t0, p), c.ops[e.rid], c.ttl, e.at, e.note, DueLog(c, p), id);
      ActionKeepsIds(Play(c, t0, p), c.ops[e.rid], c.ttl, e.at, e.note);
    }
  }

  // ---------- Reading the log back ----------

  /** What a reader can tell of a disbursement. */
  datatype Fate = Fate(status: Status, note: string, approvedBy: Option<string>, deleted: bool)

  datatype Account = Account(created: Option<Disbursement>, last: Option<Change>)

  function ReadEntry(r: Account, e: AuditEntry): Account
  {
    match e.change
    case CreatedAs(d) => r.(created := Some(d))
    case _ => r.(last := Some(e.change))
  }

  /** Reads entries one by one, in whatever order they arrive. */
  function ReadLog(log: seq<AuditEntry>): Account
  {
    if log == [] then Account(None, None) else ReadEntry(ReadLog(log[..|log| - 1]), log[|log| - 1])
  }

  function Reconstruct(r: Account): Option<Fate>
  {
    match r.created
    case None => None
    case Some(d) =>
      match r.last
      case None => Some(Fate(d.status, d.note, d.approvedBy, false))
      case Some(StatusChanged(_, _, toStatus, toNote, actor)) => Some(Fate(toStatus, toNote, Some(actor), false))
      case Some(DeletedFrom(status)) => Some(Fate(status, d.note, d.approvedBy, true))
      case Some(CreatedAs(_)) => None
  }

  function FateOf(row: Row): Fate
  {
    Fate(row.d.status, row.d.note, row.d.approvedBy, row.deletedAt.Some?)
  }

  lemma OneEntry(log: seq<AuditEntry>, a: AuditEntry)
    requires multiset(log) == multiset([a])
    ensures log == [a]
  {
    assert |log| == |multiset(log)| == 1;
    assert log[0] in multiset(log);
  }

  lemma TwoEntries(log: seq<AuditEntry>, a: AuditEntry, b: AuditEntry)
    requires multiset(log) == multiset([a, b]) && a != b
    ensures log == [a, b] || log == [b, a]
  {
    assert |log| == |multiset(log)| == 2;
    assert log == [log[0]] + [log[1]];
    assert multiset(log) == multiset{log[0], log[1]} && multiset([a, b]) == multiset{a, b};
    assert log[0] in multiset{a, b} && log[1] in multiset{a, b};
    assert multiset{log[0], log[1]}[a] == 1 && multiset{log[0], log[1]}[b] == 1;
  }

  lemma ReadTwo(a: AuditEntry, b: AuditEntry)
    ensures ReadLog([a]) == ReadEntry(Account(None, None), a)
    ensures ReadLog([a, b]) == ReadEntry(ReadEntry(Account(None, None), a), b)
  {
    assert [a][..0] == [] && [a, b][..1] == [a];
  }

  lemma ReadsBack(story: seq<AuditEntry>, log: seq<AuditEntry>, row: Row)
    requires Tells(story, row) && multiset(log) == multiset(story)
    ensures Reconstruct(ReadLog(log)) == Some(FateOf(row))
  {
    var a := story[0];
    if |story| == 1 {
      assert story == [a];
      OneEntry(log, a);
      ReadTwo(a, a);
    } else {
      assert story == [a, story[1]];
      TwoEntries(log, a, story[1]);
      TwoReadBack(story, row);
    }
  }

  lemma TwoReadBack(story: seq<AuditEntry>, row: Row)
    requires Tells(story, row) && |story| == 2
    ensures Reconstruct(ReadLog([story[0], story[1]])) == Some(FateOf(row))
    ensures Reconstruct(ReadLog([story[1], story[0]])) == Some(FateOf(row))
  {
    ReadTwo(story[0], story[1]);
    ReadTwo(story[1], story[0]);
  }

  /** Request `r` deleted disbursement `id`, and the log says who asked for it. */
  ghost predicate DeletedBy(c: Config, t0: Tables, w: World, id: Id, log: seq<AuditEntry>, r: nat)
  {
    && r < |c.ops| && c.ops[r].Delete? && c.ops[r].id == id
    && CarriedOut(c, t0, w.history, r, Deleted)
    && AuditEntry(id, c.ops[r].actor, DeletedFrom(Pending)) in log
  }

  lemma AboutIsInLog(log: seq<AuditEntry>, id: Id, e: AuditEntry)
    requires e in About(log, id)
    ensures e in log && e.entityId == id
  {
    AboutCounts(log, id, e);
    assert e in multiset(About(log, id));
    assert e in multiset(log);
  }

  lemma DeletionIsSigned(c: Config, t0: Tables, sched: seq<Step>, id: Id, log: seq<AuditEntry>, story: seq<AuditEntry>)
    returns (r: nat)
    requires var w := Run(c, t0, sched);
             && id in w.t.rows && w.t.rows[id].deletedAt.Some? && Tells(story, w.t.rows[id])
             && multiset(log) == multiset(About(w.audit, id)) == multiset(story)
    ensures DeletedBy(c, t0, Run(c, t0, sched), id, log, r)
  {
    RunKeepsInv(c, t0, sched);
    var w, e := Run(c, t0, sched), story[1];
    assert e in multiset(story) && e in multiset(log) && e in multiset(About(w.audit, id));
    AboutIsInLog(w.audit, id, e);
    var i;
    i, r := AuditNamesCaller(c, t0, sched, e);
    assert e == AuditEntry(id, c.ops[r].actor, DeletedFrom(Pending)) && e in log;
    assert Atomic(Play(c, t0, w.history[..i]), c.ops[r], c.ttl, w.history[i].at).answer.outcome == Deleted;
  }

  /** The audit log as history: when nothing fails and every request has finished,
      the entries about a disbursement, read in any order, give its status, note,
      approver and deletion; there is one entry for its creation and one more iff
      it is no longer live and pending, and none about what does not exist. The entry
      of a deletion names the caller of the request that deleted it. */
  lemma AuditTellsHistory(c: Config, t0: Tables, sched: seq<Step>, id: Id, log: seq<AuditEntry>)
    requires id !in t0.rows && (forall i :: i in t0.rows ==> t0.rows[i].d.id == i)
    requires FaultFree(sched)
    requires var w := Run(c, t0, sched); forall r :: 0 <= r < |w.pcs| ==> w.pcs[r].Done?
    requires multiset(log) == multiset(About(Run(c, t0, sched).audit, id))
    ensures var rows := Run(c, t0, sched).t.rows;
            && (id !in rows ==> log == [])
            && (id in rows ==>
                  && (exists story :: multiset(story) == multiset(log) && Tells(story, rows[id]))
                  && |log| == (if LivePending(rows[id]) then 1 else 2)
                  && Reconstruct(ReadLog(log)) == Some(FateOf(rows[id]))
                  && (rows[id].deletedAt.Some? ==> exists r: nat :: DeletedBy(c, t0, Run(c, t0, sched), id, log, r)))
  {
    RunKeepsInv(c, t0, sched);
    RunAccounted(c, t0, sched);
    var w := Run(c, t0, sched);
    SumOfNothing(Debts(c, w));
    HistoryTells(c, t0, w.history, id);
    var due := DueLog(c, w.history);
    SameEntriesAbout(w.audit, due, id);
    assert |log| == |multiset(log)| == |multiset(About(due, id))| == |About(due, id)|;
    if id in w.t.rows {
      ReadsBack(About(due, id), log, w.t.rows[id]);
      if w.t.rows[id].deletedAt.Some? {
        var r := DeletionIsSigned(c, t0, sched, id, log, About(due, id));
      }
    }
  }
}
