/** What the idempotency key guarantees, and exactly when. */
module Idempotency {
  import opened Entities
  import opened Store
  import opened AtomicSpec
  import opened Protocol
  import opened Linearization

  /** Request `rid` is a create under the well-formed key `k`. */
  predicate OnKey(c: Config, rid: nat, k: string)
  {
    rid < |c.ops| && UsesKey(c.ops[rid], k)
  }

  predicate IsCommit(c: Config, e: Event, k: string)
  {
    OnKey(c, e.rid, k) && e.note.Settle? && e.note.answer.outcome.Created?
  }

  predicate IsRemoval(c: Config, e: Event, k: string)
  {
    OnKey(c, e.rid, k) && e.note.Swept? && e.note.removed.Some?
  }

  /** Disbursements committed under `k`. */
  function Commits(c: Config, h: seq<Event>, k: string): nat
  {
    if h == [] then 0
    else Commits(c, h[..|h| - 1], k) + if IsCommit(c, h[|h| - 1], k) then 1 else 0
  }

  /** Deletes that removed a present row of `k`. */
  function Removals(c: Config, h: seq<Event>, k: string): nat
  {
    if h == [] then 0
    else Removals(c, h[..|h| - 1], k) + if IsRemoval(c, h[|h| - 1], k) then 1 else 0
  }

  function Held(t: Tables, k: string): nat
  {
    if k in t.keys then 1 else 0
  }

  lemma PointMovesKey(t: Tables, op: Op, ttl: Time, at: Time, answered: bool, saw: bool, note: Note, k: string)
    requires NoteOk(t, op, ttl, at, answered, saw, note)
    ensures var t' := ApplyNote(t, op, ttl, at, note);
            if UsesKey(op, k) && note.Settle? && note.answer.outcome.Created? then
              k !in t.keys && k in t'.keys && t'.keys[k] == KeyRowFor(op, ttl)
              && note.answer.outcome.d == Draft(op.req, op.stamp) && Storable(Draft(op.req, op.stamp))
            else if UsesKey(op, k) && note.Swept? then
              k !in t'.keys && (note.removed.Some? <==> k in t.keys)
            else
              FindKey(t', k) == FindKey(t, k)
  {
  }

  lemma {:induction false} HistoryConserves(c: Config, t0: Tables, h: seq<Event>, k: string)
    requires Legal(c, t0, h)
    ensures Commits(c, h, k) + Held(t0, k) == Removals(c, h, k) + Held(Play(c, t0, h), k)
  {
    if h != [] {
      var p, e := h[..|h| - 1], h[|h| - 1];
      HistoryConserves(c, t0, p, k);
      PointMovesKey(Play(c, t0, p), c.ops[e.rid], c.ttl, e.at, e.rid in Answers(p), e.rid in Saws(p), e.note, k);
    }
  }

  /** Conservation, in every run: creations under a key are the removals of a
      present row plus the row that is there now (less the one that was there first). */
  lemma KeyConservation(c: Config, t0: Tables, sched: seq<Step>, k: string)
    ensures var w := Run(c, t0, sched);
            Commits(c, w.history, k) + Held(t0, k) == Removals(c, w.history, k) + Held(w.t, k)
  {
    RunKeepsInv(c, t0, sched);
    HistoryConserves(c, t0, Run(c, t0, sched).history, k);
  }

  lemma {:induction false} PresentUntilRemoved(c: Config, t0: Tables, h: seq<Event>, k: string, i: nat)
    requires Legal(c, t0, h) && i <= |h|
    requires k in Play(c, t0, h[..i]).keys
    requires forall m :: i <= m < |h| ==> !IsRemoval(c, h[m], k)
    ensures k in Play(c, t0, h).keys && Play(c, t0, h).keys[k] == Play(c, t0, h[..i]).keys[k]
  {
    if i == |h| {
      assert h[..i] == h;
    } else {
      var p, e := h[..|h| - 1], h[|h| - 1];
      assert p[..i] == h[..i];
      PresentUntilRemoved(c, t0, p, k, i);
      PointMovesKey(Play(c, t0, p), c.ops[e.rid], c.ttl, e.at, e.rid in Answers(p), e.rid in Saws(p), e.note, k);
    }
  }

  lemma CommitFillsKey(c: Config, t0: Tables, h: seq<Event>, k: string, i: nat)
    requires Legal(c, t0, h) && i < |h| && IsCommit(c, h[i], k)
    ensures k !in Play(c, t0, h[..i]).keys && k in Play(c, t0, h[..i + 1]).keys
  {
    LegalPrefix(c, t0, h, i + 1);
    assert h[..i + 1][..i] == h[..i];
    var p, e := h[..i], h[i];
    PointMovesKey(Play(c, t0, p), c.ops[e.rid], c.ttl, e.at, e.rid in Answers(p), e.rid in Saws(p), e.note, k);
  }

  lemma RemovedBetween(c: Config, t0: Tables, h: seq<Event>, k: string, i: nat, j: nat) returns (m: nat)
    requires Legal(c, t0, h) && i < j < |h| && IsCommit(c, h[i], k) && IsCommit(c, h[j], k)
    ensures i < m < j && IsRemoval(c, h[m], k)
  {
    CommitFillsKey(c, t0, h, k, i);
    CommitFillsKey(c, t0, h, k, j);
    LegalPrefix(c, t0, h, j);
    assert h[..j][..i + 1] == h[..i + 1];
    if m' :| i < m' < j && IsRemoval(c, h[m'], k) {
      m := m';
    } else {
      PresentUntilRemoved(c, t0, h[..j], k, i + 1);
    }
  }

  /** Between any two creations under one key a row of it was removed, by a request
      that had read an expired row of that key before. */
  lemma RemovalBetweenCommits(c: Config, t0: Tables, sched: seq<Step>, k: string, i: nat, j: nat)
    returns (l: nat, m: nat)
    requires var h := Run(c, t0, sched).history; i < j < |h| && IsCommit(c, h[i], k) && IsCommit(c, h[j], k)
    ensures var h := Run(c, t0, sched).history;
            && i < m < j && l < m < |h|
            && IsRemoval(c, h[m], k)
            && h[l].rid == h[m].rid && h[l].note.Saw?
            && FindKey(Play(c, t0, h[..l]), k) == Some(h[l].note.row)
            && Expired(h[l].note.row, c.ops[h[m].rid].stamp.now)
  {
    RunKeepsInv(c, t0, sched);
    var h := Run(c, t0, sched).history;
    m := RemovedBetween(c, t0, h, k, i, j);
    l := SweepIsLicensed(c, t0, h, m);
  }

  /** The first request to commit under `k`. */
  function Creator(c: Config, h: seq<Event>, k: string): Option<nat>
  {
    if h == [] then None
    else if Creator(c, h[..|h| - 1], k).Some? then Creator(c, h[..|h| - 1], k)
    else if IsCommit(c, h[|h| - 1], k) then Some(h[|h| - 1].rid)
    else None
  }

  function ExpiryOf(c: Config, q: nat): Time
    requires q < |c.ops| && c.ops[q].KeyedCreate?
  {
    c.ops[q].stamp.now + c.ttl
  }

  /** No other request on `k` has a clock beyond the expiry of the first committed row. */
  ghost predicate InFirstWindow(c: Config, h: seq<Event>, k: string)
  {
    forall q: nat, r: nat :: Creator(c, h, k) == Some(q) && OnKey(c, q, k) && OnKey(c, r, k) && r != q
      ==> c.ops[r].stamp.now <= ExpiryOf(c, q)
  }

  /** What request `r` on a key created by `q` may answer, faults aside. */
  predicate Verdict(c: Config, q: nat, r: nat, out: Outcome)
    requires q < |c.ops| && c.ops[q].KeyedCreate? && r < |c.ops| && c.ops[r].KeyedCreate?
  {
    var d := Draft(c.ops[q].req, c.ops[q].stamp);
    if r == q then out == Created(d)
    else
      || out == Internal(RowRefused)
      || (if c.ops[r].userId == c.ops[q].userId && c.ops[r].digest == c.ops[q].digest
          then out == Replayed(d) else out == KeyMismatch)
  }

  /** Within its first window a key is only ever settled on, never expired. */
  ghost predicate WindowShape(c: Config, t0: Tables, h: seq<Event>, k: string)
  {
    && (forall i :: 0 <= i < |h| && OnKey(c, h[i].rid, k) ==> h[i].note.Settle?)
    && match Creator(c, h, k)
       case None =>
         && Commits(c, h, k) == 0 && k !in Play(c, t0, h).keys
         && (forall r: nat :: OnKey(c, r, k) && r in Answers(h) ==> Answers(h)[r].outcome == Internal(RowRefused))
       case Some(q) =>
         && OnKey(c, q, k) && Commits(c, h, k) == 1
         && FindKey(Play(c, t0, h), k) == Some(KeyRowFor(c.ops[q], c.ttl))
         && q in Answers(h)
         && (forall r: nat :: OnKey(c, r, k) && r in Answers(h) ==> Verdict(c, q, r, Answers(h)[r].outcome))
  }

  lemma WindowRowIsLive(c: Config, t0: Tables, h: seq<Event>, r: nat, k: string)
    requires InFirstWindow(c, h, k) && WindowShape(c, t0, h, k)
    requires OnKey(c, r, k) && r !in Answers(h) && k in Play(c, t0, h).keys
    ensures !Expired(Play(c, t0, h).keys[k], c.ops[r].stamp.now)
  {
    match Creator(c, h, k)
    case None =>
    case Some(q) =>
      assert q in Answers(h) && r != q;
      assert FindKey(Play(c, t0, h), k) == Some(KeyRowFor(c.ops[q], c.ttl));
      assert c.ops[r].stamp.now <= ExpiryOf(c, q);
  }

  /** In the first window nobody on the key sees or sweeps. */
  lemma WindowSettles(c: Config, t0: Tables, p: seq<Event>, e: Event, k: string)
    requires Legal(c, t0, p) && EventOk(c, Play(c, t0, p), p, e) && OnKey(c, e.rid, k)
    requires InFirstWindow(c, p, k) && WindowShape(c, t0, p, k)
    ensures e.note.Settle?
  {
    if e.note.Swept? {
      var l := SawHasPoint(c, t0, p, e.rid);
      assert false;
    } else if e.note.Saw? {
      WindowRowIsLive(c, t0, p, e.rid, k);
    }
  }

  lemma {:induction false} HistoryWindow(c: Config, t0: Tables, h: seq<Event>, k: string)
    requires Legal(c, t0, h) && k !in t0.keys && InFirstWindow(c, h, k)
    ensures WindowShape(c, t0, h, k)
  {
    if h != [] {
      var p, e := h[..|h| - 1], h[|h| - 1];
      HistoryWindow(c, t0, p, k);
      var t := Play(c, t0, p);
      PointMovesKey(t, c.ops[e.rid], c.ttl, e.at, e.rid in Answers(p), e.rid in Saws(p), e.note, k);
      if OnKey(c, e.rid, k) {
        WindowSettles(c, t0, p, e, k);
      }
      forall i | 0 <= i < |h| && OnKey(c, h[i].rid, k) ensures h[i].note.Settle? {
        if i < |h| - 1 {
          assert h[i] == p[i];
        }
      }
    }
  }

  ghost predicate NoSweeps(c: Config, h: seq<Event>, k: string)
  {
    forall i :: 0 <= i < |h| && OnKey(c, h[i].rid, k) ==> !h[i].note.Swept?
  }

  /** While nothing is swept, a request that lost the insert finds the row that beat it. */
  ghost predicate FindsKey(c: Config, w: World, k: string)
  {
    && |w.pcs| == |c.ops|
    && forall r: nat :: OnKey(c, r, k) ==>
         && (w.pcs[r].Finding? ==> k in w.t.keys)
         && w.pcs[r] != Done(Internal(RowMissing)) && w.pcs[r] != Done(RetryConflict)
  }

  lemma ActFindsKey(t: Tables, answers: map<nat, Answer>, saws: map<nat, KeyRow>,
                    rid: nat, op: Op, pc: Pc, ttl: Time, at: Time, k: string)
    requires PcOk(t, answers, saws, rid, op, pc) && !pc.Done? && !pc.Auditing?
    requires UsesKey(op, k) && pc.Finding? ==> k in t.keys
    requires var m := Act(t, op, pc, ttl, at); !(UsesKey(op, k) && m.note.Swept?)
    ensures var m := Act(t, op, pc, ttl, at);
            && (k in t.keys ==> k in m.t.keys)
            && (UsesKey(op, k) ==>
                  && (m.pc.Finding? ==> k in m.t.keys)
                  && m.pc != Done(Internal(RowMissing)) && m.pc != Done(RetryConflict))
  {
  }

  lemma SweepIsRecorded(c: Config, w: World, s: Step, k: string)
    requires Moves(c, w, s)
    ensures var m := Act(w.t, c.ops[s.rid], w.pcs[s.rid], c.ttl, s.at);
            UsesKey(c.ops[s.rid], k) && m.note.Swept? ==> !NoSweeps(c, Next(c, w, s).history, k)
  {
    var m := Act(w.t, c.ops[s.rid], w.pcs[s.rid], c.ttl, s.at);
    if UsesKey(c.ops[s.rid], k) && m.note.Swept? {
      assert Next(c, w, s).history[|w.history|] == Event(s.rid, s.at, m.note);
      assert OnKey(c, s.rid, k);
    }
  }

  lemma NextFindsKey(c: Config, t0: Tables, w: World, s: Step, k: string)
    requires Inv(c, t0, w) && FindsKey(c, w, k)
    requires NoSweeps(c, Next(c, w, s).history, k)
    ensures FindsKey(c, Next(c, w, s), k)
  {
    var w' := Next(c, w, s);
    if Moves(c, w, s) {
      var op, pc := c.ops[s.rid], w.pcs[s.rid];
      SweepIsRecorded(c, w, s, k);
      ActFindsKey(w.t, Answers(w.history), Saws(w.history), s.rid, op, pc, c.ttl, s.at, k);
    }
  }

  lemma {:induction false} RunFindsKey(c: Config, t0: Tables, sched: seq<Step>, k: string)
    requires NoSweeps(c, Run(c, t0, sched).history, k)
    ensures FindsKey(c, Run(c, t0, sched), k)
  {
    if sched != [] {
      var w, s := Run(c, t0, sched[..|sched| - 1]), sched[|sched| - 1];
      assert w.history <= Next(c, w, s).history;
      assert forall i :: 0 <= i < |w.history| ==> w.history[i] == Next(c, w, s).history[i];
      RunFindsKey(c, t0, sched[..|sched| - 1], k);
      RunKeepsInv(c, t0, sched[..|sched| - 1]);
      NextFindsKey(c, t0, w, s, k);
    }
  }

  /** The windowed answers, for one finished request. */
  ghost predicate WindowedAnswer(c: Config, h: seq<Event>, k: string, r: nat, out: Outcome)
    requires OnKey(c, r, k)
  {
    match Creator(c, h, k)
    case None => out in {Internal(DbFault), Internal(RowRefused)}
    case Some(q) => OnKey(c, q, k) && (out == Internal(DbFault) || Verdict(c, q, r, out))
  }

  lemma FinishedInWindow(c: Config, t0: Tables, h: seq<Event>, k: string, r: nat, out: Outcome)
    requires WindowShape(c, t0, h, k) && OnKey(c, r, k)
    requires Explained(Answers(h), r, out)
    requires out != Internal(RowMissing) && out != RetryConflict
    ensures WindowedAnswer(c, h, k, r, out)
  {
  }

  /** One disbursement per window, over every interleaving. If `k` has no row at the
      start and no other request's clock passes the expiry of the first row
      committed, then at most one disbursement is created under `k`, nothing is
      removed, and every request answers with that one creation or a mismatch. */
  lemma OneDisbursementPerWindow(c: Config, t0: Tables, sched: seq<Step>, k: string)
    requires k !in t0.keys && InFirstWindow(c, Run(c, t0, sched).history, k)
    ensures var w := Run(c, t0, sched);
            && |w.pcs| == |c.ops|
            && Commits(c, w.history, k) <= 1 && Removals(c, w.history, k) == 0
            && (forall q: nat :: Creator(c, w.history, k) == Some(q)
                  ==> OnKey(c, q, k) && FindKey(w.t, k) == Some(KeyRowFor(c.ops[q], c.ttl)))
            && forall r: nat :: OnKey(c, r, k) ==>
                 && !w.pcs[r].Deleting?
                 && (w.pcs[r].Done? ==> WindowedAnswer(c, w.history, k, r, w.pcs[r].outcome))
  {
    RunKeepsInv(c, t0, sched);
    var w := Run(c, t0, sched);
    HistoryWindow(c, t0, w.history, k);
    HistoryConserves(c, t0, w.history, k);
    RunFindsKey(c, t0, sched, k);
    forall r: nat | OnKey(c, r, k)
      ensures !w.pcs[r].Deleting?
      ensures w.pcs[r].Done? ==> WindowedAnswer(c, w.history, k, r, w.pcs[r].outcome)
    {
      if w.pcs[r].Done? {
        FinishedInWindow(c, t0, w.history, k, r, w.pcs[r].outcome);
      } else if w.pcs[r].Deleting? {
        var l := SawHasPoint(c, t0, w.history, r);
      }
    }
  }
}
