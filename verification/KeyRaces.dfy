/** The races around a key row: what they can do, and the exact condition under
    which they cannot happen. */
module KeyRaces {
  import opened Entities
  import opened Store
  import opened AtomicSpec
  import opened Protocol
  import opened Linearization
  import opened Idempotency
  import opened Schedules
  import opened KeyRows

  // ---------- A fresh key commits once, if and only if nobody can replace a row ----------

  lemma CreatesThenClears(c: Config, t0: Tables, s0: seq<Step>, q: nat, s: nat, k: string) returns (sched: seq<Step>)
    requires Stores(c, q, k) && Past(c, k, s, q)
    requires var w := Run(c, t0, s0);
             && |w.pcs| == |c.ops| && k !in w.t.keys && DraftOf(c, q).id !in w.t.rows
             && Ready(w.pcs[q]) && Ready(w.pcs[s])
    ensures var w, w' := Run(c, t0, s0), Run(c, t0, sched);
            && w'.t.rows == w.t.rows[DraftOf(c, q).id := Row(DraftOf(c, q), None)] && k !in w'.t.keys
            && |w'.pcs| == |c.ops| && w'.pcs[s] == AfterDelete(RoundOf(w.pcs[s]))
            && (forall r: nat :: r < |c.ops| && r != q && r != s ==> w'.pcs[r] == w.pcs[r])
            && w.history + [CommitBy(c, q)] <= w'.history
            && Commits(c, w'.history, k) == Commits(c, w.history, k) + 1
  {
    var s1 := Creates(c, t0, s0, q, k);
    sched := Clears(c, t0, s1, s, k);
  }

  /** `q` creates; `s`, past that row's expiry, deletes it; `r`, which may be `s` in
      its second round, creates again. */
  lemma Recreates(c: Config, t0: Tables, s0: seq<Step>, q: nat, s: nat, r: nat, k: string)
    returns (sched: seq<Step>, i: nat, j: nat)
    requires NewIds(c, t0, k) && Stores(c, q, k) && Stores(c, r, k) && q != r && Past(c, k, s, q)
    requires var w := Run(c, t0, s0); KeyFree(c, t0, w, k) && (r == s ==> w.pcs[s].Start?)
    ensures var h := Run(c, t0, sched).history;
            && i < j < |h| && h[i] == CommitBy(c, q) && h[j] == CommitBy(c, r)
            && Commits(c, h, k) == 2
  {
    var s2 := CreatesThenClears(c, t0, s0, q, s, k);
    i, j := |Run(c, t0, s0).history|, |Run(c, t0, s2).history|;
    sched := Creates(c, t0, s2, r, k);
    assert (Run(c, t0, s0).history + [CommitBy(c, q)])[i] == CommitBy(c, q);
  }

  /** Nobody is past the expiry a storable request sets, or only one can be stored. */
  ghost predicate NoneReplaces(c: Config, k: string)
  {
    forall q: nat, r: nat, s: nat :: Stores(c, q, k) && Stores(c, r, k) && q != r ==> !Past(c, k, s, q)
  }

  lemma TwoCommitsReplace(c: Config, t0: Tables, h: seq<Event>, k: string)
    requires Legal(c, t0, h) && k !in t0.keys && Commits(c, h, k) >= 2
    ensures !NoneReplaces(c, k)
  {
    var i, j := TwoCommitPoints(c, h, k);
    var m := RemovedBetween(c, t0, h, k, i, j);
    var q := RemoverWasPast(c, t0, h, k, m);
    CommitterStores(c, t0, h, k, i);
    CommitterStores(c, t0, h, k, j);
    CarriedOutOnce(c, t0, h, i, j);
    assert Past(c, k, h[m].rid, q) && (q != h[i].rid || q != h[j].rid);
  }

  /** A key that starts free yields at most one disbursement under every schedule if
      and only if no clock passes the expiry that a storable request would set, or
      only one request can be stored. */
  lemma FreshKeyCommitsOnceIff(c: Config, t0: Tables, k: string)
    requires k !in t0.keys && NewIds(c, t0, k)
    ensures (forall sched :: Commits(c, Run(c, t0, sched).history, k) <= 1) <==> NoneReplaces(c, k)
  {
    if NoneReplaces(c, k) {
      forall sched ensures Commits(c, Run(c, t0, sched).history, k) <= 1 {
        RunKeepsInv(c, t0, sched);
        if Commits(c, Run(c, t0, sched).history, k) > 1 {
          TwoCommitsReplace(c, t0, Run(c, t0, sched).history, k);
        }
      }
    } else {
      var q: nat, r: nat, s: nat :| Stores(c, q, k) && Stores(c, r, k) && q != r && Past(c, k, s, q);
      StartsFree(c, t0, k);
      var sched, i, j := Recreates(c, t0, [], q, s, r, k);
    }
  }

  // ---------- Two readers of one expired row ----------

  lemma BothSee(c: Config, t0: Tables, sched: seq<Step>, a: nat, b: nat, k: string) returns (sched': seq<Step>)
    requires OnKey(c, a, k) && OnKey(c, b, k) && a != b
    requires var w := Run(c, t0, sched);
             && |w.pcs| == |c.ops| && Ready(w.pcs[a]) && Ready(w.pcs[b]) && k in w.t.keys
             && Expired(w.t.keys[k], c.ops[a].stamp.now) && Expired(w.t.keys[k], c.ops[b].stamp.now)
    ensures var w, w' := Run(c, t0, sched), Run(c, t0, sched');
            var row := w.t.keys[k];
            && w'.t == w.t
            && w'.pcs == w.pcs[a := Deleting(RoundOf(w.pcs[a]), row)][b := Deleting(RoundOf(w.pcs[b]), row)]
            && w.history <= w'.history && Commits(c, w'.history, k) == Commits(c, w.history, k)
            && b in Saws(w'.history) && Saws(w'.history)[b] == row
  {
    var s1 := Sees(c, t0, sched, a, k);
    sched' := Sees(c, t0, s1, b, k);
  }

  /** After the delete by `a`, a creator is at an insert. */
  predicate ReadyAfter(pcs: seq<Pc>, a: nat, t: nat)
    requires a < |pcs| && t < |pcs|
  {
    if t == a then pcs[a].Deleting? && pcs[a].round == 0 else Ready(pcs[t])
  }

  lemma SweepThenCreate(c: Config, t0: Tables, sched: seq<Step>, a: nat, t: nat, k: string) returns (sched': seq<Step>)
    requires OnKey(c, a, k) && Stores(c, t, k)
    requires var w := Run(c, t0, sched);
             |w.pcs| == |c.ops| && w.pcs[a].Deleting? && ReadyAfter(w.pcs, a, t) && DraftOf(c, t).id !in w.t.rows
    ensures var w, w' := Run(c, t0, sched), Run(c, t0, sched');
            && w'.t == CommitTables(c, DeleteKey(w.t, k), t, k)
            && |w'.pcs| == |c.ops|
            && (forall r: nat :: r < |c.ops| && r != t ==>
                  w'.pcs[r] == if r == a then AfterDelete(w.pcs[r].round) else w.pcs[r])
            && w'.history == w.history + [Event(a, 0, Swept(FindKey(w.t, k))), CommitBy(c, t)]
            && Commits(c, w'.history, k) == Commits(c, w.history, k) + 1
            && Saws(w'.history) == Saws(w.history)
  {
    var s1 := Sweeps(c, t0, sched, a, k);
    sched' := Creates(c, t0, s1, t, k);
  }

  /** Both `a` and `b` are about to delete; `a` does, and `t`, which may be `a`,
      creates; then `b`, deleting by key alone, removes the new row. */
  lemma StaleSweep(c: Config, t0: Tables, sched: seq<Step>, a: nat, t: nat, b: nat, k: string)
    returns (sched': seq<Step>)
    requires OnKey(c, a, k) && OnKey(c, b, k) && Stores(c, t, k) && a != b && t != b
    requires var w := Run(c, t0, sched);
             && |w.pcs| == |c.ops| && w.pcs[a].Deleting? && w.pcs[b].Deleting? && ReadyAfter(w.pcs, a, t)
             && DraftOf(c, t).id !in w.t.rows && b in Saws(w.history)
    ensures var w, w' := Run(c, t0, sched), Run(c, t0, sched');
            var n := |w.history|;
            && w'.t.rows == w.t.rows[DraftOf(c, t).id := Row(DraftOf(c, t), None)] && k !in w'.t.keys
            && |w'.pcs| == |c.ops|
            && (forall r: nat :: r < |c.ops| && r != t ==>
                  w'.pcs[r] == if r == a || r == b then AfterDelete(w.pcs[r].round) else w.pcs[r])
            && |w'.history| == n + 3 && w.history <= w'.history && w'.history[n + 1] == CommitBy(c, t)
            && w'.history[n + 2] == Event(b, 0, Swept(Some(KeyRowFor(c.ops[t], c.ttl))))
            && Commits(c, w'.history, k) == Commits(c, w.history, k) + 1
            && b in Saws(w'.history[..n + 2]) && Saws(w'.history[..n + 2])[b] == Saws(w.history)[b]
  {
    var s2 := SweepThenCreate(c, t0, sched, a, t, k);
    sched' := Sweeps(c, t0, s2, b, k);
    assert Run(c, t0, sched').history[..|Run(c, t0, sched).history| + 2] == Run(c, t0, s2).history;
  }

  // ---------- Deletes remove the row that was read, if and only if ----------

  /** Every delete on `k` that removes a row removes the row its request had read. */
  ghost predicate HonestSweeps(c: Config, h: seq<Event>, k: string)
  {
    forall i :: 0 <= i < |h| && IsRemoval(c, h[i], k)
      ==> h[i].rid in Saws(h[..i]) && Saws(h[..i])[h[i].rid] == h[i].note.removed.value
  }

  /** Two requests see an expired row; a third, or the first to delete it, puts its
      own row in the place, and the second deletes that. */
  lemma DishonestSweep(c: Config, t0: Tables, s0: seq<Step>, a: nat, t: nat, b: nat, k: string)
    returns (sched: seq<Step>)
    requires OnKey(c, a, k) && OnKey(c, b, k) && Stores(c, t, k) && a != b && t != b
    requires var w := Run(c, t0, s0);
             && |w.pcs| == |c.ops| && Ready(w.pcs[a]) && Ready(w.pcs[b]) && Ready(w.pcs[t])
             && (t == a ==> w.pcs[a].Start?) && k in w.t.keys
             && Expired(w.t.keys[k], c.ops[a].stamp.now) && Expired(w.t.keys[k], c.ops[b].stamp.now)
             && DraftOf(c, t).id !in w.t.rows && w.t.keys[k].body.id != DraftOf(c, t).id
    ensures !HonestSweeps(c, Run(c, t0, sched).history, k)
  {
    var s1 := BothSee(c, t0, s0, a, b, k);
    sched := StaleSweep(c, t0, s1, a, t, b, k);
    var n, h := |Run(c, t0, s1).history|, Run(c, t0, sched).history;
    assert IsRemoval(c, h[n + 2], k);
  }

  lemma DishonestAfterCreate(c: Config, t0: Tables, s0: seq<Step>, q: nat, a: nat, t: nat, b: nat, k: string)
    returns (sched: seq<Step>)
    requires NewIds(c, t0, k) && Stores(c, q, k) && Stores(c, t, k) && t != q && t != b && a != b
    requires Past(c, k, a, q) && Past(c, k, b, q)
    requires KeyFree(c, t0, Run(c, t0, s0), k) && (t == a ==> Run(c, t0, s0).pcs[a].Start?)
    ensures !HonestSweeps(c, Run(c, t0, sched).history, k)
  {
    var s1 := Creates(c, t0, s0, q, k);
    sched := DishonestSweep(c, t0, s1, a, t, b, k);
  }

  /** If two requests are past the first row, nothing can be stored. */
  ghost predicate FirstRowHonest(c: Config, x: KeyRow, k: string)
  {
    forall a: nat, b: nat, t: nat ::
      OnKey(c, a, k) && OnKey(c, b, k) && a != b && Expired(x, c.ops[a].stamp.now) && Expired(x, c.ops[b].stamp.now)
      ==> !Stores(c, t, k)
  }

  /** If two requests are past the expiry that a storable one, `q`, would set, then no
      other can be stored, but for one of the two that spends its first round on the
      row the key starts with. */
  ghost predicate LaterRowsHonest(c: Config, t0: Tables, k: string)
  {
    forall q: nat, t: nat, a: nat, b: nat ::
      Stores(c, q, k) && Stores(c, t, k) && q != t && Past(c, k, a, q) && Past(c, k, b, q) && a != b
      ==> k in t0.keys && Expired(t0.keys[k], c.ops[t].stamp.now) && (t == a || t == b)
  }

  /** Nobody finds the first row expired; or no two readers of an expired row leave a
      third party to write in between. */
  ghost predicate NoStaleReader(c: Config, t0: Tables, k: string)
  {
    || (k in t0.keys && NoneFindsExpired(c, t0.keys[k], k))
    || ((k in t0.keys ==> FirstRowHonest(c, t0.keys[k], k)) && LaterRowsHonest(c, t0, k))
  }

  /** No request that can be stored will create any more. */
  ghost predicate NoMoreRows(c: Config, w: World, k: string)
    requires |w.pcs| == |c.ops|
  {
    forall u: nat :: Stores(c, u, k) ==>
      u in Answers(w.history) || w.pcs[u].Done? || (w.pcs[u].Deleting? && w.pcs[u].round == 1)
  }

  /** Once the first row is gone, a storable request past it is in its second round. */
  ghost predicate FirstRoundSpent(c: Config, t0: Tables, w: World, k: string)
    requires |w.pcs| == |c.ops|
  {
    k in t0.keys && !NoSweeps(c, w.history, k) ==>
      forall u: nat :: Stores(c, u, k) && Expired(t0.keys[k], c.ops[u].stamp.now) ==> SecondRound(w.pcs[u])
  }

  /** A row that was read expired stays until its reader deletes it, or the key stays
      empty for good. */
  ghost predicate SweepersHoldRow(c: Config, t0: Tables, w: World, k: string)
  {
    && |w.pcs| == |c.ops|
    && HonestSweeps(c, w.history, k)
    && FirstRoundSpent(c, t0, w, k)
    && forall r: nat :: OnKey(c, r, k) && w.pcs[r].Deleting? ==>
         || FindKey(w.t, k) == Some(w.pcs[r].existing)
         || (FindKey(w.t, k) == None && NoMoreRows(c, w, k))
  }

  /** Two requests about to delete the same row: nobody is left to write another. */
  lemma TwoReadersLeaveNone(c: Config, t0: Tables, w: World, k: string, r: nat, s: nat, u: nat)
    requires Inv(c, t0, w) && SweepersHoldRow(c, t0, w, k)
    requires (k in t0.keys ==> FirstRowHonest(c, t0.keys[k], k)) && LaterRowsHonest(c, t0, k)
    requires OnKey(c, r, k) && OnKey(c, s, k) && r != s && w.pcs[r].Deleting? && w.pcs[s].Deleting?
    requires FindKey(w.t, k) == Some(w.pcs[r].existing) == Some(w.pcs[s].existing) && Stores(c, u, k)
    ensures u in Answers(w.history) || ((u == r || u == s) && w.pcs[u].round == 1)
  {
    var h := w.history;
    assert PcOk(w.t, Answers(h), Saws(h), r, c.ops[r], w.pcs[r]);
    assert PcOk(w.t, Answers(h), Saws(h), s, c.ops[s], w.pcs[s]);
    if k in t0.keys && NoSweeps(c, h, k) {
      UnsweptRow(c, t0, h, k);
    } else {
      var q := KeyRowOrigin(c, t0, h, k);
      assert Past(c, k, r, q) && Past(c, k, s, q);
    }
  }

  lemma ActOnKeyRow(t: Tables, answers: map<nat, Answer>, saws: map<nat, KeyRow>,
                    rid: nat, op: Op, pc: Pc, ttl: Time, at: Time, k: string)
    requires PcOk(t, answers, saws, rid, op, pc) && !pc.Done? && !pc.Auditing?
    ensures var m := Act(t, op, pc, ttl, at);
            && (k in t.keys && !(UsesKey(op, k) && pc.Deleting?) ==> FindKey(m.t, k) == FindKey(t, k))
            && (UsesKey(op, k) && m.pc.Deleting? ==> FindKey(m.t, k) == Some(m.pc.existing))
            && (m.note.Swept? ==> pc.Deleting? && m.note.removed == FindKey(t, op.key))
            && (pc.Deleting? ==> !m.pc.Deleting? && m.note.Swept?)
            && (UsesKey(op, k) && pc.Deleting? ==> FindKey(m.t, k) == None && m.pc == AfterDelete(pc.round))
  {
  }

  /** A step of a request that creates nothing more leaves an empty key empty. */
  lemma ActWritesNoMore(t: Tables, answers: map<nat, Answer>, saws: map<nat, KeyRow>,
                        rid: nat, op: Op, pc: Pc, ttl: Time, at: Time, k: string)
    requires PcOk(t, answers, saws, rid, op, pc) && !pc.Done? && !pc.Auditing? && k !in t.keys
    requires UsesKey(op, k) && Storable(Draft(op.req, op.stamp)) ==> pc.Deleting? && pc.round == 1
    ensures var m := Act(t, op, pc, ttl, at);
            && k !in m.t.keys
            && (UsesKey(op, k) && Storable(Draft(op.req, op.stamp)) ==> m.pc == Done(RetryConflict))
  {
  }

  lemma MoveStaysEmpty(c: Config, t0: Tables, w: World, s: Step, k: string)
    requires Inv(c, t0, w) && Moves(c, w, s) && k !in w.t.keys && NoMoreRows(c, w, k)
    ensures var w' := Next(c, w, s); k !in w'.t.keys && |w'.pcs| == |c.ops| && NoMoreRows(c, w', k)
  {
    var op, pc, h := c.ops[s.rid], w.pcs[s.rid], w.history;
    var m := Act(w.t, op, pc, c.ttl, s.at);
    assert PcOk(w.t, Answers(h), Saws(h), s.rid, op, pc);
    assert OnKey(c, s.rid, k) ==> s.rid !in Answers(h);
    ActWritesNoMore(w.t, Answers(h), Saws(h), s.rid, op, pc, c.ttl, s.at, k);
    AnswersAdd(h, s.rid, s.at, m.note);
  }

  lemma MoveSpendsFirstRound(c: Config, t0: Tables, w: World, s: Step, k: string)
    requires Inv(c, t0, w) && Moves(c, w, s) && k in t0.keys && FirstRoundSpent(c, t0, w, k)
    requires FirstRowHonest(c, t0.keys[k], k)
    ensures |Next(c, w, s).pcs| == |c.ops| && FirstRoundSpent(c, t0, Next(c, w, s), k)
  {
    var op, pc, h := c.ops[s.rid], w.pcs[s.rid], w.history;
    var m := Act(w.t, op, pc, c.ttl, s.at);
    assert PcOk(w.t, Answers(h), Saws(h), s.rid, op, pc);
    ActOnKeyRow(w.t, Answers(h), Saws(h), s.rid, op, pc, c.ttl, s.at, k);
    SweptForGood(c, h, s.rid, s.at, m.note, k);
    if NoSweeps(c, h, k) && OnKey(c, s.rid, k) && m.note.Swept? {
      FirstSweeperIsPast(c, t0, h, k, s.rid);
    }
  }

  lemma MoveKeepsHonest(c: Config, t0: Tables, w: World, s: Step, k: string)
    requires Inv(c, t0, w) && Moves(c, w, s) && SweepersHoldRow(c, t0, w, k)
    ensures HonestSweeps(c, Next(c, w, s).history, k)
  {
    var h, h' := w.history, Next(c, w, s).history;
    assert PcOk(w.t, Answers(h), Saws(h), s.rid, c.ops[s.rid], w.pcs[s.rid]);
    ActOnKeyRow(w.t, Answers(h), Saws(h), s.rid, c.ops[s.rid], w.pcs[s.rid], c.ttl, s.at, k);
    forall i | 0 <= i < |h'| && IsRemoval(c, h'[i], k)
      ensures h'[i].rid in Saws(h'[..i]) && Saws(h'[..i])[h'[i].rid] == h'[i].note.removed.value
    {
      if i < |h| {
        assert h'[..i] == h[..i] && h'[i] == h[i];
      } else {
        assert h'[..i] == h;
      }
    }
  }

  lemma MoveHoldsRow(c: Config, t0: Tables, w: World, s: Step, k: string, r: nat)
    requires Inv(c, t0, w) && Moves(c, w, s) && SweepersHoldRow(c, t0, w, k)
    requires (k in t0.keys ==> FirstRowHonest(c, t0.keys[k], k)) && LaterRowsHonest(c, t0, k)
    requires OnKey(c, r, k) && Next(c, w, s).pcs[r].Deleting?
    ensures var w' := Next(c, w, s);
            && |w'.pcs| == |c.ops|
            && (|| FindKey(w'.t, k) == Some(w'.pcs[r].existing)
                || (FindKey(w'.t, k) == None && NoMoreRows(c, w', k)))
  {
    var op, pc, h, w' := c.ops[s.rid], w.pcs[s.rid], w.history, Next(c, w, s);
    var m := Act(w.t, op, pc, c.ttl, s.at);
    ActOnKeyRow(w.t, Answers(h), Saws(h), s.rid, op, pc, c.ttl, s.at, k);
    if r != s.rid {
      if k !in w.t.keys {
        MoveStaysEmpty(c, t0, w, s, k);
      } else if UsesKey(op, k) && pc.Deleting? {
        AnswersAdd(h, s.rid, s.at, m.note);
        forall u: nat | Stores(c, u, k)
          ensures u in Answers(w'.history) || w'.pcs[u].Done? || (w'.pcs[u].Deleting? && w'.pcs[u].round == 1)
        {
          TwoReadersLeaveNone(c, t0, w, k, r, s.rid, u);
        }
      }
    }
  }

  lemma NextHoldsRow(c: Config, t0: Tables, w: World, s: Step, k: string)
    requires Inv(c, t0, w) && SweepersHoldRow(c, t0, w, k)
    requires (k in t0.keys ==> FirstRowHonest(c, t0.keys[k], k)) && LaterRowsHonest(c, t0, k)
    ensures SweepersHoldRow(c, t0, Next(c, w, s), k)
  {
    var w' := Next(c, w, s);
    if Moves(c, w, s) {
      MoveKeepsHonest(c, t0, w, s, k);
      if k in t0.keys {
        MoveSpendsFirstRound(c, t0, w, s, k);
      }
      forall r: nat | OnKey(c, r, k) && w'.pcs[r].Deleting?
        ensures || FindKey(w'.t, k) == Some(w'.pcs[r].existing)
                || (FindKey(w'.t, k) == None && NoMoreRows(c, w', k))
      {
        MoveHoldsRow(c, t0, w, s, k, r);
      }
    } else {
      assert w'.t == w.t && w'.history == w.history;
      assert NoMoreRows(c, w, k) ==> NoMoreRows(c, w', k);
    }
  }

  lemma {:induction false} RunHoldsRow(c: Config, t0: Tables, sched: seq<Step>, k: string)
    requires (k in t0.keys ==> FirstRowHonest(c, t0.keys[k], k)) && LaterRowsHonest(c, t0, k)
    ensures SweepersHoldRow(c, t0, Run(c, t0, sched), k)
  {
    if sched != [] {
      RunHoldsRow(c, t0, sched[..|sched| - 1], k);
      RunKeepsInv(c, t0, sched[..|sched| - 1]);
      NextHoldsRow(c, t0, Run(c, t0, sched[..|sched| - 1]), sched[|sched| - 1], k);
    }
  }

  lemma NoStaleReaderIsHonest(c: Config, t0: Tables, sched: seq<Step>, k: string)
    requires NoStaleReader(c, t0, k)
    ensures HonestSweeps(c, Run(c, t0, sched).history, k)
  {
    if k in t0.keys && NoneFindsExpired(c, t0.keys[k], k) {
      RunKeepsInv(c, t0, sched);
      UntouchedKey(c, t0, Run(c, t0, sched).history, k);
    } else {
      RunHoldsRow(c, t0, sched, k);
    }
  }

  /** Two readers of the first row. */
  lemma FirstRowStale(c: Config, t0: Tables, k: string) returns (sched: seq<Step>)
    requires NewIds(c, t0, k) && k in t0.keys && t0.keys[k].body.id in t0.rows
    requires !FirstRowHonest(c, t0.keys[k], k)
    ensures !HonestSweeps(c, Run(c, t0, sched).history, k)
  {
    var x := t0.keys[k];
    var a: nat, b: nat, t: nat :|
      OnKey(c, a, k) && OnKey(c, b, k) && a != b && Expired(x, c.ops[a].stamp.now) && Expired(x, c.ops[b].stamp.now)
      && Stores(c, t, k);
    if b != t {
      sched := DishonestSweep(c, t0, [], a, t, b, k);
    } else {
      sched := DishonestSweep(c, t0, [], b, t, a, k);
    }
  }

  /** Two readers of the row of `q`, on a key that comes free. */
  lemma ReadersOfLaterRow(c: Config, t0: Tables, q: nat, a: nat, t: nat, b: nat, k: string) returns (sched: seq<Step>)
    requires NewIds(c, t0, k) && Stores(c, q, k) && Stores(c, t, k) && q != t && t != b && a != b
    requires Past(c, k, a, q) && Past(c, k, b, q)
    requires k in t0.keys ==>
               !NoneFindsExpired(c, t0.keys[k], k) && (t == a ==> !Expired(t0.keys[k], c.ops[t].stamp.now))
    ensures !HonestSweeps(c, Run(c, t0, sched).history, k)
  {
    if k in t0.keys {
      var p: nat :| OnKey(c, p, k) && Expired(t0.keys[k], c.ops[p].stamp.now);
      var s0 := FreesKey(c, t0, p, k);
      sched := DishonestAfterCreate(c, t0, s0, q, a, t, b, k);
    } else {
      StartsFree(c, t0, k);
      sched := DishonestAfterCreate(c, t0, [], q, a, t, b, k);
    }
  }

  lemma LaterRowStale(c: Config, t0: Tables, k: string) returns (sched: seq<Step>)
    requires NewIds(c, t0, k) && !LaterRowsHonest(c, t0, k)
    requires k in t0.keys ==> !NoneFindsExpired(c, t0.keys[k], k)
    ensures !HonestSweeps(c, Run(c, t0, sched).history, k)
  {
    var q: nat, t: nat, a: nat, b: nat :|
      Stores(c, q, k) && Stores(c, t, k) && q != t && Past(c, k, a, q) && Past(c, k, b, q) && a != b
      && !(k in t0.keys && Expired(t0.keys[k], c.ops[t].stamp.now) && (t == a || t == b));
    if b != t {
      sched := ReadersOfLaterRow(c, t0, q, a, t, b, k);
    } else {
      sched := ReadersOfLaterRow(c, t0, q, b, t, a, k);
    }
  }

  /** The delete goes by key alone. It removes only the row its request had read
      expired, under every schedule, if and only if no two readers of an expired row
      leave a third party to write in between; or the key starts with a row that
      nobody finds expired. */
  lemma SweepsAreHonestIff(c: Config, t0: Tables, k: string)
    requires NewIds(c, t0, k) && (k in t0.keys ==> t0.keys[k].body.id in t0.rows)
    ensures (forall sched :: HonestSweeps(c, Run(c, t0, sched).history, k)) <==> NoStaleReader(c, t0, k)
  {
    if NoStaleReader(c, t0, k) {
      forall sched ensures HonestSweeps(c, Run(c, t0, sched).history, k) {
        NoStaleReaderIsHonest(c, t0, sched, k);
      }
    } else if k in t0.keys && !FirstRowHonest(c, t0.keys[k], k) {
      var sched := FirstRowStale(c, t0, k);
    } else {
      var sched := LaterRowStale(c, t0, k);
    }
  }
}
