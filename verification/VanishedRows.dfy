/** A keyed create can lose its insert to a row that is gone when it looks: it is
    then answered a server error although nothing failed. When that happens. */
module VanishedRows {
  import opened Entities
  import opened Store
  import opened AtomicSpec
  import opened Protocol
  import opened Linearization
  import opened Idempotency
  import opened Schedules
  import opened KeyRows

  /** Every request on `k` that lost its insert still finds a row. */
  ghost predicate FindersHaveRow(c: Config, w: World, k: string)
  {
    && |w.pcs| == |c.ops|
    && forall r: nat :: OnKey(c, r, k) ==>
         (w.pcs[r].Finding? ==> k in w.t.keys) && w.pcs[r] != Done(Internal(RowMissing))
  }

  /** Whoever deletes a row of `k` has nobody else to disappoint. */
  ghost predicate SweepersAreAlone(c: Config, w: World, k: string)
  {
    |w.pcs| == |c.ops| ==>
    forall r: nat, s: nat :: OnKey(c, r, k) && OnKey(c, s, k) && r != s && w.pcs[s].Deleting? ==> !w.pcs[r].Finding?
  }

  lemma ActMisses(t: Tables, answers: map<nat, Answer>, saws: map<nat, KeyRow>,
                  rid: nat, op: Op, pc: Pc, ttl: Time, at: Time, k: string)
    requires PcOk(t, answers, saws, rid, op, pc) && !pc.Done? && !pc.Auditing?
    requires UsesKey(op, k) && pc.Finding? ==> k in t.keys
    ensures var m := Act(t, op, pc, ttl, at);
            && (k in t.keys && k !in m.t.keys ==> UsesKey(op, k) && pc.Deleting?)
            && (UsesKey(op, k) ==> (m.pc.Finding? ==> k in m.t.keys) && m.pc != Done(Internal(RowMissing)))
  {
  }

  lemma NextFinds(c: Config, t0: Tables, w: World, s: Step, k: string)
    requires Inv(c, t0, w) && FindersHaveRow(c, w, k) && SweepersAreAlone(c, w, k)
    ensures FindersHaveRow(c, Next(c, w, s), k)
  {
    if Moves(c, w, s) {
      ActMisses(w.t, Answers(w.history), Saws(w.history), s.rid, c.ops[s.rid], w.pcs[s.rid], c.ttl, s.at, k);
    }
  }

  /** No request that has another beside it on `k` finds row `x` expired. */
  ghost predicate NobodyElsePast(c: Config, x: KeyRow, k: string)
  {
    forall r: nat, s: nat :: OnKey(c, r, k) && OnKey(c, s, k) && r != s ==> !Expired(x, c.ops[s].stamp.now)
  }

  /** At most two requests use `k`, or nobody is past the expiry that a storable
      request would set. */
  ghost predicate PairOrLive(c: Config, k: string)
  {
    forall q: nat, s: nat, r: nat :: Stores(c, q, k) && OnKey(c, r, k) && r != q && r != s ==> !Past(c, k, s, q)
  }

  /** The exact condition: on a free key, two requests at most or live rows; on a held
      key, a single request or a row that nobody finds expired. */
  ghost predicate RowCannotVanish(c: Config, t0: Tables, k: string)
  {
    if k in t0.keys then NobodyElsePast(c, t0.keys[k], k) else PairOrLive(c, k)
  }

  lemma SweepersStayAlone(c: Config, t0: Tables, w: World, k: string)
    requires Inv(c, t0, w) && RowCannotVanish(c, t0, k)
    ensures SweepersAreAlone(c, w, k)
  {
    forall r: nat, s: nat | OnKey(c, r, k) && OnKey(c, s, k) && r != s && w.pcs[s].Deleting?
      ensures !w.pcs[r].Finding?
    {
      assert PcOk(w.t, Answers(w.history), Saws(w.history), r, c.ops[r], w.pcs[r]);
      assert PcOk(w.t, Answers(w.history), Saws(w.history), s, c.ops[s], w.pcs[s]);
      if k in t0.keys {
        assert NoneFindsExpired(c, t0.keys[k], k);
        UntouchedSeesNothing(c, t0, w.history, k, s);
        assert false;
      } else {
        var l, q := SweeperReadRow(c, t0, w.history, s, k);
        assert Past(c, k, s, q);
      }
    }
  }

  lemma {:induction false} RunFinds(c: Config, t0: Tables, sched: seq<Step>, k: string)
    requires RowCannotVanish(c, t0, k)
    ensures FindersHaveRow(c, Run(c, t0, sched), k)
  {
    if sched != [] {
      var w := Run(c, t0, sched[..|sched| - 1]);
      RunFinds(c, t0, sched[..|sched| - 1], k);
      RunKeepsInv(c, t0, sched[..|sched| - 1]);
      SweepersStayAlone(c, t0, w, k);
      NextFinds(c, t0, w, sched[|sched| - 1], k);
    }
  }

  /** `r` loses its insert to a row that `s` finds expired and deletes. */
  lemma RowVanishes(c: Config, t0: Tables, s0: seq<Step>, s: nat, r: nat, k: string) returns (sched: seq<Step>)
    requires OnKey(c, s, k) && OnKey(c, r, k) && r != s
    requires var w := Run(c, t0, s0);
             && |w.pcs| == |c.ops| && w.pcs[r].Start? && w.pcs[s].Start? && k in w.t.keys
             && Expired(w.t.keys[k], c.ops[s].stamp.now)
    requires FaultFree(s0)
    ensures FaultFree(sched)
    ensures var w := Run(c, t0, sched); |w.pcs| == |c.ops| && w.pcs[r] == Done(Internal(RowMissing))
  {
    var s1 := Loses(c, t0, s0, r, k);
    var s2 := Clears(c, t0, s1, s, k);
    sched := s2 + [Go(r)];
    OneStep(c, t0, s2, r);
  }

  lemma FreshRowVanishes(c: Config, t0: Tables, q: nat, s: nat, r: nat, k: string) returns (sched: seq<Step>)
    requires k !in t0.keys && NewIds(c, t0, k)
    requires Stores(c, q, k) && OnKey(c, r, k) && q != r && s != r && Past(c, k, s, q)
    ensures FaultFree(sched)
    ensures var w := Run(c, t0, sched); |w.pcs| == |c.ops| && w.pcs[r] == Done(Internal(RowMissing))
  {
    StartsFree(c, t0, k);
    var s1 := Creates(c, t0, [], q, k);
    sched := RowVanishes(c, t0, s1, s, r, k);
  }

  /** In no schedule, or in none without faults, is a request on `k` answered so. */
  ghost predicate NeverVanishes(c: Config, t0: Tables, k: string, faults: bool)
  {
    forall sched, r: nat :: OnKey(c, r, k) && r < |Run(c, t0, sched).pcs| && (faults || FaultFree(sched))
      ==> Run(c, t0, sched).pcs[r] != Done(Internal(RowMissing))
  }

  lemma CannotVanish(c: Config, t0: Tables, k: string)
    requires RowCannotVanish(c, t0, k)
    ensures NeverVanishes(c, t0, k, true)
  {
    forall sched, r: nat | OnKey(c, r, k) && r < |Run(c, t0, sched).pcs|
      ensures Run(c, t0, sched).pcs[r] != Done(Internal(RowMissing))
    {
      RunFinds(c, t0, sched, k);
    }
  }

  /** A key that starts free: no schedule, with faults or without, answers a request
      on it with the error of a vanished row if and only if at most two requests use
      it or no clock is past the expiry that a storable one would set. */
  lemma FreshRowNeverVanishesIff(c: Config, t0: Tables, k: string, faults: bool)
    requires k !in t0.keys && NewIds(c, t0, k)
    ensures NeverVanishes(c, t0, k, faults) <==> PairOrLive(c, k)
  {
    if PairOrLive(c, k) {
      CannotVanish(c, t0, k);
    } else {
      var q: nat, s: nat, r: nat :| Stores(c, q, k) && OnKey(c, r, k) && r != q && r != s && Past(c, k, s, q);
      var sched := FreshRowVanishes(c, t0, q, s, r, k);
    }
  }

  /** A key that starts with a row, whatever the requests on it carry: no schedule
      does so if and only if that row is never past its expiry for a request that
      has another beside it. */
  lemma HeldRowNeverVanishesIff(c: Config, t0: Tables, k: string, faults: bool)
    requires k in t0.keys
    ensures NeverVanishes(c, t0, k, faults) <==> NobodyElsePast(c, t0.keys[k], k)
  {
    if NobodyElsePast(c, t0.keys[k], k) {
      CannotVanish(c, t0, k);
    } else {
      var r: nat, s: nat :| OnKey(c, r, k) && OnKey(c, s, k) && r != s && Expired(t0.keys[k], c.ops[s].stamp.now);
      var sched := RowVanishes(c, t0, [], s, r, k);
    }
  }
}
