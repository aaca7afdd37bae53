/** The bounded retry of a keyed create: when both rounds can be lost. */
module Retries {
  import opened Entities
  import opened Store
  import opened AtomicSpec
  import opened Protocol
  import opened Linearization
  import opened Idempotency
  import opened Schedules
  import opened KeyRows
  import opened HeldKeys

  /** Inside the retry loop of a keyed create. */
  predicate InFlight(pc: Pc)
  {
    pc.Inserting? || pc.Finding? || pc.Deleting?
  }

  /** Requests on one key that are in flight together have clocks within one lifetime. */
  ghost predicate CloseInFlight(c: Config, w: World)
  {
    |w.pcs| == |c.ops| &&
    forall q: nat, r: nat, k :: OnKey(c, q, k) && OnKey(c, r, k) && q != r && InFlight(w.pcs[q]) && InFlight(w.pcs[r])
      ==> c.ops[r].stamp.now <= ExpiryOf(c, q)
  }

  /** In its second round a request finds no expired row. */
  ghost predicate SecondRoundLive(t: Tables, op: Op, pc: Pc)
  {
    op.KeyedCreate? ==>
      && (((pc.Inserting? || pc.Finding?) && pc.round == 1 && op.key in t.keys) ==>
            !Expired(t.keys[op.key], op.stamp.now))
      && (pc.Deleting? ==> pc.round == 0)
      && pc != Done(RetryConflict)
  }

  ghost predicate SecondRoundsLive(c: Config, w: World)
  {
    |w.pcs| == |c.ops| && forall r: nat :: r < |c.ops| ==> SecondRoundLive(w.t, c.ops[r], w.pcs[r])
  }

  lemma ActSecondRound(t: Tables, answers: map<nat, Answer>, saws: map<nat, KeyRow>,
                       rid: nat, op: Op, pc: Pc, ttl: Time, at: Time)
    requires PcOk(t, answers, saws, rid, op, pc) && !pc.Done? && !pc.Auditing?
    requires SecondRoundLive(t, op, pc)
    ensures var m := Act(t, op, pc, ttl, at); SecondRoundLive(m.t, op, m.pc)
  {
  }

  lemma OtherSecondRound(t: Tables, answers: map<nat, Answer>, saws: map<nat, KeyRow>,
                         rid: nat, op: Op, pc: Pc, ttl: Time, at: Time, op2: Op, pc2: Pc)
    requires PcOk(t, answers, saws, rid, op, pc) && !pc.Done? && !pc.Auditing?
    requires SecondRoundLive(t, op2, pc2)
    requires (op2.KeyedCreate? && UsesKey(op, op2.key) && InFlight(pc2) && InFlight(pc)) ==>
               op2.stamp.now <= op.stamp.now + ttl
    ensures SecondRoundLive(Act(t, op, pc, ttl, at).t, op2, pc2)
  {
  }

  lemma NextSecondRound(c: Config, t0: Tables, w: World, s: Step)
    requires Inv(c, t0, w) && CloseInFlight(c, w) && SecondRoundsLive(c, w)
    ensures SecondRoundsLive(c, Next(c, w, s))
  {
    var w' := Next(c, w, s);
    if Moves(c, w, s) {
      var op, pc := c.ops[s.rid], w.pcs[s.rid];
      ActSecondRound(w.t, Answers(w.history), Saws(w.history), s.rid, op, pc, c.ttl, s.at);
      forall r: nat | r < |c.ops| && r != s.rid ensures SecondRoundLive(w'.t, c.ops[r], w'.pcs[r]) {
        if InFlight(w.pcs[r]) && InFlight(pc) {
          assert PcOk(w.t, Answers(w.history), Saws(w.history), r, c.ops[r], w.pcs[r]);
          assert UsesKey(op, c.ops[r].key) ==> OnKey(c, r, c.ops[r].key) && OnKey(c, s.rid, c.ops[r].key);
        }
        OtherSecondRound(w.t, Answers(w.history), Saws(w.history), s.rid, op, pc, c.ttl, s.at, c.ops[r], w.pcs[r]);
      }
    } else if s.rid < |c.ops| && w.pcs[s.rid].Auditing? {
      assert PcOk(w.t, Answers(w.history), Saws(w.history), s.rid, c.ops[s.rid], w.pcs[s.rid]);
    }
  }

  /** If requests in flight together on one key always have clocks within one
      lifetime, no request ends with the final retry conflict. */
  lemma {:induction false} RetryConflictUnreachable(c: Config, t0: Tables, sched: seq<Step>)
    requires forall n :: 0 <= n <= |sched| ==> CloseInFlight(c, Run(c, t0, sched[..n]))
    ensures SecondRoundsLive(c, Run(c, t0, sched))
    ensures forall r: nat :: r < |c.ops| && c.ops[r].KeyedCreate? ==> Run(c, t0, sched).pcs[r] != Done(RetryConflict)
  {
    if sched != [] {
      var p := sched[..|sched| - 1];
      forall n | 0 <= n <= |p| ensures CloseInFlight(c, Run(c, t0, p[..n])) {
        assert p[..n] == sched[..n];
      }
      assert p == p[..|p|];
      RetryConflictUnreachable(c, t0, p);
      RunKeepsInv(c, t0, p);
      NextSecondRound(c, t0, Run(c, t0, p), sched[|sched| - 1]);
    }
  }

  /** No request's clock is past the expiries two storable others would set. */
  ghost predicate OneExpiryBehind(c: Config, k: string)
  {
    forall p: nat, q: nat, r: nat ::
      Stores(c, p, k) && Stores(c, q, k) && p != q ==> !Past(c, k, r, p) || !Past(c, k, r, q)
  }

  /** `r`, in its second round, loses the insert to `q` and finds that row expired. */
  lemma LosesSecondRound(c: Config, t0: Tables, s0: seq<Step>, q: nat, r: nat, k: string) returns (sched: seq<Step>)
    requires Stores(c, q, k) && Past(c, k, r, q)
    requires var w := Run(c, t0, s0);
             && |w.pcs| == |c.ops| && w.pcs[r] == Inserting(1) && Ready(w.pcs[q])
             && k !in w.t.keys && DraftOf(c, q).id !in w.t.rows
    ensures var w := Run(c, t0, sched); |w.pcs| == |c.ops| && w.pcs[r] == Done(RetryConflict)
  {
    var s1 := Creates(c, t0, s0, q, k);
    sched := Clears(c, t0, s1, r, k);
  }

  /** `p` creates; `r` deletes that row but loses the insert to `q`, whose row it
      finds expired as well. */
  lemma TwoRoundsLost(c: Config, t0: Tables, s0: seq<Step>, p: nat, q: nat, r: nat, k: string)
    returns (sched: seq<Step>)
    requires NewIds(c, t0, k) && KeyFree(c, t0, Run(c, t0, s0), k)
    requires Stores(c, p, k) && Stores(c, q, k) && p != q && Past(c, k, r, p) && Past(c, k, r, q)
    requires Run(c, t0, s0).pcs[r].Start?
    ensures var w := Run(c, t0, sched); |w.pcs| == |c.ops| && w.pcs[r] == Done(RetryConflict)
  {
    var s1 := Creates(c, t0, s0, p, k);
    var s2 := Clears(c, t0, s1, r, k);
    sched := LosesSecondRound(c, t0, s2, q, r, k);
  }

  /** `r` has deleted a row of `p`, a row that cannot come back. */
  ghost predicate HasReplaced(c: Config, w: World, k: string, r: nat, p: nat)
  {
    && Stores(c, p, k) && Past(c, k, r, p) && p in Answers(w.history)
    && FindKey(w.t, k) != Some(KeyRowFor(c.ops[p], c.ttl))
  }

  /** `r` has made a delete, having read the first row or the row of another. */
  ghost predicate Replaced(c: Config, t0: Tables, w: World, k: string, r: nat)
    requires OnKey(c, r, k)
  {
    && !NoSweeps(c, w.history, k)
    && (|| (k in t0.keys && Expired(t0.keys[k], c.ops[r].stamp.now))
        || exists p: nat :: HasReplaced(c, w, k, r, p))
  }

  ghost predicate RoundLost(c: Config, t0: Tables, w: World, k: string, r: nat)
    requires r < |w.pcs| && OnKey(c, r, k)
  {
    && w.pcs[r] != Done(RetryConflict)
    && (w.pcs[r].Deleting? ==> w.pcs[r].round == 0)
    && (((w.pcs[r].Inserting? || w.pcs[r].Finding?) && w.pcs[r].round == 1) ==> Replaced(c, t0, w, k, r))
  }

  ghost predicate RoundsLost(c: Config, t0: Tables, w: World, k: string)
  {
    |w.pcs| == |c.ops| && forall r: nat :: OnKey(c, r, k) ==> RoundLost(c, t0, w, k, r)
  }

  /** A request past the first row is past no row that a storable one would set. */
  ghost predicate LiveAfterFirst(c: Config, x: KeyRow, k: string)
  {
    forall p: nat, q: nat :: OnKey(c, p, k) && Stores(c, q, k) && Expired(x, c.ops[p].stamp.now) ==> !Past(c, k, p, q)
  }

  /** No request is past two rows it could meet in turn. */
  ghost predicate OneRowBehind(c: Config, t0: Tables, k: string)
  {
    OneExpiryBehind(c, k) && (k in t0.keys ==> LiveAfterFirst(c, t0.keys[k], k))
  }

  ghost predicate Steady(c: Config, t0: Tables, w: World, s: Step, k: string)
  {
    && Inv(c, t0, w) && RoundsLost(c, t0, w, k) && Moves(c, w, s) && OnKey(c, s.rid, k)
  }

  lemma DeleterLost(c: Config, t0: Tables, w: World, s: Step, k: string)
    requires Steady(c, t0, w, s, k) && w.pcs[s.rid].Deleting?
    ensures RoundLost(c, t0, Next(c, w, s), k, s.rid)
  {
    var r, w' := s.rid, Next(c, w, s);
    var m := ActKeyed(w.t, c.ops[r], w.pcs[r], c.ttl);
    assert RoundLost(c, t0, w, k, r) && PcOk(w.t, Answers(w.history), Saws(w.history), r, c.ops[r], w.pcs[r]);
    AnswersAdd(w.history, r, s.at, m.note);
    SweptForGood(c, w.history, r, s.at, m.note, k);
    var l, p := SweeperReadRow(c, t0, w.history, r, k);
    assert w'.t == DeleteKey(w.t, k);
    assert p in Answers(w.history) && Stores(c, p, k) && p != r && Saws(w.history)[r] == KeyRowFor(c.ops[p], c.ttl)
           ==> HasReplaced(c, w', k, r, p);
  }

  lemma SecondFindLive(c: Config, t0: Tables, w: World, k: string, r: nat)
    requires Inv(c, t0, w) && OneRowBehind(c, t0, k)
    requires OnKey(c, r, k) && Replaced(c, t0, w, k, r) && r !in Answers(w.history) && k in w.t.keys
    ensures !Expired(w.t.keys[k], c.ops[r].stamp.now)
  {
    var q := KeyRowOrigin(c, t0, w.history, k);
    assert Stores(c, q, k) && q != r;
    if !(k in t0.keys && Expired(t0.keys[k], c.ops[r].stamp.now)) {
      var p: nat :| HasReplaced(c, w, k, r, p);
      assert p != q && (!Past(c, k, r, p) || !Past(c, k, r, q));
    } else {
      assert !Past(c, k, r, q);
    }
  }

  lemma FinderLost(c: Config, t0: Tables, w: World, s: Step, k: string)
    requires Steady(c, t0, w, s, k) && w.pcs[s.rid].Finding? && OneRowBehind(c, t0, k)
    ensures RoundLost(c, t0, Next(c, w, s), k, s.rid)
  {
    var r, pc := s.rid, w.pcs[s.rid];
    assert RoundLost(c, t0, w, k, r) && PcOk(w.t, Answers(w.history), Saws(w.history), r, c.ops[r], pc);
    if pc.round == 1 && k in w.t.keys {
      SecondFindLive(c, t0, w, k, r);
    }
  }

  /** What a request has replaced stays replaced. */
  lemma ReplacedStays(c: Config, t0: Tables, w: World, s: Step, k: string, r: nat)
    requires Inv(c, t0, w) && NewIds(c, t0, k) && Moves(c, w, s)
    requires OnKey(c, r, k) && Replaced(c, t0, w, k, r)
    ensures Replaced(c, t0, Next(c, w, s), k, r)
  {
    var w', op := Next(c, w, s), c.ops[s.rid];
    var m := Act(w.t, op, w.pcs[s.rid], c.ttl, s.at);
    AnswersAdd(w.history, s.rid, s.at, m.note);
    SweptForGood(c, w.history, s.rid, s.at, m.note, k);
    if !(k in t0.keys && Expired(t0.keys[k], c.ops[r].stamp.now)) {
      var p: nat :| HasReplaced(c, w, k, r, p);
      RowStaysAway(c, t0, w, s, k, p);
      assert HasReplaced(c, w', k, r, p);
    }
  }

  /** A row that is gone does not come back: its request creates no more. */
  lemma RowStaysAway(c: Config, t0: Tables, w: World, s: Step, k: string, p: nat)
    requires Inv(c, t0, w) && NewIds(c, t0, k) && Moves(c, w, s)
    requires OnKey(c, p, k) && p in Answers(w.history) && FindKey(w.t, k) != Some(KeyRowFor(c.ops[p], c.ttl))
    ensures FindKey(Next(c, w, s).t, k) != Some(KeyRowFor(c.ops[p], c.ttl))
  {
    var op, pc := c.ops[s.rid], w.pcs[s.rid];
    assert PcOk(w.t, Answers(w.history), Saws(w.history), s.rid, op, pc);
    ActReplaces(w.t, Answers(w.history), Saws(w.history), s.rid, op, pc, c.ttl, s.at, k);
    assert s.rid == p || !OnKey(c, s.rid, k) || DraftOf(c, s.rid).id != DraftOf(c, p).id;
  }

  lemma OwnRoundLost(c: Config, t0: Tables, w: World, s: Step, k: string)
    requires Steady(c, t0, w, s, k) && NewIds(c, t0, k) && OneRowBehind(c, t0, k)
    ensures RoundLost(c, t0, Next(c, w, s), k, s.rid)
  {
    assert RoundLost(c, t0, w, k, s.rid);
    assert PcOk(w.t, Answers(w.history), Saws(w.history), s.rid, c.ops[s.rid], w.pcs[s.rid]);
    if w.pcs[s.rid].Deleting? {
      DeleterLost(c, t0, w, s, k);
    } else if w.pcs[s.rid].Finding? {
      FinderLost(c, t0, w, s, k);
    } else if w.pcs[s.rid].Inserting? && w.pcs[s.rid].round == 1 {
      ReplacedStays(c, t0, w, s, k, s.rid);
    }
  }

  lemma OtherRoundLost(c: Config, t0: Tables, w: World, s: Step, k: string, r: nat)
    requires Inv(c, t0, w) && NewIds(c, t0, k) && OnKey(c, r, k) && RoundLost(c, t0, w, k, r)
    requires Moves(c, w, s) && r != s.rid
    ensures RoundLost(c, t0, Next(c, w, s), k, r)
  {
    if (w.pcs[r].Inserting? || w.pcs[r].Finding?) && w.pcs[r].round == 1 {
      ReplacedStays(c, t0, w, s, k, r);
    }
  }

  lemma StalledRoundLost(c: Config, t0: Tables, w: World, s: Step, k: string, r: nat)
    requires Inv(c, t0, w) && OnKey(c, r, k) && RoundLost(c, t0, w, k, r) && !Moves(c, w, s)
    ensures RoundLost(c, t0, Next(c, w, s), k, r)
  {
    var w' := Next(c, w, s);
    assert PcOk(w.t, Answers(w.history), Saws(w.history), r, c.ops[r], w.pcs[r]);
    assert w'.t == w.t && w'.history == w.history;
    if (w.pcs[r].Inserting? || w.pcs[r].Finding?) && w.pcs[r].round == 1 {
      if p: nat :| HasReplaced(c, w, k, r, p) {
        assert HasReplaced(c, w', k, r, p);
      }
    }
  }

  lemma {:induction false} RunRoundsLost(c: Config, t0: Tables, sched: seq<Step>, k: string)
    requires NewIds(c, t0, k) && OneRowBehind(c, t0, k)
    ensures RoundsLost(c, t0, Run(c, t0, sched), k)
  {
    if sched != [] {
      var p, s := sched[..|sched| - 1], sched[|sched| - 1];
      var w := Run(c, t0, p);
      RunRoundsLost(c, t0, p, k);
      RunKeepsInv(c, t0, p);
      forall r: nat | OnKey(c, r, k) ensures RoundLost(c, t0, Next(c, w, s), k, r) {
        assert RoundLost(c, t0, w, k, r);
        if !Moves(c, w, s) {
          StalledRoundLost(c, t0, w, s, k, r);
        } else if r == s.rid {
          OwnRoundLost(c, t0, w, s, k);
        } else {
          OtherRoundLost(c, t0, w, s, k, r);
        }
      }
    }
  }

  // ---------- The exact condition ----------

  /** Two rounds are enough: the key starts with a row that nobody finds expired, or
      no request is past two rows it could meet in turn. */
  ghost predicate TwoRoundsSuffice(c: Config, t0: Tables, k: string)
  {
    (k in t0.keys && NoneFindsExpired(c, t0.keys[k], k)) || OneRowBehind(c, t0, k)
  }

  lemma EndsWithoutConflict(c: Config, t0: Tables, sched: seq<Step>, k: string, r: nat)
    requires NewIds(c, t0, k) && TwoRoundsSuffice(c, t0, k) && OnKey(c, r, k)
    ensures r < |Run(c, t0, sched).pcs| && Run(c, t0, sched).pcs[r] != Done(RetryConflict)
  {
    var w := Run(c, t0, sched);
    RunKeepsInv(c, t0, sched);
    if k in t0.keys && NoneFindsExpired(c, t0.keys[k], k) {
      UntouchedSeesNothing(c, t0, w.history, k, r);
      assert PcOk(w.t, Answers(w.history), Saws(w.history), r, c.ops[r], w.pcs[r]);
    } else {
      RunRoundsLost(c, t0, sched, k);
      assert RoundLost(c, t0, w, k, r);
    }
  }

  /** A key that comes free, and a request past two others. */
  lemma LosesToTwo(c: Config, t0: Tables, p: nat, q: nat, r: nat, k: string) returns (sched: seq<Step>)
    requires NewIds(c, t0, k) && (k in t0.keys ==> !NoneFindsExpired(c, t0.keys[k], k))
    requires Stores(c, p, k) && Stores(c, q, k) && p != q && Past(c, k, r, p) && Past(c, k, r, q)
    ensures var w := Run(c, t0, sched); |w.pcs| == |c.ops| && w.pcs[r] == Done(RetryConflict)
  {
    if k in t0.keys {
      var first: nat :| OnKey(c, first, k) && Expired(t0.keys[k], c.ops[first].stamp.now);
      var s0 := FreesKey(c, t0, first, k);
      if first == r {
        sched := LosesSecondRound(c, t0, s0, q, r, k);
      } else {
        sched := TwoRoundsLost(c, t0, s0, p, q, r, k);
      }
    } else {
      StartsFree(c, t0, k);
      sched := TwoRoundsLost(c, t0, [], p, q, r, k);
    }
  }

  ghost predicate NeverConflicts(c: Config, t0: Tables, k: string)
  {
    forall sched, r: nat :: OnKey(c, r, k) && r < |Run(c, t0, sched).pcs|
      ==> Run(c, t0, sched).pcs[r] != Done(RetryConflict)
  }

  /** No schedule ends a request on the key with the final retry conflict if and
      only if no request's clock is past two rows it could meet in turn: the expiries
      two storable others would set, or the first row's and a storable other's. Or else the
      key starts with a row that nobody finds expired. */
  lemma RetryConflictUnreachableIff(c: Config, t0: Tables, k: string)
    requires NewIds(c, t0, k)
    ensures NeverConflicts(c, t0, k) <==> TwoRoundsSuffice(c, t0, k)
  {
    if TwoRoundsSuffice(c, t0, k) {
      forall sched, r: nat | OnKey(c, r, k) && r < |Run(c, t0, sched).pcs|
        ensures Run(c, t0, sched).pcs[r] != Done(RetryConflict)
      {
        EndsWithoutConflict(c, t0, sched, k, r);
      }
    } else if !OneExpiryBehind(c, k) {
      var p: nat, q: nat, r: nat :|
        Stores(c, p, k) && Stores(c, q, k) && p != q && Past(c, k, r, p) && Past(c, k, r, q);
      var sched := LosesToTwo(c, t0, p, q, r, k);
    } else {
      var r: nat, q: nat :| OnKey(c, r, k) && Stores(c, q, k) && Expired(t0.keys[k], c.ops[r].stamp.now)
        && Past(c, k, r, q);
      var s0 := FreesKey(c, t0, r, k);
      var sched := LosesSecondRound(c, t0, s0, q, r, k);
    }
  }
}
