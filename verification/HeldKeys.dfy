/** A key that starts with a row: when its replacement stays unique. */
module HeldKeys {
  import opened Entities
  import opened Store
  import opened AtomicSpec
  import opened Protocol
  import opened Linearization
  import opened Idempotency
  import opened Schedules
  import opened KeyRows
  import opened KeyRaces
  import opened Windows

  // ---------- Nobody is past a row that a request would set ----------

  ghost predicate LiveRows(c: Config, k: string)
  {
    forall q: nat, s: nat :: Stores(c, q, k) ==> !Past(c, k, s, q)
  }

  /** The key is held by the row that `q` created. */
  ghost predicate HoldsKey(c: Config, w: World, k: string, q: nat)
  {
    Stores(c, q, k) && q in Answers(w.history) && FindKey(w.t, k) == Some(KeyRowFor(c.ops[q], c.ttl))
  }

  /** The key is held by its first row, by nobody, or by the one new row. */
  ghost predicate KeyReplaced(c: Config, w: World, x: KeyRow, k: string)
  {
    || (Commits(c, w.history, k) == 0 && FindKey(w.t, k) in {None, Some(x)})
    || (Commits(c, w.history, k) == 1 && exists q: nat :: HoldsKey(c, w, k, q))
  }

  /** So the key stands, and deletes are pending only on the first row. */
  ghost predicate Replacement(c: Config, w: World, x: KeyRow, k: string)
  {
    && |w.pcs| == |c.ops|
    && (forall r: nat :: OnKey(c, r, k) && w.pcs[r].Deleting? ==> FindKey(w.t, k) == Some(x) && w.pcs[r].existing == x)
    && KeyReplaced(c, w, x, k)
  }

  lemma ActReplaces(t: Tables, answers: map<nat, Answer>, saws: map<nat, KeyRow>,
                    rid: nat, op: Op, pc: Pc, ttl: Time, at: Time, k: string)
    requires PcOk(t, answers, saws, rid, op, pc) && !pc.Done? && !pc.Auditing?
    ensures var m := Act(t, op, pc, ttl, at);
            var commits := UsesKey(op, k) && m.note.Settle? && m.note.answer.outcome.Created?;
            && (commits ==> k !in t.keys && Storable(Draft(op.req, op.stamp))
                            && FindKey(m.t, k) == Some(KeyRowFor(op, ttl)) && m.pc.Auditing?)
            && (!commits ==> FindKey(m.t, k) == FindKey(t, k)
                             || (UsesKey(op, k) && pc.Deleting? && FindKey(m.t, k) == None))
            && (UsesKey(op, k) && m.pc.Deleting? ==>
                  && rid !in answers && FindKey(t, k) == Some(m.pc.existing) == FindKey(m.t, k)
                  && Expired(m.pc.existing, op.stamp.now))
  {
  }

  lemma CommitsRecord(c: Config, h: seq<Event>, rid: nat, at: Time, note: Note, k: string)
    ensures Commits(c, h + Record(rid, at, note), k)
         == Commits(c, h, k) + (if OnKey(c, rid, k) && note.Settle? && note.answer.outcome.Created? then 1 else 0)
  {
    if note.Silent? {
      assert h + Record(rid, at, note) == h;
    } else {
      PointRecorded(c, h, Event(rid, at, note), k);
    }
  }

  /** The one new row is expired for nobody who is still under way. */
  lemma NewRowIsLive(c: Config, w: World, x: KeyRow, k: string, r: nat)
    requires LiveRows(c, k) && Replacement(c, w, x, k) && Commits(c, w.history, k) == 1
    requires OnKey(c, r, k) && r !in Answers(w.history)
    ensures k in w.t.keys && !Expired(w.t.keys[k], c.ops[r].stamp.now)
  {
    var q: nat :| HoldsKey(c, w, k, q);
    assert !Past(c, k, r, q);
  }

  lemma DeletingMeansFirstRow(c: Config, t0: Tables, w: World, x: KeyRow, k: string, r: nat)
    requires Inv(c, t0, w) && LiveRows(c, k) && Replacement(c, w, x, k)
    requires OnKey(c, r, k) && w.pcs[r].Deleting?
    ensures Commits(c, w.history, k) == 0 && Expired(x, c.ops[r].stamp.now)
  {
    assert PcOk(w.t, Answers(w.history), Saws(w.history), r, c.ops[r], w.pcs[r]);
    if Commits(c, w.history, k) == 1 {
      NewRowIsLive(c, w, x, k, r);
    }
  }

  lemma NoTwoDeleting(c: Config, t0: Tables, w: World, x: KeyRow, k: string, r: nat, s: nat)
    requires Inv(c, t0, w) && LiveRows(c, k) && OneFindsExpired(c, x, k) && Replacement(c, w, x, k)
    requires OnKey(c, r, k) && w.pcs[r].Deleting? && OnKey(c, s, k) && w.pcs[s].Deleting?
    ensures r == s
  {
    DeletingMeansFirstRow(c, t0, w, x, k, r);
    DeletingMeansFirstRow(c, t0, w, x, k, s);
  }

  lemma DeletingKeepsRow(c: Config, t0: Tables, w: World, s: Step, x: KeyRow, k: string, r: nat)
    requires Inv(c, t0, w) && LiveRows(c, k) && OneFindsExpired(c, x, k) && Replacement(c, w, x, k)
    requires Moves(c, w, s)
    requires OnKey(c, r, k) && Next(c, w, s).pcs[r].Deleting?
    ensures FindKey(Next(c, w, s).t, k) == Some(x) && Next(c, w, s).pcs[r].existing == x
  {
    var op, pc := c.ops[s.rid], w.pcs[s.rid];
    ActReplaces(w.t, Answers(w.history), Saws(w.history), s.rid, op, pc, c.ttl, s.at, k);
    if r != s.rid && UsesKey(op, k) && pc.Deleting? {
      NoTwoDeleting(c, t0, w, x, k, r, s.rid);
    } else if r == s.rid && Commits(c, w.history, k) == 1 {
      NewRowIsLive(c, w, x, k, r);
    }
  }

  lemma MoveReplaces(c: Config, t0: Tables, w: World, s: Step, x: KeyRow, k: string)
    requires Inv(c, t0, w) && LiveRows(c, k) && Replacement(c, w, x, k) && Moves(c, w, s)
    ensures KeyReplaced(c, Next(c, w, s), x, k)
  {
    var op, pc, w' := c.ops[s.rid], w.pcs[s.rid], Next(c, w, s);
    var m := Act(w.t, op, pc, c.ttl, s.at);
    var h := w.history;
    ActReplaces(w.t, Answers(h), Saws(h), s.rid, op, pc, c.ttl, s.at, k);
    CommitsRecord(c, h, s.rid, s.at, m.note, k);
    AnswersAdd(h, s.rid, s.at, m.note);
    if OnKey(c, s.rid, k) && pc.Deleting? {
      DeletingMeansFirstRow(c, t0, w, x, k, s.rid);
    }
    if OnKey(c, s.rid, k) && m.note.Settle? && m.note.answer.outcome.Created? {
      assert Commits(c, w'.history, k) == 1 && HoldsKey(c, w', k, s.rid);
    } else if Commits(c, h, k) == 1 {
      var q: nat :| HoldsKey(c, w, k, q);
      assert Commits(c, w'.history, k) == 1 && HoldsKey(c, w', k, q);
    }
  }

  lemma NextReplaces(c: Config, t0: Tables, w: World, s: Step, x: KeyRow, k: string)
    requires Inv(c, t0, w) && LiveRows(c, k) && OneFindsExpired(c, x, k) && Replacement(c, w, x, k)
    ensures Replacement(c, Next(c, w, s), x, k)
  {
    var w' := Next(c, w, s);
    if Moves(c, w, s) {
      MoveReplaces(c, t0, w, s, x, k);
      forall r: nat | OnKey(c, r, k) && w'.pcs[r].Deleting?
        ensures FindKey(w'.t, k) == Some(x) && w'.pcs[r].existing == x
      {
        DeletingKeepsRow(c, t0, w, s, x, k, r);
      }
    } else {
      assert w'.t == w.t && w'.history == w.history;
      if q: nat :| HoldsKey(c, w, k, q) {
        assert HoldsKey(c, w', k, q);
      }
    }
  }

  lemma {:induction false} RunReplaces(c: Config, t0: Tables, sched: seq<Step>, k: string)
    requires k in t0.keys && LiveRows(c, k) && OneFindsExpired(c, t0.keys[k], k)
    ensures Replacement(c, Run(c, t0, sched), t0.keys[k], k)
  {
    if sched != [] {
      RunReplaces(c, t0, sched[..|sched| - 1], k);
      RunKeepsInv(c, t0, sched[..|sched| - 1]);
      NextReplaces(c, t0, Run(c, t0, sched[..|sched| - 1]), sched[|sched| - 1], t0.keys[k], k);
    }
  }

  // ---------- Two storable requests, one past both the first row and the other's ----------

  predicate InRound(pc: Pc, round: nat)
  {
    (pc.Inserting? || pc.Finding? || pc.Deleting?) ==> pc.round == round
  }

  /** Only `p` can delete the first row, and only `p`, in its last round, the row of
      `q`: how many creations there are, which row holds the key, how far both are. */
  ghost predicate PairShape(commits: nat, row: Option<KeyRow>, answers: map<nat, Answer>, pcP: Pc, pcQ: Pc,
                            p: nat, q: nat, x: KeyRow, rowP: KeyRow, rowQ: KeyRow)
  {
    && !pcQ.Deleting?
    && match commits
       case 0 =>
         || (row == Some(x) && InRound(pcP, 0))
         || (row == None && SecondRound(pcP))
       case 1 =>
         || (row == Some(rowQ) && q in answers && SecondRound(pcP))
         || (row == Some(rowP) && p in answers)
         || (row == None && q in answers && pcP.Done?)
       case _ => false
  }

  /** `p` alone is past the first row, and alone past `q`; nobody is past `p`, and no
      other request can be stored. */
  ghost predicate Pair(c: Config, x: KeyRow, k: string, p: nat, q: nat)
  {
    && Stores(c, p, k) && Stores(c, q, k) && p != q
    && (forall o: nat :: OnKey(c, o, k) && o != p ==>
          !Expired(x, c.ops[o].stamp.now) && !Past(c, k, o, p) && !Past(c, k, o, q))
    && (forall o: nat :: Stores(c, o, k) ==> o == p || o == q)
  }

  ghost predicate PairOk(c: Config, w: World, x: KeyRow, k: string, p: nat, q: nat)
    requires OnKey(c, p, k) && OnKey(c, q, k)
  {
    && |w.pcs| == |c.ops|
    && PairShape(Commits(c, w.history, k), FindKey(w.t, k), Answers(w.history), w.pcs[p], w.pcs[q], p, q, x,
                 KeyRowFor(c.ops[p], c.ttl), KeyRowFor(c.ops[q], c.ttl))
    && (forall o: nat :: OnKey(c, o, k) && o != p ==> !w.pcs[o].Deleting?)
  }

  ghost predicate PairMoves(c: Config, t0: Tables, w: World, s: Step, x: KeyRow, k: string, p: nat, q: nat)
  {
    Inv(c, t0, w) && Pair(c, x, k, p, q) && PairOk(c, w, x, k, p, q) && Moves(c, w, s)
  }

  /** What a step records, and what its request knew. */
  lemma StepFacts(c: Config, t0: Tables, w: World, s: Step, k: string)
    requires Inv(c, t0, w) && Moves(c, w, s)
    ensures var op, pc, h := c.ops[s.rid], w.pcs[s.rid], w.history;
            var m := Act(w.t, op, pc, c.ttl, s.at);
            var h' := Next(c, w, s).history;
            && PcOk(w.t, Answers(h), Saws(h), s.rid, op, pc)
            && Commits(c, h', k) == Commits(c, h, k)
                 + (if OnKey(c, s.rid, k) && m.note.Settle? && m.note.answer.outcome.Created? then 1 else 0)
            && Answers(h') == (if m.note.Settle? then Answers(h)[s.rid := m.note.answer] else Answers(h))
  {
    var m := Act(w.t, c.ops[s.rid], w.pcs[s.rid], c.ttl, s.at);
    CommitsRecord(c, w.history, s.rid, s.at, m.note, k);
    AnswersAdd(w.history, s.rid, s.at, m.note);
  }

  lemma ActFirstOfPair(t: Tables, answers: map<nat, Answer>, saws: map<nat, KeyRow>, p: nat, op: Op, pc: Pc,
                       ttl: Time, commits: nat, pcQ: Pc, q: nat, x: KeyRow, rowQ: KeyRow)
    requires PcOk(t, answers, saws, p, op, pc) && Keyed(op) && !pc.Done? && !pc.Auditing?
    requires PairShape(commits, FindKey(t, op.key), answers, pc, pcQ, p, q, x, KeyRowFor(op, ttl), rowQ)
    ensures var m := ActKeyed(t, op, pc, ttl);
            var answers' := if m.note.Settle? then answers[p := m.note.answer] else answers;
            var commits' := commits + if m.note.Settle? && m.note.answer.outcome.Created? then 1 else 0;
            var row, fails, rowP := FindKey(m.t, op.key), Done(Internal(DbFault)), KeyRowFor(op, ttl);
            && PairShape(commits', row, answers', m.pc, pcQ, p, q, x, rowP, rowQ)
            && PairShape(commits', row, answers', fails, pcQ, p, q, x, rowP, rowQ)
  {
  }

  lemma ActSecondOfPair(t: Tables, answers: map<nat, Answer>, saws: map<nat, KeyRow>, q: nat, op: Op, pc: Pc,
                        ttl: Time, commits: nat, pcP: Pc, p: nat, x: KeyRow, rowP: KeyRow)
    requires PcOk(t, answers, saws, q, op, pc) && Keyed(op) && !pc.Done? && !pc.Auditing?
    requires !Expired(x, op.stamp.now) && !Expired(rowP, op.stamp.now)
    requires PairShape(commits, FindKey(t, op.key), answers, pcP, pc, p, q, x, rowP, KeyRowFor(op, ttl))
    ensures var m := ActKeyed(t, op, pc, ttl);
            var answers' := if m.note.Settle? then answers[q := m.note.answer] else answers;
            var commits' := commits + if m.note.Settle? && m.note.answer.outcome.Created? then 1 else 0;
            var row, fails, rowQ := FindKey(m.t, op.key), Done(Internal(DbFault)), KeyRowFor(op, ttl);
            && PairShape(commits', row, answers', pcP, m.pc, p, q, x, rowP, rowQ)
            && PairShape(commits', row, answers', pcP, fails, p, q, x, rowP, rowQ)
  {
  }

  /** A request that finds no row expired and cannot be stored changes nothing. */
  lemma ActBystander(t: Tables, answers: map<nat, Answer>, saws: map<nat, KeyRow>, rid: nat, op: Op, pc: Pc,
                     ttl: Time, at: Time, k: string)
    requires PcOk(t, answers, saws, rid, op, pc) && !pc.Done? && !pc.Auditing? && !pc.Deleting?
    requires UsesKey(op, k) ==>
               !Storable(Draft(op.req, op.stamp)) && (k in t.keys ==> !Expired(t.keys[k], op.stamp.now))
    ensures var m := Act(t, op, pc, ttl, at);
            && FindKey(m.t, k) == FindKey(t, k) && (UsesKey(op, k) ==> !m.pc.Deleting?)
            && !(UsesKey(op, k) && m.note.Settle? && m.note.answer.outcome.Created?)
  {
  }

  lemma FirstOfPair(c: Config, t0: Tables, w: World, s: Step, x: KeyRow, k: string, p: nat, q: nat)
    requires PairMoves(c, t0, w, s, x, k, p, q) && s.rid == p
    ensures PairOk(c, Next(c, w, s), x, k, p, q)
  {
    StepFacts(c, t0, w, s, k);
    ActFirstOfPair(w.t, Answers(w.history), Saws(w.history), p, c.ops[p], w.pcs[p], c.ttl, Commits(c, w.history, k),
                   w.pcs[q], q, x, KeyRowFor(c.ops[q], c.ttl));
  }

  lemma SecondOfPair(c: Config, t0: Tables, w: World, s: Step, x: KeyRow, k: string, p: nat, q: nat)
    requires PairMoves(c, t0, w, s, x, k, p, q) && s.rid == q
    ensures PairOk(c, Next(c, w, s), x, k, p, q)
  {
    StepFacts(c, t0, w, s, k);
    ActSecondOfPair(w.t, Answers(w.history), Saws(w.history), q, c.ops[q], w.pcs[q], c.ttl, Commits(c, w.history, k),
                    w.pcs[p], p, x, KeyRowFor(c.ops[p], c.ttl));
  }

  lemma OtherThanPair(c: Config, t0: Tables, w: World, s: Step, x: KeyRow, k: string, p: nat, q: nat)
    requires PairMoves(c, t0, w, s, x, k, p, q) && s.rid != p && s.rid != q
    ensures PairOk(c, Next(c, w, s), x, k, p, q)
  {
    StepFacts(c, t0, w, s, k);
    if OnKey(c, s.rid, k) {
      assert !Stores(c, s.rid, k) && !Past(c, k, s.rid, p) && !Past(c, k, s.rid, q);
      ActBystander(w.t, Answers(w.history), Saws(w.history), s.rid, c.ops[s.rid], w.pcs[s.rid], c.ttl, s.at, k);
    } else {
      ActReplaces(w.t, Answers(w.history), Saws(w.history), s.rid, c.ops[s.rid], w.pcs[s.rid], c.ttl, s.at, k);
    }
  }

  lemma NextPairOk(c: Config, t0: Tables, w: World, s: Step, x: KeyRow, k: string, p: nat, q: nat)
    requires Inv(c, t0, w) && Pair(c, x, k, p, q) && PairOk(c, w, x, k, p, q)
    ensures PairOk(c, Next(c, w, s), x, k, p, q)
  {
    if !Moves(c, w, s) {
      assert Next(c, w, s).t == w.t && Next(c, w, s).history == w.history;
    } else if s.rid == p {
      FirstOfPair(c, t0, w, s, x, k, p, q);
    } else if s.rid == q {
      SecondOfPair(c, t0, w, s, x, k, p, q);
    } else {
      OtherThanPair(c, t0, w, s, x, k, p, q);
    }
  }

  lemma {:induction false} RunPairOk(c: Config, t0: Tables, sched: seq<Step>, k: string, p: nat, q: nat)
    requires k in t0.keys && Pair(c, t0.keys[k], k, p, q)
    ensures PairOk(c, Run(c, t0, sched), t0.keys[k], k, p, q)
  {
    if sched != [] {
      var w, s := Run(c, t0, sched[..|sched| - 1]), sched[|sched| - 1];
      RunPairOk(c, t0, sched[..|sched| - 1], k, p, q);
      RunKeepsInv(c, t0, sched[..|sched| - 1]);
      NextPairOk(c, t0, w, s, t0.keys[k], k, p, q);
    }
  }

  // ---------- The exact condition ----------

  /** If two requests can be stored, then one request at most is past the first row,
      and nobody is past the row of the one, unless it is the other, and that is the
      one past the first row. */
  ghost predicate ReplacedOnce(c: Config, x: KeyRow, k: string)
  {
    forall q: nat, r: nat :: Stores(c, q, k) && Stores(c, r, k) && q != r ==>
      && OneFindsExpired(c, x, k)
      && forall p: nat, s: nat :: OnKey(c, p, k) && Expired(x, c.ops[p].stamp.now) && Past(c, k, s, q)
           ==> s == p && r == p
  }

  /** Two creations are by two storable requests. */
  lemma CreatorsDiffer(c: Config, t0: Tables, h: seq<Event>, k: string) returns (q: nat, r: nat)
    requires Legal(c, t0, h) && Commits(c, h, k) >= 2
    ensures Stores(c, q, k) && Stores(c, r, k) && q != r
  {
    var i, j := TwoCommitPoints(c, h, k);
    CommitterStores(c, t0, h, k, i);
    CommitterStores(c, t0, h, k, j);
    CarriedOutOnce(c, t0, h, i, j);
    q, r := h[i].rid, h[j].rid;
  }

  lemma ReplacedOnceIsPair(c: Config, x: KeyRow, k: string, y: nat, z: nat, p: nat) returns (q: nat)
    requires ReplacedOnce(c, x, k) && Stores(c, y, k) && Stores(c, z, k) && y != z
    requires OnKey(c, p, k) && Expired(x, c.ops[p].stamp.now) && !LiveRows(c, k)
    ensures Pair(c, x, k, p, q)
  {
    var s: nat;
    q, s :| Stores(c, q, k) && Past(c, k, s, q);
    var r := if q == y then z else y;
    assert s == p && r == p;
  }

  lemma ReplacedOnceSuffices(c: Config, t0: Tables, sched: seq<Step>, k: string)
    requires k in t0.keys && ReplacedOnce(c, t0.keys[k], k)
    ensures Commits(c, Run(c, t0, sched).history, k) <= 1
  {
    var x, h := t0.keys[k], Run(c, t0, sched).history;
    RunKeepsInv(c, t0, sched);
    if Commits(c, h, k) > 1 {
      var y, z := CreatorsDiffer(c, t0, h, k);
      if NoneFindsExpired(c, x, k) {
        UntouchedKey(c, t0, h, k);
      } else if LiveRows(c, k) {
        RunReplaces(c, t0, sched, k);
      } else {
        var p: nat :| OnKey(c, p, k) && Expired(x, c.ops[p].stamp.now);
        var q := ReplacedOnceIsPair(c, x, k, y, z, p);
        RunPairOk(c, t0, sched, k, p, q);
      }
    }
  }

  /** Two readers of the first row, and two requests that can be stored. */
  lemma FirstRowReplacedTwice(c: Config, t0: Tables, q: nat, r: nat, k: string) returns (sched: seq<Step>)
    requires k in t0.keys && NewIds(c, t0, k) && Stores(c, q, k) && Stores(c, r, k) && q != r
    requires !OneFindsExpired(c, t0.keys[k], k)
    ensures Commits(c, Run(c, t0, sched).history, k) == 2
  {
    var a: nat, b: nat :| OnKey(c, a, k) && OnKey(c, b, k) && a != b
      && Expired(t0.keys[k], c.ops[a].stamp.now) && Expired(t0.keys[k], c.ops[b].stamp.now);
    var i, j;
    if b != q {
      sched, i, j := BothCreate(c, t0, [], a, q, b, r, k);
    } else {
      sched, i, j := BothCreate(c, t0, [], b, q, a, r, k);
    }
  }

  /** `p` clears the first row; `q` creates; `s` clears that row; `r` creates again. */
  lemma LaterRowReplaced(c: Config, t0: Tables, p: nat, q: nat, s: nat, r: nat, k: string) returns (sched: seq<Step>)
    requires k in t0.keys && NewIds(c, t0, k) && Stores(c, q, k) && Stores(c, r, k) && q != r
    requires OnKey(c, p, k) && Expired(t0.keys[k], c.ops[p].stamp.now) && Past(c, k, s, q) && !(s == p && r == p)
    ensures Commits(c, Run(c, t0, sched).history, k) == 2
  {
    var s0 := FreesKey(c, t0, p, k);
    var i, j;
    sched, i, j := Recreates(c, t0, s0, q, s, r, k);
  }

  lemma ReplacedTwice(c: Config, t0: Tables, k: string) returns (sched: seq<Step>)
    requires k in t0.keys && NewIds(c, t0, k) && !ReplacedOnce(c, t0.keys[k], k)
    ensures Commits(c, Run(c, t0, sched).history, k) == 2
  {
    var x := t0.keys[k];
    var q: nat, r: nat :| Stores(c, q, k) && Stores(c, r, k) && q != r
      && !(&& OneFindsExpired(c, x, k)
           && forall p: nat, s: nat :: OnKey(c, p, k) && Expired(x, c.ops[p].stamp.now) && Past(c, k, s, q)
                ==> s == p && r == p);
    if OneFindsExpired(c, x, k) {
      var p: nat, s: nat :| OnKey(c, p, k) && Expired(x, c.ops[p].stamp.now) && Past(c, k, s, q) && !(s == p && r == p);
      sched := LaterRowReplaced(c, t0, p, q, s, r, k);
    } else {
      sched := FirstRowReplacedTwice(c, t0, q, r, k);
    }
  }

  /** A key that starts with a row yields at most one new disbursement under every
      schedule if and only if one request at most can be stored, or one at most is
      past that row and nobody is past the row of another, two storable requests
      excepted of which the one past the first row is also past the other. */
  lemma HeldKeyCommitsOnceIff(c: Config, t0: Tables, k: string)
    requires k in t0.keys && NewIds(c, t0, k)
    ensures (forall sched :: Commits(c, Run(c, t0, sched).history, k) <= 1) <==> ReplacedOnce(c, t0.keys[k], k)
  {
    var x := t0.keys[k];
    if ReplacedOnce(c, x, k) {
      forall sched ensures Commits(c, Run(c, t0, sched).history, k) <= 1 {
        ReplacedOnceSuffices(c, t0, sched, k);
      }
    } else {
      var sched := ReplacedTwice(c, t0, k);
    }
  }
}
