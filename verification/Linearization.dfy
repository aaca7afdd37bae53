/** Every run of the service, under every schedule and every pattern of faults, is
    equivalent to carrying out its requests one at a time. */
module Linearization {
  import opened Entities
  import opened Store
  import opened AtomicSpec
  import opened Protocol

  predicate IsRefusal(o: Outcome)
  {
    o.NotFound? || o.AlreadyFinal? || o.NotPending?
  }

  /** A response is explained by the answers of the history: it is the request's
      own atomic answer; or it reports a lost race where the atomic action is
      refused; or the request was never carried out. After a database fault
      nothing is promised. */
  ghost predicate Explained(answers: map<nat, Answer>, rid: nat, out: Outcome)
  {
    match out
    case Internal(DbFault) => true
    case Internal(RowMissing) => rid !in answers
    case RetryConflict => rid !in answers
    case LostRace => rid in answers && IsRefusal(answers[rid].outcome)
    case _ => rid in answers && answers[rid].outcome == out
  }

  /** What each program counter knows, whatever the other requests do. */
  ghost predicate PcOk(t: Tables, answers: map<nat, Answer>, saws: map<nat, KeyRow>, rid: nat, op: Op, pc: Pc)
  {
    match pc
    case Start => rid !in answers && rid !in saws
    case PlainInserting => op.PlainCreate? && rid !in answers
    case Inserting(round) =>
      && op.KeyedCreate? && op.keyIsUuid && rid !in answers
      && round < ROUNDS && (round > 0 ==> rid in saws && Keyed(op))
    case Finding(round) =>
      && Keyed(op) && rid !in answers
      && round < ROUNDS && (round > 0 ==> rid in saws)
    case Deleting(round, existing) =>
      && Keyed(op) && rid !in answers
      && round < ROUNDS
      && rid in saws && saws[rid] == existing && Expired(existing, op.stamp.now)
    case Reading =>
      && ((op.UpdateStatus? && TargetStatus(op.target).Some?) || op.Delete?)
      && rid !in answers
    case Swapping(current) =>
      && ((op.UpdateStatus? && TargetStatus(op.target).Some?) || op.Delete?)
      && rid !in answers
      && op.id in t.rows && current.status.Pending?
      && (LivePending(t.rows[op.id]) ==> t.rows[op.id].d == current)
    case Rereading(current) =>
      && op.UpdateStatus?
      && rid in answers && answers[rid].before == Some(current) && answers[rid].outcome.Updated?
      && op.id in t.rows && t.rows[op.id] == Row(answers[rid].outcome.d, None)
      && !LivePending(t.rows[op.id])
    case Auditing(entry, outcome) =>
      && rid in answers && answers[rid].outcome == outcome
      && EntriesFor(op, answers[rid]) == [entry]
      && !IsRefusal(outcome) && !outcome.Internal? && !outcome.LostRace? && !outcome.RetryConflict?
    case Done(outcome) =>
      && Explained(answers, rid, outcome)
      && (outcome.RetryConflict? ==> Keyed(op) && rid in saws)
      && (outcome.Internal? && outcome.cause.RowMissing? ==> Keyed(op))
  }

  /** The notes and the tables after a move, for the request that moved. */
  ghost predicate MovedOk(t: Tables, answers: map<nat, Answer>, saws: map<nat, KeyRow>,
                          rid: nat, op: Op, ttl: Time, at: Time, m: Move)
  {
    && m.t == ApplyNote(t, op, ttl, at, m.note)
    && (!m.note.Silent? ==> NoteOk(t, op, ttl, at, rid in answers, rid in saws, m.note))
    && PcOk(m.t,
            if m.note.Settle? then answers[rid := m.note.answer] else answers,
            if m.note.Saw? then saws[rid := m.note.row] else saws,
            rid, op, m.pc)
  }

  /** One action of one request: its point is allowed, the tables move exactly as
      that point says, and the request's own knowledge is kept. */
  lemma ActFollowsSpec(t: Tables, answers: map<nat, Answer>, saws: map<nat, KeyRow>,
                       rid: nat, op: Op, pc: Pc, ttl: Time, at: Time)
    requires PcOk(t, answers, saws, rid, op, pc)
    requires !pc.Done? && !pc.Auditing?
    ensures MovedOk(t, answers, saws, rid, op, ttl, at, Act(t, op, pc, ttl, at))
  {
    match op
    case PlainCreate(_, _) => PlainFollowsSpec(t, answers, saws, rid, op, pc, ttl, at);
    case KeyedCreate(_, _, _, _, _, _) => KeyedFollowsSpec(t, answers, saws, rid, op, pc, ttl, at);
    case UpdateStatus(_, _, _, _) => UpdateFollowsSpec(t, answers, saws, rid, op, pc, ttl, at);
    case Delete(_, _) => DeleteFollowsSpec(t, answers, saws, rid, op, pc, ttl, at);
  }

  lemma PlainFollowsSpec(t: Tables, answers: map<nat, Answer>, saws: map<nat, KeyRow>,
                         rid: nat, op: Op, pc: Pc, ttl: Time, at: Time)
    requires PcOk(t, answers, saws, rid, op, pc)
    requires !pc.Done? && !pc.Auditing? && op.PlainCreate?
    ensures MovedOk(t, answers, saws, rid, op, ttl, at, ActPlain(t, op, pc))
  {
  }

  lemma UpdateFollowsSpec(t: Tables, answers: map<nat, Answer>, saws: map<nat, KeyRow>,
                          rid: nat, op: Op, pc: Pc, ttl: Time, at: Time)
    requires PcOk(t, answers, saws, rid, op, pc)
    requires !pc.Done? && !pc.Auditing? && op.UpdateStatus?
    ensures MovedOk(t, answers, saws, rid, op, ttl, at, ActUpdate(t, op, pc, at))
  {
  }

  lemma DeleteFollowsSpec(t: Tables, answers: map<nat, Answer>, saws: map<nat, KeyRow>,
                          rid: nat, op: Op, pc: Pc, ttl: Time, at: Time)
    requires PcOk(t, answers, saws, rid, op, pc)
    requires !pc.Done? && !pc.Auditing? && op.Delete?
    ensures MovedOk(t, answers, saws, rid, op, ttl, at, ActDelete(t, op, pc, at))
  {
    if pc.Swapping? && op.id in t.rows && LivePending(t.rows[op.id]) {
      assert t.rows[op.id] == Row(pc.current, None);
    }
  }

  lemma KeyedFollowsSpec(t: Tables, answers: map<nat, Answer>, saws: map<nat, KeyRow>,
                         rid: nat, op: Op, pc: Pc, ttl: Time, at: Time)
    requires PcOk(t, answers, saws, rid, op, pc)
    requires !pc.Done? && !pc.Auditing? && op.KeyedCreate?
    ensures MovedOk(t, answers, saws, rid, op, ttl, at, ActKeyed(t, op, pc, ttl))
  {
    if pc.Inserting? {
      InsertFollowsSpec(t, answers, saws, rid, op, pc, ttl, at);
    } else if pc.Finding? {
      FindFollowsSpec(t, answers, saws, rid, op, pc, ttl, at);
    }
  }

  lemma InsertFollowsSpec(t: Tables, answers: map<nat, Answer>, saws: map<nat, KeyRow>,
                          rid: nat, op: Op, pc: Pc, ttl: Time, at: Time)
    requires PcOk(t, answers, saws, rid, op, pc)
    requires op.KeyedCreate? && pc.Inserting?
    ensures MovedOk(t, answers, saws, rid, op, ttl, at, ActKeyed(t, op, pc, ttl))
  {
    if op.key !in t.keys {
      assert DeleteKey(t, op.key) == t;
    }
  }

  lemma FindFollowsSpec(t: Tables, answers: map<nat, Answer>, saws: map<nat, KeyRow>,
                        rid: nat, op: Op, pc: Pc, ttl: Time, at: Time)
    requires PcOk(t, answers, saws, rid, op, pc)
    requires op.KeyedCreate? && pc.Finding?
    ensures MovedOk(t, answers, saws, rid, op, ttl, at, ActKeyed(t, op, pc, ttl))
  {
  }

  /** A step of another request leaves this one's knowledge intact. */
  lemma OthersUndisturbed(t: Tables, t': Tables, answers: map<nat, Answer>, answers': map<nat, Answer>,
                          saws: map<nat, KeyRow>, saws': map<nat, KeyRow>, rid: nat, op: Op, pc: Pc)
    requires PcOk(t, answers, saws, rid, op, pc) && Evolves(t, t')
    requires rid in answers <==> rid in answers'
    requires rid in answers ==> answers[rid] == answers'[rid]
    requires rid in saws <==> rid in saws'
    requires rid in saws ==> saws[rid] == saws'[rid]
    ensures PcOk(t', answers', saws', rid, op, pc)
  {
  }

  ghost predicate Inv(c: Config, t0: Tables, w: World)
  {
    && |w.pcs| == |c.ops|
    && Legal(c, t0, w.history)
    && w.t == Play(c, t0, w.history)
    && forall rid :: 0 <= rid < |c.ops| ==>
         PcOk(w.t, Answers(w.history), Saws(w.history), rid, c.ops[rid], w.pcs[rid])
  }

  lemma AnswersAdd(h: seq<Event>, rid: nat, at: Time, note: Note)
    ensures Answers(h + Record(rid, at, note)) == if note.Settle? then Answers(h)[rid := note.answer] else Answers(h)
  {
    if note.Silent? {
      assert h + Record(rid, at, note) == h;
    } else {
      assert (h + [Event(rid, at, note)])[..|h|] == h;
    }
  }

  /** What one recorded point, or none, adds to a history. */
  lemma RecordAdds(c: Config, t0: Tables, h: seq<Event>, rid: nat, at: Time, note: Note)
    requires rid < |c.ops|
    ensures var h' := h + Record(rid, at, note);
            && Answers(h') == (if note.Settle? then Answers(h)[rid := note.answer] else Answers(h))
            && Saws(h') == (if note.Saw? then Saws(h)[rid := note.row] else Saws(h))
            && Play(c, t0, h') == ApplyNote(Play(c, t0, h), c.ops[rid], c.ttl, at, note)
            && ((Legal(c, t0, h) && (note.Silent? || EventOk(c, Play(c, t0, h), h, Event(rid, at, note))))
                ==> Legal(c, t0, h'))
  {
    if note.Silent? {
      assert h + Record(rid, at, note) == h;
    } else {
      HistorySnoc(c, t0, h, Event(rid, at, note));
    }
  }

  lemma MovedKeepsInv(c: Config, t0: Tables, w: World, w': World, rid: nat, at: Time, m: Move, pc': Pc)
    requires Inv(c, t0, w) && rid < |c.ops|
    requires MovedOk(w.t, Answers(w.history), Saws(w.history), rid, c.ops[rid], c.ttl, at, m)
    requires pc' == m.pc || pc' == Done(Internal(DbFault))
    requires w' == World(m.t, w.audit, w.pcs[rid := pc'], w.history + Record(rid, at, m.note))
    ensures Inv(c, t0, w')
  {
    RecordAdds(c, t0, w.history, rid, at, m.note);
    ActionsEvolve(w.t, c.ops[rid], c.ttl, at, m.note);
    forall r | 0 <= r < |c.ops|
      ensures PcOk(w'.t, Answers(w'.history), Saws(w'.history), r, c.ops[r], w'.pcs[r])
    {
      if r != rid {
        OthersUndisturbed(w.t, w'.t, Answers(w.history), Answers(w'.history), Saws(w.history), Saws(w'.history),
                          r, c.ops[r], w.pcs[r]);
      }
    }
  }

  lemma MoveKeepsInv(c: Config, t0: Tables, w: World, s: Step)
    requires Inv(c, t0, w) && Moves(c, w, s)
    ensures Inv(c, t0, Next(c, w, s))
  {
    var op, pc := c.ops[s.rid], w.pcs[s.rid];
    ActFollowsSpec(w.t, Answers(w.history), Saws(w.history), s.rid, op, pc, c.ttl, s.at);
    MovedKeepsInv(c, t0, w, Next(c, w, s), s.rid, s.at, Act(w.t, op, pc, c.ttl, s.at), Next(c, w, s).pcs[s.rid]);
  }

  lemma NextKeepsInv(c: Config, t0: Tables, w: World, s: Step)
    requires Inv(c, t0, w)
    ensures Inv(c, t0, Next(c, w, s))
  {
    if Moves(c, w, s) {
      MoveKeepsInv(c, t0, w, s);
    } else {
      EndKeepsInv(c, t0, w, s);
    }
  }

  /** A step that writes the audit entry, fails before its call, or does nothing. */
  lemma EndKeepsInv(c: Config, t0: Tables, w: World, s: Step)
    requires Inv(c, t0, w) && !Moves(c, w, s)
    ensures Inv(c, t0, Next(c, w, s))
  {
    var w' := Next(c, w, s);
    assert w'.t == w.t && w'.history == w.history;
    forall r | 0 <= r < |c.ops|
      ensures PcOk(w'.t, Answers(w'.history), Saws(w'.history), r, c.ops[r], w'.pcs[r])
    {
      assert PcOk(w.t, Answers(w.history), Saws(w.history), r, c.ops[r], w.pcs[r]);
    }
  }

  lemma {:induction false} RunKeepsInv(c: Config, t0: Tables, sched: seq<Step>)
    ensures Inv(c, t0, Run(c, t0, sched))
  {
    if sched != [] {
      RunKeepsInv(c, t0, sched[..|sched| - 1]);
      NextKeepsInv(c, t0, Run(c, t0, sched[..|sched| - 1]), sched[|sched| - 1]);
    }
  }

  /** Request `rid` is carried out at a point of `h`, and there its action, taken
      whole, answers `out`. */
  ghost predicate CarriedOut(c: Config, t0: Tables, h: seq<Event>, rid: nat, out: Outcome)
    requires rid < |c.ops|
  {
    exists i ::
      && 0 <= i < |h| && h[i].rid == rid && h[i].note.Settle?
      && Atomic(Play(c, t0, h[..i]), c.ops[rid], c.ttl, h[i].at).answer.outcome == out
  }

  ghost predicate NeverCarriedOut(h: seq<Event>, rid: nat)
  {
    forall i :: 0 <= i < |h| && h[i].rid == rid ==> !h[i].note.Settle?
  }

  /** The response of a finished request, read against a sequential history. */
  ghost predicate Linearized(c: Config, t0: Tables, h: seq<Event>, rid: nat, out: Outcome)
    requires rid < |c.ops|
  {
    match out
    case Internal(DbFault) => true
    case Internal(RowMissing) => NeverCarriedOut(h, rid)
    case RetryConflict => NeverCarriedOut(h, rid)
    case LostRace =>
      || CarriedOut(c, t0, h, rid, NotFound)
      || CarriedOut(c, t0, h, rid, NotPending)
      || (exists s :: CarriedOut(c, t0, h, rid, AlreadyFinal(s)))
    case _ => CarriedOut(c, t0, h, rid, out)
  }

  lemma {:induction false} UnansweredNeverCarriedOut(h: seq<Event>, rid: nat)
    requires rid !in Answers(h)
    ensures NeverCarriedOut(h, rid)
  {
    if h != [] {
      UnansweredNeverCarriedOut(h[..|h| - 1], rid);
      forall i | 0 <= i < |h| && h[i].rid == rid ensures !h[i].note.Settle? {
        if i < |h| - 1 {
          assert h[i] == h[..|h| - 1][i];
        }
      }
    }
  }

  lemma AnsweredCarriedOut(c: Config, t0: Tables, h: seq<Event>, rid: nat)
    requires Legal(c, t0, h) && rid in Answers(h)
    ensures rid < |c.ops| && CarriedOut(c, t0, h, rid, Answers(h)[rid].outcome)
  {
    var i := AnswerHasPoint(c, t0, h, rid);
    assert Atomic(Play(c, t0, h[..i]), c.ops[rid], c.ttl, h[i].at).answer.outcome == Answers(h)[rid].outcome;
  }

  lemma ExplainedIsLinearized(c: Config, t0: Tables, h: seq<Event>, rid: nat, out: Outcome)
    requires Legal(c, t0, h) && rid < |c.ops| && Explained(Answers(h), rid, out)
    ensures Linearized(c, t0, h, rid, out)
  {
    if rid in Answers(h) {
      AnsweredCarriedOut(c, t0, h, rid);
    } else {
      UnansweredNeverCarriedOut(h, rid);
    }
  }

  /** Main result. The history of a run is a legal sequential history, carrying it
      out one action at a time gives the run's tables, and every response is the
      one its request gets there. */
  lemma RunIsLinearizable(c: Config, t0: Tables, sched: seq<Step>)
    ensures var w := Run(c, t0, sched);
            && |w.pcs| == |c.ops|
            && Legal(c, t0, w.history)
            && Play(c, t0, w.history) == w.t
            && (forall rid :: 0 <= rid < |c.ops| && w.pcs[rid].Done?
                  ==> Linearized(c, t0, w.history, rid, w.pcs[rid].outcome))
  {
    RunKeepsInv(c, t0, sched);
    var w := Run(c, t0, sched);
    forall rid | 0 <= rid < |c.ops| && w.pcs[rid].Done?
      ensures Linearized(c, t0, w.history, rid, w.pcs[rid].outcome)
    {
      assert PcOk(w.t, Answers(w.history), Saws(w.history), rid, c.ops[rid], w.pcs[rid]);
      ExplainedIsLinearized(c, t0, w.history, rid, w.pcs[rid].outcome);
    }
  }

  lemma {:induction false} PointIsAnswered(h: seq<Event>, i: nat)
    requires i < |h| && h[i].note.Settle?
    ensures h[i].rid in Answers(h)
  {
    if i < |h| - 1 {
      PointIsAnswered(h[..|h| - 1], i);
    }
  }

  /** No request is carried out twice. */
  lemma CarriedOutOnce(c: Config, t0: Tables, h: seq<Event>, i: nat, j: nat)
    requires Legal(c, t0, h) && i < j < |h|
    requires h[i].note.Settle? && h[j].note.Settle?
    ensures h[i].rid != h[j].rid
  {
    LegalPrefix(c, t0, h, j + 1);
    assert h[..j + 1][..j] == h[..j];
    PointIsAnswered(h[..j], i);
  }

  lemma {:induction false} SawHasPoint(c: Config, t0: Tables, h: seq<Event>, rid: nat) returns (l: nat)
    requires Legal(c, t0, h) && rid in Saws(h)
    ensures l < |h| && h[l].rid == rid && h[l].note == Saw(Saws(h)[rid])
    ensures rid < |c.ops| && EventOk(c, Play(c, t0, h[..l]), h[..l], h[l])
  {
    var p, e := h[..|h| - 1], h[|h| - 1];
    if e.note.Saw? && e.rid == rid {
      l := |h| - 1;
    } else {
      l := SawHasPoint(c, t0, p, rid);
      assert p[..l] == h[..l];
    }
  }

  /** A key row leaves the table only by the hand of a request that earlier read,
      under that key, a row already expired at the request's own clock. */
  lemma SweepIsLicensed(c: Config, t0: Tables, h: seq<Event>, m: nat) returns (l: nat)
    requires Legal(c, t0, h) && m < |h| && h[m].note.Swept?
    ensures l < m && h[l].rid == h[m].rid < |c.ops| && h[l].note.Saw?
    ensures var op := c.ops[h[m].rid];
            && Keyed(op)
            && FindKey(Play(c, t0, h[..l]), op.key) == Some(h[l].note.row)
            && op.stamp.now > h[l].note.row.expiresAt
  {
    LegalPrefix(c, t0, h, m + 1);
    assert h[..m + 1][..m] == h[..m];
    l := SawHasPoint(c, t0, h[..m], h[m].rid);
    assert h[..m][..l] == h[..l];
  }

  lemma {:induction false} NoTracesNoPoints(c: Config, t0: Tables, h: seq<Event>, rid: nat)
    requires Legal(c, t0, h) && rid !in Answers(h) && rid !in Saws(h)
    ensures forall i :: 0 <= i < |h| ==> h[i].rid != rid
  {
    if h != [] {
      NoTracesNoPoints(c, t0, h[..|h| - 1], rid);
      assert forall i :: 0 <= i < |h| - 1 ==> h[i] == h[..|h| - 1][i];
    }
  }

  /** A finished request adds nothing more to the history. */
  lemma {:induction false} FinishedIsQuiet(c: Config, t0: Tables, sched: seq<Step>, n: nat, a: nat)
    requires n <= |sched| && a < |c.ops|
    requires |Run(c, t0, sched[..n]).pcs| == |c.ops| && Run(c, t0, sched[..n]).pcs[a].Done?
    ensures var h0, w := Run(c, t0, sched[..n]).history, Run(c, t0, sched);
            && |w.pcs| == |c.ops| && w.pcs[a] == Run(c, t0, sched[..n]).pcs[a]
            && h0 <= w.history
            && forall i :: |h0| <= i < |w.history| ==> w.history[i].rid != a
  {
    if n == |sched| {
      assert sched[..n] == sched;
    } else {
      assert sched[..|sched| - 1][..n] == sched[..n];
      FinishedIsQuiet(c, t0, sched[..|sched| - 1], n, a);
    }
  }

  /** The sequential order respects real time: when `a` had finished before `b`
      made its first step, every point of `a` comes before every point of `b`. */
  lemma RespectsRealTime(c: Config, t0: Tables, sched: seq<Step>, n: nat, a: nat, b: nat)
    requires n <= |sched| && a < |c.ops| && b < |c.ops|
    requires |Run(c, t0, sched[..n]).pcs| == |c.ops|
    requires Run(c, t0, sched[..n]).pcs[a].Done? && Run(c, t0, sched[..n]).pcs[b].Start?
    ensures var h := Run(c, t0, sched).history;
            forall i, j :: 0 <= i < |h| && 0 <= j < |h| && h[i].rid == a && h[j].rid == b ==> i < j
  {
    RunKeepsInv(c, t0, sched[..n]);
    FinishedIsQuiet(c, t0, sched, n, a);
    var h0, h := Run(c, t0, sched[..n]).history, Run(c, t0, sched).history;
    NoTracesNoPoints(c, t0, h0, b);
    assert forall j :: 0 <= j < |h0| ==> h[j] == h0[j];
  }
}
