/** Fault-free stretches of a schedule, for building particular runs of requests on
    one key. */
module Schedules {
  import opened Entities
  import opened Store
  import opened AtomicSpec
  import opened Protocol
  import opened Idempotency

  function Go(rid: nat): Step
  {
    Quiet(rid, 0)
  }

  function DraftOf(c: Config, r: nat): Disbursement
    requires r < |c.ops| && c.ops[r].KeyedCreate?
  {
    Draft(c.ops[r].req, c.ops[r].stamp)
  }

  function CommitBy(c: Config, r: nat): Event
    requires r < |c.ops| && c.ops[r].KeyedCreate?
  {
    Event(r, 0, Settle(Answer(None, Created(DraftOf(c, r)))))
  }

  function CommitTables(c: Config, t: Tables, r: nat, k: string): Tables
    requires OnKey(c, r, k)
  {
    Tables(t.rows[DraftOf(c, r).id := Row(DraftOf(c, r), None)], t.keys[k := KeyRowFor(c.ops[r], c.ttl)])
  }

  /** What one more point does to the counts and the notes of a history. */
  ghost predicate Recorded(c: Config, h: seq<Event>, h': seq<Event>, e: Event, k: string)
  {
    && h' == h + [e]
    && Commits(c, h', k) == Commits(c, h, k) + (if IsCommit(c, e, k) then 1 else 0)
    && Saws(h') == if e.note.Saw? then Saws(h)[e.rid := e.note.row] else Saws(h)
  }

  lemma PointRecorded(c: Config, h: seq<Event>, e: Event, k: string)
    ensures Recorded(c, h, h + [e], e, k)
  {
    assert (h + [e])[..|h + [e]| - 1] == h;
  }

  lemma OneStep(c: Config, t0: Tables, sched: seq<Step>, r: nat)
    requires var w := Run(c, t0, sched); r < |w.pcs| == |c.ops| && !w.pcs[r].Done? && !w.pcs[r].Auditing?
    ensures var w := Run(c, t0, sched);
            var m := Act(w.t, c.ops[r], w.pcs[r], c.ttl, 0);
            Run(c, t0, sched + [Go(r)]) == World(m.t, w.audit, w.pcs[r := m.pc], w.history + Record(r, 0, m.note))
    ensures FaultFree(sched) ==> FaultFree(sched + [Go(r)])
  {
    RunSnoc(c, t0, sched, Go(r));
  }

  /** At an insert, or about to make the first one. */
  predicate Ready(pc: Pc)
  {
    pc.Start? || pc.Inserting?
  }

  function RoundOf(pc: Pc): nat
    requires Ready(pc)
  {
    if pc.Inserting? then pc.round else 0
  }

  lemma Begins(c: Config, t0: Tables, sched: seq<Step>, r: nat, k: string) returns (sched': seq<Step>)
    requires OnKey(c, r, k)
    requires var w := Run(c, t0, sched); |w.pcs| == |c.ops| && Ready(w.pcs[r])
    ensures FaultFree(sched) ==> FaultFree(sched')
    ensures var w := Run(c, t0, sched); Run(c, t0, sched') == w.(pcs := w.pcs[r := Inserting(RoundOf(w.pcs[r]))])
  {
    if Run(c, t0, sched).pcs[r].Start? {
      sched' := sched + [Go(r)];
      OneStep(c, t0, sched, r);
    } else {
      sched' := sched;
    }
  }

  function AfterDelete(round: nat): Pc
  {
    if round + 1 < ROUNDS then Inserting(round + 1) else Done(RetryConflict)
  }

  lemma ActLoses(c: Config, t: Tables, r: nat, pc: Pc, k: string)
    requires OnKey(c, r, k) && pc.Inserting? && k in t.keys
    ensures Act(t, c.ops[r], pc, c.ttl, 0) == Move(t, Finding(pc.round), Silent)
  {
  }

  lemma ActSees(c: Config, t: Tables, r: nat, pc: Pc, k: string)
    requires OnKey(c, r, k) && pc.Finding? && k in t.keys && Expired(t.keys[k], c.ops[r].stamp.now)
    ensures Act(t, c.ops[r], pc, c.ttl, 0) == Move(t, Deleting(pc.round, t.keys[k]), Saw(t.keys[k]))
  {
  }

  lemma ActSweeps(c: Config, t: Tables, r: nat, pc: Pc, k: string)
    requires OnKey(c, r, k) && pc.Deleting?
    ensures Act(t, c.ops[r], pc, c.ttl, 0) == Move(DeleteKey(t, k), AfterDelete(pc.round), Swept(FindKey(t, k)))
  {
  }

  lemma ActCreates(c: Config, t: Tables, r: nat, pc: Pc, k: string)
    requires OnKey(c, r, k) && pc.Inserting? && k !in t.keys && Insertable(t, DraftOf(c, r))
    ensures var d := DraftOf(c, r);
            var pc' := Auditing(CreatedEntry(c.ops[r].stamp.actor, d), Created(d));
            Act(t, c.ops[r], pc, c.ttl, 0) == Move(CommitTables(c, t, r, k), pc', CommitBy(c, r).note)
  {
  }

  /** An insert that finds no row of its key. */
  lemma Creates(c: Config, t0: Tables, sched: seq<Step>, r: nat, k: string) returns (sched': seq<Step>)
    requires OnKey(c, r, k)
    requires var w := Run(c, t0, sched);
             |w.pcs| == |c.ops| && Ready(w.pcs[r]) && k !in w.t.keys && Insertable(w.t, DraftOf(c, r))
    ensures FaultFree(sched) ==> FaultFree(sched')
    ensures var w, w' := Run(c, t0, sched), Run(c, t0, sched');
            && w'.t == CommitTables(c, w.t, r, k)
            && w'.pcs == w.pcs[r := Auditing(CreatedEntry(c.ops[r].stamp.actor, DraftOf(c, r)), Created(DraftOf(c, r)))]
            && Recorded(c, w.history, w'.history, CommitBy(c, r), k)
  {
    var s1 := Begins(c, t0, sched, r, k);
    sched' := s1 + [Go(r)];
    var w := Run(c, t0, s1);
    ActCreates(c, w.t, r, w.pcs[r], k);
    OneStep(c, t0, s1, r);
    PointRecorded(c, w.history, CommitBy(c, r), k);
  }

  /** An insert that finds a row of its key. */
  lemma Loses(c: Config, t0: Tables, sched: seq<Step>, r: nat, k: string) returns (sched': seq<Step>)
    requires OnKey(c, r, k)
    requires var w := Run(c, t0, sched); |w.pcs| == |c.ops| && Ready(w.pcs[r]) && k in w.t.keys
    ensures FaultFree(sched) ==> FaultFree(sched')
    ensures var w := Run(c, t0, sched); Run(c, t0, sched') == w.(pcs := w.pcs[r := Finding(RoundOf(w.pcs[r]))])
  {
    var s1 := Begins(c, t0, sched, r, k);
    sched' := s1 + [Go(r)];
    var w := Run(c, t0, s1);
    ActLoses(c, w.t, r, w.pcs[r], k);
    OneStep(c, t0, s1, r);
  }

  /** A request that finds an expired row is ready to delete. */
  lemma Sees(c: Config, t0: Tables, sched: seq<Step>, r: nat, k: string) returns (sched': seq<Step>)
    requires OnKey(c, r, k)
    requires var w := Run(c, t0, sched);
             |w.pcs| == |c.ops| && Ready(w.pcs[r]) && k in w.t.keys && Expired(w.t.keys[k], c.ops[r].stamp.now)
    ensures FaultFree(sched) ==> FaultFree(sched')
    ensures var w, w' := Run(c, t0, sched), Run(c, t0, sched');
            && w'.t == w.t
            && w'.pcs == w.pcs[r := Deleting(RoundOf(w.pcs[r]), w.t.keys[k])]
            && Recorded(c, w.history, w'.history, Event(r, 0, Saw(w.t.keys[k])), k)
  {
    var s1 := Loses(c, t0, sched, r, k);
    sched' := s1 + [Go(r)];
    var w := Run(c, t0, s1);
    ActSees(c, w.t, r, w.pcs[r], k);
    OneStep(c, t0, s1, r);
    PointRecorded(c, w.history, Event(r, 0, Saw(w.t.keys[k])), k);
  }

  lemma Sweeps(c: Config, t0: Tables, sched: seq<Step>, r: nat, k: string) returns (sched': seq<Step>)
    requires OnKey(c, r, k)
    requires var w := Run(c, t0, sched); |w.pcs| == |c.ops| && w.pcs[r].Deleting?
    ensures FaultFree(sched) ==> FaultFree(sched')
    ensures var w, w' := Run(c, t0, sched), Run(c, t0, sched');
            && w'.t == DeleteKey(w.t, k)
            && w'.pcs == w.pcs[r := AfterDelete(w.pcs[r].round)]
            && Recorded(c, w.history, w'.history, Event(r, 0, Swept(FindKey(w.t, k))), k)
  {
    sched' := sched + [Go(r)];
    var w := Run(c, t0, sched);
    ActSweeps(c, w.t, r, w.pcs[r], k);
    OneStep(c, t0, sched, r);
    PointRecorded(c, w.history, Event(r, 0, Swept(FindKey(w.t, k))), k);
  }

  /** A request finds an expired row and deletes it. */
  lemma Clears(c: Config, t0: Tables, sched: seq<Step>, r: nat, k: string) returns (sched': seq<Step>)
    requires OnKey(c, r, k)
    requires var w := Run(c, t0, sched);
             |w.pcs| == |c.ops| && Ready(w.pcs[r]) && k in w.t.keys && Expired(w.t.keys[k], c.ops[r].stamp.now)
    ensures FaultFree(sched) ==> FaultFree(sched')
    ensures var w, w' := Run(c, t0, sched), Run(c, t0, sched');
            && w'.t == DeleteKey(w.t, k)
            && w'.pcs == w.pcs[r := AfterDelete(RoundOf(w.pcs[r]))]
            && w.history <= w'.history && Commits(c, w'.history, k) == Commits(c, w.history, k)
  {
    var s1 := Sees(c, t0, sched, r, k);
    sched' := Sweeps(c, t0, s1, r, k);
  }

  // ---------- A key with no row, and nobody past an insert ----------

  ghost predicate KeyFree(c: Config, t0: Tables, w: World, k: string)
  {
    && |w.pcs| == |c.ops| && w.t.rows == t0.rows && k !in w.t.keys
    && Commits(c, w.history, k) == 0
    && forall r: nat :: OnKey(c, r, k) ==> Ready(w.pcs[r])
  }

  lemma StartsFree(c: Config, t0: Tables, k: string)
    requires k !in t0.keys
    ensures KeyFree(c, t0, Run(c, t0, []), k)
    ensures forall r: nat :: OnKey(c, r, k) ==> Run(c, t0, []).pcs[r].Start?
  {
  }

  /** One request deletes the row a key starts with. */
  lemma FreesKey(c: Config, t0: Tables, p: nat, k: string) returns (sched: seq<Step>)
    requires k in t0.keys && OnKey(c, p, k) && Expired(t0.keys[k], c.ops[p].stamp.now)
    ensures KeyFree(c, t0, Run(c, t0, sched), k) && Run(c, t0, sched).pcs[p] == Inserting(1)
    ensures forall r: nat :: OnKey(c, r, k) && r != p ==> Run(c, t0, sched).pcs[r].Start?
  {
    sched := Clears(c, t0, [], p, k);
  }
}
