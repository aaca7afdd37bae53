/** The service as it runs: any number of requests in flight, each with its own
    program counter, sharing the tables. One repository call is one step; a call
    may fail without effect, or take effect and still report failure. */
module Protocol {
  import opened Entities
  import opened Store
  import opened AtomicSpec

  const ROUNDS: nat := 2

  datatype Pc =
    | Start
    | PlainInserting
    | Inserting(round: nat)
    | Finding(round: nat)
    | Deleting(round: nat, existing: KeyRow)
    | Reading
    | Swapping(current: Disbursement)
    | Rereading(current: Disbursement)
    | Auditing(entry: AuditEntry, outcome: Outcome)
    | Done(outcome: Outcome)

  datatype Fault = NoFault | FailBefore | FailAfter

  /** One scheduled step: which request moves, the clock, and what goes wrong. */
  datatype Step = Step(rid: nat, at: Time, fault: Fault, auditFault: Fault)

  /** The shared state. `history` is auxiliary: it records what happened and is
      never read by a step. */
  datatype World = World(t: Tables, audit: seq<AuditEntry>, pcs: seq<Pc>, history: seq<Event>)

  datatype Move = Move(t: Tables, pc: Pc, note: Note)

  function Answered(t: Tables, outcome: Outcome): Move
  {
    Move(t, Done(outcome), Settle(Answer(None, outcome)))
  }

  function ActPlain(t: Tables, op: Op, pc: Pc): Move
    requires op.PlainCreate?
  {
    match pc
    case Start => Move(t, PlainInserting, Silent)
    case PlainInserting =>
      var d := Draft(op.req, op.stamp);
      if Insertable(t, d) then
        Move(InsertRow(t, d), Auditing(CreatedEntry(op.stamp.actor, d), Created(d)), Settle(Answer(None, Created(d))))
      else Answered(t, Internal(RowRefused))
    case _ => Move(t, pc, Silent)
  }

  /** The retry loop of a keyed create, one repository call at a time. */
  function ActKeyed(t: Tables, op: Op, pc: Pc, ttl: Time): Move
    requires op.KeyedCreate?
  {
    var d := Draft(op.req, op.stamp);
    match pc
    case Start => if op.keyIsUuid then Move(t, Inserting(0), Silent) else Answered(t, BadRequest)
    case Inserting(round) =>
      (match InsertKeyed(t, KeyRowFor(op, ttl), d)
       case Stored(t') =>
         Move(t', Auditing(CreatedEntry(op.stamp.actor, d), Created(d)), Settle(Answer(None, Created(d))))
       case KeyTaken => Move(t, Finding(round), Silent)
       case RowRefusal => Answered(t, Internal(RowRefused)))
    case Finding(round) =>
      (match FindKey(t, op.key)
       case None => Move(t, Done(Internal(RowMissing)), Silent)
       case Some(existing) =>
         if op.stamp.now > existing.expiresAt then Move(t, Deleting(round, existing), Saw(existing))
         else if existing.userId != op.userId || existing.digest != op.digest then Answered(t, KeyMismatch)
         else Answered(t, Replayed(existing.body)))
    case Deleting(round, existing) =>
      Move(DeleteKey(t, op.key),
           if round + 1 < ROUNDS then Inserting(round + 1) else Done(RetryConflict),
           Swept(FindKey(t, op.key)))
    case _ => Move(t, pc, Silent)
  }

  function ActUpdate(t: Tables, op: Op, pc: Pc, at: Time): Move
    requires op.UpdateStatus?
  {
    match pc
    case Start => if TargetStatus(op.target).Some? then Move(t, Reading, Silent) else Answered(t, BadRequest)
    case Reading =>
      (match FindLive(t, op.id)
       case None => Answered(t, NotFound)
       case Some(current) =>
         if !current.status.Pending? then Answered(t, AlreadyFinal(current.status))
         else Move(t, Swapping(current), Silent))
    case Swapping(current) =>
      if TargetStatus(op.target).None? then Move(t, pc, Silent)
      else
        var affected := CasStatus(t, op.id, TargetStatus(op.target).value, op.note, op.actor, at);
        if affected.WriteRefused? then Answered(t, Internal(RowRefused))
        else if affected.rows == 0 then Move(t, Done(LostRace), Settle(Answer(None, Refusal(t, op))))
        else Move(affected.t, Rereading(current),
                  Settle(Answer(FindLive(t, op.id), Updated(affected.t.rows[op.id].d))))
    case Rereading(current) =>
      (match FindLive(t, op.id)
       case None => Move(t, Done(Internal(RowMissing)), Silent)
       case Some(updated) =>
         Move(t, Auditing(StatusEntry(op.id, op.actor, current, updated), Updated(updated)), Silent))
    case _ => Move(t, pc, Silent)
  }

  function ActDelete(t: Tables, op: Op, pc: Pc, at: Time): Move
    requires op.Delete?
  {
    match pc
    case Start => Move(t, Reading, Silent)
    case Reading =>
      (match FindLive(t, op.id)
       case None => Answered(t, NotFound)
       case Some(current) =>
         if !current.status.Pending? then Answered(t, NotPending) else Move(t, Swapping(current), Silent))
    case Swapping(current) =>
      var affected := SoftDelete(t, op.id, at);
      if affected.rows == 0 then Move(t, Done(LostRace), Settle(Answer(None, Refusal(t, op))))
      else Move(affected.t, Auditing(DeletedEntry(op.id, op.actor, current), Deleted),
                Settle(Answer(FindLive(t, op.id), Deleted)))
    case _ => Move(t, pc, Silent)
  }

  /** Why a conditional write found no row: recorded in the history only, the
      response says no more than that the race was lost. */
  function Refusal(t: Tables, op: Op): Outcome
    requires op.UpdateStatus? || op.Delete?
  {
    match FindLive(t, op.id)
    case None => NotFound
    case Some(current) => if op.Delete? then NotPending else AlreadyFinal(current.status)
  }

  function Act(t: Tables, op: Op, pc: Pc, ttl: Time, at: Time): Move
  {
    match op
    case PlainCreate(_, _) => ActPlain(t, op, pc)
    case KeyedCreate(_, _, _, _, _, _) => ActKeyed(t, op, pc, ttl)
    case UpdateStatus(_, _, _, _) => ActUpdate(t, op, pc, at)
    case Delete(_, _) => ActDelete(t, op, pc, at)
  }

  function Record(rid: nat, at: Time, note: Note): seq<Event>
  {
    if note.Silent? then [] else [Event(rid, at, note)]
  }

  /** One step of the service. A finished request does not move; a failing audit
      write is only logged. */
  function Next(c: Config, w: World, s: Step): World
  {
    if s.rid >= |c.ops| || s.rid >= |w.pcs| then w
    else
      var pc := w.pcs[s.rid];
      if pc.Done? then w
      else if pc.Auditing? then
        w.(audit := if s.auditFault.FailBefore? then w.audit else w.audit + [pc.entry],
           pcs := w.pcs[s.rid := Done(pc.outcome)])
      else if !pc.Start? && s.fault.FailBefore? then
        w.(pcs := w.pcs[s.rid := Done(Internal(DbFault))])
      else
        var m := Act(w.t, c.ops[s.rid], pc, c.ttl, s.at);
        var pc' := if !pc.Start? && s.fault.FailAfter? then Done(Internal(DbFault)) else m.pc;
        World(m.t, w.audit, w.pcs[s.rid := pc'], w.history + Record(s.rid, s.at, m.note))
  }

  /** The request of step `s` makes its next call, or its local first step. */
  predicate Moves(c: Config, w: World, s: Step)
  {
    && s.rid < |c.ops| == |w.pcs|
    && !w.pcs[s.rid].Done? && !w.pcs[s.rid].Auditing?
    && (w.pcs[s.rid].Start? || !s.fault.FailBefore?)
  }

  /** A step that nothing goes wrong with. */
  function Quiet(rid: nat, at: Time): Step
  {
    Step(rid, at, NoFault, NoFault)
  }

  ghost predicate Clean(s: Step)
  {
    s.fault.NoFault? && s.auditFault.NoFault?
  }

  ghost predicate FaultFree(sched: seq<Step>)
  {
    forall i :: 0 <= i < |sched| ==> Clean(sched[i])
  }

  function Initial(c: Config, t0: Tables): World
  {
    World(t0, [], seq(|c.ops|, _ => Start), [])
  }

  /** The state after a schedule: any sequence of steps of any of the requests. */
  function Run(c: Config, t0: Tables, sched: seq<Step>): World
  {
    if sched == [] then Initial(c, t0)
    else Next(c, Run(c, t0, sched[..|sched| - 1]), sched[|sched| - 1])
  }

  lemma RunSnoc(c: Config, t0: Tables, sched: seq<Step>, s: Step)
    ensures Run(c, t0, sched + [s]) == Next(c, Run(c, t0, sched), s)
  {
    assert (sched + [s])[..|sched + [s]| - 1] == sched;
  }
}
