/** The specification: every request as one indivisible action on the tables, and
    sequential histories of such actions. */
module AtomicSpec {
  import opened Entities
  import opened Store

  /** The answer to a request; `before` is the row a successful status change or
      delete started from. */
  datatype Answer = Answer(before: Option<Disbursement>, outcome: Outcome)

  datatype Effect = Effect(t: Tables, answer: Answer)

  function Refuse(t: Tables, outcome: Outcome): Effect
  {
    Effect(t, Answer(None, outcome))
  }

  /** What a live key row means for a request that carries the same key. */
  function Reuse(row: KeyRow, op: Op): Outcome
    requires op.KeyedCreate?
  {
    if row.userId != op.userId || row.digest != op.digest then KeyMismatch else Replayed(row.body)
  }

  /** A request as one action. For a keyed create: a live key row is replayed or
      rejected, an absent or expired one is overwritten by a new creation. */
  function Atomic(t: Tables, op: Op, ttl: Time, at: Time): Effect
  {
    match op
    case PlainCreate(req, stamp) =>
      var d := Draft(req, stamp);
      if Insertable(t, d) then Effect(InsertRow(t, d), Answer(None, Created(d)))
      else Refuse(t, Internal(RowRefused))
    case KeyedCreate(req, stamp, key, keyIsUuid, _, _) =>
      if !keyIsUuid then Refuse(t, BadRequest)
      else if |key| > KEY_WIDTH then Refuse(t, Internal(RowRefused))
      else if key in t.keys && !Expired(t.keys[key], stamp.now) then Refuse(t, Reuse(t.keys[key], op))
      else
        var d := Draft(req, stamp);
        if Insertable(t, d) then
          Effect(InsertRow(t.(keys := t.keys[key := KeyRowFor(op, ttl)]), d), Answer(None, Created(d)))
        else
          Refuse(DeleteKey(t, key), Internal(RowRefused))
    case UpdateStatus(id, target, note, actor) =>
      if TargetStatus(target).None? then Refuse(t, BadRequest)
      else (
        match FindLive(t, id)
        case None => Refuse(t, NotFound)
        case Some(current) =>
          if !current.status.Pending? then Refuse(t, AlreadyFinal(current.status))
          else if |note| > NOTE_WIDTH then Refuse(t, Internal(RowRefused))
          else
            var updated := Decide(current, TargetStatus(target).value, note, actor, at);
            Effect(t.(rows := t.rows[id := Row(updated, None)]), Answer(Some(current), Updated(updated)))
      )
    case Delete(id, _) =>
      match FindLive(t, id)
      case None => Refuse(t, NotFound)
      case Some(current) =>
        if !current.status.Pending? then Refuse(t, NotPending)
        else Effect(t.(rows := t.rows[id := Row(current, Some(at))]), Answer(Some(current), Deleted))
  }

  /** The audit entry an answer deserves, if any. */
  function EntriesFor(op: Op, a: Answer): seq<AuditEntry>
  {
    match a.outcome
    case Created(d) => if op.PlainCreate? || op.KeyedCreate? then [CreatedEntry(op.stamp.actor, d)] else []
    case Updated(d) =>
      if op.UpdateStatus? && a.before.Some? then [StatusEntry(op.id, op.actor, a.before.value, d)] else []
    case Deleted => if op.Delete? && a.before.Some? then [DeletedEntry(op.id, op.actor, a.before.value)] else []
    case _ => []
  }

  /** The requests of a run, by position, and the configured lifetime of a key. */
  datatype Config = Config(ops: seq<Op>, ttl: Time)

  /** A point in a history: a request is settled, a request sees an expired key
      row, or a request deletes by key whatever row it finds there. */
  datatype Note =
    | Silent
    | Settle(answer: Answer)
    | Saw(row: KeyRow)
    | Swept(removed: Option<KeyRow>)

  datatype Event = Event(rid: nat, at: Time, note: Note)

  /** `op` is a create whose key parses and fits its column. */
  predicate Keyed(op: Op)
  {
    op.KeyedCreate? && op.keyIsUuid && |op.key| <= KEY_WIDTH
  }

  predicate UsesKey(op: Op, k: string)
  {
    Keyed(op) && op.key == k
  }

  /** Whether a point is allowed on tables `t`. `answered` and `saw` tell whether
      the request was settled, or saw an expired row, at an earlier point. */
  predicate NoteOk(t: Tables, op: Op, ttl: Time, at: Time, answered: bool, saw: bool, note: Note)
  {
    match note
    case Silent => false
    case Settle(answer) =>
      && !answered
      && answer == Atomic(t, op, ttl, at).answer
      && (Keyed(op) && op.key in t.keys ==> !Expired(t.keys[op.key], op.stamp.now))
    case Saw(row) =>
      && !answered
      && Keyed(op)
      && FindKey(t, op.key) == Some(row)
      && Expired(row, op.stamp.now)
    case Swept(removed) =>
      && !answered
      && Keyed(op)
      && saw
      && removed == FindKey(t, op.key)
  }

  function ApplyNote(t: Tables, op: Op, ttl: Time, at: Time, note: Note): Tables
  {
    match note
    case Silent => t
    case Settle(_) => Atomic(t, op, ttl, at).t
    case Saw(_) => t
    case Swept(_) => if op.KeyedCreate? then DeleteKey(t, op.key) else t
  }

  /** The requests settled in a history, with their answers. */
  function Answers(h: seq<Event>): map<nat, Answer>
  {
    if h == [] then map[]
    else
      var e := h[|h| - 1];
      if e.note.Settle? then Answers(h[..|h| - 1])[e.rid := e.note.answer] else Answers(h[..|h| - 1])
  }

  /** The expired row each request saw last. */
  function Saws(h: seq<Event>): map<nat, KeyRow>
  {
    if h == [] then map[]
    else
      var e := h[|h| - 1];
      if e.note.Saw? then Saws(h[..|h| - 1])[e.rid := e.note.row] else Saws(h[..|h| - 1])
  }

  /** The tables after carrying out a history one action at a time. */
  function Play(c: Config, t0: Tables, h: seq<Event>): Tables
  {
    if h == [] then t0
    else
      var e := h[|h| - 1];
      var t := Play(c, t0, h[..|h| - 1]);
      if e.rid < |c.ops| then ApplyNote(t, c.ops[e.rid], c.ttl, e.at, e.note) else t
  }

  ghost predicate EventOk(c: Config, t: Tables, h: seq<Event>, e: Event)
  {
    && e.rid < |c.ops|
    && NoteOk(t, c.ops[e.rid], c.ttl, e.at, e.rid in Answers(h), e.rid in Saws(h), e.note)
  }

  /** A sequential history in which every point is allowed where it stands. */
  ghost predicate Legal(c: Config, t0: Tables, h: seq<Event>)
  {
    h == [] ||
    (&& Legal(c, t0, h[..|h| - 1])
     && EventOk(c, Play(c, t0, h[..|h| - 1]), h[..|h| - 1], h[|h| - 1]))
  }

  lemma HistorySnoc(c: Config, t0: Tables, h: seq<Event>, e: Event)
    ensures (h + [e])[..|h + [e]| - 1] == h
    ensures e.rid < |c.ops| ==>
              Play(c, t0, h + [e]) == ApplyNote(Play(c, t0, h), c.ops[e.rid], c.ttl, e.at, e.note)
    ensures Answers(h + [e]) == if e.note.Settle? then Answers(h)[e.rid := e.note.answer] else Answers(h)
    ensures Saws(h + [e]) == if e.note.Saw? then Saws(h)[e.rid := e.note.row] else Saws(h)
    ensures Legal(c, t0, h + [e]) <==> Legal(c, t0, h) && EventOk(c, Play(c, t0, h), h, e)
  {
    assert (h + [e])[..|h + [e]| - 1] == h;
  }

  lemma {:induction false} LegalPrefix(c: Config, t0: Tables, h: seq<Event>, n: nat)
    requires Legal(c, t0, h) && n <= |h|
    ensures Legal(c, t0, h[..n])
  {
    if n < |h| {
      assert h[..|h| - 1][..n] == h[..n];
      LegalPrefix(c, t0, h[..|h| - 1], n);
    } else {
      assert h[..n] == h;
    }
  }

  lemma ActionsEvolve(t: Tables, op: Op, ttl: Time, at: Time, note: Note)
    requires note.Settle? ==> note.answer == Atomic(t, op, ttl, at).answer
    ensures Evolves(t, ApplyNote(t, op, ttl, at, note))
  {
  }

  /** Rows only ever evolve along a legal history. */
  lemma {:induction false} HistoryEvolves(c: Config, t0: Tables, h: seq<Event>, n: nat)
    requires Legal(c, t0, h) && n <= |h|
    ensures Evolves(Play(c, t0, h[..n]), Play(c, t0, h))
  {
    if n == |h| {
      assert h[..n] == h;
    } else {
      var p, e := h[..|h| - 1], h[|h| - 1];
      assert p[..n] == h[..n];
      HistoryEvolves(c, t0, p, n);
      ActionsEvolve(Play(c, t0, p), c.ops[e.rid], c.ttl, e.at, e.note);
      assert Play(c, t0, h) == ApplyNote(Play(c, t0, p), c.ops[e.rid], c.ttl, e.at, e.note);
    }
  }

  /** An answer in a history has exactly the point where it was given. */
  lemma {:induction false} AnswerHasPoint(c: Config, t0: Tables, h: seq<Event>, rid: nat) returns (i: nat)
    requires Legal(c, t0, h) && rid in Answers(h)
    ensures i < |h| && h[i].rid == rid && h[i].note == Settle(Answers(h)[rid])
    ensures rid < |c.ops| && Legal(c, t0, h[..i])
    ensures EventOk(c, Play(c, t0, h[..i]), h[..i], h[i])
    ensures Play(c, t0, h[..i + 1]) == ApplyNote(Play(c, t0, h[..i]), c.ops[rid], c.ttl, h[i].at, h[i].note)
  {
    var p, e := h[..|h| - 1], h[|h| - 1];
    if e.note.Settle? && e.rid == rid {
      i := |h| - 1;
      assert h[..i + 1] == h;
    } else {
      i := AnswerHasPoint(c, t0, p, rid);
      assert p[..i] == h[..i] && p[..i + 1] == h[..i + 1];
    }
  }
}
