/** Requests served one after another. */
module SerialRuns {
  import opened Entities
  import opened Store
  import opened AtomicSpec
  import opened Protocol

  // ---------- A request left alone is one atomic action ----------

  /** `n` undisturbed steps of one request. */
  function Alone(c: Config, w: World, rid: nat, at: Time, n: nat): World
    decreases n
  {
    if n == 0 then w else Alone(c, Next(c, w, Quiet(rid, at)), rid, at, n - 1)
  }

  ghost predicate Served(c: Config, w: World, w': World, rid: nat, at: Time)
    requires rid < |c.ops| == |w.pcs|
  {
    var e := Atomic(w.t, c.ops[rid], c.ttl, at);
    && w'.t == e.t
    && w'.pcs == w.pcs[rid := Done(e.answer.outcome)]
    && w'.audit == w.audit + EntriesFor(c.ops[rid], e.answer)
  }

  lemma {:induction false} DoneStays(c: Config, w: World, rid: nat, at: Time, n: nat)
    requires rid < |c.ops| == |w.pcs| && w.pcs[rid].Done?
    ensures Alone(c, w, rid, at, n) == w
  {
    if n > 0 {
      DoneStays(c, w, rid, at, n - 1);
    }
  }

  /** The last step: an entry is written and the request is done. */
  lemma FinishAudit(c: Config, w: World, rid: nat, at: Time, n: nat)
    requires rid < |c.ops| == |w.pcs| && w.pcs[rid].Auditing? && n > 0
    ensures var w' := Alone(c, w, rid, at, n);
            w'.t == w.t && w'.audit == w.audit + [w.pcs[rid].entry] && w'.pcs == w.pcs[rid := Done(w.pcs[rid].outcome)]
  {
    var w1 := Next(c, w, Quiet(rid, at));
    DoneStays(c, w1, rid, at, n - 1);
  }

  lemma OneAlone(c: Config, w: World, rid: nat, at: Time, n: nat) returns (w1: World)
    requires rid < |c.ops| == |w.pcs| && !w.pcs[rid].Done? && !w.pcs[rid].Auditing? && n > 0
    ensures Alone(c, w, rid, at, n) == Alone(c, w1, rid, at, n - 1)
    ensures var m := Act(w.t, c.ops[rid], w.pcs[rid], c.ttl, at);
            w1.t == m.t && w1.pcs == w.pcs[rid := m.pc] && w1.audit == w.audit
  {
    w1 := Next(c, w, Quiet(rid, at));
  }

  lemma Settles(c: Config, w: World, rid: nat, at: Time, n: nat)
    requires rid < |c.ops| == |w.pcs| && n > 0
    requires w.pcs[rid].Done? || w.pcs[rid].Auditing?
    ensures var w' := Alone(c, w, rid, at, n);
            && w'.t == w.t
            && w'.audit == w.audit + (if w.pcs[rid].Auditing? then [w.pcs[rid].entry] else [])
            && w'.pcs == w.pcs[rid := Done(w.pcs[rid].outcome)]
  {
    if w.pcs[rid].Done? {
      DoneStays(c, w, rid, at, n);
      assert w.pcs[rid := Done(w.pcs[rid].outcome)] == w.pcs;
    } else {
      FinishAudit(c, w, rid, at, n);
    }
  }

  lemma LastInsertAlone(c: Config, w: World, w4: World, rid: nat, at: Time, n: nat)
    requires rid < |c.ops| == |w.pcs| && Keyed(c.ops[rid]) && n >= 2
    requires c.ops[rid].key in w.t.keys && Expired(w.t.keys[c.ops[rid].key], c.ops[rid].stamp.now)
    requires w4.t == DeleteKey(w.t, c.ops[rid].key) && w4.audit == w.audit && w4.pcs == w.pcs[rid := Inserting(1)]
    ensures Served(c, w, Alone(c, w4, rid, at, n), rid, at)
  {
    var op := c.ops[rid];
    var w5 := OneAlone(c, w4, rid, at, n);
    assert (w.t.keys - {op.key})[op.key := KeyRowFor(op, c.ttl)] == w.t.keys[op.key := KeyRowFor(op, c.ttl)];
    Settles(c, w5, rid, at, n - 1);
  }

  /** From the delete of an expired row on, nothing stands in the way. */
  lemma SecondRoundAlone(c: Config, w: World, w3: World, rid: nat, at: Time, n: nat)
    requires rid < |c.ops| == |w.pcs| && Keyed(c.ops[rid]) && n >= 3
    requires c.ops[rid].key in w.t.keys && Expired(w.t.keys[c.ops[rid].key], c.ops[rid].stamp.now)
    requires w3.t == w.t && w3.audit == w.audit
    requires w3.pcs == w.pcs[rid := Deleting(0, w.t.keys[c.ops[rid].key])]
    ensures Served(c, w, Alone(c, w3, rid, at, n), rid, at)
  {
    var op := c.ops[rid];
    var w4 := OneAlone(c, w3, rid, at, n);
    assert w4.t == DeleteKey(w.t, op.key) && w4.pcs == w.pcs[rid := Inserting(1)];
    LastInsertAlone(c, w, w4, rid, at, n - 1);
  }

  lemma LiveRowAlone(c: Config, w: World, w2: World, rid: nat, at: Time, n: nat)
    requires rid < |c.ops| == |w.pcs| && Keyed(c.ops[rid]) && n >= 2
    requires c.ops[rid].key in w.t.keys && !Expired(w.t.keys[c.ops[rid].key], c.ops[rid].stamp.now)
    requires w2.t == w.t && w2.audit == w.audit && w2.pcs == w.pcs[rid := Finding(0)]
    ensures Served(c, w, Alone(c, w2, rid, at, n), rid, at)
  {
    var w3 := OneAlone(c, w2, rid, at, n);
    Settles(c, w3, rid, at, n - 1);
  }

  lemma ExpiredRowAlone(c: Config, w: World, w2: World, rid: nat, at: Time, n: nat)
    requires rid < |c.ops| == |w.pcs| && Keyed(c.ops[rid]) && n >= 4
    requires c.ops[rid].key in w.t.keys && Expired(w.t.keys[c.ops[rid].key], c.ops[rid].stamp.now)
    requires w2.t == w.t && w2.audit == w.audit && w2.pcs == w.pcs[rid := Finding(0)]
    ensures Served(c, w, Alone(c, w2, rid, at, n), rid, at)
  {
    var w3 := OneAlone(c, w2, rid, at, n);
    SecondRoundAlone(c, w, w3, rid, at, n - 1);
  }

  lemma TakenAlone(c: Config, w: World, w1: World, rid: nat, at: Time, n: nat)
    requires rid < |c.ops| == |w.pcs| && Keyed(c.ops[rid]) && n >= 5
    requires c.ops[rid].key in w.t.keys
    requires w1.t == w.t && w1.audit == w.audit && w1.pcs == w.pcs[rid := Inserting(0)]
    ensures Served(c, w, Alone(c, w1, rid, at, n), rid, at)
  {
    var op := c.ops[rid];
    var w2 := OneAlone(c, w1, rid, at, n);
    assert w2.pcs == w.pcs[rid := Finding(0)];
    if Expired(w.t.keys[op.key], op.stamp.now) {
      ExpiredRowAlone(c, w, w2, rid, at, n - 1);
    } else {
      LiveRowAlone(c, w, w2, rid, at, n - 1);
    }
  }

  lemma KeyedAlone(c: Config, w: World, rid: nat, at: Time, n: nat)
    requires rid < |c.ops| == |w.pcs| && w.pcs[rid].Start? && c.ops[rid].KeyedCreate? && n >= 6
    ensures Served(c, w, Alone(c, w, rid, at, n), rid, at)
  {
    var op := c.ops[rid];
    var w1 := OneAlone(c, w, rid, at, n);
    if !op.keyIsUuid {
      Settles(c, w1, rid, at, n - 1);
    } else if |op.key| > KEY_WIDTH {
      var w2 := OneAlone(c, w1, rid, at, n - 1);
      Settles(c, w2, rid, at, n - 2);
    } else if op.key !in w.t.keys {
      var w2 := OneAlone(c, w1, rid, at, n - 1);
      assert DeleteKey(w.t, op.key) == w.t;
      Settles(c, w2, rid, at, n - 2);
    } else {
      TakenAlone(c, w, w1, rid, at, n - 1);
    }
  }

  lemma PlainAlone(c: Config, w: World, rid: nat, at: Time, n: nat)
    requires rid < |c.ops| == |w.pcs| && w.pcs[rid].Start? && c.ops[rid].PlainCreate? && n >= 6
    ensures Served(c, w, Alone(c, w, rid, at, n), rid, at)
  {
    var w1 := OneAlone(c, w, rid, at, n);
    var w2 := OneAlone(c, w1, rid, at, n - 1);
    Settles(c, w2, rid, at, n - 2);
  }

  lemma UpdateAlone(c: Config, w: World, rid: nat, at: Time, n: nat)
    requires rid < |c.ops| == |w.pcs| && w.pcs[rid].Start? && c.ops[rid].UpdateStatus? && n >= 6
    ensures Served(c, w, Alone(c, w, rid, at, n), rid, at)
  {
    var w1 := OneAlone(c, w, rid, at, n);
    if w1.pcs[rid].Done? {
      Settles(c, w1, rid, at, n - 1);
    } else {
      ReadAlone(c, w, w1, rid, at, n - 1);
    }
  }

  lemma ReadAlone(c: Config, w: World, w1: World, rid: nat, at: Time, n: nat)
    requires rid < |c.ops| == |w.pcs| && c.ops[rid].UpdateStatus? && TargetStatus(c.ops[rid].target).Some? && n >= 4
    requires w1.t == w.t && w1.audit == w.audit && w1.pcs == w.pcs[rid := Reading]
    ensures Served(c, w, Alone(c, w1, rid, at, n), rid, at)
  {
    var w2 := OneAlone(c, w1, rid, at, n);
    var found := FindLive(w.t, c.ops[rid].id);
    if found.None? || !found.value.status.Pending? {
      assert w2.pcs[rid].Done?;
      Settles(c, w2, rid, at, n - 1);
    } else {
      SwapAlone(c, w, w2, rid, at, n - 1);
    }
  }

  /** A status change whose read found the row pending. */
  lemma SwapAlone(c: Config, w: World, w2: World, rid: nat, at: Time, n: nat)
    requires rid < |c.ops| == |w.pcs| && c.ops[rid].UpdateStatus? && TargetStatus(c.ops[rid].target).Some? && n >= 3
    requires FindLive(w.t, c.ops[rid].id).Some? && FindLive(w.t, c.ops[rid].id).value.status.Pending?
    requires w2.t == w.t && w2.audit == w.audit
    requires w2.pcs == w.pcs[rid := Swapping(FindLive(w.t, c.ops[rid].id).value)]
    ensures Served(c, w, Alone(c, w2, rid, at, n), rid, at)
  {
    var w3 := OneAlone(c, w2, rid, at, n);
    if w3.pcs[rid].Done? {
      Settles(c, w3, rid, at, n - 1);
    } else {
      RereadAlone(c, w, w3, rid, at, n - 1);
    }
  }

  lemma RereadAlone(c: Config, w: World, w3: World, rid: nat, at: Time, n: nat)
    requires rid < |c.ops| == |w.pcs| && c.ops[rid].UpdateStatus? && n >= 2
    requires var e := Atomic(w.t, c.ops[rid], c.ttl, at);
             && e.answer.outcome.Updated? && e.answer.before.Some?
             && w3.t == e.t && w3.audit == w.audit && w3.pcs == w.pcs[rid := Rereading(e.answer.before.value)]
    ensures Served(c, w, Alone(c, w3, rid, at, n), rid, at)
  {
    var w4 := OneAlone(c, w3, rid, at, n);
    Settles(c, w4, rid, at, n - 1);
  }

  lemma DeleteAlone(c: Config, w: World, rid: nat, at: Time, n: nat)
    requires rid < |c.ops| == |w.pcs| && w.pcs[rid].Start? && c.ops[rid].Delete? && n >= 6
    ensures Served(c, w, Alone(c, w, rid, at, n), rid, at)
  {
    var w1 := OneAlone(c, w, rid, at, n);
    assert w1.pcs[rid] == Reading;
    var w2 := OneAlone(c, w1, rid, at, n - 1);
    if w2.pcs[rid].Done? {
      Settles(c, w2, rid, at, n - 2);
    } else {
      var w3 := OneAlone(c, w2, rid, at, n - 2);
      assert w3.pcs[rid].Auditing?;
      Settles(c, w3, rid, at, n - 3);
    }
  }

  function Steps(rid: nat, at: Time, n: nat): seq<Step>
  {
    if n == 0 then [] else [Quiet(rid, at)] + Steps(rid, at, n - 1)
  }

  lemma StepsBegin(sched: seq<Step>, rid: nat, at: Time, n: nat)
    requires n > 0
    ensures sched + Steps(rid, at, n) == sched + [Quiet(rid, at)] + Steps(rid, at, n - 1)
  {
  }

  lemma {:induction false} AloneIsARun(c: Config, t0: Tables, sched: seq<Step>, rid: nat, at: Time, n: nat)
    ensures Run(c, t0, sched + Steps(rid, at, n)) == Alone(c, Run(c, t0, sched), rid, at, n)
    decreases n
  {
    if n == 0 {
      assert sched + Steps(rid, at, n) == sched;
    } else {
      var s := Quiet(rid, at);
      StepsBegin(sched, rid, at, n);
      AloneIsARun(c, t0, sched + [s], rid, at, n - 1);
      RunSnoc(c, t0, sched, s);
    }
  }

  lemma AnyAlone(c: Config, w: World, rid: nat, at: Time, n: nat)
    requires rid < |c.ops| == |w.pcs| && w.pcs[rid].Start? && n >= 6
    ensures Served(c, w, Alone(c, w, rid, at, n), rid, at)
  {
    match c.ops[rid]
    case PlainCreate(_, _) => PlainAlone(c, w, rid, at, n);
    case KeyedCreate(_, _, _, _, _, _) => KeyedAlone(c, w, rid, at, n);
    case UpdateStatus(_, _, _, _) => UpdateAlone(c, w, rid, at, n);
    case Delete(_, _) => DeleteAlone(c, w, rid, at, n);
  }

  lemma AtomicNeverRunsOut(t: Tables, op: Op, ttl: Time, at: Time)
    ensures Atomic(t, op, ttl, at).answer.outcome != RetryConflict
  {
  }

  /** From any reachable state, a request given six steps without interruption and
      without faults is done, with the tables, the response and the audit entry of
      its atomic action; the two rounds never run out. */
  lemma ServedAloneIsAtomic(c: Config, t0: Tables, sched: seq<Step>, rid: nat, at: Time, n: nat)
    requires rid < |c.ops| == |Run(c, t0, sched).pcs| && Run(c, t0, sched).pcs[rid].Start? && n >= 6
    ensures Served(c, Run(c, t0, sched), Run(c, t0, sched + Steps(rid, at, n)), rid, at)
    ensures Atomic(Run(c, t0, sched).t, c.ops[rid], c.ttl, at).answer.outcome != RetryConflict
  {
    AloneIsARun(c, t0, sched, rid, at, n);
    AnyAlone(c, Run(c, t0, sched), rid, at, n);
    AtomicNeverRunsOut(Run(c, t0, sched).t, c.ops[rid], c.ttl, at);
  }

  // ---------- A serial schedule carries out the requests one by one ----------

  /** One request served whole at a given clock. */
  datatype Turn = Turn(op: Op, at: Time)

  function Serve(t0: Tables, ttl: Time, turns: seq<Turn>): Tables
  {
    if turns == [] then t0
    else
      var last := turns[|turns| - 1];
      Atomic(Serve(t0, ttl, turns[..|turns| - 1]), last.op, ttl, last.at).t
  }

  /** The schedule that serves one request after another, six steps each. */
  function ServeSteps(turns: seq<Turn>): seq<Step>
  {
    if turns == [] then []
    else
      var n := |turns| - 1;
      ServeSteps(turns[..n]) + Steps(n, turns[n].at, 6)
  }

  /** The answer of turn `i`: its atomic action on the tables that the turns before
      it left. */
  function AnswerOf(t0: Tables, ttl: Time, turns: seq<Turn>, i: nat): Answer
    requires i < |turns|
  {
    Atomic(Serve(t0, ttl, turns[..i]), turns[i].op, ttl, turns[i].at).answer
  }

  function LogOf(t0: Tables, ttl: Time, turns: seq<Turn>): seq<AuditEntry>
  {
    if turns == [] then []
    else
      var n := |turns| - 1;
      LogOf(t0, ttl, turns[..n]) + EntriesFor(turns[n].op, AnswerOf(t0, ttl, turns, n))
  }

  /** The first `n` requests are served, the others have not started. */
  ghost predicate ServedUpTo(c: Config, t0: Tables, w: World, turns: seq<Turn>, n: nat)
    requires n <= |turns| == |c.ops|
  {
    && |w.pcs| == |c.ops|
    && w.t == Serve(t0, c.ttl, turns[..n])
    && w.audit == LogOf(t0, c.ttl, turns[..n])
    && (forall i: nat :: i < n ==> w.pcs[i] == Done(AnswerOf(t0, c.ttl, turns, i).outcome))
    && (forall i: nat :: n <= i < |turns| ==> w.pcs[i].Start?)
  }

  lemma ServeStepsSnoc(turns: seq<Turn>, m: nat)
    requires m < |turns|
    ensures ServeSteps(turns[..m + 1]) == ServeSteps(turns[..m]) + Steps(m, turns[m].at, 6)
  {
    assert turns[..m + 1][..m] == turns[..m];
  }

  lemma {:induction false} PrefixIsServed(c: Config, t0: Tables, turns: seq<Turn>, n: nat)
    requires |c.ops| == |turns| && (forall i :: 0 <= i < |turns| ==> c.ops[i] == turns[i].op) && n <= |turns|
    ensures ServedUpTo(c, t0, Run(c, t0, ServeSteps(turns[..n])), turns, n)
  {
    if n > 0 {
      var m := n - 1;
      var sched := ServeSteps(turns[..m]);
      PrefixIsServed(c, t0, turns, m);
      ServedAloneIsAtomic(c, t0, sched, m, turns[m].at, 6);
      ServeStepsSnoc(turns, m);
      OneMoreServed(c, t0, Run(c, t0, sched), Run(c, t0, sched + Steps(m, turns[m].at, 6)), turns, m);
    }
  }

  lemma OneMoreServed(c: Config, t0: Tables, w: World, w': World, turns: seq<Turn>, m: nat)
    requires |c.ops| == |turns| && m < |turns| && c.ops[m] == turns[m].op
    requires ServedUpTo(c, t0, w, turns, m) && Served(c, w, w', m, turns[m].at)
    ensures ServedUpTo(c, t0, w', turns, m + 1)
  {
    var p := turns[..m + 1];
    assert p[..m] == turns[..m] && p[m] == turns[m];
  }

  /** Requests served one after another, by the service as it runs, are the
      composition of their atomic actions: in the tables, in every response and in
      the log. */
  lemma SerialRunIsComposition(c: Config, t0: Tables, turns: seq<Turn>)
    requires |c.ops| == |turns| && forall i :: 0 <= i < |turns| ==> c.ops[i] == turns[i].op
    ensures var w := Run(c, t0, ServeSteps(turns));
            && |w.pcs| == |turns|
            && w.t == Serve(t0, c.ttl, turns)
            && w.audit == LogOf(t0, c.ttl, turns)
            && forall i: nat :: i < |turns| ==> w.pcs[i] == Done(AnswerOf(t0, c.ttl, turns, i).outcome)
  {
    PrefixIsServed(c, t0, turns, |turns|);
    assert turns[..|turns|] == turns;
  }

  // ---------- Serial creations under one key are spaced by its lifetime ----------

  /** The clocks of the creations under `k`. */
  function CreationTimes(t0: Tables, ttl: Time, turns: seq<Turn>, k: string): seq<Time>
  {
    if turns == [] then []
    else
      var p, last := turns[..|turns| - 1], turns[|turns| - 1];
      CreationTimes(t0, ttl, p, k) +
      if UsesKey(last.op, k) && Atomic(Serve(t0, ttl, p), last.op, ttl, last.at).answer.outcome.Created?
      then [last.op.stamp.now] else []
  }

  /** Requests served later on a key have later clocks. */
  ghost predicate ClockAdvances(turns: seq<Turn>, k: string)
  {
    forall i, j :: 0 <= i < j < |turns| && UsesKey(turns[i].op, k) && UsesKey(turns[j].op, k)
      ==> turns[i].op.stamp.now <= turns[j].op.stamp.now
  }

  ghost predicate Spaced(ts: seq<Time>, ttl: Time)
  {
    forall i :: 0 <= i < |ts| - 1 ==> ts[i + 1] >= ts[i] + ttl + 1
  }

  /** Each creation is more than a lifetime after the one before, so `n` of them span
      `n - 1` lifetimes. */
  ghost predicate SpansLifetimes(ts: seq<Time>, ttl: Time)
  {
    Spaced(ts, ttl) && (ts != [] ==> (|ts| - 1) * (ttl + 1) <= ts[|ts| - 1] - ts[0])
  }

  /** Either the last creation still holds the key, or its lifetime is over. */
  ghost predicate LastCreation(t0: Tables, ttl: Time, turns: seq<Turn>, k: string)
  {
    var ts, t := CreationTimes(t0, ttl, turns, k), Serve(t0, ttl, turns);
    ts != [] ==>
      || (k in t.keys && t.keys[k].expiresAt == ts[|ts| - 1] + ttl)
      || (exists i :: 0 <= i < |turns| && UsesKey(turns[i].op, k) && turns[i].op.stamp.now > ts[|ts| - 1] + ttl)
  }

  lemma {:induction false} SerialSpacing(t0: Tables, ttl: Time, turns: seq<Turn>, k: string)
    requires ClockAdvances(turns, k)
    ensures Spaced(CreationTimes(t0, ttl, turns, k), ttl)
    ensures LastCreation(t0, ttl, turns, k)
  {
    if turns != [] {
      var p, last := turns[..|turns| - 1], turns[|turns| - 1];
      assert forall i :: 0 <= i < |p| ==> p[i] == turns[i];
      SerialSpacing(t0, ttl, p, k);
      var ts, t := CreationTimes(t0, ttl, p, k), Serve(t0, ttl, p);
      KeyAfter(t, last.op, ttl, last.at, k);
    }
  }

  /** A creation takes a key that is free or expired; nothing else touches the row
      of a key, but for a refused creation that found it expired. */
  lemma KeyAfter(t: Tables, op: Op, ttl: Time, at: Time, k: string)
    ensures var e := Atomic(t, op, ttl, at);
            if UsesKey(op, k) && e.answer.outcome.Created? then
              && k in e.t.keys && e.t.keys[k].expiresAt == op.stamp.now + ttl
              && (k in t.keys ==> Expired(t.keys[k], op.stamp.now))
            else
              || FindKey(e.t, k) == FindKey(t, k)
              || (UsesKey(op, k) && k in t.keys && Expired(t.keys[k], op.stamp.now))
  {
  }

  lemma {:induction false} SpacingAddsUp(ts: seq<Time>, ttl: Time)
    requires Spaced(ts, ttl) && ts != []
    ensures (|ts| - 1) * (ttl + 1) <= ts[|ts| - 1] - ts[0]
  {
    if |ts| > 1 {
      SpacingAddsUp(ts[..|ts| - 1], ttl);
      var n := |ts| - 2;
      assert (n + 1) * (ttl + 1) == n * (ttl + 1) + (ttl + 1);
    }
  }

  /** The clocks of the requests under `k` that were answered with a creation. */
  function CreatedClocks(ops: seq<Op>, pcs: seq<Pc>, k: string): seq<Time>
    requires |ops| == |pcs|
  {
    if ops == [] then []
    else
      var n := |ops| - 1;
      CreatedClocks(ops[..n], pcs[..n], k) +
      if UsesKey(ops[n], k) && pcs[n].Done? && pcs[n].outcome.Created? then [ops[n].stamp.now] else []
  }

  lemma {:induction false} ResponsesTellCreations(t0: Tables, ttl: Time, turns: seq<Turn>, ops: seq<Op>, pcs: seq<Pc>,
                                                  k: string)
    requires |turns| == |ops| == |pcs| && forall i :: 0 <= i < |turns| ==> ops[i] == turns[i].op
    requires forall i: nat :: i < |turns| ==> pcs[i] == Done(AnswerOf(t0, ttl, turns, i).outcome)
    ensures CreatedClocks(ops, pcs, k) == CreationTimes(t0, ttl, turns, k)
  {
    if turns != [] {
      var n := |turns| - 1;
      forall i: nat | i < n ensures pcs[..n][i] == Done(AnswerOf(t0, ttl, turns[..n], i).outcome) {
        assert turns[..n][..i] == turns[..i] && pcs[i] == Done(AnswerOf(t0, ttl, turns, i).outcome);
      }
      ResponsesTellCreations(t0, ttl, turns[..n], ops[..n], pcs[..n], k);
      assert pcs[n] == Done(AnswerOf(t0, ttl, turns, n).outcome);
    }
  }

  lemma SerialTimesSpan(t0: Tables, ttl: Time, turns: seq<Turn>, k: string)
    requires ClockAdvances(turns, k)
    ensures SpansLifetimes(CreationTimes(t0, ttl, turns, k), ttl)
  {
    SerialSpacing(t0, ttl, turns, k);
    if CreationTimes(t0, ttl, turns, k) != [] {
      SpacingAddsUp(CreationTimes(t0, ttl, turns, k), ttl);
    }
  }

  lemma CreatedClocksSpan(t0: Tables, ttl: Time, turns: seq<Turn>, ops: seq<Op>, pcs: seq<Pc>, k: string)
    requires |turns| == |ops| == |pcs| && forall i :: 0 <= i < |turns| ==> ops[i] == turns[i].op
    requires forall i: nat :: i < |turns| ==> pcs[i] == Done(AnswerOf(t0, ttl, turns, i).outcome)
    requires ClockAdvances(turns, k)
    ensures SpansLifetimes(CreatedClocks(ops, pcs, k), ttl)
  {
    ResponsesTellCreations(t0, ttl, turns, ops, pcs, k);
    SerialTimesSpan(t0, ttl, turns, k);
  }

  /** Served one after another under an advancing clock, `n` creations under one key
      span at least `n - 1` lifetimes, in runs of any length from any tables. */
  lemma CreationsSpanLifetimes(c: Config, t0: Tables, turns: seq<Turn>, k: string)
    requires |c.ops| == |turns| && forall i :: 0 <= i < |turns| ==> c.ops[i] == turns[i].op
    requires ClockAdvances(turns, k)
    ensures var w := Run(c, t0, ServeSteps(turns));
            |w.pcs| == |c.ops| && SpansLifetimes(CreatedClocks(c.ops, w.pcs, k), c.ttl)
  {
    SerialRunIsComposition(c, t0, turns);
    CreatedClocksSpan(t0, c.ttl, turns, c.ops, Run(c, t0, ServeSteps(turns)).pcs, k);
  }
}
