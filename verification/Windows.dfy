/** One creation per key and window: when it holds of every run, and the schedules
    that break it. */
module Windows {
  import opened Entities
  import opened Store
  import opened AtomicSpec
  import opened Protocol
  import opened Linearization
  import opened Idempotency
  import opened Schedules
  import opened KeyRows
  import opened KeyRaces

  /** A creation under `k` comes only after the window of each earlier one: the clock
      of its request is past the expiry the earlier one set. The row that `k` starts
      with stands for an earlier creation too. */
  ghost predicate WindowsDisjoint(c: Config, t0: Tables, h: seq<Event>, k: string)
  {
    && (forall i, j :: 0 <= i < j < |h| && IsCommit(c, h[i], k) && IsCommit(c, h[j], k)
          ==> c.ops[h[j].rid].stamp.now > ExpiryOf(c, h[i].rid))
    && (k in t0.keys ==>
          forall i :: 0 <= i < |h| && IsCommit(c, h[i], k) ==> Expired(t0.keys[k], c.ops[h[i].rid].stamp.now))
  }

  ghost predicate AlwaysDisjoint(c: Config, t0: Tables, k: string)
  {
    forall sched :: WindowsDisjoint(c, t0, Run(c, t0, sched).history, k)
  }

  // ---------- Schedules in which two creations share a window ----------

  /** Both `a` and `b` read the expired row. `a` deletes it and `t` creates; `b`,
      deleting by key alone, removes the new row and `u` creates. `t` may be `a`, and
      `u` may be either reader. */
  lemma BothCreate(c: Config, t0: Tables, s0: seq<Step>, a: nat, t: nat, b: nat, u: nat, k: string)
    returns (sched: seq<Step>, i: nat, j: nat)
    requires OnKey(c, a, k) && OnKey(c, b, k) && Stores(c, t, k) && Stores(c, u, k) && a != b && t != b && t != u
    requires var w := Run(c, t0, s0);
             && |w.pcs| == |c.ops| && w.pcs[a].Start? && w.pcs[b].Start? && Ready(w.pcs[t]) && Ready(w.pcs[u])
             && k in w.t.keys
             && Expired(w.t.keys[k], c.ops[a].stamp.now) && Expired(w.t.keys[k], c.ops[b].stamp.now)
             && DraftOf(c, t).id !in w.t.rows && DraftOf(c, u).id !in w.t.rows && DraftOf(c, t).id != DraftOf(c, u).id
    ensures var h0, h := Run(c, t0, s0).history, Run(c, t0, sched).history;
            && i < j < |h| && h[i] == CommitBy(c, t) && h[j] == CommitBy(c, u)
            && Commits(c, h, k) == Commits(c, h0, k) + 2
  {
    var s1 := BothSee(c, t0, s0, a, b, k);
    var s2 := StaleSweep(c, t0, s1, a, t, b, k);
    i := |Run(c, t0, s1).history| + 1;
    j := |Run(c, t0, s2).history|;
    sched := Creates(c, t0, s2, u, k);
  }

  /** Two storable requests that find a row expired have a schedule in which both
      create, the second in the window of the first. The clocks may be equal. */
  lemma BothReplace(c: Config, t0: Tables, s0: seq<Step>, a: nat, b: nat, k: string)
    returns (sched: seq<Step>, i: nat, j: nat)
    requires Stores(c, a, k) && Stores(c, b, k) && a != b
    requires var w := Run(c, t0, s0);
             && |w.pcs| == |c.ops| && w.pcs[a].Start? && w.pcs[b].Start? && k in w.t.keys
             && Expired(w.t.keys[k], c.ops[a].stamp.now) && Expired(w.t.keys[k], c.ops[b].stamp.now)
             && DraftOf(c, a).id !in w.t.rows && DraftOf(c, b).id !in w.t.rows && DraftOf(c, a).id != DraftOf(c, b).id
    ensures var h0, h := Run(c, t0, s0).history, Run(c, t0, sched).history;
            && i < j < |h| && IsCommit(c, h[i], k) && IsCommit(c, h[j], k)
            && {h[i].rid, h[j].rid} == {a, b}
            && Commits(c, h, k) == Commits(c, h0, k) + 2
            && (c.ttl >= 0 ==> c.ops[h[j].rid].stamp.now <= ExpiryOf(c, h[i].rid))
  {
    if c.ops[a].stamp.now >= c.ops[b].stamp.now {
      sched, i, j := BothCreate(c, t0, s0, a, a, b, b, k);
    } else {
      sched, i, j := BothCreate(c, t0, s0, b, b, a, a, k);
    }
  }

  /** So for any two storable requests that find the row of a held key expired. */
  lemma StaleDelete(c: Config, t0: Tables, q: nat, r: nat, k: string) returns (sched: seq<Step>, i: nat, j: nat)
    requires k in t0.keys && NewIds(c, t0, k) && Stores(c, q, k) && Stores(c, r, k) && q != r
    requires Expired(t0.keys[k], c.ops[q].stamp.now) && Expired(t0.keys[k], c.ops[r].stamp.now)
    ensures var h := Run(c, t0, sched).history;
            && i < j < |h| && IsCommit(c, h[i], k) && IsCommit(c, h[j], k)
            && {h[i].rid, h[j].rid} == {q, r}
            && Commits(c, h, k) == 2
            && (c.ttl >= 0 ==> c.ops[h[j].rid].stamp.now <= ExpiryOf(c, h[i].rid))
  {
    sched, i, j := BothReplace(c, t0, [], q, r, k);
  }

  lemma SharedWindowRefutes(c: Config, t0: Tables, k: string, sched: seq<Step>, i: nat, j: nat)
    requires var h := Run(c, t0, sched).history;
             && i < j < |h| && IsCommit(c, h[i], k) && IsCommit(c, h[j], k)
             && c.ops[h[j].rid].stamp.now <= ExpiryOf(c, h[i].rid)
    ensures !AlwaysDisjoint(c, t0, k)
  {
    assert !WindowsDisjoint(c, t0, Run(c, t0, sched).history, k);
  }

  // ---------- A key that starts free ----------

  /** If anybody but `r` is past the expiry that a storable `q` would set, then so is
      `r`, and it is the only storable one that is. */
  ghost predicate FreeWindowsKept(c: Config, k: string)
  {
    forall q: nat, r: nat, s: nat :: Stores(c, q, k) && Stores(c, r, k) && q != r && s != r && Past(c, k, s, q)
      ==> Past(c, k, r, q) && !Stores(c, s, k)
  }

  lemma CommitsApart(c: Config, t0: Tables, h: seq<Event>, k: string, i: nat, j: nat)
    requires Legal(c, t0, h) && k !in t0.keys && FreeWindowsKept(c, k)
    requires i < j < |h| && IsCommit(c, h[i], k) && IsCommit(c, h[j], k)
    ensures c.ops[h[j].rid].stamp.now > ExpiryOf(c, h[i].rid)
  {
    var m := RemovedBetween(c, t0, h, k, i, j);
    var q := RemoverWasPast(c, t0, h, k, m);
    PointIsAnswered(h[..m], i);
    CommitterStores(c, t0, h, k, i);
    CommitterStores(c, t0, h, k, j);
    CarriedOutOnce(c, t0, h, i, j);
    AuthorIsEarlier(c, t0, h, m, j, q);
    OnlyOnePast(c, k, q, h[i].rid, h[j].rid, h[m].rid);
  }

  lemma UnansweredBefore(c: Config, t0: Tables, h: seq<Event>, j: nat)
    requires Legal(c, t0, h) && j < |h| && h[j].note.Settle?
    ensures Legal(c, t0, h[..j]) && h[j].rid !in Answers(h[..j])
  {
    LegalPrefix(c, t0, h, j + 1);
    assert h[..j + 1][..j] == h[..j];
  }

  /** A request answered before `m` is not the one carried out at a later point. */
  lemma AuthorIsEarlier(c: Config, t0: Tables, h: seq<Event>, m: nat, j: nat, q: nat)
    requires Legal(c, t0, h) && m <= j < |h| && q in Answers(h[..m]) && h[j].note.Settle?
    ensures q != h[j].rid
  {
    UnansweredBefore(c, t0, h, j);
    assert h[..j][..m] == h[..m];
    AnswersPersist(c, t0, h[..j], m, q);
  }

  /** `s` deletes a row of `q` between the creations by `a` and by `b`. */
  lemma OnlyOnePast(c: Config, k: string, q: nat, a: nat, b: nat, s: nat)
    requires FreeWindowsKept(c, k) && Stores(c, q, k) && Stores(c, a, k) && Stores(c, b, k)
    requires a != b && q != b && a != s && Past(c, k, s, q)
    ensures Past(c, k, b, a)
  {
    if q != a {
      assert false;
    }
  }

  /** Either `r` creates in the window of `q`, whose row `s` deleted; or `r` and `s`
      both read the row of `q` and create in one window of their own. */
  lemma FreeWindowShared(c: Config, t0: Tables, q: nat, r: nat, s: nat, k: string)
    requires k !in t0.keys && NewIds(c, t0, k) && c.ttl >= 0
    requires Stores(c, q, k) && Stores(c, r, k) && q != r && s != r && Past(c, k, s, q)
    requires !(Past(c, k, r, q) && !Stores(c, s, k))
    ensures !AlwaysDisjoint(c, t0, k)
  {
    StartsFree(c, t0, k);
    if Past(c, k, r, q) {
      var s1 := Creates(c, t0, [], q, k);
      var sched, i, j := BothReplace(c, t0, s1, r, s, k);
      SharedWindowRefutes(c, t0, k, sched, i, j);
    } else {
      var sched, i, j := Recreates(c, t0, [], q, s, r, k);
      SharedWindowRefutes(c, t0, k, sched, i, j);
    }
  }

  // ---------- A key that starts with a row ----------

  /** If anybody but a storable `r` is past the first row, then so is `r`, and it is
      the only storable one that is. */
  ghost predicate HeldWindowKept(c: Config, x: KeyRow, k: string)
  {
    forall r: nat, s: nat :: Stores(c, r, k) && OnKey(c, s, k) && s != r && Expired(x, c.ops[s].stamp.now)
      ==> Expired(x, c.ops[r].stamp.now) && !Stores(c, s, k)
  }

  lemma {:induction false} CommitIsCounted(c: Config, h: seq<Event>, k: string, i: nat)
    requires i < |h| && IsCommit(c, h[i], k)
    ensures Commits(c, h, k) > 0
  {
    if i < |h| - 1 {
      CommitIsCounted(c, h[..|h| - 1], k, i);
    }
  }

  lemma HeldCommitIsPast(c: Config, t0: Tables, h: seq<Event>, k: string, i: nat)
    requires Legal(c, t0, h) && k in t0.keys && HeldWindowKept(c, t0.keys[k], k)
    requires i < |h| && IsCommit(c, h[i], k)
    ensures Stores(c, h[i].rid, k) && Expired(t0.keys[k], c.ops[h[i].rid].stamp.now)
  {
    CommitterStores(c, t0, h, k, i);
    CommitIsCounted(c, h, k, i);
    if NoneFindsExpired(c, t0.keys[k], k) {
      UntouchedKey(c, t0, h, k);
      assert false;
    }
  }

  lemma HeldCommitIsOne(c: Config, t0: Tables, h: seq<Event>, k: string, i: nat, j: nat)
    requires Legal(c, t0, h) && k in t0.keys && HeldWindowKept(c, t0.keys[k], k)
    requires i < |h| && IsCommit(c, h[i], k) && j < |h| && IsCommit(c, h[j], k)
    ensures i == j
  {
    HeldCommitIsPast(c, t0, h, k, i);
    HeldCommitIsPast(c, t0, h, k, j);
    if i < j {
      CarriedOutOnce(c, t0, h, i, j);
    } else if j < i {
      CarriedOutOnce(c, t0, h, j, i);
    }
  }

  /** At most one creation, past the first row. */
  lemma HeldCommitsApart(c: Config, t0: Tables, h: seq<Event>, k: string)
    requires Legal(c, t0, h) && k in t0.keys && HeldWindowKept(c, t0.keys[k], k)
    ensures WindowsDisjoint(c, t0, h, k)
  {
    forall i | 0 <= i < |h| && IsCommit(c, h[i], k) ensures Expired(t0.keys[k], c.ops[h[i].rid].stamp.now) {
      HeldCommitIsPast(c, t0, h, k, i);
    }
    forall i, j | 0 <= i < |h| && IsCommit(c, h[i], k) && 0 <= j < |h| && IsCommit(c, h[j], k)
      ensures i == j
    {
      HeldCommitIsOne(c, t0, h, k, i, j);
    }
  }

  /** Either `r` creates in the window of the first row, which `s` deleted; or both
      are past that row and create in one window of their own. */
  lemma HeldWindowShared(c: Config, t0: Tables, r: nat, s: nat, k: string)
    requires k in t0.keys && NewIds(c, t0, k) && c.ttl >= 0
    requires Stores(c, r, k) && OnKey(c, s, k) && s != r && Expired(t0.keys[k], c.ops[s].stamp.now)
    requires !(Expired(t0.keys[k], c.ops[r].stamp.now) && !Stores(c, s, k))
    ensures !AlwaysDisjoint(c, t0, k)
  {
    if Expired(t0.keys[k], c.ops[r].stamp.now) {
      var sched, i, j := StaleDelete(c, t0, r, s, k);
      SharedWindowRefutes(c, t0, k, sched, i, j);
    } else {
      var s0 := FreesKey(c, t0, s, k);
      var sched := Creates(c, t0, s0, r, k);
      var h := Run(c, t0, sched).history;
      assert IsCommit(c, h[|h| - 1], k) && h[|h| - 1].rid == r;
      assert !WindowsDisjoint(c, t0, h, k);
    }
  }

  // ---------- The exact condition ----------

  ghost predicate WindowsKept(c: Config, t0: Tables, k: string)
  {
    if k in t0.keys then HeldWindowKept(c, t0.keys[k], k) else FreeWindowsKept(c, k)
  }

  lemma WindowsKeptSuffices(c: Config, t0: Tables, sched: seq<Step>, k: string)
    requires WindowsKept(c, t0, k)
    ensures WindowsDisjoint(c, t0, Run(c, t0, sched).history, k)
  {
    RunKeepsInv(c, t0, sched);
    var h := Run(c, t0, sched).history;
    if k in t0.keys {
      HeldCommitsApart(c, t0, h, k);
    } else {
      forall i, j | 0 <= i < j < |h| && IsCommit(c, h[i], k) && IsCommit(c, h[j], k)
        ensures c.ops[h[j].rid].stamp.now > ExpiryOf(c, h[i].rid)
      {
        CommitsApart(c, t0, h, k, i, j);
      }
    }
  }

  /** One creation per key and window, the creation of the row that the key starts
      with included: with a lifetime that is not negative it holds under every
      schedule if and only if, for each row that a storable request would set and for
      the row at the start, whenever anybody but a storable request is past it, that
      request is past it too and no other storable one is. */
  lemma OneCreationPerWindowIff(c: Config, t0: Tables, k: string)
    requires NewIds(c, t0, k) && c.ttl >= 0
    ensures AlwaysDisjoint(c, t0, k) <==> WindowsKept(c, t0, k)
  {
    if WindowsKept(c, t0, k) {
      forall sched ensures WindowsDisjoint(c, t0, Run(c, t0, sched).history, k) {
        WindowsKeptSuffices(c, t0, sched, k);
      }
    } else if k in t0.keys {
      var x := t0.keys[k];
      var r: nat, s: nat :| Stores(c, r, k) && OnKey(c, s, k) && s != r && Expired(x, c.ops[s].stamp.now)
        && !(Expired(x, c.ops[r].stamp.now) && !Stores(c, s, k));
      HeldWindowShared(c, t0, r, s, k);
    } else {
      var q: nat, r: nat, s: nat :| Stores(c, q, k) && Stores(c, r, k) && q != r && s != r && Past(c, k, s, q)
        && !(Past(c, k, r, q) && !Stores(c, s, k));
      FreeWindowShared(c, t0, q, r, s, k);
    }
  }
}
