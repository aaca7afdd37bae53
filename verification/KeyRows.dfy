/** Where the row of a key comes from: it is there from the start, or it is the row
    of a request that created under the key. */
module KeyRows {
  import opened Entities
  import opened Store
  import opened AtomicSpec
  import opened Protocol
  import opened Linearization
  import opened Idempotency
  import opened Schedules

  /** Request `r` is a create under `k` that fits the table. */
  predicate Stores(c: Config, r: nat, k: string)
  {
    OnKey(c, r, k) && Storable(DraftOf(c, r))
  }

  /** Requests on `k` carry new, distinct ids. */
  ghost predicate NewIds(c: Config, t0: Tables, k: string)
  {
    && (forall r: nat :: OnKey(c, r, k) ==> DraftOf(c, r).id !in t0.rows)
    && (forall q: nat, r: nat :: OnKey(c, q, k) && OnKey(c, r, k) && q != r ==> DraftOf(c, q).id != DraftOf(c, r).id)
  }

  /** On `k`, the clock of `s` is past the expiry that another request, `q`, would set. */
  predicate Past(c: Config, k: string, s: nat, q: nat)
  {
    OnKey(c, s, k) && OnKey(c, q, k) && s != q && c.ops[s].stamp.now > ExpiryOf(c, q)
  }

  /** `row` is the key row that request `q` committed. */
  ghost predicate Authored(c: Config, h: seq<Event>, k: string, row: KeyRow, q: nat)
  {
    && Stores(c, q, k) && q in Answers(h) && Answers(h)[q].outcome == Created(DraftOf(c, q))
    && row == KeyRowFor(c.ops[q], c.ttl)
  }

  /** The row of a key is its first row, with no delete so far, or has an author. */
  lemma {:induction false} KeyRowOrigin(c: Config, t0: Tables, h: seq<Event>, k: string) returns (q: nat)
    requires Legal(c, t0, h) && k in Play(c, t0, h).keys
    ensures || Authored(c, h, k, Play(c, t0, h).keys[k], q)
            || (k in t0.keys && Play(c, t0, h).keys[k] == t0.keys[k] && NoSweeps(c, h, k))
  {
    if h == [] {
      q := 0;
    } else {
      var p, e := h[..|h| - 1], h[|h| - 1];
      PointMovesKey(Play(c, t0, p), c.ops[e.rid], c.ttl, e.at, e.rid in Answers(p), e.rid in Saws(p), e.note, k);
      if IsCommit(c, e, k) {
        q := e.rid;
      } else {
        q := KeyRowOrigin(c, t0, p, k);
        assert forall i :: 0 <= i < |p| ==> p[i] == h[i];
      }
    }
  }

  /** On a key that starts free every row has an author. */
  lemma KeyRowHasAuthor(c: Config, t0: Tables, h: seq<Event>, k: string) returns (q: nat)
    requires Legal(c, t0, h) && k !in t0.keys && k in Play(c, t0, h).keys
    ensures Authored(c, h, k, Play(c, t0, h).keys[k], q)
  {
    q := KeyRowOrigin(c, t0, h, k);
  }

  lemma {:induction false} AnswersPersist(c: Config, t0: Tables, h: seq<Event>, i: nat, q: nat)
    requires Legal(c, t0, h) && i <= |h| && q in Answers(h[..i])
    ensures q in Answers(h) && Answers(h)[q] == Answers(h[..i])[q]
  {
    if i == |h| {
      assert h[..i] == h;
    } else {
      assert h[..|h| - 1][..i] == h[..i];
      AnswersPersist(c, t0, h[..|h| - 1], i, q);
    }
  }

  /** The row a sweeper had read expired is the first row, or the row of another
      request, committed before. */
  lemma SweeperReadRow(c: Config, t0: Tables, h: seq<Event>, s: nat, k: string) returns (l: nat, q: nat)
    requires Legal(c, t0, h) && OnKey(c, s, k) && s in Saws(h)
    ensures l < |h| && h[l].rid == s && h[l].note == Saw(Saws(h)[s]) && Expired(Saws(h)[s], c.ops[s].stamp.now)
    ensures || (Authored(c, h[..l], k, Saws(h)[s], q) && q in Answers(h) && q != s)
            || (k in t0.keys && Saws(h)[s] == t0.keys[k] && NoSweeps(c, h[..l], k))
  {
    l := SawHasPoint(c, t0, h, s);
    LegalPrefix(c, t0, h, l);
    q := KeyRowOrigin(c, t0, h[..l], k);
    if Authored(c, h[..l], k, Saws(h)[s], q) {
      AnswersPersist(c, t0, h, l, q);
    }
  }

  /** Whoever creates under a key can be stored. */
  lemma CommitterStores(c: Config, t0: Tables, h: seq<Event>, k: string, i: nat)
    requires Legal(c, t0, h) && i < |h| && IsCommit(c, h[i], k)
    ensures Stores(c, h[i].rid, k)
  {
    LegalPrefix(c, t0, h, i + 1);
    assert h[..i + 1][..i] == h[..i];
  }

  /** Whoever removes a row of a key that started free was past the expiry of some
      other request's row, committed before, and has not been answered. */
  lemma RemoverWasPast(c: Config, t0: Tables, h: seq<Event>, k: string, m: nat) returns (q: nat)
    requires Legal(c, t0, h) && k !in t0.keys && m < |h| && IsRemoval(c, h[m], k)
    ensures Stores(c, q, k) && Past(c, k, h[m].rid, q) && q in Answers(h[..m])
    ensures h[m].rid !in Answers(h[..m])
  {
    LegalPrefix(c, t0, h, m + 1);
    assert h[..m + 1][..m] == h[..m];
    var l;
    l, q := SweeperReadRow(c, t0, h[..m], h[m].rid, k);
  }

  lemma {:induction false} TwoCommitPoints(c: Config, h: seq<Event>, k: string) returns (i: nat, j: nat)
    requires Commits(c, h, k) >= 2
    ensures i < j < |h| && IsCommit(c, h[i], k) && IsCommit(c, h[j], k)
  {
    var p := h[..|h| - 1];
    if Commits(c, p, k) >= 2 {
      i, j := TwoCommitPoints(c, p, k);
    } else {
      i := CommitPoint(c, p, k);
      j := |p|;
    }
  }

  lemma {:induction false} CommitPoint(c: Config, h: seq<Event>, k: string) returns (i: nat)
    requires Commits(c, h, k) >= 1
    ensures i < |h| && IsCommit(c, h[i], k)
  {
    var p := h[..|h| - 1];
    if IsCommit(c, h[|p|], k) {
      i := |p|;
    } else {
      i := CommitPoint(c, p, k);
    }
  }

  // ---------- The clocks of the requests on a key ----------

  /** No request on `k` finds row `x` expired. */
  ghost predicate NoneFindsExpired(c: Config, x: KeyRow, k: string)
  {
    forall r: nat :: OnKey(c, r, k) ==> !Expired(x, c.ops[r].stamp.now)
  }

  /** At most one request on `k` finds row `x` expired. */
  ghost predicate OneFindsExpired(c: Config, x: KeyRow, k: string)
  {
    forall r: nat, s: nat :: OnKey(c, r, k) && OnKey(c, s, k) && r != s
      ==> !Expired(x, c.ops[r].stamp.now) || !Expired(x, c.ops[s].stamp.now)
  }

  /** A row that nobody finds expired stays, and nothing is created beside it. */
  lemma {:induction false} UntouchedKey(c: Config, t0: Tables, h: seq<Event>, k: string)
    requires Legal(c, t0, h) && k in t0.keys && NoneFindsExpired(c, t0.keys[k], k)
    ensures FindKey(Play(c, t0, h), k) == Some(t0.keys[k]) && Commits(c, h, k) == 0
    ensures forall i :: 0 <= i < |h| && OnKey(c, h[i].rid, k) ==> h[i].note.Settle?
  {
    if h != [] {
      var p, e := h[..|h| - 1], h[|h| - 1];
      UntouchedKey(c, t0, p, k);
      PointMovesKey(Play(c, t0, p), c.ops[e.rid], c.ttl, e.at, e.rid in Answers(p), e.rid in Saws(p), e.note, k);
      if OnKey(c, e.rid, k) && e.note.Swept? {
        var l := SawHasPoint(c, t0, p, e.rid);
        assert false;
      }
      assert forall i :: 0 <= i < |p| ==> p[i] == h[i];
    }
  }

  /** So nobody is ever about to delete it. */
  lemma UntouchedSeesNothing(c: Config, t0: Tables, h: seq<Event>, k: string, r: nat)
    requires Legal(c, t0, h) && k in t0.keys && NoneFindsExpired(c, t0.keys[k], k) && OnKey(c, r, k)
    ensures r !in Saws(h)
  {
    UntouchedKey(c, t0, h, k);
    if r in Saws(h) {
      var l := SawHasPoint(c, t0, h, r);
    }
  }

  // ---------- Before the first delete ----------

  lemma {:induction false} UnsweptRow(c: Config, t0: Tables, h: seq<Event>, k: string)
    requires Legal(c, t0, h) && k in t0.keys && NoSweeps(c, h, k)
    ensures FindKey(Play(c, t0, h), k) == Some(t0.keys[k])
  {
    if h != [] {
      var p, e := h[..|h| - 1], h[|h| - 1];
      assert forall i :: 0 <= i < |p| ==> p[i] == h[i];
      UnsweptRow(c, t0, p, k);
      PointMovesKey(Play(c, t0, p), c.ops[e.rid], c.ttl, e.at, e.rid in Answers(p), e.rid in Saws(p), e.note, k);
    }
  }

  /** Whoever is about to make the first delete on a held key is past its first row. */
  lemma FirstSweeperIsPast(c: Config, t0: Tables, h: seq<Event>, k: string, s: nat)
    requires Legal(c, t0, h) && k in t0.keys && NoSweeps(c, h, k) && OnKey(c, s, k) && s in Saws(h)
    ensures Expired(t0.keys[k], c.ops[s].stamp.now)
  {
    var l := SawHasPoint(c, t0, h, s);
    LegalPrefix(c, t0, h, l);
    UnsweptRow(c, t0, h[..l], k);
  }

  lemma SweptForGood(c: Config, h: seq<Event>, rid: nat, at: Time, note: Note, k: string)
    ensures NoSweeps(c, h + Record(rid, at, note), k) <==> NoSweeps(c, h, k) && !(OnKey(c, rid, k) && note.Swept?)
  {
    var h' := h + Record(rid, at, note);
    assert forall i :: 0 <= i < |h| ==> h'[i] == h[i];
    if !note.Silent? {
      assert h'[|h|] == Event(rid, at, note);
    }
  }

  /** In the last round, or past the loop. */
  predicate SecondRound(pc: Pc)
  {
    !pc.Start? && (pc.Inserting? || pc.Finding? || pc.Deleting? ==> pc.round == 1)
  }
}
