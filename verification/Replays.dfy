/** What a replayed response is a replay of. */
module Replays {
  import opened Entities
  import opened Store
  import opened AtomicSpec
  import opened Protocol
  import opened Linearization
  import opened Idempotency
  import opened Schedules
  import opened KeyRows

  /** `r` replays the creation of `q`: same user, same hash, in the window of `q`. */
  ghost predicate ReplaysCreation(c: Config, h: seq<Event>, k: string, r: nat, q: nat, d: Disbursement)
    requires OnKey(c, r, k)
  {
    && OnKey(c, q, k) && q in Answers(h) && Answers(h)[q].outcome == Created(DraftOf(c, q))
    && d == DraftOf(c, q)
    && c.ops[r].userId == c.ops[q].userId && c.ops[r].digest == c.ops[q].digest
    && c.ops[r].stamp.now <= ExpiryOf(c, q)
  }

  /** `r` replays the body of the row that the key starts with. */
  ghost predicate ReplaysFirstRow(c: Config, t0: Tables, k: string, r: nat, d: Disbursement)
    requires OnKey(c, r, k)
  {
    && k in t0.keys && d == t0.keys[k].body
    && c.ops[r].userId == t0.keys[k].userId && c.ops[r].digest == t0.keys[k].digest
    && !Expired(t0.keys[k], c.ops[r].stamp.now)
  }

  lemma ReplayHasAuthor(c: Config, t0: Tables, h: seq<Event>, r: nat, k: string) returns (q: nat)
    requires Legal(c, t0, h) && OnKey(c, r, k)
    requires r in Answers(h) && Answers(h)[r].outcome.Replayed?
    ensures var d := Answers(h)[r].outcome.d; ReplaysCreation(c, h, k, r, q, d) || ReplaysFirstRow(c, t0, k, r, d)
  {
    var i := AnswerHasPoint(c, t0, h, r);
    q := KeyRowOrigin(c, t0, h[..i], k);
    if q in Answers(h[..i]) {
      AnswersPersist(c, t0, h, i, q);
    }
  }

  /** The hash tells request bodies apart. */
  ghost predicate DigestsDiffer(c: Config)
  {
    forall i: nat, j: nat ::
      i < |c.ops| && j < |c.ops| && c.ops[i].KeyedCreate? && c.ops[j].KeyedCreate? && c.ops[i].digest == c.ops[j].digest
      ==> c.ops[i].req == c.ops[j].req
  }

  /** Where the hash tells request bodies apart, a replayed response is the creation
      of an earlier request of the same user with the very same body, whose expiry
      the replaying clock has not passed; or it is the body of the row that the key
      starts with, of the same user and hash and not expired. */
  lemma ReplayAnswersTheRequest(c: Config, t0: Tables, sched: seq<Step>, r: nat, k: string) returns (q: nat)
    requires OnKey(c, r, k) && DigestsDiffer(c)
    requires var w := Run(c, t0, sched); |w.pcs| == |c.ops| && w.pcs[r].Done? && w.pcs[r].outcome.Replayed?
    ensures var w := Run(c, t0, sched);
            var d, req := w.pcs[r].outcome.d, c.ops[r].req;
            || ReplaysFirstRow(c, t0, k, r, d)
            || (&& ReplaysCreation(c, w.history, k, r, q, d)
                && c.ops[q].req == req
                && d.id == c.ops[q].stamp.id && d.createdBy == c.ops[q].stamp.actor && d.createdAt == c.ops[q].stamp.now
                && d.recipientName == req.recipientName && d.accountNumber == req.accountNumber
                && d.bankCode == req.bankCode && d.amount == req.amount && d.note == req.note
                && d.status == Pending && d.approvedBy == None
                && d.adminFee == (if req.amount >= 5_000_000 then 5000 else 2500))
  {
    RunKeepsInv(c, t0, sched);
    q := ReplayHasAuthor(c, t0, Run(c, t0, sched).history, r, k);
  }
}
