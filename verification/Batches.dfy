/** Batch creation: every item on its own, one result per item. */
module Batches {
  import opened Entities
  import opened Store
  import opened AtomicSpec

  datatype BatchError = InvalidItem | NotStored

  datatype BatchItemResult = BatchItemResult(
    index: nat,
    success: bool,
    data: Option<Disbursement>,
    error: Option<BatchError>)

  /** An item with the id and the clock it draws. */
  datatype BatchItem = BatchItem(req: CreateRequest, stamp: Stamp)

  /** The validation rules of one item. */
  predicate ValidItem(req: CreateRequest)
  {
    req.recipientName != "" && req.accountNumber != "" && req.bankCode != "" && req.amount >= MIN_AMOUNT
  }

  datatype BatchRun = BatchRun(t: Tables, results: seq<BatchItemResult>, log: seq<AuditEntry>)

  function Failed(index: nat, error: BatchError): BatchItemResult
  {
    BatchItemResult(index, false, None, Some(error))
  }

  datatype ItemDone = ItemDone(t: Tables, result: BatchItemResult, entries: seq<AuditEntry>)

  /** One item: validated, then created by the unkeyed single create. */
  function DoItem(t: Tables, item: BatchItem, index: nat): ItemDone
  {
    if !ValidItem(item.req) then ItemDone(t, Failed(index, InvalidItem), [])
    else
      var op := PlainCreate(item.req, item.stamp);
      var e := Atomic(t, op, 0, item.stamp.now);
      ItemDone(e.t,
               match e.answer.outcome
               case Created(d) => BatchItemResult(index, true, Some(d), None)
               case _ => Failed(index, NotStored),
               EntriesFor(op, e.answer))
  }

  function ItemRun(r: BatchRun, item: BatchItem, index: nat): BatchRun
  {
    var done := DoItem(r.t, item, index);
    BatchRun(done.t, r.results + [done.result], r.log + done.entries)
  }

  /** The items in order; `first` is the index of the first one. */
  function RunBatch(t: Tables, items: seq<BatchItem>, first: nat): BatchRun
  {
    if items == [] then BatchRun(t, [], [])
    else ItemRun(RunBatch(t, items[..|items| - 1], first), items[|items| - 1], first + |items| - 1)
  }

  function Shifted(results: seq<BatchItemResult>, offset: nat): seq<BatchItemResult>
  {
    seq(|results|, i requires 0 <= i < |results| => results[i].(index := results[i].index + offset))
  }

  lemma {:induction false} BatchShift(t: Tables, items: seq<BatchItem>, first: nat, offset: nat)
    ensures RunBatch(t, items, first + offset).t == RunBatch(t, items, first).t
    ensures RunBatch(t, items, first + offset).log == RunBatch(t, items, first).log
    ensures RunBatch(t, items, first + offset).results == Shifted(RunBatch(t, items, first).results, offset)
  {
    if items != [] {
      BatchShift(t, items[..|items| - 1], first, offset);
    }
  }

  lemma ItemShift(t: Tables, item: BatchItem, index: nat, offset: nat)
    ensures var x, y := DoItem(t, item, index), DoItem(t, item, index + offset);
            y == x.(result := x.result.(index := x.result.index + offset))
  {
  }

  /** `whole` is run `a` followed by run `b`, whose indices start over. */
  ghost predicate Follows(whole: BatchRun, a: BatchRun, b: BatchRun, offset: nat)
  {
    && whole.t == b.t
    && whole.results == a.results + Shifted(b.results, offset)
    && whole.log == a.log + b.log
  }

  lemma ItemFollows(whole: BatchRun, a: BatchRun, b: BatchRun, offset: nat, item: BatchItem, index: nat)
    requires Follows(whole, a, b, offset)
    ensures Follows(ItemRun(whole, item, index + offset), a, ItemRun(b, item, index), offset)
  {
    ItemShift(b.t, item, index, offset);
    var x := DoItem(b.t, item, index).result;
    assert Shifted(b.results + [x], offset) == Shifted(b.results, offset) + [x.(index := x.index + offset)];
  }

  /** A batch of `xs` followed by `ys` is the batch `xs` and then the batch `ys` on
      the tables it left, with the later indices shifted. */
  lemma {:induction false} BatchAppends(t: Tables, xs: seq<BatchItem>, ys: seq<BatchItem>)
    ensures Follows(RunBatch(t, xs + ys, 0), RunBatch(t, xs, 0), RunBatch(RunBatch(t, xs, 0).t, ys, 0), |xs|)
  {
    var a := RunBatch(t, xs, 0);
    if ys == [] {
      assert xs + ys == xs;
    } else {
      var front, last := ys[..|ys| - 1], ys[|ys| - 1];
      assert (xs + ys)[..|xs + ys| - 1] == xs + front;
      BatchAppends(t, xs, front);
      ItemFollows(RunBatch(t, xs + front, 0), a, RunBatch(a.t, front, 0), |xs|, last, |front|);
    }
  }

  lemma {:induction false} BatchLength(t: Tables, items: seq<BatchItem>, first: nat)
    ensures |RunBatch(t, items, first).results| == |items|
  {
    if items != [] {
      BatchLength(t, items[..|items| - 1], first);
    }
  }

  /** Item `i` succeeds iff it is valid, fits its columns, and its id is free: not in
      the table before the batch, and not taken by an earlier item that succeeded. */
  ghost predicate ItemOk(t: Tables, items: seq<BatchItem>, results: seq<BatchItemResult>, i: nat)
    requires i < |items| == |results|
  {
    var req, stamp, result := items[i].req, items[i].stamp, results[i];
    var valid := req.recipientName != "" && req.accountNumber != "" && req.bankCode != "" && req.amount >= 10_000;
    && result.index == i
    && (result.success <==>
          && valid
          && |req.recipientName| <= 255 && |req.accountNumber| <= 50 && |req.bankCode| <= 20 && |req.note| <= 500
          && stamp.id !in t.rows
          && (forall j :: 0 <= j < i && results[j].success ==> items[j].stamp.id != stamp.id))
    && (if result.success then
          && result.error == None
          && result.data == Some(Disbursement(stamp.id, req.recipientName, req.accountNumber, req.bankCode, req.amount,
                                              if req.amount >= 5_000_000 then 5000 else 2500, req.note, Pending,
                                              stamp.actor, None, stamp.now, stamp.now))
        else
          result.data == None && result.error == Some(if valid then NotStored else InvalidItem))
  }

  ghost predicate ItemsOk(t: Tables, items: seq<BatchItem>, results: seq<BatchItemResult>)
    requires |items| == |results|
  {
    forall i :: 0 <= i < |items| ==> ItemOk(t, items, results, i)
  }

  /** The ids of the items that succeeded. */
  function Successes(items: seq<BatchItem>, results: seq<BatchItemResult>): set<Id>
    requires |items| == |results|
  {
    set i | 0 <= i < |items| && results[i].success :: items[i].stamp.id
  }

  function Succeeded(results: seq<BatchItemResult>): nat
  {
    if results == [] then 0
    else Succeeded(results[..|results| - 1]) + if results[|results| - 1].success then 1 else 0
  }

  /** The whole account of a batch. */
  ghost predicate BatchOk(t: Tables, items: seq<BatchItem>, r: BatchRun)
  {
    && |r.results| == |items|
    && ItemsOk(t, items, r.results)
    && r.t.keys == t.keys
    && RowsOk(t, items, r)
    && |r.log| == Succeeded(r.results)
    && EntriesOk(items, r)
  }

  /** Each success has its entry, under its own id and in its caller's name. */
  ghost predicate EntriesOk(items: seq<BatchItem>, r: BatchRun)
    requires |r.results| == |items|
  {
    forall i :: 0 <= i < |items| && r.results[i].success ==>
      && r.results[i].data.Some?
      && AuditEntry(items[i].stamp.id, items[i].stamp.actor, CreatedAs(r.results[i].data.value)) in r.log
  }

  /** The ids in the table are the ids before the batch and those of its successes. */
  lemma IdTaken(t: Tables, items: seq<BatchItem>, r: BatchRun, id: Id)
    requires BatchOk(t, items, r)
    ensures id in r.t.rows <==>
            id in t.rows || exists j :: 0 <= j < |items| && r.results[j].success && items[j].stamp.id == id
  {
    assert id in r.t.rows <==> id in r.t.rows.Keys;
  }

  lemma ItemEffect(t: Tables, item: BatchItem, index: nat)
    ensures var x := DoItem(t, item, index);
            var ok := ValidItem(item.req) && TextFits(Draft(item.req, item.stamp)) && item.stamp.id !in t.rows;
            && x.result.success == ok && x.result.index == index
            && x.t.keys == t.keys
            && x.t.rows == (if ok then t.rows[item.stamp.id := Row(Draft(item.req, item.stamp), None)] else t.rows)
            && |x.entries| == (if ok then 1 else 0)
            && x.result.data == (if ok then Some(Draft(item.req, item.stamp)) else None)
            && x.result.error == (if ok then None else Some(if ValidItem(item.req) then NotStored else InvalidItem))
  {
  }

  lemma EarlierItemsOk(t: Tables, items: seq<BatchItem>, results: seq<BatchItemResult>,
                       item: BatchItem, result: BatchItemResult)
    requires |items| == |results|
    requires ItemsOk(t, items, results)
    ensures forall i :: 0 <= i < |items| ==> ItemOk(t, items + [item], results + [result], i)
  {
    var items', results' := items + [item], results + [result];
    assert forall j :: 0 <= j < |items| ==> items'[j] == items[j] && results'[j] == results[j];
    forall i | 0 <= i < |items| ensures ItemOk(t, items', results', i) {
      assert ItemOk(t, items, results, i);
    }
  }

  lemma SuccessesGrow(items: seq<BatchItem>, results: seq<BatchItemResult>, item: BatchItem, result: BatchItemResult)
    requires |items| == |results|
    ensures Successes(items + [item], results + [result])
         == Successes(items, results) + (if result.success then {item.stamp.id} else {})
    ensures Succeeded(results + [result]) == Succeeded(results) + if result.success then 1 else 0
  {
    var items', results' := items + [item], results + [result];
    assert results'[..|results|] == results;
    forall id ensures id in Successes(items', results')
                      <==> id in Successes(items, results) || (result.success && id == item.stamp.id) {
      if id in Successes(items, results) {
        var i :| 0 <= i < |items| && results[i].success && items[i].stamp.id == id;
        assert results'[i].success && items'[i].stamp.id == id;
      }
      if result.success {
        assert results'[|items|].success && items'[|items|] == item;
      }
    }
  }

  ghost predicate RowsOk(t: Tables, items: seq<BatchItem>, r: BatchRun)
    requires |r.results| == |items|
  {
    && r.t.rows.Keys == t.rows.Keys + Successes(items, r.results)
    && (forall id :: id in t.rows ==> id in r.t.rows && r.t.rows[id] == t.rows[id])
    && (forall i :: 0 <= i < |items| && r.results[i].success ==>
          && items[i].stamp.id in r.t.rows
          && r.t.rows[items[i].stamp.id] == Row(Draft(items[i].req, items[i].stamp), None))
    && |r.t.rows| == |t.rows| + Succeeded(r.results)
  }

  lemma StoredRow(rows: map<Id, Row>, rows': map<Id, Row>, id: Id, row: Row)
    requires id !in rows && rows' == rows[id := row]
    ensures rows'.Keys == rows.Keys + {id} && |rows'| == |rows| + 1
    ensures forall i :: i in rows ==> rows'[i] == rows[i]
  {
    assert rows'.Keys == rows.Keys + {id};
    assert |rows'.Keys| == |rows.Keys| + 1;
  }

  lemma ItemKeepsRowsOk(t: Tables, items: seq<BatchItem>, r: BatchRun, item: BatchItem)
    requires |items| == |r.results| && RowsOk(t, items, r)
    ensures RowsOk(t, items + [item], ItemRun(r, item, |items|))
  {
    var x := DoItem(r.t, item, |items|);
    ItemEffect(r.t, item, |items|);
    if x.result.success {
      SuccessKeepsRowsOk(t, items, r, item, x);
    } else {
      FailureKeepsRowsOk(t, items, r, item, x);
    }
  }

  lemma SuccessKeepsRowsOk(t: Tables, items: seq<BatchItem>, r: BatchRun, item: BatchItem, x: ItemDone)
    requires |items| == |r.results| && RowsOk(t, items, r) && x.result.success && item.stamp.id !in r.t.rows
    requires x.t.rows == r.t.rows[item.stamp.id := Row(Draft(item.req, item.stamp), None)]
    ensures RowsOk(t, items + [item], BatchRun(x.t, r.results + [x.result], r.log + x.entries))
  {
    SuccessesGrow(items, r.results, item, x.result);
    StoredRow(r.t.rows, x.t.rows, item.stamp.id, Row(Draft(item.req, item.stamp), None));
    UnionGrows(t.rows.Keys, Successes(items, r.results), item.stamp.id);
    SuccessesStored(items, r, item, x, x.t.rows);
  }

  lemma UnionGrows(a: set<Id>, b: set<Id>, id: Id)
    ensures a + (b + {id}) == (a + b) + {id}
  {
  }

  lemma FailureKeepsRowsOk(t: Tables, items: seq<BatchItem>, r: BatchRun, item: BatchItem, x: ItemDone)
    requires |items| == |r.results| && RowsOk(t, items, r) && !x.result.success
    requires x.t.rows == r.t.rows
    ensures RowsOk(t, items + [item], BatchRun(x.t, r.results + [x.result], r.log + x.entries))
  {
    SuccessesGrow(items, r.results, item, x.result);
    SuccessesStored(items, r, item, x, x.t.rows);
  }

  lemma SuccessesStored(items: seq<BatchItem>, r: BatchRun, item: BatchItem, x: ItemDone, rows: map<Id, Row>)
    requires |items| == |r.results|
    requires forall i :: 0 <= i < |items| && r.results[i].success ==>
               && items[i].stamp.id in r.t.rows
               && r.t.rows[items[i].stamp.id] == Row(Draft(items[i].req, items[i].stamp), None)
    requires forall id :: id in r.t.rows ==> id in rows && rows[id] == r.t.rows[id]
    requires x.result.success ==> item.stamp.id in rows && rows[item.stamp.id] == Row(Draft(item.req, item.stamp), None)
    ensures var items', results' := items + [item], r.results + [x.result];
            forall i :: 0 <= i < |items'| && results'[i].success ==>
              items'[i].stamp.id in rows && rows[items'[i].stamp.id] == Row(Draft(items'[i].req, items'[i].stamp), None)
  {
    var items', results' := items + [item], r.results + [x.result];
    assert forall i :: 0 <= i < |items| ==> items'[i] == items[i] && results'[i] == r.results[i];
  }

  lemma ItemKeepsEntriesOk(items: seq<BatchItem>, r: BatchRun, item: BatchItem)
    requires |r.results| == |items| && EntriesOk(items, r)
    ensures EntriesOk(items + [item], ItemRun(r, item, |items|))
  {
    var r' := ItemRun(r, item, |items|);
    forall i | 0 <= i < |items + [item]| && r'.results[i].success
      ensures && r'.results[i].data.Some?
              && AuditEntry((items + [item])[i].stamp.id, (items + [item])[i].stamp.actor,
                            CreatedAs(r'.results[i].data.value)) in r'.log
    {
      if i < |items| {
        assert r'.results[i] == r.results[i] && r.results[i].data.Some?;
      } else {
        assert r'.results[i] == DoItem(r.t, item, |items|).result;
        assert DoItem(r.t, item, |items|).entries == [AuditEntry(item.stamp.id, item.stamp.actor,
                                                                 CreatedAs(r'.results[i].data.value))];
      }
    }
  }

  lemma ItemKeepsBatchOk(t: Tables, items: seq<BatchItem>, r: BatchRun, item: BatchItem)
    requires BatchOk(t, items, r)
    ensures BatchOk(t, items + [item], ItemRun(r, item, |items|))
  {
    var x := DoItem(r.t, item, |items|);
    var items', results' := items + [item], r.results + [x.result];
    ItemEffect(r.t, item, |items|);
    EarlierItemsOk(t, items, r.results, item, x.result);
    NewItemOk(t, items, r, item);
    assert ItemsOk(t, items', results');
    ItemKeepsRowsOk(t, items, r, item);
    ItemKeepsEntriesOk(items, r, item);
    assert Succeeded(results') == Succeeded(r.results) + (if x.result.success then 1 else 0) by {
      SuccessesGrow(items, r.results, item, x.result);
    }
  }

  lemma NewItemOk(t: Tables, items: seq<BatchItem>, r: BatchRun, item: BatchItem)
    requires BatchOk(t, items, r)
    ensures ItemOk(t, items + [item], r.results + [DoItem(r.t, item, |items|).result], |items|)
  {
    var x := DoItem(r.t, item, |items|);
    var items', results' := items + [item], r.results + [x.result];
    ItemEffect(r.t, item, |items|);
    IdTaken(t, items, r, item.stamp.id);
    assert forall j :: 0 <= j < |items| ==> items'[j] == items[j] && results'[j] == r.results[j];
  }

  lemma BatchGrows(t: Tables, front: seq<BatchItem>, last: BatchItem, items: seq<BatchItem>, r: BatchRun, r': BatchRun)
    requires BatchOk(t, front, r) && items == front + [last] && r' == ItemRun(r, last, |front|)
    ensures BatchOk(t, items, r')
  {
    ItemKeepsBatchOk(t, front, r, last);
  }

  lemma EmptyBatchOk(t: Tables)
    ensures BatchOk(t, [], BatchRun(t, [], []))
  {
    assert Successes([], []) == {};
  }

  lemma RunBatchSnoc(t: Tables, front: seq<BatchItem>, last: BatchItem)
    ensures RunBatch(t, front + [last], 0) == ItemRun(RunBatch(t, front, 0), last, |front|)
  {
    assert (front + [last])[..|front + [last]| - 1] == front;
  }

  /** Partial success: every item stands or falls by itself; the table grows by the
      successes alone, under distinct ids, with one audit entry each. */
  lemma {:induction false} BatchIsPartial(t: Tables, items: seq<BatchItem>)
    ensures BatchOk(t, items, RunBatch(t, items, 0))
  {
    if items == [] {
      EmptyBatchOk(t);
    } else {
      var front, last := items[..|items| - 1], items[|items| - 1];
      assert items == front + [last];
      BatchIsPartial(t, front);
      RunBatchSnoc(t, front, last);
      BatchGrows(t, front, last, items, RunBatch(t, front, 0), RunBatch(t, items, 0));
    }
  }

  lemma SucceededBounds(results: seq<BatchItemResult>)
    ensures Succeeded(results) <= |results|
    ensures Succeeded(results) == 0 <==> forall i :: 0 <= i < |results| ==> !results[i].success
    ensures Succeeded(results) == |results| <==> forall i :: 0 <= i < |results| ==> results[i].success
  {
    if results != [] {
      var p := results[..|results| - 1];
      SucceededBounds(p);
      assert forall i :: 0 <= i < |p| ==> p[i] == results[i];
    }
  }

  /** The handler's response code: 201 when all succeeded, 400 when none did, 207
      otherwise. */
  method ResponseCode(results: seq<BatchItemResult>) returns (code: int)
    ensures code in {201, 207, 400}
    ensures code == 400 <==> forall i :: 0 <= i < |results| ==> !results[i].success
    ensures code == 201 <==> results != [] && forall i :: 0 <= i < |results| ==> results[i].success
  {
    var succeeded := 0;
    for i := 0 to |results|
      invariant succeeded == Succeeded(results[..i])
    {
      assert results[..i + 1][..i] == results[..i];
      if results[i].success {
        succeeded := succeeded + 1;
      }
    }
    assert results[..|results|] == results;
    SucceededBounds(results);
    code := 201;
    if succeeded == 0 {
      code := 400;
    } else if succeeded < |results| {
      code := 207;
    }
  }
}
