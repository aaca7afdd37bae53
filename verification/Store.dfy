/** The tables and the repository calls on them, each call as one function of
    the tables it finds. Every query on disbursements sees undeleted rows only. */
module Store {
  import opened Entities

  datatype Tables = Tables(rows: map<Id, Row>, keys: map<string, KeyRow>)

  const EMPTY_TABLES: Tables := Tables(map[], map[])

  /** The amount check and the widths of the disbursement table. */
  predicate Storable(d: Disbursement)
  {
    d.amount >= MIN_AMOUNT && TextFits(d)
  }

  /** The table takes a row that is storable under an id it does not hold. */
  predicate Insertable(t: Tables, d: Disbursement)
  {
    d.id !in t.rows && Storable(d)
  }

  function InsertRow(t: Tables, d: Disbursement): Tables
  {
    t.(rows := t.rows[d.id := Row(d, None)])
  }

  datatype KeyedInsert = Stored(t: Tables) | KeyTaken | RowRefusal

  /** The transaction of a keyed create: the key row first, then the
      disbursement; a refused second insert rolls the first one back. A key wider
      than its column is refused before it is looked up. */
  function InsertKeyed(t: Tables, idem: KeyRow, d: Disbursement): KeyedInsert
  {
    if |idem.key| > KEY_WIDTH then RowRefusal
    else if idem.key in t.keys then KeyTaken
    else
      var reserved := t.(keys := t.keys[idem.key := idem]);
      if Insertable(reserved, d) then Stored(InsertRow(reserved, d)) else RowRefusal
  }

  function FindLive(t: Tables, id: Id): Option<Disbursement>
  {
    if id in t.rows && t.rows[id].deletedAt.None? then Some(t.rows[id].d) else None
  }

  /** A conditional write: how many rows it changed, or a refusal of the new values. */
  datatype Written = Affected(t: Tables, rows: nat) | WriteRefused

  /** The note is checked against its column only for a row that is written. */
  function CasStatus(t: Tables, id: Id, status: Status, note: string, actor: string, at: Time): Written
  {
    if id in t.rows && LivePending(t.rows[id]) then
      if |note| > NOTE_WIDTH then WriteRefused
      else Affected(t.(rows := t.rows[id := Row(Decide(t.rows[id].d, status, note, actor, at), None)]), 1)
    else
      Affected(t, 0)
  }

  function SoftDelete(t: Tables, id: Id, at: Time): (w: Written)
    ensures w.Affected?
  {
    if id in t.rows && LivePending(t.rows[id]) then
      Affected(t.(rows := t.rows[id := t.rows[id].(deletedAt := Some(at))]), 1)
    else
      Affected(t, 0)
  }

  function FindKey(t: Tables, key: string): Option<KeyRow>
  {
    if key in t.keys then Some(t.keys[key]) else None
  }

  function DeleteKey(t: Tables, key: string): Tables
  {
    t.(keys := t.keys - {key})
  }

  /** How the disbursement table may move: rows never vanish, a row that is no
      longer live and pending never changes, and a live pending one changes only
      by leaving that state with its immutable columns intact. */
  ghost predicate Evolves(t: Tables, t': Tables)
  {
    forall id :: id in t.rows ==>
      && id in t'.rows
      && (|| t'.rows[id] == t.rows[id]
          || (LivePending(t.rows[id]) && !LivePending(t'.rows[id]) && SameOrigin(t.rows[id].d, t'.rows[id].d)))
  }
}
