/** What the store's SQL statements do to one soft-delete table, whichever
    entity it holds. A table maps the generated key to its row. */
module Table {
  import opened Model

  /** The row with key `id` matches `WHERE <key> = id AND status = 0`. */
  predicate ActiveAt<D>(t: map<int, Row<D>>, id: int)
  {
    id in t && t[id].status == Active
  }

  /** Some active row belongs to enrollment `eid`: the case that the unique
      index on `active_enrollment_id` (the enrollment id of active rows only)
      refuses a second time. */
  predicate HasActiveChild<D>(t: map<int, Row<D>>, parent: D -> int, eid: int)
  {
    exists k :: k in t && t[k].status == Active && parent(t[k].data) == eid
  }

  /** Every row sits under its own id. */
  ghost predicate KeyedById<D>(t: map<int, Row<D>>)
  {
    forall k :: k in t ==> t[k].id == k
  }

  /** Every row sits under its own id, and every id was handed out by the
      AUTO_INCREMENT counter, which starts at 1 and now stands at `next`. */
  ghost predicate WellKeyed<D>(t: map<int, Row<D>>, next: int)
  {
    1 <= next && KeyedById(t) && forall k :: k in t ==> 0 < k < next
  }

  /** `deleted_at` is set on exactly the deleted rows. */
  ghost predicate Stamped<D>(t: map<int, Row<D>>)
  {
    forall k :: k in t ==> (t[k].status == Deleted <==> t[k].deletedAt.Some?)
  }

  /** At most one active row per enrollment; deleted rows do not count. */
  ghost predicate ActiveUnique<D>(t: map<int, Row<D>>, parent: D -> int)
  {
    forall j, k :: ActiveAt(t, j) && ActiveAt(t, k) && parent(t[j].data) == parent(t[k].data) ==> j == k
  }

  /** Every row's `enrollment_id` names a row of `parents` (the foreign key). */
  ghost predicate Referencing<D, E>(t: map<int, Row<D>>, parent: D -> int, parents: map<int, Row<E>>)
  {
    forall k :: k in t ==> parent(t[k].data) in parents
  }

  /** How a table may change outside a rollback: no row is ever removed, a
      row keeps its id and creation stamp, and a deleted row is frozen. */
  ghost predicate Evolves<D>(before: map<int, Row<D>>, after: map<int, Row<D>>)
  {
    && before.Keys <= after.Keys
    && (forall k :: k in before ==> after[k].id == before[k].id && after[k].createdAt == before[k].createdAt)
    && (forall k :: k in before && before[k].status == Deleted ==> after[k] == before[k])
  }

  /** What `SELECT * FROM <table> WHERE status = 0` yields: each active row
      exactly once, nothing else, in ascending key order. */
  ghost predicate ListsActive<D>(t: map<int, Row<D>>, rows: seq<Row<D>>)
  {
    && (forall i :: 0 <= i < |rows| ==> rows[i].id in t && t[rows[i].id] == rows[i] && rows[i].status == Active)
    && (forall k :: ActiveAt(t, k) ==> t[k] in rows)
    && (forall i, j :: 0 <= i < j < |rows| ==> rows[i].id < rows[j].id)
  }

  /** A freshly inserted row: status, `created_at`, `updated_at` and
      `deleted_at` take their column defaults. */
  function NewRow<D>(id: int, data: D, now: Time): Row<D>
  {
    Row(id, data, Active, now, None, None)
  }

  /** An insert under the next generated id keeps the table well keyed and
      stamped, and removes or alters no existing row. */
  lemma InsertNewRow<D>(t: map<int, Row<D>>, next: int, data: D, now: Time)
    requires WellKeyed(t, next) && Stamped(t)
    ensures next !in t
    ensures WellKeyed(t[next := NewRow(next, data, now)], next + 1)
    ensures Stamped(t[next := NewRow(next, data, now)])
    ensures Evolves(t, t[next := NewRow(next, data, now)])
  {
  }

  /** `SET status = 1, updated_at = now(), deleted_at = now()` on one row. */
  function MarkDeleted<D>(r: Row<D>, now: Time): Row<D>
  {
    r.(status := Deleted, updatedAt := Some(now), deletedAt := Some(now))
  }

  /** `UPDATE ... SET status = 1, updated_at = now(), deleted_at = now()
      WHERE <key> = id AND status = 0`. */
  function SoftDeleteById<D>(t: map<int, Row<D>>, id: int, now: Time): (r: map<int, Row<D>>)
    ensures r.Keys == t.Keys
    ensures forall k :: k in t && k != id ==> r[k] == t[k]
    ensures id in t ==> r[id].status == Deleted
    ensures ActiveAt(t, id) ==>
              r[id].data == t[id].data && r[id].updatedAt == Some(now) && r[id].deletedAt == Some(now)
    ensures !ActiveAt(t, id) ==> r == t
    ensures Evolves(t, r)
  {
    if ActiveAt(t, id) then t[id := MarkDeleted(t[id], now)] else t
  }

  /** `UPDATE ... SET status = 1, updated_at = now(), deleted_at = now()
      WHERE enrollment_id = eid AND status = 0`. */
  function SoftDeleteByParent<D>(t: map<int, Row<D>>, parent: D -> int, eid: int, now: Time): (r: map<int, Row<D>>)
    ensures r.Keys == t.Keys
    ensures forall k :: k in t && !(ActiveAt(t, k) && parent(t[k].data) == eid) ==> r[k] == t[k]
    ensures forall k :: ActiveAt(t, k) && parent(t[k].data) == eid ==>
              && r[k].status == Deleted && r[k].data == t[k].data
              && r[k].updatedAt == Some(now) && r[k].deletedAt == Some(now)
    ensures !HasActiveChild(r, parent, eid)
    ensures Evolves(t, r)
  {
    map k | k in t :: if ActiveAt(t, k) && parent(t[k].data) == eid then MarkDeleted(t[k], now) else t[k]
  }

  /** A soft-delete by key keeps the table well keyed and stamped. */
  lemma SoftDeleteByIdKeeps<D>(t: map<int, Row<D>>, id: int, now: Time, next: int)
    requires WellKeyed(t, next) && Stamped(t)
    ensures WellKeyed(SoftDeleteById(t, id, now), next) && Stamped(SoftDeleteById(t, id, now))
  {
  }

  /** A soft-delete by enrollment keeps the table well keyed, stamped and
      free of two active rows for one enrollment. */
  lemma SoftDeleteByParentKeeps<D>(t: map<int, Row<D>>, eid: int, now: Time, next: int, parent: D -> int)
    requires WellKeyed(t, next) && Stamped(t) && ActiveUnique(t, parent)
    ensures var r := SoftDeleteByParent(t, parent, eid, now);
      WellKeyed(r, next) && Stamped(r) && ActiveUnique(r, parent)
  {
  }

  /** The foreign key only looks at which keys the parent table has. */
  lemma ReferencingSameKeys<D, E>(t: map<int, Row<D>>, parent: D -> int, before: map<int, Row<E>>, after: map<int, Row<E>>)
    requires Referencing(t, parent, before) && before.Keys == after.Keys
    ensures Referencing(t, parent, after)
  {
  }

  /** The loop over the result set of `SELECT * ... WHERE status = 0`, which
      the engine delivers in key order. */
  method ReadActive<D>(t: map<int, Row<D>>, next: int) returns (rows: seq<Row<D>>)
    requires WellKeyed(t, next)
    ensures ListsActive(t, rows)
  {
    rows := [];
    var k := 1;
    while k < next
      invariant 1 <= k
      invariant forall i :: 0 <= i < |rows| ==>
                  rows[i].id in t && t[rows[i].id] == rows[i] && rows[i].status == Active && rows[i].id < k
      invariant forall j :: 0 < j < k && ActiveAt(t, j) ==> t[j] in rows
      invariant forall i, j :: 0 <= i < j < |rows| ==> rows[i].id < rows[j].id
    {
      if k in t && t[k].status == Active {
        rows := rows + [t[k]];
      }
      k := k + 1;
    }
  }

  /** The listing is determined by the table: two results that both list
      the active rows are the same sequence. */
  lemma {:induction false} ListingUnique<D>(t: map<int, Row<D>>, a: seq<Row<D>>, b: seq<Row<D>>)
    requires KeyedById(t)
    requires ListsActive(t, a) && ListsActive(t, b)
    ensures a == b
    decreases |a|
  {
    if a == [] {
    } else if b == [] {
      assert ActiveAt(t, a[0].id);
    } else {
      SameFirstRow(t, a, b);
      ListingTail(t, a);
      ListingTail(t, b);
      ListingUnique(t - {a[0].id}, a[1..], b[1..]);
      assert a == [a[0]] + a[1..];
      assert b == [b[0]] + b[1..];
    }
  }

  /** Two listings of the same table start with the same row: the active
      row with the smallest key. */
  lemma SameFirstRow<D>(t: map<int, Row<D>>, a: seq<Row<D>>, b: seq<Row<D>>)
    requires KeyedById(t)
    requires ListsActive(t, a) && ListsActive(t, b) && a != [] && b != []
    ensures a[0] == b[0]
  {
    assert ActiveAt(t, a[0].id) && ActiveAt(t, b[0].id);
    assert t[a[0].id] in b;
    assert t[b[0].id] in a;
  }

  /** Dropping the first row of a listing lists the table without that row. */
  lemma ListingTail<D>(t: map<int, Row<D>>, a: seq<Row<D>>)
    requires KeyedById(t) && ListsActive(t, a) && a != []
    ensures ListsActive(t - {a[0].id}, a[1..])
  {
    var u := t - {a[0].id};
    forall j | ActiveAt(u, j)
      ensures u[j] in a[1..]
    {
      assert t[j] in a;
      var i :| 0 <= i < |a| && a[i] == t[j];
      assert i != 0;
    }
  }

  /** Uniqueness holds among active rows only: while a row for enrollment
      `e` is active a second one is refused, and once it is soft-deleted a
      new one is admitted. */
  lemma ReinsertAfterSoftDelete<D>(t: map<int, Row<D>>, parent: D -> int, id: int, now: Time)
    requires ActiveUnique(t, parent) && ActiveAt(t, id)
    ensures HasActiveChild(t, parent, parent(t[id].data))
    ensures !HasActiveChild(SoftDeleteById(t, id, now), parent, parent(t[id].data))
  {
    var r := SoftDeleteById(t, id, now);
    var e := parent(t[id].data);
    if HasActiveChild(r, parent, e) {
      var k :| k in r && r[k].status == Active && parent(r[k].data) == e;
      assert k != id;
      assert ActiveAt(t, k);
      assert false;
    }
  }
}
