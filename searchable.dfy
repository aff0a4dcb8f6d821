/**
 * `SearchableMixin`: the commit hooks that keep the full-text index in step
 * with the database, and the ordering `search` gives to the index's hits.
 * The index itself is foreign; the model records the calls made to it and
 * takes the ids and total a query returns as inputs.
 */
module Searchable {
  import opened Prelude

  /** An object in the session: its table, its id, and whether its class mixes in `SearchableMixin`. */
  datatype Record = Record(table: string, id: nat, searchable: bool)

  /** `session._changes`: the objects the commit adds, updates and deletes. */
  datatype Changes = Changes(add: seq<Record>, update: seq<Record>, delete: seq<Record>)

  datatype IndexOp = AddToIndex | RemoveFromIndex

  /** A call `add_to_index(index, obj)` or `remove_from_index(index, obj)`. */
  datatype IndexCall = IndexCall(op: IndexOp, index: string, obj: Record)

  /** The calls one of `after_commit`'s loops makes: one per searchable object, in list order. */
  function CallsFor(objs: seq<Record>, op: IndexOp): (r: seq<IndexCall>)
    ensures |r| <= |objs|
  {
    if objs == [] then []
    else
      var o := objs[|objs| - 1];
      CallsFor(objs[..|objs| - 1], op) + (if o.searchable then [IndexCall(op, o.table, o)] else [])
  }

  /**
   * One loop calls the index for exactly its searchable objects, each with
   * the loop's operation and under its own table's index.
   */
  lemma {:induction false} CallsForExactly(objs: seq<Record>, op: IndexOp, c: IndexCall)
    ensures c in CallsFor(objs, op) <==> c.op == op && c.obj in objs && c.obj.searchable && c.index == c.obj.table
  {
    if objs != [] {
      var o := objs[|objs| - 1];
      assert objs == objs[..|objs| - 1] + [o];
      CallsForExactly(objs[..|objs| - 1], op, c);
    }
  }

  /** One more object in the loop adds its own call, if any, at the end. */
  lemma CallsForStep(objs: seq<Record>, k: nat, op: IndexOp)
    requires k < |objs|
    ensures CallsFor(objs[..k + 1], op) ==
      CallsFor(objs[..k], op) + (if objs[k].searchable then [IndexCall(op, objs[k].table, objs[k])] else [])
  {
    assert objs[..k + 1][..k] == objs[..k];
  }

  /** Everything `after_commit` sends to the index for one set of changes. */
  function IndexCalls(ch: Changes): (r: seq<IndexCall>)
    ensures |r| <= |ch.add| + |ch.update| + |ch.delete|
  {
    CallsFor(ch.add, AddToIndex) + CallsFor(ch.update, AddToIndex) + CallsFor(ch.delete, RemoveFromIndex)
  }

  /**
   * A commit indexes exactly the searchable objects it added or updated and
   * unindexes exactly the searchable objects it deleted, each under its own
   * table's index; nothing else reaches the index.
   */
  lemma IndexCallsExactly(ch: Changes, c: IndexCall)
    ensures c in IndexCalls(ch) <==>
      c.obj.searchable && c.index == c.obj.table &&
      ((c.op == AddToIndex && (c.obj in ch.add || c.obj in ch.update)) ||
       (c.op == RemoveFromIndex && c.obj in ch.delete))
  {
    CallsForExactly(ch.add, AddToIndex, c);
    CallsForExactly(ch.update, AddToIndex, c);
    CallsForExactly(ch.delete, RemoveFromIndex, c);
  }

  /** A commit that touches no searchable object leaves the index alone. */
  lemma {:induction false} UnsearchableCommitIsSilent(objs: seq<Record>, op: IndexOp)
    requires forall o | o in objs :: !o.searchable
    ensures CallsFor(objs, op) == []
  {
    if objs != [] {
      assert objs[|objs| - 1] in objs;
      UnsearchableCommitIsSilent(objs[..|objs| - 1], op);
    }
  }

  /**
   * A database session: the pending objects, the `_changes` attribute the
   * hooks share, and the calls made to the index so far.
   */
  class Session {
    var added: seq<Record>
    var dirty: seq<Record>
    var deleted: seq<Record>
    var changes: Option<Changes>
    var indexCalls: seq<IndexCall>

    constructor ()
      ensures added == [] && dirty == [] && deleted == []
      ensures changes == None && indexCalls == []
    {
      added, dirty, deleted := [], [], [];
      changes, indexCalls := None, [];
    }

    /** `before_commit`: captures `session.new`, `session.dirty` and `session.deleted`. */
    method BeforeCommit()
      modifies this`changes
      ensures changes == Some(Changes(added, dirty, deleted))
    {
      changes := Some(Changes(added, dirty, deleted));
    }

    method RunCalls(objs: seq<Record>, op: IndexOp)
      modifies this`indexCalls
      ensures indexCalls == old(indexCalls) + CallsFor(objs, op)
    {
      for k := 0 to |objs|
        invariant indexCalls == old(indexCalls) + CallsFor(objs[..k], op)
      {
        var obj := objs[k];
        if obj.searchable {
          indexCalls := indexCalls + [IndexCall(op, obj.table, obj)];
        }
        CallsForStep(objs, k, op);
      }
      assert objs[..|objs|] == objs;
    }

    /** `after_commit`: the three loops over the captured changes, then `_changes = None`. */
    method AfterCommit()
      requires changes.Some?
      modifies this`changes, this`indexCalls
      ensures indexCalls == old(indexCalls) + IndexCalls(old(changes).value)
      ensures changes == None
    {
      var c := changes.value;
      RunCalls(c.add, AddToIndex);
      RunCalls(c.update, AddToIndex);
      RunCalls(c.delete, RemoveFromIndex);
      changes := None;
    }

    /**
     * `db.session.commit()` with both hooks registered: `before_commit`
     * runs while the pending lists are still full, the flush empties them,
     * and `after_commit` reports what was captured.
     */
    method Commit()
      modifies this
      ensures indexCalls == old(indexCalls) + IndexCalls(Changes(old(added), old(dirty), old(deleted)))
      ensures added == [] && dirty == [] && deleted == [] && changes == None
    {
      BeforeCommit();
      added, dirty, deleted := [], [], [];
      AfterCommit();
    }
  }

  /* ---------------------------------------------------------------- */
  /* search                                                             */
  /* ---------------------------------------------------------------- */

  /**
   * The position the `case(*when, value=cls.id)` expression gives `id`: its
   * first place in `ids`, or `|ids|` when it is not there.
   */
  function Rank(ids: seq<nat>, id: nat): (k: nat)
    ensures k <= |ids|
    ensures k < |ids| <==> id in ids
    ensures k < |ids| ==> ids[k] == id && id !in ids[..k]
  {
    if ids == [] then 0
    else if ids[0] == id then 0
    else 1 + Rank(ids[1..], id)
  }

  /** The table's rows with the given id, in table order. */
  function RowsWithId(rows: seq<Record>, id: nat): (r: seq<Record>)
    ensures forall x :: x in r <==> x in rows && x.id == id
    ensures forall x :: multiset(r)[x] == if x.id == id then multiset(rows)[x] else 0
  {
    if rows == [] then []
    else
      assert rows == [rows[0]] + rows[1..];
      (if rows[0].id == id then [rows[0]] else []) + RowsWithId(rows[1..], id)
  }

  /** The rows whose id is in `ids` and not in `seen`, grouped by id in the order of `ids`. */
  function RankedFrom(rows: seq<Record>, ids: seq<nat>, seen: set<nat>): seq<Record>
    decreases |ids|
  {
    if ids == [] then []
    else if ids[0] in seen then RankedFrom(rows, ids[1..], seen)
    else RowsWithId(rows, ids[0]) + RankedFrom(rows, ids[1..], seen + {ids[0]})
  }

  /**
   * `search`, once `query_index` has returned `ids` and `total`: nothing when
   * the total is 0, otherwise the table's rows whose id was hit, ordered by
   * the hit's position. A non-zero total with no hit on the page (a page past
   * the last hit) builds a `CASE` with no `WHEN`, which the database refuses:
   * that failure is `None`.
   */
  function Search(rows: seq<Record>, ids: seq<nat>, total: int): (r: Option<(seq<Record>, int)>)
    ensures r.None? <==> total != 0 && ids == []
    ensures r.Some? ==> r.value.1 == total
    ensures total == 0 ==> r == Some(([], 0))
  {
    if total == 0 then Some(([], 0))
    else if ids == [] then None
    else Some((RankedFrom(rows, ids, {}), total))
  }

  lemma {:induction false} RankedFromMembers(rows: seq<Record>, ids: seq<nat>, seen: set<nat>, x: Record)
    ensures x in RankedFrom(rows, ids, seen) <==> x in rows && x.id in ids && x.id !in seen
    decreases |ids|
  {
    if ids != [] {
      assert ids == [ids[0]] + ids[1..];
      if ids[0] in seen {
        RankedFromMembers(rows, ids[1..], seen, x);
      } else {
        RankedFromMembers(rows, ids[1..], seen + {ids[0]}, x);
      }
    }
  }

  /** Each row hit appears as often as it does in the table, and no other row appears. */
  lemma {:induction false} RankedFromMultiset(rows: seq<Record>, ids: seq<nat>, seen: set<nat>, x: Record)
    ensures multiset(RankedFrom(rows, ids, seen))[x] == if x.id in ids && x.id !in seen then multiset(rows)[x] else 0
    decreases |ids|
  {
    if ids != [] {
      assert ids == [ids[0]] + ids[1..];
      if ids[0] in seen {
        RankedFromMultiset(rows, ids[1..], seen, x);
      } else {
        RankedFromMultiset(rows, ids[1..], seen + {ids[0]}, x);
      }
    }
  }

  /** The rows are in the order of their ids' ranks. */
  predicate RankSorted(ids: seq<nat>, r: seq<Record>) {
    forall i, j | 0 <= i < j < |r| :: Rank(ids, r[i].id) <= Rank(ids, r[j].id)
  }

  /** Two sorted runs join into a sorted run when no rank of the first exceeds one of the second. */
  lemma JoinSorted(ids: seq<nat>, a: seq<Record>, b: seq<Record>)
    requires RankSorted(ids, a) && RankSorted(ids, b)
    requires forall x, y | x in a && y in b :: Rank(ids, x.id) <= Rank(ids, y.id)
    ensures RankSorted(ids, a + b)
  {
    forall i, j | 0 <= i < j < |a + b|
      ensures Rank(ids, (a + b)[i].id) <= Rank(ids, (a + b)[j].id)
    {
      if j < |a| {
        assert (a + b)[i] == a[i] && (a + b)[j] == a[j];
      } else if i >= |a| {
        assert (a + b)[i] == b[i - |a|] && (a + b)[j] == b[j - |a|];
      } else {
        assert (a + b)[i] in a && (a + b)[j] in b;
      }
    }
  }

  /** Dropping the first hit lowers every other id's rank by one, keeping the order. */
  lemma ShiftSorted(ids: seq<nat>, r: seq<Record>)
    requires ids != [] && RankSorted(ids[1..], r)
    requires forall x | x in r :: x.id != ids[0]
    ensures RankSorted(ids, r)
  {
    forall i, j | 0 <= i < j < |r|
      ensures Rank(ids, r[i].id) <= Rank(ids, r[j].id)
    {
      assert r[i] in r && r[j] in r;
    }
  }

  lemma {:induction false} RankedFromOrdered(rows: seq<Record>, ids: seq<nat>, seen: set<nat>)
    ensures RankSorted(ids, RankedFrom(rows, ids, seen))
    decreases |ids|
  {
    if ids != [] {
      var seen2 := if ids[0] in seen then seen else seen + {ids[0]};
      var head := if ids[0] in seen then [] else RowsWithId(rows, ids[0]);
      var rest := RankedFrom(rows, ids[1..], seen2);
      assert RankedFrom(rows, ids, seen) == head + rest;
      RankedFromOrdered(rows, ids[1..], seen2);
      forall x | x in rest
        ensures x.id != ids[0]
      {
        RankedFromMembers(rows, ids[1..], seen2, x);
      }
      ShiftSorted(ids, rest);
      JoinSorted(ids, head, rest);
    }
  }

  /**
   * `search` fails exactly on a non-zero total with no hit on the page;
   * otherwise it passes the total through and returns exactly the table's
   * rows whose id the index hit (none when the total is 0), each as often as
   * it occurs in the table, ordered by the position of their id among the hits.
   */
  lemma SearchResults(rows: seq<Record>, ids: seq<nat>, total: int)
    ensures total == 0 ==> Search(rows, ids, total) == Some(([], 0))
    ensures Search(rows, ids, total).None? <==> total != 0 && ids == []
    ensures Search(rows, ids, total).Some? ==> Search(rows, ids, total).value.1 == total
    ensures Search(rows, ids, total).Some? ==>
              forall x :: x in Search(rows, ids, total).value.0 <==> total != 0 && x in rows && x.id in ids
    ensures Search(rows, ids, total).Some? ==>
              forall x :: multiset(Search(rows, ids, total).value.0)[x] ==
                            if total != 0 && x.id in ids then multiset(rows)[x] else 0
    ensures Search(rows, ids, total).Some? ==>
              forall i, j | 0 <= i < j < |Search(rows, ids, total).value.0| ::
                Rank(ids, Search(rows, ids, total).value.0[i].id) <= Rank(ids, Search(rows, ids, total).value.0[j].id)
  {
    if total != 0 && ids != [] {
      var page := RankedFrom(rows, ids, {});
      assert Search(rows, ids, total) == Some((page, total));
      forall x: Record
        ensures multiset(page)[x] == if x.id in ids then multiset(rows)[x] else 0
      {
        RankedFromMultiset(rows, ids, {}, x);
      }
      forall x: Record
        ensures x in page <==> x in rows && x.id in ids
      {
        RankedFromMembers(rows, ids, {}, x);
      }
      RankedFromOrdered(rows, ids, {});
    }
  }
}
