/** The `doc_database_views` table and its repository: look-up by id, the views
    of a database by creation time, insert, patch, and making one view the
    database's default. The table is an in-memory sequence of rows. */
module DocDatabaseViews {
  import opened Wrappers
  import opened Json

  /** A row of `doc_database_views`; timestamps are instants as integers. */
  datatype View = View(
    id: string,
    name: Option<string>,
    viewType: string,
    config: Option<Json>,
    isDefault: bool,
    databaseId: string,
    creatorId: Option<string>,
    workspaceId: string,
    createdAt: int,
    updatedAt: int,
    deletedAt: Option<int>)

  /** The columns an update may set; `None` leaves a column as it is. The
      `updatedAt` the caller might pass is always overwritten by the stamp. */
  datatype ViewPatch = ViewPatch(
    name: Option<Option<string>>,
    viewType: Option<string>,
    config: Option<Option<Json>>,
    isDefault: Option<bool>,
    databaseId: Option<string>,
    creatorId: Option<Option<string>>,
    workspaceId: Option<string>,
    createdAt: Option<int>,
    deletedAt: Option<Option<int>>)

  /** The primary key: no two rows share an id. */
  predicate UniqueIds(rows: seq<View>) {
    forall i, j :: 0 <= i < j < |rows| ==> rows[i].id != rows[j].id
  }

  /** No database has two default views. */
  predicate AtMostOneDefault(rows: seq<View>) {
    forall i, j :: 0 <= i < |rows| && 0 <= j < |rows| && rows[i].isDefault && rows[j].isDefault
      && rows[i].databaseId == rows[j].databaseId
      ==> i == j
  }

  function Ids(rows: seq<View>): set<string> {
    set i | 0 <= i < |rows| :: rows[i].id
  }

  /** The first row with the id. */
  function FirstById(rows: seq<View>, viewId: string): (r: Option<View>)
    ensures r.None? <==> viewId !in Ids(rows)
    ensures r.Some? ==> r.value in rows && r.value.id == viewId
  {
    if rows == [] then None
    else if rows[0].id == viewId then Some(rows[0])
    else
      assert Ids(rows) == {rows[0].id} + Ids(rows[1..]) by {
        assert forall i :: 1 <= i < |rows| ==> rows[i] == rows[1..][i - 1];
        assert forall i :: 0 <= i < |rows| - 1 ==> rows[1..][i] == rows[i + 1];
      }
      FirstById(rows[1..], viewId)
  }

  /** `WHERE "databaseId" = databaseId`, in table order. */
  function OfDatabase(rows: seq<View>, databaseId: string): (r: seq<View>)
    ensures forall v :: v in r <==> v in rows && v.databaseId == databaseId
    ensures |r| <= |rows|
  {
    if rows == [] then []
    else
      var init := rows[..|rows| - 1];
      var last := rows[|rows| - 1];
      assert rows == init + [last];
      OfDatabase(init, databaseId) + (if last.databaseId == databaseId then [last] else [])
  }

  predicate SortedByCreated(s: seq<View>) {
    forall i, j :: 0 <= i < j < |s| ==> s[i].createdAt <= s[j].createdAt
  }

  /** Appending a row created no earlier than every row keeps the order. */
  lemma {:induction false} SortedAppend(s: seq<View>, x: View)
    requires SortedByCreated(s)
    requires forall i :: 0 <= i < |s| ==> s[i].createdAt <= x.createdAt
    ensures SortedByCreated(s + [x])
  {
  }

  /** A permutation of `init` plus `v` stays no later than `last` when all of
      them are. */
  lemma {:induction false} PermutationBelow(ins: seq<View>, init: seq<View>, v: View, last: View)
    requires multiset(ins) == multiset(init) + multiset{v}
    requires forall k :: 0 <= k < |init| ==> init[k].createdAt <= last.createdAt
    requires v.createdAt <= last.createdAt
    ensures forall i :: 0 <= i < |ins| ==> ins[i].createdAt <= last.createdAt
  {
    forall i | 0 <= i < |ins| ensures ins[i].createdAt <= last.createdAt {
      assert ins[i] in multiset(ins);
      if ins[i] != v {
        assert ins[i] in init;
      }
    }
  }

  /** Places `v` after every row created no later than it. */
  function InsertByCreated(sorted: seq<View>, v: View): (r: seq<View>)
    requires SortedByCreated(sorted)
    ensures SortedByCreated(r)
    ensures multiset(r) == multiset(sorted) + multiset{v}
  {
    if sorted == [] then [v]
    else if sorted[|sorted| - 1].createdAt <= v.createdAt then
      SortedAppend(sorted, v);
      sorted + [v]
    else
      var init := sorted[..|sorted| - 1];
      var last := sorted[|sorted| - 1];
      assert sorted == init + [last];
      var ins := InsertByCreated(init, v);
      PermutationBelow(ins, init, v, last);
      SortedAppend(ins, last);
      ins + [last]
  }

  /** `ORDER BY "createdAt" ASC`, as a stable insertion sort. */
  function SortByCreated(s: seq<View>): (r: seq<View>)
    ensures SortedByCreated(r)
    ensures multiset(r) == multiset(s)
  {
    if s == [] then []
    else
      var init := s[..|s| - 1];
      assert s == init + [s[|s| - 1]];
      InsertByCreated(SortByCreated(init), s[|s| - 1])
  }

  /** `updateView`'s patch of one row, stamped with the update time: each set
      column takes its new value, the others keep theirs. */
  function ApplyPatch(v: View, p: ViewPatch, now: int): (r: View)
    ensures r.id == v.id && r.updatedAt == now
    ensures r.name == p.name.GetOr(v.name) && r.viewType == p.viewType.GetOr(v.viewType)
    ensures r.config == p.config.GetOr(v.config) && r.isDefault == p.isDefault.GetOr(v.isDefault)
    ensures r.databaseId == p.databaseId.GetOr(v.databaseId) && r.createdAt == p.createdAt.GetOr(v.createdAt)
    ensures r.creatorId == p.creatorId.GetOr(v.creatorId) && r.workspaceId == p.workspaceId.GetOr(v.workspaceId)
    ensures r.deletedAt == p.deletedAt.GetOr(v.deletedAt)
  {
    View(v.id, p.name.GetOr(v.name), p.viewType.GetOr(v.viewType), p.config.GetOr(v.config),
         p.isDefault.GetOr(v.isDefault), p.databaseId.GetOr(v.databaseId), p.creatorId.GetOr(v.creatorId),
         p.workspaceId.GetOr(v.workspaceId), p.createdAt.GetOr(v.createdAt), now, p.deletedAt.GetOr(v.deletedAt))
  }

  /** The table after `UPDATE … WHERE id = viewId`. */
  function PatchRows(rows: seq<View>, p: ViewPatch, viewId: string, now: int): (r: seq<View>)
    ensures |r| == |rows|
    ensures forall i :: 0 <= i < |rows| ==>
      (rows[i].id == viewId ==> r[i] == ApplyPatch(rows[i], p, now)) && (rows[i].id != viewId ==> r[i] == rows[i])
  {
    seq(|rows|, i requires 0 <= i < |rows| => if rows[i].id == viewId then ApplyPatch(rows[i], p, now) else rows[i])
  }

  lemma {:induction false} PatchKeepsIds(rows: seq<View>, p: ViewPatch, viewId: string, now: int)
    ensures var r := PatchRows(rows, p, viewId, now);
      (forall i :: 0 <= i < |rows| ==> r[i].id == rows[i].id) && (UniqueIds(rows) ==> UniqueIds(r))
  {
  }

  /** A patch that sets neither `isDefault` nor `databaseId` keeps every
      database's default. */
  lemma {:induction false} PatchWithoutDefaultKeepsDefaults(rows: seq<View>, p: ViewPatch, viewId: string, now: int)
    requires p.isDefault.None? && p.databaseId.None?
    ensures var r := PatchRows(rows, p, viewId, now);
      forall i :: 0 <= i < |rows| ==> r[i].isDefault == rows[i].isDefault && r[i].databaseId == rows[i].databaseId
  {
  }

  /** A patch that neither sets a default nor moves the view to another database
      keeps at most one default per database. */
  lemma {:induction false} PatchKeepsAtMostOne(rows: seq<View>, p: ViewPatch, viewId: string, now: int)
    requires AtMostOneDefault(rows)
    requires p.isDefault != Some(true) && p.databaseId.None?
    ensures AtMostOneDefault(PatchRows(rows, p, viewId, now))
  {
    var r := PatchRows(rows, p, viewId, now);
    forall i, j | 0 <= i < |r| && 0 <= j < |r| && r[i].isDefault && r[j].isDefault && r[i].databaseId == r[j].databaseId
      ensures i == j
    {
      assert rows[i].isDefault && rows[j].isDefault;
      assert rows[i].databaseId == rows[j].databaseId;
    }
  }

  /** The repository does not guard the invariant itself: moving a default view
      into a database that has its own default leaves two defaults there. */
  lemma PatchMovingDefaultBreaksAtMostOne()
    ensures var a := View("a", None, "table", None, true, "d1", None, "w", 0, 0, None);
      var b := View("b", None, "table", None, true, "d2", None, "w", 0, 0, None);
      var p := ViewPatch(None, None, None, None, Some("d1"), None, None, None, None);
      AtMostOneDefault([a, b]) && !AtMostOneDefault(PatchRows([a, b], p, "b", 1))
  {
    var a := View("a", None, "table", None, true, "d1", None, "w", 0, 0, None);
    var b := View("b", None, "table", None, true, "d2", None, "w", 0, 0, None);
    var p := ViewPatch(None, None, None, None, Some("d1"), None, None, None, None);
    var r := PatchRows([a, b], p, "b", 1);
    assert r[0] == a;
    assert r[1].isDefault && r[1].databaseId == "d1";
  }

  /** The first pass of `setDefaultView`: every view of the database is cleared. */
  function ClearDefaults(rows: seq<View>, databaseId: string, now: int): seq<View> {
    seq(|rows|, i requires 0 <= i < |rows| =>
      if rows[i].databaseId == databaseId then rows[i].(isDefault := false, updatedAt := now) else rows[i])
  }

  /** The second pass: the view with the id, if it belongs to the database, is set. */
  function MarkDefault(rows: seq<View>, databaseId: string, viewId: string, now: int): seq<View> {
    seq(|rows|, i requires 0 <= i < |rows| =>
      if rows[i].id == viewId && rows[i].databaseId == databaseId then rows[i].(isDefault := true, updatedAt := now)
      else rows[i])
  }

  /** The table after `setDefaultView`: among the database's views exactly
      the one with `viewId` is default, all of them are stamped, and the
      views of other databases are untouched. */
  function AfterSetDefault(rows: seq<View>, databaseId: string, viewId: string, now: int): (r: seq<View>)
    ensures |r| == |rows|
    ensures forall i :: 0 <= i < |rows| && rows[i].databaseId == databaseId ==>
      r[i] == rows[i].(isDefault := rows[i].id == viewId, updatedAt := now)
    ensures forall i :: 0 <= i < |rows| && rows[i].databaseId != databaseId ==> r[i] == rows[i]
  {
    MarkDefault(ClearDefaults(rows, databaseId, now), databaseId, viewId, now)
  }

  /** When `viewId` is not a view of the database, the database is left without
      a default view. */
  lemma {:induction false} SetDefaultToForeignViewClearsAll(rows: seq<View>, databaseId: string, viewId: string, now: int)
    requires forall i :: 0 <= i < |rows| && rows[i].databaseId == databaseId ==> rows[i].id != viewId
    ensures var r := AfterSetDefault(rows, databaseId, viewId, now);
      forall i :: 0 <= i < |r| && r[i].databaseId == databaseId ==> !r[i].isDefault
  {
  }

  /** The default flags of a table. */
  function Flags(rows: seq<View>): seq<bool> {
    seq(|rows|, i requires 0 <= i < |rows| => rows[i].isDefault)
  }

  /** Setting the same default twice gives the flags of setting it once. */
  lemma {:induction false} SetDefaultIdempotentOnFlags(rows: seq<View>, databaseId: string, viewId: string, t1: int, t2: int)
    ensures var once := AfterSetDefault(rows, databaseId, viewId, t1);
      Flags(AfterSetDefault(once, databaseId, viewId, t2)) == Flags(once)
  {
    var once := AfterSetDefault(rows, databaseId, viewId, t1);
    var twice := AfterSetDefault(once, databaseId, viewId, t2);
    assert forall i :: 0 <= i < |rows| ==> once[i].databaseId == rows[i].databaseId && once[i].id == rows[i].id;
    assert forall i :: 0 <= i < |rows| ==> twice[i].isDefault == once[i].isDefault;
  }

  /** With unique ids, a database has at most one default view after
      `setDefaultView`, whatever it had before, as long as the other databases
      had at most one each. */
  lemma {:induction false} SetDefaultKeepsAtMostOne(rows: seq<View>, databaseId: string, viewId: string, now: int)
    requires UniqueIds(rows) && AtMostOneDefault(rows)
    ensures AtMostOneDefault(AfterSetDefault(rows, databaseId, viewId, now))
    ensures UniqueIds(AfterSetDefault(rows, databaseId, viewId, now))
  {
    var r := AfterSetDefault(rows, databaseId, viewId, now);
    forall i, j | 0 <= i < |r| && 0 <= j < |r| && r[i].isDefault && r[j].isDefault && r[i].databaseId == r[j].databaseId
      ensures i == j
    {
      if rows[i].databaseId == databaseId {
        assert r[i].id == viewId && r[j].id == viewId;
        assert rows[i].id == rows[j].id;
      }
    }
  }

  /** Appending a view keeps at most one default per database when the new
      view is not a default, or its database has no view yet. */
  lemma {:induction false} InsertKeepsAtMostOne(rows: seq<View>, v: View)
    requires AtMostOneDefault(rows)
    requires !v.isDefault || forall i :: 0 <= i < |rows| ==> rows[i].databaseId != v.databaseId
    ensures AtMostOneDefault(rows + [v])
  {
    var r := rows + [v];
    forall i, j | 0 <= i < |r| && 0 <= j < |r| && r[i].isDefault && r[j].isDefault && r[i].databaseId == r[j].databaseId
      ensures i == j
    {
      if i < |rows| && j < |rows| {
        assert r[i] == rows[i] && r[j] == rows[j];
      }
    }
  }

  /** The repository over the table. */
  class ViewTable {
    var rows: seq<View>

    constructor ()
      ensures rows == []
    {
      rows := [];
    }

    predicate Valid()
      reads this
    {
      UniqueIds(rows)
    }

    /** `findById`: the row with the id, deleted or not. */
    function FindById(viewId: string): (r: Option<View>)
      reads this
      ensures r.None? <==> viewId !in Ids(rows)
      ensures r.Some? ==> r.value in rows && r.value.id == viewId
    {
      FirstById(rows, viewId)
    }

    /** `listByDatabaseId`: every view of the database, deleted or not, by
        ascending creation time. */
    function ListByDatabaseId(databaseId: string): (r: seq<View>)
      reads this
      ensures forall v :: v in r ==> v in rows && v.databaseId == databaseId
      ensures SortedByCreated(r)
      ensures multiset(r) == multiset(OfDatabase(rows, databaseId))
    {
      var r := SortByCreated(OfDatabase(rows, databaseId));
      assert forall v :: v in r ==> v in multiset(OfDatabase(rows, databaseId));
      r
    }

    /** `insertView`, with the id the database generates passed in. */
    method InsertView(v: View) returns (inserted: View)
      requires Valid() && v.id !in Ids(rows)
      modifies this
      ensures rows == old(rows) + [v] && inserted == v
      ensures Valid()
    {
      assert forall i :: 0 <= i < |rows| ==> rows[i].id in Ids(rows);
      rows := rows + [v];
      inserted := v;
    }

    /** `updateView`: patches the row with the id and returns it, or nothing
        when there is none. */
    method UpdateView(patch: ViewPatch, viewId: string, now: int) returns (r: Option<View>)
      requires Valid()
      modifies this
      ensures rows == PatchRows(old(rows), patch, viewId, now)
      ensures Valid()
      ensures r.None? <==> viewId !in Ids(old(rows))
      ensures r.Some? ==> r.value in rows && r == Some(ApplyPatch(old(FindById(viewId)).value, patch, now))
      ensures old(AtMostOneDefault(rows)) && patch.isDefault != Some(true) && patch.databaseId.None? ==>
        AtMostOneDefault(rows)
    {
      var found := FirstById(rows, viewId);
      PatchKeepsIds(rows, patch, viewId, now);
      if AtMostOneDefault(rows) && patch.isDefault != Some(true) && patch.databaseId.None? {
        PatchKeepsAtMostOne(rows, patch, viewId, now);
      }
      var before := rows;
      rows := PatchRows(rows, patch, viewId, now);
      if found.None? {
        r := None;
      } else {
        var k :| 0 <= k < |before| && before[k] == found.value;
        assert rows[k] == ApplyPatch(found.value, patch, now);
        r := Some(rows[k]);
      }
    }

    /** `setDefaultView`: two passes over the table, the first clearing the
        database's views, the second setting the one with `viewId`. */
    method SetDefaultView(databaseId: string, viewId: string, now: int)
      modifies this
      ensures rows == AfterSetDefault(old(rows), databaseId, viewId, now)
      ensures old(Valid()) ==> Valid()
      ensures old(Valid()) && old(AtMostOneDefault(rows)) ==> AtMostOneDefault(rows)
    {
      var before := rows;
      var cleared := ClearDefaults(before, databaseId, now);
      var i := 0;
      while i < |rows|
        invariant 0 <= i <= |rows| == |before|
        invariant forall k :: 0 <= k < i ==> rows[k] == cleared[k]
        invariant forall k :: i <= k < |rows| ==> rows[k] == before[k]
      {
        if rows[i].databaseId == databaseId {
          rows := rows[i := rows[i].(isDefault := false, updatedAt := now)];
        }
        i := i + 1;
      }
      assert rows == cleared;
      var marked := MarkDefault(cleared, databaseId, viewId, now);
      i := 0;
      while i < |rows|
        invariant 0 <= i <= |rows| == |cleared|
        invariant forall k :: 0 <= k < i ==> rows[k] == marked[k]
        invariant forall k :: i <= k < |rows| ==> rows[k] == cleared[k]
      {
        if rows[i].id == viewId && rows[i].databaseId == databaseId {
          rows := rows[i := rows[i].(isDefault := true, updatedAt := now)];
        }
        i := i + 1;
      }
      assert rows == marked;
      if UniqueIds(before) && AtMostOneDefault(before) {
        SetDefaultKeepsAtMostOne(before, databaseId, viewId, now);
      }
      if UniqueIds(before) {
        assert forall k :: 0 <= k < |rows| ==> rows[k].id == before[k].id;
      }
    }
  }
}
