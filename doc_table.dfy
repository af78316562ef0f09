/** The shared document behind an embedded table: two ordered sequences,
    `columns` and `rows`, edited in place by the table view's handlers.
    A `Y.Array` is a `seq` field, a `Y.Map` a datatype value or a `map`, and
    one `transact` is one method call. */
module DocTable {
  import opened Wrappers
  import opened Json
  import opened Seqs
  import opened DatabaseConstants

  /** A column record as stored in the document; every key but `id` may be missing. */
  datatype Column = Column(
    id: string,
    name: Option<string>,
    fieldType: Option<FieldType>,
    width: Option<int>,
    options: Option<seq<SelectOption>>,
    hidden: Option<bool>)

  /** A row record as stored in the document. */
  datatype Row = Row(
    id: string,
    cells: Option<map<string, Json>>,
    createdAt: Option<int>,
    updatedAt: Option<int>)

  /** A column as the view reads it, defaults applied. */
  datatype ColumnView = ColumnView(
    id: string, name: string, fieldType: FieldType, width: int,
    options: Option<seq<SelectOption>>)

  /** A row as the view reads it, defaults applied. */
  datatype RowView = RowView(id: string, cells: map<string, Json>, createdAt: int, updatedAt: int)

  /** `Boolean(c.get("hidden"))`. */
  predicate Hidden(c: Column) {
    c.hidden == Some(true)
  }

  /** `Number(x) || fallback`: a missing or zero number is replaced. */
  function NumberOr(x: Option<int>, fallback: int): (r: int)
    ensures x.Some? && x.value != 0 ==> r == x.value
    ensures x.None? || x.value == 0 ==> r == fallback
  {
    if x.Some? && x.value != 0 then x.value else fallback
  }

  /** One column of `readColumns`: name "", type text and width 150 stand in
      for missing values. */
  function ViewOfColumn(c: Column): (v: ColumnView)
    ensures v.id == c.id && v.options == c.options
    ensures v.name == c.name.GetOr("") && v.fieldType == c.fieldType.GetOr(Text)
    ensures v.width != 0
    ensures c.width.None? || c.width == Some(0) ==> v.width == DefaultColumnWidth
  {
    ColumnView(c.id, c.name.GetOr(""), c.fieldType.GetOr(Text),
               NumberOr(c.width, DefaultColumnWidth), c.options)
  }

  /** `readColumns`: the visible columns, in document order, defaults applied. */
  function ReadColumns(cols: seq<Column>): (r: seq<ColumnView>)
    ensures |r| <= |cols|
    ensures (forall i :: 0 <= i < |cols| ==> !Hidden(cols[i])) ==> |r| == |cols|
  {
    if cols == [] then []
    else if Hidden(cols[0]) then ReadColumns(cols[1..])
    else [ViewOfColumn(cols[0])] + ReadColumns(cols[1..])
  }

  /** What is read is exactly the views of the visible columns. */
  lemma {:induction false} ReadColumnsMembers(cols: seq<Column>)
    ensures forall v :: v in ReadColumns(cols) ==>
      exists i :: 0 <= i < |cols| && !Hidden(cols[i]) && v == ViewOfColumn(cols[i])
    ensures forall i :: 0 <= i < |cols| && !Hidden(cols[i]) ==> ViewOfColumn(cols[i]) in ReadColumns(cols)
  {
    if cols != [] {
      ReadColumnsMembers(cols[1..]);
      forall v | v in ReadColumns(cols)
        ensures exists i :: 0 <= i < |cols| && !Hidden(cols[i]) && v == ViewOfColumn(cols[i])
      {
        if !Hidden(cols[0]) && v == ViewOfColumn(cols[0]) {
        } else {
          var j :| 0 <= j < |cols[1..]| && !Hidden(cols[1..][j]) && v == ViewOfColumn(cols[1..][j]);
          assert cols[j + 1] == cols[1..][j];
        }
      }
      forall i | 0 <= i < |cols| && !Hidden(cols[i])
        ensures ViewOfColumn(cols[i]) in ReadColumns(cols)
      {
        if i > 0 {
          assert cols[i] == cols[1..][i - 1];
        }
      }
    }
  }

  /** Reading keeps document order: it distributes over concatenation. */
  lemma {:induction false} ReadColumnsAppend(a: seq<Column>, b: seq<Column>)
    ensures ReadColumns(a + b) == ReadColumns(a) + ReadColumns(b)
  {
    if a == [] {
      assert a + b == b;
    } else {
      assert (a + b)[1..] == a[1..] + b;
      ReadColumnsAppend(a[1..], b);
    }
  }

  /** Reading a single column. */
  lemma {:induction false} ReadColumnsOne(c: Column)
    ensures ReadColumns([c]) == if Hidden(c) then [] else [ViewOfColumn(c)]
  {
    assert [c][1..] == [];
  }

  /** Reading a column sequence around position `k`. */
  lemma {:induction false} ReadColumnsSplit(cols: seq<Column>, k: nat)
    requires k < |cols|
    ensures ReadColumns(cols) ==
      ReadColumns(cols[..k]) + ReadColumns([cols[k]]) + ReadColumns(cols[k + 1..])
  {
    assert cols[k..] == [cols[k]] + cols[k + 1..];
    assert cols == cols[..k] + cols[k..];
    ReadColumnsAppend(cols[..k], cols[k..]);
    ReadColumnsAppend([cols[k]], cols[k + 1..]);
  }

  /** Hiding visible column `k` removes exactly its view from what is read and
      leaves the order of the others. */
  lemma {:induction false} HideDropsOnlyThatColumn(cols: seq<Column>, k: nat)
    requires k < |cols| && !Hidden(cols[k])
    ensures ReadColumns(cols) ==
      ReadColumns(cols[..k]) + [ViewOfColumn(cols[k])] + ReadColumns(cols[k + 1..])
    ensures ReadColumns(cols[k := cols[k].(hidden := Some(true))]) ==
      ReadColumns(cols[..k]) + ReadColumns(cols[k + 1..])
  {
    var hid := cols[k := cols[k].(hidden := Some(true))];
    var pre, post := ReadColumns(cols[..k]), ReadColumns(cols[k + 1..]);
    ReadColumnsSplit(cols, k);
    ReadColumnsOne(cols[k]);
    assert ReadColumns(cols) == pre + [ViewOfColumn(cols[k])] + post;
    ReadColumnsSplit(hid, k);
    ReadColumnsOne(hid[k]);
    assert hid[..k] == cols[..k] && hid[k + 1..] == cols[k + 1..];
    assert ReadColumns(hid) == pre + [] + post;
    assert pre + [] == pre;
  }

  /** `readRows`: every row, in order; missing cells read as an empty map and a
      missing or zero timestamp as the current time `now`. */
  function ReadRows(rows: seq<Row>, now: int): (r: seq<RowView>)
    ensures |r| == |rows|
    ensures forall i :: 0 <= i < |rows| ==>
      r[i].id == rows[i].id
      && r[i].cells == rows[i].cells.GetOr(map[])
      && r[i].createdAt == NumberOr(rows[i].createdAt, now)
      && r[i].updatedAt == NumberOr(rows[i].updatedAt, now)
  {
    seq(|rows|, i requires 0 <= i < |rows| =>
      RowView(rows[i].id, rows[i].cells.GetOr(map[]),
              NumberOr(rows[i].createdAt, now), NumberOr(rows[i].updatedAt, now)))
  }

  function ColumnIds(cols: seq<Column>): seq<string> {
    seq(|cols|, i requires 0 <= i < |cols| => cols[i].id)
  }

  function RowIds(rows: seq<Row>): seq<string> {
    seq(|rows|, i requires 0 <= i < |rows| => rows[i].id)
  }

  /** `findIndex` by id: the first column with `id`, or -1. */
  function FindColumn(cols: seq<Column>, id: string): (k: int)
    ensures -1 <= k < |cols|
    ensures k == -1 <==> forall i :: 0 <= i < |cols| ==> cols[i].id != id
    ensures 0 <= k ==> cols[k].id == id && forall i :: 0 <= i < k ==> cols[i].id != id
  {
    var ids := ColumnIds(cols);
    var k := IndexOf(ids, id);
    assert forall i :: 0 <= i < |cols| ==> ids[i] == cols[i].id;
    assert 0 <= k ==> forall i :: 0 <= i < k ==> ids[..k][i] == ids[i];
    k
  }

  /** `findIndex` (and `find`) by id: the first row with `id`, or -1. */
  function FindRow(rows: seq<Row>, id: string): (k: int)
    ensures -1 <= k < |rows|
    ensures k == -1 <==> forall i :: 0 <= i < |rows| ==> rows[i].id != id
    ensures 0 <= k ==> rows[k].id == id && forall i :: 0 <= i < k ==> rows[i].id != id
  {
    var ids := RowIds(rows);
    var k := IndexOf(ids, id);
    assert forall i :: 0 <= i < |rows| ==> ids[i] == rows[i].id;
    assert 0 <= k ==> forall i :: 0 <= i < k ==> ids[..k][i] == ids[i];
    k
  }

  /** The row's cells, or none yet. */
  function CellsOf(r: Row): map<string, Json> {
    r.cells.GetOr(map[])
  }

  /** The column `ensureInitialized` creates in an empty document. */
  function NameColumn(id: string): Column {
    Column(id, Some("名称"), Some(Text), Some(DefaultColumnWidth), None, None)
  }

  /** The column `addColumn` appends. */
  function NewColumn(id: string): Column {
    Column(id, Some("新列"), Some(Text), Some(DefaultColumnWidth), None, None)
  }

  /** A fresh row with empty cells, created at `now`. */
  function EmptyRow(id: string, now: int): Row {
    Row(id, Some(map[]), Some(now), Some(now))
  }

  /** The body of `setCellValue` on the row it found: cells created if absent,
      the cell set, `updatedAt` refreshed. */
  function WithCell(r: Row, columnId: string, value: Json, now: int): (r': Row)
    ensures r'.id == r.id && r'.createdAt == r.createdAt && r'.updatedAt == Some(now)
    ensures r'.cells.Some? && columnId in r'.cells.value && r'.cells.value[columnId] == value
    ensures forall key :: key != columnId ==>
      (key in r'.cells.value <==> key in CellsOf(r))
      && (key in CellsOf(r) ==> r'.cells.value[key] == CellsOf(r)[key])
  {
    r.(cells := Some(CellsOf(r)[columnId := value]), updatedAt := Some(now))
  }

  /** The new width while dragging a column edge: `max(80, startWidth + delta)`. */
  function ResizedWidth(startWidth: int, delta: int): (w: int)
    ensures w >= MinColumnWidth && w >= startWidth + delta
    ensures w == MinColumnWidth || w == startWidth + delta
  {
    if startWidth + delta < MinColumnWidth then MinColumnWidth else startWidth + delta
  }

  /** A column of the default width follows the drag exactly unless that
      would make it narrower than the minimum, that is, for any widening and
      for shrinking by up to 70 pixels; beyond that it stays at 80. */
  lemma {:induction false} DefaultColumnFollowsDrag(delta: int)
    ensures ResizedWidth(DefaultColumnWidth, delta) == DefaultColumnWidth + delta
      <==> delta >= MinColumnWidth - DefaultColumnWidth
    ensures delta < MinColumnWidth - DefaultColumnWidth ==> ResizedWidth(DefaultColumnWidth, delta) == MinColumnWidth
    ensures MinColumnWidth - DefaultColumnWidth == -70
  {
  }

  /** One row of the cell copy in `handleCopy`: a row that has a cell under
      `src` gets the same value under `dst`; any other row is left as is. */
  function CopyCell(r: Row, src: string, dst: string): (r': Row)
    ensures r'.id == r.id && r'.createdAt == r.createdAt && r'.updatedAt == r.updatedAt
    ensures r.cells.Some? && src in r.cells.value ==>
      r'.cells.Some? && dst in r'.cells.value && r'.cells.value[dst] == r.cells.value[src]
      && forall key :: key != dst ==>
           (key in r'.cells.value <==> key in r.cells.value)
           && (key in r.cells.value ==> r'.cells.value[key] == r.cells.value[key])
    ensures !(r.cells.Some? && src in r.cells.value) ==> r' == r
  {
    if r.cells.Some? && src in r.cells.value
    then r.(cells := Some(r.cells.value[dst := r.cells.value[src]]))
    else r
  }

  /** All rows after the cell copy of `handleCopy`. */
  function CopiedCells(rows: seq<Row>, src: string, dst: string): (r: seq<Row>)
    ensures |r| == |rows| && RowIds(r) == RowIds(rows)
    ensures forall i :: 0 <= i < |rows| ==> r[i] == CopyCell(rows[i], src, dst)
  {
    seq(|rows|, i requires 0 <= i < |rows| => CopyCell(rows[i], src, dst))
  }

  /** The column `handleCopy` creates from the column being edited, as read:
      " copy" appended to the name, same type and width, and the option list
      (a deep copy, so an equal value) when there is one. */
  function CopyOfColumn(c: ColumnView, newId: string): (col: Column)
    ensures ViewOfColumn(col).name == c.name + " copy"
    ensures col.id == newId && !Hidden(col)
    ensures col.fieldType == Some(c.fieldType) && col.width == Some(c.width)
    ensures col.options == c.options
  {
    Column(newId, Some(c.name + " copy"), Some(c.fieldType), Some(c.width), c.options, None)
  }

  /** The four column edits of the field editor: rename, retype, replace the
      option list, hide. */
  datatype ColumnEdit =
    | Rename(newName: string)
    | Retype(newType: FieldType)
    | SetOptions(newOptions: seq<SelectOption>)
    | Hide

  function ApplyEdit(c: Column, e: ColumnEdit): (c': Column)
    ensures c'.id == c.id
    ensures e.Rename? ==> c' == c.(name := Some(e.newName))
    ensures e.Retype? ==> c' == c.(fieldType := Some(e.newType))
    ensures e.SetOptions? ==> c' == c.(options := Some(e.newOptions))
    ensures e == Hide ==> c' == c.(hidden := Some(true)) && Hidden(c')
  {
    match e
    case Rename(n) => c.(name := Some(n))
    case Retype(t) => c.(fieldType := Some(t))
    case SetOptions(o) => c.(options := Some(o))
    case Hide => c.(hidden := Some(true))
  }

  /** Deleting the first row with an id removes one occurrence of that id and
      keeps every other row in order. */
  lemma {:induction false} DeleteRemovesOneOccurrence(rows: seq<Row>, id: string)
    requires FindRow(rows, id) >= 0
    ensures var k := FindRow(rows, id);
      multiset(RowIds(RemoveAt(rows, k))) == multiset(RowIds(rows)) - multiset{id}
  {
    var k := FindRow(rows, id);
    var before, after := rows[..k], rows[k + 1..];
    assert rows == before + [rows[k]] + after;
    assert RemoveAt(rows, k) == before + after;
    RowIdsAppend(before + [rows[k]], after);
    RowIdsAppend(before, [rows[k]]);
    RowIdsAppend(before, after);
    assert RowIds([rows[k]]) == [id];
  }

  lemma {:induction false} RowIdsAppend(a: seq<Row>, b: seq<Row>)
    ensures RowIds(a + b) == RowIds(a) + RowIds(b)
  {
  }

  /** The shared table document of one embedded table, and the counter the
      view bumps on every document update. */
  class TableDoc {
    var columns: seq<Column>
    var rows: seq<Row>
    var version: nat

    /** `new Y.Doc()`. */
    constructor ()
      ensures columns == [] && rows == [] && version == 0
    {
      columns := [];
      rows := [];
      version := 0;
    }

    /** `ensureInitialized`: an empty column list gets one text column
        "名称" of width 150; independently, an empty row list gets one empty row.
        It runs before the update listener is attached, so `version` stays. */
    method EnsureInitialized(columnId: string, rowId: string, now: int)
      modifies this
      ensures columns != [] && rows != []
      ensures old(columns) == [] ==> columns == [NameColumn(columnId)]
      ensures old(columns) != [] ==> columns == old(columns)
      ensures old(rows) == [] ==> rows == [EmptyRow(rowId, now)]
      ensures old(rows) != [] ==> rows == old(rows)
      ensures version == old(version)
    {
      if |columns| == 0 {
        columns := columns + [NameColumn(columnId)];
      }
      if |rows| == 0 {
        rows := rows + [EmptyRow(rowId, now)];
      }
    }

    /** `setCellValue`: a no-op for an unknown row; otherwise only the first
        row with `rowId` changes. The column id is not checked. */
    method SetCellValue(rowId: string, columnId: string, value: Json, now: int)
      modifies this
      ensures columns == old(columns) && |rows| == |old(rows)|
      ensures FindRow(old(rows), rowId) == -1 ==> rows == old(rows) && version == old(version)
      ensures FindRow(old(rows), rowId) >= 0 ==>
        var k := FindRow(old(rows), rowId);
        rows == old(rows)[k := WithCell(old(rows)[k], columnId, value, now)]
        && version == old(version) + 1
    {
      var k := FindRow(rows, rowId);
      if k < 0 {
        return;
      }
      rows := rows[k := WithCell(rows[k], columnId, value, now)];
      version := version + 1;
    }

    /** `updateColumnOptions`: replaces the option list of the first column with
        `columnId`; a no-op for an unknown column. */
    method UpdateColumnOptions(columnId: string, options: seq<SelectOption>)
      modifies this
      ensures rows == old(rows) && |columns| == |old(columns)|
      ensures FindColumn(old(columns), columnId) == -1 ==> columns == old(columns) && version == old(version)
      ensures FindColumn(old(columns), columnId) >= 0 ==>
        var k := FindColumn(old(columns), columnId);
        columns == old(columns)[k := old(columns)[k].(options := Some(options))]
        && version == old(version) + 1
    {
      var k := FindColumn(columns, columnId);
      if k < 0 {
        return;
      }
      columns := columns[k := columns[k].(options := Some(options))];
      version := version + 1;
    }

    /** `addRow`: appends an empty row, only when the editor is editable. */
    method AddRow(editable: bool, rowId: string, now: int)
      modifies this
      ensures columns == old(columns)
      ensures !editable ==> rows == old(rows) && version == old(version)
      ensures editable ==> rows == old(rows) + [EmptyRow(rowId, now)] && version == old(version) + 1
    {
      if !editable {
        return;
      }
      rows := rows + [EmptyRow(rowId, now)];
      version := version + 1;
    }

    /** `addColumn`: appends a text column "新列" of width 150, only when editable. */
    method AddColumn(editable: bool, columnId: string)
      modifies this
      ensures rows == old(rows)
      ensures !editable ==> columns == old(columns) && version == old(version)
      ensures editable ==> columns == old(columns) + [NewColumn(columnId)] && version == old(version) + 1
    {
      if !editable {
        return;
      }
      columns := columns + [NewColumn(columnId)];
      version := version + 1;
    }

    /** `deleteColumn`: removes the first column with the id, if any. Cells of
        that column stay in every row. */
    method DeleteColumn(editable: bool, columnId: string)
      modifies this
      ensures rows == old(rows)
      ensures !editable || FindColumn(old(columns), columnId) == -1 ==>
        columns == old(columns) && version == old(version)
      ensures editable && FindColumn(old(columns), columnId) >= 0 ==>
        var k := FindColumn(old(columns), columnId);
        columns == RemoveAt(old(columns), k) && version == old(version) + 1
    {
      if !editable {
        return;
      }
      var k := FindColumn(columns, columnId);
      if k < 0 {
        return;
      }
      columns := RemoveAt(columns, k);
      version := version + 1;
    }

    /** `deleteRow`: removes the first row with the id, if any. */
    method DeleteRow(editable: bool, rowId: string)
      modifies this
      ensures columns == old(columns)
      ensures !editable || FindRow(old(rows), rowId) == -1 ==>
        rows == old(rows) && version == old(version)
      ensures editable && FindRow(old(rows), rowId) >= 0 ==>
        var k := FindRow(old(rows), rowId);
        rows == RemoveAt(old(rows), k) && version == old(version) + 1
    {
      if !editable {
        return;
      }
      var k := FindRow(rows, rowId);
      if k < 0 {
        return;
      }
      rows := RemoveAt(rows, k);
      version := version + 1;
    }

    /** `duplicateRow`: appends, at the end, a row with a fresh id and timestamps
        and a copy of the source row's cells; the source row stays as it was. */
    method DuplicateRow(editable: bool, rowId: string, newRowId: string, now: int)
      modifies this
      ensures columns == old(columns)
      ensures !editable || FindRow(old(rows), rowId) == -1 ==>
        rows == old(rows) && version == old(version)
      ensures editable && FindRow(old(rows), rowId) >= 0 ==>
        var source := old(rows)[FindRow(old(rows), rowId)];
        rows == old(rows) + [Row(newRowId, Some(CellsOf(source)), Some(now), Some(now))]
        && version == old(version) + 1
    {
      if !editable {
        return;
      }
      var k := FindRow(rows, rowId);
      if k < 0 {
        return;
      }
      var source := rows[k];
      var newCells: map<string, Json> := map[];
      if source.cells.Some? {
        var sourceCells := source.cells.value;
        var pending := sourceCells.Keys;
        while pending != {}
          invariant pending <= sourceCells.Keys
          invariant forall key :: key in newCells <==> key in sourceCells && key !in pending
          invariant forall key :: key in newCells ==> newCells[key] == sourceCells[key]
          decreases pending
        {
          var key :| key in pending;
          newCells := newCells[key := sourceCells[key]];
          pending := pending - {key};
        }
        assert newCells == sourceCells;
      }
      rows := rows + [Row(newRowId, Some(newCells), Some(now), Some(now))];
      version := version + 1;
    }

    /** `insertRowAbove` (`below == false`) and `insertRowBelow`: a fresh empty
        row at the target's index, or the index after it; an unknown target is a no-op. */
    method InsertRow(editable: bool, rowId: string, below: bool, newRowId: string, now: int)
      modifies this
      ensures columns == old(columns)
      ensures !editable || FindRow(old(rows), rowId) == -1 ==>
        rows == old(rows) && version == old(version)
      ensures editable && FindRow(old(rows), rowId) >= 0 ==>
        var k := FindRow(old(rows), rowId) + (if below then 1 else 0);
        rows == InsertAt(old(rows), k, EmptyRow(newRowId, now))
        && version == old(version) + 1
    {
      if !editable {
        return;
      }
      var k := FindRow(rows, rowId);
      if k < 0 {
        return;
      }
      var at := if below then k + 1 else k;
      rows := InsertAt(rows, at, EmptyRow(newRowId, now));
      version := version + 1;
    }

    /** `handleResizeMove`: while a column is being resized, its width becomes
        `max(80, startWidth + delta)`. */
    method ResizeMove(resizingColumnId: Option<string>, startWidth: int, delta: int)
      modifies this
      ensures rows == old(rows) && |columns| == |old(columns)|
      ensures !Truthy(resizingColumnId) || FindColumn(old(columns), resizingColumnId.value) == -1 ==>
        columns == old(columns) && version == old(version)
      ensures Truthy(resizingColumnId) && FindColumn(old(columns), resizingColumnId.value) >= 0 ==>
        var k := FindColumn(old(columns), resizingColumnId.value);
        columns == old(columns)[k := old(columns)[k].(width := Some(ResizedWidth(startWidth, delta)))]
        && version == old(version) + 1
    {
      if !Truthy(resizingColumnId) {
        return;
      }
      var newWidth := ResizedWidth(startWidth, delta);
      var k := FindColumn(columns, resizingColumnId.value);
      if k >= 0 {
        columns := columns[k := columns[k].(width := Some(newWidth))];
        version := version + 1;
      }
    }

    /** The field editor's `handleNameChange`, `handleTypeChange`,
        `handleUpdateOptions` and `handleHide`: one key of the edited column is
        set; rows are never touched. */
    method EditColumn(columnId: string, e: ColumnEdit)
      modifies this
      ensures rows == old(rows) && |columns| == |old(columns)|
      ensures FindColumn(old(columns), columnId) == -1 ==> columns == old(columns) && version == old(version)
      ensures FindColumn(old(columns), columnId) >= 0 ==>
        var k := FindColumn(old(columns), columnId);
        columns == old(columns)[k := ApplyEdit(old(columns)[k], e)]
        && version == old(version) + 1
    {
      var k := FindColumn(columns, columnId);
      if k < 0 {
        return;
      }
      columns := columns[k := ApplyEdit(columns[k], e)];
      version := version + 1;
    }

    /** The field editor's `handleCopy`: the copy goes right after the original
        (or at the end when the original is gone), and in one transaction every
        row that has a cell for the original gets the same value under the new id. */
    method CopyColumn(column: ColumnView, newColumnId: string)
      modifies this
      ensures var k := FindColumn(old(columns), column.id);
        columns == (if k != -1 then InsertAt(old(columns), k + 1, CopyOfColumn(column, newColumnId))
                    else old(columns) + [CopyOfColumn(column, newColumnId)])
      ensures rows == CopiedCells(old(rows), column.id, newColumnId)
      ensures version == old(version) + 1
    {
      var newCol := CopyOfColumn(column, newColumnId);
      var k := FindColumn(columns, column.id);
      if k != -1 {
        columns := InsertAt(columns, k + 1, newCol);
      } else {
        columns := columns + [newCol];
      }
      ghost var before := rows;
      ghost var newColumns := columns;
      var i := 0;
      while i < |rows|
        invariant columns == newColumns && version == old(version)
        invariant |rows| == |before| && 0 <= i <= |rows|
        invariant forall j :: 0 <= j < i ==> rows[j] == CopyCell(before[j], column.id, newColumnId)
        invariant forall j :: i <= j < |rows| ==> rows[j] == before[j]
      {
        rows := rows[i := CopyCell(rows[i], column.id, newColumnId)];
        i := i + 1;
      }
      assert rows == CopiedCells(before, column.id, newColumnId);
      version := version + 1;
    }
  }
}
