/** The option-list editor of select columns (`OptionsManager`) and the tag
    picker of a multi-select cell (`MultiSelectCell`). Each handler computes the
    value it passes to `onUpdateOptions` (which writes the column's option list)
    and to `onChange` (which writes the cell); `None` means the callback is not
    called. */
module SelectOptions {
  import opened Wrappers
  import opened Json
  import opened Seqs
  import opened Strings
  import opened DatabaseConstants

  /** `options.filter(o => o.id !== id)`. */
  function WithoutOption(options: seq<SelectOption>, id: string): (r: seq<SelectOption>)
    ensures |r| <= |options|
    ensures forall o :: o in r ==> o in options && o.id != id
    ensures forall o :: o in options && o.id != id ==> o in r
    ensures (forall o :: o in options ==> o.id != id) ==> r == options
  {
    if options == [] then []
    else if options[0].id == id then WithoutOption(options[1..], id)
    else [options[0]] + WithoutOption(options[1..], id)
  }

  /** The filter keeps the remaining options in their order, each as often as
      it occurred. */
  lemma {:induction false} WithoutOptionIsFilter(options: seq<SelectOption>, id: string)
    ensures IsSubsequence(WithoutOption(options, id), options)
    ensures forall o: SelectOption :: o.id != id ==> multiset(WithoutOption(options, id))[o] == multiset(options)[o]
    decreases |options|
  {
    if options != [] {
      var r := WithoutOption(options, id);
      WithoutOptionIsFilter(options[1..], id);
      assert options == [options[0]] + options[1..];
      if options[0].id != id {
        assert r[0] == options[0] && r[1..] == WithoutOption(options[1..], id);
      }
    }
  }

  /** Filtering distributes over concatenation. */
  lemma {:induction false} WithoutOptionAppend(a: seq<SelectOption>, b: seq<SelectOption>, id: string)
    ensures WithoutOption(a + b, id) == WithoutOption(a, id) + WithoutOption(b, id)
  {
    if a == [] {
      assert a + b == b;
    } else {
      assert (a + b)[1..] == a[1..] + b;
      WithoutOptionAppend(a[1..], b, id);
    }
  }

  /** `handleSaveEdit`: with an edited option and a non-blank value, every
      option with that id gets the trimmed label; otherwise nothing is written. */
  function SaveEdit(options: seq<SelectOption>, editingId: Option<string>, editingValue: string)
    : (r: Option<seq<SelectOption>>)
    ensures r.Some? <==> Truthy(editingId) && Trim(editingValue) != ""
    ensures r.Some? ==>
      |r.value| == |options| && forall i :: 0 <= i < |options| ==>
      r.value[i].id == options[i].id && r.value[i].color == options[i].color
      && r.value[i].caption == (if options[i].id == editingId.value then Trim(editingValue) else options[i].caption)
  {
    if Truthy(editingId) && Trim(editingValue) != "" then
      Some(seq(|options|, i requires 0 <= i < |options| =>
        if options[i].id == editingId.value then options[i].(caption := Trim(editingValue)) else options[i]))
    else None
  }

  /** `handleUpdateColor` (and the cell's `handleUpdateOptionColor`): only the
      colour of the options with that id changes. */
  function Recolor(options: seq<SelectOption>, optionId: string, color: string): (r: seq<SelectOption>)
    ensures |r| == |options|
    ensures forall i :: 0 <= i < |options| ==>
      r[i].id == options[i].id && r[i].caption == options[i].caption
      && (options[i].id == optionId ==> r[i].color == color)
      && (options[i].id != optionId ==> r[i] == options[i])
  {
    seq(|options|, i requires 0 <= i < |options| =>
      if options[i].id == optionId then options[i].(color := color) else options[i])
  }

  /** The cell's `handleUpdateOptionLabel`: the new label is stored as typed,
      without trimming. */
  function Relabel(options: seq<SelectOption>, optionId: string, newLabel: string): (r: seq<SelectOption>)
    ensures |r| == |options|
    ensures forall i :: 0 <= i < |options| ==>
      r[i].id == options[i].id && r[i].color == options[i].color
      && (options[i].id == optionId ==> r[i].caption == newLabel)
      && (options[i].id != optionId ==> r[i] == options[i])
  {
    seq(|options|, i requires 0 <= i < |options| =>
      if options[i].id == optionId then options[i].(caption := newLabel) else options[i])
  }

  /** `handleDelete`: the option list without that option. Cells that selected
      it keep the id. */
  function DeleteOption(options: seq<SelectOption>, optionId: string): (r: seq<SelectOption>)
    ensures forall o :: o in r ==> o.id != optionId
    ensures forall o :: o in options ==> (o in r <==> o.id != optionId)
    ensures IsSubsequence(r, options)
    ensures forall o: SelectOption :: o.id != optionId ==> multiset(r)[o] == multiset(options)[o]
  {
    WithoutOptionIsFilter(options, optionId);
    WithoutOption(options, optionId)
  }

  /** `handleAddNew`: a non-blank label appends an option with the fresh id
      `newId`, the trimmed label and the colour drawn by the caller. */
  function AddOption(options: seq<SelectOption>, text: string, newId: string, color: string)
    : (r: Option<seq<SelectOption>>)
    ensures r.Some? <==> Trim(text) != ""
    ensures r.Some? ==>
      |r.value| == |options| + 1 && r.value[..|options|] == options
      && r.value[|options|] == SelectOption(newId, Trim(text), color)
  {
    if Trim(text) != "" then Some(options + [SelectOption(newId, Trim(text), color)]) else None
  }

  /** `Array.isArray(value) ? value : []`. */
  function SelectedIds(value: Json): seq<Json> {
    if value.JArray? then value.items else []
  }

  /** `handleToggle`: a selected id is removed wherever it occurs, the other
      ids keeping their order and their repetitions; an unselected one is
      appended. */
  function Toggle(selected: seq<Json>, optionId: string): (r: seq<Json>)
    ensures JString(optionId) in selected ==>
      JString(optionId) !in r && IsSubsequence(r, selected)
      && (forall x :: x != JString(optionId) ==> (x in r <==> x in selected))
      && forall x :: x != JString(optionId) ==> multiset(r)[x] == multiset(selected)[x]
    ensures JString(optionId) !in selected ==> r == selected + [JString(optionId)]
  {
    if JString(optionId) in selected then
      WithoutIsFilter(selected, JString(optionId));
      Without(selected, JString(optionId))
    else selected + [JString(optionId)]
  }

  /** Toggling an unselected tag twice gives back the selection. */
  lemma {:induction false} ToggleTwiceRestores(selected: seq<Json>, optionId: string)
    requires JString(optionId) !in selected
    ensures Toggle(Toggle(selected, optionId), optionId) == selected
  {
    var x := JString(optionId);
    WithoutAppend(selected, [x], x);
    assert Without([x], x) == [];
  }

  /** The first option whose lowercased label is `key`. */
  function FirstWithLabel(options: seq<SelectOption>, key: string): (m: Option<SelectOption>)
    ensures m.Some? ==> m.value in options && ToLower(m.value.caption) == key
    ensures m.None? ==> forall o :: o in options ==> ToLower(o.caption) != key
    ensures m.Some? ==> exists k :: (0 <= k < |options| && options[k] == m.value
      && forall j :: 0 <= j < k ==> ToLower(options[j].caption) != key)
  {
    if options == [] then None
    else if ToLower(options[0].caption) == key then Some(options[0])
    else FirstWithLabel(options[1..], key)
  }

  /** `exactMatch`: the first option whose lowercased label equals the trimmed,
      lowercased search text. */
  function ExactMatch(options: seq<SelectOption>, search: string): (m: Option<SelectOption>)
    ensures m.Some? ==> m.value in options && ToLower(m.value.caption) == ToLower(Trim(search))
    ensures m.None? ==> forall o :: o in options ==> ToLower(o.caption) != ToLower(Trim(search))
    ensures m.Some? ==> exists k :: (0 <= k < |options| && options[k] == m.value
      && forall j :: 0 <= j < k ==> ToLower(options[j].caption) != ToLower(Trim(search)))
  {
    FirstWithLabel(options, ToLower(Trim(search)))
  }

  /** What a handler of the cell writes back: the column's option list and/or the
      cell's selection. */
  datatype CellWrites = CellWrites(options: Option<seq<SelectOption>>, selection: Option<seq<Json>>)

  /** `handleCreate` (Enter): nothing for a blank search; an exact match is
      selected unless it already is; otherwise a new option with the trimmed
      text is appended to the options and its id to the selection. */
  function Create(options: seq<SelectOption>, selected: seq<Json>, search: string, newId: string, color: string)
    : (w: CellWrites)
    ensures Trim(search) == "" ==> w == CellWrites(None, None)
    ensures Trim(search) != "" && ExactMatch(options, search).Some? ==>
      var m := ExactMatch(options, search).value;
      w.options.None?
      && (JString(m.id) in selected ==> w.selection.None?)
      && (JString(m.id) !in selected ==> w.selection == Some(selected + [JString(m.id)]))
    ensures Trim(search) != "" && ExactMatch(options, search).None? ==>
      w.options == Some(options + [SelectOption(newId, Trim(search), color)])
      && w.selection == Some(selected + [JString(newId)])
  {
    if Trim(search) == "" then CellWrites(None, None)
    else
      match ExactMatch(options, search)
      case Some(m) =>
        if JString(m.id) !in selected then CellWrites(None, Some(Toggle(selected, m.id)))
        else CellWrites(None, None)
      case None =>
        CellWrites(Some(options + [SelectOption(newId, Trim(search), color)]),
                   Some(selected + [JString(newId)]))
  }

  /** Appending an option after a list with no match makes it the first match. */
  lemma {:induction false} FirstWithLabelAfterNoMatch(options: seq<SelectOption>, o: SelectOption, key: string)
    requires forall p :: p in options ==> ToLower(p.caption) != key
    requires ToLower(o.caption) == key
    ensures FirstWithLabel(options + [o], key) == Some(o)
  {
    if options == [] {
      assert options + [o] == [o];
    } else {
      assert (options + [o])[0] == options[0];
      assert (options + [o])[1..] == options[1..] + [o];
      FirstWithLabelAfterNoMatch(options[1..], o, key);
    }
  }

  /** A created option is found again by its label: after `Create` adds an
      option, the same search matches exactly that new option. */
  lemma {:induction false} CreatedOptionMatches(options: seq<SelectOption>, selected: seq<Json>, search: string, newId: string, color: string)
    requires Trim(search) != ""
    ensures var w := Create(options, selected, search, newId, color);
      w.options.Some? ==> ExactMatch(w.options.value, search) == Some(SelectOption(newId, Trim(search), color))
  {
    var w := Create(options, selected, search, newId, color);
    if w.options.Some? {
      var n := SelectOption(newId, Trim(search), color);
      assert w.options.value == options + [n];
      FirstWithLabelAfterNoMatch(options, n, ToLower(Trim(search)));
    }
  }

  /** `handleDeleteOption`: the option leaves the column's list and, when this
      cell had selected it, this cell's selection. */
  function DeleteOptionInCell(options: seq<SelectOption>, selected: seq<Json>, optionId: string)
    : (w: CellWrites)
    ensures w.options == Some(DeleteOption(options, optionId))
    ensures w.selection.Some? <==> JString(optionId) in selected
    ensures w.selection.Some? ==>
      JString(optionId) !in w.selection.value && IsSubsequence(w.selection.value, selected)
      && (forall x :: x != JString(optionId) ==> (x in w.selection.value <==> x in selected))
      && forall x :: x != JString(optionId) ==> multiset(w.selection.value)[x] == multiset(selected)[x]
  {
    WithoutIsFilter(selected, JString(optionId));
    CellWrites(Some(DeleteOption(options, optionId)),
               if JString(optionId) in selected then Some(Without(selected, JString(optionId))) else None)
  }

  /** Backspace in an empty search drops the last selected tag. */
  function Backspace(search: string, selected: seq<Json>): (r: Option<seq<Json>>)
    ensures r.Some? <==> search == "" && |selected| > 0
    ensures r.Some? ==> selected == r.value + [selected[|selected| - 1]]
  {
    if search == "" && |selected| > 0 then Some(selected[..|selected| - 1]) else None
  }
}
