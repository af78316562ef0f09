/** Constants, field types, the option palette and the filter-operator table of
    the embedded table ("doc database"). */
module DatabaseConstants {

  // Grid sizes, in pixels.
  const HeaderHeight: nat := 36
  const CellHPadding: nat := 10
  const CellVPadding: nat := 8
  const MinColumnWidth: nat := 80
  const DefaultColumnWidth: nat := 150
  const NewColumnBtnWidth: nat := 80
  const RowActionsWidth: nat := 52
  const AddRowBtnHeight: nat := 36

  /** The eleven field types a column can have. */
  datatype FieldType =
    | Text | Number | Date | Select | MultiSelect | Checkbox
    | Url | File | Page | CreatedTime | UpdatedTime

  datatype FieldTypeOption = FieldTypeOption(value: FieldType, caption: string)

  /** The type menu, in display order. */
  const FieldTypeOptions: seq<FieldTypeOption> := [
    FieldTypeOption(Text, "文本"),
    FieldTypeOption(Number, "数字"),
    FieldTypeOption(Date, "日期"),
    FieldTypeOption(Select, "单选"),
    FieldTypeOption(MultiSelect, "多选"),
    FieldTypeOption(Checkbox, "复选"),
    FieldTypeOption(Url, "链接"),
    FieldTypeOption(File, "文件"),
    FieldTypeOption(Page, "页面"),
    FieldTypeOption(CreatedTime, "创建时间"),
    FieldTypeOption(UpdatedTime, "修改时间")
  ]

  /** The menu offers every field type, each exactly once. */
  lemma {:induction false} FieldTypeOptionsListEachOnce(t: FieldType)
    ensures |FieldTypeOptions| == 11
    ensures exists i :: 0 <= i < |FieldTypeOptions| && FieldTypeOptions[i].value == t
    ensures forall i, j :: 0 <= i < j < |FieldTypeOptions| ==> FieldTypeOptions[i].value != FieldTypeOptions[j].value
  {
    match t
    case Text => assert FieldTypeOptions[0].value == t;
    case Number => assert FieldTypeOptions[1].value == t;
    case Date => assert FieldTypeOptions[2].value == t;
    case Select => assert FieldTypeOptions[3].value == t;
    case MultiSelect => assert FieldTypeOptions[4].value == t;
    case Checkbox => assert FieldTypeOptions[5].value == t;
    case Url => assert FieldTypeOptions[6].value == t;
    case File => assert FieldTypeOptions[7].value == t;
    case Page => assert FieldTypeOptions[8].value == t;
    case CreatedTime => assert FieldTypeOptions[9].value == t;
    case UpdatedTime => assert FieldTypeOptions[10].value == t;
  }

  /** An option of a select or multi-select column. */
  datatype SelectOption = SelectOption(id: string, caption: string, color: string)

  /** The eight-colour option palette. */
  const OptionColors: seq<string> := [
    "#FF6B6B", "#FFA94D", "#FFD43B", "#69DB7C",
    "#4DABF7", "#9775FA", "#F783AC", "#868E96"
  ]

  /** `OPTION_COLORS[Math.floor(Math.random() * OPTION_COLORS.length)]`, with the
      value of `Math.random()` passed in as `random`. */
  function RandomOptionColor(random: real): (color: string)
    requires 0.0 <= random < 1.0
    ensures color in OptionColors
  {
    var i := (random * |OptionColors| as real).Floor;
    assert 0 <= i < |OptionColors|;
    OptionColors[i]
  }

  datatype FilterOperator =
    | Contains | NotContains | Equals | NotEquals | IsEmpty | IsNotEmpty
    | GreaterThan | LessThan | IsChecked | IsUnchecked

  datatype FilterOperatorOption = FilterOperatorOption(value: FilterOperator, caption: string, needsValue: bool)

  const TextOperators: seq<FilterOperatorOption> := [
    FilterOperatorOption(Contains, "包含", true),
    FilterOperatorOption(NotContains, "不包含", true),
    FilterOperatorOption(Equals, "等于", true),
    FilterOperatorOption(NotEquals, "不等于", true),
    FilterOperatorOption(IsEmpty, "为空", false),
    FilterOperatorOption(IsNotEmpty, "不为空", false)
  ]

  const NumberOperators: seq<FilterOperatorOption> := [
    FilterOperatorOption(Equals, "等于", true),
    FilterOperatorOption(NotEquals, "不等于", true),
    FilterOperatorOption(GreaterThan, "大于", true),
    FilterOperatorOption(LessThan, "小于", true),
    FilterOperatorOption(IsEmpty, "为空", false),
    FilterOperatorOption(IsNotEmpty, "不为空", false)
  ]

  const DateOperators: seq<FilterOperatorOption> := [
    FilterOperatorOption(Equals, "等于", true),
    FilterOperatorOption(GreaterThan, "晚于", true),
    FilterOperatorOption(LessThan, "早于", true),
    FilterOperatorOption(IsEmpty, "为空", false),
    FilterOperatorOption(IsNotEmpty, "不为空", false)
  ]

  const CheckboxOperators: seq<FilterOperatorOption> := [
    FilterOperatorOption(IsChecked, "已勾选", false),
    FilterOperatorOption(IsUnchecked, "未勾选", false)
  ]

  const SelectOperators: seq<FilterOperatorOption> := [
    FilterOperatorOption(Equals, "等于", true),
    FilterOperatorOption(NotEquals, "不等于", true),
    FilterOperatorOption(IsEmpty, "为空", false),
    FilterOperatorOption(IsNotEmpty, "不为空", false)
  ]

  function OperatorsForFieldType(t: FieldType): seq<FilterOperatorOption> {
    match t
    case Text | Url | File | Page => TextOperators
    case Number => NumberOperators
    case Date | CreatedTime | UpdatedTime => DateOperators
    case Checkbox => CheckboxOperators
    case Select | MultiSelect => SelectOperators
  }

  /** Whether a filter type is offered for a field type. */
  predicate Offers(t: FieldType, op: FilterOperator) {
    exists i | 0 <= i < |OperatorsForFieldType(t)| :: OperatorsForFieldType(t)[i].value == op
  }

  /** The operators that test a cell without a comparison value. */
  predicate IsUnary(op: FilterOperator) {
    op == IsEmpty || op == IsNotEmpty || op == IsChecked || op == IsUnchecked
  }

  /** A checkbox column is filtered by "checked" and "unchecked" only, and
      neither needs a value. */
  lemma CheckboxOperatorsAreCheckedAndUnchecked()
    ensures |OperatorsForFieldType(Checkbox)| == 2
    ensures OperatorsForFieldType(Checkbox)[0].value == IsChecked
    ensures OperatorsForFieldType(Checkbox)[1].value == IsUnchecked
    ensures forall o :: o in OperatorsForFieldType(Checkbox) ==> !o.needsValue
  {
  }

  /** In every list, an operator asks for a value exactly when it is not unary. */
  lemma {:induction false} NeedsValueExactlyForBinary(t: FieldType)
    ensures forall o :: o in OperatorsForFieldType(t) ==> (o.needsValue <==> !IsUnary(o.value))
  {
    var ops := OperatorsForFieldType(t);
    assert ValueFlagsAgree(ops) by {
      match t
      case Text | Url | File | Page =>
        assert ValueFlagsAgree(TextOperators);
      case Number =>
        assert ValueFlagsAgree(NumberOperators);
      case Date | CreatedTime | UpdatedTime =>
        assert ValueFlagsAgree(DateOperators);
      case Checkbox =>
        assert ValueFlagsAgree(CheckboxOperators);
      case Select | MultiSelect =>
        assert ValueFlagsAgree(SelectOperators);
    }
    forall o | o in ops ensures o.needsValue <==> !IsUnary(o.value) {
      var i :| 0 <= i < |ops| && ops[i] == o;
    }
  }

  /** Position by position, the value flag is the negation of unary. */
  predicate ValueFlagsAgree(ops: seq<FilterOperatorOption>) {
    forall i :: 0 <= i < |ops| ==> (ops[i].needsValue <==> !IsUnary(ops[i].value))
  }

  /** Every field type except checkbox can be filtered for "empty" and "not empty". */
  lemma {:induction false} EmptinessOfferedExceptForCheckbox(t: FieldType)
    ensures t != Checkbox <==> Offers(t, IsEmpty)
    ensures t != Checkbox <==> Offers(t, IsNotEmpty)
  {
    var ops := OperatorsForFieldType(t);
    if t != Checkbox {
      if t == Text || t == Url || t == File || t == Page { assert ops[4].value == IsEmpty && ops[5].value == IsNotEmpty; }
      else if t == Number { assert ops[4].value == IsEmpty && ops[5].value == IsNotEmpty; }
      else if t == Date || t == CreatedTime || t == UpdatedTime { assert ops[3].value == IsEmpty && ops[4].value == IsNotEmpty; }
      else { assert ops[2].value == IsEmpty && ops[3].value == IsNotEmpty; }
    }
  }

  /** Only numbers and the date-like types are compared by order. */
  lemma {:induction false} OrderingOnlyForNumbersAndDates(t: FieldType)
    ensures Offers(t, GreaterThan) <==> t in {Number, Date, CreatedTime, UpdatedTime}
    ensures Offers(t, LessThan) <==> t in {Number, Date, CreatedTime, UpdatedTime}
  {
    var ops := OperatorsForFieldType(t);
    if t == Number { assert ops[2].value == GreaterThan && ops[3].value == LessThan; }
    else if t == Date || t == CreatedTime || t == UpdatedTime { assert ops[1].value == GreaterThan && ops[2].value == LessThan; }
  }

  /** text, url, file and page share one list; the three date-like types share another. */
  lemma SharedOperatorLists()
    ensures OperatorsForFieldType(Url) == OperatorsForFieldType(Text)
    ensures OperatorsForFieldType(File) == OperatorsForFieldType(Text)
    ensures OperatorsForFieldType(Page) == OperatorsForFieldType(Text)
    ensures OperatorsForFieldType(CreatedTime) == OperatorsForFieldType(Date)
    ensures OperatorsForFieldType(UpdatedTime) == OperatorsForFieldType(Date)
    ensures OperatorsForFieldType(MultiSelect) == OperatorsForFieldType(Select)
  {
  }
}
