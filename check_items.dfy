/** Check items of the heatstroke check sheet master editor: the item record,
    its answer configuration (response type, options, normal value), and the
    pure updaters the editor hands to its item store. */
module CheckItems {

  /** Item and pattern identifiers. The editor draws them from a counter. */
  type Id = nat

  datatype Option<T> = None | Some(value: T)

  datatype ResponseType = FreeText | SingleChoice | Temperature | Numeric

  /** The acceptable answer of an item: one chosen option, or a min/max
      range. Range bounds are the raw strings picked in the editor. */
  datatype NormalValue =
    | SingleChoiceNormal(selectedOption: string)
    | RangeNormal(min: string, max: string)

  datatype CheckItem = CheckItem(
    id: Id,
    name: string,
    responseType: ResponseType,
    options: seq<string>,
    normalValue: Option<NormalValue>)

  predicate IsChoice(nv: Option<NormalValue>) {
    nv.Some? && nv.value.SingleChoiceNormal?
  }

  predicate IsRange(nv: Option<NormalValue>) {
    nv.Some? && nv.value.RangeNormal?
  }

  /** A selection is acceptable when it is empty or names an existing option. */
  predicate SelectionValid(selected: string, options: seq<string>) {
    selected == "" || selected in options
  }

  /** The item invariant: the kind of the normal value matches the response
      type, and a single-choice selection refers to an existing option. */
  predicate Consistent(item: CheckItem) {
    match item.responseType
    case FreeText => item.normalValue.None?
    case SingleChoice =>
      IsChoice(item.normalValue) && SelectionValid(item.normalValue.value.selectedOption, item.options)
    case Temperature => IsRange(item.normalValue)
    case Numeric => IsRange(item.normalValue)
  }

  /** The answer configuration: everything but the id and the name. */
  predicate SameAnswer(a: CheckItem, b: CheckItem) {
    a.responseType == b.responseType && a.options == b.options && a.normalValue == b.normalValue
  }

  /** The defaults of a newly added item. */
  predicate IsBlank(item: CheckItem) {
    item.name == "" && item.responseType == FreeText && item.options == [""] && item.normalValue == None
  }

  function CreateItem(id: Id): (r: CheckItem)
    ensures r.id == id && IsBlank(r) && Consistent(r)
  {
    CheckItem(id, "", FreeText, [""], None)
  }

  /** The name field's updater. */
  function Rename(item: CheckItem, name: string): (r: CheckItem)
    ensures r.id == item.id && r.name == name && SameAnswer(r, item)
    ensures Consistent(r) <==> Consistent(item)
  {
    item.(name := name)
  }

  /** Switching the response type starts the answer configuration over. */
  function ChangeResponseType(item: CheckItem, t: ResponseType): (r: CheckItem)
    ensures r.id == item.id && r.name == item.name && r.responseType == t
    ensures Consistent(r)
    ensures t == SingleChoice ==>
              r.options == (if |item.options| > 0 then item.options else [""]) &&
              r.normalValue == Some(SingleChoiceNormal(""))
    ensures (t == Temperature || t == Numeric) ==>
              r.options == [] && r.normalValue == Some(RangeNormal("", ""))
    ensures t == FreeText ==> r.options == [] && r.normalValue == None
  {
    if t == SingleChoice then
      item.(responseType := t,
            options := if |item.options| > 0 then item.options else [""],
            normalValue := Some(SingleChoiceNormal("")))
    else if t == Temperature || t == Numeric then
      item.(responseType := t, options := [], normalValue := Some(RangeNormal("", "")))
    else
      item.(responseType := t, options := [], normalValue := None)
  }

  /** The result of a type change depends on the old item only through its
      id, its name and, for single choice, its options. */
  lemma ChangeResponseTypeIgnoresOldAnswer(a: CheckItem, b: CheckItem, t: ResponseType)
    requires a.id == b.id && a.name == b.name
    requires t == SingleChoice ==> a.options == b.options
    ensures ChangeResponseType(a, t) == ChangeResponseType(b, t)
  {
  }

  lemma ChangeResponseTypeIdempotent(item: CheckItem, t: ResponseType)
    ensures ChangeResponseType(ChangeResponseType(item, t), t) == ChangeResponseType(item, t)
  {
  }

  /** Keeps a single-choice selection pointing at an existing option: a
      selection missing from `options` is reset to "", anything else stays. */
  function KeepSelection(nv: Option<NormalValue>, options: seq<string>): (r: Option<NormalValue>)
    ensures IsChoice(r) == IsChoice(nv) && IsRange(r) == IsRange(nv)
    ensures IsChoice(r) ==> SelectionValid(r.value.selectedOption, options)
    ensures IsChoice(nv) && nv.value.selectedOption in options ==> r == nv
    ensures IsChoice(nv) && nv.value.selectedOption !in options ==> r == Some(SingleChoiceNormal(""))
    ensures !IsChoice(nv) ==> r == nv
  {
    if IsChoice(nv) && nv.value.selectedOption !in options then Some(SingleChoiceNormal("")) else nv
  }

  /** Replaces the options and repairs the selection (the shared tail of the
      option edit and option remove updaters). */
  function WithOptions(item: CheckItem, options: seq<string>): (r: CheckItem)
    ensures r.id == item.id && r.name == item.name && r.responseType == item.responseType
    ensures r.options == options
    ensures r.normalValue == KeepSelection(item.normalValue, options)
    ensures Consistent(item) ==> Consistent(r)
  {
    item.(options := options, normalValue := KeepSelection(item.normalValue, options))
  }

  /** Edits the option at index `i`; the index always comes from the rendered
      option list. */
  function EditOption(item: CheckItem, i: nat, value: string): (r: CheckItem)
    requires i < |item.options|
    ensures r.id == item.id && r.name == item.name && r.responseType == item.responseType
    ensures |r.options| == |item.options| && r.options[i] == value
    ensures forall k :: 0 <= k < |item.options| && k != i ==> r.options[k] == item.options[k]
    ensures IsChoice(r.normalValue) ==> SelectionValid(r.normalValue.value.selectedOption, r.options)
    ensures !IsChoice(item.normalValue) ==> r.normalValue == item.normalValue
    ensures r.normalValue == KeepSelection(item.normalValue, r.options)
    ensures IsChoice(item.normalValue) && item.normalValue.value.selectedOption in r.options ==>
              r.normalValue == item.normalValue
    ensures Consistent(item) ==> Consistent(r)
  {
    WithOptions(item, item.options[i := value])
  }

  /** The options without the one at index `i` (an index past the end removes
      nothing, as the index filter does). */
  function RemoveAt(options: seq<string>, i: nat): (r: seq<string>)
    ensures i < |options| ==> |r| == |options| - 1
    ensures i < |options| ==> forall k :: 0 <= k < |r| ==> r[k] == if k < i then options[k] else options[k + 1]
    ensures i >= |options| ==> r == options
  {
    if i < |options| then options[..i] + options[i + 1..] else options
  }

  function RemoveOption(item: CheckItem, i: nat): (r: CheckItem)
    ensures r.id == item.id && r.name == item.name && r.responseType == item.responseType
    ensures r.options == RemoveAt(item.options, i)
    ensures IsChoice(r.normalValue) ==> SelectionValid(r.normalValue.value.selectedOption, r.options)
    ensures !IsChoice(item.normalValue) ==> r.normalValue == item.normalValue
    ensures r.normalValue == KeepSelection(item.normalValue, r.options)
    ensures IsChoice(item.normalValue) && item.normalValue.value.selectedOption in r.options ==>
              r.normalValue == item.normalValue
    ensures Consistent(item) ==> Consistent(r)
  {
    WithOptions(item, RemoveAt(item.options, i))
  }

  function AppendOption(item: CheckItem): (r: CheckItem)
    ensures r.id == item.id && r.name == item.name && r.responseType == item.responseType
    ensures r.options == item.options + [""] && r.normalValue == item.normalValue
    ensures Consistent(item) ==> Consistent(r)
  {
    item.(options := item.options + [""])
  }

  /** Picks the single-choice normal value. The result is consistent exactly
      when the item is single choice and the value is "" or an option. */
  function SelectNormal(item: CheckItem, value: string): (r: CheckItem)
    ensures r.id == item.id && r.name == item.name && r.responseType == item.responseType
    ensures r.options == item.options && r.normalValue == Some(SingleChoiceNormal(value))
    ensures Consistent(r) <==> item.responseType == SingleChoice && SelectionValid(value, item.options)
  {
    item.(normalValue := Some(SingleChoiceNormal(value)))
  }

  /** The lower bound the range editor shows: the stored min, or "". */
  function RangeMin(nv: Option<NormalValue>): string {
    if IsRange(nv) then nv.value.min else ""
  }

  /** The upper bound the range editor shows: the stored max, or "". */
  function RangeMax(nv: Option<NormalValue>): string {
    if IsRange(nv) then nv.value.max else ""
  }

  /** Sets the lower bound and keeps the upper one. Used by both the
      temperature and the numeric editor; min <= max is not checked. */
  function SetRangeMin(item: CheckItem, value: string): (r: CheckItem)
    ensures r.id == item.id && r.name == item.name && r.responseType == item.responseType
    ensures r.options == item.options && IsRange(r.normalValue)
    ensures RangeMin(r.normalValue) == value && RangeMax(r.normalValue) == RangeMax(item.normalValue)
    ensures Consistent(r) <==> item.responseType == Temperature || item.responseType == Numeric
  {
    item.(normalValue := Some(RangeNormal(value, RangeMax(item.normalValue))))
  }

  /** Sets the upper bound and keeps the lower one. */
  function SetRangeMax(item: CheckItem, value: string): (r: CheckItem)
    ensures r.id == item.id && r.name == item.name && r.responseType == item.responseType
    ensures r.options == item.options && IsRange(r.normalValue)
    ensures RangeMax(r.normalValue) == value && RangeMin(r.normalValue) == RangeMin(item.normalValue)
    ensures Consistent(r) <==> item.responseType == Temperature || item.responseType == Numeric
  {
    item.(normalValue := Some(RangeNormal(RangeMin(item.normalValue), value)))
  }

  /** Setting the two bounds in either order gives the same range. */
  lemma RangeSettersCommute(item: CheckItem, lo: string, hi: string)
    ensures SetRangeMin(SetRangeMax(item, hi), lo) == SetRangeMax(SetRangeMin(item, lo), hi)
    ensures SetRangeMin(SetRangeMax(item, hi), lo).normalValue == Some(RangeNormal(lo, hi))
  {
  }

  /** A later setting of the same bound overrides an earlier one. */
  lemma RangeSetterLastWins(item: CheckItem, a: string, b: string)
    ensures SetRangeMin(SetRangeMin(item, a), b) == SetRangeMin(item, b)
    ensures SetRangeMax(SetRangeMax(item, a), b) == SetRangeMax(item, b)
  {
  }

  /** Nothing orders the bounds: a range with min above max is reachable. */
  lemma RangeOrderUnchecked(item: CheckItem)
    ensures SetRangeMin(SetRangeMax(item, "35.0"), "41.0").normalValue == Some(RangeNormal("41.0", "35.0"))
  {
  }
}
