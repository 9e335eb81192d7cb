/** The filter buttons of src/components/FilterPanel.tsx: each button sets
    its dimension to its own value, or clears it when that value is already
    selected. */
module FilterPanel {
  import opened Wrappers
  import opened TodoTypes
  import opened TodoFilters

  /** `current === v ? null : v`. */
  function Toggle<T(==)>(current: Option<T>, v: T): (r: Option<T>)
    ensures r.None? <==> current == Some(v)
    ensures r.Some? ==> r.value == v
  {
    if current == Some(v) then None else Some(v)
  }

  /** A click on one of the panel's buttons. */
  datatype Click =
    | CategoryClick(category: Category)
    | TimeFrameClick(timeFrame: TimeFrame)
    | StatusClick(status: Status)

  /** The button is highlighted: its dimension currently holds its value. */
  predicate Selected(f: Filters, c: Click) {
    match c
    case CategoryClick(cat) => f.category == Some(cat.Name())
    case TimeFrameClick(tf) => f.timeFrame == Some(tf)
    case StatusClick(s) => f.status == Some(s)
  }

  /** The filters after the setter the button calls. */
  function OnClick(f: Filters, c: Click): (r: Filters)
    ensures c.CategoryClick? ==> r.timeFrame == f.timeFrame && r.status == f.status
    ensures c.TimeFrameClick? ==> r.category == f.category && r.status == f.status
    ensures c.StatusClick? ==> r.category == f.category && r.timeFrame == f.timeFrame
    ensures Selected(r, c) <==> !Selected(f, c)
  {
    match c
    case CategoryClick(cat) => f.(category := Toggle(f.category, cat.Name()))
    case TimeFrameClick(tf) => f.(timeFrame := Toggle(f.timeFrame, tf))
    case StatusClick(s) => f.(status := Toggle(f.status, s))
  }

  /** `f` with the dimension that `c` controls unset. */
  function Cleared(f: Filters, c: Click): Filters {
    match c
    case CategoryClick(_) => f.(category := None)
    case TimeFrameClick(_) => f.(timeFrame := None)
    case StatusClick(_) => f.(status := None)
  }

  /** Two clicks on the same button leave its dimension unset, unless that
      button was already selected, in which case they restore it. */
  lemma TwoClicks(f: Filters, c: Click)
    ensures OnClick(OnClick(f, c), c) == if Selected(f, c) then f else Cleared(f, c)
  {
    if c.CategoryClick? && !Selected(f, c) {
      assert OnClick(f, c).category == Some(c.category.Name());
    }
  }

  const CategoryButtons: seq<Category> := [Work, Personal, Health, Shopping, Other]
  const TimeFrameButtons: seq<TimeFrame> := [Today, Week, Month]
  const StatusButtons: seq<Status> := [Completed, Active]

  /** The selectable values are exactly the five categories, the three time
      frames and the two statuses, each offered once. */
  lemma ButtonsCoverEveryValue(c: Category, tf: TimeFrame, s: Status)
    ensures c in CategoryButtons && tf in TimeFrameButtons && s in StatusButtons
    ensures forall i, j :: 0 <= i < j < |CategoryButtons| ==> CategoryButtons[i].Name() != CategoryButtons[j].Name()
    ensures forall i, j :: 0 <= i < j < |TimeFrameButtons| ==> TimeFrameButtons[i] != TimeFrameButtons[j]
    ensures forall i, j :: 0 <= i < j < |StatusButtons| ==> StatusButtons[i] != StatusButtons[j]
  {
  }
}
