/** The sort toggle of `TimeMachine` in src/index.js. */
module TimeMachineView {

  datatype SortOrder = Asc | Desc

  function OrderName(s: SortOrder): string {
    match s
    case Asc => "asc"
    case Desc => "desc"
  }

  /** The order a click on the sort button switches to. */
  function Toggled(s: SortOrder): (r: SortOrder)
    ensures r != s
  {
    if s == Asc then Desc else Asc
  }

  /** Clicking twice restores the order. */
  lemma ToggleTwice(s: SortOrder)
    ensures Toggled(Toggled(s)) == s
  {
  }

  /** The sort button's label names the order a click switches to. */
  function SortLabel(s: SortOrder): (text: string)
    ensures text == OrderName(Toggled(s))
    ensures text != OrderName(s)
  {
    if s == Asc then "desc" else "asc"
  }

  /** The move list is shown reversed exactly in descending order. */
  predicate Reversed(s: SortOrder) {
    s == Desc
  }

  class TimeMachine {
    var sort: SortOrder

    constructor ()
      ensures sort == Asc
    {
      sort := Asc;
    }

    method OnClickSort()
      modifies this
      ensures sort == Toggled(old(sort))
      ensures Reversed(sort) <==> !Reversed(old(sort))
    {
      sort := if sort == Asc then Desc else Asc;
    }
  }
}
