/** The company-values section: five value cards, of which at most one is expanded.
    The active card is held as an optional index. */
module Values {
  import opened Wrappers

  /** A value card. Titles and texts go through the translation function, so only the
      identifiers and the English default titles are part of the model. */
  datatype ValueItem = ValueItem(id: string, title: string)

  const Items: seq<ValueItem> := [
    ValueItem("confidentiality", "Confidentiality"),
    ValueItem("multiculturalism", "Multiculturalism"),
    ValueItem("efficiency", "Efficiency"),
    ValueItem("transparency", "Transparency"),
    ValueItem("internationalization", "Internationalization")
  ]

  /** The five cards carry five different identifiers. */
  lemma IdsAreDistinct()
    ensures |Items| == 5
    ensures forall i, j :: 0 <= i < j < |Items| ==> Items[i].id != Items[j].id
  {
  }

  /** `activeIndex === index ? null : index`: clicking the open card closes it, clicking
      any other card opens that one alone. */
  function Toggled(active: Option<int>, index: int): (r: Option<int>)
    ensures r.None? <==> active == Some(index)
    ensures r.Some? ==> r.value == index
  {
    if active == Some(index) then None else Some(index)
  }

  /** Two clicks on the same card restore the previous state when no card or that very
      card was open. */
  lemma ToggledTwice(active: Option<int>, index: int)
    requires active.None? || active == Some(index)
    ensures Toggled(Toggled(active, index), index) == active
  {
  }

  /** ... but when another card was open, two clicks leave every card closed. */
  lemma ToggledTwiceFromOther(j: int, index: int)
    requires j != index
    ensures Toggled(Toggled(Some(j), index), index) == None
  {
  }

  class ValuesState {
    var activeIndex: Option<int>

    constructor ()
      ensures activeIndex == None
    {
      activeIndex := None;
    }

    /** Whether the card at `index` is expanded; at most one is. */
    predicate IsActive(index: int)
      reads this
    {
      activeIndex == Some(index)
    }

    method ToggleValue(index: int)
      modifies this
      ensures activeIndex == Toggled(old(activeIndex), index)
      ensures IsActive(index) <==> !old(IsActive(index))
      ensures forall j :: j != index ==> !IsActive(j)
    {
      activeIndex := if activeIndex == Some(index) then None else Some(index);
    }

    /** The index is taken as given, with no range check. */
    method SetActiveValue(index: Option<int>)
      modifies this
      ensures activeIndex == index
      ensures forall i, j :: IsActive(i) && IsActive(j) ==> i == j
    {
      activeIndex := index;
    }
  }
}
