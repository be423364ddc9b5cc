/** The accordion: a list of open item values shared by every item's trigger and
    content. In multiple mode a toggle adds or removes one value; in single mode the
    list holds at most the one open item. */
module Accordion {
  import opened Membership

  /** `type?: "single" | "multiple"`, `"single"` by default. */
  datatype Mode = Single | Multiple

  /** Single mode: `prev[0] === value ? [] : [value]`. Indexing an empty list gives
      `undefined`, which differs from every value. */
  function SingleToggle(prev: seq<string>, value: string): (r: seq<string>)
    ensures |r| <= 1
    ensures r == [] <==> prev != [] && prev[0] == value
    ensures r != [] ==> r == [value]
  {
    if prev != [] && prev[0] == value then [] else [value]
  }

  /** One click on the trigger of `value`; `StepFlips` and `StepKeepsShape` say what
      it does. */
  function Step(mode: Mode, prev: seq<string>, value: string): seq<string> {
    match mode
    case Multiple => Toggle(prev, value)
    case Single => SingleToggle(prev, value)
  }

  /** The clicked item flips between open and closed, in multiple mode always and in
      single mode whenever at most one item was open. Multiple mode leaves every other
      item as it was; single mode closes every other item. */
  lemma StepFlips(mode: Mode, prev: seq<string>, value: string)
    requires mode == Single ==> |prev| <= 1
    ensures value in Step(mode, prev, value) <==> value !in prev
    ensures mode == Multiple ==>
      forall y :: y != value ==> (y in Step(mode, prev, value) <==> y in prev)
    ensures mode == Single ==> forall y :: y != value ==> y !in Step(mode, prev, value)
  {
  }

  /** Each mode keeps its own shape: at most one open item in single mode, no value
      listed twice in multiple mode. */
  lemma StepKeepsShape(mode: Mode, prev: seq<string>, value: string)
    requires mode == Multiple ==> NoDuplicates(prev)
    ensures mode == Single ==> |Step(mode, prev, value)| <= 1
    ensures mode == Multiple ==> NoDuplicates(Step(mode, prev, value))
  {
    if mode == Multiple {
      ToggleNoDuplicates(prev, value);
    }
  }

  /** Two clicks in single mode restore the list when it was empty or held just that
      item; when another item was open, they close everything. */
  lemma SingleToggleTwice(prev: seq<string>, value: string)
    requires |prev| <= 1
    ensures prev == [] || prev == [value] ==>
      SingleToggle(SingleToggle(prev, value), value) == prev
    ensures prev != [] && prev[0] != value ==>
      SingleToggle(SingleToggle(prev, value), value) == []
  {
  }

  class AccordionState {
    const mode: Mode
    var openItems: seq<string>

    predicate Valid()
      reads this
    {
      && (mode == Single ==> |openItems| <= 1)
      && (mode == Multiple ==> NoDuplicates(openItems))
    }

    constructor (mode: Mode)
      ensures this.mode == mode && openItems == [] && Valid()
    {
      this.mode := mode;
      openItems := [];
    }

    /** `openItems?.includes(value)`, the same test for the trigger and the content. */
    predicate IsOpen(value: string)
      reads this
    {
      value in openItems
    }

    method HandleToggle(value: string)
      requires Valid()
      modifies this
      ensures Valid()
      ensures openItems == Step(mode, old(openItems), value)
      ensures IsOpen(value) <==> !old(IsOpen(value))
      ensures mode == Multiple ==>
        forall y :: y != value ==> (IsOpen(y) <==> old(IsOpen(y)))
      ensures mode == Single ==> forall y :: y != value ==> !IsOpen(y)
    {
      StepFlips(mode, openItems, value);
      StepKeepsShape(mode, openItems, value);
      if mode == Multiple {
        openItems := if value in openItems then Remove(openItems, value) else openItems + [value];
      } else {
        openItems := if openItems != [] && openItems[0] == value then [] else [value];
      }
    }
  }
}
