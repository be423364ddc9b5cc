/** The consent modal's own logic: which category panels are expanded, the count of
    enabled categories and the status badge colour, the visibility of the banner and of
    the floating button, and what a category switch sends to the hook. */
module GdprModal {
  import opened Wrappers
  import opened CookieManager
  import opened Gdpr
  import opened Membership

  /** The expanded-category list. */
  class CategoryPanels {
    var expandedCategories: seq<string>

    constructor ()
      ensures expandedCategories == []
    {
      expandedCategories := [];
    }

    /** An absent category is appended, a present one is removed. */
    method HandleCategoryToggle(category: string)
      modifies this
      ensures expandedCategories == Toggle(old(expandedCategories), category)
      ensures category in expandedCategories <==> category !in old(expandedCategories)
      ensures forall c :: c != category ==>
        (c in expandedCategories <==> c in old(expandedCategories))
    {
      expandedCategories := Toggle(expandedCategories, category);
    }

    /** `expandedCategories.includes(key)` */
    predicate IsExpanded(category: string)
      reads this
    {
      category in expandedCategories
    }
  }

  function B2N(b: bool): nat {
    if b then 1 else 0
  }

  /** `Object.values(preferences).filter(Boolean).length` */
  function EnabledCount(p: Preferences): (n: nat)
    ensures n <= TotalCount
    ensures n == TotalCount <==> p == AllAccepted
    ensures n == 0 <==> p == Preferences(false, false, false, false, false)
  {
    B2N(p.necessary) + B2N(p.functional) + B2N(p.analytics) + B2N(p.performance)
      + B2N(p.advertising)
  }

  /** `Object.keys(preferences).length` */
  const TotalCount: nat := 5

  datatype BadgeColour = Green | Red | Yellow

  /** Green when every category is on, red when exactly one is, yellow otherwise. */
  function Badge(p: Preferences): (b: BadgeColour)
    ensures b == Green <==> p == AllAccepted
    ensures p == Preferences(false, false, false, false, false) ==> b == Yellow
  {
    if EnabledCount(p) == TotalCount then Green
    else if EnabledCount(p) == 1 then Red
    else Yellow
  }

  /** Since `necessary` is always on, a green badge means everything was accepted and a
      red one means only the necessary category is on: exactly the outcomes of
      accept-all and reject-all. */
  lemma BadgeMeaning(p: Preferences)
    requires p.necessary
    ensures Badge(p) == Green <==> p == AllAccepted
    ensures Badge(p) == Red <==> p == OnlyNecessary
    ensures EnabledCount(p) >= 1
  {
  }

  /** The floating button appears exactly once consent was given. */
  predicate ShowFloatingButton(hasConsented: bool) {
    hasConsented
  }

  /** The banner appears exactly while there is no consent and the modal is closed:
      it never shows together with the floating button or the modal, and when it is
      hidden one of those two is on screen. */
  predicate ShowBanner(hasConsented: bool, isVisible: bool)
    ensures ShowBanner(hasConsented, isVisible) ==>
      !ShowFloatingButton(hasConsented) && !isVisible
    ensures !ShowBanner(hasConsented, isVisible) ==>
      ShowFloatingButton(hasConsented) || isVisible
  {
    !hasConsented && !isVisible
  }

  /** Only the `necessary` category is required, and its switch is disabled. */
  predicate Required(key: PreferenceKey) {
    key == NecessaryKey
  }

  /** A click on a category switch: a disabled switch sends nothing, any other sends
      the negation of the current value to `updatePreference`. */
  function SwitchClick(p: Preferences, key: PreferenceKey): (r: Preferences)
    ensures Required(key) ==> r == p
    ensures !Required(key) ==> Get(r, key) == !Get(p, key)
    ensures forall k :: k != key ==> Get(r, k) == Get(p, k)
  {
    if Required(key) then p else WithPreference(p, key, !Get(p, key))
  }

  /** Two clicks on the same switch undo each other, and no click turns `necessary`
      off. */
  lemma {:induction false} SwitchClickTwice(p: Preferences, key: PreferenceKey)
    ensures SwitchClick(SwitchClick(p, key), key) == p
    ensures p.necessary ==> SwitchClick(p, key).necessary
  {
    var q := SwitchClick(SwitchClick(p, key), key);
    forall k ensures Get(q, k) == Get(p, k) {
    }
    PreferencesByKey(q, p);
    assert Get(SwitchClick(p, key), NecessaryKey) == Get(p, NecessaryKey);
  }
}
