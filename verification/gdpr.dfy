/** The consent hook: the modal's visibility, the preference record being edited, the
    consent flag, and the actions that change them. The browser's cookie jar is the
    field `stored` (what reading the preference cookie would give), and every run of
    the tracker dispatch is appended to `effects`. */
module Gdpr {
  import opened Wrappers
  import opened CookieManager

  /** `keyof CookiePreferences` */
  datatype PreferenceKey =
    | NecessaryKey | FunctionalKey | AnalyticsKey | PerformanceKey | AdvertisingKey

  const DefaultPreferences := Preferences(true, false, false, false, false)
  const AllAccepted := Preferences(true, true, true, true, true)
  const OnlyNecessary := Preferences(true, false, false, false, false)

  /** `preferences[key]` */
  function Get(p: Preferences, key: PreferenceKey): bool {
    match key
    case NecessaryKey => p.necessary
    case FunctionalKey => p.functional
    case AnalyticsKey => p.analytics
    case PerformanceKey => p.performance
    case AdvertisingKey => p.advertising
  }

  /** `updatePreference(key, value)` on the record: `necessary` cannot be changed, any
      other key takes the new value and nothing else moves. */
  function WithPreference(p: Preferences, key: PreferenceKey, value: bool): (r: Preferences)
    ensures key == NecessaryKey ==> r == p
    ensures key != NecessaryKey ==> Get(r, key) == value
    ensures forall k :: k != key ==> Get(r, k) == Get(p, k)
  {
    match key
    case NecessaryKey => p
    case FunctionalKey => p.(functional := value)
    case AnalyticsKey => p.(analytics := value)
    case PerformanceKey => p.(performance := value)
    case AdvertisingKey => p.(advertising := value)
  }

  /** Two records with the same answer for every key are the same record. */
  lemma PreferencesByKey(p: Preferences, q: Preferences)
    requires forall k :: Get(p, k) == Get(q, k)
    ensures p == q
  {
    assert Get(p, NecessaryKey) == Get(q, NecessaryKey);
    assert Get(p, FunctionalKey) == Get(q, FunctionalKey);
    assert Get(p, AnalyticsKey) == Get(q, AnalyticsKey);
    assert Get(p, PerformanceKey) == Get(q, PerformanceKey);
    assert Get(p, AdvertisingKey) == Get(q, AdvertisingKey);
  }

  /** Writing back the value a key already has changes nothing, and a later write to
      the same key overrides an earlier one. */
  lemma WithPreferenceLaws(p: Preferences, key: PreferenceKey, a: bool, b: bool)
    ensures WithPreference(p, key, Get(p, key)) == p
    ensures WithPreference(WithPreference(p, key, a), key, b) == WithPreference(p, key, b)
  {
    PreferencesByKey(WithPreference(p, key, Get(p, key)), p);
    PreferencesByKey(WithPreference(WithPreference(p, key, a), key, b), WithPreference(p, key, b));
  }

  class ConsentController {
    var isVisible: bool
    var preferences: Preferences
    var hasConsented: bool
    /** The preference record the cookie holds, `None` when there is no readable one. */
    var stored: Option<Preferences>
    /** Every tracker switch made so far, in order. */
    var effects: seq<Effect>
    /** The two-second auto-show timer armed on mount and not fired yet. */
    var autoShowPending: bool

    /** `necessary` is on, both in the record being edited and in the stored one. */
    predicate Valid()
      reads this
    {
      preferences.necessary && (stored.Some? ==> stored.value.necessary)
    }

    /** Page load: the hook's initial state, and the store's module-level
        initialisation, which applies the stored preferences if there are any. */
    constructor (cookie: Option<Preferences>)
      ensures !isVisible && preferences == DefaultPreferences && !hasConsented
      ensures stored == cookie && !autoShowPending
      ensures effects == if cookie.Some? then ApplyPreferences(cookie.value) else []
      ensures Valid() <==> (cookie.Some? ==> cookie.value.necessary)
    {
      isVisible := false;
      preferences := DefaultPreferences;
      hasConsented := false;
      stored := cookie;
      effects := if cookie.Some? then ApplyPreferences(cookie.value) else [];
      autoShowPending := false;
    }

    /** The mount effect: adopt the stored preferences, record whether there was
        consent, and arm the auto-show timer when there was not. */
    method Mount()
      modifies this
      ensures old(Valid()) ==> Valid()
      ensures preferences == if stored.Some? then stored.value else old(preferences)
      ensures hasConsented <==> stored.Some?
      ensures autoShowPending == (old(autoShowPending) || stored.None?)
      ensures isVisible == old(isVisible) && stored == old(stored) && effects == old(effects)
    {
      var saved := stored;
      var userHasConsented := stored.Some?;
      if saved.Some? {
        preferences := saved.value;
      }
      hasConsented := userHasConsented;
      if !userHasConsented {
        autoShowPending := true;
      }
    }

    /** The timer firing, as written: the modal opens whatever happened meanwhile. */
    method AutoShowFiresAsWritten()
      requires autoShowPending
      modifies this
      ensures old(Valid()) ==> Valid()
      ensures isVisible && !autoShowPending
      ensures preferences == old(preferences) && hasConsented == old(hasConsented)
      ensures stored == old(stored) && effects == old(effects)
    {
      autoShowPending := false;
      isVisible := true;
    }

    /** The timer firing as intended: the modal opens only if there is still no
        consent. */
    method AutoShowFires()
      requires autoShowPending
      modifies this
      ensures old(Valid()) ==> Valid()
      ensures isVisible == (old(isVisible) || !hasConsented) && !autoShowPending
      ensures hasConsented ==> isVisible == old(isVisible)
      ensures preferences == old(preferences) && hasConsented == old(hasConsented)
      ensures stored == old(stored) && effects == old(effects)
    {
      autoShowPending := false;
      if !hasConsented {
        isVisible := true;
      }
    }

    method UpdatePreference(key: PreferenceKey, value: bool)
      modifies this
      ensures old(Valid()) ==> Valid()
      ensures preferences == WithPreference(old(preferences), key, value)
      ensures isVisible == old(isVisible) && hasConsented == old(hasConsented)
      ensures stored == old(stored) && effects == old(effects)
      ensures autoShowPending == old(autoShowPending)
    {
      if key == NecessaryKey {
        return;
      }
      preferences := WithPreference(preferences, key, value);
    }

    /** `CookieManager.savePreferences(p)`: the cookie now holds `p` and the dispatch
        runs for `p`. */
    method Save(p: Preferences)
      modifies this
      ensures stored == Some(p) && effects == old(effects) + ApplyPreferences(p)
      ensures isVisible == old(isVisible) && preferences == old(preferences)
      ensures hasConsented == old(hasConsented) && autoShowPending == old(autoShowPending)
    {
      stored := Some(p);
      effects := effects + ApplyPreferences(p);
    }

    method AcceptAll()
      modifies this
      ensures Valid()
      ensures preferences == AllAccepted && stored == Some(AllAccepted)
      ensures hasConsented && !isVisible
      ensures effects == old(effects) + ApplyPreferences(AllAccepted)
      ensures autoShowPending == old(autoShowPending)
    {
      var allAccepted := AllAccepted;
      preferences := allAccepted;
      Save(allAccepted);
      hasConsented := true;
      isVisible := false;
    }

    method RejectAll()
      modifies this
      ensures Valid()
      ensures preferences == OnlyNecessary && stored == Some(OnlyNecessary)
      ensures hasConsented && !isVisible
      ensures effects == old(effects) + ApplyPreferences(OnlyNecessary)
      ensures autoShowPending == old(autoShowPending)
    {
      var onlyNecessary := OnlyNecessary;
      preferences := onlyNecessary;
      Save(onlyNecessary);
      hasConsented := true;
      isVisible := false;
    }

    /** Persists the record being edited, unchanged. */
    method SavePreferences()
      modifies this
      ensures old(Valid()) ==> Valid()
      ensures preferences == old(preferences) && stored == Some(old(preferences))
      ensures hasConsented && !isVisible
      ensures effects == old(effects) + ApplyPreferences(old(preferences))
      ensures autoShowPending == old(autoShowPending)
    {
      Save(preferences);
      hasConsented := true;
      isVisible := false;
    }

    method ShowModal()
      modifies this
      ensures old(Valid()) ==> Valid()
      ensures isVisible
      ensures preferences == old(preferences) && hasConsented == old(hasConsented)
      ensures stored == old(stored) && effects == old(effects)
      ensures autoShowPending == old(autoShowPending)
    {
      isVisible := true;
    }

    method HideModal()
      modifies this
      ensures old(Valid()) ==> Valid()
      ensures !isVisible
      ensures preferences == old(preferences) && hasConsented == old(hasConsented)
      ensures stored == old(stored) && effects == old(effects)
      ensures autoShowPending == old(autoShowPending)
    {
      isVisible := false;
    }

    /** Clears the cookie, restores the defaults and reopens the modal. */
    method ResetConsent()
      modifies this
      ensures Valid()
      ensures stored == None && preferences == DefaultPreferences
      ensures !hasConsented && isVisible
      ensures effects == old(effects) && autoShowPending == old(autoShowPending)
    {
      stored := None;
      preferences := DefaultPreferences;
      hasConsented := false;
      isVisible := true;
    }
  }

  /** A first-time visitor who accepts from the banner within the two seconds before
      the timer fires gets the modal opened over the page anyway. */
  method EarlyAcceptReopens() returns (c: ConsentController)
    ensures c.hasConsented && c.isVisible
  {
    c := new ConsentController(None);
    c.Mount();
    c.AcceptAll();
    c.AutoShowFiresAsWritten();
  }

  /** With the intended timer, the same sequence leaves the modal closed. */
  method EarlyAcceptStaysClosed() returns (c: ConsentController)
    ensures c.hasConsented && !c.isVisible
  {
    c := new ConsentController(None);
    c.Mount();
    c.AcceptAll();
    c.AutoShowFires();
  }
}
