/** The cookie-consent store: the preference record, reading it back from the
    `document.cookie` header, the consent predicate, the cookie strings written on save
    and on clear, and the enable/disable dispatch for the four optional trackers. The
    JSON and URI codecs are parameters: `decode` and `parse` answer `None` where the
    built-ins throw. */
module CookieManager {
  import opened Text
  import opened Wrappers

  /** The five consent flags. */
  datatype Preferences = Preferences(
    necessary: bool, functional: bool, analytics: bool, performance: bool, advertising: bool)

  /** The stored record. `preferences` is `None` when the parsed JSON has no truthy
      `preferences` member. */
  datatype CookieData = CookieData(
    preferences: Option<Preferences>, consentDate: string, consentId: string)

  const CookieName := "dto_cookie_preferences"
  const CookieExpiryDays: nat := 365

  /** The prefix an entry of the header must start with, once trimmed. */
  const CookiePrefix := CookieName + "="

  predicate IsTarget(entry: string) {
    StartsWith(Trim(entry), CookiePrefix)
  }

  /** `cookies.find(...)`: the position of the first entry that names the preference
      cookie. */
  function FirstTarget(entries: seq<string>): (r: Option<nat>)
    ensures r.Some? ==> r.value < |entries| && IsTarget(entries[r.value])
    ensures r.Some? ==> forall j :: 0 <= j < r.value ==> !IsTarget(entries[j])
    ensures r.None? <==> forall j :: 0 <= j < |entries| ==> !IsTarget(entries[j])
  {
    if entries == [] then None
    else if IsTarget(entries[0]) then Some(0)
    else match FirstTarget(entries[1..])
      case None => None
      case Some(i) => Some(i + 1)
  }

  /** `targetCookie.split('=')[1]`: the text between the first and the second `=`. A
      target entry holds an `=`, so this piece exists. */
  function CookieValue(entry: string): (v: string)
    requires IsTarget(entry)
    ensures '=' !in v
  {
    TrimmedEntryHoldsEquals(entry);
    var pieces := Split(entry, '=');
    SplitHasTwoPieces(entry);
    pieces[1]
  }

  /** The stored record, or `None` when no entry names the cookie, when decoding
      fails or when parsing fails. */
  function GetCookieData(cookie: string, decode: string -> Option<string>,
                         parse: string -> Option<CookieData>): Option<CookieData>
  {
    var entries := Split(cookie, ';');
    match FirstTarget(entries)
    case None => None
    case Some(i) =>
      match decode(CookieValue(entries[i]))
      case None => None
      case Some(json) => parse(json)
  }

  /** `cookieData?.preferences || null` */
  function GetPreferences(cookie: string, decode: string -> Option<string>,
                          parse: string -> Option<CookieData>): Option<Preferences>
  {
    match GetCookieData(cookie, decode, parse)
    case None => None
    case Some(data) => data.preferences
  }

  predicate HasConsent(cookie: string, decode: string -> Option<string>,
                       parse: string -> Option<CookieData>)
  {
    GetPreferences(cookie, decode, parse).Some?
  }

  // ---------------------------------------------------------------------------
  // Tracker dispatch

  datatype Tracker = Analytics | Performance | Functional | Advertising

  /** One call of an `enable…` or `disable…` helper. */
  datatype Effect = Enable(tracker: Tracker) | Disable(tracker: Tracker)

  /** The order in which the dispatch visits the trackers. */
  const Trackers: seq<Tracker> := [Analytics, Performance, Functional, Advertising]

  function Flag(p: Preferences, t: Tracker): bool {
    match t
    case Analytics => p.analytics
    case Performance => p.performance
    case Functional => p.functional
    case Advertising => p.advertising
  }

  function Switch(p: Preferences, t: Tracker): Effect {
    if Flag(p, t) then Enable(t) else Disable(t)
  }

  /** The calls the dispatch makes, in order: exactly one of enable or disable for each
      optional tracker, chosen by its own flag. */
  function ApplyPreferences(p: Preferences): (effects: seq<Effect>)
    ensures |effects| == |Trackers|
    ensures forall i :: 0 <= i < |Trackers| ==> effects[i].tracker == Trackers[i]
    ensures forall i :: 0 <= i < |Trackers| ==> (effects[i].Enable? <==> Flag(p, Trackers[i]))
  {
    [Switch(p, Analytics), Switch(p, Performance), Switch(p, Functional), Switch(p, Advertising)]
  }

  /** Every tracker is switched exactly once, and `necessary` is never consulted. */
  lemma ApplyPreferencesSwitchesEachOnce(p: Preferences, t: Tracker)
    ensures Enable(t) in ApplyPreferences(p) <==> Flag(p, t)
    ensures Disable(t) in ApplyPreferences(p) <==> !Flag(p, t)
    ensures ApplyPreferences(p.(necessary := !p.necessary)) == ApplyPreferences(p)
  {
    var e := ApplyPreferences(p);
    match t
    case Analytics => assert e[0] == Switch(p, t);
    case Performance => assert e[1] == Switch(p, t);
    case Functional => assert e[2] == Switch(p, t);
    case Advertising => assert e[3] == Switch(p, t);
  }

  /** On page load: the stored preferences are applied when there are any, and
      nothing happens otherwise. */
  function Initialize(cookie: string, decode: string -> Option<string>,
                      parse: string -> Option<CookieData>): (effects: seq<Effect>)
    ensures HasConsent(cookie, decode, parse) ==>
      effects == ApplyPreferences(GetPreferences(cookie, decode, parse).value)
    ensures !HasConsent(cookie, decode, parse) ==> effects == []
  {
    match GetPreferences(cookie, decode, parse)
    case None => []
    case Some(p) => ApplyPreferences(p)
  }

  // ---------------------------------------------------------------------------
  // Writing the cookie

  /** The attribute parts of the cookie strings, each written with the space that
      follows its `;`. */
  const ExpiresKey := " expires="
  const PathAttribute := " path=/"
  const SameSiteAttribute := " SameSite=Strict"
  const SecureAttribute := " Secure"

  /** `; path=/; SameSite=Strict; Secure`: the site path, strict same-site and the
      secure flag, after the expiry date. */
  const CookieAttributes := ";" + PathAttribute + ";" + SameSiteAttribute + ";" + SecureAttribute

  /** The cookie string `savePreferences` assigns,
      `dto_cookie_preferences=<encoded>; expires=<date>; path=/; SameSite=Strict; Secure`. */
  function SaveCookieString(encoded: string, expires: string): (s: string)
    ensures StartsWith(s, CookiePrefix + encoded + ";" + ExpiresKey)
    ensures EndsWith(s, CookieAttributes)
  {
    CookiePrefix + encoded + ";" + ExpiresKey + expires + CookieAttributes
  }

  /** Read as `;`-separated parts, the saved cookie is the `name=value` pair followed
      by exactly the expiry, path, same-site and secure attributes, provided neither the
      encoded record nor the date holds a `;` (an URI-encoded value never does). */
  lemma SaveCookieParts(encoded: string, expires: string)
    requires ';' !in encoded && ';' !in expires
    ensures Split(SaveCookieString(encoded, expires), ';') ==
      [CookiePrefix + encoded, ExpiresKey + expires, PathAttribute, SameSiteAttribute, SecureAttribute]
  {
    var parts := [CookiePrefix + encoded, ExpiresKey + expires, PathAttribute, SameSiteAttribute, SecureAttribute];
    AttributesLackSemicolon();
    assert forall k :: 0 <= k < |parts| ==> ';' !in parts[k];
    JoinFive(parts);
    var head := CookiePrefix + encoded + ";" + ExpiresKey + expires;
    assert parts[0] + ";" + parts[1] == head;
    assert Join(parts, ';') == head + CookieAttributes;
    SplitJoin(parts, ';');
  }

  /** None of the fixed parts holds the separator. */
  lemma AttributesLackSemicolon()
    ensures ';' !in CookiePrefix && ';' !in ExpiresKey && ';' !in PathAttribute
    ensures ';' !in SameSiteAttribute && ';' !in SecureAttribute && ';' !in EpochExpiry
  {
  }

  /** Joining five parts puts a separator between each neighbouring pair. */
  lemma JoinFive(parts: seq<string>)
    requires |parts| == 5
    ensures Join(parts, ';') ==
      parts[0] + ";" + parts[1] + ";" + parts[2] + ";" + parts[3] + ";" + parts[4]
  {
    var rest := parts[1..];
    JoinFour(rest);
    assert Join(parts, ';') == parts[0] + ";" + Join(rest, ';');
    assert rest[0] == parts[1] && rest[1] == parts[2] && rest[2] == parts[3] && rest[3] == parts[4];
  }

  /** What a save does: the cookie string written and the dispatch run right after.
      The date, the consent id and the expiry (365 days ahead) come from outside, and
      so do the JSON and URI encoders. */
  datatype SaveOutcome = SaveOutcome(cookie: string, effects: seq<Effect>)

  function SavePreferences(p: Preferences, consentDate: string, consentId: string,
                           expires: string, stringify: CookieData -> string,
                           encode: string -> string): (r: SaveOutcome)
    ensures r.effects == ApplyPreferences(p)
    ensures StartsWith(r.cookie,
      CookiePrefix + encode(stringify(CookieData(Some(p), consentDate, consentId))) + ";" + ExpiresKey)
    ensures EndsWith(r.cookie, CookieAttributes)
  {
    var data := CookieData(Some(p), consentDate, consentId);
    SaveOutcome(SaveCookieString(encode(stringify(data)), expires), ApplyPreferences(p))
  }

  /** The cookie string `clearPreferences` assigns: an empty value that expired at the
      epoch, so the browser drops the cookie. */
  const EpochExpiry := " expires=Thu, 01 Jan 1970 00:00:00 UTC"

  /** `dto_cookie_preferences=; expires=Thu, 01 Jan 1970 00:00:00 UTC; path=/;` */
  const ClearCookieString := CookiePrefix + ";" + EpochExpiry + ";" + PathAttribute + ";"

  /** The clearing string names the same cookie with an empty value, an expiry at the
      epoch and the same `path=/` as the saved cookie (`SaveCookieParts`), which is what
      makes the browser drop the saved one. */
  lemma ClearCookieParts()
    ensures Split(ClearCookieString, ';') == [CookiePrefix, EpochExpiry, PathAttribute, ""]
  {
    var parts := [CookiePrefix, EpochExpiry, PathAttribute, ""];
    AttributesLackSemicolon();
    assert forall k :: 0 <= k < |parts| ==> ';' !in parts[k];
    JoinFour(parts);
    assert ClearCookieString + "" == ClearCookieString;
    SplitJoin(parts, ';');
  }

  /** Joining four parts puts a separator between each neighbouring pair. */
  lemma JoinFour(parts: seq<string>)
    requires |parts| == 4
    ensures Join(parts, ';') == parts[0] + ";" + parts[1] + ";" + parts[2] + ";" + parts[3]
  {
    JoinCons(parts[0], parts[1..], ';');
    JoinCons(parts[1], parts[2..], ';');
    JoinCons(parts[2], parts[3..], ';');
    assert [parts[0]] + parts[1..] == parts;
    assert [parts[1]] + parts[2..] == parts[1..];
    assert [parts[2]] + parts[3..] == parts[2..];
  }

  // ---------------------------------------------------------------------------
  // Reading back what was written

  /** The browser sends the stored cookie back as one `name=value` entry of the
      `;`-separated header, possibly after other entries and some whitespace. If no
      earlier entry names the preference cookie and the encoders invert each other on
      this record, the record is read back intact and consent is recognised. */
  lemma {:induction false} SavedRecordReadsBack(
    before: seq<string>, ws: string, encoded: string, after: seq<string>,
    decode: string -> Option<string>, parse: string -> Option<CookieData>, data: CookieData)
    requires forall k :: 0 <= k < |before| ==> ';' !in before[k] && !IsTarget(before[k])
    requires forall k :: 0 <= k < |after| ==> ';' !in after[k]
    requires forall k :: 0 <= k < |ws| ==> IsWhitespace(ws[k])
    requires ';' !in encoded && '=' !in encoded
    requires decode(encoded).Some? && parse(decode(encoded).value) == Some(data)
    ensures var cookie := Join(before + [ws + CookiePrefix + encoded] + after, ';');
      && GetCookieData(cookie, decode, parse) == Some(data)
      && (HasConsent(cookie, decode, parse) <==> data.preferences.Some?)
  {
    var entry := ws + CookiePrefix + encoded;
    var entries := before + [entry] + after;
    assert forall k :: 0 <= k < |entries| ==> ';' !in entries[k] by {
      assert ';' !in CookiePrefix;
    }
    SplitJoin(entries, ';');
    TrimKeepsPrefix(ws, CookiePrefix, encoded);
    assert IsTarget(entry);
    FirstTargetAfter(before, entry, after);
    EntryValue(ws, encoded);
  }

  /** The first target in `before + [entry] + after` is `entry` when `before` holds
      none. */
  lemma {:induction false} FirstTargetAfter(before: seq<string>, entry: string, after: seq<string>)
    requires forall k :: 0 <= k < |before| ==> !IsTarget(before[k])
    requires IsTarget(entry)
    ensures FirstTarget(before + [entry] + after) == Some(|before|)
  {
    var entries := before + [entry] + after;
    assert entries[|before|] == entry;
    assert forall j :: 0 <= j < |before| ==> entries[j] == before[j];
  }

  /** The value of `ws + "dto_cookie_preferences=" + encoded` is `encoded`. */
  lemma EntryValue(ws: string, encoded: string)
    requires forall k :: 0 <= k < |ws| ==> IsWhitespace(ws[k])
    requires '=' !in encoded
    requires IsTarget(ws + CookiePrefix + encoded)
    ensures CookieValue(ws + CookiePrefix + encoded) == encoded
  {
    var name := ws + CookieName;
    assert '=' !in ws by {
      assert !IsWhitespace('=');
    }
    assert '=' !in CookieName;
    assert '=' !in name;
    assert Join([name, encoded], '=') == ws + CookiePrefix + encoded;
    SplitJoin([name, encoded], '=');
  }

  /** Once the browser has dropped the cookie, no entry names it and nothing is read. */
  lemma ClearedCookieReadsNothing(cookie: string, decode: string -> Option<string>,
                                  parse: string -> Option<CookieData>)
    requires forall k :: 0 <= k < |Split(cookie, ';')| ==> !IsTarget(Split(cookie, ';')[k])
    ensures GetCookieData(cookie, decode, parse) == None
    ensures !HasConsent(cookie, decode, parse)
    ensures Initialize(cookie, decode, parse) == []
  {
  }

  /** A failing decoder or parser yields no record, and so no consent. */
  lemma CodecFailureReadsNothing(cookie: string, decode: string -> Option<string>,
                                 parse: string -> Option<CookieData>)
    requires FirstTarget(Split(cookie, ';')).Some?
    requires var entries := Split(cookie, ';');
      var v := CookieValue(entries[FirstTarget(entries).value]);
      decode(v).None? || parse(decode(v).value).None?
    ensures GetCookieData(cookie, decode, parse) == None
    ensures !HasConsent(cookie, decode, parse)
  {
  }

  /** Trimming an entry that starts with the prefix once trimmed keeps an `=` in the
      entry itself. */
  lemma TrimmedEntryHoldsEquals(entry: string)
    requires IsTarget(entry)
    ensures '=' in entry
  {
    var t := Trim(entry);
    TrimStartSpec(entry);
    TrimEndSpec(TrimStart(entry));
    var ts := TrimStart(entry);
    assert t[|CookiePrefix| - 1] == '=';
    assert ts[|CookiePrefix| - 1] == '=';
    assert entry[|entry| - |ts| + |CookiePrefix| - 1] == '=';
  }

  /** A string holding the separator splits into at least two pieces. */
  lemma SplitHasTwoPieces(s: string)
    requires '=' in s
    ensures |Split(s, '=')| >= 2
  {
  }
}
