# DTO-Partners web site: a Dafny model of its logic

This project models the logic of the DTO-Partners recruitment site. Most of it is the
React frontend, plus one piece of the Go admin service. Each source file of that core
becomes one Dafny module:

- **`ApplicationTypes`, `ApplicationService`, `ApplicationForm`**: the job-application
  form.
  - The form record, the per-field validation rules and the error map they produce.
  - The validation gate in front of sending.
  - The file-type guess from a file name.
  - The form hook as a class whose methods are the user actions.
- **`CookieManager`, `Gdpr`, `GdprModal`**: cookie consent.
  - The five-flag preference record and how it is read back from the `document.cookie`
    header.
  - The consent predicate, the enable/disable dispatch for the four optional trackers
    and the cookie strings written on save and on clear.
  - The consent hook as a class: modal visibility, the record being edited, the
    consent flag, the stored record and the dispatch log.
  - The modal's counting, badge, visibility and toggling rules.
- **Small interface state machines**, each a class:
  - `Navbar`: scroll visibility, mobile menu and language.
  - `HeroSlideshow`: the slide index, wrapping modulo seven.
  - `Values`: at most one open value card.
  - `Accordion`: single and multiple mode.
  - `AboutVideo`: the video source and its one-shot fallback.
- **`WorldMap`**: which map shapes are hidden, drawn as partners or drawn neutral.
- **`Config`**: the admin service's environment-file loading and its variable lookup
  with a fallback.
- **Shared modules.**
  - `Text` holds the ECMAScript string built-ins the code relies on: `trim` with its
    exact whitespace set, `split`, `join`, `startsWith`, and `toLowerCase` on ASCII.
  - `Membership` holds the includes/filter/append toggle, which is written twice in
    the frontend.
  - `Wrappers` holds `Option`.

A hook's state is a class with one field per `useState` slot. A batch of setter calls
made by one handler is one method, which states the whole new state.

Browser and network effects become data:
- The cookie jar is the field `Gdpr.ConsentController.stored`.
- Tracker switches are appended to `effects`.
- E-mail sending, the CV upload, the clock and the random id are the parameter
  `ApplicationService.Environment`.
- The URI and JSON codecs are function parameters.
- The Go process environment is a map, and the file system is a function from file
  names to their contents.

## Model

| member | source | states |
|---|---|---|
| Text.TrimStartSpec | frontend/src/lib/applicationService.ts:39 | trimming the front drops exactly a whitespace prefix and leaves a string that starts with non-whitespace |
| Text.TrimEndSpec | frontend/src/lib/applicationService.ts:39 | trimming the back drops exactly a whitespace suffix and leaves a string that ends with non-whitespace |
| Text.TrimEmptyIff | frontend/src/lib/applicationService.ts:39-41 | `trim()` gives the empty string exactly when every character is whitespace |
| Text.TrimKeepsPrefix | frontend/src/lib/cookieManager.ts:64-66 | leading whitespace before an entry is trimmed away, and trimming never cuts into a prefix that ends in non-whitespace |
| Text.Split | frontend/src/lib/cookieManager.ts:63 | `split` on one character always yields at least one piece |
| Text.SplitPiecesLackSeparator | frontend/src/lib/cookieManager.ts:63 | no piece of a split holds the separator |
| Text.SplitJoin | frontend/src/lib/cookieManager.ts:63-70 | splitting a join of separator-free pieces gives back the pieces |
| Text.JoinSplit | frontend/src/lib/cookieManager.ts:63 | joining the pieces of a split gives back the string |
| Text.AsciiLowerIdempotent | frontend/src/components/WorldMap.tsx:39-41 | lower-casing twice is lower-casing once |
| Membership.Remove | frontend/src/components/ui/Accordion.tsx:37 | `filter(v => v !== x)` removes every occurrence of `x` and keeps every other member |
| Membership.Toggle | frontend/src/components/GDPRModal.tsx:25-31 | the toggle flips the membership of the toggled value and no other |
| Membership.ToggleNoDuplicates | frontend/src/components/ui/Accordion.tsx:36-38 | toggling never creates a duplicate in a duplicate-free list |
| Membership.ToggleTwiceFromAbsent | frontend/src/components/GDPRModal.tsx:25-31 | toggling an absent value twice restores the list exactly |
| Membership.ToggleTwiceSameMembers | frontend/src/components/GDPRModal.tsx:25-31 | toggling twice always restores the set of members |
| Membership.ToggleTwiceReorders | frontend/src/components/GDPRModal.tsx:25-31 | toggling a present value twice can move it to the end: `[a,b,c]` becomes `[a,c,b]` |
| Membership.RemoveAbsent | frontend/src/components/ui/Accordion.tsx:37 | filtering out an absent value changes nothing |
| Membership.RemoveNoDuplicates | frontend/src/components/ui/Accordion.tsx:37 | filtering keeps a duplicate-free list duplicate-free |
| ApplicationTypes.InitialForm | frontend/src/hooks/useApplicationForm.ts:7-17 | the initial form: every text field empty, both radios unset, no file, no consent |
| ApplicationTypes.WithFieldSetsOnlyThatField | frontend/src/hooks/useApplicationForm.ts:28 | writing a field stores exactly that value there and leaves every other field unchanged |
| ApplicationTypes.RadioValuesAreTheUnion | frontend/src/types/application.ts:10-11 | work authorisation takes only `yes`, `no` or empty; visa assistance only `yes`, `no`, `na` or empty |
| ApplicationService.IsValidEmail | frontend/src/lib/applicationService.ts:375-378 | an accepted address has at least five characters (`a@b.c`); `EmailPredicateMatchesPattern` ties the predicate to the pattern in both directions |
| ApplicationService.EmailPredicateMatchesPattern | frontend/src/lib/applicationService.ts:375-378 | the field-by-field e-mail predicate accepts exactly what `/^[^\s@]+@[^\s@]+\.[^\s@]+$/` accepts |
| ApplicationService.CountOfOne | frontend/src/lib/applicationService.ts:376 | "exactly one `@`" means no `@` besides the one found |
| ApplicationService.StripNonDigits | frontend/src/lib/applicationService.ts:384 | `replace(/\D/g, '')` keeps only digits and never lengthens the string |
| ApplicationService.StripConcat | frontend/src/lib/applicationService.ts:384 | stripping non-digits distributes over concatenation |
| ApplicationService.PhoneDependsOnlyOnDigits | frontend/src/lib/applicationService.ts:383-386 | separators never change the phone verdict, and a number and its bare digits get the same verdict |
| ApplicationService.IsValidPhone | frontend/src/lib/applicationService.ts:383-386 | an accepted number has at least seven characters; `PhoneDependsOnlyOnDigits` and `PhoneBoundaries` pin the verdict to the digit count |
| ApplicationService.PhoneBoundaries | frontend/src/lib/applicationService.ts:385 | a digit string is valid exactly when it has 7 to 15 digits |
| ApplicationService.ValidateFile | frontend/src/lib/applicationService.ts:84-100 | a file passes exactly when it is at most 10 MiB and of one of the three MIME types; size is checked first, so an oversized file reports only the size error |
| ApplicationService.ErrorMapEntries | frontend/src/lib/applicationService.ts:35-79 | each rule writes only its own key, so a key is present exactly when its rule failed and holds that rule's message |
| ApplicationService.ErrorsByField | frontend/src/lib/applicationService.ts:35-79 | a field has an entry in the error map exactly when its own rule fails, and the entry is that rule's message |
| ApplicationService.ValidateApplication | frontend/src/lib/applicationService.ts:35-79 | the method builds exactly the specified error map, one rule after the other; `isValid` holds exactly when that map is empty |
| ApplicationService.NoErrorsIffAllRulesPass | frontend/src/lib/applicationService.ts:35-78 | the error map is empty exactly when no field's rule fails |
| ApplicationService.FieldMessageNonEmpty | frontend/src/lib/applicationService.ts:39-72 | no rule reports an empty message |
| ApplicationService.NameRules | frontend/src/lib/applicationService.ts:39-43 | the name fails below two trimmed characters; "required" exactly for an all-whitespace name, "too short" exactly for one trimmed character, never both |
| ApplicationService.EmailRule | frontend/src/lib/applicationService.ts:45-49 | a filled-in e-mail passes exactly when the untrimmed text has the e-mail shape; a blank one is reported as required |
| ApplicationService.PaddedEmailRejected | frontend/src/lib/applicationService.ts:47 | the shape check runs on the untrimmed text: `" a@b.co"` is reported invalid, not missing |
| ApplicationService.PlainEmailAccepted | frontend/src/lib/applicationService.ts:47 | the same address without the leading space, `"a@b.co"`, passes |
| ApplicationService.PhoneRule | frontend/src/lib/applicationService.ts:51-55 | a phone passes exactly when it has 7 to 15 digits; a blank one is reported as required |
| ApplicationService.SummaryRule | frontend/src/lib/applicationService.ts:63-65 | a summary fails exactly when present and longer than 2000 characters |
| ApplicationService.FileRule | frontend/src/lib/applicationService.ts:68-73 | a CV fails exactly when present and rejected by the file check, with the size message taking precedence |
| ApplicationService.ValidExactly | frontend/src/lib/applicationService.ts:35-79 | the error map is empty exactly when all six rules pass; missing consent always fails, and nationality, work authorisation and visa assistance never do |
| ApplicationService.CvUploadMessage | frontend/src/lib/applicationService.ts:143-152 | the success message carries a sentence about the CV exactly when a file was attached |
| ApplicationService.SubmitApplication | frontend/src/lib/applicationService.ts:105-172 | an invalid application returns `success = false` with the validator's own map and nothing is sent; a valid one is sent once, and the send outcome decides success, id, message and errors |
| ApplicationService.Extension | frontend/src/lib/applicationService.ts:431 | the extension is the dot-free text after the last `.`, preceded by that `.`, or the whole name when there is no `.` |
| ApplicationService.LastDot | frontend/src/lib/applicationService.ts:431 | the position found holds a `.` and no `.` follows it; -1 exactly when there is none |
| ApplicationService.LastPieceIsAfterLastDot | frontend/src/lib/applicationService.ts:431 | `split('.').pop()` is the text after the last `.` |
| ApplicationService.ExtensionOfDottedName | frontend/src/lib/applicationService.ts:431 | the extension of `stem.ext` is `ext` whenever `ext` has no `.`, whatever the stem holds |
| ApplicationService.FileTypeLookupAsWritten | frontend/src/lib/applicationService.ts:430-438 | (as written) an inherited `Object.prototype` member is returned exactly when the lower-cased extension is `constructor` or `__proto__`; every string it returns is one of the three MIME types or `unknown` |
| ApplicationService.GetFileTypeFromName | frontend/src/lib/applicationService.ts:430-438 | (corrected) pdf, doc and docx extensions, case-insensitively, map to their MIME types; every other name maps to `unknown` |
| ApplicationService.PrototypeKeyLeaks | frontend/src/lib/applicationService.ts:432-437 | as written, any name ending in `.constructor` (such as `cv.constructor`) yields the inherited `Object` constructor rather than `unknown`, while the corrected lookup gives `unknown` |
| ApplicationService.LookupsAgreeOffPrototype | frontend/src/lib/applicationService.ts:430-438 | apart from the inherited keys, the as-written lookup and the corrected one agree |
| ApplicationForm.ClearError | frontend/src/hooks/useApplicationForm.ts:30-35 | editing a field removes that field's entry when its message is truthy and keeps every other entry with its value |
| ApplicationForm.ValidatorMessagesNonEmpty | frontend/src/hooks/useApplicationForm.ts:30 | every validator message is non-empty, so editing a failed field always clears its error |
| ApplicationForm.FormController.constructor | frontend/src/hooks/useApplicationForm.ts:7-24 | the hook starts with the initial form, no file name, no errors, no result, not submitting and no success flag |
| ApplicationForm.FormController.HandleInputChange | frontend/src/hooks/useApplicationForm.ts:27-36 | sets only field `f` and removes only `f`'s error; every other error and all other state is unchanged |
| ApplicationForm.FormController.HandleFileChange | frontend/src/hooks/useApplicationForm.ts:39-45 | with no file nothing changes; otherwise the first file becomes the CV and supplies the file name |
| ApplicationForm.FormController.ResetForm | frontend/src/hooks/useApplicationForm.ts:48-63 | restores the initial form and clears the file name, errors and result; the success flag is untouched |
| ApplicationForm.FormController.SetShowSuccess | frontend/src/hooks/useApplicationForm.ts:114 | the exposed setter changes the success flag and nothing else |
| ApplicationForm.FormController.HandleSubmit | frontend/src/hooks/useApplicationForm.ts:66-98 | an invalid form gets exactly the validator's errors and nothing is sent; success sets the success flag and resets the form; failure keeps the form and records `SubmissionApology` with no id and the service's message, or the generic one, under the general key; `isSubmitting` ends false on every path |
| CookieManager.FirstTarget | frontend/src/lib/cookieManager.ts:64-66 | finds the first entry that starts with `dto_cookie_preferences=` once trimmed, and reports none exactly when no entry does |
| CookieManager.CookieValue | frontend/src/lib/cookieManager.ts:70 | the value is the text between the first and second `=`, and it exists for every matching entry |
| CookieManager.ApplyPreferences | frontend/src/lib/cookieManager.ts:80-108 | the dispatch makes four calls, one per optional tracker in the source's order, each an enable exactly when that tracker's flag is on |
| CookieManager.ApplyPreferencesSwitchesEachOnce | frontend/src/lib/cookieManager.ts:80-108 | each tracker is enabled exactly when its flag is on and disabled exactly when it is off; `necessary` is never consulted |
| CookieManager.Initialize | frontend/src/lib/cookieManager.ts:111-116 | page load applies the stored preferences exactly when consent exists, and does nothing otherwise |
| CookieManager.GetCookieData | frontend/src/lib/cookieManager.ts:61-77 | the record of the first matching entry, decoded and parsed, or none; `SavedRecordReadsBack`, `ClearedCookieReadsNothing` and `CodecFailureReadsNothing` state its cases |
| CookieManager.GetPreferences | frontend/src/lib/cookieManager.ts:21-29 | the stored record's preferences, or none when there is no record or it holds none; `SavedRecordReadsBack` states the read-back |
| CookieManager.HasConsent | frontend/src/lib/cookieManager.ts:56-58 | consent means some preferences were read; `SavedRecordReadsBack` and `ClearedCookieReadsNothing` state when it holds |
| CookieManager.SaveCookieString | frontend/src/lib/cookieManager.ts:44 | the saved cookie starts with `dto_cookie_preferences=<encoded>; expires=` and ends with `; path=/; SameSite=Strict; Secure` |
| CookieManager.SaveCookieParts | frontend/src/lib/cookieManager.ts:44 | split on `;`, the saved cookie is exactly the `name=value` pair, the expiry, `path=/`, `SameSite=Strict` and `Secure` |
| CookieManager.ClearCookieParts | frontend/src/lib/cookieManager.ts:119-122 | split on `;`, the clearing cookie is exactly the name with an empty value, the 1970 expiry, the same `path=/` as the saved cookie and an empty tail |
| CookieManager.SavePreferences | frontend/src/lib/cookieManager.ts:32-53 | a save writes the encoded record as the cookie, with the path, same-site and secure attributes at its end, and runs the dispatch for the saved preferences |
| CookieManager.SavedRecordReadsBack | frontend/src/lib/cookieManager.ts:40-77 | a saved entry placed among other entries is read back intact when no earlier entry matches and the codecs invert each other, and consent is recognised exactly when the record holds preferences |
| CookieManager.FirstTargetAfter | frontend/src/lib/cookieManager.ts:64-66 | when several entries match, the first one is used |
| CookieManager.EntryValue | frontend/src/lib/cookieManager.ts:70 | the value of `ws + "dto_cookie_preferences=" + v` is `v` when `v` has no `=` |
| CookieManager.ClearedCookieReadsNothing | frontend/src/lib/cookieManager.ts:63-68 | with no matching entry there is no record, no consent and nothing to apply |
| CookieManager.CodecFailureReadsNothing | frontend/src/lib/cookieManager.ts:71-76 | a decode or parse failure yields no record and no consent rather than an exception |
| CookieManager.TrimmedEntryHoldsEquals | frontend/src/lib/cookieManager.ts:65-70 | a matching entry contains an `=`, so `split('=')[1]` exists |
| Gdpr.WithPreference | frontend/src/hooks/useGDPR.ts:48-55 | updating `necessary` is a no-op; any other key takes the new value and nothing else changes |
| Gdpr.PreferencesByKey | frontend/src/lib/cookieManager.ts:2-8 | two records that agree on all five keys are equal |
| Gdpr.WithPreferenceLaws | frontend/src/hooks/useGDPR.ts:48-55 | writing back a key's current value changes nothing, and a later write to a key overrides an earlier one |
| Gdpr.ConsentController.constructor | frontend/src/hooks/useGDPR.ts:17-28 | the hook starts hidden, unconsented, with the default preferences; module load applies a stored record when there is one |
| Gdpr.ConsentController.Mount | frontend/src/hooks/useGDPR.ts:31-46 | mounting adopts the stored record, sets consent exactly when one exists and arms the auto-show timer otherwise |
| Gdpr.ConsentController.AutoShowFiresAsWritten | frontend/src/hooks/useGDPR.ts:44 | (as written) the timer opens the modal whatever happened in the meantime |
| Gdpr.ConsentController.AutoShowFires | frontend/src/hooks/useGDPR.ts:42-45 | (corrected) the timer opens the modal only while there is still no consent |
| Gdpr.ConsentController.UpdatePreference | frontend/src/hooks/useGDPR.ts:48-55 | only the preference record changes, as `WithPreference` says; `necessary` stays true |
| Gdpr.ConsentController.Save | frontend/src/lib/cookieManager.ts:32-53 | the stored record becomes the saved one and its dispatch is appended |
| Gdpr.ConsentController.AcceptAll | frontend/src/hooks/useGDPR.ts:57-78 | all five flags on, saved and dispatched; consent given and the modal hidden |
| Gdpr.ConsentController.RejectAll | frontend/src/hooks/useGDPR.ts:80-93 | only `necessary` on, saved and dispatched; consent given and the modal hidden |
| Gdpr.ConsentController.SavePreferences | frontend/src/hooks/useGDPR.ts:95-107 | the current record is saved unchanged; consent given and the modal hidden |
| Gdpr.ConsentController.ShowModal | frontend/src/hooks/useGDPR.ts:109-111 | only `isVisible` changes, to true |
| Gdpr.ConsentController.HideModal | frontend/src/hooks/useGDPR.ts:113-115 | only `isVisible` changes, to false |
| Gdpr.ConsentController.ResetConsent | frontend/src/hooks/useGDPR.ts:117-122 | the cookie is cleared, the defaults restored, consent withdrawn and the modal shown |
| Gdpr.EarlyAcceptReopens | frontend/src/hooks/useGDPR.ts:42-45 | as written, a first-time visitor who accepts from the banner before the timer fires ends consented with the modal open |
| Gdpr.EarlyAcceptStaysClosed | frontend/src/hooks/useGDPR.ts:42-45 | with the corrected timer, the same sequence ends with the modal closed |
| GdprModal.CategoryPanels.constructor | frontend/src/components/GDPRModal.tsx:20 | no category starts expanded |
| GdprModal.CategoryPanels.HandleCategoryToggle | frontend/src/components/GDPRModal.tsx:25-31 | an absent category is added and a present one removed; every other category keeps its state |
| GdprModal.EnabledCount | frontend/src/components/GDPRModal.tsx:87-88 | the count of enabled flags is at most five; it is five exactly when all are on and zero exactly when none are |
| GdprModal.Badge | frontend/src/components/GDPRModal.tsx:87-118 | the badge is green exactly when every category is on; with every category off it is yellow, not red |
| GdprModal.BadgeMeaning | frontend/src/components/GDPRModal.tsx:116-119 | since `necessary` is on, the badge is green exactly after accept-all and red exactly after reject-all |
| GdprModal.ShowFloatingButton | frontend/src/components/GDPRModal.tsx:23 | the floating button shows exactly once consent was given; `ShowBanner` states how it relates to the banner |
| GdprModal.ShowBanner | frontend/src/components/GDPRModal.tsx:23-131 | the banner never shows together with the floating button or the modal, and when it is hidden one of those two is on screen |
| GdprModal.SwitchClick | frontend/src/components/GDPRModal.tsx:277-286 | the disabled `necessary` switch changes nothing; any other switch sends the negation of its value, and no other key moves |
| GdprModal.SwitchClickTwice | frontend/src/components/GDPRModal.tsx:277-286 | two clicks on the same switch undo each other, and no click turns `necessary` off |
| Navbar.NextLanguage | frontend/src/hooks/useNavbar.ts:117-119 | `en` becomes `pl` and every other language becomes `en` |
| Navbar.NextLanguageTwice | frontend/src/hooks/useNavbar.ts:117-119 | two toggles return to English or Polish; any other language becomes English after one |
| Navbar.NavbarState.constructor | frontend/src/hooks/useNavbar.ts:25-29 | not scrolled, direction up, visible, position 0, menu closed |
| Navbar.NavbarState.Scroll | frontend/src/hooks/useNavbar.ts:44-84 | a move below 3 changes nothing; otherwise `isScrolled` follows position > 50, at most 100 shows the bar pointing up, a move down by more than 8 past 200 points down and hides unless the menu is open, a move up by more than 3 shows it, and anything else keeps direction and visibility |
| Navbar.NavbarState.Resize | frontend/src/hooks/useNavbar.ts:86-90 | a width of 768 or more closes the menu; nothing else changes |
| Navbar.NavbarState.ToggleMobileMenu | frontend/src/hooks/useNavbar.ts:102-111 | opening the menu forces the bar visible; closing it leaves visibility alone |
| Navbar.NavbarState.CloseMobileMenu | frontend/src/hooks/useNavbar.ts:113-115 | the menu closes and visibility is unchanged |
| Navbar.NavbarState.ToggleLanguage | frontend/src/hooks/useNavbar.ts:117-119 | the language moves to its toggled value and nothing else changes |
| HeroSlideshow.MovesStayInRange | frontend/src/hooks/useHeroSlideshow.ts:70-76 | both moves keep the index in `[0, 7)`; next wraps from 6 to 0 and previous from 0 to 6 |
| HeroSlideshow.MovesAreInverse | frontend/src/hooks/useHeroSlideshow.ts:70-76 | previous after next, and next after previous, return the original index |
| HeroSlideshow.AdvanceIsModular | frontend/src/hooks/useHeroSlideshow.ts:63-65 | `k` ticks from an index in range land on `(i + k) mod 7` |
| HeroSlideshow.FullRoundReturns | frontend/src/hooks/useHeroSlideshow.ts:63-65 | seven ticks return to the starting slide |
| HeroSlideshow.Slideshow.constructor | frontend/src/hooks/useHeroSlideshow.ts:37 | the slideshow starts at slide 0 |
| HeroSlideshow.Slideshow.GoToNext | frontend/src/hooks/useHeroSlideshow.ts:70-72 | the index becomes `(i + 1) % 7` and stays in range |
| HeroSlideshow.Slideshow.GoToPrevious | frontend/src/hooks/useHeroSlideshow.ts:74-76 | the index becomes `(i - 1 + 7) % 7` and stays in range |
| HeroSlideshow.Slideshow.Tick | frontend/src/hooks/useHeroSlideshow.ts:63-65 | the interval tick is the same transition as next |
| HeroSlideshow.Slideshow.SetCurrent | frontend/src/hooks/useHeroSlideshow.ts:37 | the index is set directly |
| Values.IdsAreDistinct | frontend/src/hooks/useValues.ts:24-60 | the five value cards have five different ids |
| Values.Toggled | frontend/src/hooks/useValues.ts:66-68 | the result is empty exactly when the clicked card was the open one, and otherwise it is the clicked card |
| Values.ToggledTwice | frontend/src/hooks/useValues.ts:66-68 | two clicks restore the state when no card or the clicked card was open |
| Values.ToggledTwiceFromOther | frontend/src/hooks/useValues.ts:66-68 | when another card was open, two clicks leave every card closed |
| Values.ValuesState.constructor | frontend/src/hooks/useValues.ts:21 | no card starts open |
| Values.ValuesState.ToggleValue | frontend/src/hooks/useValues.ts:66-68 | the clicked card flips open or closed and every other card is closed |
| Values.ValuesState.SetActiveValue | frontend/src/hooks/useValues.ts:62-64 | the index is assigned directly, and at most one card is open |
| Accordion.SingleToggle | frontend/src/components/ui/Accordion.tsx:40 | single mode holds at most one item; it empties exactly when the clicked item was first, and otherwise holds just the clicked item |
| Accordion.StepFlips | frontend/src/components/ui/Accordion.tsx:34-42 | the clicked item flips open or closed; multiple mode leaves the other items alone and single mode closes them |
| Accordion.StepKeepsShape | frontend/src/components/ui/Accordion.tsx:34-42 | single mode never holds more than one item and multiple mode never holds duplicates |
| Accordion.SingleToggleTwice | frontend/src/components/ui/Accordion.tsx:40 | two clicks restore an empty list or a list holding just that item; from another open item they close everything |
| Accordion.AccordionState.constructor | frontend/src/components/ui/Accordion.tsx:31-32 | no item starts open |
| Accordion.AccordionState.HandleToggle | frontend/src/components/ui/Accordion.tsx:34-84 | the click applies the mode's rule and keeps the mode's shape; the item's `isOpen` flips, which the trigger and the content share |
| AboutVideo.GetVideoSource | frontend/src/components/about/AboutVideo.tsx:16-28 | the fallback file whenever the fallback is in use; otherwise `en` plays `/hero_video_pl.mp4` and every other language `/hero_video.mp4` |
| AboutVideo.FallbackChangesSource | frontend/src/components/about/AboutVideo.tsx:16-28 | switching to the fallback always changes the file |
| AboutVideo.Player.constructor | frontend/src/components/about/AboutVideo.tsx:9-12 | the player starts not loaded, without error, not transitioning and without fallback |
| AboutVideo.Player.LoadStart | frontend/src/components/about/AboutVideo.tsx:56-60 | loadstart, which only the mounted element (no error shown) sends: not loaded, no error, transitioning |
| AboutVideo.Player.CanPlay | frontend/src/components/about/AboutVideo.tsx:36-40 | canplay, sent only while no error is shown: loaded and not transitioning |
| AboutVideo.Player.Error | frontend/src/components/about/AboutVideo.tsx:42-54 | the first error under `pl` switches to the fallback, which changes the file, and marks transitioning with `hasError` unchanged; any other error sets `hasError` and clears transitioning |
| AboutVideo.Player.LanguageChange | frontend/src/components/about/AboutVideo.tsx:74-85 | while the video is mounted, a language change clears the fallback and the error, so the new language plays its own file; while the error panel shows, the element is unmounted and only the language changes |
| AboutVideo.TwoFailuresShowError | frontend/src/components/about/AboutVideo.tsx:42-54 | under `pl`, two failures in a row end on the error panel: the fallback is tried once |
| AboutVideo.ErrorPanelOutlastsLanguageChange | frontend/src/components/about/AboutVideo.tsx:73-80 | after a failure under `en`, switching to `pl` leaves the error panel shown and the Polish file untried |
| WorldMap.FindPartner | frontend/src/components/WorldMap.tsx:39-41 | the lookup returns a partner whose lowered code matches, and none exactly when no partner matches |
| WorldMap.StyleFor | frontend/src/components/WorldMap.tsx:38-86 | a shape is hidden exactly when its lowered code is not on the visible list; visible partners get their own colour, the dark stroke and the pointer; visible non-partners get the neutral style |
| WorldMap.StyleIgnoresCase | frontend/src/components/WorldMap.tsx:39-72 | a code and its lower-case form get the same style |
| WorldMap.PartnerCodes | frontend/src/components/WorldMap.tsx:3-10 | the partner codes are lower-case and pairwise different |
| WorldMap.FindsOwnEntry | frontend/src/components/WorldMap.tsx:39-41 | in a table of distinct lower-case codes, looking up an entry's code finds that entry |
| WorldMap.PartnersShown | frontend/src/components/WorldMap.tsx:79-85 | every partner, in any case, is shown with its own colour, stroke `#1a1a2e`, width 1.2 and the pointer cursor |
| WorldMap.GermanyOutsideTheList | frontend/src/components/WorldMap.tsx:43-70 | `de` is not on the European list |
| WorldMap.IrelandOutsideTheList | frontend/src/components/WorldMap.tsx:43-70 | `ie` is not on the European list |
| WorldMap.PolandOutsideTheList | frontend/src/components/WorldMap.tsx:43-70 | `pl` is not on the European list |
| WorldMap.PartnersOutsideShown | frontend/src/components/WorldMap.tsx:44 | Germany, Ireland and Poland are shown all the same |
| WorldMap.NonPartnerStyle | frontend/src/components/WorldMap.tsx:72-85 | a non-partner is drawn with fill `#e2e2e2`, stroke `#ccc` and the default cursor when it is on the European list, and hidden otherwise |
| Config.EnvFileName | Admin/shared/config/config.go:11 | the file name is `.env.` followed by the environment type |
| Config.Get | Admin/shared/config/config.go:20-26 | a set variable's value, even an empty one, wins; the fallback branch is taken exactly when the variable is unset |
| Config.EmptyValueIsSet | Admin/shared/config/config.go:21-23 | a variable set to the empty string reads as empty, not as the fallback |
| Config.Merge | Admin/shared/config/config.go:13 | after a load, the environment holds the old variables and the file's; variables already set keep their value |
| Config.GetAfterMerge | Admin/shared/config/config.go:13-26 | after a load, a variable that was set reads as before and one that was not reads as the file gives it |
| Config.MergeTwice | Admin/shared/config/config.go:13 | loading the same file twice changes nothing more |
| Config.Process.constructor | Admin/shared/config/config.go:20-26 | the process starts with the given environment and an empty log |
| Config.Process.LoadEnv | Admin/shared/config/config.go:10-18 | reads `.env.<type>`; a failure is only logged and leaves the environment unchanged; a success merges the file in and logs the file name; it always returns normally |

## Left out

- Sending e-mail, uploading the CV, the generated application and consent ids, the
  date, the browser host check and `console` logging are outside the model. Their
  outcomes enter through `ApplicationService.Environment` and the parameters of
  `CookieManager.SavePreferences`.
- The e-mail template preparation, the upload-service fallbacks, `formatFileSize` and
  the metrics logging have no effect on the modelled state and are not part of this
  model.
- `encodeURIComponent`, `decodeURIComponent`, `JSON.stringify` and `JSON.parse` are
  function parameters. `CookieManager.SavedRecordReadsBack` assumes they invert each
  other on the saved record.
- The parsed JSON is taken to have the record's shape. A cookie whose JSON holds a
  record with `necessary: false` would be adopted verbatim by `Mount`, which then no
  longer keeps `Valid()`. The consent methods state `old(Valid()) ==> Valid()` for
  that reason.
- The `gtag` analytics events in `acceptAll` and `savePreferences`, and what the
  enable/disable helpers do to the page, are left out. The dispatch is recorded as the
  sequence of calls it makes.
- Timers are modelled as follows:
  - the two-second auto-show is the flag `autoShowPending` plus an explicit firing
    method;
  - the slideshow interval is the `Tick` method;
  - the navbar's `requestAnimationFrame` throttling (`ticking`) is left out, and each
    `Scroll` call is one executed frame.
- React state batching and render timing are not modelled. Each handler's setter calls
  form one atomic method, and the hook's state is read at the start of that method.
- `ApplicationForm.FormController.HandleSubmit`: the `catch` branch of the hook is not
  modelled. `submitApplication` catches every error itself, so it never throws.
- `ApplicationForm.FormController.HandleInputChange`: the value must have the field's
  declared type (`Fits`). The handler's signature accepts a string, a boolean or a file
  for every field; the model keeps the record's declared field types, which the form
  components that call it (not part of this model) are assumed to respect.
- Text lengths count code points (`string` is `seq<char>`), not UTF-16 code units. The
  2000-character summary limit is therefore exact only for text in the Basic
  Multilingual Plane.
- `toLowerCase` is modelled on ASCII letters only. The world-map codes and the file
  extensions that matter are ASCII.
- The preloading flag `isLoaded` of the slideshow is not modelled. It depends only on
  image loading.
- `AboutVideo.Player`: `video.play()`, the assignment of `video.src` and the reload
  are left out. A reload shows up as a later `LoadStart` event.
- `Accordion.AccordionState`: the mode is fixed when the accordion is created. A `type`
  prop that changes while items are open is not modelled.
- Scroll positions and window widths are integers.
- `Config.Process.LoadEnv`: the timestamp prefix that `log.Printf` adds is left out.
  Reading and parsing the file is one function parameter, whose `Failed` case covers
  both a missing file and a parse error.
- The admin service's MongoDB client, its repository and its HTTP server are not part
  of this model.

## Findings

| source | as written | input that shows it | evidently intended | confidence | as-written member | corrected member |
|---|---|---|---|---|---|---|
| frontend/src/lib/applicationService.ts:430-438 | `typeMap[extension] \|\| 'unknown'` looks the key up on a plain object literal, so inherited `Object.prototype` members are found | `getFileTypeFromName("cv.constructor")` returns the `Object` constructor function, not a string | every extension other than pdf, doc and docx maps to `'unknown'` | high (not executed) | ApplicationService.PrototypeKeyLeaks | ApplicationService.GetFileTypeFromName |
| frontend/src/hooks/useGDPR.ts:42-45 | the two-second auto-show timer is never cancelled and opens the modal unconditionally | a first-time visitor clicks "accept all" on the banner (frontend/src/components/GDPRModal.tsx:158) within two seconds; the modal then opens although consent was given | the modal auto-opens only while there is still no consent | medium (not executed) | Gdpr.EarlyAcceptReopens | Gdpr.EarlyAcceptStaysClosed |
