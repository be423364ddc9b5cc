/** The navigation bar's state: whether the page is scrolled past the top band, the
    last scroll direction, whether the bar is shown, the last accepted scroll position,
    the mobile menu and the interface language. */
module Navbar {

  datatype Direction = Up | Down

  /** Scroll moves smaller than this are ignored as jitter. */
  const JitterThreshold: int := 3
  /** Past this position the bar gets its scrolled background. */
  const ScrolledOffset: int := 50
  /** Up to this position the bar is always shown. */
  const TopBand: int := 100
  /** A downward move hides the bar only past this position ... */
  const HideOffset: int := 200
  /** ... and only when it is larger than this. */
  const HideDelta: int := 8
  /** At this width and above the mobile menu is closed. */
  const DesktopWidth: int := 768

  function Abs(x: int): nat {
    if x < 0 then -x else x
  }

  /** `currentLang === "en" ? "pl" : "en"` */
  function NextLanguage(lang: string): (r: string)
    ensures r == "pl" <==> lang == "en"
    ensures r == "en" <==> lang != "en"
  {
    if lang == "en" then "pl" else "en"
  }

  /** Toggling twice comes back to English or Polish; any other language becomes
      English after one toggle. */
  lemma NextLanguageTwice(lang: string)
    ensures lang in {"en", "pl"} ==> NextLanguage(NextLanguage(lang)) == lang
    ensures lang !in {"en", "pl"} ==> NextLanguage(lang) == "en"
  {
  }

  class NavbarState {
    var isScrolled: bool
    var scrollDirection: Direction
    var isVisible: bool
    var lastScrollY: int
    var isMobileMenuOpen: bool
    var currentLang: string

    /** An open mobile menu keeps the bar shown; a hidden bar was hidden by a downward
        scroll; the background follows the last accepted position; near the top the
        bar is shown and points up. */
    predicate Valid()
      reads this
    {
      && (isMobileMenuOpen ==> isVisible)
      && (!isVisible ==> scrollDirection == Down)
      && isScrolled == (lastScrollY > ScrolledOffset)
      && (lastScrollY <= TopBand ==> isVisible && scrollDirection == Up)
    }

    constructor (lang: string)
      ensures Valid()
      ensures !isScrolled && scrollDirection == Up && isVisible && lastScrollY == 0
      ensures !isMobileMenuOpen && currentLang == lang
    {
      isScrolled := false;
      scrollDirection := Up;
      isVisible := true;
      lastScrollY := 0;
      isMobileMenuOpen := false;
      currentLang := lang;
    }

    /** One animation frame of the scroll handler, for the page now at `position`. */
    method Scroll(position: int)
      requires Valid()
      modifies this
      ensures Valid()
      ensures isMobileMenuOpen == old(isMobileMenuOpen) && currentLang == old(currentLang)
      ensures Abs(position - old(lastScrollY)) < JitterThreshold ==>
        && isScrolled == old(isScrolled) && scrollDirection == old(scrollDirection)
        && isVisible == old(isVisible) && lastScrollY == old(lastScrollY)
      ensures Abs(position - old(lastScrollY)) >= JitterThreshold ==>
        && lastScrollY == position
        && isScrolled == (position > ScrolledOffset)
      ensures Abs(position - old(lastScrollY)) >= JitterThreshold && position <= TopBand ==>
        isVisible && scrollDirection == Up
      ensures Abs(position - old(lastScrollY)) >= JitterThreshold && position > TopBand ==>
        var delta := position - old(lastScrollY);
        if delta > 0 && delta > HideDelta && position > HideOffset then
          scrollDirection == Down && isVisible == old(isMobileMenuOpen)
        else if delta < -JitterThreshold then
          scrollDirection == Up && isVisible
        else
          scrollDirection == old(scrollDirection) && isVisible == old(isVisible)
    {
      var scrollDifference := position - lastScrollY;
      var scrollDifferenceAbs := Abs(scrollDifference);
      if scrollDifferenceAbs < JitterThreshold {
        return;
      }
      isScrolled := position > ScrolledOffset;
      if position <= TopBand {
        isVisible := true;
        scrollDirection := Up;
      } else if scrollDifference > 0 && scrollDifferenceAbs > HideDelta && position > HideOffset {
        scrollDirection := Down;
        if !isMobileMenuOpen {
          isVisible := false;
        }
      } else if scrollDifference < 0 && scrollDifferenceAbs > JitterThreshold {
        scrollDirection := Up;
        isVisible := true;
      }
      lastScrollY := position;
    }

    /** A window resize to `width`: desktop widths close the mobile menu. */
    method Resize(width: int)
      requires Valid()
      modifies this
      ensures Valid()
      ensures isMobileMenuOpen == (old(isMobileMenuOpen) && width < DesktopWidth)
      ensures isVisible == old(isVisible) && scrollDirection == old(scrollDirection)
      ensures isScrolled == old(isScrolled) && lastScrollY == old(lastScrollY)
      ensures currentLang == old(currentLang)
    {
      if width >= DesktopWidth {
        isMobileMenuOpen := false;
      }
    }

    /** Opening the menu also shows the bar; closing it leaves the bar as it is. */
    method ToggleMobileMenu()
      requires Valid()
      modifies this
      ensures Valid()
      ensures isMobileMenuOpen == !old(isMobileMenuOpen)
      ensures isVisible == (old(isVisible) || isMobileMenuOpen)
      ensures scrollDirection == old(scrollDirection)
      ensures isScrolled == old(isScrolled) && lastScrollY == old(lastScrollY)
      ensures currentLang == old(currentLang)
    {
      var newState := !isMobileMenuOpen;
      if newState {
        isVisible := true;
      }
      isMobileMenuOpen := newState;
    }

    method CloseMobileMenu()
      requires Valid()
      modifies this
      ensures Valid()
      ensures !isMobileMenuOpen
      ensures isVisible == old(isVisible) && scrollDirection == old(scrollDirection)
      ensures isScrolled == old(isScrolled) && lastScrollY == old(lastScrollY)
      ensures currentLang == old(currentLang)
    {
      isMobileMenuOpen := false;
    }

    method ToggleLanguage()
      requires Valid()
      modifies this
      ensures Valid()
      ensures currentLang == NextLanguage(old(currentLang))
      ensures isMobileMenuOpen == old(isMobileMenuOpen) && isVisible == old(isVisible)
      ensures scrollDirection == old(scrollDirection)
      ensures isScrolled == old(isScrolled) && lastScrollY == old(lastScrollY)
    {
      currentLang := NextLanguage(currentLang);
    }
  }
}
