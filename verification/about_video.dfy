/** The about-section video player: which file it plays for the interface language,
    the one-shot fallback for the Polish interface, and the loading, error and
    transition flags driven by the media element's events. */
module AboutVideo {

  const FallbackSource := "/about_video.mp4"
  const EnglishSource := "/hero_video_pl.mp4"
  const DefaultSource := "/hero_video.mp4"

  /** The fallback file whenever the fallback is in use; otherwise `"en"` plays
      `/hero_video_pl.mp4` and every other language, `"pl"` included, plays
      `/hero_video.mp4`. */
  function GetVideoSource(language: string, useFallback: bool): (r: string)
    ensures useFallback ==> r == FallbackSource
    ensures !useFallback ==> r != FallbackSource
    ensures !useFallback ==> (r == EnglishSource <==> language == "en")
  {
    if useFallback then FallbackSource
    else if language == "en" then EnglishSource
    else DefaultSource
  }

  /** Switching to the fallback always changes the file, so the reload it triggers
      fetches something new; and without the fallback the language alone picks one of
      two files. */
  lemma FallbackChangesSource(language: string)
    ensures GetVideoSource(language, true) != GetVideoSource(language, false)
    ensures GetVideoSource(language, false) in {EnglishSource, DefaultSource}
  {
  }

  class Player {
    var isLoaded: bool
    var hasError: bool
    var isTransitioning: bool
    var fallbackUsed: bool
    var language: string

    constructor (language: string)
      ensures !isLoaded && !hasError && !isTransitioning && !fallbackUsed
      ensures this.language == language
    {
      isLoaded := false;
      hasError := false;
      isTransitioning := false;
      fallbackUsed := false;
      this.language := language;
    }

    /** The file currently given to the video element. */
    function Source(): string
      reads this
    {
      GetVideoSource(language, fallbackUsed)
    }

    /** `loadstart`: a new load begins. Media events come from the video element,
        which is mounted only while no error is shown. */
    method LoadStart()
      requires !hasError
      modifies this
      ensures !isLoaded && !hasError && isTransitioning
      ensures fallbackUsed == old(fallbackUsed) && language == old(language)
    {
      isLoaded := false;
      hasError := false;
      isTransitioning := true;
    }

    /** `canplay`: the file is ready. */
    method CanPlay()
      requires !hasError
      modifies this
      ensures isLoaded && !isTransitioning
      ensures hasError == old(hasError) && fallbackUsed == old(fallbackUsed)
      ensures language == old(language)
    {
      isLoaded := true;
      isTransitioning := false;
    }

    /** `error`: under the Polish interface, the first failure switches to the
        fallback file; every other failure shows the error panel. */
    method Error()
      requires !hasError
      modifies this
      ensures language == old(language) && isLoaded == old(isLoaded)
      ensures !old(fallbackUsed) && language == "pl" ==>
        fallbackUsed && isTransitioning && hasError == old(hasError)
        && Source() != old(Source())
      ensures old(fallbackUsed) || language != "pl" ==>
        hasError && !isTransitioning && fallbackUsed == old(fallbackUsed)
    {
      if !fallbackUsed && language == "pl" {
        FallbackChangesSource(language);
        fallbackUsed := true;
        isTransitioning := true;
        return;
      }
      hasError := true;
      isTransitioning := false;
    }

    /** A language change. While the video element is mounted, the fallback and the
        error are cleared, so the new language gets its own file and its own single
        fallback attempt. While the error panel is shown the element is unmounted, the
        effect finds no element and returns at once, and only the language changes:
        the error panel stays. */
    method LanguageChange(newLanguage: string)
      modifies this
      ensures language == newLanguage
      ensures !old(hasError) ==>
        !fallbackUsed && !hasError && Source() == GetVideoSource(newLanguage, false)
      ensures old(hasError) ==> hasError && fallbackUsed == old(fallbackUsed)
      ensures isLoaded == old(isLoaded) && isTransitioning == old(isTransitioning)
    {
      language := newLanguage;
      if hasError {
        return;
      }
      fallbackUsed := false;
      hasError := false;
    }
  }

  /** Under the Polish interface two failures in a row, with no language change in
      between, end on the error panel: the fallback is tried once. */
  method TwoFailuresShowError(p: Player)
    requires p.language == "pl" && !p.fallbackUsed && !p.hasError
    modifies p
    ensures p.hasError && p.fallbackUsed && !p.isTransitioning
  {
    p.Error();
    p.Error();
  }

  /** Under the English interface a failure shows the error panel, and a later switch
      to Polish leaves it shown: the video element stays unmounted, so the Polish file
      is never tried. */
  method ErrorPanelOutlastsLanguageChange(p: Player)
    requires p.language == "en" && !p.hasError
    modifies p
    ensures p.language == "pl" && p.hasError && p.fallbackUsed == old(p.fallbackUsed)
  {
    p.Error();
    p.LanguageChange("pl");
  }
}
