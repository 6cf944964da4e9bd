/** The session state machine of the `App` component (App.tsx): its six pieces
    of component state as the fields of `Session`, one method per event that
    changes them, and the invariant every event keeps. */
module App {
  import opened Types
  import Text
  import Slides

  /** The captions the loading screen rotates through, in order. */
  const LoadingMessages: seq<string> := [
    "2025 r10 verileri analiz ediliyor...",
    "Google indekslerinde ticaret puanın aranıyor...",
    "iTrader krallığın hesaplanıyor...",
    "Forumda kaç PM attığın tahmin ediliyor...",
    "Kategori şampiyonlukların belirleniyor...",
    "Wrapped hikayen Host Grotesk ile süsleniyor...",
    "Sektörün tozunu attırdığın anlar süzülüyor...",
    "Son dokunuşlar yapılıyor..."
  ]

  /** Shown when the submitted link fails the domain check. */
  const InvalidUrlMessage: string := "Lütfen geçerli bir r10.net profil linki girin."

  /** Shown when the fetch fails, whatever the cause. */
  const FetchFailedMessage: string :=
    "Veriler alınamadı. r10.net sunucuları veya profil gizliliği sorunu olabilir."

  const ProfileDomain: string := "r10.net"

  /** The landing form's check: the link mentions the forum's domain, in any
      letter case. */
  predicate IsProfileUrl(url: string)
  {
    Text.Contains(Text.ToLower(url), ProfileDomain)
  }

  /** The form checks the trimmed link, but the verdict is the one the raw
      input would get: the domain holds no whitespace. */
  lemma TrimmingKeepsVerdict(raw: string)
    ensures IsProfileUrl(Text.Trim(raw)) <==> IsProfileUrl(raw)
  {
    Text.TrimKeepsOccurrences(raw, ProfileDomain);
  }

  /** How the awaited call to the fetch service ends: with the summary it
      built, or with its one opaque error. */
  datatype FetchOutcome = Fetched(data: UserData) | FetchFailed

  class Session {
    var appState: AppState
    var profileUrl: string
    var userData: Option<UserData>
    var currentIndex: int
    var error: string
    var loadingStep: int

    /** Whether the loading-message interval is scheduled: the effect starts
        it on entering LOADING and clears it on any change of `appState`. */
    ghost var tickerRunning: bool
    /** The argument of the fetch whose completion is awaited, if any. */
    ghost var inFlight: Option<string>

    /** What holds between events. */
    ghost predicate Valid()
      reads this
    {
      && 0 <= loadingStep < |LoadingMessages|
      && (tickerRunning <==> appState == LOADING)
      && (inFlight.Some? <==> appState == LOADING)
      && (inFlight.Some? ==> IsProfileUrl(inFlight.value))
      && (userData.Some? <==> appState == EXPERIENCE)
      && (userData.Some? ==> IsProfileUrl(userData.value.profileUrl))
      && 0 <= currentIndex
      && (currentIndex == 0 || currentIndex < Slides.SlideCount(userData))
      && (appState == LOADING || appState == EXPERIENCE ==> error == "")
      && (appState == ERROR ==> error != "")
    }

    /** The state of a freshly loaded page. */
    constructor ()
      ensures Valid()
      ensures appState == LANDING && profileUrl == "" && userData == None
      ensures currentIndex == 0 && error == "" && loadingStep == 0
    {
      appState, profileUrl, userData := LANDING, "", None;
      currentIndex, error, loadingStep := 0, "", 0;
      tickerRunning, inFlight := false, None;
    }

    /** Typing in the link field, which only the landing and error screens
        show. */
    method Edit(value: string)
      requires Valid() && (appState == LANDING || appState == ERROR)
      modifies this`profileUrl
      ensures Valid() && profileUrl == value
    {
      profileUrl := value;
    }

    /** Submitting the form, up to the `await`. The trimmed link is checked;
        if it passes, the error is cleared, the loading screen comes up and the
        fetch starts with the trimmed link, which is returned. Otherwise only
        the error changes and no fetch starts (None). The form, and so this
        event, exists only on the landing and error screens. */
    method Submit() returns (request: Option<string>)
      requires Valid() && (appState == LANDING || appState == ERROR)
      modifies this
      ensures Valid()
      ensures var clean := Text.Trim(old(profileUrl));
        if IsProfileUrl(clean) then
          && request == Some(clean) && inFlight == request
          && appState == LOADING && error == ""
        else
          && request == None && inFlight == None
          && appState == old(appState) && error == InvalidUrlMessage
      ensures profileUrl == old(profileUrl) && userData == old(userData)
      ensures currentIndex == old(currentIndex) && loadingStep == old(loadingStep)
    {
      var cleanUrl := Text.Trim(profileUrl);
      if !IsProfileUrl(cleanUrl) {
        error := InvalidUrlMessage;
        request := None;
        return;
      }
      error := "";
      appState := LOADING;
      tickerRunning, inFlight := true, Some(cleanUrl);
      request := Some(cleanUrl);
    }

    /** One firing of the loading-message interval: the next caption, wrapping
        around after the last. */
    method Tick()
      requires Valid() && tickerRunning
      modifies this`loadingStep
      ensures Valid()
      ensures loadingStep == (old(loadingStep) + 1) % |LoadingMessages|
    {
      loadingStep := (loadingStep + 1) % |LoadingMessages|;
    }

    /** The caption under the spinner. */
    function LoadingMessage(): (caption: string)
      reads this
      requires Valid() && appState == LOADING
      ensures caption in LoadingMessages
    {
      LoadingMessages[loadingStep]
    }

    /** The awaited fetch settles. Success shows the slides from the first
        one; failure shows the error screen with the fixed message and keeps
        no data. Either way the loading screen and its interval are gone. The
        service hands back the link it was called with. */
    method Complete(outcome: FetchOutcome)
      requires Valid() && appState == LOADING
      requires outcome.Fetched? ==> outcome.data.profileUrl == inFlight.value
      modifies this
      ensures Valid()
      ensures inFlight == None && !tickerRunning
      ensures match outcome
        case Fetched(data) =>
          appState == EXPERIENCE && userData == Some(data) && currentIndex == 0 && error == ""
        case FetchFailed =>
          && appState == ERROR && userData == old(userData) && error == FetchFailedMessage
          && currentIndex == old(currentIndex)
      ensures profileUrl == old(profileUrl) && loadingStep == old(loadingStep)
    {
      tickerRunning, inFlight := false, None;
      match outcome
      case Fetched(data) =>
        userData := Some(data);
        appState := EXPERIENCE;
        currentIndex := 0;
      case FetchFailed =>
        error := FetchFailedMessage;
        appState := ERROR;
    }

    /** The slide container's scroll listener: the slide nearest to the
        scroll position becomes current, and the state is written only when
        that changes the index (`updated`). A position inside the scrollable
        range always names an existing slide. */
    method OnScroll(scrollLeft: nat, width: nat) returns (updated: bool)
      requires Valid() && appState == EXPERIENCE
      requires width > 0 && scrollLeft <= Slides.MaxScrollLeft(Slides.SlideCount(userData), width)
      modifies this`currentIndex
      ensures Valid()
      ensures currentIndex == Slides.RoundIndex(scrollLeft, width)
      ensures updated <==> currentIndex != old(currentIndex)
    {
      Slides.RoundIndexInRange(scrollLeft, width, Slides.SlideCount(userData));
      var index := Slides.RoundIndex(scrollLeft, width);
      updated := index != currentIndex;
      if updated {
        currentIndex := index;
      }
    }

    /** The next button: the offset it asks the container to scroll to, none
        while there is no data. On a valid session with slides, that offset
        lies in the scrollable range and the scroll it causes reports the
        target slide. */
    method NextSlide(width: nat) returns (scrollTarget: Option<int>)
      requires appState == EXPERIENCE && width > 0
      ensures userData.None? ==> scrollTarget == None
      ensures userData.Some? ==>
        scrollTarget == Some(Slides.NextTarget(currentIndex, |userData.value.insights|) * width)
      ensures Valid() && Slides.SlideCount(userData) > 0 ==>
        && scrollTarget.Some?
        && 0 <= scrollTarget.value <= Slides.MaxScrollLeft(Slides.SlideCount(userData), width)
        && Slides.RoundIndex(scrollTarget.value, width)
           == Slides.NextTarget(currentIndex, Slides.SlideCount(userData))
    {
      if userData.Some? {
        var count := |userData.value.insights|;
        var nextIdx := Slides.NextTarget(currentIndex, count);
        scrollTarget := Some(nextIdx * width);
        if 0 <= currentIndex < count {
          Slides.NavigationTargets(currentIndex, count);
          Slides.ScrollLandsOnTarget(nextIdx, count, width);
        }
      } else {
        scrollTarget := None;
      }
    }

    /** The previous button: the offset it asks the container to scroll to.
        On a valid session with slides, that offset lies in the scrollable
        range and the scroll it causes reports the target slide. */
    method PrevSlide(width: nat) returns (scrollTarget: int)
      requires appState == EXPERIENCE && width > 0
      ensures scrollTarget == Slides.PrevTarget(currentIndex) * width
      ensures Valid() && Slides.SlideCount(userData) > 0 ==>
        && 0 <= scrollTarget <= Slides.MaxScrollLeft(Slides.SlideCount(userData), width)
        && Slides.RoundIndex(scrollTarget, width) == Slides.PrevTarget(currentIndex)
    {
      var prevIdx := Slides.PrevTarget(currentIndex);
      scrollTarget := prevIdx * width;
      var count := Slides.SlideCount(userData);
      if 0 <= currentIndex < count {
        Slides.NavigationTargets(currentIndex, count);
        Slides.ScrollLandsOnTarget(prevIdx, count, width);
      }
    }

    /** Whether the share overlay, with its restart button, is on screen. */
    predicate ShowsShareOverlay()
      reads this
    {
      appState == EXPERIENCE && Slides.IsFinalSlide(currentIndex, Slides.SlideCount(userData))
    }

    /** The restart button reloads the page: everything is as on first load. */
    method Reload()
      requires Valid() && ShowsShareOverlay()
      modifies this
      ensures Valid()
      ensures appState == LANDING && profileUrl == "" && userData == None
      ensures currentIndex == 0 && error == "" && loadingStep == 0
    {
      appState, profileUrl, userData := LANDING, "", None;
      currentIndex, error, loadingStep := 0, "", 0;
      tickerRunning, inFlight := false, None;
    }
  }

  /** The sample link of the visit below passes the check untouched. */
  lemma SampleLinkAccepted()
    ensures Text.Trim("r10.net/profil/ahmet") == "r10.net/profil/ahmet"
    ensures IsProfileUrl("r10.net/profil/ahmet")
  {
    var url := "r10.net/profil/ahmet";
    assert Text.LeadingBlanks(url) == 0;
    assert Text.TrailingBlanksStart(url, 0) == |url|;
    assert Text.ToLower(url)[..7] == ProfileDomain;
  }

  /** A link without the domain fails the check. */
  lemma SampleLinkRefused()
    ensures Text.Trim("not-a-url") == "not-a-url"
    ensures !IsProfileUrl("not-a-url")
  {
    var url := "not-a-url";
    assert Text.LeadingBlanks(url) == 0;
    assert Text.TrailingBlanksStart(url, 0) == |url|;
    var lower := Text.ToLower(url);
    assert lower == url;
    // Only indexes 0 to 2 leave room for seven characters; none holds an 'r'.
    assert |lower| == 9 && |ProfileDomain| == 7;
    assert lower[0] == 'n' && lower[1] == 'o' && lower[2] == 't';
    forall k | 0 <= k && k + |ProfileDomain| <= |lower|
      ensures !Text.OccursAt(lower, ProfileDomain, k)
    {
      assert k <= 2;
      assert lower[k..k + 7][0] == lower[k] != ProfileDomain[0];
    }
  }

  /** A visit walked through event by event: a profile link is submitted,
      the fetch returns five slides, next is pressed four times and each
      scroll settles on its target; the share overlay then shows. */
  method FiveSlideVisit(width: nat, insights: seq<WrappedInsight>)
    requires width > 0 && |insights| == 5
  {
    var url := "r10.net/profil/ahmet";
    var app := new Session();
    app.Edit(url);
    SampleLinkAccepted();
    var request := app.Submit();
    assert request == Some(url);
    app.Complete(Fetched(UserData("ahmet", url, "iTrader İmparatoru", insights)));
    assert app.currentIndex == 0 && !app.ShowsShareOverlay();
    var n := 0;
    while n < 4
      invariant 0 <= n <= 4
      invariant app.Valid() && app.appState == EXPERIENCE && app.userData.Some?
      invariant |app.userData.value.insights| == 5 && app.currentIndex == n
    {
      var target := app.NextSlide(width);
      var _ := app.OnScroll(target.value, width);
      n := n + 1;
    }
    assert app.ShowsShareOverlay();
    // The same report again writes nothing.
    var again := app.OnScroll(4 * width, width);
    assert !again && app.currentIndex == 4;
    app.Reload();
  }

  /** A link without the forum's domain is refused: the error shows and no
      fetch starts. */
  method RejectedLink()
  {
    var url := "not-a-url";
    var app := new Session();
    app.Edit(url);
    SampleLinkRefused();
    var request := app.Submit();
    assert request == None && app.appState == LANDING && app.error == InvalidUrlMessage;
  }
}
