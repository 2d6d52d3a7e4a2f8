/** The onboarding carousel: three slides, a slide index that follows the
    list's viewability reports, and the next / back / skip controls. Scroll
    requests and navigation are recorded as logs of emitted requests; the
    index changes only when the list reports a new first visible slide. */
module Onboarding {
  import opened Wrappers
  import opened OnboardingStatus

  /** The number of slides. */
  const SlideCount: nat := 3
  /** The index of the last slide. */
  const LastSlide: nat := SlideCount - 1
  /** The value of `currentIndex` when the viewability callback was created:
      `useRef(...).current` keeps the first render's closure for good. */
  const CapturedIndex: nat := 0

  /** The navigation requests the screen emits. */
  datatype Route = ReplaceLogin  // router.replace('/auth/login')

  /** The back control is shown from the second slide on. */
  predicate ShowsBackButton(currentIndex: nat) {
    currentIndex > 0
  }

  /** The next control shows the "YONIMA" label on the last slide and an
      arrow elsewhere. */
  predicate ShowsStartLabel(currentIndex: nat) {
    currentIndex == LastSlide
  }

  /** The slide `handleBack` asks to scroll to, if any. */
  function BackTarget(currentIndex: nat): (target: Option<nat>)
    ensures target.Some? <==> ShowsBackButton(currentIndex)
    ensures target.Some? ==> target.value + 1 == currentIndex
  {
    if currentIndex > 0 then Some(currentIndex - 1) else None
  }

  /** What `handleNext` does from a slide: scroll one slide on, or finish. */
  datatype NextAction = ScrollTo(index: nat) | Finish

  function NextActionAt(currentIndex: nat): (a: NextAction)
    ensures a.ScrollTo? <==> currentIndex < LastSlide
    ensures a.ScrollTo? ==> a.index == currentIndex + 1 && a.index < SlideCount
  {
    if currentIndex < LastSlide then ScrollTo(currentIndex + 1) else Finish
  }

  /** The next control finishes exactly where it shows the start label. */
  lemma NextFinishesIffStartLabel(currentIndex: nat)
    requires currentIndex < SlideCount
    ensures NextActionAt(currentIndex) == Finish <==> ShowsStartLabel(currentIndex)
  {
  }

  /** The index the viewability callback settles on, from the indices of the
      viewable items (None for a null index) and the current index. */
  function IndexAfterViewable(viewable: seq<Option<nat>>, currentIndex: nat): nat {
    if |viewable| > 0 && viewable[0].Some? && viewable[0].value != CapturedIndex
    then viewable[0].value
    else currentIndex
  }

  /** Because the callback compares with the captured 0 rather than with the
      current index, a report that the first slide is visible again never
      moves the index back. */
  lemma SwipeBackToFirstIsIgnored(viewable: seq<Option<nat>>, currentIndex: nat)
    requires |viewable| > 0 && viewable[0] == Some(0)
    ensures IndexAfterViewable(viewable, currentIndex) == currentIndex
  {
  }

  /** Once the index has left the first slide, it never comes back to it. */
  lemma {:induction false} IndexNeverReturnsToFirst(reports: seq<seq<Option<nat>>>, currentIndex: nat)
    requires currentIndex > 0
    ensures IndexAfterReports(reports, currentIndex) > 0
  {
    if reports != [] {
      IndexNeverReturnsToFirst(reports[1..], IndexAfterViewable(reports[0], currentIndex));
    }
  }

  /** The index after a series of viewability reports. */
  function IndexAfterReports(reports: seq<seq<Option<nat>>>, currentIndex: nat): nat {
    if reports == [] then currentIndex
    else IndexAfterReports(reports[1..], IndexAfterViewable(reports[0], currentIndex))
  }

  /** Swiping to the second slide and back to the first leaves the index on
      the second slide, so the next control then asks for the third slide
      although the first one is on screen. */
  lemma SwipeBackThenNext()
    ensures IndexAfterReports([[Some(1)], [Some(0)]], 0) == 1
    ensures NextActionAt(IndexAfterReports([[Some(1)], [Some(0)]], 0)) == ScrollTo(2)
  {
    var reports: seq<seq<Option<nat>>> := [[Some(1)], [Some(0)]];
    assert reports[1..] == [[Some(0)]];
    assert reports[1..][1..] == [];
  }

  /** The list reports only indices of its own slides. */
  predicate ReportsSlides(viewable: seq<Option<nat>>) {
    forall i :: 0 <= i < |viewable| && viewable[i].Some? ==> viewable[i].value < SlideCount
  }

  class OnboardingScreen {
    var currentIndex: nat
    /** The screen's own instance of the onboarding-status hook. */
    const status: OnboardingStatusHook
    /** The `scrollToIndex` requests emitted so far. */
    var scrollRequests: seq<nat>
    /** The navigation requests emitted so far. */
    var navigation: seq<Route>

    ghost predicate Valid()
      reads this
    {
      currentIndex < SlideCount
    }

    constructor (status: OnboardingStatusHook)
      ensures Valid()
      ensures this.status == status && currentIndex == 0
      ensures scrollRequests == [] && navigation == []
    {
      this.status := status;
      currentIndex := 0;
      scrollRequests := [];
      navigation := [];
    }

    /** `onViewableItemsChanged`: takes the first viewable item's index when
        it is present, non-null and differs from the captured 0. */
    method OnViewableItemsChanged(viewable: seq<Option<nat>>)
      requires Valid() && ReportsSlides(viewable)
      modifies this`currentIndex
      ensures Valid()
      ensures currentIndex == IndexAfterViewable(viewable, old(currentIndex))
    {
      if |viewable| > 0 && viewable[0].Some? {
        var newIndex := viewable[0].value;
        if newIndex != CapturedIndex {
          currentIndex := newIndex;
        }
      }
    }

    /** `finishOnboarding`: mark completion (which may fail silently), then
        leave for the login screen either way. */
    method FinishOnboarding(writeFails: bool)
      requires Valid()
      modifies this`navigation, status`isFirstLaunch, status.store
      ensures Valid()
      ensures navigation == old(navigation) + [ReplaceLogin]
      ensures status.store.entries ==
        if writeFails then old(status.store.entries) else Completed(old(status.store.entries))
      ensures status.isFirstLaunch == if writeFails then old(status.isFirstLaunch) else false
    {
      status.SetOnboardingCompleted(writeFails);
      navigation := navigation + [ReplaceLogin];
    }

    /** `handleNext`: scroll to the next slide, or finish on the last one. */
    method HandleNext(writeFails: bool)
      requires Valid()
      modifies this`scrollRequests, this`navigation, status`isFirstLaunch, status.store
      ensures Valid() && currentIndex == old(currentIndex)
      ensures NextActionAt(currentIndex).ScrollTo? ==>
        scrollRequests == old(scrollRequests) + [currentIndex + 1] && navigation == old(navigation)
        && status.store.entries == old(status.store.entries)
        && status.isFirstLaunch == old(status.isFirstLaunch)
      ensures NextActionAt(currentIndex) == Finish ==>
        scrollRequests == old(scrollRequests) && navigation == old(navigation) + [ReplaceLogin]
        && status.store.entries ==
          (if writeFails then old(status.store.entries) else Completed(old(status.store.entries)))
        && status.isFirstLaunch == (if writeFails then old(status.isFirstLaunch) else false)
    {
      if currentIndex < SlideCount - 1 {
        scrollRequests := scrollRequests + [currentIndex + 1];
      } else {
        FinishOnboarding(writeFails);
      }
    }

    /** `handleBack`: scroll to the previous slide, or nothing on the first. */
    method HandleBack()
      requires Valid()
      modifies this`scrollRequests
      ensures Valid()
      ensures scrollRequests == match BackTarget(currentIndex)
        case Some(target) => old(scrollRequests) + [target]
        case None => old(scrollRequests)
    {
      if currentIndex > 0 {
        scrollRequests := scrollRequests + [currentIndex - 1];
      }
    }

    /** `handleSkip`: finish from any slide. */
    method HandleSkip(writeFails: bool)
      requires Valid()
      modifies this`navigation, status`isFirstLaunch, status.store
      ensures Valid()
      ensures navigation == old(navigation) + [ReplaceLogin]
      ensures status.store.entries ==
        if writeFails then old(status.store.entries) else Completed(old(status.store.entries))
      ensures status.isFirstLaunch == if writeFails then old(status.isFirstLaunch) else false
    {
      FinishOnboarding(writeFails);
    }
  }
}
