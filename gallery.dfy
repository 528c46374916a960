/** The gallery controller of js/main.js:363-958 as an object: its fields are
    the script's globals and the parts of the page it writes, its methods are
    the functions and listeners of the script, and every timer or image
    callback it schedules is a method the environment calls later. Each
    method is proved to change the state exactly as the matching step
    function of GallerySpec says, so everything GalleryLemmas proves about
    those functions holds of the object. */
module Gallery {
  import opened Wrappers
  import opened GallerySpec

  /** updateActiveDot (js/main.js:450-460): one pass over the dots, adding
      'active' to the one at `index` and removing it from the others. */
  method UpdateActiveDot(dots: seq<bool>, index: int) returns (r: seq<bool>)
    ensures r == Highlight(|dots|, index)
  {
    r := dots;
    var i := 0;
    while i < |r|
      invariant 0 <= i <= |r| == |dots|
      invariant forall j :: 0 <= j < i ==> (r[j] <==> j == index)
    {
      r := r[i := i == index];
      i := i + 1;
    }
  }

  /** updateActiveThumbnail (js/main.js:546-557): remove 'active' from every
      thumbnail, then add it to the one at `index` if there is one. */
  method UpdateActiveThumbnail(thumbs: seq<bool>, index: int) returns (r: seq<bool>)
    ensures r == Highlight(|thumbs|, index)
  {
    r := thumbs;
    var i := 0;
    while i < |r|
      invariant 0 <= i <= |r| == |thumbs|
      invariant forall j :: 0 <= j < i ==> !r[j]
    {
      r := r[i := false];
      i := i + 1;
    }
    if 0 <= index < |r| {
      r := r[index := true];
    }
  }

  /** generateGalleryDots (js/main.js:426-447) once its guard has passed: one
      dot per image, the first one active. */
  method GenerateGalleryDots(count: nat) returns (dots: seq<bool>)
    ensures dots == Highlight(count, 0)
  {
    dots := [];
    var index := 0;
    while index < count
      invariant 0 <= index <= count && |dots| == index
      invariant forall j :: 0 <= j < index ==> (dots[j] <==> j == 0)
    {
      dots := dots + [index == 0];
      index := index + 1;
    }
  }

  class GalleryController {
    /** What initGallerySystem found on the page: the images behind the
        thumbnails and which of the optional elements exist. */
    const page: Page
    /** The main view: the auto-cycle globals, the swap in progress, the
        image element and the dots. */
    var view: MainView
    /** The lightbox: currentIndex, isLoading, the load chain, its image,
        counter and overlay classes. */
    var lightbox: Lightbox
    /** Class 'active' of each `.gallery-thumb`. */
    var thumbActive: seq<bool>

    function Snapshot(): State
      reads this
    {
      State(page, view, lightbox, thumbActive)
    }

    predicate Valid()
      reads this
    {
      Inv(Snapshot())
    }

    /** initGallerySystem (js/main.js:785-958) up to its first asynchronous
        step, on a page whose thumbnails show `thumbSources`. */
    constructor (thumbSources: seq<string>, initialThumbActive: seq<bool>,
                 mainImagePresent: bool, dotsContainerPresent: bool, mainGalleryPresent: bool,
                 initialMainSrc: string)
      ensures Snapshot() == Initial(thumbSources, initialThumbActive, mainImagePresent,
                                    dotsContainerPresent, mainGalleryPresent, initialMainSrc)
      ensures Valid()
    {
      page := Page(thumbSources, |initialThumbActive|, mainImagePresent, dotsContainerPresent,
                  mainGalleryPresent);
      view := MainView(0, false, false, false, SwapIdle, initialMainSrc, false, [],
                       false, false, {}, 0);
      lightbox := Lightbox(0, false, LoadIdle, "", Counter(0, 1), false, false, 0, 0, 0, 0);
      thumbActive := initialThumbActive;
      new;
      if |thumbSources| == 0 {
        return;
      }
      // the preload of the first image
      view := view.(firstPreloadPending := true);
    }

    // -----------------------------------------------------------------------
    // The main view

    method UpdateMainGalleryImage(index: int)
      requires Valid()
      modifies this
      ensures Snapshot() == UpdateMainImage(old(Snapshot()), index)
      ensures Valid()
    {
      if !page.hasMainImage || !(0 <= index < |page.images|) || page.images[index] == "" {
        return;
      }
      if view.transitioning {
        return;
      }
      view := view.(transitioning := true);
      // the 500 ms fade-out timer
      view := view.(swap := FadingOut(index));
      thumbActive := UpdateActiveThumbnail(thumbActive, index);
      var dots := UpdateActiveDot(view.dotActive, index);
      view := view.(dotActive := dots);
    }

    method StopMainGalleryAutoCycle()
      requires Valid()
      modifies this
      ensures Snapshot() == old(Snapshot()).(main := StopAutoCycle(old(view)))
      ensures Valid()
    {
      if view.intervalActive {
        view := view.(intervalActive := false);
      }
    }

    method ManualNavigateGallery(direction: int)
      requires Valid()
      modifies this
      ensures Snapshot() == NavigateMain(old(Snapshot()), direction)
      ensures Valid()
    {
      ghost var s0 := Snapshot();
      if !view.autoPlayStopped {
        StopMainGalleryAutoCycle();
        view := view.(autoPlayStopped := true);
      }
      var index := view.cycleIndex + direction;
      if index >= |page.images| {
        index := 0;
      } else if index < 0 {
        index := |page.images| - 1;
      }
      assert index == Wrap(s0.main.cycleIndex + direction, |page.images|);
      view := view.(cycleIndex := index);
      ghost var s1 := Snapshot();
      assert s1 == StopForNavigation(s0, index);
      UpdateMainGalleryImage(index);
      ghost var s2 := Snapshot();
      var dots := UpdateActiveDot(view.dotActive, index);
      view := view.(dotActive := dots);
      assert Snapshot() == HighlightDot(s2, index);
    }

    /** touchend on the main view with the two recorded screen positions. */
    method HandleSwipe(touchStartX: int, touchEndX: int)
      requires Valid()
      modifies this
      ensures Snapshot() == SwipeMain(old(Snapshot()), touchStartX, touchEndX)
      ensures Valid()
    {
      if |page.images| == 0 || !page.hasMainGallery {
        return;  // the listener was never bound
      }
      var diff := touchStartX - touchEndX;
      if (if diff < 0 then -diff else diff) > 50 {
        if diff > 0 {
          ManualNavigateGallery(1);
        } else {
          ManualNavigateGallery(-1);
        }
      }
    }

    /** The `onclick` of dot `k`. */
    method DotClick(k: nat)
      requires Valid() && k < |view.dotActive|
      modifies this
      ensures Snapshot() == ClickDot(old(Snapshot()), k)
      ensures Valid()
    {
      StopMainGalleryAutoCycle();
      view := view.(autoPlayStopped := true, cycleIndex := k);
      UpdateMainGalleryImage(k);
      var dots := UpdateActiveDot(view.dotActive, k);
      view := view.(dotActive := dots);
    }

    /** The 5 s interval fires. */
    method AutoTick()
      requires Valid() && view.intervalActive
      modifies this
      ensures Snapshot() == Tick(old(Snapshot()))
      ensures Valid()
    {
      if view.autoPlayStopped {
        StopMainGalleryAutoCycle();
        return;
      }
      var index := (view.cycleIndex + 1) % |page.images|;
      view := view.(cycleIndex := index);
      UpdateMainGalleryImage(index);
    }

    /** The 500 ms timer after the first image: startMainGalleryAutoCycle,
        which starts one preload per image. */
    method StartMainGalleryAutoCycle()
      requires Valid() && view.autoStartPending
      modifies this
      ensures Snapshot() == StartAutoCycle(old(Snapshot()))
      ensures Valid()
    {
      view := view.(autoStartPending := false);
      if view.autoPlayStopped {
        return;
      }
      if |page.images| == 0 {
        return;
      }
      var preloads: set<nat> := {};
      var i := 0;
      while i < |page.images|
        invariant 0 <= i <= |page.images|
        invariant preloads == Indices(i)
      {
        preloads := preloads + {i};
        i := i + 1;
      }
      view := view.(loadedCount := 0, autoPreloads := preloads);
    }

    /** The `onload` or `onerror` of the auto-cycle preload of image `i`. */
    method AutoPreloadDone(i: nat)
      requires Valid() && i in view.autoPreloads
      modifies this
      ensures Snapshot() == AutoPreload(old(Snapshot()), i)
      ensures Valid()
    {
      view := view.(autoPreloads := view.autoPreloads - {i}, loadedCount := view.loadedCount + 1);
      if view.loadedCount == |page.images| && !view.intervalActive {
        view := view.(intervalActive := true);
      }
    }

    /** The `onload` of the first-image preload. */
    method FirstImageLoaded()
      requires Valid() && view.firstPreloadPending
      modifies this
      ensures Snapshot() == FirstPreload(old(Snapshot()), true)
      ensures Valid()
    {
      ghost var target := FirstPreload(Snapshot(), true);
      var dots := view.dotActive;
      if page.hasDotsContainer {
        dots := GenerateGalleryDots(|page.images|);
      }
      thumbActive := UpdateActiveThumbnail(thumbActive, 0);
      // the main image shows the first picture; with more than one picture
      // the 500 ms timer that starts the auto-cycle is set
      var v := view.(firstPreloadPending := false,
                     src := if page.hasMainImage then page.images[0] else view.src,
                     dotActive := dots,
                     autoStartPending := view.autoStartPending || |page.images| > 1);
      assert v == target.main && thumbActive == target.thumbActive;
      view := v;
    }

    /** The `onerror` of the first-image preload: only visual work. */
    method FirstImageFailed()
      requires Valid() && view.firstPreloadPending
      modifies this
      ensures Snapshot() == FirstPreload(old(Snapshot()), false)
      ensures Valid()
    {
      view := view.(firstPreloadPending := false);
    }

    /** The 500 ms fade-out timer of a swap. */
    method FadeOutDone()
      requires Valid() && view.swap.FadingOut?
      modifies this
      ensures Snapshot() == FadeOut(old(Snapshot()))
      ensures Valid()
    {
      var index := view.swap.target;
      view := view.(blurred := true, src := page.images[index], swap := Preloading(index));
    }

    /** The swap's preload: `onload` (ok) or a failure nothing listens to. */
    method SwapPreloadDone(ok: bool)
      requires Valid() && view.swap.Preloading?
      modifies this
      ensures Snapshot() == SwapPreload(old(Snapshot()), ok)
      ensures Valid()
    {
      if ok {
        view := view.(blurred := false, transitioning := false, swap := SwapIdle);
      } else {
        view := view.(swap := SwapStalled(view.swap.target));
      }
    }

    // -----------------------------------------------------------------------
    // The lightbox

    method OpenLightbox(index: int)
      requires Valid()
      modifies this
      ensures Snapshot() == Open(old(Snapshot()), index)
      ensures Valid()
    {
      var i := index;
      if i < 0 || i >= |page.images| {
        i := 0;
      }
      lightbox := lightbox.(currentIndex := i);
      StopMainGalleryAutoCycle();
      view := view.(autoPlayStopped := true);
      thumbActive := UpdateActiveThumbnail(thumbActive, i);
      lightbox := lightbox.(counter := Counter(i, |page.images|), src := "", shown := true);
      // the frame that adds 'active', and the preload of the image
      lightbox := lightbox.(activatePending := lightbox.activatePending + 1,
                            openPreloads := lightbox.openPreloads + 1);
    }

    /** A click on the main view; `onControl` when it hit a button or a dot. */
    method MainImageClick(onControl: bool)
      requires Valid()
      modifies this
      ensures Snapshot() == ClickMain(old(Snapshot()), onControl)
      ensures Valid()
    {
      if |page.images| == 0 || !page.hasMainGallery || onControl {
        return;
      }
      OpenLightbox(view.cycleIndex);
    }

    /** The frame after openLightbox. */
    method ActivateFrame()
      requires Valid() && lightbox.activatePending > 0
      modifies this
      ensures Snapshot() == Activate(old(Snapshot()))
      ensures Valid()
    {
      lightbox := lightbox.(activatePending := lightbox.activatePending - 1, active := true);
    }

    /** The open preload's `onload` (ok) or a failure nothing listens to. */
    method OpenPreloadDone(ok: bool)
      requires Valid() && lightbox.openPreloads > 0
      modifies this
      ensures Snapshot() == OpenPreload(old(Snapshot()), ok)
      ensures Valid()
    {
      lightbox := lightbox.(openPreloads := lightbox.openPreloads - 1);
      if ok {
        lightbox := lightbox.(src := ImageSrc(page.images, lightbox.currentIndex));
      }
    }

    method LoadLightboxImage(index: int)
      requires Valid() && IndexShape(index, |page.images|)
      modifies this
      ensures Snapshot() == LoadImage(old(Snapshot()), index)
      ensures Valid()
    {
      if lightbox.isLoading {
        return;
      }
      lightbox := lightbox.(isLoading := true);
      thumbActive := UpdateActiveThumbnail(thumbActive, index);
      // the 200 ms fade-out timer
      lightbox := lightbox.(load := LoadFadingOut(index));
    }

    method NavigateLightbox(direction: int)
      requires Valid()
      modifies this
      ensures Snapshot() == Navigate(old(Snapshot()), direction)
      ensures Valid()
    {
      if lightbox.isLoading {
        return;
      }
      var index := lightbox.currentIndex + direction;
      if index >= |page.images| {
        index := 0;
      } else if index < 0 {
        index := |page.images| - 1;
      }
      lightbox := lightbox.(currentIndex := index);
      LoadLightboxImage(index);
    }

    method LoadFadeOutDone()
      requires Valid() && lightbox.load.LoadFadingOut?
      modifies this
      ensures Snapshot() == LoadFadeOut(old(Snapshot()))
      ensures Valid()
    {
      lightbox := lightbox.(load := LoadPreloading(lightbox.load.target));
    }

    method LoadPreloadDone(ok: bool)
      requires Valid() && lightbox.load.LoadPreloading?
      modifies this
      ensures Snapshot() == LoadPreload(old(Snapshot()), ok)
      ensures Valid()
    {
      var index := lightbox.load.target;
      if ok {
        // the 100 ms timer before the swap
        lightbox := lightbox.(load := LoadSwapDelay(index));
      } else {
        lightbox := lightbox.(load := LoadStalled(index));
      }
    }

    method LoadSwapTimer()
      requires Valid() && lightbox.load.LoadSwapDelay?
      modifies this
      ensures Snapshot() == LoadSwap(old(Snapshot()))
      ensures Valid()
    {
      var index := lightbox.load.target;
      lightbox := lightbox.(src := ImageSrc(page.images, index),
                            counter := Counter(index, |page.images|),
                            load := LoadRevealing(index));
    }

    method LoadChainDone()
      requires Valid() && lightbox.load.LoadRevealing?
      modifies this
      ensures Snapshot() == LoadEnd(old(Snapshot()))
      ensures Valid()
    {
      lightbox := lightbox.(isLoading := false, load := LoadIdle);
    }

    method CloseLightbox()
      requires Valid()
      modifies this
      ensures Snapshot() == Close(old(Snapshot()))
      ensures Valid()
    {
      thumbActive := UpdateActiveThumbnail(thumbActive, -1);
      // the 150 ms timer
      lightbox := lightbox.(closeFadePending := lightbox.closeFadePending + 1);
    }

    method CloseFadeDone()
      requires Valid() && lightbox.closeFadePending > 0
      modifies this
      ensures Snapshot() == CloseFade(old(Snapshot()))
      ensures Valid()
    {
      lightbox := lightbox.(closeFadePending := lightbox.closeFadePending - 1, active := false);
      // the 300 ms timer
      lightbox := lightbox.(closeHidePending := lightbox.closeHidePending + 1);
    }

    method CloseHideDone()
      requires Valid() && lightbox.closeHidePending > 0
      modifies this
      ensures Snapshot() == CloseHide(old(Snapshot()))
      ensures Valid()
    {
      lightbox := lightbox.(closeHidePending := lightbox.closeHidePending - 1, shown := false);
    }

    method KeyDown(key: Key)
      requires Valid()
      modifies this
      ensures Snapshot() == KeyPress(old(Snapshot()), key)
      ensures Valid()
    {
      if |page.images| == 0 || !lightbox.active {
        return;
      }
      if key == Escape {
        CloseLightbox();
      } else if key == ArrowLeft {
        NavigateLightbox(-1);
      } else if key == ArrowRight {
        NavigateLightbox(1);
      }
    }

    method BackdropClick()
      requires Valid()
      modifies this
      ensures Snapshot() == Backdrop(old(Snapshot()))
      ensures Valid()
    {
      if |page.images| == 0 {
        return;
      }
      CloseLightbox();
    }
  }
}
