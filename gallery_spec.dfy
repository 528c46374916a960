/** The image gallery and lightbox of a mod page (js/main.js:363-958), as a
    state machine over values. Every global the gallery code keeps, every
    class or source it sets on the page, and every timer or image callback it
    has scheduled but not yet run, is a field of `State`; every handler and
    every callback is a step function. A timer expiry or an `onload` that is
    followed by an animation frame is one step. The class in gallery.dfy runs
    the same handlers imperatively and is proved to follow these functions;
    the lemmas in gallery_lemmas.dfy state what the gallery guarantees. */
module GallerySpec {
  import opened Wrappers
  import opened Text

  /** The crossfade of the main image started by `updateMainGalleryImage`. */
  datatype SwapPhase =
    | SwapIdle
    | FadingOut(target: nat)    // the 500 ms fade-out timer is pending
    | Preloading(target: nat)   // the full-size preload is pending (it has no onerror)
    | SwapStalled(target: nat)  // that preload failed: nothing will ever clear the flag

  /** The chain started by `loadLightboxImage`. */
  datatype LoadPhase =
    | LoadIdle
    | LoadFadingOut(target: int)   // 200 ms fade-out timer
    | LoadPreloading(target: int)  // preload pending (it has no onerror)
    | LoadSwapDelay(target: int)   // 100 ms timer after onload
    | LoadRevealing(target: int)   // 200 ms timer, then the frame that clears isLoading
    | LoadStalled(target: int)     // the preload failed: isLoading stays true

  datatype Key = Escape | ArrowLeft | ArrowRight | OtherKey

  /** The lightbox counter, which shows `${index + 1} / ${total}`. */
  datatype Counter = Counter(index: int, total: nat)

  /** What initGallerySystem finds on the page; no handler changes it. */
  datatype Page = Page(
    images: seq<string>,        // galleryImages: the `.gallery-thumb img` sources
    thumbCount: nat,            // number of `.gallery-thumb` elements
    hasMainImage: bool,         // #mainDisplayImage exists
    hasDotsContainer: bool,     // #galleryDots exists
    hasMainGallery: bool        // .mod-gallery-main exists
  )

  /** The main view and its auto-cycle. */
  datatype MainView = MainView(
    cycleIndex: int,            // currentCycleIndex
    autoPlayStopped: bool,
    intervalActive: bool,       // mainGalleryInterval != null
    transitioning: bool,        // mainImg.dataset.transitioning === 'true'
    swap: SwapPhase,
    src: string,                // mainImg.src
    blurred: bool,              // mainImg has class 'loading'
    dotActive: seq<bool>,       // class 'active' of each `.gallery-dot`
    firstPreloadPending: bool,  // the first-image preload of initGallerySystem
    autoStartPending: bool,     // the 500 ms timer that calls startMainGalleryAutoCycle
    autoPreloads: set<nat>,     // images whose auto-cycle preload has not called back
    loadedCount: nat            // its loadedCount
  )

  /** The lightbox overlay. */
  datatype Lightbox = Lightbox(
    currentIndex: int,
    isLoading: bool,
    load: LoadPhase,
    src: string,                // #lightboxImage src
    counter: Counter,           // #lightboxCounter text
    shown: bool,                // display is 'flex'
    active: bool,               // class 'active'
    activatePending: nat,       // frames that will add 'active'
    openPreloads: nat,          // preloads started by openLightbox
    closeFadePending: nat,      // 150 ms timers of closeLightbox
    closeHidePending: nat       // 300 ms timers of closeLightbox
  )

  datatype State = State(
    page: Page,
    main: MainView,
    box: Lightbox,
    thumbActive: seq<bool>      // class 'active' of each `.gallery-thumb`
  )

  /** What can happen to the gallery: user input, timers, image callbacks. */
  datatype Event =
    | FirstPreloadDone(ok: bool)       // first image of initGallerySystem loaded / failed
    | AutoStartTimer                   // 500 ms after that: startMainGalleryAutoCycle
    | AutoPreloadDone(i: nat)          // one auto-cycle preload called back (either way)
    | AutoTick                         // the 5 s interval fired
    | FadeOutDone                      // 500 ms timer of updateMainGalleryImage
    | SwapPreloadDone(ok: bool)        // its preload loaded / failed
    | NavButton(direction: int)        // manualNavigateGallery(direction)
    | Swipe(startX: int, endX: int)    // touchstart / touchend on the main view
    | DotClick(k: nat)                 // click on the k-th dot
    | MainClick(onControl: bool)       // click on the main view (on a button or dot?)
    | OpenCall(index: int)             // openLightbox(index)
    | ActivateFrame                    // the frame that adds 'active' to the lightbox
    | OpenPreloadDone(ok: bool)        // the preload of openLightbox loaded / failed
    | NavigateCall(direction: int)     // navigateLightbox(direction)
    | LoadFadeOutDone                  // the steps of the loadLightboxImage chain
    | LoadPreloadDone(ok: bool)
    | LoadSwapTimer
    | LoadChainDone
    | CloseCall                        // closeLightbox()
    | CloseFadeDone
    | CloseHideDone
    | KeyDown(key: Key)
    | BackdropClick

  // -------------------------------------------------------------------------
  // Pure rules used by the handlers

  /** The index range the wrap rule keeps: [0, n) and, for an empty gallery,
      the two values 0 and -1 that the rule produces there. */
  predicate IndexShape(i: int, n: nat) {
    if n == 0 then -1 <= i <= 0 else 0 <= i < n
  }

  /** The "loop around" of manualNavigateGallery and navigateLightbox
      (js/main.js:474-478, 748-752). */
  function Wrap(i: int, n: nat): (r: int)
    ensures IndexShape(r, n)
    ensures 0 <= i < n ==> r == i
  {
    if i >= n then 0 else if i < 0 then n - 1 else i
  }

  /** A list of class flags after "remove 'active' from all, add it to
      element `index`": exactly the element at `index` is active. */
  function Highlight(len: nat, index: int): (r: seq<bool>)
    ensures |r| == len
    ensures forall j :: 0 <= j < len ==> (r[j] <==> j == index)
  {
    seq(len, j => j == index)
  }

  /** The indices 0 .. n-1. */
  function Indices(n: nat): (r: set<nat>)
    ensures forall i: nat :: i in r <==> i < n
  {
    if n == 0 then {} else Indices(n - 1) + {n - 1}
  }

  /** `galleryImages[k]` assigned to an `src`: "undefined" past either end. */
  function ImageSrc(images: seq<string>, k: int): string {
    if 0 <= k < |images| then images[k] else "undefined"
  }

  /** The text of the lightbox counter, `${index + 1} / ${galleryImages.length}`. */
  function CounterText(c: Counter): string
    requires c.index >= -1
  {
    Decimal(c.index + 1) + " / " + Decimal(c.total)
  }

  /** The swipe decision of handleSwipe (js/main.js:919-931): next for a
      leftward swipe longer than 50 px, previous for a rightward one. */
  function SwipeDirection(startX: int, endX: int): (r: Option<int>)
    ensures r == Some(1) <==> startX - endX > 50
    ensures r == Some(-1) <==> endX - startX > 50
    ensures r == None <==> -50 <= startX - endX <= 50
  {
    var diff := startX - endX;
    if (if diff < 0 then -diff else diff) > 50 then
      if diff > 0 then Some(1) else Some(-1)
    else None
  }

  // -------------------------------------------------------------------------
  // Initial state and invariant

  /** initGallerySystem up to its first asynchronous step: with no images it
      returns at once; otherwise it starts preloading the first image. */
  function Initial(images: seq<string>, thumbActive: seq<bool>, hasMainImage: bool,
                   hasDotsContainer: bool, hasMainGallery: bool, mainSrc: string): (s: State)
    ensures Inv(s)
    ensures |images| == 0 ==> Quiet(s)
    ensures |images| > 0 ==> s.main.firstPreloadPending
  {
    State(Page(images, |thumbActive|, hasMainImage, hasDotsContainer, hasMainGallery),
          MainView(0, false, false, false, SwapIdle, mainSrc, false, [],
                   |images| > 0, false, {}, 0),
          Lightbox(0, false, LoadIdle, "", Counter(0, 1), false, false, 0, 0, 0, 0),
          thumbActive)
  }

  /** Nothing is scheduled: no timer, interval, preload or frame is pending. */
  predicate Quiet(s: State) {
    && !s.main.intervalActive && s.main.swap == SwapIdle && !s.main.firstPreloadPending
    && !s.main.autoStartPending && s.main.autoPreloads == {} && s.box.load == LoadIdle
    && s.box.activatePending == 0 && s.box.openPreloads == 0
    && s.box.closeFadePending == 0 && s.box.closeHidePending == 0
  }

  function LoadTarget(p: LoadPhase): int
    requires !p.LoadIdle?
  {
    match p
    case LoadFadingOut(k) => k
    case LoadPreloading(k) => k
    case LoadSwapDelay(k) => k
    case LoadRevealing(k) => k
    case LoadStalled(k) => k
  }

  predicate MainInv(p: Page, m: MainView) {
    var n := |p.images|;
    && IndexShape(m.cycleIndex, n)
    && (m.transitioning <==> !m.swap.SwapIdle?)
    && (!m.swap.SwapIdle? ==> m.swap.target < n)
    && |m.dotActive| <= n
    && (m.intervalActive ==> n >= 1)
    && (m.firstPreloadPending ==> n >= 1)
    && (forall i :: i in m.autoPreloads ==> i < n)
  }

  predicate BoxInv(p: Page, b: Lightbox) {
    var n := |p.images|;
    && IndexShape(b.currentIndex, n)
    && (b.isLoading <==> !b.load.LoadIdle?)
    && (!b.load.LoadIdle? ==> IndexShape(LoadTarget(b.load), n))
    && b.counter.index >= -1
  }

  predicate Inv(s: State) {
    MainInv(s.page, s.main) && BoxInv(s.page, s.box) && |s.thumbActive| == s.page.thumbCount
  }

  /** Nothing of the auto-cycle is left: stopped, no interval, no preload of
      its own and no timer that could start one. */
  predicate AutoCycleDead(m: MainView) {
    && m.autoPlayStopped && !m.intervalActive && m.autoPreloads == {}
    && !m.autoStartPending && !m.firstPreloadPending
  }

  /** What no handler undoes in the main view: a stopped auto-play, a dead
      auto-cycle, and a stalled swap (the image stays blurred and, once the
      first-image preload is over, its source stays fixed). */
  predicate KeepsMain(m: MainView, m': MainView) {
    && (m.autoPlayStopped ==> m'.autoPlayStopped)
    && (AutoCycleDead(m) ==> AutoCycleDead(m'))
    && (m.swap.SwapStalled? && m.blurred ==>
          m'.swap == m.swap && m'.blurred && (!m.firstPreloadPending ==> m'.src == m.src))
  }

  /** What no handler undoes in the lightbox: a stalled load chain. */
  predicate KeepsBox(b: Lightbox, b': Lightbox) {
    b.load.LoadStalled? ==> b'.load == b.load
  }

  /** A handler of the main view: it keeps the invariant, leaves the page and
      the lightbox alone, undoes nothing `KeepsMain` protects and never clears
      the swap flag (only the swap's own preload does, see SwapPreload). */
  predicate MainStep(s: State, r: State) {
    && Inv(r) && r.page == s.page && r.box == s.box
    && KeepsMain(s.main, r.main) && (s.main.transitioning ==> r.main.transitioning)
  }

  /** A handler of the lightbox: it keeps the invariant, leaves the page and
      the main view alone, undoes nothing `KeepsBox` protects and never clears
      the loading flag (only the end of the load chain does, see LoadEnd). */
  predicate BoxStep(s: State, r: State) {
    && Inv(r) && r.page == s.page && r.main == s.main
    && KeepsBox(s.box, r.box) && (s.box.isLoading ==> r.box.isLoading)
  }

  // -------------------------------------------------------------------------
  // Handlers of the main view

  /** updateMainGalleryImage(index) (js/main.js:386-423): dropped, not queued,
      when there is no main image, no image at `index`, or a swap in flight;
      otherwise it marks the swap, starts the fade-out timer and moves the
      thumbnail and dot highlights. */
  function UpdateMainImage(s: State, index: int): (r: State)
    requires Inv(s)
    ensures MainStep(s, r) && r.main.cycleIndex == s.main.cycleIndex
  {
    var m := s.main;
    if !s.page.hasMainImage || !(0 <= index < |s.page.images|) || s.page.images[index] == ""
       || m.transitioning
    then s
    else s.(main := m.(transitioning := true, swap := FadingOut(index),
                       dotActive := Highlight(|m.dotActive|, index)),
            thumbActive := Highlight(s.page.thumbCount, index))
  }

  /** stopMainGalleryAutoCycle: clearing an interval that is not set is harmless. */
  function StopAutoCycle(m: MainView): (r: MainView)
    ensures !r.intervalActive
    ensures r.(intervalActive := m.intervalActive) == m
  {
    m.(intervalActive := false)
  }

  /** manualNavigateGallery(direction) (js/main.js:464-482): stops the
      auto-cycle the first time, wraps the index, asks for the swap and moves
      the dot highlight whether or not the swap was dropped. */
  function NavigateMain(s: State, direction: int): (r: State)
    requires Inv(s)
    ensures MainStep(s, r) && r.main.autoPlayStopped
    ensures r.main.cycleIndex == Wrap(s.main.cycleIndex + direction, |s.page.images|)
  {
    var idx := Wrap(s.main.cycleIndex + direction, |s.page.images|);
    HighlightDot(UpdateMainImage(StopForNavigation(s, idx), idx), idx)
  }

  /** The first half of manualNavigateGallery: the first manual step stops
      the auto-cycle for good; then the index moves. */
  function StopForNavigation(s: State, index: int): (r: State)
    requires Inv(s) && IndexShape(index, |s.page.images|)
    ensures Inv(r) && r.main.autoPlayStopped && r.main.cycleIndex == index
  {
    var m := s.main;
    s.(main := (if m.autoPlayStopped then m else StopAutoCycle(m).(autoPlayStopped := true))
                 .(cycleIndex := index))
  }

  /** updateActiveDot(index) applied to the state. */
  function HighlightDot(s: State, index: int): State {
    s.(main := s.main.(dotActive := Highlight(|s.main.dotActive|, index)))
  }

  /** touchend on the main view (js/main.js:910-932). */
  function SwipeMain(s: State, startX: int, endX: int): (r: State)
    requires Inv(s)
    ensures MainStep(s, r)
    ensures SwipeDirection(startX, endX) == None || !MainViewBound(s) ==> r == s
    ensures MainViewBound(s) && SwipeDirection(startX, endX) == Some(1) ==> r == NavigateMain(s, 1)
    ensures MainViewBound(s) && SwipeDirection(startX, endX) == Some(-1) ==> r == NavigateMain(s, -1)
  {
    if !MainViewBound(s) then s
    else
      match SwipeDirection(startX, endX)
      case Some(d) => NavigateMain(s, d)
      case None => s
  }

  /** The `onclick` of the k-th dot (js/main.js:438-446). */
  function ClickDot(s: State, k: nat): (r: State)
    requires Inv(s) && k < |s.main.dotActive|
    ensures MainStep(s, r) && r.main.autoPlayStopped && !r.main.intervalActive
    ensures r.main.cycleIndex == k
  {
    var s1 := s.(main := StopAutoCycle(s.main).(autoPlayStopped := true, cycleIndex := k));
    var s2 := UpdateMainImage(s1, k);
    s2.(main := s2.main.(dotActive := Highlight(|s2.main.dotActive|, k)))
  }

  /** A tick of the 5 s interval (js/main.js:510-517): stops itself once
      auto-play is stopped, else advances the index, whether or not the swap
      it asks for is dropped. */
  function Tick(s: State): (r: State)
    requires Inv(s) && s.main.intervalActive
    ensures MainStep(s, r)
    ensures s.main.autoPlayStopped ==> r.main.cycleIndex == s.main.cycleIndex
  {
    var m := s.main;
    if m.autoPlayStopped then s.(main := StopAutoCycle(m))
    else
      var idx := (m.cycleIndex + 1) % |s.page.images|;
      UpdateMainImage(s.(main := m.(cycleIndex := idx)), idx)
  }

  /** startMainGalleryAutoCycle (js/main.js:485-536), run by the 500 ms timer:
      unless stopped, it preloads every image before the interval can start. */
  function StartAutoCycle(s: State): (r: State)
    requires Inv(s) && s.main.autoStartPending
    ensures MainStep(s, r) && r.main.cycleIndex == s.main.cycleIndex
    ensures r.main.autoPreloads == (if s.main.autoPlayStopped then s.main.autoPreloads
                                    else Indices(|s.page.images|))
  {
    var m := s.main.(autoStartPending := false);
    if m.autoPlayStopped || |s.page.images| == 0 then s.(main := m)
    else s.(main := m.(autoPreloads := Indices(|s.page.images|), loadedCount := 0))
  }

  /** An `onload` or `onerror` of one auto-cycle preload: both count it, and
      the last one starts the interval if none is set, without looking at
      autoPlayStopped. */
  function AutoPreload(s: State, i: nat): (r: State)
    requires Inv(s) && i in s.main.autoPreloads
    ensures MainStep(s, r) && r.main.cycleIndex == s.main.cycleIndex
    ensures r.main.intervalActive <==>
              s.main.intervalActive || s.main.loadedCount + 1 == |s.page.images|
  {
    var m := s.main;
    var count := m.loadedCount + 1;
    s.(main := m.(autoPreloads := m.autoPreloads - {i}, loadedCount := count,
                  intervalActive := m.intervalActive || count == |s.page.images|))
  }

  /** The first-image preload of initGallerySystem (js/main.js:806-852). On
      load: show image 0, generate the dots (dot 0 active), highlight
      thumbnail 0 and, with more than one image, schedule the auto-cycle.
      On error: only visual work, so no dots and no auto-cycle ever. */
  function FirstPreload(s: State, ok: bool): (r: State)
    requires Inv(s) && s.main.firstPreloadPending
    ensures MainStep(s, r) && r.main.cycleIndex == s.main.cycleIndex
    ensures r.main.autoStartPending <==> s.main.autoStartPending || (ok && |s.page.images| > 1)
  {
    var m := s.main;
    if !ok then s.(main := m.(firstPreloadPending := false))
    else
      var p := s.page;
      s.(main := m.(firstPreloadPending := false,
                    src := if p.hasMainImage then p.images[0] else m.src,
                    dotActive := if p.hasDotsContainer then Highlight(|p.images|, 0) else m.dotActive,
                    autoStartPending := m.autoStartPending || |p.images| > 1),
         thumbActive := Highlight(p.thumbCount, 0))
  }

  /** The 500 ms timer of updateMainGalleryImage: blur, swap the source,
      start the full-size preload. */
  function FadeOut(s: State): (r: State)
    requires Inv(s) && s.main.swap.FadingOut?
    ensures MainStep(s, r) && r.main.cycleIndex == s.main.cycleIndex
    ensures r.main.src == s.page.images[s.main.swap.target] && r.main.blurred
  {
    var m := s.main;
    var k := m.swap.target;
    s.(main := m.(blurred := true, src := s.page.images[k], swap := Preloading(k)))
  }

  /** The swap's preload: `onload` (with its frame) unblurs and clears the
      flag; there is no `onerror`, so a failure leaves the flag set. */
  function SwapPreload(s: State, ok: bool): (r: State)
    requires Inv(s) && s.main.swap.Preloading?
    ensures Inv(r) && r.page == s.page && r.box == s.box && KeepsMain(s.main, r.main)
    ensures r.main.cycleIndex == s.main.cycleIndex
    ensures !r.main.transitioning <==> ok
  {
    var m := s.main;
    if ok then s.(main := m.(blurred := false, transitioning := false, swap := SwapIdle))
    else s.(main := m.(swap := SwapStalled(m.swap.target)))
  }

  /** The listeners that initGallerySystem binds after its early return:
      they exist only when the gallery has images. */
  predicate HandlersBound(s: State) {
    |s.page.images| > 0
  }

  /** The click and touch listeners of the main view are bound only when
      the page also has a `.mod-gallery-main` element (js/main.js:896-898). */
  predicate MainViewBound(s: State) {
    HandlersBound(s) && s.page.hasMainGallery
  }

  // -------------------------------------------------------------------------
  // Handlers of the lightbox

  /** openLightbox(index) (js/main.js:646-703): clamps the index, stops the
      auto-cycle for good, highlights the thumbnail, sets the counter, clears
      the image and shows the overlay. */
  function Open(s: State, index: int): (r: State)
    requires Inv(s)
    ensures Inv(r) && r.page == s.page && KeepsBox(s.box, r.box)
    ensures r.main.autoPlayStopped && !r.main.intervalActive && KeepsMain(s.main, r.main)
    ensures r.main.cycleIndex == s.main.cycleIndex && r.main.transitioning == s.main.transitioning
    ensures s.box.isLoading ==> r.box.isLoading
    ensures var idx := if 0 <= index < |s.page.images| then index else 0;
      r.box.currentIndex == idx && r.box.counter == Counter(idx, |s.page.images|)
  {
    var n := |s.page.images|;
    var idx := if index < 0 || index >= n then 0 else index;
    var b := s.box;
    s.(main := StopAutoCycle(s.main).(autoPlayStopped := true),
       box := b.(currentIndex := idx, counter := Counter(idx, n), src := "", shown := true,
                 activatePending := b.activatePending + 1, openPreloads := b.openPreloads + 1),
       thumbActive := Highlight(s.page.thumbCount, idx))
  }

  /** A click on the main view opens the lightbox at the main view's index,
      unless it hit a navigation button or a dot (js/main.js:897-904). */
  function ClickMain(s: State, onControl: bool): (r: State)
    requires Inv(s)
    ensures Inv(r) && r.page == s.page && KeepsBox(s.box, r.box)
    ensures KeepsMain(s.main, r.main) && r.main.cycleIndex == s.main.cycleIndex
    ensures r.main.transitioning == s.main.transitioning
    ensures s.box.isLoading ==> r.box.isLoading
  {
    if !MainViewBound(s) || onControl then s else Open(s, s.main.cycleIndex)
  }

  /** The frame after openLightbox that adds class 'active'. */
  function Activate(s: State): (r: State)
    requires Inv(s) && s.box.activatePending > 0
    ensures BoxStep(s, r) && r.box.active
  {
    s.(box := s.box.(activatePending := s.box.activatePending - 1, active := true))
  }

  /** The open preload's `onload` shows the image at the lightbox index of
      that moment, not the one it was started for; it has no `onerror`. */
  function OpenPreload(s: State, ok: bool): (r: State)
    requires Inv(s) && s.box.openPreloads > 0
    ensures BoxStep(s, r)
    ensures r.box.src == if ok then ImageSrc(s.page.images, s.box.currentIndex) else s.box.src
  {
    var b := s.box.(openPreloads := s.box.openPreloads - 1);
    if ok then s.(box := b.(src := ImageSrc(s.page.images, s.box.currentIndex)))
    else s.(box := b)
  }

  /** loadLightboxImage(index) (js/main.js:598-643) up to its first timer:
      dropped while another image is loading. */
  function LoadImage(s: State, index: int): (r: State)
    requires Inv(s) && IndexShape(index, |s.page.images|)
    ensures BoxStep(s, r) && r.box.isLoading
    ensures !s.box.isLoading ==> r.box.load == LoadFadingOut(index)
  {
    if s.box.isLoading then s
    else s.(box := s.box.(isLoading := true, load := LoadFadingOut(index)),
            thumbActive := Highlight(s.page.thumbCount, index))
  }

  /** navigateLightbox(direction) (js/main.js:742-755). */
  function Navigate(s: State, direction: int): (r: State)
    requires Inv(s)
    ensures BoxStep(s, r) && r.box.isLoading
    ensures s.box.isLoading ==> r == s
    ensures !s.box.isLoading ==>
      r.box.currentIndex == Wrap(s.box.currentIndex + direction, |s.page.images|)
  {
    if s.box.isLoading then s
    else
      var idx := Wrap(s.box.currentIndex + direction, |s.page.images|);
      LoadImage(s.(box := s.box.(currentIndex := idx)), idx)
  }

  /** The 200 ms fade-out timer of the load chain starts the preload. */
  function LoadFadeOut(s: State): (r: State)
    requires Inv(s) && s.box.load.LoadFadingOut?
    ensures BoxStep(s, r)
    ensures r.box.load == LoadPreloading(LoadTarget(s.box.load)) && r.box.isLoading
  {
    s.(box := s.box.(load := LoadPreloading(s.box.load.target)))
  }

  /** The chain's preload: there is no `onerror`, so a failure stalls it. */
  function LoadPreload(s: State, ok: bool): (r: State)
    requires Inv(s) && s.box.load.LoadPreloading?
    ensures BoxStep(s, r)
    ensures r.box.load.LoadStalled? <==> !ok
  {
    var k := s.box.load.target;
    s.(box := s.box.(load := if ok then LoadSwapDelay(k) else LoadStalled(k)))
  }

  /** The 100 ms timer after `onload`: shows the image and the counter of the
      index the chain was started for. */
  function LoadSwap(s: State): (r: State)
    requires Inv(s) && s.box.load.LoadSwapDelay?
    ensures BoxStep(s, r)
    ensures var k := s.box.load.target;
      r.box.src == ImageSrc(s.page.images, k) && r.box.counter == Counter(k, |s.page.images|)
  {
    var k := s.box.load.target;
    s.(box := s.box.(src := ImageSrc(s.page.images, k), counter := Counter(k, |s.page.images|),
                     load := LoadRevealing(k)))
  }

  /** The 200 ms timer and the frame that end the chain and clear isLoading. */
  function LoadEnd(s: State): (r: State)
    requires Inv(s) && s.box.load.LoadRevealing?
    ensures Inv(r) && r.page == s.page && r.main == s.main && !r.box.isLoading
  {
    s.(box := s.box.(isLoading := false, load := LoadIdle))
  }

  /** closeLightbox() (js/main.js:706-739): clears the thumbnail highlight and
      starts two timers; nothing in it touches the auto-cycle. */
  function Close(s: State): (r: State)
    requires Inv(s)
    ensures BoxStep(s, r)
    ensures forall j :: 0 <= j < |r.thumbActive| ==> !r.thumbActive[j]
  {
    s.(thumbActive := Highlight(s.page.thumbCount, -1),
       box := s.box.(closeFadePending := s.box.closeFadePending + 1))
  }

  /** The 150 ms timer of closeLightbox: removes class 'active'. */
  function CloseFade(s: State): (r: State)
    requires Inv(s) && s.box.closeFadePending > 0
    ensures BoxStep(s, r) && !r.box.active
  {
    var b := s.box;
    s.(box := b.(closeFadePending := b.closeFadePending - 1, active := false,
                 closeHidePending := b.closeHidePending + 1))
  }

  /** The 300 ms timer after it: hides the overlay. */
  function CloseHide(s: State): (r: State)
    requires Inv(s) && s.box.closeHidePending > 0
    ensures BoxStep(s, r) && !r.box.shown
  {
    s.(box := s.box.(closeHidePending := s.box.closeHidePending - 1, shown := false))
  }

  /** The keyboard listener (js/main.js:936-947): only while the lightbox has
      class 'active'. */
  function KeyPress(s: State, key: Key): (r: State)
    requires Inv(s)
    ensures BoxStep(s, r)
    ensures !s.box.active ==> r == s
  {
    if !HandlersBound(s) || !s.box.active then s
    else if key == Escape then Close(s)
    else if key == ArrowLeft then Navigate(s, -1)
    else if key == ArrowRight then Navigate(s, 1)
    else s
  }

  /** A click on the lightbox backdrop itself (js/main.js:950-957). */
  function Backdrop(s: State): (r: State)
    requires Inv(s)
    ensures BoxStep(s, r)
  {
    if !HandlersBound(s) then s else Close(s)
  }

  // -------------------------------------------------------------------------
  // Events

  /** The events that move the main view by hand. */
  predicate MovesMainView(e: Event) {
    e.NavButton? || e.Swipe? || e.DotClick?
  }

  /** An event can only happen once something has scheduled it. */
  predicate Enabled(s: State, e: Event) {
    match e
    case FirstPreloadDone(_) => s.main.firstPreloadPending
    case AutoStartTimer => s.main.autoStartPending
    case AutoPreloadDone(i) => i in s.main.autoPreloads
    case AutoTick => s.main.intervalActive
    case FadeOutDone => s.main.swap.FadingOut?
    case SwapPreloadDone(_) => s.main.swap.Preloading?
    case DotClick(k) => k < |s.main.dotActive|
    case ActivateFrame => s.box.activatePending > 0
    case OpenPreloadDone(_) => s.box.openPreloads > 0
    case LoadFadeOutDone => s.box.load.LoadFadingOut?
    case LoadPreloadDone(_) => s.box.load.LoadPreloading?
    case LoadSwapTimer => s.box.load.LoadSwapDelay?
    case LoadChainDone => s.box.load.LoadRevealing?
    case CloseFadeDone => s.box.closeFadePending > 0
    case CloseHideDone => s.box.closeHidePending > 0
    case _ => true
  }

  /** The facts every step keeps: the invariant, the page, everything
      `KeepsMain` and `KeepsBox` protect, the two busy flags (each cleared by
      one event only) and, once auto-play is stopped, the main index unless
      the user moves it. */
  predicate StepKeeps(s: State, e: Event, r: State) {
    && Inv(r) && r.page == s.page
    && KeepsMain(s.main, r.main) && KeepsBox(s.box, r.box)
    && (s.main.transitioning && !r.main.transitioning ==> e == SwapPreloadDone(true))
    && (s.box.isLoading && !r.box.isLoading ==> e == LoadChainDone)
    && (s.main.autoPlayStopped && !MovesMainView(e) ==> r.main.cycleIndex == s.main.cycleIndex)
  }

  lemma MainStepKeeps(s: State, e: Event, r: State)
    requires Inv(s) && MainStep(s, r)
    requires s.main.autoPlayStopped && !MovesMainView(e) ==> r.main.cycleIndex == s.main.cycleIndex
    ensures StepKeeps(s, e, r)
  {
  }

  lemma BoxStepKeeps(s: State, e: Event, r: State)
    requires Inv(s) && BoxStep(s, r)
    ensures StepKeeps(s, e, r)
  {
  }

  /** The events handled by the main view alone. */
  predicate MainEvent(e: Event) {
    || e.FirstPreloadDone? || e.AutoStartTimer? || e.AutoPreloadDone? || e.AutoTick?
    || e.FadeOutDone? || e.SwapPreloadDone? || e.NavButton? || e.Swipe? || e.DotClick?
  }

  function MainViewStep(s: State, e: Event): (r: State)
    requires Inv(s) && Enabled(s, e) && MainEvent(e)
    ensures StepKeeps(s, e, r)
  {
    match e
    case FirstPreloadDone(ok) => var r := FirstPreload(s, ok); MainStepKeeps(s, e, r); r
    case AutoStartTimer => var r := StartAutoCycle(s); MainStepKeeps(s, e, r); r
    case AutoPreloadDone(i) => var r := AutoPreload(s, i); MainStepKeeps(s, e, r); r
    case AutoTick => var r := Tick(s); MainStepKeeps(s, e, r); r
    case FadeOutDone => var r := FadeOut(s); MainStepKeeps(s, e, r); r
    case SwapPreloadDone(ok) => SwapPreload(s, ok)
    case NavButton(d) => var r := NavigateMain(s, d); MainStepKeeps(s, e, r); r
    case Swipe(x0, x1) => var r := SwipeMain(s, x0, x1); MainStepKeeps(s, e, r); r
    case DotClick(k) => var r := ClickDot(s, k); MainStepKeeps(s, e, r); r
  }

  function LightboxStep(s: State, e: Event): (r: State)
    requires Inv(s) && Enabled(s, e) && !MainEvent(e)
    ensures StepKeeps(s, e, r)
  {
    match e
    case MainClick(onControl) => ClickMain(s, onControl)
    case OpenCall(i) => Open(s, i)
    case ActivateFrame => var r := Activate(s); BoxStepKeeps(s, e, r); r
    case OpenPreloadDone(ok) => var r := OpenPreload(s, ok); BoxStepKeeps(s, e, r); r
    case NavigateCall(d) => var r := Navigate(s, d); BoxStepKeeps(s, e, r); r
    case LoadFadeOutDone => var r := LoadFadeOut(s); BoxStepKeeps(s, e, r); r
    case LoadPreloadDone(ok) => var r := LoadPreload(s, ok); BoxStepKeeps(s, e, r); r
    case LoadSwapTimer => var r := LoadSwap(s); BoxStepKeeps(s, e, r); r
    case LoadChainDone => LoadEnd(s)
    case CloseCall => var r := Close(s); BoxStepKeeps(s, e, r); r
    case CloseFadeDone => var r := CloseFade(s); BoxStepKeeps(s, e, r); r
    case CloseHideDone => var r := CloseHide(s); BoxStepKeeps(s, e, r); r
    case KeyDown(key) => var r := KeyPress(s, key); BoxStepKeeps(s, e, r); r
    case BackdropClick => var r := Backdrop(s); BoxStepKeeps(s, e, r); r
  }

  function Step(s: State, e: Event): (r: State)
    requires Inv(s) && Enabled(s, e)
    ensures StepKeeps(s, e, r)
  {
    if MainEvent(e) then MainViewStep(s, e) else LightboxStep(s, e)
  }

  /** An event that has not been scheduled does not happen: it changes nothing. */
  function Apply(s: State, e: Event): (r: State)
    requires Inv(s)
    ensures StepKeeps(s, e, r)
  {
    if Enabled(s, e) then Step(s, e) else s
  }

  function Run(s: State, es: seq<Event>): (r: State)
    requires Inv(s)
    ensures Inv(r) && r.page == s.page
    decreases |es|
  {
    if es == [] then s else Run(Apply(s, es[0]), es[1..])
  }
}
