/** What the gallery of a mod page guarantees, and what it does not, proved
    about the step functions of GallerySpec: one-step facts about single
    handlers and facts about any run of events. */
module GalleryLemmas {
  import opened Wrappers
  import opened Text
  import opened GallerySpec

  // -------------------------------------------------------------------------
  // Arithmetic of the wrap rule

  lemma MulZero(k: int, n: int)
    requires n >= 1 && -n < n * k < n
    ensures k == 0
  {
  }

  lemma ModSmall(x: int, n: int)
    requires 0 <= x < n
    ensures x % n == x
  {
    var q := x / n;
    assert x == n * q + x % n;
    MulZero(q, n);
  }

  lemma ModPlus(y: int, n: int)
    requires n >= 1
    ensures (y + n) % n == y % n
  {
    var a, b := (y + n) / n, y / n;
    assert y + n == n * a + (y + n) % n;
    assert y == n * b + y % n;
    assert n * (a - b - 1) == y % n - (y + n) % n;
    MulZero(a - b - 1, n);
  }

  /** For a step of one, the wrap rule of manualNavigateGallery and
      navigateLightbox is arithmetic modulo the number of images. */
  lemma WrapIsMod(x: int, n: nat)
    requires n >= 1 && -1 <= x <= n
    ensures Wrap(x, n) == x % n
  {
    if x == n {
      ModPlus(0, n);
      ModSmall(0, n);
    } else if x == -1 {
      ModPlus(-1, n);
      ModSmall(n - 1, n);
    } else {
      ModSmall(x, n);
    }
  }

  lemma ModShift(c: int, d: int, e: int, n: nat)
    requires n >= 1 && 0 <= c < n && (d == 1 || d == -1)
    ensures ((c + d) % n + e) % n == (c + d + e) % n
  {
    WrapIsMod(c + d, n);
    if c + d == n {
      ModPlus(e, n);
    } else if c + d == -1 {
      ModPlus(e - 1, n);
    }
  }

  // -------------------------------------------------------------------------
  // Navigating the main view

  lemma RunHead(s: State, es: seq<Event>)
    requires Inv(s) && es != []
    ensures Run(s, es) == Run(Apply(s, es[0]), es[1..])
  {
  }

  /** `k` copies of one event. */
  function Repeat(e: Event, k: nat): (r: seq<Event>)
    ensures |r| == k
    ensures forall j :: 0 <= j < k ==> r[j] == e
  {
    seq(k, _ => e)
  }

  /** One press of a navigation button moves the main index one step around
      the circle, in both directions. */
  lemma NavButtonWraps(s: State, d: int)
    requires Inv(s) && |s.page.images| >= 1 && (d == 1 || d == -1)
    ensures Apply(s, NavButton(d)).main.cycleIndex == (s.main.cycleIndex + d) % |s.page.images|
  {
    WrapIsMod(s.main.cycleIndex + d, |s.page.images|);
  }

  /** `k` presses of "next" from index `c` land on `(c + k) mod n`, whether or
      not the swaps they ask for are dropped. */
  lemma {:induction false} NavForward(s: State, k: nat)
    requires Inv(s) && |s.page.images| >= 1
    ensures Run(s, Repeat(NavButton(1), k)).main.cycleIndex
            == (s.main.cycleIndex + k) % |s.page.images|
    decreases k
  {
    var n := |s.page.images|;
    if k == 0 {
      ModSmall(s.main.cycleIndex, n);
    } else {
      var es := Repeat(NavButton(1), k);
      var t := Apply(s, NavButton(1));
      NavButtonWraps(s, 1);
      assert es[1..] == Repeat(NavButton(1), k - 1);
      RunHead(s, es);
      NavForward(t, k - 1);
      ModShift(s.main.cycleIndex, 1, k - 1, n);
    }
  }

  /** `k` presses of "previous" from index `c` land on `(c - k) mod n`; from
      the first image one press goes to the last. */
  lemma {:induction false} NavBackward(s: State, k: nat)
    requires Inv(s) && |s.page.images| >= 1
    ensures Run(s, Repeat(NavButton(-1), k)).main.cycleIndex
            == (s.main.cycleIndex - k) % |s.page.images|
    decreases k
  {
    var n := |s.page.images|;
    if k == 0 {
      ModSmall(s.main.cycleIndex, n);
    } else {
      var es := Repeat(NavButton(-1), k);
      var t := Apply(s, NavButton(-1));
      NavButtonWraps(s, -1);
      assert es[1..] == Repeat(NavButton(-1), k - 1);
      RunHead(s, es);
      NavBackward(t, k - 1);
      ModShift(s.main.cycleIndex, -1, -(k - 1), n);
    }
  }

  /** The lightbox arrows wrap the same way, when they are not dropped. */
  lemma LightboxNavWraps(s: State, d: int)
    requires Inv(s) && |s.page.images| >= 1 && (d == 1 || d == -1) && !s.box.isLoading
    ensures Apply(s, NavigateCall(d)).box.currentIndex == (s.box.currentIndex + d) % |s.page.images|
  {
    WrapIsMod(s.box.currentIndex + d, |s.page.images|);
  }

  // -------------------------------------------------------------------------
  // Auto-play

  /** Navigating by hand, clicking a dot and opening the lightbox each stop
      auto-play. A button press clears the interval only the first time: once
      auto-play is stopped it leaves an interval that was restarted since. */
  lemma ManualStops(s: State, e: Event)
    requires Inv(s) && Enabled(s, e) && HandlersBound(s)
    requires e.NavButton? || e.DotClick? || e.OpenCall? || (e.MainClick? && !e.onControl)
             || (e.Swipe? && SwipeDirection(e.startX, e.endX) != None)
    requires e.MainClick? || e.Swipe? ==> s.page.hasMainGallery
    ensures Step(s, e).main.autoPlayStopped
    ensures (e.NavButton? || e.Swipe?) && !s.main.autoPlayStopped ==> !Step(s, e).main.intervalActive
    ensures (e.NavButton? || e.Swipe?) && s.main.autoPlayStopped ==>
              Step(s, e).main.intervalActive == s.main.intervalActive
    ensures e.DotClick? || e.OpenCall? || e.MainClick? ==> !Step(s, e).main.intervalActive
  {
  }

  /** A page without the `.mod-gallery-main` element ignores clicks and
      swipes on the main view: their listeners were never bound. */
  lemma NoMainGalleryNoTouch(s: State, e: Event)
    requires Inv(s) && Enabled(s, e) && !s.page.hasMainGallery
    requires e.MainClick? || e.Swipe?
    ensures Step(s, e) == s
  {
  }

  /** Once stopped, auto-play is never marked running again, by any event. */
  lemma {:induction false} StoppedForever(s: State, es: seq<Event>)
    requires Inv(s) && s.main.autoPlayStopped
    ensures Run(s, es).main.autoPlayStopped
    decreases |es|
  {
    if es != [] {
      StoppedForever(Apply(s, es[0]), es[1..]);
    }
  }

  /** The last auto-cycle preload starts the interval without looking at
      autoPlayStopped, but a tick after auto-play was stopped only clears the
      interval: the index, the image and the highlights stay. */
  lemma StoppedTickStopsItself(s: State)
    requires Inv(s) && s.main.intervalActive && s.main.autoPlayStopped
    ensures Step(s, AutoTick) == s.(main := s.main.(intervalActive := false))
  {
  }

  /** Once auto-play is stopped, only the navigation buttons, a swipe or a dot
      move the main index: the lightbox, the timers and every preload leave it
      where it is. */
  lemma {:induction false} StoppedIndexStays(s: State, es: seq<Event>)
    requires Inv(s) && s.main.autoPlayStopped
    requires forall j :: 0 <= j < |es| ==> !MovesMainView(es[j])
    ensures Run(s, es).main.cycleIndex == s.main.cycleIndex
    decreases |es|
  {
    if es != [] {
      StoppedIndexStays(Apply(s, es[0]), es[1..]);
    }
  }

  /** Once the auto-cycle is dead, no sequence of events (closing the
      lightbox included) brings its interval back. */
  lemma {:induction false} AutoCycleNeverRestarts(s: State, es: seq<Event>)
    requires Inv(s) && AutoCycleDead(s.main)
    ensures AutoCycleDead(Run(s, es).main) && !Run(s, es).main.intervalActive
    decreases |es|
  {
    if es != [] {
      AutoCycleNeverRestarts(Apply(s, es[0]), es[1..]);
    }
  }

  /** closeLightbox and its two timers leave the whole main view alone. */
  lemma CloseKeepsMainView(s: State, e: Event)
    requires Inv(s) && Enabled(s, e)
    requires e.CloseCall? || e.CloseFadeDone? || e.CloseHideDone? || e.BackdropClick?
             || (e.KeyDown? && e.key == Escape)
    ensures Step(s, e).main == s.main
  {
  }

  // -------------------------------------------------------------------------
  // The swap of the main image

  /** The swap flag is cleared by one thing only: the `onload` of the
      preload that the swap itself started. */
  lemma TransitionClearedOnlyByPreload(s: State, e: Event)
    requires Inv(s) && s.main.transitioning && !Apply(s, e).main.transitioning
    ensures e == SwapPreloadDone(true) && s.main.swap.Preloading?
  {
  }

  /** A failed preload leaves the image blurred with its flag set. */
  lemma StallIsBlurred(s: State)
    requires Inv(s) && s.main.swap.Preloading? && s.main.blurred
    ensures var r := Step(s, SwapPreloadDone(false));
      r.main.swap.SwapStalled? && r.main.blurred && r.main.transitioning
  {
  }

  /** When the swap's preload fails the main view is stuck: the flag stays
      set, the image stays blurred and (once the first-image preload is over)
      its source never changes again, whatever happens next. */
  lemma {:induction false} StalledForever(s: State, es: seq<Event>)
    requires Inv(s) && s.main.swap.SwapStalled? && s.main.blurred && !s.main.firstPreloadPending
    ensures var r := Run(s, es);
      r.main.transitioning && r.main.swap == s.main.swap && r.main.blurred
      && r.main.src == s.main.src
    decreases |es|
  {
    if es != [] {
      StalledForever(Apply(s, es[0]), es[1..]);
    }
  }

  /** A button press during a swap is dropped by updateMainGalleryImage, but
      manualNavigateGallery has already moved the index and then moves the dot
      highlight: the dots and the index go ahead while the image and the
      thumbnails stay behind. */
  lemma DroppedNavigation(s: State, d: int)
    requires Inv(s) && s.main.transitioning
    ensures var r := Step(s, NavButton(d));
      var idx := Wrap(s.main.cycleIndex + d, |s.page.images|);
      && r.main.cycleIndex == idx
      && (forall j :: 0 <= j < |r.main.dotActive| ==> (r.main.dotActive[j] <==> j == idx))
      && r.thumbActive == s.thumbActive && r.main.swap == s.main.swap && r.main.src == s.main.src
  {
  }

  /** A tick during a swap still advances the index, but neither the image
      nor any highlight follows it. */
  lemma DroppedTick(s: State)
    requires Inv(s) && s.main.intervalActive && !s.main.autoPlayStopped && s.main.transitioning
    ensures Step(s, AutoTick)
            == s.(main := s.main.(cycleIndex := (s.main.cycleIndex + 1) % |s.page.images|))
  {
  }

  /** updateMainGalleryImage is dropped exactly when there is no main image,
      no image at the index, or a swap in flight; otherwise it marks the swap. */
  lemma SwapGuard(s: State, index: int)
    requires Inv(s)
    ensures var dropped := !s.page.hasMainImage || !(0 <= index < |s.page.images|)
                           || s.page.images[index] == "" || s.main.transitioning;
      && (dropped ==> UpdateMainImage(s, index) == s)
      && (!dropped ==> UpdateMainImage(s, index).main.transitioning
                       && !s.main.transitioning && UpdateMainImage(s, index).main.swap == FadingOut(index))
  {
  }

  /** A swap that is not dropped highlights exactly the requested thumbnail
      and dot (0-based) and fades towards that image. */
  lemma SwapHighlights(s: State, index: int)
    requires Inv(s) && s.page.hasMainImage && 0 <= index < |s.page.images|
    requires s.page.images[index] != "" && !s.main.transitioning
    ensures var r := UpdateMainImage(s, index);
      && r.main.swap == FadingOut(index) && r.main.transitioning
      && (forall j :: 0 <= j < |r.thumbActive| ==> (r.thumbActive[j] <==> j == index))
      && (forall j :: 0 <= j < |r.main.dotActive| ==> (r.main.dotActive[j] <==> j == index))
  {
  }

  // -------------------------------------------------------------------------
  // The lightbox

  /** openLightbox clamps its index to 0 and shows the matching counter and
      thumbnail, whatever the lightbox did before. */
  lemma OpenForgetsHistory(s: State, t: State, i: int)
    requires Inv(s) && Inv(t) && s.page == t.page
    ensures var n := |s.page.images|; var idx := if 0 <= i < n then i else 0;
      && Open(s, i).box.currentIndex == Open(t, i).box.currentIndex == idx
      && Open(s, i).box.counter == Open(t, i).box.counter == Counter(idx, n)
      && Open(s, i).thumbActive == Open(t, i).thumbActive
  {
  }

  /** While an image is loading, lightbox navigation is dropped, not queued. */
  lemma NavigationWhileLoading(s: State, e: Event)
    requires Inv(s) && s.box.isLoading
    requires e.NavigateCall? || (e.KeyDown? && (e.key == ArrowLeft || e.key == ArrowRight))
    ensures Step(s, e) == s
  {
  }

  lemma {:induction false} LoadingIgnoresNavigate(s: State, d: int, k: nat)
    requires Inv(s) && s.box.isLoading
    ensures Run(s, Repeat(NavigateCall(d), k)) == s
    decreases k
  {
    if k > 0 {
      var es := Repeat(NavigateCall(d), k);
      assert es[1..] == Repeat(NavigateCall(d), k - 1);
      LoadingIgnoresNavigate(s, d, k - 1);
    }
  }

  /** `k` arrow presses in a row, with no timer in between, move the lightbox
      by one image only. */
  lemma RepeatedNavigateMovesOnce(s: State, d: int, k: nat)
    requires Inv(s) && !s.box.isLoading && k >= 1
    ensures var r := Run(s, Repeat(NavigateCall(d), k));
      r.box.currentIndex == Wrap(s.box.currentIndex + d, |s.page.images|) && r.box.isLoading
  {
    var es := Repeat(NavigateCall(d), k);
    var t := Apply(s, NavigateCall(d));
    assert es[1..] == Repeat(NavigateCall(d), k - 1);
    LoadingIgnoresNavigate(t, d, k - 1);
  }

  /** The loading flag is cleared by one thing only: the end of the load chain. */
  lemma LoadingClearedOnlyByChain(s: State, e: Event)
    requires Inv(s) && s.box.isLoading && !Apply(s, e).box.isLoading
    ensures e == LoadChainDone && s.box.load.LoadRevealing?
  {
  }

  /** When a lightbox preload fails, isLoading stays set for good, so the
      arrows and arrow keys never navigate the lightbox again. */
  lemma {:induction false} LoadStalledForever(s: State, es: seq<Event>)
    requires Inv(s) && s.box.load.LoadStalled?
    ensures Run(s, es).box.load == s.box.load && Run(s, es).box.isLoading
    decreases |es|
  {
    if es != [] {
      LoadStalledForever(Apply(s, es[0]), es[1..]);
    }
  }

  /** The load chain shows the image it was started for, even when the
      lightbox was reopened at another index in the meantime. */
  lemma ChainShowsCapturedTarget(s: State, i: int)
    requires Inv(s) && s.box.load.LoadSwapDelay?
    ensures var r := Step(Open(s, i), LoadSwapTimer); var k := s.box.load.target;
      r.box.src == ImageSrc(s.page.images, k) && r.box.counter == Counter(k, |s.page.images|)
  {
  }

  /** The counter text starts with the 1-based position of the image. */
  lemma CounterIsOneBased(c: Counter)
    requires c.index >= -1
    ensures ParseInt(CounterText(c)) == Some(c.index + 1)
  {
    var d, rest := Decimal(c.index + 1), " / " + Decimal(c.total);
    assert CounterText(c) == d + rest;
    ParseLeadingNumber(d, rest);
  }

  lemma ParseLeadingNumber(d: string, rest: string)
    requires |d| >= 1 && (forall i :: 0 <= i < |d| ==> IsDigit(d[i])) && (|d| > 1 ==> d[0] != '0')
    requires rest != [] && rest[0] == ' '
    ensures ParseInt(d + rest) == Some(Value(d, 10))
  {
    var t := d + rest;
    assert t[0] == d[0] && IsDigit(t[0]);
    assert TrimStart(t) == t;
    assert ParseInt(t) == Unsigned(t);
    assert t[1] == (if |d| == 1 then ' ' else d[1]);
    assert !(t[0] == '0' && (t[1] == 'x' || t[1] == 'X'));
    DigitPrefixStopsAt(d, rest);
  }

  lemma {:induction false} DigitPrefixStopsAt(d: string, rest: string)
    requires forall i :: 0 <= i < |d| ==> IsDigit(d[i])
    requires rest != [] && rest[0] == ' '
    ensures DigitPrefix(d + rest, 10) == d
  {
    if d != [] {
      assert (d + rest)[1..] == d[1..] + rest;
      DigitPrefixStopsAt(d[1..], rest);
    }
  }

  // -------------------------------------------------------------------------
  // An empty gallery

  /** With no thumbnails there is no gallery: nothing is scheduled, and a
      button press changes neither the image nor any highlight. */
  lemma EmptyGallery(images: seq<string>, thumbActive: seq<bool>, hasMain: bool,
                     hasDots: bool, hasGallery: bool, mainSrc: string, d: int)
    requires |images| == 0
    ensures var s := Initial(images, thumbActive, hasMain, hasDots, hasGallery, mainSrc);
      var r := Step(s, NavButton(d));
      && Quiet(s)
      && r.main.src == mainSrc && r.main.dotActive == [] && r.thumbActive == thumbActive
      && r.main.swap == SwapIdle
  {
  }
}
