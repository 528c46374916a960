# Train Simulator Mod Archive — a verified model of the site's scripts

The Train Simulator Mod Archive is a static web site of train-simulator mods. Its
behaviour lives in three scripts, and this project models their rules in Dafny:

- **The image gallery of a mod page** (`js/main.js`). It has a main view that
  cycles through the images every 5 s, navigation buttons, swipes and dots, and
  a lightbox with a counter and arrow keys.
  - `Gallery.GalleryController` is a class. Its fields are the script's
    globals and the parts of the page the script writes.
  - Each function and event listener of the script is a method. So is each
    timer expiry and each image `onload`/`onerror` callback: the environment
    calls it later, once something has scheduled it.
  - Every method is proved to change the object exactly as a step function of
    `GallerySpec` says.
  - `GalleryLemmas` proves facts about those step functions: for one event,
    and for any sequence of events (`GallerySpec.Run`).
- **The small rules of the site script** (`js/main.js`):
  - the "am I in a subdirectory" path rule behind the search box and the
    footer links, and the copyright year (`SitePaths`);
  - cookie consent over the cookie jar, sessionStorage and localStorage
    (`Consent`, again a class with a specification function per handler);
  - download-link classification and the download dialog's defaults
    (`Downloads`);
  - the random-mod selection, the creator-page slug, and the top-downloads
    normalisation and cache (`ModListings`);
  - the sidebar section highlight and the ±1 counting animation
    (`PageEffects`, both as loops).
- **The sitemap generator** (`scripts/generate-sitemaps.js`, `Sitemaps`).
  - The directory listings are inputs.
  - The mod pages and images are collected by loops.
  - Both XML files are built by `xml +=` loops, each proved equal to a
    declarative description of the document.
  - The page sitemap's namespace is written with `https://` and the image
    sitemap's with `http://`, as in the script. Nothing is entity-escaped.
- **The "uploaded" text of a file's details** (`js/api-client.js`,
  `UploadTime`). It shows the server's relative text for the first day, then
  "yesterday", then "n days ago", and a date from the seventh day on.

`Text` holds the string operations the scripts use: `split`, `lastIndexOf`,
`indexOf`, `trim`, `replace` with a string pattern, ASCII `toLowerCase`, decimal
rendering of numbers and the global `parseInt`. `Wrappers` holds `Option`.

## Model

| member | source | states |
|---|---|---|
| Gallery.UpdateActiveDot | js/main.js:452-460 | the dots afterwards: exactly the one at `index` is active, the length unchanged |
| Gallery.UpdateActiveThumbnail | js/main.js:547-557 | every thumbnail loses 'active'; only the one at `index`, if it exists, gets it |
| Gallery.GenerateGalleryDots | js/main.js:426-448 | one dot per image, only the first active |
| Gallery.GalleryController.constructor | js/main.js:785-855 | the initial state: nothing is scheduled without images; otherwise the first-image preload is pending; the invariant holds |
| Gallery.GalleryController.UpdateMainGalleryImage | js/main.js:386-423 | the object changes exactly as `UpdateMainImage`, and the invariant is kept |
| Gallery.GalleryController.StopMainGalleryAutoCycle | js/main.js:539-544 | only the interval is cleared |
| Gallery.GalleryController.ManualNavigateGallery | js/main.js:464-482 | the object changes as `NavigateMain`: auto-play is stopped and the index is wrapped |
| Gallery.GalleryController.HandleSwipe | js/main.js:914-932 | the object changes as `SwipeMain` |
| Gallery.GalleryController.DotClick | js/main.js:438-446 | the object changes as `ClickDot` |
| Gallery.GalleryController.AutoTick | js/main.js:510-517 | the object changes as `Tick` |
| Gallery.GalleryController.StartMainGalleryAutoCycle | js/main.js:485-536 | the object changes as `StartAutoCycle`: one preload per image unless auto-play is stopped |
| Gallery.GalleryController.AutoPreloadDone | js/main.js:506-533 | the object changes as `AutoPreload`: the last of the preloads starts the interval if none is running |
| Gallery.GalleryController.FirstImageLoaded | js/main.js:806-844 | the object changes as `FirstPreload(_, true)` |
| Gallery.GalleryController.FirstImageFailed | js/main.js:846-852 | the object changes as `FirstPreload(_, false)`: only the pending preload is cleared |
| Gallery.GalleryController.FadeOutDone | js/main.js:398-417 | the object changes as `FadeOut`: the image is blurred, its source swapped and the preload started |
| Gallery.GalleryController.SwapPreloadDone | js/main.js:409-417 | the object changes as `SwapPreload`: `onload` clears the swap flag, a failure stalls it |
| Gallery.GalleryController.OpenLightbox | js/main.js:646-703 | the object changes as `Open` |
| Gallery.GalleryController.MainImageClick | js/main.js:899-904 | the object changes as `ClickMain` |
| Gallery.GalleryController.ActivateFrame | js/main.js:680-682 | the object changes as `Activate`: the lightbox gets 'active' |
| Gallery.GalleryController.OpenPreloadDone | js/main.js:685-697 | the object changes as `OpenPreload`: on `onload` the image at the current index is shown |
| Gallery.GalleryController.LoadLightboxImage | js/main.js:598-611 | the object changes as `LoadImage` |
| Gallery.GalleryController.NavigateLightbox | js/main.js:742-755 | the object changes as `Navigate` |
| Gallery.GalleryController.LoadFadeOutDone | js/main.js:613-621 | the object changes as `LoadFadeOut` |
| Gallery.GalleryController.LoadPreloadDone | js/main.js:622-641 | the object changes as `LoadPreload` |
| Gallery.GalleryController.LoadSwapTimer | js/main.js:624-629 | the object changes as `LoadSwap`: the image and counter of the target captured when the chain started |
| Gallery.GalleryController.LoadChainDone | js/main.js:632-638 | the object changes as `LoadEnd`: isLoading is cleared |
| Gallery.GalleryController.CloseLightbox | js/main.js:706-723 | the object changes as `Close` |
| Gallery.GalleryController.CloseFadeDone | js/main.js:725-726 | the object changes as `CloseFade` |
| Gallery.GalleryController.CloseHideDone | js/main.js:727-737 | the object changes as `CloseHide` |
| Gallery.GalleryController.KeyDown | js/main.js:936-947 | the object changes as `KeyPress` |
| Gallery.GalleryController.BackdropClick | js/main.js:950-957 | the object changes as `Backdrop` |
| GallerySpec.Wrap | js/main.js:474-478 | the wrapped index is in [0, n), or 0 or -1 for an empty gallery; an index already in range is kept |
| GallerySpec.Highlight | js/main.js:452-460 | the list of flags has length `len`; flag j is set iff j == index |
| GallerySpec.SwipeDirection | js/main.js:919-931 | next iff start − end > 50; previous iff end − start > 50; nothing iff the distance is at most 50 |
| GallerySpec.Initial | js/main.js:785-855 | the invariant holds; an empty gallery has nothing scheduled; otherwise the first-image preload is pending |
| GallerySpec.UpdateMainImage | js/main.js:386-423 | a main-view step that keeps the invariant, the page and the lightbox, and leaves the cycle index alone |
| GallerySpec.NavigateMain | js/main.js:464-482 | auto-play is stopped and the index becomes Wrap(index + direction, n) |
| GallerySpec.SwipeMain | js/main.js:896-932 | a swipe does nothing when the distance is at most 50 px or the main view's listeners were never bound (no images, or no `.mod-gallery-main`); otherwise it is a button press towards the swipe: next for a leftward swipe, previous for a rightward one |
| GallerySpec.StopAutoCycle | js/main.js:539-544 | the interval is cleared and nothing else changes |
| GallerySpec.StopForNavigation | js/main.js:466-471 | auto-play is stopped and the index is set, and the invariant is kept |
| GallerySpec.ClickDot | js/main.js:438-446 | auto-play is stopped, the interval is cleared and the index becomes k |
| GallerySpec.Tick | js/main.js:510-517 | once auto-play is stopped, a tick leaves the index where it is |
| GallerySpec.StartAutoCycle | js/main.js:485-536 | one preload per image, or none once auto-play is stopped; the index is kept |
| GallerySpec.AutoPreload | js/main.js:506-533 | the interval runs after the call iff it ran before or this was the last outstanding preload |
| GallerySpec.FirstPreload | js/main.js:806-852 | the auto-cycle timer is scheduled iff the preload loaded and there is more than one image |
| GallerySpec.FadeOut | js/main.js:398-401 | the main image shows the swap's target, blurred |
| GallerySpec.SwapPreload | js/main.js:409-417 | the swap flag is cleared iff the preload loaded |
| GallerySpec.Open | js/main.js:646-703 | auto-play is stopped, the interval is cleared, the index is clamped to 0 when out of range and the counter follows it |
| GallerySpec.ClickMain | js/main.js:899-904 | the main view's index and swap flag are kept |
| GallerySpec.Activate | js/main.js:680-682 | the lightbox is active |
| GallerySpec.OpenPreload | js/main.js:686-697 | the image at the current index is shown iff the preload loaded |
| GallerySpec.LoadImage | js/main.js:598-611 | isLoading is set; a new chain starts only if none was running |
| GallerySpec.Navigate | js/main.js:742-755 | nothing changes while loading; otherwise the index becomes Wrap(index + direction, n) |
| GallerySpec.LoadPreload | js/main.js:622-641 | the chain stalls iff the preload failed |
| GallerySpec.LoadFadeOut | js/main.js:613-621 | after the fade-out the chain preloads the same target, and isLoading stays set |
| GallerySpec.LoadSwap | js/main.js:624-626 | the image and the counter of the captured target |
| GallerySpec.LoadEnd | js/main.js:632-638 | isLoading is cleared and the main view is untouched |
| GallerySpec.Close | js/main.js:706-739 | no thumbnail stays active |
| GallerySpec.CloseFade | js/main.js:725-726 | the lightbox is no longer active |
| GallerySpec.CloseHide | js/main.js:727-728 | the lightbox is hidden |
| GallerySpec.KeyPress | js/main.js:936-947 | nothing changes unless the lightbox is active |
| GallerySpec.Backdrop | js/main.js:950-957 | a lightbox step that keeps the invariant |
| GallerySpec.Step | js/main.js:785-958 | every scheduled event keeps the invariant and the page; the two busy flags are each cleared by one event only; a stopped auto-play stays stopped |
| GallerySpec.Run | js/main.js:785-958 | any run of events keeps the invariant and the page |
| GalleryLemmas.WrapIsMod | js/main.js:474-478 | for a step of ±1 the wrap rule is arithmetic mod n |
| GalleryLemmas.NavButtonWraps | js/main.js:471-478 | one button press moves the main index to (i + d) mod n |
| GalleryLemmas.NavForward | js/main.js:471-478 | k presses of "next" lead to (i + k) mod n, whether or not the swaps are dropped |
| GalleryLemmas.NavBackward | js/main.js:471-478 | k presses of "previous" lead to (i − k) mod n |
| GalleryLemmas.LightboxNavWraps | js/main.js:745-752 | a lightbox arrow moves the index to (i + d) mod n when not loading |
| GalleryLemmas.ManualStops | js/main.js:441-442 | a button, swipe, dot or lightbox open stops auto-play (clicks and swipes where the main view's listeners are bound); a button clears the interval only the first time |
| GalleryLemmas.NoMainGalleryNoTouch | js/main.js:896-898 | without a `.mod-gallery-main` element, clicks and swipes on the main view change nothing |
| GalleryLemmas.StoppedForever | js/main.js:466-469 | once auto-play is stopped, no run of events restarts it |
| GalleryLemmas.StoppedTickStopsItself | js/main.js:511-514 | a tick after auto-play was stopped only clears the interval |
| GalleryLemmas.StoppedIndexStays | js/main.js:511-514 | once auto-play is stopped, only buttons, swipes and dots move the main index |
| GalleryLemmas.AutoCycleNeverRestarts | js/main.js:736 | a dead auto-cycle stays dead through any run of events, closing the lightbox included |
| GalleryLemmas.CloseKeepsMainView | js/main.js:706-739 | closing the lightbox and its timers leave the main view alone |
| GalleryLemmas.SwapGuard | js/main.js:388-392 | updateMainGalleryImage is a no-op iff there is no main image, no image at the index, or a swap in flight; otherwise it marks the swap |
| GalleryLemmas.TransitionClearedOnlyByPreload | js/main.js:409-417 | the swap flag is cleared only by the swap preload's `onload` |
| GalleryLemmas.StallIsBlurred | js/main.js:409-417 | a failed swap preload leaves the image blurred with the flag set |
| GalleryLemmas.StalledForever | js/main.js:409-417 | after a failed swap preload no run of events clears the flag or changes the image |
| GalleryLemmas.DroppedNavigation | js/main.js:471-481 | a dropped button press still moves the index and the dot highlight, but not the thumbnails or the image |
| GalleryLemmas.DroppedTick | js/main.js:515-516 | a dropped tick still advances the index, and nothing else changes |
| GalleryLemmas.SwapHighlights | js/main.js:421-422 | a swap that is not dropped highlights exactly the 0-based thumbnail and dot |
| GalleryLemmas.OpenForgetsHistory | js/main.js:647-669 | openLightbox(i) sets the index to i (or 0 when out of range) and the counter to (i, n), whatever came before |
| GalleryLemmas.NavigationWhileLoading | js/main.js:742-743 | lightbox navigation while loading changes nothing |
| GalleryLemmas.LoadingIgnoresNavigate | js/main.js:742-743 | any number of navigations while loading change nothing |
| GalleryLemmas.RepeatedNavigateMovesOnce | js/main.js:742-755 | k ≥ 1 arrow presses in a row move the lightbox by one image |
| GalleryLemmas.LoadingClearedOnlyByChain | js/main.js:599-600 | isLoading is cleared only at the end of the load chain |
| GalleryLemmas.LoadStalledForever | js/main.js:622-641 | after a failed lightbox preload, isLoading stays set through any run of events |
| GalleryLemmas.ChainShowsCapturedTarget | js/main.js:624-626 | the chain shows the image it was started for, even after a reopen |
| GalleryLemmas.CounterIsOneBased | js/main.js:669 | the counter text reads back as index + 1 |
| GalleryLemmas.EmptyGallery | js/main.js:789-791 | without images nothing is scheduled, and a button press changes no image or highlight |
| SitePaths.CleanPath | js/main.js:32 | the path is a prefix of the pathname and has no '#' or '?' |
| SitePaths.FolderName | js/main.js:40-41 | the folder name contains no '/' |
| SitePaths.PagePath | js/main.js:1891-1899 | the link is "../page" or "page" |
| SitePaths.SearchHref | js/main.js:44-49 | the search link starts with the search page's path |
| SitePaths.SearchKeypress | js/main.js:28-49 | a key press navigates iff it is Enter and the box holds something other than white space; the target is the search link of the trimmed, encoded text |
| SitePaths.SearchIgnoresPadding | js/main.js:29-30 | white space around the typed text does not change where the search goes |
| SitePaths.CleanPathStripsTail | js/main.js:32 | a query or fragment after the path is removed, and the path is kept |
| SitePaths.FolderOfPath | js/main.js:32-41 | the folder of `prefix/folder/file?...` is `folder` |
| SitePaths.NoSlashIsTopLevel | js/main.js:40-44 | a path without '/' has no folder, so its links stay relative |
| SitePaths.RootPathIsTopLevel | js/main.js:40-44 | a page directly under the domain root ("/file", one '/') has no folder, so its links stay relative |
| SitePaths.LinkRule | js/main.js:1891-1899 | "../page" exactly when the folder is non-empty and not the root folder |
| SitePaths.EffectiveYear | js/main.js:1936-1937 | a missing or zero year is replaced by the client's year |
| SitePaths.CopyrightText | js/main.js:1938-1942 | the line starts "© 2023" and ends with the site name |
| SitePaths.CopyrightRange | js/main.js:1938-1942 | a single year iff the year is at most 2023; otherwise a range whose second number reads back as the year |
| Consent.ReadConsent | js/main.js:1210-1241 | the cookie wins, then a non-empty session value; after those, a local value with a date no more than 90 days old is returned, and an answer from localStorage is always such a value; otherwise null |
| Consent.Expired | js/main.js:1230-1232 | a stored date expires only when it parses as a number, and then exactly when it is more than 90 days before now; an unparsable date never expires |
| Consent.CanUseStorage | js/main.js:1367 | storage may be used when no choice is recorded, and not when any value other than "accepted" is |
| Consent.AfterRead | js/main.js:1224-1240 | a cookie, a session value or an incomplete local pair leaves every store unchanged. Only an expired local choice removes anything: both local keys and the cookie go, and the session stays. A valid local choice is copied into the session and nothing else changes |
| Consent.AfterWrite | js/main.js:1244-1264 | the cookie, the session value and date, and (if writable) the local value and date |
| Consent.ConsentStorage.GetCookieConsent | js/main.js:1210-1242 | returns `ReadConsent` and leaves the stores as `AfterRead` says |
| Consent.ConsentStorage.SetCookieConsent | js/main.js:1244-1264 | leaves the stores as `AfterWrite` says |
| Consent.WriteThenRead | js/main.js:1244-1264 | reading after a choice gives it back |
| Consent.SessionOutlivesCookie | js/main.js:1218-1222 | without the cookie the session store still gives the choice |
| Consent.NewSessionReadsLocal | js/main.js:1224-1241 | a new session finds the local choice iff at most 90 days have passed, and both keys are removed after that |
| Consent.ReadIsStable | js/main.js:1232-1241 | a second read gives the same answer as the first |
| Consent.StorageFollowsChoice | js/main.js:1366-1367 | storage may be used after accepting and not after declining |
| Consent.EmptyCookieBlocksStorage | js/main.js:1212-1215 | an empty consent cookie reads as "" and blocks storage |
| Downloads.DirectDownloadByLastDot | js/main.js:994 | the regular expression holds iff the lower-cased text after the last '.' is one of the extensions |
| Downloads.IsDirectDownload | js/main.js:994 | a direct link contains a '.' and is at least a '.' and a two-letter extension long |
| Downloads.AfterLastDot | js/main.js:994 | when a link ends with '.' and a dot-free extension, that extension is what follows its last '.' |
| Downloads.DirectHasExtension | js/main.js:994 | a link the regular expression accepts has a direct extension after its last '.' |
| Downloads.ExtensionIsDirect | js/main.js:994 | a link with a direct extension after its last '.' is accepted |
| Downloads.Or | js/main.js:999-1003 | `a \|\| b` is a or b, and is non-empty iff one of them is |
| Downloads.DownloadDetails | js/main.js:994-1016 | the direct flag, the name fallback (last path segment or "Unknown") and the other defaults |
| Downloads.DirectNameNotEmpty | js/main.js:999 | a direct link's last path segment is never empty |
| Downloads.DetailsAlwaysFilled | js/main.js:998-1016 | every field of the dialog is non-empty |
| ModListings.NotShownBefore | js/main.js:1388 | the kept mods come from the list and were not shown last time |
| ModListings.FilterKeepsAll | js/main.js:1388 | a filter that keeps as many mods as it was given keeps them all |
| ModListings.SelectShownMods | js/main.js:1381-1396 | `lastShownMods` is written iff storage may be used, and then holds the keys of the mods shown |
| ModListings.ShownModsIgnoreHistory | js/main.js:1381-1393 | the mods shown are always the first min(4, n) of the response |
| ModListings.FirstFourShownAgain | js/main.js:1381-1393 | the four mods shown last time are shown again although four others were available |
| ModListings.SelectPreferringUnseen | js/main.js:1381-1396 | the corrected selection keeps the size min(4, n), draws from the response and records the keys |
| ModListings.PreferringUnseenAvoidsRepeats | js/main.js:1387-1393 | with four unseen mods available, no mod shown repeats one from last time |
| ModListings.DashWhitespace | js/main.js:1423 | no longer than the input; only '-' and the input's non-space characters (`DashWhitespaceRun` gives the exact value) |
| ModListings.DashWhitespaceKeepsWord | js/main.js:1423 | a leading word without white space is copied unchanged |
| ModListings.DashWhitespaceLeadingRun | js/main.js:1423 | a maximal run of white space at the front becomes exactly one '-' |
| ModListings.DashWhitespaceRun | js/main.js:1423 | a word, a maximal run of white space and the rest: the word is kept, the run becomes exactly one '-', and the rest is treated the same way |
| ModListings.Slugify | js/main.js:1423 | the fallback slug is no longer than the name and has no white space and no upper-case ASCII letter |
| ModListings.SlugOfWord | js/main.js:1423 | a name without white space is only lower-cased |
| ModListings.SlugifyRun | js/main.js:1423 | a word followed by a maximal run of white space becomes the lower-cased word, one '-', then the slug of the rest ("Some  Name" gives "some-name") |
| ModListings.CreatorLink | js/main.js:1422-1424 | the link ends in ".html" |
| ModListings.MappedCreatorLink | js/main.js:1423 | a mapped creator links to its mapped page |
| ModListings.NamedCreatorLink | js/main.js:1422-1423 | an unmapped slug with a mapped display name links to the name's page |
| ModListings.VirtualRailLink | js/main.js:1405-1418 | "virtual-rail-creations" reaches its page through its display name |
| ModListings.UnknownCreatorLink | js/main.js:1423-1424 | any other creator gets the fallback slug, without white space |
| ModListings.PlainNameIsSlug | js/main.js:1423 | a lower-case name without white space is its own slug |
| ModListings.Coalesce | js/main.js:1637-1640 | `a ?? b` keeps a present value and falls through only on a missing one |
| ModListings.NormalizeEntry | js/main.js:1651-1658 | every item has a file name, the entry's own when it has one |
| ModListings.NormalizeTop | js/main.js:1636-1660 | at most five items, each with a file name |
| ModListings.TopListOrder | js/main.js:1643-1651 | the first list field present is kept in order and cut to five |
| ModListings.NonArrayHidesRest | js/main.js:1643-1660 | a present field that is not an array gives no items |
| ModListings.ZeroTotalKept | js/main.js:1636-1641 | a total of 0 is kept |
| ModListings.CacheEntry | js/main.js:1663-1670 | the cache holds the normalised items and the fetch time |
| ModListings.CacheLifetime | js/main.js:1610-1615 | a cached list is used iff it is non-empty and less than an hour old |
| ModListings.CacheFresh | js/main.js:1610-1615 | a fresh cache has a timestamp less than an hour before now; a missing or empty list is never fresh |
| PageEffects.CurrentIsLastCovering | js/main.js:1803-1813 | the section found is the covering section with the highest index, or '' when none covers |
| PageEffects.CurrentSection | js/main.js:1803-1813 | the id found is the initial '' or the id of a section that covers the position |
| PageEffects.HighlightCurrentSection | js/main.js:1800-1820 | link j is active iff its target equals the section found; nothing changes without links or sections |
| PageEffects.Counted | js/main.js:7-20 | the number of values shown after `ticks` firings |
| PageEffects.Step | js/main.js:9 | the step is +1 when counting up and -1 otherwise |
| PageEffects.Finished | js/main.js:13-18 | the interval is cleared after exactly abs(end − start) firings, and never when start equals end |
| PageEffects.CountedAt | js/main.js:9-15 | the (i+1)-th value is start ± (i+1) |
| PageEffects.AnimateValue | js/main.js:7-20 | the loop shows exactly `Counted` and stops exactly when `Finished` |
| PageEffects.CountReachesEnd | js/main.js:13-18 | with different bounds the last value is `end`, and no earlier value is |
| PageEffects.EqualBoundsNeverStop | js/main.js:9-18 | with equal bounds the counter never stops and never shows `end` |
| Text.BeforeFirst | js/main.js:1214 | `split(c)[0]`: a prefix without `c`, cut at the first `c` |
| Text.AfterLast | js/main.js:35 | `split(c).pop()`: a suffix without `c`, after the last `c` |
| Text.LastIndexOf | js/main.js:40 | `lastIndexOf(c)`: the position of a `c` with none after it, or -1 |
| Text.ToLower | js/main.js:1423 | the same length, with no upper-case ASCII letter left |
| Text.ToLowerAppend | js/main.js:1423 | lower-casing works character by character, so it splits over concatenation |
| Text.ToLowerKeepsWhitespace | js/main.js:1423 | lower-casing leaves every white-space character where it was and adds none |
| Text.TrimEnd | js/main.js:29 | a prefix of the text that does not end in white space |
| Text.TrimBlank | js/main.js:29 | `trim()` leaves nothing iff the text is all white space |
| Text.TrimPadding | js/main.js:29-30 | `trim()` removes exactly the white space around a word |
| Text.IndexOf | scripts/generate-sitemaps.js:26 | the first position of the pattern, or -1 |
| Text.ParseInt | js/main.js:1231 | `parseInt` of blank text is NaN; a non-empty string of digits gives a non-negative number |
| Text.Decimal | js/api-client.js:52 | the decimal digits of n, without a leading zero, whose value is n |
| Text.ParseDecimal | js/main.js:1231 | `parseInt` of a number's decimal text gives the number back |
| Text.DecimalInjective | js/api-client.js:52 | different numbers have different decimal texts |
| Sitemaps.GetModPages | scripts/generate-sitemaps.js:10-38 | the loop returns `ModPages` |
| Sitemaps.ModPages | scripts/generate-sitemaps.js:10-38 | every mod page entry is monthly with priority 0.8 |
| Sitemaps.ModPagesAreTheHtmlFiles | scripts/generate-sitemaps.js:19-33 | an entry is listed iff a creator folder has a ".html" file other than "index.html" for it; all are monthly, 0.8 |
| Sitemaps.SlugOfPage | scripts/generate-sitemaps.js:26 | "name.html" gives the slug "name" when `name` has no ".html" of its own |
| Sitemaps.Extname | scripts/generate-sitemaps.js:50 | the extension is "" or a suffix that starts at a '.' with no '.' after it (`ExtnameAfterLastDot` gives the exact value) |
| Sitemaps.ExtnameAfterLastDot | scripts/generate-sitemaps.js:50 | a name with a non-empty base has the extension after its last '.': "photo.v2.jpg" has ".jpg" |
| Sitemaps.NoDotNoExtname | scripts/generate-sitemaps.js:50 | a name without a '.' has no extension |
| Sitemaps.ImageByLastExtension | scripts/generate-sitemaps.js:50-51 | such a name is an image iff the lower-cased text after its last '.' is a listed extension |
| Sitemaps.IsImage | scripts/generate-sitemaps.js:50-51 | an image has a non-empty extension and a '.' in its name |
| Sitemaps.Title | scripts/generate-sitemaps.js:54 | the title has no '-' or '_' and is no longer than the file name |
| Sitemaps.CutTilde | scripts/generate-sitemaps.js:54 | `replace(/~.*$/, '')` leaves a prefix of the name |
| Sitemaps.DropExtension | scripts/generate-sitemaps.js:54 | `replace(/\.[^.]+$/, '')` leaves a prefix of the name |
| Sitemaps.Spaced | scripts/generate-sitemaps.js:54 | every '-' and '_' becomes a space and every other character is kept |
| Sitemaps.GetImages | scripts/generate-sitemaps.js:41-62 | the loop returns `Images` |
| Sitemaps.Images | scripts/generate-sitemaps.js:41-62 | no images without a media folder, and at most one per file |
| Sitemaps.ImagesOfMembers | scripts/generate-sitemaps.js:49-56 | an image is listed iff its extension, lower-cased, is an image extension; its URL is the media URL plus the file |
| Sitemaps.HiddenFileIsNotImage | scripts/generate-sitemaps.js:50-51 | a dot-file such as ".png" has no extension and is not an image |
| Sitemaps.UpperCaseExtension | scripts/generate-sitemaps.js:50-51 | ".JPG" and ".Png" count as images |
| Sitemaps.CutTildeAt | scripts/generate-sitemaps.js:54 | everything from the first '~' is dropped |
| Sitemaps.DropLastExtension | scripts/generate-sitemaps.js:54 | a trailing ".ext" is dropped |
| Sitemaps.TitleOfPlainName | scripts/generate-sitemaps.js:54 | a plain "name.ext" is titled `name` with '-'/'_' as spaces |
| Sitemaps.TitleOfTildeName | scripts/generate-sitemaps.js:54 | "name~rest" is titled `name` with spaces |
| Sitemaps.TildeNameLosesDottedPart | scripts/generate-sitemaps.js:54 | in "name.part~rest" the '~' cut leaves "name.part" and the extension step then drops ".part" |
| Sitemaps.GeneratePageSitemap | scripts/generate-sitemaps.js:65-96 | the loop's XML is `PageSitemap` of the ten static pages followed by the mod pages |
| Sitemaps.PageSitemap | scripts/generate-sitemaps.js:65-96 | the document starts with the XML declaration and the https urlset and ends with `</urlset>` |
| Sitemaps.PageSitemapLayout | scripts/generate-sitemaps.js:80-93 | the static pages' elements come first, then one element per mod page, each monthly with priority 0.8 |
| Sitemaps.LocIsVerbatim | scripts/generate-sitemaps.js:87 | the address is copied into `<loc>` without escaping |
| Sitemaps.AppendPageWithImages | scripts/generate-sitemaps.js:120-130 | the inner loop appends one page's `<url>` block listing every image |
| Sitemaps.AppendMainPages | scripts/generate-sitemaps.js:118-132 | nothing is appended without images; otherwise one block per main page |
| Sitemaps.GenerateImageSitemap | scripts/generate-sitemaps.js:99-137 | the loop's XML is `ImageSitemap` of the images found |
| Sitemaps.ImageSitemap | scripts/generate-sitemaps.js:99-137 | the document starts with the XML declaration and the image urlset and ends with `</urlset>` |
| Sitemaps.ImageSitemapLayout | scripts/generate-sitemaps.js:102-134 | no `<url>` without images; otherwise exactly the four main pages in order, each listing every image |
| UploadTime.UploadBucket | js/api-client.js:43-60 | a "days ago" bucket counts 2 to 6 days |
| UploadTime.HoursDiff | js/api-client.js:43 | the whole hours elapsed, rounded down: h hours ≤ elapsed < h + 1 hours |
| UploadTime.DaysDiff | js/api-client.js:44 | the whole days of the whole hours, rounded down: 24d ≤ hours < 24(d + 1) |
| UploadTime.UploadedText | js/api-client.js:46-60 | by bucket: the server text, "yesterday", or the date; in the days-ago bucket "d days ago", where d is plain decimal digits without a leading zero that read back as the day count |
| UploadTime.FloorTwice | js/api-client.js:43-44 | floor(floor(e / 3600000) / 24) is floor(e / 86400000) |
| UploadTime.BucketThresholds | js/api-client.js:47-60 | each text iff its range of elapsed time (under 1 day including the future, under 2, under 7, from 7) |
| UploadTime.OlderNeverNewer | js/api-client.js:47-60 | an older upload never shows a more recent text |

## Findings

| source | as written | input that shows it | evidently intended | confidence | as-written member | corrected member |
|---|---|---|---|---|---|---|
| js/main.js:1381-1393 | the list is cut to four mods before the mods shown last time are filtered out, so the filter keeps fewer than four unless it keeps all four | a response of eight mods whose first four were shown last time: the same four are shown again | filter the whole response, then show four mods not shown last time when there are four | medium, not executed | ModListings.FirstFourShownAgain | ModListings.PreferringUnseenAvoidsRepeats |

`ModListings.SelectShownMods` models the code as written, and the model's
statements about the page use it. `ModListings.SelectPreferringUnseen` is
the corrected selection.

## Left out

- Visual effects are not modelled: opacity, transitions, the loader's display, `setGalleryFixedHeight`, `maintainGalleryAspectRatio`, the thumbnail fade-in of `preloadThumbnails` and `setupImageFadeIn`. Their timers are kept only where they order flag changes.
- `userInteracted` and `autoPlayInterval` are written but never read, so they are not modelled.
- The lightbox's DOM is assumed present. `createLightboxHTML` builds it before `initGallerySystem` runs. The main image, the dots container and the main gallery element are parameters of the page.
- `closeLightbox` reads the lightbox element without a null check. Its failure when the element is missing is not modelled.
- Clocks are parameters (`Date.now()`, `new Date()`), and so are the year of the server's Date header and the locale date text (`toLocaleDateString`). `toLocaleString` is not modelled: the counter's values are integers.
- `encodeURIComponent` is not modelled: it is a parameter of the search handler.
- `screenX` is a double in the browser. `SwipeDirection` takes whole-pixel coordinates, so fractional touch positions are not modelled.
- `toLowerCase` maps only ASCII letters.
- The creator maps are Dafny maps, so prototype keys such as "constructor", which a JavaScript object lookup would find, are not modelled.
- `Number(...)` is applied to values already parsed as integers. Strings, floats and NaN in the API responses are not modelled.
- Every `fetch` is left out, including the random-mods, top-downloads and footer-year requests and `fetchModsWithDownloads`, together with their error paths. The responses are inputs.
- `window.scrollY` is treated as an integer.
- The `stepTime` division of `animateValue` is left out: the model counts firings, not milliseconds.
- The file system and console of the sitemap generator are left out. Folder listings are inputs, `None` stands for a missing folder, and writing the two files is not modelled.
- The cookie's expiry date and attributes are not modelled, so the browser dropping the cookie after 90 days is not modelled either. A cookie is present or absent in the jar.
- Whether localStorage accepts writes is one flag fixed per object, not a per-call failure.
- PageEffects.AnimateValue: `end` is assumed to be a number. The caller of `animateValue` passes `parseInt` of the `data-target` attribute (js/main.js:110-112), which is NaN when the attribute is missing or not a number. The counter then steps down forever, and the model does not capture that case.
- `parseInt` of numbers too large for a double is exact in the model, and radixes other than 10 and 16 are not modelled.
- The JSON round trip of `lastShownMods` and of the top-downloads cache, and the `JSON.parse` failures behind their `catch` blocks, are not modelled.
