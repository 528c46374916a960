/** The data rules behind the home page's mod lists in js/main.js: which of
    the random mods are shown (1366-1396), the link to a mod's creator page
    (1400-1424), and how the top-downloads response and its session cache
    are read (1596-1672). The fetches themselves are not modelled: the
    responses are inputs. */
module ModListings {
  import opened Wrappers
  import opened Text

  // -------------------------------------------------------------------------
  // Random mods

  /** A mod of the random-mods response; "" stands for a missing `id`, which
      `mod.id || mod.title` skips just the same. */
  datatype ModSummary = ModSummary(id: string, title: string, creator: string)

  /** The key remembered for a shown mod: `mod.id || mod.title`. */
  function ModKey(m: ModSummary): string {
    if m.id != "" then m.id else m.title
  }

  /** `mods.filter(mod => !lastShown.includes(mod.id || mod.title))`. */
  function NotShownBefore(mods: seq<ModSummary>, lastShown: seq<string>): (r: seq<ModSummary>)
    ensures |r| <= |mods|
    ensures forall m :: m in r ==> m in mods && ModKey(m) !in lastShown
  {
    if mods == [] then []
    else
      var rest := NotShownBefore(mods[1..], lastShown);
      if ModKey(mods[0]) in lastShown then rest else [mods[0]] + rest
  }

  /** A filter that keeps as many elements as it was given kept all of them. */
  lemma {:induction false} FilterKeepsAll(mods: seq<ModSummary>, lastShown: seq<string>)
    requires |NotShownBefore(mods, lastShown)| == |mods|
    ensures NotShownBefore(mods, lastShown) == mods
  {
    if mods != [] {
      if ModKey(mods[0]) !in lastShown {
        FilterKeepsAll(mods[1..], lastShown);
        assert [mods[0]] + mods[1..] == mods;
      }
    }
  }

  function Keys(mods: seq<ModSummary>): (r: seq<string>)
    ensures |r| == |mods| && forall i :: 0 <= i < |mods| ==> r[i] == ModKey(mods[i])
  {
    seq(|mods|, i requires 0 <= i < |mods| => ModKey(mods[i]))
  }

  /** The random-mods block (js/main.js:1381-1396): keep the first four mods
      of the response; with storage allowed, prefer those not shown last
      time if there are at least four of them, and remember the keys of the
      mods shown. Returns the mods shown and the new `lastShownMods`, if it
      is written. */
  function SelectShownMods(response: seq<ModSummary>, canUseStorage: bool, lastShown: seq<string>)
    : (r: (seq<ModSummary>, Option<seq<string>>))
    ensures canUseStorage <==> r.1.Some?
    ensures r.1.Some? ==> r.1.value == Keys(r.0)
  {
    var mods := if |response| <= 4 then response else response[..4];
    if !canUseStorage then (mods, None)
    else
      var unseen := NotShownBefore(mods, lastShown);
      var shown := if |unseen| >= 4 then unseen else mods;
      (shown, Some(Keys(shown)))
  }

  /** Because the list is cut to four before it is filtered, the filter can
      only ever keep all four: the mods shown are always the first
      min(4, length) of the response, whatever was shown before. */
  lemma ShownModsIgnoreHistory(response: seq<ModSummary>, canUseStorage: bool, lastShown: seq<string>)
    ensures SelectShownMods(response, canUseStorage, lastShown).0
         == response[..if |response| <= 4 then |response| else 4]
  {
    var mods := if |response| <= 4 then response else response[..4];
    assert mods == response[..if |response| <= 4 then |response| else 4];
    if canUseStorage && |NotShownBefore(mods, lastShown)| >= 4 {
      FilterKeepsAll(mods, lastShown);
    }
  }

  /** The selection with the filter applied to the whole response before
      the cut to four, so that four mods not shown last time are preferred
      whenever the response has them. */
  function SelectPreferringUnseen(response: seq<ModSummary>, canUseStorage: bool, lastShown: seq<string>)
    : (r: (seq<ModSummary>, Option<seq<string>>))
    ensures canUseStorage <==> r.1.Some?
    ensures r.1.Some? ==> r.1.value == Keys(r.0)
    ensures |r.0| == if |response| <= 4 then |response| else 4
    ensures forall m :: m in r.0 ==> m in response
  {
    var first := if |response| <= 4 then response else response[..4];
    if !canUseStorage then (first, None)
    else
      var unseen := NotShownBefore(response, lastShown);
      var shown := if |unseen| >= 4 then unseen[..4] else first;
      (shown, Some(Keys(shown)))
  }

  /** With at least four mods not shown last time, none of the four shown
      repeats one from last time. */
  lemma PreferringUnseenAvoidsRepeats(response: seq<ModSummary>, lastShown: seq<string>)
    requires |NotShownBefore(response, lastShown)| >= 4
    ensures var shown := SelectPreferringUnseen(response, true, lastShown).0;
      |shown| == 4 && forall m :: m in shown ==> ModKey(m) !in lastShown
  {
    var unseen := NotShownBefore(response, lastShown);
    assert forall m :: m in unseen[..4] ==> m in unseen;
  }

  lemma {:induction false} NotShownAppend(a: seq<ModSummary>, b: seq<ModSummary>, lastShown: seq<string>)
    ensures NotShownBefore(a + b, lastShown) == NotShownBefore(a, lastShown) + NotShownBefore(b, lastShown)
  {
    if a != [] {
      assert (a + b)[1..] == a[1..] + b;
      NotShownAppend(a[1..], b, lastShown);
    } else {
      assert a + b == b;
    }
  }

  lemma {:induction false} AllShownBefore(mods: seq<ModSummary>, lastShown: seq<string>)
    requires forall m :: m in mods ==> ModKey(m) in lastShown
    ensures NotShownBefore(mods, lastShown) == []
  {
    if mods != [] {
      assert mods[0] in mods;
      assert forall m :: m in mods[1..] ==> m in mods;
      AllShownBefore(mods[1..], lastShown);
    }
  }

  lemma {:induction false} NoneShownBefore(mods: seq<ModSummary>, lastShown: seq<string>)
    requires forall m :: m in mods ==> ModKey(m) !in lastShown
    ensures NotShownBefore(mods, lastShown) == mods
  {
    if mods != [] {
      assert mods[0] in mods;
      assert forall m :: m in mods[1..] ==> m in mods;
      NoneShownBefore(mods[1..], lastShown);
      assert [mods[0]] + mods[1..] == mods;
    }
  }

  /** A response whose first four mods are exactly the ones shown last time,
      followed by four others: the code as written shows the same four
      again, the corrected selection the four others. */
  lemma FirstFourShownAgain(seen: seq<ModSummary>, other: seq<ModSummary>)
    requires |seen| == 4 && |other| == 4
    requires forall m :: m in other ==> ModKey(m) !in Keys(seen)
    ensures SelectShownMods(seen + other, true, Keys(seen)).0 == seen
    ensures SelectPreferringUnseen(seen + other, true, Keys(seen)).0 == other
  {
    var last := Keys(seen);
    forall m | m in seen ensures ModKey(m) in last {
      var i :| 0 <= i < |seen| && seen[i] == m;
      assert last[i] == ModKey(m);
    }
    AllShownBefore(seen, last);
    NoneShownBefore(other, last);
    NotShownAppend(seen, other, last);
    assert NotShownBefore(seen + other, last) == other;
    ShownModsIgnoreHistory(seen + other, true, last);
    assert (seen + other)[..4] == seen;
  }

  // -------------------------------------------------------------------------
  // Creator pages

  /** `creatorNames`: slug to display name. */
  const CreatorNames: map<string, string> := map[
    "trurail" := "TruRail Simulations",
    "cleartracks" := "ClearTracks",
    "uts-creations" := "UTS Creations",
    "east-coast-simulations" := "East Coast Simulations",
    "virtual-rail-creations" := "Virtual Rail Creations"]

  /** `creatorUrlMap`: display name or short slug to page slug. */
  const CreatorUrlMap: map<string, string> := map[
    "TruRail Simulations" := "trurail-simulations",
    "ClearTracks" := "cleartracks",
    "UTS Creations" := "uts-creations",
    "East Coast Simulations" := "east-coast-simulations",
    "Virtual Rail Creations" := "virtual-rail-creations",
    "trurail" := "trurail-simulations",
    "cleartracks" := "cleartracks",
    "uts-creations" := "uts-creations",
    "east-coast-simulations" := "east-coast-simulations"]

  /** The first white-space character and the run that follows it, dropped. */
  function DropWhitespace(s: string): (r: string)
    ensures |r| <= |s|
    ensures r == [] || !IsJsWhitespace(r[0])
    ensures forall c :: c in r ==> c in s
  {
    if s != [] && IsJsWhitespace(s[0]) then DropWhitespace(s[1..]) else s
  }

  /** `s.replace(/\s+/g, '-')`: every run of white space becomes one '-'. */
  function DashWhitespace(s: string): (r: string)
    ensures |r| <= |s|
    ensures forall c :: c in r ==> c == '-' || (c in s && !IsJsWhitespace(c))
    decreases |s|
  {
    if s == [] then []
    else if IsJsWhitespace(s[0]) then "-" + DashWhitespace(DropWhitespace(s[1..]))
    else [s[0]] + DashWhitespace(s[1..])
  }

  /** `b` is empty or starts a word: a white-space run before it is maximal. */
  predicate StartsWord(b: string) {
    b == [] || !IsJsWhitespace(b[0])
  }

  lemma {:induction false} DropWhitespaceRun(w: string, b: string)
    requires AllWhitespace(w) && StartsWord(b)
    ensures DropWhitespace(w + b) == b
    decreases |w|
  {
    if w != [] {
      assert (w + b)[1..] == w[1..] + b;
      DropWhitespaceRun(w[1..], b);
    } else {
      assert w + b == b;
    }
  }

  lemma DashWhitespaceAtRun(c: char, t: string)
    requires IsJsWhitespace(c)
    ensures DashWhitespace([c] + t) == "-" + DashWhitespace(DropWhitespace(t))
  {
    assert ([c] + t)[1..] == t;
  }

  lemma DashWhitespaceLeadingRun(w: string, b: string)
    requires w != [] && AllWhitespace(w) && StartsWord(b)
    ensures DashWhitespace(w + b) == "-" + DashWhitespace(b)
  {
    assert w + b == [w[0]] + (w[1..] + b);
    DropWhitespaceRun(w[1..], b);
    DashWhitespaceAtRun(w[0], w[1..] + b);
  }

  lemma DashWhitespaceAtWord(c: char, t: string)
    requires !IsJsWhitespace(c)
    ensures DashWhitespace([c] + t) == [c] + DashWhitespace(t)
  {
    assert ([c] + t)[1..] == t;
  }

  /** A leading word is copied as it is. */
  lemma {:induction false} DashWhitespaceKeepsWord(a: string, t: string)
    requires NoWhitespace(a)
    ensures DashWhitespace(a + t) == a + DashWhitespace(t)
    decreases |a|
  {
    if a == [] {
      assert a + t == t;
    } else {
      var a' := a[1..];
      assert NoWhitespace(a') by {
        forall i | 0 <= i < |a'| ensures !IsJsWhitespace(a'[i]) {
          assert a'[i] == a[i + 1];
        }
      }
      assert a + t == [a[0]] + (a' + t);
      DashWhitespaceAtWord(a[0], a' + t);
      DashWhitespaceKeepsWord(a', t);
      assert [a[0]] + (a' + DashWhitespace(t)) == a + DashWhitespace(t);
    }
  }

  /** A word, a maximal run of white space and the rest: the word is kept,
      the run becomes exactly one '-', and the rest is treated the same way. */
  lemma DashWhitespaceRun(a: string, w: string, b: string)
    requires NoWhitespace(a) && w != [] && AllWhitespace(w) && StartsWord(b)
    ensures DashWhitespace(a + w + b) == a + "-" + DashWhitespace(b)
  {
    assert a + w + b == a + (w + b);
    DashWhitespaceKeepsWord(a, w + b);
    DashWhitespaceLeadingRun(w, b);
  }

  /** The fallback slug: lower-cased, white-space runs turned into '-'. */
  function Slugify(creator: string): (r: string)
    ensures |r| <= |creator|
    ensures forall c :: c in r ==> !IsJsWhitespace(c) && !('A' <= c <= 'Z')
  {
    DashWhitespace(ToLower(creator))
  }

  /** A single word is only lower-cased. */
  lemma SlugOfWord(word: string)
    requires NoWhitespace(word)
    ensures Slugify(word) == ToLower(word)
  {
    ToLowerKeepsWhitespace(word);
    var t := ToLower(word);
    DashWhitespaceKeepsWord(t, []);
    assert t + [] == t;
  }

  /** A word followed by a maximal run of white space: the word is
      lower-cased, the run becomes one '-', and the rest is slugified. */
  lemma SlugifyRun(a: string, w: string, b: string)
    requires NoWhitespace(a) && w != [] && AllWhitespace(w) && StartsWord(b)
    ensures Slugify(a + w + b) == ToLower(a) + "-" + Slugify(b)
  {
    ToLowerAppend(a + w, b);
    ToLowerAppend(a, w);
    ToLowerKeepsWhitespace(a);
    ToLowerKeepsWhitespace(w);
    ToLowerKeepsWhitespace(b);
    DashWhitespaceRun(ToLower(a), ToLower(w), ToLower(b));
  }

  /** The creator page link of a mod card (js/main.js:1422-1424): the page
      slug of the creator key or of its display name, else the fallback
      slug, then ".html". */
  function CreatorLink(creator: string): (r: string)
    ensures EndsWith(r, ".html")
  {
    var display := if creator in CreatorNames then CreatorNames[creator] else creator;
    var slug :=
      if creator in CreatorUrlMap then CreatorUrlMap[creator]
      else if display in CreatorUrlMap then CreatorUrlMap[display]
      else Slugify(creator);
    slug + ".html"
  }

  /** A creator the URL map knows, by slug or by display name, links to its
      own page. */
  lemma MappedCreatorLink(creator: string)
    requires creator in CreatorUrlMap
    ensures CreatorLink(creator) == CreatorUrlMap[creator] + ".html"
  {
  }

  /** A slug the URL map lacks still reaches its page through its display
      name: "virtual-rail-creations" is the one such slug. */
  lemma NamedCreatorLink(creator: string)
    requires creator !in CreatorUrlMap && creator in CreatorNames
    requires CreatorNames[creator] in CreatorUrlMap
    ensures CreatorLink(creator) == CreatorUrlMap[CreatorNames[creator]] + ".html"
  {
  }

  lemma VirtualRailLink()
    ensures CreatorLink("virtual-rail-creations") == "virtual-rail-creations.html"
  {
    assert "virtual-rail-creations" !in CreatorUrlMap;
  }

  /** Any other creator gets the fallback slug, which has no white space
      left in it. */
  lemma UnknownCreatorLink(creator: string)
    requires creator !in CreatorUrlMap && creator !in CreatorNames
    ensures CreatorLink(creator) == Slugify(creator) + ".html"
    ensures forall c :: c in CreatorLink(creator) ==> !IsJsWhitespace(c)
  {
    var r := CreatorLink(creator);
    assert forall c :: c in ".html" ==> !IsJsWhitespace(c);
    assert forall c :: c in r ==> c in Slugify(creator) || c in ".html";
  }

  /** A name that is already lower case with no white space is its own slug. */
  lemma PlainNameIsSlug(creator: string)
    requires forall c :: c in creator ==> !IsJsWhitespace(c) && !('A' <= c <= 'Z')
    ensures Slugify(creator) == creator
  {
    assert forall i :: 0 <= i < |creator| ==> ToLower(creator)[i] == creator[i] by {
      forall i | 0 <= i < |creator| ensures ToLower(creator)[i] == creator[i] {
        assert creator[i] in creator;
      }
    }
    assert ToLower(creator) == creator;
    assert NoWhitespace(creator) by {
      forall i | 0 <= i < |creator| ensures !IsJsWhitespace(creator[i]) {
        assert creator[i] in creator;
      }
    }
    SlugOfWord(creator);
  }

  // -------------------------------------------------------------------------
  // Top downloads

  /** One entry of the top-downloads list as the API sends it. Strings are ""
      when missing; counts are `None` when null or missing. */
  datatype RawEntry = RawEntry(filename: string, file: string, downloads: Option<int>,
                               count: Option<int>, download_count: Option<int>)

  /** A list-valued field: missing or null (`None` around it), an array, or
      some other value. */
  datatype RawList = Array(entries: seq<RawEntry>) | NotArray

  datatype TopResponse = TopResponse(
    totalDownloads: Option<int>, total_downloads: Option<int>, total: Option<int>,
    top: Option<RawList>, topDownloads: Option<RawList>, downloads: Option<RawList>,
    data: Option<RawList>)

  datatype TopItem = TopItem(filename: string, downloads: int)

  /** `a ?? b`: only a missing or null value falls through. */
  function Coalesce<T>(a: Option<T>, b: Option<T>): (r: Option<T>)
    ensures a.Some? ==> r == a
    ensures a.None? ==> r == b
  {
    if a.Some? then a else b
  }

  function NormalizeEntry(e: RawEntry): (r: TopItem)
    ensures r.filename != ""
    ensures e.filename != "" ==> r.filename == e.filename
  {
    TopItem(if e.filename != "" then e.filename else if e.file != "" then e.file else "Unknown file",
            Coalesce(e.downloads, Coalesce(e.count, e.download_count)).GetOr(0))
  }

  /** The normalised response (js/main.js:1636-1660): the total and at most
      the first five entries of the first list field present, each with a
      file name and a count. */
  function NormalizeTop(d: TopResponse): (r: (int, seq<TopItem>))
    ensures |r.1| <= 5
    ensures forall i :: 0 <= i < |r.1| ==> r.1[i].filename != ""
  {
    var total := Coalesce(d.totalDownloads, Coalesce(d.total_downloads, d.total)).GetOr(0);
    var raw := Coalesce(d.top, Coalesce(d.topDownloads, Coalesce(d.downloads, d.data)))
               .GetOr(Array([]));
    var items :=
      match raw
      case Array(es) =>
        var first := if |es| <= 5 then es else es[..5];
        seq(|first|, i requires 0 <= i < |first| => NormalizeEntry(first[i]))
      case NotArray => [];
    (total, items)
  }

  /** The list kept is the first field present in the order top,
      topDownloads, downloads, data, in its own order, cut to five; a field
      present but not an array hides the ones after it. */
  lemma TopListOrder(d: TopResponse, es: seq<RawEntry>)
    requires d.top == Some(Array(es))
    ensures var items := NormalizeTop(d).1;
      && |items| == (if |es| <= 5 then |es| else 5)
      && forall i :: 0 <= i < |items| ==> items[i] == NormalizeEntry(es[i])
  {
  }

  lemma NonArrayHidesRest(d: TopResponse)
    requires d.top == Some(NotArray)
    ensures NormalizeTop(d).1 == []
  {
  }

  /** `??` keeps a present zero: a total of 0 in `totalDownloads` is not
      replaced by a later field. */
  lemma ZeroTotalKept(d: TopResponse)
    requires d.totalDownloads == Some(0)
    ensures NormalizeTop(d).0 == 0
  {
  }

  /** What the session cache holds: the items (`None` when not an array) and
      the time stamp (`None` when it is missing, which makes the age NaN). */
  datatype CachedTop = CachedTop(items: Option<seq<TopItem>>, ts: Option<int>, totalDownloads: int)

  const CacheLifetimeMs := 1000 * 60 * 60

  /** The cache is used (js/main.js:1610-1615) when it holds a non-empty list
      less than an hour old. */
  predicate CacheFresh(c: CachedTop, now: int)
    ensures CacheFresh(c, now) ==> c.ts.Some? && now < c.ts.value + CacheLifetimeMs
    ensures c.items.None? || c.items == Some([]) ==> !CacheFresh(c, now)
  {
    && c.items.Some? && |c.items.value| > 0
    && c.ts.Some? && now - c.ts.value < CacheLifetimeMs
  }

  /** The entry written after a fetch at time `now` (js/main.js:1663-1670). */
  function CacheEntry(d: TopResponse, now: int): (c: CachedTop)
    ensures c.items == Some(NormalizeTop(d).1) && c.ts == Some(now)
  {
    var n := NormalizeTop(d);
    CachedTop(Some(n.1), Some(now), n.0)
  }

  /** A fetched list is served from the cache for exactly one hour, and an
      empty list is never served from it: every load refetches. */
  lemma CacheLifetime(d: TopResponse, fetchedAt: int, now: int)
    ensures CacheFresh(CacheEntry(d, fetchedAt), now) <==>
              |NormalizeTop(d).1| > 0 && now < fetchedAt + 3600000
  {
  }
}
