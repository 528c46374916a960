/** The two page-location rules of js/main.js: the "am I in a subdirectory"
    test that decides whether the search box and the footer links need a
    "../" prefix, and the copyright line of the footer. */
module SitePaths {
  import opened Wrappers
  import opened Text

  /** The folder the site is checked out in; a page directly inside it is a
      top-level page even when the site is opened from disk. */
  const RootFolder := "trainsimulatormodarchive"

  /** `pathname.split('#')[0].split('?')[0]`. */
  function CleanPath(pathname: string): (r: string)
    ensures StartsWith(pathname, r)
    ensures '#' !in r && '?' !in r
  {
    var a := BeforeFirst(pathname, '#');
    var r := BeforeFirst(a, '?');
    assert pathname[..|r|] == a[..|r|];
    r
  }

  /** The last folder name before the file name (js/main.js:36-42): the part
      of the path before its last '/', then that part's last segment.
      `substring(0, -1)` is the empty string, so a path with no '/' has no
      folder. */
  function FolderName(pathname: string): (r: string)
    ensures '/' !in r
  {
    var p := CleanPath(pathname);
    var k := LastIndexOf(p, '/');
    var dir := if k < 0 then "" else p[..k];
    AfterLast(dir, '/')
  }

  predicate InSubdirectory(pathname: string) {
    var folder := FolderName(pathname);
    folder != "" && folder != RootFolder
  }

  /** The link to a top-level page from the current page (js/main.js:45,
      1895-1897): one level up from a subdirectory, else as it is. */
  function PagePath(pathname: string, page: string): (r: string)
    ensures r == "../" + page || r == page
    ensures EndsWith(r, page)
  {
    if InSubdirectory(pathname) then "../" + page else page
  }

  /** Where Enter in a search box goes (js/main.js:44-47); `query` is the
      already-encoded search text. */
  function SearchHref(pathname: string, query: string): (r: string)
    ensures StartsWith(r, PagePath(pathname, "search.html"))
  {
    PagePath(pathname, "search.html") + "?q=" + query
  }

  /** The keypress listener of a search box (js/main.js:28-49): only Enter
      with some non-blank text navigates, to the trimmed text run through
      `encode` (encodeURIComponent, a parameter here). */
  function SearchKeypress(pathname: string, isEnter: bool, value: string,
                          encode: string -> string): (r: Option<string>)
    ensures r.Some? <==> isEnter && !AllWhitespace(value)
  {
    TrimBlank(value);
    if isEnter && Trim(value) != "" then
      Some(SearchHref(pathname, encode(Trim(value))))
    else None
  }

  /** White space typed around the search text does not change where the
      search goes. */
  lemma SearchIgnoresPadding(pathname: string, w1: string, text: string, w2: string,
                             encode: string -> string)
    requires AllWhitespace(w1) && AllWhitespace(w2) && text != []
    requires !IsJsWhitespace(text[0]) && !IsJsWhitespace(text[|text| - 1])
    ensures SearchKeypress(pathname, true, w1 + text + w2, encode)
         == Some(SearchHref(pathname, encode(text)))
  {
    TrimPadding(w1, text, w2);
  }

  lemma {:induction false} BeforeFirstAppend(s: string, t: string, c: char)
    requires c !in s
    ensures BeforeFirst(s + t, c) == s + BeforeFirst(t, c)
  {
    if s == [] {
      assert s + t == t;
    } else {
      var u := s + t;
      var b := BeforeFirst(t, c);
      assert u[0] == s[0] != c;
      assert u[1..] == s[1..] + t;
      BeforeFirstAppend(s[1..], t, c);
      assert BeforeFirst(u, c) == [s[0]] + (s[1..] + b);
      assert [s[0]] + (s[1..] + b) == ([s[0]] + s[1..]) + b;
      assert [s[0]] + s[1..] == s;
    }
  }

  /** Stripping the query and the fragment leaves the path itself. */
  lemma CleanPathStripsTail(path: string, tail: string)
    requires '#' !in path && '?' !in path
    requires tail == [] || tail[0] == '#' || tail[0] == '?'
    ensures CleanPath(path + tail) == path
  {
    BeforeFirstAppend(path, tail, '#');
    var t1 := BeforeFirst(tail, '#');
    assert t1 == [] || t1[0] == '?';
    BeforeFirstAppend(path, t1, '?');
    assert BeforeFirst(t1, '?') == [];
    assert path + [] == path;
  }

  /** A path `prefix/folder/file` followed by an optional `?query` or
      `#fragment` has folder name `folder`: the rule reads the segment just
      before the file name. */
  lemma FolderOfPath(prefix: string, folder: string, file: string, tail: string)
    requires '/' !in folder && '/' !in file
    requires '#' !in prefix && '#' !in folder && '#' !in file
    requires '?' !in prefix && '?' !in folder && '?' !in file
    requires tail == [] || tail[0] == '#' || tail[0] == '?'
    ensures FolderName(prefix + "/" + folder + "/" + file + tail) == folder
  {
    var dir := prefix + "/" + folder;
    var path := dir + "/" + file;
    assert '#' !in path && '?' !in path;
    CleanPathStripsTail(path, tail);
    assert path + tail == prefix + "/" + folder + "/" + file + tail;
    LastIndexOfSeparator(dir, '/', file);
    assert path[..|dir|] == dir;
    AfterLastSeparator(prefix, '/', folder);
  }

  /** A path with no '/' before its query or fragment has no folder, so its
      links stay relative to the current directory. */
  lemma NoSlashIsTopLevel(pathname: string)
    requires '/' !in CleanPath(pathname)
    ensures FolderName(pathname) == ""
    ensures PagePath(pathname, "terms.html") == "terms.html"
  {
  }

  /** A page directly under the domain root, "/file", has no folder: the
      part before its only '/' is empty. */
  lemma RootPathIsTopLevel(file: string, tail: string, page: string)
    requires '/' !in file && '#' !in file && '?' !in file
    requires tail == [] || tail[0] == '#' || tail[0] == '?'
    ensures FolderName("/" + file + tail) == ""
    ensures PagePath("/" + file + tail, page) == page
  {
    var path := "/" + file;
    CleanPathStripsTail(path, tail);
    LastIndexOfSeparator([], '/', file);
    assert [] + ['/'] + file == path;
  }

  /** The link rule on a path of the shape `prefix/folder/file`: "../page"
      exactly when `folder` is neither empty nor the site's root folder. */
  lemma LinkRule(prefix: string, folder: string, file: string, tail: string, page: string)
    requires '/' !in folder && '/' !in file
    requires '#' !in prefix && '#' !in folder && '#' !in file
    requires '?' !in prefix && '?' !in folder && '?' !in file
    requires tail == [] || tail[0] == '#' || tail[0] == '?'
    ensures var pathname := prefix + "/" + folder + "/" + file + tail;
      PagePath(pathname, page) == (if folder != "" && folder != RootFolder then "../" + page else page)
  {
    FolderOfPath(prefix, folder, file, tail);
  }

  // -------------------------------------------------------------------------
  // The copyright line (applyYear, js/main.js:1935-1943)

  const BaseYear := 2023
  const Owner := " Train Simulator Mod Archive"
  /** The line up to the base year: "© 2023 Train Simulator Mod Archive". */
  const SingleYear := "© 2023" + Owner
  const RangeStart := "© 2023 - "

  /** `year` as applyYear receives it (`None` for a missing or unparseable
      year); 0 counts as missing too, and the client's own year is used. */
  function EffectiveYear(year: Option<int>, clientYear: int): (y: int)
    ensures year.Some? && year.value != 0 ==> y == year.value
    ensures year.None? || year.value == 0 ==> y == clientYear
  {
    match year
    case None => clientYear
    case Some(v) => if v == 0 then clientYear else v
  }

  function CopyrightText(year: Option<int>, clientYear: int): (r: string)
    ensures StartsWith(r, "© 2023")
    ensures EndsWith(r, Owner)
  {
    var y := EffectiveYear(year, clientYear);
    if y <= BaseYear then SingleYear
    else RangeStart + Decimal(y) + Owner
  }

  /** Up to the base year the line names one year; after it, a range whose
      second number reads back as the effective year. */
  lemma CopyrightRange(year: Option<int>, clientYear: int)
    ensures var y := EffectiveYear(year, clientYear);
      && (CopyrightText(year, clientYear) == SingleYear <==> y <= BaseYear)
      && (y > BaseYear ==>
            exists d :: CopyrightText(year, clientYear) == RangeStart + d + Owner
                        && ParseInt(d) == Some(y))
  {
    var y := EffectiveYear(year, clientYear);
    if y > BaseYear {
      ParseDecimal(y);
      RangeIsNotSingle(Decimal(y));
    }
  }

  lemma RangeIsNotSingle(d: string)
    ensures RangeStart + d + Owner != SingleYear
  {
    assert (RangeStart + d + Owner)[7] == RangeStart[7] == '-';
    assert SingleYear[7] == 'T';
  }
}
