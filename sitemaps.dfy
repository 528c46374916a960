/** scripts/generate-sitemaps.js: builds sitemap.xml (the site's pages and
    every mod page found in the three creator folders) and image-sitemap.xml
    (every image of the media folder, listed under the four main pages).
    The file system is not modelled: a folder listing is an input, `None`
    for a folder that does not exist. Values are spliced into the XML as
    they are, without entity escaping. */
module Sitemaps {
  import opened Wrappers
  import opened Text

  const BaseUrl := "https://www.trainsimarchive.org"
  const ImageBaseUrl := "https://files.trainsimarchive.org/media"

  /** The creator folders searched for mod pages, in this order. */
  const ModDirectories := ["trurail-simulations", "uts-creations", "cleartracks"]

  datatype PageEntry = PageEntry(url: string, changefreq: string, priority: string)
  datatype ImageEntry = ImageEntry(url: string, title: string)

  // -------------------------------------------------------------------------
  // Mod pages (getModPages)

  predicate IsModPage(file: string) {
    EndsWith(file, ".html") && file != "index.html"
  }

  /** `file.replace('.html', '')`: the first ".html" goes. */
  function Slug(file: string): string {
    RemoveFirst(file, ".html")
  }

  function ModEntry(dir: string, file: string): PageEntry {
    PageEntry(BaseUrl + "/" + dir + "/" + Slug(file), "monthly", "0.8")
  }

  /** The entries of one folder, in listing order. */
  function ModPagesIn(dir: string, files: seq<string>): (r: seq<PageEntry>)
    ensures |r| <= |files|
    ensures forall m :: m in r ==> m.changefreq == "monthly" && m.priority == "0.8"
  {
    if files == [] then []
    else
      var last := files[|files| - 1];
      ModPagesIn(dir, files[..|files| - 1]) + (if IsModPage(last) then [ModEntry(dir, last)] else [])
  }

  /** The entries of the folders `dirs`, folder after folder. */
  function ModPagesFrom(folders: map<string, seq<string>>, dirs: seq<string>): (r: seq<PageEntry>)
    ensures forall m :: m in r ==> m.changefreq == "monthly" && m.priority == "0.8"
  {
    if dirs == [] then []
    else
      var dir := dirs[|dirs| - 1];
      ModPagesFrom(folders, dirs[..|dirs| - 1])
        + (if dir in folders then ModPagesIn(dir, folders[dir]) else [])
  }

  /** What getModPages returns; `folders` maps a folder name to its listing. */
  function ModPages(folders: map<string, seq<string>>): (r: seq<PageEntry>)
    ensures forall m :: m in r ==> m.changefreq == "monthly" && m.priority == "0.8"
  {
    ModPagesFrom(folders, ModDirectories)
  }

  method GetModPages(folders: map<string, seq<string>>) returns (mods: seq<PageEntry>)
    ensures mods == ModPages(folders)
  {
    mods := [];
    var d := 0;
    while d < |ModDirectories|
      invariant 0 <= d <= |ModDirectories|
      invariant mods == ModPagesFrom(folders, ModDirectories[..d])
    {
      var dir := ModDirectories[d];
      assert ModDirectories[..d + 1][..d] == ModDirectories[..d];
      if dir in folders {
        var files := folders[dir];
        var i := 0;
        ghost var before := mods;
        while i < |files|
          invariant 0 <= i <= |files|
          invariant mods == before + ModPagesIn(dir, files[..i])
        {
          assert files[..i + 1][..i] == files[..i];
          var file := files[i];
          if EndsWith(file, ".html") && file != "index.html" {
            var slug := RemoveFirst(file, ".html");
            mods := mods + [PageEntry(BaseUrl + "/" + dir + "/" + slug, "monthly", "0.8")];
          }
          i := i + 1;
        }
        assert files[..i] == files;
      }
      d := d + 1;
    }
    assert ModDirectories[..d] == ModDirectories;
  }

  lemma {:induction false} ModPagesInMembers(dir: string, files: seq<string>)
    ensures forall m :: m in ModPagesIn(dir, files) <==>
      exists f :: f in files && IsModPage(f) && m == ModEntry(dir, f)
  {
    if files != [] {
      var init := files[..|files| - 1];
      ModPagesInMembers(dir, init);
      assert files == init + [files[|files| - 1]];
    }
  }

  lemma {:induction false} ModPagesFromMembers(folders: map<string, seq<string>>, dirs: seq<string>)
    ensures forall m :: m in ModPagesFrom(folders, dirs) <==>
      exists dir, f :: dir in dirs && dir in folders && f in folders[dir] && IsModPage(f)
                       && m == ModEntry(dir, f)
  {
    if dirs != [] {
      var init := dirs[..|dirs| - 1];
      var dir := dirs[|dirs| - 1];
      ModPagesFromMembers(folders, init);
      if dir in folders {
        ModPagesInMembers(dir, folders[dir]);
      }
      assert dirs == init + [dir];
    }
  }

  /** A page is listed exactly when one of the three creator folders holds a
      file ending ".html" other than "index.html" for it; every one of them
      is to be checked monthly with priority 0.8. */
  lemma ModPagesAreTheHtmlFiles(folders: map<string, seq<string>>)
    ensures forall m :: m in ModPages(folders) <==>
      exists dir, f :: dir in ModDirectories && dir in folders && f in folders[dir]
                       && IsModPage(f) && m == ModEntry(dir, f)
    ensures forall m :: m in ModPages(folders) ==> m.changefreq == "monthly" && m.priority == "0.8"
  {
    ModPagesFromMembers(folders, ModDirectories);
  }

  /** A file name `name + ".html"` whose `name` has no ".html" of its own
      gets the slug `name`: the first ".html" is the one at the end. */
  lemma SlugOfPage(name: string)
    requires forall j :: !OccursAt(name, ".html", j)
    ensures Slug(name + ".html") == name
  {
    var s := name + ".html";
    var n := |name|;
    assert s[n..n + 5] == ".html";
    assert OccursAt(s, ".html", n);
    // an occurrence overlapping the end would put the final '.' inside "html"
    forall j | 0 <= j < n
      ensures !OccursAt(s, ".html", j)
    {
      if j + 5 <= n {
        assert s[j..j + 5] == name[j..j + 5];
        assert !OccursAt(name, ".html", j);
      } else {
        assert s[j..j + 5][n - j] == s[n] == '.';
        assert ".html"[n - j] != '.';
      }
    }
    assert IndexOf(s, ".html") == n;
    assert s[..n] + s[n + 5..] == name;
  }

  // -------------------------------------------------------------------------
  // Images (getImages)

  /** Node's `path.extname` of a bare file name: from the last '.' to the
      end, or "" when there is no '.', when the only '.' starts the name and
      for "..". */
  function Extname(file: string): (r: string)
    ensures r == "" || (r[0] == '.' && EndsWith(file, r) && '.' !in r[1..])
  {
    var k := LastIndexOf(file, '.');
    if k <= 0 || file == ".." then ""
    else
      var r := file[k..];
      assert forall i :: 1 <= i < |r| ==> r[i] == file[k + i];
      r
  }

  /** The extension is what follows the last '.', whatever comes before it:
      "photo.v2.jpg" has ".jpg". */
  lemma ExtnameAfterLastDot(base: string, ext: string)
    requires base != [] && '.' !in ext && base + "." + ext != ".."
    ensures Extname(base + "." + ext) == "." + ext
  {
    var file := base + "." + ext;
    LastIndexOfSeparator(base, '.', ext);
    assert file[|base|..] == "." + ext;
  }

  /** A name without a '.' has no extension. */
  lemma NoDotNoExtname(file: string)
    requires '.' !in file
    ensures Extname(file) == ""
  {
  }

  const ImageExtensions := [".jpg", ".jpeg", ".png", ".gif", ".webp"]

  predicate IsImage(file: string)
    ensures IsImage(file) ==> Extname(file) != "" && '.' in file
  {
    ToLower(Extname(file)) in ImageExtensions
  }

  /** A name with a non-empty base is an image iff the text after its last
      '.' is a listed extension, in any letter case. */
  lemma ImageByLastExtension(base: string, ext: string)
    requires base != [] && '.' !in ext && base + "." + ext != ".."
    ensures IsImage(base + "." + ext) <==> ToLower("." + ext) in ImageExtensions
  {
    ExtnameAfterLastDot(base, ext);
  }

  /** The line terminators of JavaScript regular expressions. */
  predicate IsLineBreak(c: char) {
    c == '\n' || c == '\r' || c == '\U{2028}' || c == '\U{2029}'
  }

  predicate NoLineBreak(s: string) {
    forall i :: 0 <= i < |s| ==> !IsLineBreak(s[i])
  }

  /** `replace(/~.*$/, '')`: cut at the first '~' that has no line break
      after it (`.` does not match one). */
  function CutTilde(s: string): (r: string)
    ensures StartsWith(s, r)
  {
    if s == [] then []
    else if s[0] == '~' && NoLineBreak(s[1..]) then []
    else [s[0]] + CutTilde(s[1..])
  }

  /** `replace(/\.[^.]+$/, '')`: drop the last '.' and what follows it,
      unless the '.' is the last character. */
  function DropExtension(s: string): (r: string)
    ensures StartsWith(s, r)
  {
    var k := LastIndexOf(s, '.');
    if 0 <= k < |s| - 1 then s[..k] else s
  }

  /** `replace(/[-_]/g, ' ')`. */
  function Spaced(s: string): (r: string)
    ensures |r| == |s|
    ensures forall i :: 0 <= i < |s| ==> r[i] == (if s[i] == '-' || s[i] == '_' then ' ' else s[i])
  {
    seq(|s|, i requires 0 <= i < |s| => if s[i] == '-' || s[i] == '_' then ' ' else s[i])
  }

  /** The image title of generate-sitemaps.js:54. */
  function Title(file: string): (r: string)
    ensures |r| <= |file|
    ensures '-' !in r && '_' !in r
  {
    Spaced(DropExtension(CutTilde(file)))
  }

  function ImageEntryOf(file: string): ImageEntry {
    ImageEntry(ImageBaseUrl + "/" + file, Title(file))
  }

  function ImagesOf(files: seq<string>): (r: seq<ImageEntry>)
    ensures |r| <= |files|
  {
    if files == [] then []
    else
      var last := files[|files| - 1];
      ImagesOf(files[..|files| - 1]) + (if IsImage(last) then [ImageEntryOf(last)] else [])
  }

  /** What getImages returns for the media folder's listing. */
  function Images(media: Option<seq<string>>): (r: seq<ImageEntry>)
    ensures media.None? ==> r == []
    ensures media.Some? ==> |r| <= |media.value|
  {
    if media.None? then [] else ImagesOf(media.value)
  }

  method GetImages(media: Option<seq<string>>) returns (images: seq<ImageEntry>)
    ensures images == Images(media)
  {
    images := [];
    if media.Some? {
      var files := media.value;
      var i := 0;
      while i < |files|
        invariant 0 <= i <= |files|
        invariant images == ImagesOf(files[..i])
      {
        assert files[..i + 1][..i] == files[..i];
        var file := files[i];
        var ext := ToLower(Extname(file));
        if ext in [".jpg", ".jpeg", ".png", ".gif", ".webp"] {
          images := images + [ImageEntry(ImageBaseUrl + "/" + file, Title(file))];
        }
        i := i + 1;
      }
      assert files[..i] == files;
    }
  }

  lemma {:induction false} ImagesOfMembers(files: seq<string>)
    ensures forall img :: img in ImagesOf(files) <==>
      exists f :: f in files && IsImage(f) && img == ImageEntryOf(f)
  {
    if files != [] {
      var init := files[..|files| - 1];
      ImagesOfMembers(init);
      assert files == init + [files[|files| - 1]];
    }
  }

  /** A name that starts with its only '.' (a hidden file such as ".jpg")
      has no extension for Node, so it is never listed as an image. */
  lemma HiddenFileIsNotImage(ext: string)
    requires '.' !in ext
    ensures !IsImage("." + ext)
  {
    assert "." + ext == [] + ['.'] + ext;
    LastIndexOfSeparator([], '.', ext);
  }

  /** The extension test ignores letter case. */
  lemma UpperCaseExtension(name: string)
    requires '.' !in name && name != ""
    ensures IsImage(name + ".JPG") && IsImage(name + ".Png")
  {
    var n := |name|;
    assert name + ".JPG" == name + ['.'] + "JPG";
    assert name + ".Png" == name + ['.'] + "Png";
    LastIndexOfSeparator(name, '.', "JPG");
    LastIndexOfSeparator(name, '.', "Png");
    assert (name + ".JPG")[n..] == ".JPG" && (name + ".Png")[n..] == ".Png";
    assert ToLower(".JPG") == ".jpg" && ToLower(".Png") == ".png";
  }

  // Titles

  lemma CutTildeNone(s: string)
    requires '~' !in s
    ensures CutTilde(s) == s
  {
  }

  lemma {:induction false} CutTildeAt(name: string, rest: string)
    requires '~' !in name && NoLineBreak(rest)
    ensures CutTilde(name + "~" + rest) == name
  {
    var s := name + "~" + rest;
    if name == [] {
      assert s[1..] == rest;
    } else {
      assert s[1..] == name[1..] + "~" + rest;
      CutTildeAt(name[1..], rest);
      assert s == [name[0]] + s[1..];
    }
  }

  lemma DropLastExtension(name: string, ext: string)
    requires '.' !in ext && ext != ""
    ensures DropExtension(name + "." + ext) == name
  {
    assert name + "." + ext == name + ['.'] + ext;
    LastIndexOfSeparator(name, '.', ext);
  }

  /** "name.ext" is titled by `name` with '-' and '_' turned into spaces. */
  lemma TitleOfPlainName(name: string, ext: string)
    requires '~' !in name && '~' !in ext && '.' !in ext && ext != ""
    ensures Title(name + "." + ext) == Spaced(name)
  {
    CutTildeNone(name + "." + ext);
    DropLastExtension(name, ext);
  }

  /** With a '~', everything from it goes, the extension with it. */
  lemma TitleOfTildeName(name: string, rest: string)
    requires '~' !in name && '.' !in name && NoLineBreak(rest)
    ensures Title(name + "~" + rest) == Spaced(name)
  {
    CutTildeAt(name, rest);
  }

  /** The extension step then acts on what the '~' left, so a name with a
      '.' of its own loses the part after that '.' too: "v1.2~x.png" is
      titled "v1". */
  lemma TildeNameLosesDottedPart(name: string, part: string, rest: string)
    requires '~' !in name && '~' !in part && '.' !in part && part != ""
    requires NoLineBreak(rest)
    ensures Title(name + "." + part + "~" + rest) == Spaced(name)
  {
    var dotted := name + "." + part;
    assert dotted + "~" + rest == name + "." + part + "~" + rest;
    CutTildeAt(dotted, rest);
    DropLastExtension(name, part);
  }

  // -------------------------------------------------------------------------
  // sitemap.xml (generatePageSitemap)

  const XmlDeclaration := "<?xml version=\"1.0\" encoding=\"UTF-8\"?>\n"
  /** The page sitemap's namespace is written with https. */
  const PageUrlset := "<urlset xmlns=\"https://www.sitemaps.org/schemas/sitemap/0.9\">\n"
  const UrlsetEnd := "</urlset>"

  /** The fixed pages, first in the sitemap. */
  const StaticPages := [
    PageEntry(BaseUrl, "weekly", "1.0"),
    PageEntry(BaseUrl + "/trurail-simulations", "weekly", "0.9"),
    PageEntry(BaseUrl + "/uts-creations", "weekly", "0.9"),
    PageEntry(BaseUrl + "/cleartracks", "weekly", "0.9"),
    PageEntry(BaseUrl + "/files", "monthly", "0.7"),
    PageEntry(BaseUrl + "/contributors", "monthly", "0.7"),
    PageEntry(BaseUrl + "/support", "monthly", "0.7"),
    PageEntry(BaseUrl + "/search", "monthly", "0.7"),
    PageEntry(BaseUrl + "/terms", "yearly", "0.5"),
    PageEntry(BaseUrl + "/privacy", "yearly", "0.5")]

  /** The elements `f` writes for `xs`, one after the other. */
  function Concat<T>(f: T -> string, xs: seq<T>): string {
    if xs == [] then ""
    else Concat(f, xs[..|xs| - 1]) + f(xs[|xs| - 1])
  }

  lemma {:induction false} ConcatAppend<T>(f: T -> string, a: seq<T>, b: seq<T>)
    ensures Concat(f, a + b) == Concat(f, a) + Concat(f, b)
    decreases |b|
  {
    if b == [] {
      assert a + b == a;
    } else {
      var b' := b[..|b| - 1];
      assert (a + b)[..|a + b| - 1] == a + b';
      ConcatAppend(f, a, b');
    }
  }

  lemma AppendAssoc(a: string, b: string, c: string)
    ensures (a + b) + c == a + (b + c)
  {
  }

  lemma ConcatStep<T>(f: T -> string, xs: seq<T>, i: int)
    requires 0 <= i < |xs|
    ensures Concat(f, xs[..i + 1]) == Concat(f, xs[..i]) + f(xs[i])
  {
    assert xs[..i + 1][..i] == xs[..i];
  }

  /** One `<url>` element and the blank line after it. */
  function UrlElement(p: PageEntry): string {
    "  <url>\n"
      + "    <loc>" + p.url + "</loc>\n"
      + "    <changefreq>" + p.changefreq + "</changefreq>\n"
      + "    <priority>" + p.priority + "</priority>\n"
      + "  </url>\n\n"
  }

  function PageSitemap(pages: seq<PageEntry>): (r: string)
    ensures StartsWith(r, XmlDeclaration + PageUrlset) && EndsWith(r, UrlsetEnd)
  {
    XmlDeclaration + PageUrlset + Concat(UrlElement, pages) + UrlsetEnd
  }

  /** generatePageSitemap for the given folder listings. */
  method GeneratePageSitemap(folders: map<string, seq<string>>) returns (xml: string)
    ensures xml == PageSitemap(StaticPages + ModPages(folders))
  {
    var mods := GetModPages(folders);
    var allPages := StaticPages + mods;
    xml := XmlDeclaration;
    xml := xml + PageUrlset;
    ghost var header := xml;
    var i := 0;
    while i < |allPages|
      invariant 0 <= i <= |allPages|
      invariant xml == header + Concat(UrlElement, allPages[..i])
    {
      var page := allPages[i];
      var element := "  <url>\n"
        + "    <loc>" + page.url + "</loc>\n"
        + "    <changefreq>" + page.changefreq + "</changefreq>\n"
        + "    <priority>" + page.priority + "</priority>\n"
        + "  </url>\n\n";
      assert element == UrlElement(page);
      ConcatStep(UrlElement, allPages, i);
      AppendAssoc(header, Concat(UrlElement, allPages[..i]), element);
      xml := xml + element;
      i := i + 1;
    }
    assert allPages[..i] == allPages;
    xml := xml + UrlsetEnd;
  }

  lemma PageSitemapAppend(a: seq<PageEntry>, b: seq<PageEntry>)
    ensures PageSitemap(a + b)
         == XmlDeclaration + PageUrlset + Concat(UrlElement, a) + Concat(UrlElement, b) + UrlsetEnd
  {
    ConcatAppend(UrlElement, a, b);
    AppendAssoc(XmlDeclaration + PageUrlset, Concat(UrlElement, a), Concat(UrlElement, b));
  }

  /** The ten fixed pages come first, then every mod page, each as its own
      `<url>` element. */
  lemma PageSitemapLayout(folders: map<string, seq<string>>)
    ensures PageSitemap(StaticPages + ModPages(folders))
         == XmlDeclaration + PageUrlset + Concat(UrlElement, StaticPages)
            + Concat(UrlElement, ModPages(folders)) + UrlsetEnd
    ensures forall m :: m in ModPages(folders) ==>
      m.changefreq == "monthly" && m.priority == "0.8"
  {
    PageSitemapAppend(StaticPages, ModPages(folders));
    ModPagesAreTheHtmlFiles(folders);
  }

  /** An address is copied into its `<loc>` as it is: characters such as
      '&' or '<' are not replaced by entities. */
  lemma LocIsVerbatim(p: PageEntry)
    ensures var start := |"  <url>\n    <loc>"|;
      UrlElement(p)[start..start + |p.url|] == p.url
  {
  }

  // -------------------------------------------------------------------------
  // image-sitemap.xml (generateImageSitemap)

  /** The image sitemap's namespace is written with http, unlike the page
      sitemap's. */
  const ImageUrlset := "<urlset xmlns=\"http://www.sitemaps.org/schemas/sitemap/0.9\"\n"
    + "        xmlns:image=\"http://www.google.com/schemas/sitemap-image/1.1\">\n\n"

  /** The pages every image is listed under. */
  const MainPages := [BaseUrl, BaseUrl + "/trurail-simulations", BaseUrl + "/uts-creations",
                      BaseUrl + "/cleartracks"]

  function ImageElement(img: ImageEntry): string {
    "    <image:image>\n"
      + "      <image:loc>" + img.url + "</image:loc>\n"
      + "      <image:title>" + img.title + "</image:title>\n"
      + "    </image:image>\n"
  }

  /** A main page's `<url>` element, listing every image. */
  function PageWithImages(pageUrl: string, images: seq<ImageEntry>): string {
    "  <url>\n" + "    <loc>" + pageUrl + "</loc>\n" + Concat(ImageElement, images) + "  </url>\n\n"
  }

  function PagesWithImages(pageUrls: seq<string>, images: seq<ImageEntry>): string {
    if pageUrls == [] then ""
    else PagesWithImages(pageUrls[..|pageUrls| - 1], images)
           + PageWithImages(pageUrls[|pageUrls| - 1], images)
  }

  lemma PagesStep(pageUrls: seq<string>, p: int, images: seq<ImageEntry>)
    requires 0 <= p < |pageUrls|
    ensures PagesWithImages(pageUrls[..p + 1], images)
         == PagesWithImages(pageUrls[..p], images) + PageWithImages(pageUrls[p], images)
  {
    assert pageUrls[..p + 1][..p] == pageUrls[..p];
  }

  /** The image sitemap: a `<url>` element per main page when there are
      images, none at all when there are not. */
  function ImageSitemap(images: seq<ImageEntry>): (r: string)
    ensures StartsWith(r, XmlDeclaration + ImageUrlset) && EndsWith(r, UrlsetEnd)
  {
    if |images| == 0 then XmlDeclaration + ImageUrlset + UrlsetEnd
    else XmlDeclaration + ImageUrlset + PagesWithImages(MainPages, images) + UrlsetEnd
  }

  /** One pass of generateImageSitemap's `mainPages.forEach`: the page's
      `<url>` element with every image, appended to `xml`. */
  method AppendPageWithImages(xml0: string, pageUrl: string, images: seq<ImageEntry>)
    returns (xml: string)
    ensures xml == xml0 + PageWithImages(pageUrl, images)
  {
    var opening := "  <url>\n" + "    <loc>" + pageUrl + "</loc>\n";
    xml := xml0 + opening;
    var i := 0;
    while i < |images|
      invariant 0 <= i <= |images|
      invariant xml == xml0 + opening + Concat(ImageElement, images[..i])
    {
      var img := images[i];
      var element := "    <image:image>\n"
        + "      <image:loc>" + img.url + "</image:loc>\n"
        + "      <image:title>" + img.title + "</image:title>\n"
        + "    </image:image>\n";
      assert element == ImageElement(img);
      ConcatStep(ImageElement, images, i);
      AppendAssoc(xml0 + opening, Concat(ImageElement, images[..i]), element);
      xml := xml + element;
      i := i + 1;
    }
    assert images[..i] == images;
    ghost var listed := Concat(ImageElement, images);
    AppendAssoc(xml0, opening, listed);
    AppendAssoc(xml0, opening + listed, "  </url>\n\n");
    assert opening + listed + "  </url>\n\n" == PageWithImages(pageUrl, images);
    xml := xml + "  </url>\n\n";
  }

  /** generateImageSitemap's `mainPages.forEach` over `pageUrls`: nothing
      at all when there are no images. */
  method AppendMainPages(xml0: string, pageUrls: seq<string>, images: seq<ImageEntry>)
    returns (xml: string)
    ensures |images| == 0 ==> xml == xml0
    ensures |images| > 0 ==> xml == xml0 + PagesWithImages(pageUrls, images)
  {
    xml := xml0;
    var p := 0;
    while p < |pageUrls|
      invariant 0 <= p <= |pageUrls|
      invariant |images| == 0 ==> xml == xml0
      invariant |images| > 0 ==> xml == xml0 + PagesWithImages(pageUrls[..p], images)
    {
      var pageUrl := pageUrls[p];
      if |images| > 0 {
        AppendNextPage(xml0, pageUrls, p, images);
        xml := AppendPageWithImages(xml, pageUrl, images);
      }
      p := p + 1;
    }
    assert pageUrls[..p] == pageUrls;
  }

  lemma AppendNextPage(xml0: string, pageUrls: seq<string>, p: int, images: seq<ImageEntry>)
    requires 0 <= p < |pageUrls|
    ensures xml0 + PagesWithImages(pageUrls[..p + 1], images)
         == (xml0 + PagesWithImages(pageUrls[..p], images)) + PageWithImages(pageUrls[p], images)
  {
    PagesStep(pageUrls, p, images);
    AppendAssoc(xml0, PagesWithImages(pageUrls[..p], images), PageWithImages(pageUrls[p], images));
  }

  /** generateImageSitemap for the media folder's listing. */
  method GenerateImageSitemap(media: Option<seq<string>>) returns (xml: string)
    ensures xml == ImageSitemap(Images(media))
  {
    var images := GetImages(media);
    xml := XmlDeclaration;
    xml := xml + ImageUrlset;
    xml := AppendMainPages(xml, MainPages, images);
    xml := xml + UrlsetEnd;
  }

  /** Without images the sitemap is only the frame; with images it has the
      four main pages, in order, each listing every image. */
  lemma ImageSitemapLayout(images: seq<ImageEntry>)
    ensures |images| == 0 ==> ImageSitemap(images) == XmlDeclaration + ImageUrlset + UrlsetEnd
    ensures |images| > 0 ==>
      ImageSitemap(images) == XmlDeclaration + ImageUrlset
        + (PageWithImages(BaseUrl, images)
           + PageWithImages(BaseUrl + "/trurail-simulations", images)
           + PageWithImages(BaseUrl + "/uts-creations", images)
           + PageWithImages(BaseUrl + "/cleartracks", images))
        + UrlsetEnd
  {
    var m := MainPages;
    PagesStep(m, 0, images);
    PagesStep(m, 1, images);
    PagesStep(m, 2, images);
    PagesStep(m, 3, images);
    assert m[..0] == [] && m[..4] == m;
    var p0 := PageWithImages(m[0], images);
    assert "" + p0 == p0;
    assert PagesWithImages(m, images) == p0 + PageWithImages(m[1], images) + PageWithImages(m[2], images)
                                         + PageWithImages(m[3], images);
  }
}
