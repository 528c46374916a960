/** The download button handler of js/main.js:986-1020: which links count as
    direct file downloads, and the file details shown in the download dialog
    when the button's data- attributes are missing. */
module Downloads {
  import opened Text

  /** The extensions of `/\.(zip|rar|7z|exe|pdf|png|jpg|jpeg|gif|bmp|webp)$/i`. */
  const DirectExtensions: seq<string> :=
    ["zip", "rar", "7z", "exe", "pdf", "png", "jpg", "jpeg", "gif", "bmp", "webp"]

  /** The regular expression's test: the link ends with '.' and one of the
      extensions, in any letter case. */
  predicate IsDirectDownload(url: string)
    ensures IsDirectDownload(url) ==> |url| >= 3 && '.' in ToLower(url)
  {
    DotBeforeSuffix(ToLower(url));
    exists e :: e in DirectExtensions && EndsWith(ToLower(url), "." + e)
  }

  /** A text ending in '.' and a suffix has that '.' in it. */
  lemma DotBeforeSuffix(l: string)
    ensures forall e :: EndsWith(l, "." + e) ==> |l| > |e| && l[|l| - |e| - 1] == '.'
  {
    forall e | EndsWith(l, "." + e)
      ensures |l| > |e| && l[|l| - |e| - 1] == '.'
    {
      assert l[|l| - |e| - 1..][0] == ("." + e)[0];
    }
  }

  /** The same decision read the other way round: the lower-cased text after
      the link's last '.' is one of the extensions. */
  predicate HasDirectExtension(url: string) {
    var l := ToLower(url);
    '.' in l && AfterLast(l, '.') in DirectExtensions
  }

  lemma NoDotInExtensions()
    ensures forall e :: e in DirectExtensions ==> '.' !in e && '/' !in e && e != ""
  {
  }

  /** A suffix with no '.' right after a '.' is what follows the last '.'. */
  lemma AfterLastDot(l: string, e: string)
    requires '.' !in e && EndsWith(l, "." + e)
    ensures AfterLast(l, '.') == e
  {
    var r := AfterLast(l, '.');
    var n := |l|;
    assert l[n - |e| - 1] == '.';
    assert r == l[n - |r|..] == e;
  }

  /** The regular expression and the last-'.' reading agree on every link. */
  lemma DirectDownloadByLastDot(url: string)
    ensures IsDirectDownload(url) <==> HasDirectExtension(url)
  {
    if IsDirectDownload(url) {
      DirectHasExtension(url);
    }
    if HasDirectExtension(url) {
      ExtensionIsDirect(url);
    }
  }

  lemma DirectHasExtension(url: string)
    requires IsDirectDownload(url)
    ensures HasDirectExtension(url)
  {
    NoDotInExtensions();
    var l := ToLower(url);
    var e :| e in DirectExtensions && EndsWith(l, "." + e);
    AfterLastDot(l, e);
    assert l[|l| - |e| - 1] == '.';
  }

  lemma ExtensionIsDirect(url: string)
    requires HasDirectExtension(url)
    ensures IsDirectDownload(url)
  {
    var l := ToLower(url);
    var e := AfterLast(l, '.');
    assert l[|l| - |e| - 1] == '.';
    assert l[|l| - |e| - 1..] == "." + e;
  }

  /** The button's `data-` attributes; "" stands for a missing one, which
      `||` treats the same way. */
  datatype DownloadButton = DownloadButton(url: string, name: string, version: string,
                                           size: string, date: string, author: string)

  datatype FileInfo = FileInfo(name: string, version: string, size: string,
                               date: string, author: string)

  /** `a || b` on strings. */
  function Or(a: string, b: string): (r: string)
    ensures r == a || r == b
    ensures r != "" <==> a != "" || b != ""
  {
    if a != "" then a else b
  }

  /** The details passed to the download dialog, and whether the link is a
      direct download: the file name falls back to the link's last path
      segment for a direct download and to "Unknown" otherwise. */
  function DownloadDetails(b: DownloadButton): (r: (FileInfo, bool))
    ensures r.1 == IsDirectDownload(b.url)
    ensures b.name != "" ==> r.0.name == b.name
    ensures b.name == "" ==> r.0.name == if r.1 then AfterLast(b.url, '/') else "Unknown"
    ensures r.0.version == Or(b.version, "1.0")
    ensures r.0.size == Or(b.size, "Unknown") && r.0.date == Or(b.date, "Unknown")
    ensures r.0.author == Or(b.author, "Unknown")
  {
    var direct := IsDirectDownload(b.url);
    var name := Or(b.name, if direct then AfterLast(b.url, '/') else "Unknown");
    (FileInfo(name, Or(b.version, "1.0"), Or(b.size, "Unknown"), Or(b.date, "Unknown"),
              Or(b.author, "Unknown")),
     direct)
  }

  /** A link ending in a non-empty extension without '/' does not end in '/',
      so its last path segment is not empty. */
  lemma LastSegmentNotEmpty(url: string, e: string)
    requires e != "" && '/' !in e && EndsWith(ToLower(url), "." + e)
    ensures AfterLast(url, '/') != ""
  {
    var l := ToLower(url);
    assert ("." + e)[|e|] == e[|e| - 1] != '/';
    assert l[|l| - 1] == e[|e| - 1];
    assert LowerChar(url[|url| - 1]) != '/';
  }

  /** A direct-download link cannot end in '/', so its last segment is a
      real file name. */
  lemma DirectNameNotEmpty(url: string)
    requires IsDirectDownload(url)
    ensures AfterLast(url, '/') != ""
  {
    NoDotInExtensions();
    var e :| e in DirectExtensions && EndsWith(ToLower(url), "." + e);
    LastSegmentNotEmpty(url, e);
  }

  /** Every field of the dialog is filled in, whatever attributes are missing. */
  lemma DetailsAlwaysFilled(b: DownloadButton)
    ensures var info := DownloadDetails(b).0;
      info.name != "" && info.version != "" && info.size != "" && info.date != ""
      && info.author != ""
  {
    if b.name == "" && IsDirectDownload(b.url) {
      DirectNameNotEmpty(b.url);
    }
  }
}
