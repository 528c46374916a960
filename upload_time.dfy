/** The "uploaded" text of a file's details (js/api-client.js:40-60): the
    server's own relative text for the first day, then "yesterday", then
    "<n> days ago", and a calendar date from the seventh day on. The clock,
    the date parser and `toLocaleDateString` are inputs: `elapsed` is
    `now - new Date(fileInfo.uploaded)` in milliseconds, `None` when the
    upload date does not parse (the difference is then NaN). */
module UploadTime {
  import opened Wrappers
  import opened Text

  const HourMs := 1000 * 60 * 60
  const DayMs := 24 * HourMs

  /** Which of the four texts is shown. */
  datatype Bucket = ServerAgo | Yesterday | DaysAgo(days: int) | CalendarDate

  /** `Math.floor(elapsed / 3600000)`; Dafny's division by a positive number
      already rounds down, also for a negative `elapsed`. */
  function HoursDiff(elapsed: int): (h: int)
    ensures h * HourMs <= elapsed < (h + 1) * HourMs
  {
    elapsed / HourMs
  }

  /** `Math.floor(hoursDiff / 24)`: whole days of whole hours. */
  function DaysDiff(elapsed: int): (d: int)
    ensures d * 24 <= HoursDiff(elapsed) < (d + 1) * 24
  {
    HoursDiff(elapsed) / 24
  }

  /** The if/else chain on hoursDiff and daysDiff. NaN fails every
      comparison, so an unparsable date falls through to the last branch. */
  function UploadBucket(elapsed: Option<int>): (b: Bucket)
    ensures b.DaysAgo? ==> 2 <= b.days < 7
  {
    match elapsed
    case None => CalendarDate
    case Some(e) =>
      var hours := HoursDiff(e);
      var days := DaysDiff(e);
      if hours < 24 then ServerAgo
      else if days == 1 then Yesterday
      else if days < 7 then DaysAgo(days)
      else CalendarDate
  }

  /** The text written into the page; `uploadedAgo` is the server's text and
      `formatted` the locale date. */
  function UploadedText(elapsed: Option<int>, uploadedAgo: string, formatted: string): (r: string)
    ensures UploadBucket(elapsed) == ServerAgo ==> r == uploadedAgo
    ensures UploadBucket(elapsed) == Yesterday ==> r == "yesterday"
    ensures UploadBucket(elapsed).DaysAgo? ==>
      exists d :: && r == d + " days ago" && ParseInt(d) == Some(UploadBucket(elapsed).days)
                  && |d| >= 1 && (forall i :: 0 <= i < |d| ==> IsDigit(d[i]))
                  && (|d| > 1 ==> d[0] != '0')
    ensures UploadBucket(elapsed) == CalendarDate ==> r == formatted
  {
    match UploadBucket(elapsed)
    case ServerAgo => uploadedAgo
    case Yesterday => "yesterday"
    case DaysAgo(d) =>
      ParseDecimal(d);
      Decimal(d) + " days ago"
    case CalendarDate => formatted
  }

  /** Rounding down twice is rounding down once by the product. */
  lemma FloorTwice(e: int)
    ensures DaysDiff(e) == e / DayMs
  {
    var h := e / HourMs;
    var d := h / 24;
    assert e == h * HourMs + e % HourMs;
    assert h == d * 24 + h % 24;
    assert e == d * DayMs + ((h % 24) * HourMs + e % HourMs) by {
      assert h * HourMs == (d * 24 + h % 24) * HourMs;
      assert (d * 24) * HourMs == d * DayMs;
    }
    var rest := (h % 24) * HourMs + e % HourMs;
    assert 0 <= rest < DayMs by {
      assert 0 <= h % 24 <= 23;
      assert (h % 24) * HourMs <= 23 * HourMs;
    }
    DivUnique(e, DayMs, d, rest);
  }

  lemma DivUnique(e: int, m: int, q: int, r: int)
    requires m > 0 && e == q * m + r && 0 <= r < m
    ensures e / m == q
  {
    var q' := e / m;
    var r' := e % m;
    assert e == q' * m + r';
    if q' < q {
      MulAtLeast(q - q', m);
    } else if q' > q {
      MulAtLeast(q' - q, m);
    }
  }

  lemma MulAtLeast(k: int, m: int)
    requires k >= 1 && m > 0
    ensures k * m >= m
  {
    assert k * m == (k - 1) * m + m;
  }

  /** The chain read as thresholds on the elapsed time: under a day the
      server's text (a future date included), under two days "yesterday",
      under a week the number of whole days, and a date after that or when
      the upload date does not parse. */
  lemma BucketThresholds(e: int)
    ensures UploadBucket(Some(e)) == ServerAgo <==> e < DayMs
    ensures UploadBucket(Some(e)) == Yesterday <==> DayMs <= e < 2 * DayMs
    ensures UploadBucket(Some(e)).DaysAgo? <==> 2 * DayMs <= e < 7 * DayMs
    ensures UploadBucket(Some(e)).DaysAgo? ==> UploadBucket(Some(e)).days == e / DayMs
    ensures UploadBucket(Some(e)) == CalendarDate <==> e >= 7 * DayMs
  {
    FloorTwice(e);
    var h := HoursDiff(e);
    var d := e / DayMs;
    assert h < 24 <==> e < DayMs by {
      if h < 24 {
        DivUnique(e, DayMs, e / DayMs, e % DayMs);
        assert e < h * HourMs + HourMs;
        assert h * HourMs <= 23 * HourMs;
      } else {
        assert e >= h * HourMs >= 24 * HourMs;
      }
    }
    assert d * DayMs <= e < d * DayMs + DayMs;
    if d <= 0 {
      assert e < DayMs;
    } else if d == 1 {
      assert DayMs <= e < 2 * DayMs;
    } else if d < 7 {
      assert 2 * DayMs <= d * DayMs;
      assert (d + 1) * DayMs <= 7 * DayMs;
    } else {
      assert d * DayMs >= 7 * DayMs;
    }
  }

  /** The rank of a text in time: an older upload never shows a more
      recent text. */
  function Age(b: Bucket): int {
    match b
    case ServerAgo => 0
    case Yesterday => 1
    case DaysAgo(d) => d
    case CalendarDate => 7
  }

  lemma OlderNeverNewer(e1: int, e2: int)
    requires e1 <= e2
    ensures Age(UploadBucket(Some(e1))) <= Age(UploadBucket(Some(e2)))
  {
    BucketThresholds(e1);
    BucketThresholds(e2);
    if UploadBucket(Some(e1)).DaysAgo? && UploadBucket(Some(e2)).DaysAgo? {
      DivMonotone(e1, e2, DayMs);
    }
  }

  lemma DivMonotone(a: int, b: int, m: int)
    requires a <= b && m > 0
    ensures a / m <= b / m
  {
    var qa, qb := a / m, b / m;
    if qa > qb {
      MulAtLeast(qa - qb, m);
    }
  }
}
