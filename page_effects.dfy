/** Two loops of js/main.js that drive what the page shows: the sidebar's
    current-section highlight (1802-1820) and the ±1 counting animation of
    the archive statistics (7-20). */
module PageEffects {
  import opened Wrappers

  // -------------------------------------------------------------------------
  // Sidebar highlight

  /** A `.category-section`: its offsetTop, clientHeight and id attribute
      (`None` when it has none, read as `null`). */
  datatype Section = Section(top: int, height: int, id: Option<string>)

  /** The section contains the reading position, a fixed 150 px below the
      top of the window. */
  predicate Covers(s: Section, scrollPos: int) {
    scrollPos >= s.top && scrollPos < s.top + s.height
  }

  /** The id the scan ends with: the last section that covers the position,
      or the initial '' when none does. */
  function CurrentSection(sections: seq<Section>, scrollPos: int): (r: Option<string>)
    ensures r == Some("") || exists k :: 0 <= k < |sections| && Covers(sections[k], scrollPos) && r == sections[k].id
    decreases |sections|
  {
    if sections == [] then Some("")
    else
      var last := sections[|sections| - 1];
      if Covers(last, scrollPos) then last.id
      else CurrentSection(sections[..|sections| - 1], scrollPos)
  }

  /** The scan's result read directly: the id of the covering section with
      the highest index, if any. */
  lemma {:induction false} CurrentIsLastCovering(sections: seq<Section>, scrollPos: int)
    ensures var cur := CurrentSection(sections, scrollPos);
      || (exists k :: 0 <= k < |sections| && Covers(sections[k], scrollPos) && cur == sections[k].id
                      && forall j :: k < j < |sections| ==> !Covers(sections[j], scrollPos))
      || (cur == Some("") && forall j :: 0 <= j < |sections| ==> !Covers(sections[j], scrollPos))
    decreases |sections|
  {
    if sections != [] {
      var n := |sections|;
      var init := sections[..n - 1];
      if !Covers(sections[n - 1], scrollPos) {
        CurrentIsLastCovering(init, scrollPos);
        assert forall j :: 0 <= j < n - 1 ==> init[j] == sections[j];
      }
    }
  }

  /** highlightCurrentSection: the scan over the sections, then one pass over
      the links that leaves 'active' on exactly those whose data-target
      equals the id found (`None` for a link without one, which matches a
      section without an id). With no links or no sections the listener is
      never installed and nothing changes. */
  method HighlightCurrentSection(sections: seq<Section>, targets: seq<Option<string>>,
                                 linkActive: seq<bool>, scrollY: int)
    returns (active: seq<bool>)
    requires |linkActive| == |targets|
    ensures |targets| == 0 || |sections| == 0 ==> active == linkActive
    ensures |targets| > 0 && |sections| > 0 ==>
      |active| == |targets| &&
      forall j :: 0 <= j < |targets| ==>
        (active[j] <==> targets[j] == CurrentSection(sections, scrollY + 150))
  {
    if |targets| == 0 || |sections| == 0 {
      return linkActive;
    }
    var current: Option<string> := Some("");
    var scrollPos := scrollY + 150;
    var i := 0;
    while i < |sections|
      invariant 0 <= i <= |sections|
      invariant current == CurrentSection(sections[..i], scrollPos)
    {
      assert sections[..i + 1][..i] == sections[..i];
      if scrollPos >= sections[i].top && scrollPos < sections[i].top + sections[i].height {
        current := sections[i].id;
      }
      i := i + 1;
    }
    assert sections[..i] == sections;
    active := linkActive;
    var j := 0;
    while j < |targets|
      invariant 0 <= j <= |targets| && |active| == |targets|
      invariant forall k :: 0 <= k < j ==> (active[k] <==> targets[k] == current)
    {
      active := active[j := false];
      if targets[j] == current {
        active := active[j := true];
      }
      j := j + 1;
    }
  }

  // -------------------------------------------------------------------------
  // Counting animation

  function Abs(x: int): nat {
    if x < 0 then -x else x
  }

  /** The direction animateValue counts in: down unless `end` is above. */
  function Step(start: int, end: int): (d: int)
    ensures d == 1 || d == -1
    ensures d == 1 <==> start < end
  {
    if end > start then 1 else -1
  }

  /** The interval has been cleared after `ticks` firings. */
  predicate Finished(start: int, end: int, ticks: nat)
    ensures start == end ==> !Finished(start, end, ticks)
    ensures start != end && ticks == Abs(end - start) ==> Finished(start, end, ticks)
  {
    start != end && ticks >= Abs(end - start)
  }

  /** The values written to the element after `ticks` firings. */
  function Counted(start: int, end: int, ticks: nat): (r: seq<int>)
    ensures |r| == if Finished(start, end, ticks) then Abs(end - start) else ticks
  {
    var n := if Finished(start, end, ticks) then Abs(end - start) else ticks;
    seq(n, i requires 0 <= i < n => start + (i + 1) * Step(start, end))
  }

  /** The value after the (i+1)-th firing, read as addition. */
  lemma CountedAt(start: int, end: int, ticks: nat)
    ensures var r := Counted(start, end, ticks);
      forall i :: 0 <= i < |r| ==> r[i] == if end > start then start + i + 1 else start - i - 1
  {
    var r := Counted(start, end, ticks);
    forall i | 0 <= i < |r|
      ensures r[i] == if end > start then start + i + 1 else start - i - 1
    {
      var m := i + 1;
      assert r[i] == start + m * Step(start, end);
      if end > start {
        assert m * 1 == m;
      } else {
        assert m * -1 == -m;
      }
    }
  }

  /** animateValue(element, start, end, duration) after `ticks` firings of
      its interval: each firing moves one step and writes the value, and the
      interval is cleared once the value equals `end`. */
  method AnimateValue(start: int, end: int, ticks: nat) returns (shown: seq<int>, stopped: bool)
    ensures shown == Counted(start, end, ticks)
    ensures stopped == Finished(start, end, ticks)
  {
    var increment := if end > start then 1 else -1;
    assert increment == Step(start, end);
    var current := start;
    shown := [];
    stopped := false;
    var k := 0;
    while k < ticks && !stopped
      invariant 0 <= k <= ticks && |shown| == k
      invariant current == start + k * increment
      invariant forall i :: 0 <= i < k ==> shown[i] == start + (i + 1) * increment
      invariant stopped <==> start != end && k == Abs(end - start)
      invariant !stopped ==> start == end || k < Abs(end - start)
    {
      current := current + increment;
      shown := shown + [current];
      k := k + 1;
      if current == end {
        stopped := true;
      }
    }
    var r := Counted(start, end, ticks);
    assert |shown| == |r|;
    assert forall i :: 0 <= i < |r| ==> shown[i] == r[i];
  }

  /** With different bounds the counter passes through every value strictly
      between them, in order, and stops on `end` itself. */
  lemma CountReachesEnd(start: int, end: int, ticks: nat)
    requires start != end && ticks >= Abs(end - start)
    ensures var r := Counted(start, end, ticks);
      && Finished(start, end, ticks) && r[|r| - 1] == end
      && forall i :: 0 <= i < |r| - 1 ==> r[i] != end
  {
    var r := Counted(start, end, ticks);
    var n: int := Abs(end - start);
    assert |r| == n;
    CountedAt(start, end, ticks);
    if end > start {
      assert r[n - 1] == start + n;
    } else {
      assert r[n - 1] == start - n;
    }
  }

  /** With equal bounds the first step already moves away from `end`, so the
      interval is never cleared and the counter runs down for as long as
      the page is open. */
  lemma EqualBoundsNeverStop(v: int, ticks: nat)
    ensures !Finished(v, v, ticks)
    ensures var r := Counted(v, v, ticks);
      |r| == ticks && forall i :: 0 <= i < ticks ==> r[i] == v - i - 1 && r[i] != v
  {
    CountedAt(v, v, ticks);
  }
}
