/** The bounded reverse-lookup scan and what following its cursors lists. */
module NamePages {
  import opened Common
  import opened NameValidation

  const MAX_REVERSE_PAGE_SIZE: u32 := 50
  const MAX_REVERSE_SCAN_WINDOW: u32 := 500

  datatype NamesPage = NamesPage(items: seq<(u32, Name)>, nextStart: u32)

  /** The named ids from `lo` up to but excluding `hi`, in ascending order. */
  function NamedIn(names: map<u32, Name>, lo: u32, hi: u32): seq<(u32, Name)>
    decreases hi - lo
  {
    if lo >= hi then []
    else (if lo in names then [(lo, names[lo])] else []) + NamedIn(names, lo + 1, hi)
  }

  function First(start: u32): u32 {
    if start == 0 then 1 else start
  }

  function PageSize(limit: u32): u32 {
    if limit < 1 then 1 else if limit > MAX_REVERSE_PAGE_SIZE then MAX_REVERSE_PAGE_SIZE else limit
  }

  function ScanEnd(start: u32): u32 {
    SaturatingAddU32(First(start), MAX_REVERSE_SCAN_WINDOW)
  }

  /** Where a scan stops: after `room` named ids or at the end of its window. */
  function ScanStop(names: map<u32, Name>, cursor: u32, scanEnd: u32, room: nat): u32
    decreases scanEnd - cursor
  {
    if cursor < scanEnd && room > 0 then
      ScanStop(names, cursor + 1, scanEnd, if cursor in names then room - 1 else room)
    else cursor
  }

  /** The page a scan returns: the ids it passed, and where it stopped unless that is the window's end. */
  function PageOf(names: map<u32, Name>, start: u32, limit: u32): NamesPage {
    var stop := ScanStop(names, First(start), ScanEnd(start), PageSize(limit));
    NamesPage(NamedIn(names, First(start), stop), if stop < ScanEnd(start) then stop else 0)
  }

  lemma {:induction false} NamedInMembers(names: map<u32, Name>, lo: u32, hi: u32, x: (u32, Name))
    ensures x in NamedIn(names, lo, hi) <==> lo <= x.0 < hi && x.0 in names && x.1 == names[x.0]
    decreases hi - lo
  {
    if lo < hi {
      NamedInMembers(names, lo + 1, hi, x);
    }
  }

  lemma {:induction false} NamedInAscends(names: map<u32, Name>, lo: u32, hi: u32, i: int, j: int)
    requires 0 <= i < j < |NamedIn(names, lo, hi)|
    ensures NamedIn(names, lo, hi)[i].0 < NamedIn(names, lo, hi)[j].0
    decreases hi - lo
  {
    if lo in names {
      if i > 0 {
        NamedInAscends(names, lo + 1, hi, i - 1, j - 1);
      } else {
        NamedInMembers(names, lo + 1, hi, NamedIn(names, lo + 1, hi)[j - 1]);
      }
    } else {
      NamedInAscends(names, lo + 1, hi, i, j);
    }
  }

  lemma NamedInMeaning(names: map<u32, Name>, lo: u32, hi: u32)
    ensures forall x :: x in NamedIn(names, lo, hi) <==> lo <= x.0 < hi && x.0 in names && x.1 == names[x.0]
    ensures forall i, j :: 0 <= i < j < |NamedIn(names, lo, hi)| ==>
              NamedIn(names, lo, hi)[i].0 < NamedIn(names, lo, hi)[j].0
  {
    hide NamedIn;
    forall x: (u32, Name)
      ensures x in NamedIn(names, lo, hi) <==> lo <= x.0 < hi && x.0 in names && x.1 == names[x.0]
    {
      NamedInMembers(names, lo, hi, x);
    }
    forall i, j | 0 <= i < j < |NamedIn(names, lo, hi)|
      ensures NamedIn(names, lo, hi)[i].0 < NamedIn(names, lo, hi)[j].0
    {
      NamedInAscends(names, lo, hi, i, j);
    }
  }

  lemma {:induction false} NamedInSplits(names: map<u32, Name>, lo: u32, mid: u32, hi: u32)
    requires lo <= mid <= hi
    ensures NamedIn(names, lo, hi) == NamedIn(names, lo, mid) + NamedIn(names, mid, hi)
    decreases mid - lo
  {
    if lo < mid {
      NamedInSplits(names, lo + 1, mid, hi);
    }
  }

  /** A scan passes at most `room` names, and stops early only right behind the last of them. */
  lemma {:induction false} ScanStopMeaning(names: map<u32, Name>, cursor: u32, scanEnd: u32, room: nat)
    requires cursor <= scanEnd
    ensures var stop := ScanStop(names, cursor, scanEnd, room);
            && cursor <= stop <= scanEnd
            && |NamedIn(names, cursor, stop)| <= room
            && (stop < scanEnd ==> |NamedIn(names, cursor, stop)| == room)
            && (stop < scanEnd && room > 0 ==> cursor < stop && stop - 1 in names)
    decreases scanEnd - cursor
  {
    if cursor < scanEnd && room > 0 {
      ScanStopMeaning(names, cursor + 1, scanEnd, if cursor in names then room - 1 else room);
    }
  }

  /** A page holds exactly the named ids of an interval, in order, never more than its size; a cursor
      lies ahead of the start, right behind the page's last id. */
  lemma PageMeaning(names: map<u32, Name>, start: u32, limit: u32)
    ensures var page := PageOf(names, start, limit);
            && page.items ==
               NamedIn(names, First(start), if page.nextStart != 0 then page.nextStart else ScanEnd(start))
            && |page.items| <= (if limit == 0 then 1 else if limit < 50 then limit else 50)
            && (page.nextStart != 0 ==> First(start) < page.nextStart
                                        && |page.items| == (if limit == 0 then 1 else if limit < 50 then limit else 50)
                                        && page.nextStart - 1 in names && page.nextStart < First(start) + 500)
  {
    ScanStopMeaning(names, First(start), ScanEnd(start), PageSize(limit));
  }

  lemma {:induction false} NamedInCount(names: map<u32, Name>, lo: u32, hi: u32)
    requires lo <= hi
    ensures |NamedIn(names, lo, hi)| <= hi - lo
    decreases hi - lo
  {
    if lo < hi {
      NamedInCount(names, lo + 1, hi);
    }
  }

  /** Exactly when a page holds the names of the ids `[start, start + limit)`: all of them are named, or
      no other id of the window is. */
  lemma PageIsRangeIff(names: map<u32, Name>, start: u32, limit: u32)
    ensures var from, mid := First(start), SaturatingAddU32(First(start), PageSize(limit));
            PageOf(names, start, limit).items == NamedIn(names, from, mid)
            <==> |NamedIn(names, from, mid)| == PageSize(limit) || NamedIn(names, mid, ScanEnd(start)) == []
  {
    var from, mid, end := First(start), SaturatingAddU32(First(start), PageSize(limit)), ScanEnd(start);
    var stop := ScanStop(names, from, end, PageSize(limit));
    ScanStopMeaning(names, from, end, PageSize(limit));
    NamedInCount(names, from, mid);
    NamedInSplits(names, from, mid, end);
    NamedInSplits(names, from, stop, end);
    if stop <= mid {
      NamedInSplits(names, from, stop, mid);
    } else {
      NamedInSplits(names, from, mid, stop);
      NamedInSplits(names, mid, stop, end);
    }
    hide NamedIn;
  }

  lemma {:induction false} NamedInGrows(names: map<u32, Name>, lo: u32, mid: u32, hi: u32)
    requires lo <= mid <= hi
    ensures |NamedIn(names, lo, mid)| <= |NamedIn(names, lo, hi)|
  {
    NamedInSplits(names, lo, mid, hi);
  }

  /** A page has a successor exactly when its window, short of the last id, fills it. */
  lemma PageContinuesIff(names: map<u32, Name>, start: u32, limit: u32)
    requires First(start) < ScanEnd(start)
    ensures PageOf(names, start, limit).nextStart != 0
            <==> |NamedIn(names, First(start), ScanEnd(start) - 1)| >= PageSize(limit)
  {
    var from, end, size := First(start), ScanEnd(start), PageSize(limit);
    var stop := ScanStop(names, from, end, size);
    ScanStopMeaning(names, from, end, size);
    if stop < end {
      NamedInGrows(names, from, stop, end - 1);
    } else {
      ScanRunsOut(names, from, end, size);
    }
  }

  lemma {:induction false} ScanRunsOut(names: map<u32, Name>, cursor: u32, scanEnd: u32, room: nat)
    requires cursor < scanEnd && ScanStop(names, cursor, scanEnd, room) == scanEnd
    ensures |NamedIn(names, cursor, scanEnd - 1)| < room
    decreases scanEnd - cursor
  {
    if cursor + 1 < scanEnd {
      ScanRunsOut(names, cursor + 1, scanEnd, if cursor in names then room - 1 else room);
    }
  }

  // ---------- following the cursors ----------

  /** All pages from `start`, each asked for with the previous page's cursor. */
  function Follow(names: map<u32, Name>, start: u32, limit: u32): seq<(u32, Name)>
    decreases U32_MAX - First(start)
  {
    var page := PageOf(names, start, limit);
    PageMeaning(names, start, limit);
    if page.nextStart == 0 then page.items else page.items + Follow(names, page.nextStart, limit)
  }

  /** Where the last of those pages ends. */
  function FollowEnd(names: map<u32, Name>, start: u32, limit: u32): u32
    decreases U32_MAX - First(start)
  {
    var page := PageOf(names, start, limit);
    PageMeaning(names, start, limit);
    if page.nextStart == 0 then ScanEnd(start) else FollowEnd(names, page.nextStart, limit)
  }

  /** Following the cursors lists every named id up to the end of the last window once, in order. */
  lemma {:induction false} FollowListsAll(names: map<u32, Name>, start: u32, limit: u32)
    ensures First(start) <= FollowEnd(names, start, limit)
    ensures Follow(names, start, limit) == NamedIn(names, First(start), FollowEnd(names, start, limit))
    decreases U32_MAX - First(start)
  {
    var page := PageOf(names, start, limit);
    PageMeaning(names, start, limit);
    if page.nextStart != 0 {
      FollowListsAll(names, page.nextStart, limit);
      NamedInSplits(names, First(start), page.nextStart, FollowEnd(names, start, limit));
    }
  }

  /** Counted in whole pages of names from `from`, a page begins at `t`: at the outset or right behind
      the name that fills the page before. */
  predicate PageBegins(names: map<u32, Name>, from: u32, size: u32, t: u32)
    requires size > 0
  {
    from <= t && (t == from || (t - 1 in names && |NamedIn(names, from, t)| % size == 0))
  }

  /** The window of a scan that begins at `t >= 1`, short of its last id, does not fill a page. */
  predicate WindowRunsDry(names: map<u32, Name>, size: u32, t: u32) {
    t == ScanEnd(t) || (t < ScanEnd(t) && |NamedIn(names, t, ScanEnd(t) - 1)| < size)
  }

  lemma RunsDryIff(names: map<u32, Name>, t: u32, limit: u32)
    requires 1 <= t
    ensures WindowRunsDry(names, PageSize(limit), t) <==> PageOf(names, t, limit).nextStart == 0
  {
    hide NamedIn;
    if t < ScanEnd(t) {
      PageContinuesIff(names, t, limit);
    }
  }

  lemma NextPageBegins(names: map<u32, Name>, from: u32, limit: u32, t: u32)
    requires 1 <= from && PageBegins(names, from, PageSize(limit), t) && PageOf(names, t, limit).nextStart != 0
    ensures PageBegins(names, from, PageSize(limit), PageOf(names, t, limit).nextStart)
  {
    hide NamedIn, ScanStop;
    var n, size := PageOf(names, t, limit).nextStart, PageSize(limit);
    PageMeaning(names, t, limit);
    NamedInSplits(names, from, t, n);
    MultiplesAdd(|NamedIn(names, from, t)|, size);
    assert NamedIn(names, from, from) == [] by {
      NamedInEmpty(names, from);
    }
  }

  lemma NamedInEmpty(names: map<u32, Name>, lo: u32)
    ensures NamedIn(names, lo, lo) == []
  {
  }

  lemma MultiplesAdd(a: nat, size: nat)
    requires 0 < size
    ensures (a + size) % size == a % size
  {
    assert a + size == size * (a / size + 1) + a % size;
    ModUnique(a + size, size, a / size + 1, a % size);
  }

  lemma ModUnique(x: nat, d: nat, q: int, r: nat)
    requires 0 < d && x == d * q + r && r < d
    ensures x % d == r
  {
    var q', r' := x / d, x % d;
    assert x == d * q' + r';
    assert d * (q - q') == r' - r;
    if q > q' {
      MulMono(1, q - q', d);
    } else if q < q' {
      MulMono(q - q', -1, d);
    }
  }

  /** The last page of the listing begins where a page begins and its window runs dry. */
  lemma {:induction false} LastPage(names: map<u32, Name>, from: u32, limit: u32, t: u32) returns (last: u32)
    requires 1 <= from && PageBegins(names, from, PageSize(limit), t)
    ensures 1 <= last && PageBegins(names, from, PageSize(limit), last)
    ensures WindowRunsDry(names, PageSize(limit), last) && FollowEnd(names, t, limit) == ScanEnd(last)
    decreases U32_MAX - t
  {
    hide NamedIn, PageBegins, WindowRunsDry, PageOf;
    assert from <= t by { PageBeginsLater(names, from, PageSize(limit), t); }
    PageMeaning(names, t, limit);
    RunsDryIff(names, t, limit);
    var n := PageOf(names, t, limit).nextStart;
    if n == 0 {
      last := t;
    } else {
      NextPageBegins(names, from, limit, t);
      last := LastPage(names, from, limit, n);
    }
  }

  lemma PageBeginsLater(names: map<u32, Name>, from: u32, size: u32, t: u32)
    requires size > 0 && PageBegins(names, from, size, t)
    ensures from <= t
  {
  }

  lemma PageBeginsCount(names: map<u32, Name>, from: u32, size: u32, t: u32)
    requires size > 0 && PageBegins(names, from, size, t)
    ensures |NamedIn(names, from, t)| % size == 0
  {
    NamedInEmpty(names, from);
  }

  /** Up to behind an earlier name there are some, but fewer names than up to behind a later one. */
  lemma PartialPage(names: map<u32, Name>, c: u32, t: u32, n: u32)
    requires c < t < n && t - 1 in names && n - 1 in names
    ensures 0 < |NamedIn(names, c, t)| < |NamedIn(names, c, n)|
  {
    OneNamed(names, t - 1);
    OneNamed(names, n - 1);
    hide NamedIn;
    NamedInSplits(names, c, t - 1, t);
    NamedInSplits(names, c, t, n);
    NamedInSplits(names, t, n - 1, n);
  }

  /** Between two places where pages begin lies at least one whole page. */
  lemma WholePageBetween(names: map<u32, Name>, from: u32, limit: u32, c: u32, t: u32)
    requires 1 <= from && PageBegins(names, from, PageSize(limit), c) && PageBegins(names, from, PageSize(limit), t)
    requires c < t && PageOf(names, c, limit).nextStart != 0
    ensures PageOf(names, c, limit).nextStart <= t
  {
    hide NamedIn, ScanStop;
    var n, size := PageOf(names, c, limit).nextStart, PageSize(limit);
    PageMeaning(names, c, limit);
    if t < n {
      PartialPage(names, c, t, n);
      PageBeginsCount(names, from, size, c);
      PageBeginsCount(names, from, size, t);
      NamedInSplits(names, from, c, t);
      MultiplesApart(|NamedIn(names, from, c)|, |NamedIn(names, c, t)|, size);
    }
  }

  lemma OneNamed(names: map<u32, Name>, id: u32)
    requires id in names && id < U32_MAX
    ensures |NamedIn(names, id, id + 1)| == 1
  {
    NamedInEmpty(names, id + 1);
  }

  lemma MultiplesApart(a: nat, k: nat, size: nat)
    requires 0 < size && a % size == 0 && 0 < k < size
    ensures (a + k) % size != 0
  {
    ModUnique(a + k, size, a / size, k);
  }

  /** Wherever a page could begin and run dry, the listing has ended by the end of that window. */
  lemma {:induction false} EndsByAnyDryPage(names: map<u32, Name>, from: u32, limit: u32, c: u32, t: u32)
    requires 1 <= from && PageBegins(names, from, PageSize(limit), c) && PageBegins(names, from, PageSize(limit), t)
    requires c <= t && WindowRunsDry(names, PageSize(limit), t)
    ensures FollowEnd(names, c, limit) <= ScanEnd(t)
    decreases U32_MAX - c
  {
    hide NamedIn, PageBegins, WindowRunsDry, PageOf;
    assert from <= c by { PageBeginsLater(names, from, PageSize(limit), c); }
    PageMeaning(names, c, limit);
    RunsDryIff(names, t, limit);
    var n := PageOf(names, c, limit).nextStart;
    if n != 0 {
      WholePageBetween(names, from, limit, c, t);
      NextPageBegins(names, from, limit, c);
      EndsByAnyDryPage(names, from, limit, n, t);
    }
  }

  /** Following the cursors misses a named id exactly when somewhere before it a page begins whose
      window, short of its last id, does not fill it and ends at or before the id. */
  lemma MissedIff(names: map<u32, Name>, start: u32, limit: u32, id: u32)
    requires id in names && First(start) <= id
    ensures (id, names[id]) !in Follow(names, start, limit)
            <==> exists t: u32 :: PageBegins(names, First(start), PageSize(limit), t)
                                  && WindowRunsDry(names, PageSize(limit), t) && ScanEnd(t) <= id
  {
    var from := First(start);
    FollowListsAll(names, start, limit);
    NamedInMeaning(names, from, FollowEnd(names, start, limit));
    assert FollowEnd(names, start, limit) == FollowEnd(names, from, limit);
    assert PageBegins(names, from, PageSize(limit), from);
    hide NamedIn, FollowEnd, Follow, PageBegins, WindowRunsDry;
    var last := LastPage(names, from, limit, from);
    forall t: u32 | PageBegins(names, from, PageSize(limit), t) && WindowRunsDry(names, PageSize(limit), t)
      ensures FollowEnd(names, from, limit) <= ScanEnd(t)
    {
      PageBeginsLater(names, from, PageSize(limit), t);
      EndsByAnyDryPage(names, from, limit, from, t);
    }
  }

  lemma {:induction false} NothingNamed(names: map<u32, Name>, lo: u32, hi: u32)
    requires forall id: u32 :: lo <= id < hi ==> id !in names
    ensures NamedIn(names, lo, hi) == []
    decreases hi - lo
  {
    if lo < hi {
      NothingNamed(names, lo + 1, hi);
    }
  }

  /** The saturated window never reaches the largest id. */
  lemma LargestIdNeverListed(names: map<u32, Name>, start: u32, limit: u32, name: Name)
    ensures (U32_MAX, name) !in PageOf(names, start, limit).items
  {
    PageMeaning(names, start, limit);
    var page := PageOf(names, start, limit);
    NamedInMeaning(names, First(start), if page.nextStart != 0 then page.nextStart else ScanEnd(start));
  }
}
