/** The bounded event query: filter, sort and page over parsed fixtures. */
module EventQuery {
  import opened Common

  // ---------- data ----------

  /** A number as the caller passes it: whole, or anything `Number.isInteger` refuses. */
  datatype Num = Whole(n: int) | NotWhole

  datatype Event = Event(id: string, event: string, contract: string, ledger: u32, tx: u32, index: u32)

  datatype Bounds = Bounds(minPageSize: nat, maxPageSize: nat, maxLedgerSpan: nat)

  datatype FixtureSet = FixtureSet(bounds: Bounds, fixtures: seq<Event>)

  datatype EventQuery = EventQuery(
    contract: Option<string>, topic: Option<string>, fromLedger: Option<Num>, toLedger: Option<Num>,
    pageSize: Option<Num>, page: Option<Num>)

  datatype ValidatedQuery = ValidatedQuery(
    contract: Option<string>, topic: Option<string>, fromLedger: nat, toLedger: nat, pageSize: nat, page: nat)

  datatype QueryResult = QueryResult(
    events: seq<Event>, page: nat, pageSize: nat, total: nat, totalPages: nat, hasMore: bool)

  datatype Error =
    | BadBound | BoundsCrossed | DuplicateCursor
    | UnboundedRange | BadFromLedger | BadToLedger | RangeReversed | SpanTooWide
    | UnboundedPageSize | PageSizeNotWhole | PageSizeOutOfRange | BadPage

  type Outcome<+T> = Result<T, Error>

  // ---------- parsing: bounds and cursors ----------

  predicate SameCursor(a: Event, b: Event) {
    a.ledger == b.ledger && a.tx == b.tx && a.index == b.index
  }

  ghost predicate UniqueCursors(events: seq<Event>) {
    forall i, j :: 0 <= i < j < |events| ==> !SameCursor(events[i], events[j])
  }

  ghost predicate Parsed(fixtureSet: FixtureSet) {
    && 1 <= fixtureSet.bounds.minPageSize <= fixtureSet.bounds.maxPageSize
    && 1 <= fixtureSet.bounds.maxLedgerSpan
    && UniqueCursors(fixtureSet.fixtures)
  }

  function Decimal(n: nat): string {
    if n < 10 then [Digit(n)] else Decimal(n / 10) + [Digit(n % 10)]
  }

  function Digit(d: nat): char
    requires d < 10
  {
    '0' + d as char
  }

  function CursorText(e: Event): string {
    Decimal(e.ledger) + ":" + (Decimal(e.tx) + ":" + Decimal(e.index))
  }

  lemma {:induction false} DecimalHasNoColon(n: nat)
    ensures ':' !in Decimal(n) && |Decimal(n)| > 0
  {
    if n >= 10 {
      DecimalHasNoColon(n / 10);
    }
  }

  lemma {:induction false} DecimalInjective(a: nat, b: nat)
    requires Decimal(a) == Decimal(b)
    ensures a == b
    decreases a
  {
    var s, t := Decimal(a), Decimal(b);
    DecimalHasNoColon(a / 10);
    DecimalHasNoColon(b / 10);
    assert s[|s| - 1] == Digit(a % 10) && t[|t| - 1] == Digit(b % 10);
    if a >= 10 {
      assert |s| > 1;
      assert s[..|s| - 1] == Decimal(a / 10) && t[..|t| - 1] == Decimal(b / 10);
      DecimalInjective(a / 10, b / 10);
    }
  }

  lemma SplitAtColon(x: string, rest: string, y: string, tail: string)
    requires ':' !in x && ':' !in y && x + ":" + rest == y + ":" + tail
    ensures x == y && rest == tail
  {
    var s := x + ":" + rest;
    assert s[|x|] == ':' && s[|y|] == ':';
    assert x == s[..|x|] && y == s[..|y|];
    assert rest == s[|x| + 1..] && tail == s[|y| + 1..];
  }

  /** The cursor text names the cursor. */
  lemma CursorTextInjective(a: Event, b: Event)
    ensures CursorText(a) == CursorText(b) <==> SameCursor(a, b)
  {
    if CursorText(a) == CursorText(b) {
      DecimalHasNoColon(a.ledger);
      DecimalHasNoColon(b.ledger);
      DecimalHasNoColon(a.tx);
      DecimalHasNoColon(b.tx);
      SplitAtColon(Decimal(a.ledger), Decimal(a.tx) + ":" + Decimal(a.index),
                   Decimal(b.ledger), Decimal(b.tx) + ":" + Decimal(b.index));
      SplitAtColon(Decimal(a.tx), Decimal(a.index), Decimal(b.tx), Decimal(b.index));
      DecimalInjective(a.ledger, b.ledger);
      DecimalInjective(a.tx, b.tx);
      DecimalInjective(a.index, b.index);
    }
  }

  function CheckBound(v: Num): Outcome<nat> {
    if v.NotWhole? || v.n < 1 then Err(BadBound) else Ok(v.n)
  }

  /** The bounds and the cursor set of a fixture document whose rows decoded to `events`. */
  method ParseFixtureSet(minPageSize: Num, maxPageSize: Num, maxLedgerSpan: Num, events: seq<Event>)
    returns (r: Outcome<FixtureSet>)
    ensures r.Ok? ==> Parsed(r.value) && r.value.fixtures == events
    ensures r == Err(DuplicateCursor) ==> !UniqueCursors(events)
    ensures r.Ok? ==> minPageSize.Whole? && maxPageSize.Whole? && maxLedgerSpan.Whole?
                      && 1 <= minPageSize.n <= maxPageSize.n && 1 <= maxLedgerSpan.n
                      && r.value.bounds == Bounds(minPageSize.n, maxPageSize.n, maxLedgerSpan.n)
    ensures r.Ok? <==> (CheckBound(minPageSize).Ok? && CheckBound(maxPageSize).Ok? && CheckBound(maxLedgerSpan).Ok?
                        && minPageSize.n <= maxPageSize.n && UniqueCursors(events))
  {
    var low :- CheckBound(minPageSize);
    var high :- CheckBound(maxPageSize);
    var span :- CheckBound(maxLedgerSpan);
    if low > high {
      return Err(BoundsCrossed);
    }
    var cursors: set<string> := {};
    for i := 0 to |events|
      invariant UniqueCursors(events[..i])
      invariant forall c :: c in cursors <==> exists j :: 0 <= j < i && c == CursorText(events[j])
    {
      var cursor := CursorText(events[i]);
      forall j | 0 <= j < i
        ensures CursorText(events[j]) == cursor <==> SameCursor(events[j], events[i])
      {
        CursorTextInjective(events[j], events[i]);
      }
      if cursor in cursors {
        return Err(DuplicateCursor);
      }
      cursors := cursors + {cursor};
    }
    assert events[..|events|] == events;
    return Ok(FixtureSet(Bounds(low, high, span), events));
  }

  // ---------- validation ----------

  function Validate(b: Bounds, query: EventQuery): Outcome<ValidatedQuery> {
    if query.fromLedger.None? || query.toLedger.None? then Err(UnboundedRange)
    else if query.fromLedger.value.NotWhole? || query.fromLedger.value.n < 0 then Err(BadFromLedger)
    else if query.toLedger.value.NotWhole? || query.toLedger.value.n < 0 then Err(BadToLedger)
    else if query.fromLedger.value.n > query.toLedger.value.n then Err(RangeReversed)
    else if query.toLedger.value.n - query.fromLedger.value.n + 1 > b.maxLedgerSpan then Err(SpanTooWide)
    else if query.pageSize.None? then Err(UnboundedPageSize)
    else if query.pageSize.value.NotWhole? then Err(PageSizeNotWhole)
    else if query.pageSize.value.n < b.minPageSize || query.pageSize.value.n > b.maxPageSize then
      Err(PageSizeOutOfRange)
    else
      var page := query.page.GetOr(Whole(1));
      if page.NotWhole? || page.n < 1 then Err(BadPage)
      else
        Ok(ValidatedQuery(query.contract, query.topic, query.fromLedger.value.n, query.toLedger.value.n,
                          query.pageSize.value.n, page.n))
  }

  /** An absent or empty filter lets everything through. */
  predicate Passes(filter: Option<string>, value: string) {
    filter.None? || filter.value == "" || filter.value == value
  }

  predicate Matches(q: ValidatedQuery, e: Event) {
    Passes(q.topic, e.event) && Passes(q.contract, e.contract) && q.fromLedger <= e.ledger <= q.toLedger
  }

  function Filter(q: ValidatedQuery, events: seq<Event>): seq<Event> {
    if |events| == 0 then []
    else (if Matches(q, events[0]) then [events[0]] else []) + Filter(q, events[1..])
  }

  // ---------- sorting ----------

  /** The comparator: ledger, then transaction, then event index, then whatever `tie` says of the ids. */
  function Compare(a: Event, b: Event, tie: (string, string) -> int): int {
    if a.ledger != b.ledger then if a.ledger < b.ledger then -1 else 1
    else if a.tx != b.tx then if a.tx < b.tx then -1 else 1
    else if a.index != b.index then if a.index < b.index then -1 else 1
    else tie(a.id, b.id)
  }

  /** Stable insertion: behind everything that does not compare greater. */
  function Insert(sorted: seq<Event>, e: Event, tie: (string, string) -> int): seq<Event> {
    if |sorted| == 0 then [e]
    else if Compare(sorted[|sorted| - 1], e, tie) <= 0 then sorted + [e]
    else Insert(sorted[..|sorted| - 1], e, tie) + [sorted[|sorted| - 1]]
  }

  function Sort(events: seq<Event>, tie: (string, string) -> int): seq<Event> {
    if |events| == 0 then [] else Insert(Sort(events[..|events| - 1], tie), events[|events| - 1], tie)
  }

  /** Strict lexicographic order on cursors. */
  predicate Before(a: Event, b: Event) {
    a.ledger < b.ledger
    || (a.ledger == b.ledger && (a.tx < b.tx || (a.tx == b.tx && a.index < b.index)))
  }

  ghost predicate Ascending(events: seq<Event>) {
    forall i, j :: 0 <= i < j < |events| ==> Before(events[i], events[j])
  }

  /** The matching events, sorted. */
  function Selected(q: ValidatedQuery, events: seq<Event>, tie: (string, string) -> int): seq<Event> {
    Sort(Filter(q, events), tie)
  }

  function Min(a: nat, b: nat): nat {
    if a < b then a else b
  }

  function PageSlice(all: seq<Event>, pageSize: nat, page: nat): seq<Event>
    requires 1 <= page
  {
    all[Min((page - 1) * pageSize, |all|)..Min((page - 1) * pageSize + pageSize, |all|)]
  }

  function TotalPages(total: nat, pageSize: nat): nat
    requires 0 < pageSize
  {
    (total + pageSize - 1) / pageSize
  }

  function QueryEvents(fixtureSet: FixtureSet, query: EventQuery, tie: (string, string) -> int): Outcome<QueryResult>
    requires 1 <= fixtureSet.bounds.minPageSize
  {
    var q :- Validate(fixtureSet.bounds, query);
    var all := Selected(q, fixtureSet.fixtures, tie);
    var totalPages := if |all| == 0 then 0 else TotalPages(|all|, q.pageSize);
    Ok(QueryResult(PageSlice(all, q.pageSize, q.page), q.page, q.pageSize, |all|, totalPages, q.page < totalPages))
  }

  /** An empty range is one whose query finds nothing. */
  function IsRangeEmpty(fixtureSet: FixtureSet, topic: Option<string>, contract: Option<string>, start: Num, end: Num,
                        tie: (string, string) -> int): Outcome<bool>
    requires 1 <= fixtureSet.bounds.minPageSize
  {
    var result :- QueryEvents(fixtureSet, EventQuery(contract, topic, Some(start), Some(end),
                                                     Some(Whole(fixtureSet.bounds.maxPageSize)), None), tie);
    Ok(result.total == 0)
  }

  // ---------- filtering keeps, sorting orders ----------

  lemma {:induction false} FilterMeaning(q: ValidatedQuery, events: seq<Event>)
    ensures forall e :: e in Filter(q, events) <==> e in events && Matches(q, e)
    ensures UniqueCursors(events) ==> UniqueCursors(Filter(q, events))
    decreases |events|
  {
    if |events| > 0 {
      FilterMeaning(q, events[1..]);
      assert forall e :: e in events <==> e == events[0] || e in events[1..];
      if UniqueCursors(events) {
        var rest := Filter(q, events[1..]);
        forall j | 0 <= j < |rest|
          ensures !SameCursor(events[0], rest[j])
        {
          assert rest[j] in events[1..];
        }
      }
    }
  }

  lemma {:induction false} FilterCounts(q: ValidatedQuery, events: seq<Event>, e: Event)
    ensures multiset(Filter(q, events))[e] == if Matches(q, e) then multiset(events)[e] else 0
    decreases |events|
  {
    if |events| > 0 {
      FilterCounts(q, events[1..], e);
      assert events == [events[0]] + events[1..];
    }
  }

  lemma {:induction false} InsertCounts(sorted: seq<Event>, e: Event, tie: (string, string) -> int)
    ensures multiset(Insert(sorted, e, tie)) == multiset(sorted) + multiset{e}
    decreases |sorted|
  {
    if |sorted| > 0 {
      var front, last := sorted[..|sorted| - 1], sorted[|sorted| - 1];
      assert sorted == front + [last];
      InsertCounts(front, e, tie);
    }
  }

  lemma {:induction false} InsertOrders(sorted: seq<Event>, e: Event, tie: (string, string) -> int)
    requires Ascending(sorted) && forall x :: x in sorted ==> !SameCursor(x, e)
    ensures Ascending(Insert(sorted, e, tie))
    decreases |sorted|
  {
    if |sorted| > 0 {
      var front, last := sorted[..|sorted| - 1], sorted[|sorted| - 1];
      assert last in sorted;
      if Compare(last, e, tie) > 0 {
        InsertOrders(front, e, tie);
        InsertCounts(front, e, tie);
        var inserted := Insert(front, e, tie);
        forall i | 0 <= i < |inserted|
          ensures Before(inserted[i], last)
        {
          assert inserted[i] in multiset(inserted);
          assert inserted[i] in front || inserted[i] == e;
        }
      }
    }
  }

  lemma {:induction false} SortSorts(events: seq<Event>, tie: (string, string) -> int)
    requires UniqueCursors(events)
    ensures multiset(Sort(events, tie)) == multiset(events)
    ensures Ascending(Sort(events, tie))
    decreases |events|
  {
    if |events| > 0 {
      var front, last := events[..|events| - 1], events[|events| - 1];
      assert events == front + [last];
      SortSorts(front, tie);
      forall x | x in Sort(front, tie)
        ensures !SameCursor(x, last)
      {
        assert x in multiset(front);
        assert x in front;
      }
      InsertCounts(Sort(front, tie), last, tie);
      InsertOrders(Sort(front, tie), last, tie);
    }
  }

  lemma LastsAgree(a: seq<Event>, b: seq<Event>)
    requires Ascending(a) && Ascending(b) && multiset(a) == multiset(b) && |a| > 0 && |b| > 0
    ensures a[|a| - 1] == b[|b| - 1]
  {
    var x, y := a[|a| - 1], b[|b| - 1];
    assert x in multiset(b) && y in multiset(a);
    assert x in b && y in a;
    assert x != y ==> Before(x, y) && Before(y, x);
  }

  lemma DropLast(s: seq<Event>)
    requires |s| > 0
    ensures multiset(s[..|s| - 1]) == multiset(s) - multiset{s[|s| - 1]}
    ensures |multiset(s)| == |s|
  {
    assert s == s[..|s| - 1] + [s[|s| - 1]];
  }

  lemma FrontAscends(s: seq<Event>)
    requires Ascending(s) && |s| > 0
    ensures Ascending(s[..|s| - 1])
  {
  }

  /** Two ascending sequences of the same events are the same sequence. */
  lemma {:induction false} AscendingIsUnique(a: seq<Event>, b: seq<Event>)
    requires Ascending(a) && Ascending(b) && multiset(a) == multiset(b)
    ensures a == b
    decreases |a|
  {
    hide Ascending;
    assert |multiset(a)| == |a| && |multiset(b)| == |b|;
    if |a| > 0 {
      var x, y := a[..|a| - 1], b[..|b| - 1];
      LastsAgree(a, b);
      DropLast(a);
      DropLast(b);
      FrontAscends(a);
      FrontAscends(b);
      AscendingIsUnique(x, y);
      assert a == x + [a[|a| - 1]] && b == y + [b[|b| - 1]];
    }
  }

  /** The selection is the matching events, each once, in strict cursor order. */
  lemma SelectedMeaning(q: ValidatedQuery, events: seq<Event>, tie: (string, string) -> int)
    requires UniqueCursors(events)
    ensures var all := Selected(q, events, tie);
            && Ascending(all)
            && (forall e :: e in all <==> e in events && Matches(q, e))
            && forall e :: multiset(all)[e] == if Matches(q, e) then multiset(events)[e] else 0
  {
    FilterMeaning(q, events);
    SortSorts(Filter(q, events), tie);
    forall e
      ensures multiset(Selected(q, events, tie))[e] == if Matches(q, e) then multiset(events)[e] else 0
    {
      FilterCounts(q, events, e);
    }
    forall e
      ensures e in Selected(q, events, tie) <==> e in events && Matches(q, e)
    {
      assert e in Selected(q, events, tie) <==> e in multiset(Selected(q, events, tie));
      assert e in multiset(Filter(q, events)) <==> e in Filter(q, events);
    }
  }

  lemma UniqueCursorsIgnoreOrder(a: seq<Event>, b: seq<Event>)
    requires UniqueCursors(a) && multiset(a) == multiset(b)
    ensures UniqueCursors(b)
  {
    forall i, j | 0 <= i < j < |b|
      ensures !SameCursor(b[i], b[j])
    {
      if SameCursor(b[i], b[j]) {
        assert b[i] in multiset(b) && b[j] in multiset(b);
        assert b[i] in a && b[j] in a;
        if b[i] == b[j] {
          TwiceCountsTwo(b, i, j);
          UniqueCountsOne(a, b[i]);
        }
        assert false;
      }
    }
  }

  lemma TwiceCountsTwo(s: seq<Event>, i: int, j: int)
    requires 0 <= i < j < |s| && s[i] == s[j]
    ensures multiset(s)[s[i]] >= 2
  {
    assert s == s[..j] + [s[j]] + s[j + 1..];
    assert s[i] in s[..j];
    assert s[i] in multiset(s[..j]);
  }

  lemma {:induction false} UniqueCountsOne(s: seq<Event>, e: Event)
    requires UniqueCursors(s)
    ensures multiset(s)[e] <= 1
    decreases |s|
  {
    if |s| > 0 {
      var front, last := s[..|s| - 1], s[|s| - 1];
      assert s == front + [last];
      UniqueCountsOne(front, e);
      if e == last {
        assert e !in front;
        assert e !in multiset(front);
      }
    }
  }

  /** The answer depends neither on the order of the fixtures nor on how ids would break ties. */
  lemma AnswerIgnoresOrderAndTies(a: FixtureSet, b: FixtureSet, query: EventQuery,
                                  tie: (string, string) -> int, other: (string, string) -> int)
    requires Parsed(a) && b.bounds == a.bounds && multiset(b.fixtures) == multiset(a.fixtures)
    ensures QueryEvents(a, query, tie) == QueryEvents(b, query, other)
  {
    if Validate(a.bounds, query).Ok? {
      var q := Validate(a.bounds, query).value;
      UniqueCursorsIgnoreOrder(a.fixtures, b.fixtures);
      SelectedMeaning(q, a.fixtures, tie);
      SelectedMeaning(q, b.fixtures, other);
      var x, y := Selected(q, a.fixtures, tie), Selected(q, b.fixtures, other);
      assert forall e :: multiset(x)[e] == multiset(y)[e];
      assert multiset(x) == multiset(y);
      AscendingIsUnique(x, y);
    }
  }

  // ---------- paging ----------

  /** The same query asked for page `p`. */
  function AtPage(query: EventQuery, p: nat): EventQuery {
    query.(page := Some(Whole(p)))
  }

  /** The events of pages 1 to `n`. */
  ghost function Pages(fixtureSet: FixtureSet, query: EventQuery, tie: (string, string) -> int, n: nat): seq<Event>
    requires 1 <= fixtureSet.bounds.minPageSize
    requires Validate(fixtureSet.bounds, AtPage(query, 1)).Ok?
  {
    if n == 0 then []
    else Pages(fixtureSet, query, tie, n - 1) + QueryEvents(fixtureSet, AtPage(query, n), tie).value.events
  }

  lemma ProductBound(p: nat, size: nat, total: nat)
    requires 0 < size && 0 < total
    ensures p < TotalPages(total, size) <==> p * size < total
  {
    var n := TotalPages(total, size);
    FloorMeaning(total + size - 1, size, p + 1);
    assert (p + 1) * size == p * size + size;
  }

  /** Page `n` continues where the pages before it end. */
  lemma SliceExtends(all: seq<Event>, size: nat, n: nat)
    requires 1 <= n
    ensures all[..Min((n - 1) * size, |all|)] + PageSlice(all, size, n) == all[..Min(n * size, |all|)]
  {
    assert n * size == (n - 1) * size + size;
    MulMono(0, n - 1, size);
  }

  lemma {:induction false} PagesArePrefix(fixtureSet: FixtureSet, query: EventQuery, tie: (string, string) -> int,
                                          n: nat)
    requires 1 <= fixtureSet.bounds.minPageSize && Validate(fixtureSet.bounds, AtPage(query, 1)).Ok?
    ensures var q := Validate(fixtureSet.bounds, AtPage(query, 1)).value;
            var all := Selected(q, fixtureSet.fixtures, tie);
            Pages(fixtureSet, query, tie, n) == all[..Min(n * q.pageSize, |all|)]
    decreases n
  {
    hide Selected;
    var q := Validate(fixtureSet.bounds, AtPage(query, 1)).value;
    var all := Selected(q, fixtureSet.fixtures, tie);
    if n > 0 {
      PagesArePrefix(fixtureSet, query, tie, n - 1);
      SelectionIgnoresPage(q, fixtureSet.fixtures, tie, n);
      assert QueryEvents(fixtureSet, AtPage(query, n), tie).value.events == PageSlice(all, q.pageSize, n);
      hide QueryEvents, PageSlice, Validate;
      SliceExtends(all, q.pageSize, n);
    }
  }

  lemma {:induction false} FilterIgnoresPage(q: ValidatedQuery, events: seq<Event>, p: nat)
    ensures Filter(q.(page := p), events) == Filter(q, events)
    decreases |events|
  {
    if |events| > 0 {
      FilterIgnoresPage(q, events[1..], p);
    }
  }

  lemma SelectionIgnoresPage(q: ValidatedQuery, events: seq<Event>, tie: (string, string) -> int, p: nat)
    ensures Selected(q.(page := p), events, tie) == Selected(q, events, tie)
  {
    FilterIgnoresPage(q, events, p);
  }

  /** Reading pages 1 to `totalPages` gives exactly the matching events, once each, in strict order. */
  lemma PagesAreSelection(fixtureSet: FixtureSet, query: EventQuery, tie: (string, string) -> int)
    requires Parsed(fixtureSet) && Validate(fixtureSet.bounds, AtPage(query, 1)).Ok?
    ensures var q := Validate(fixtureSet.bounds, AtPage(query, 1)).value;
            var first := QueryEvents(fixtureSet, AtPage(query, 1), tie).value;
            var read := Pages(fixtureSet, query, tie, first.totalPages);
            && read == Selected(q, fixtureSet.fixtures, tie) && |read| == first.total
            && Ascending(read)
            && (forall e :: multiset(read)[e] == if Matches(q, e) then multiset(fixtureSet.fixtures)[e] else 0)
            && forall e :: e in read <==> e in fixtureSet.fixtures && Asked(query, e)
  {
    hide Sort, Filter;
    var q := Validate(fixtureSet.bounds, AtPage(query, 1)).value;
    var all := Selected(q, fixtureSet.fixtures, tie);
    SelectedMeaning(q, fixtureSet.fixtures, tie);
    var n := QueryEvents(fixtureSet, AtPage(query, 1), tie).value.totalPages;
    PagesArePrefix(fixtureSet, query, tie, n);
    if |all| > 0 {
      ProductBound(n, q.pageSize, |all|);
    }
    forall e
      ensures Asked(query, e) <==> Matches(q, e)
    {
      AskedIsMatched(fixtureSet.bounds, AtPage(query, 1), e);
    }
  }

  // ---------- the answer in the query's own terms ----------

  predicate WholeFrom(v: Option<Num>, low: int) {
    v.Some? && v.value.Whole? && low <= v.value.n
  }

  /** Range and page size are given, whole and in bounds, and the page, if given, is at least 1. */
  predicate Askable(b: Bounds, query: EventQuery) {
    && WholeFrom(query.fromLedger, 0) && WholeFrom(query.toLedger, query.fromLedger.value.n)
    && query.toLedger.value.n - query.fromLedger.value.n < b.maxLedgerSpan
    && WholeFrom(query.pageSize, b.minPageSize) && query.pageSize.value.n <= b.maxPageSize
    && (query.page.None? || WholeFrom(query.page, 1))
  }

  /** The event lies in the query's range and passes the filters that are given and not empty. */
  predicate Asked(query: EventQuery, e: Event) {
    && WholeFrom(query.fromLedger, 0) && WholeFrom(query.toLedger, 0)
    && query.fromLedger.value.n <= e.ledger <= query.toLedger.value.n
    && (query.topic.None? || query.topic.value == "" || query.topic.value == e.event)
    && (query.contract.None? || query.contract.value == "" || query.contract.value == e.contract)
  }

  /** A query is answered exactly if it is askable, with the page size and the page it asked for. */
  lemma AnsweredIff(fixtureSet: FixtureSet, query: EventQuery, tie: (string, string) -> int)
    requires 1 <= fixtureSet.bounds.minPageSize
    ensures QueryEvents(fixtureSet, query, tie).Ok? <==> Askable(fixtureSet.bounds, query)
    ensures Askable(fixtureSet.bounds, query) ==>
              var r := QueryEvents(fixtureSet, query, tie).value;
              r.pageSize == query.pageSize.value.n && r.page == if query.page.None? then 1 else query.page.value.n
  {
    hide Selected, PageSlice, TotalPages;
  }

  lemma AskedIsMatched(b: Bounds, query: EventQuery, e: Event)
    requires Validate(b, query).Ok?
    ensures Asked(query, e) <==> Matches(Validate(b, query).value, e)
  {
  }

  /** The events of page `page` when `all` is cut into pages of `size`. */
  ghost predicate IsPage(events: seq<Event>, all: seq<Event>, size: nat, page: nat) {
    var start := (page - 1) * size;
    && |events| == (if |all| <= start then 0 else if |all| - start < size then |all| - start else size)
    && forall i :: 0 <= i < |events| ==> 0 <= start + i < |all| && events[i] == all[start + i]
  }

  /** The pages are as many as the total fills, and more follow exactly if the total goes on. */
  ghost predicate CountsPages(total: nat, size: nat, page: nat, totalPages: nat, hasMore: bool) {
    && total <= totalPages * size && (totalPages > 0 ==> (totalPages - 1) * size < total)
    && (hasMore <==> page * size < total)
  }

  lemma SliceIsPage(all: seq<Event>, size: nat, page: nat)
    requires 1 <= page
    ensures IsPage(PageSlice(all, size, page), all, size, page)
  {
    MulMono(0, page - 1, size);
  }

  lemma PageCounts(total: nat, size: nat, page: nat)
    requires 0 < size && 1 <= page
    ensures var n := if total == 0 then 0 else TotalPages(total, size);
            CountsPages(total, size, page, n, page < n)
  {
    if total > 0 {
      var n := TotalPages(total, size);
      ProductBound(n, size, total);
      ProductBound(page, size, total);
      ProductBound(n - 1, size, total);
    } else {
      MulMono(0, page, size);
    }
  }

  /** The answer on the query's own fields: it is the asked page of the asked events in strict order,
      with their number, the number of pages they fill, and whether this one is the last. */
  lemma AnswerMeaning(fixtureSet: FixtureSet, query: EventQuery, tie: (string, string) -> int)
    returns (all: seq<Event>)
    requires Parsed(fixtureSet) && Askable(fixtureSet.bounds, query)
    ensures Ascending(all) && forall e :: e in all <==> e in fixtureSet.fixtures && Asked(query, e)
    ensures QueryEvents(fixtureSet, query, tie).Ok?
    ensures var r := QueryEvents(fixtureSet, query, tie).value;
            && r.pageSize == query.pageSize.value.n && r.page == (if query.page.None? then 1 else query.page.value.n)
            && r.total == |all|
            && IsPage(r.events, all, r.pageSize, r.page)
            && CountsPages(r.total, r.pageSize, r.page, r.totalPages, r.hasMore)
  {
    AnsweredIff(fixtureSet, query, tie);
    assert Validate(fixtureSet.bounds, query).Ok?;
    var q := Validate(fixtureSet.bounds, query).value;
    all := Selected(q, fixtureSet.fixtures, tie);
    SelectedMeaning(q, fixtureSet.fixtures, tie);
    forall e
      ensures Asked(query, e) <==> Matches(q, e)
    {
      AskedIsMatched(fixtureSet.bounds, query, e);
    }
    AnswerFields(fixtureSet, query, tie);
    SliceIsPage(all, q.pageSize, q.page);
    PageCounts(|all|, q.pageSize, q.page);
    hide *;
  }

  /** What the answer is made of. */
  lemma AnswerFields(fixtureSet: FixtureSet, query: EventQuery, tie: (string, string) -> int)
    requires 1 <= fixtureSet.bounds.minPageSize && Validate(fixtureSet.bounds, query).Ok?
    ensures var q, r := Validate(fixtureSet.bounds, query).value, QueryEvents(fixtureSet, query, tie);
            var all := Selected(q, fixtureSet.fixtures, tie);
            && r.Ok? && r.value.page == q.page && r.value.pageSize == q.pageSize && r.value.total == |all|
            && r.value.events == PageSlice(all, q.pageSize, q.page)
            && r.value.totalPages == (if |all| == 0 then 0 else TotalPages(|all|, q.pageSize))
            && (r.value.hasMore <==> q.page < r.value.totalPages)
  {
    hide Selected, PageSlice, TotalPages;
  }

  lemma EventsAtPage(fixtureSet: FixtureSet, query: EventQuery, tie: (string, string) -> int, p: nat)
    requires 1 <= fixtureSet.bounds.minPageSize && Validate(fixtureSet.bounds, query).Ok? && 1 <= p
    ensures var q := Validate(fixtureSet.bounds, query).value;
            QueryEvents(fixtureSet, AtPage(query, p), tie).Ok?
            && QueryEvents(fixtureSet, AtPage(query, p), tie).value.events ==
               PageSlice(Selected(q, fixtureSet.fixtures, tie), q.pageSize, p)
  {
    hide Selected, PageSlice, TotalPages;
    SelectionIgnoresPage(Validate(fixtureSet.bounds, query).value, fixtureSet.fixtures, tie, p);
  }

  /** `hasMore` is false exactly when no later page has events. */
  lemma HasMoreMeaning(fixtureSet: FixtureSet, query: EventQuery, tie: (string, string) -> int)
    requires 1 <= fixtureSet.bounds.minPageSize && Validate(fixtureSet.bounds, query).Ok?
    ensures var r := QueryEvents(fixtureSet, query, tie).value;
            !r.hasMore <==> forall p: nat :: r.page < p ==>
                              QueryEvents(fixtureSet, AtPage(query, p), tie).value.events == []
  {
    AnswerFields(fixtureSet, query, tie);
    var r := QueryEvents(fixtureSet, query, tie).value;
    hide *;
    forall p: nat | r.page < p
      ensures QueryEvents(fixtureSet, AtPage(query, p), tie).Ok?
      ensures !r.hasMore ==> QueryEvents(fixtureSet, AtPage(query, p), tie).value.events == []
    {
      PageIsEmptyIff(fixtureSet, query, tie, p);
      LaterPage(fixtureSet, query, tie, p);
    }
    if r.hasMore {
      PageIsEmptyIff(fixtureSet, query, tie, r.page + 1);
      LaterPage(fixtureSet, query, tie, r.page + 1);
    }
  }

  /** No later page starts before the total ends, or the next one does. */
  lemma LaterPage(fixtureSet: FixtureSet, query: EventQuery, tie: (string, string) -> int, p: nat)
    requires 1 <= fixtureSet.bounds.minPageSize && Validate(fixtureSet.bounds, query).Ok?
    requires QueryEvents(fixtureSet, query, tie).Ok? && QueryEvents(fixtureSet, query, tie).value.page < p
    ensures var q, r := Validate(fixtureSet.bounds, query).value, QueryEvents(fixtureSet, query, tie).value;
            var total := |Selected(q, fixtureSet.fixtures, tie)|;
            && (!r.hasMore ==> total <= (p - 1) * q.pageSize)
            && (r.hasMore && p == r.page + 1 ==> total > (p - 1) * q.pageSize)
  {
    AnswerFields(fixtureSet, query, tie);
    var q := Validate(fixtureSet.bounds, query).value;
    PageCounts(|Selected(q, fixtureSet.fixtures, tie)|, q.pageSize, q.page);
    MulMono(q.page, p - 1, q.pageSize);
    hide QueryEvents, Selected, TotalPages, Validate;
  }

  lemma PageIsEmptyIff(fixtureSet: FixtureSet, query: EventQuery, tie: (string, string) -> int, p: nat)
    requires 1 <= fixtureSet.bounds.minPageSize && Validate(fixtureSet.bounds, query).Ok? && 1 <= p
    ensures QueryEvents(fixtureSet, AtPage(query, p), tie).Ok?
    ensures var q := Validate(fixtureSet.bounds, query).value;
            QueryEvents(fixtureSet, AtPage(query, p), tie).value.events == []
            <==> |Selected(q, fixtureSet.fixtures, tie)| <= (p - 1) * q.pageSize
  {
    var q := Validate(fixtureSet.bounds, query).value;
    EventsAtPage(fixtureSet, query, tie, p);
    SliceIsPage(Selected(q, fixtureSet.fixtures, tie), q.pageSize, p);
    hide QueryEvents, PageSlice, Selected;
  }

  /** A range is reported empty exactly when no fixture matches it. */
  lemma EmptyRangeMeaning(fixtureSet: FixtureSet, topic: Option<string>, contract: Option<string>, start: Num, end: Num,
                          tie: (string, string) -> int)
    requires Parsed(fixtureSet)
    ensures IsRangeEmpty(fixtureSet, topic, contract, start, end, tie).Ok?
            <==> start.Whole? && end.Whole? && 0 <= start.n <= end.n
                 && end.n - start.n < fixtureSet.bounds.maxLedgerSpan
    ensures var r := IsRangeEmpty(fixtureSet, topic, contract, start, end, tie);
            r.Ok? ==> (r.value <==>
                         forall e :: e in fixtureSet.fixtures ==>
                           !(Passes(topic, e.event) && Passes(contract, e.contract) && start.n <= e.ledger <= end.n))
  {
    hide Sort, Filter;
    var query := EventQuery(contract, topic, Some(start), Some(end), Some(Whole(fixtureSet.bounds.maxPageSize)), None);
    AnsweredIff(fixtureSet, query, tie);
    if QueryEvents(fixtureSet, query, tie).Ok? {
      var q := Validate(fixtureSet.bounds, query).value;
      SelectedMeaning(q, fixtureSet.fixtures, tie);
      var all := Selected(q, fixtureSet.fixtures, tie);
      if |all| > 0 {
        assert all[0] in all;
      }
    }
  }
}
