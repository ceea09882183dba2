/** Pagination over the NVD APIs, and the escape-aware parsing of CPE names (adapters/nvd.py; section 6.2
    of NISTIR 7695 for the escaping of formatted strings). */
module Nvd {
  import opened Prelude

  /** One page as the server sends it.  Optional fields stand for values that are absent or not counts;
      `items` is None when the collection is not an array, and an element is None when it is not an object. */
  datatype Page<T> = Page(items: Option<seq<Option<T>>>, total: Option<nat>, start: Option<nat>, perPage: Option<nat>)

  /** An arbitrary server; a request is numbered so that the same index may be answered differently twice. */
  type Server<T> = (nat, nat) -> Page<T>

  datatype PageError = NotAnArray | NoTotal | NoAdvance | TooManyPages

  function Objects<T>(items: seq<Option<T>>): seq<T> {
    if items == [] then []
    else
      var n := |items| - 1;
      Objects(items[..n]) + if items[n].Some? then [items[n].value] else []
  }

  lemma {:induction false} ObjectsAppend<T>(items: seq<Option<T>>, more: seq<Option<T>>)
    ensures Objects(items + more) == Objects(items) + Objects(more)
  {
    if more == [] {
      assert items + more == items;
    } else {
      var n := |more| - 1;
      ObjectsAppend(items, more[..n]);
      assert (items + more)[..|items + more| - 1] == items + more[..n];
    }
  }

  /** The index after a page, as the loop computes it. */
  function NextIndex<T>(start: nat, page: Page<T>): nat
    requires page.items.Some?
  {
    var from := if page.start.Some? then page.start.value else start;
    var size := if page.perPage.None? || page.perPage.value == 0 then |page.items.value| else page.perPage.value;
    from + size
  }

  /** `_get_paginated_items`; `requested` lists the start indices that were asked for. */
  method GetPaginatedItems<T>(server: Server<T>, maxPages: nat)
    returns (r: Result<seq<T>, PageError>, requested: seq<nat>)
    requires maxPages >= 1
    ensures 1 <= |requested| <= maxPages && requested[0] == 0
    ensures forall i, j | 0 <= i < j < |requested| :: requested[i] < requested[j]
    ensures Fetched(server, maxPages, 0, 0) == r
  {
    var items: seq<T> := [];
    var start: nat := 0;
    PrependNothing(Fetched(server, maxPages, 0, 0));
    requested := [];
    for number := 0 to maxPages
      invariant |requested| == number && (if number == 0 then start == 0 else requested[0] == 0)
      invariant forall i, j | 0 <= i < j < |requested| :: requested[i] < requested[j]
      invariant forall i | 0 <= i < |requested| :: requested[i] < start
      invariant Fetched(server, maxPages, 0, 0) == Prepend(items, Fetched(server, maxPages, number, start))
    {
      requested := requested + [start];
      var page := server(number, start);
      if page.items.None? {
        return Failure(NotAnArray), requested;
      }
      var before := items;
      items := items + Objects(page.items.value);
      if page.total.None? {
        return Failure(NoTotal), requested;
      }
      var next := NextIndex(start, page);
      if next >= page.total.value || page.items.value == [] {
        return Success(items), requested;
      }
      if next <= start {
        return Failure(NoAdvance), requested;
      }
      PrependTwice(before, Objects(page.items.value), Fetched(server, maxPages, number + 1, next));
      start := next;
    }
    return Failure(TooManyPages), requested;
  }

  function Prepend<T>(items: seq<T>, r: Result<seq<T>, PageError>): Result<seq<T>, PageError> {
    match r
    case Success(more) => Success(items + more)
    case Failure(e) => r
  }

  lemma PrependNothing<T>(r: Result<seq<T>, PageError>)
    ensures Prepend([], r) == r
  {
    if r.Success? {
      assert [] + r.value == r.value;
    }
  }

  lemma PrependTwice<T>(a: seq<T>, b: seq<T>, r: Result<seq<T>, PageError>)
    ensures Prepend(a, Prepend(b, r)) == Prepend(a + b, r)
  {
    if r.Success? {
      assert a + (b + r.value) == (a + b) + r.value;
    }
  }

  /** What is still fetched from request `number` on. */
  function Fetched<T>(server: Server<T>, maxPages: nat, number: nat, start: nat): Result<seq<T>, PageError>
    decreases maxPages - number
  {
    if number >= maxPages then Failure(TooManyPages)
    else
      var page := server(number, start);
      if page.items.None? then Failure(NotAnArray)
      else if page.total.None? then Failure(NoTotal)
      else
        var next := NextIndex(start, page);
        if next >= page.total.value || page.items.value == [] then Success(Objects(page.items.value))
        else if next <= start then Failure(NoAdvance)
        else Prepend(Objects(page.items.value), Fetched(server, maxPages, number + 1, next))
  }

  /** A server that holds one fixed list and answers each request with a contiguous page of it that starts
      where it was asked to.  A page may be empty. */
  ghost predicate Contiguous<T(!new)>(server: Server<T>, list: seq<Option<T>>) {
    forall number: nat, start: nat | start <= |list| :: PageOf(server(number, start), list, start)
  }

  ghost predicate PageOf<T>(page: Page<T>, list: seq<Option<T>>, start: nat)
    requires start <= |list|
  {
    && page.items.Some? && page.total == Some(|list|)
    && page.items.value <= list[start..]
    && (page.start.None? || page.start == Some(start))
    && (page.perPage.None? || page.perPage.value == 0 || page.perPage.value == |page.items.value| ||
        page.items.value == []
        || (page.perPage.value > |page.items.value| && start + |page.items.value| == |list|))
  }

  ghost function PageSize<T(!new)>(server: Server<T>, list: seq<Option<T>>, number: nat, start: nat): (size: nat)
    requires Contiguous(server, list) && start <= |list|
    ensures start + size <= |list|
  {
    assert PageOf(server(number, start), list, start);
    |server(number, start).items.value|
  }

  /** A page the loop goes on after: not empty, and not the end of the list. */
  ghost predicate GoesOn<T(!new)>(server: Server<T>, list: seq<Option<T>>, number: nat, start: nat)
    requires Contiguous(server, list) && start <= |list|
  {
    0 < PageSize(server, list, number, start) < |list| - start
  }

  /** How many pages are read before the loop stops, were there no limit. */
  ghost function PagesRead<T(!new)>(server: Server<T>, list: seq<Option<T>>, number: nat, start: nat): (n: nat)
    requires Contiguous(server, list) && start <= |list|
    ensures n >= 1
    decreases |list| - start
  {
    if GoesOn(server, list, number, start)
    then 1 + PagesRead(server, list, number + 1, start + PageSize(server, list, number, start)) else 1
  }

  /** How far into the list it gets. */
  ghost function Reach<T(!new)>(server: Server<T>, list: seq<Option<T>>, number: nat, start: nat): (end: nat)
    requires Contiguous(server, list) && start <= |list|
    ensures start <= end <= |list|
    decreases |list| - start
  {
    var next := start + PageSize(server, list, number, start);
    if GoesOn(server, list, number, start) then Reach(server, list, number + 1, next) else next
  }

  lemma PageNext<T(!new)>(server: Server<T>, list: seq<Option<T>>, number: nat, start: nat)
    requires Contiguous(server, list) && start <= |list|
    ensures var page := server(number, start);
            && page.items.Some? && page.total == Some(|list|)
            && page.items.value == list[start..start + PageSize(server, list, number, start)]
            && (GoesOn(server, list, number, start) <==> NextIndex(start, page) < |list| && page.items.value != [])
            && (GoesOn(server, list, number, start) ==> NextIndex(start, page) == start + |page.items.value| > start)
  {
    var page := server(number, start);
    assert PageOf(page, list, start);
    assert list[start..][..|page.items.value|] == page.items.value;
  }

  /** Against a contiguous server the loop returns the list up to where it stops, in order, when the pages read
      fit the limit, and raises for too many pages otherwise. */
  lemma {:induction false} FetchesPrefix<T(!new)>(server: Server<T>, list: seq<Option<T>>, maxPages: nat, number: nat,
                                                  start: nat)
    requires Contiguous(server, list) && start <= |list| && number <= maxPages
    ensures Fetched(server, maxPages, number, start) ==
            if number + PagesRead(server, list, number, start) <= maxPages
            then Success(Objects(list[start..Reach(server, list, number, start)])) else Failure(TooManyPages)
    decreases maxPages - number
  {
    hide Objects, NextIndex, GoesOn, PageSize, Contiguous;
    if number < maxPages {
      PageNext(server, list, number, start);
      if GoesOn(server, list, number, start) {
        var next := start + PageSize(server, list, number, start);
        FetchesPrefix(server, list, maxPages, number + 1, next);
        var end := Reach(server, list, number + 1, next);
        ObjectsAppend(list[start..next], list[next..end]);
        assert list[start..next] + list[next..end] == list[start..end];
      }
    }
  }

  /** The start index of the request with a given number, were every earlier page followed by another request. */
  ghost function Asked<T(!new)>(server: Server<T>, list: seq<Option<T>>, number: nat): (start: nat)
    requires Contiguous(server, list)
    ensures start <= |list|
  {
    if number == 0 then 0
    else
      var before := Asked(server, list, number - 1);
      before + PageSize(server, list, number - 1, before)
  }

  /** The page of that number is empty although the list goes on. */
  ghost predicate EmptyTooSoon<T(!new)>(server: Server<T>, list: seq<Option<T>>, number: nat)
    requires Contiguous(server, list)
  {
    Asked(server, list, number) < |list| && PageSize(server, list, number, Asked(server, list, number)) == 0
  }

  lemma {:induction false} EndStays<T(!new)>(server: Server<T>, list: seq<Option<T>>, number: nat, later: nat)
    requires Contiguous(server, list) && number <= later && Asked(server, list, number) == |list|
    ensures Asked(server, list, later) == |list|
    decreases later
  {
    hide PageSize;
    if number < later {
      EndStays(server, list, number, later - 1);
    }
  }

  /** Reading stops short of the end exactly at an empty page. */
  lemma {:induction false} StopsShort<T(!new)>(server: Server<T>, list: seq<Option<T>>, number: nat)
    requires Contiguous(server, list)
    ensures var start := Asked(server, list, number);
            Reach(server, list, number, start) < |list| <==>
            exists n: nat :: number <= n < number + PagesRead(server, list, number, start) &&
              EmptyTooSoon(server, list, n)
    decreases |list| - Asked(server, list, number)
  {
    hide PageSize;
    var start := Asked(server, list, number);
    if GoesOn(server, list, number, start) {
      assert !EmptyTooSoon(server, list, number);
      StopsShort(server, list, number + 1);
      assert Asked(server, list, number + 1) == start + PageSize(server, list, number, start);
    } else {
      assert EmptyTooSoon(server, list, number) <==> start < |list| && PageSize(server, list, number, start) == 0;
    }
  }

  lemma AskedFirst<T(!new)>(server: Server<T>, list: seq<Option<T>>)
    requires Contiguous(server, list)
    ensures Asked(server, list, 0) == 0
  {
  }

  lemma EmptyPageStops<T(!new)>(server: Server<T>, list: seq<Option<T>>, n: nat)
    requires Contiguous(server, list) && EmptyTooSoon(server, list, n)
    ensures Reach(server, list, 0, 0) < |list|
  {
    hide PageSize, PagesRead, Reach, Contiguous, Asked;
    AskedFirst(server, list);
    if n < PagesRead(server, list, 0, 0) {
      StopsShort(server, list, 0);
    } else if Reach(server, list, 0, 0) == |list| {
      var last := ReachesEnd(server, list, 0);
      EndStays(server, list, last + 1, n);
      assert false;
    }
  }

  lemma {:induction false} ReachesEnd<T(!new)>(server: Server<T>, list: seq<Option<T>>, number: nat) returns (last: nat)
    requires Contiguous(server, list) && Reach(server, list, number, Asked(server, list, number)) == |list|
    ensures last + 1 == number + PagesRead(server, list, number, Asked(server, list, number))
    ensures Asked(server, list, last + 1) == |list|
    decreases |list| - Asked(server, list, number)
  {
    hide PageSize;
    last := number;
    if GoesOn(server, list, number, Asked(server, list, number)) {
      last := ReachesEnd(server, list, number + 1);
    }
  }

  /** Nothing is left out of a list of objects. */
  lemma {:induction false} ObjectsOfObjects<T>(items: seq<Option<T>>)
    requires forall x | x in items :: x.Some?
    ensures |Objects(items)| == |items|
  {
    if items != [] {
      ObjectsOfObjects(items[..|items| - 1]);
    }
  }

  /** Against any contiguous server of a list of objects, a fetch within the limit returns the whole list exactly
      when none of the pages it may ask for is empty too soon; the one error it can raise is too many pages. */
  lemma TruncatesExactly<T(!new)>(server: Server<T>, list: seq<Option<T>>, maxPages: nat)
    requires Contiguous(server, list) && maxPages >= 1 && forall x | x in list :: x.Some?
    ensures var r := Fetched(server, maxPages, 0, 0);
            && (r.Failure? ==> r.error == TooManyPages)
            && (r.Success? ==>
                (r.value == Objects(list) <==> forall n: nat | n < maxPages :: !EmptyTooSoon(server, list, n)))
  {
    hide Fetched, PageSize, EmptyTooSoon, Contiguous, Objects;
    FetchesPrefix(server, list, maxPages, 0, 0);
    var end := Reach(server, list, 0, 0);
    ObjectsOfObjects(list);
    ObjectsOfObjects(list[..end]);
    assert list[0..end] == list[..end];
    StopsShort(server, list, 0);
    forall n: nat | n < maxPages && EmptyTooSoon(server, list, n) ensures end < |list| {
      EmptyPageStops(server, list, n);
    }
    if end == |list| {
      assert list[..end] == list;
    }
  }

  /** A server whose pages are empty only at the end. */
  ghost predicate NeverEmpty<T(!new)>(server: Server<T>, list: seq<Option<T>>)
    requires Contiguous(server, list)
  {
    forall number: nat, start: nat | start < |list| :: PageSize(server, list, number, start) > 0
  }

  lemma {:induction false} ReachesAll<T(!new)>(server: Server<T>, list: seq<Option<T>>, number: nat, start: nat)
    requires Contiguous(server, list) && start <= |list| && NeverEmpty(server, list)
    ensures Reach(server, list, number, start) == |list|
    decreases |list| - start
  {
    hide PageSize, Contiguous;
    if GoesOn(server, list, number, start) {
      ReachesAll(server, list, number + 1, start + PageSize(server, list, number, start));
    } else if start < |list| {
      assert PageSize(server, list, number, start) > 0;
    }
  }

  /** Pagination refines fetching everything: when no page is empty, the whole list comes back, once and in
      order, exactly when the pages fit the limit; otherwise the loop raises and never truncates. */
  lemma FetchesEverything<T(!new)>(server: Server<T>, list: seq<Option<T>>, maxPages: nat)
    requires Contiguous(server, list) && NeverEmpty(server, list)
    ensures Fetched(server, maxPages, 0, 0) ==
            if PagesRead(server, list, 0, 0) <= maxPages then Success(Objects(list)) else Failure(TooManyPages)
  {
    hide PageSize, Contiguous, NeverEmpty, Objects;
    FetchesPrefix(server, list, maxPages, 0, 0);
    ReachesAll(server, list, 0, 0);
    assert list[0..|list|] == list;
  }

  /** Every page but the last has the same size. */
  ghost predicate PagedBy<T(!new)>(server: Server<T>, list: seq<Option<T>>, size: nat)
    requires Contiguous(server, list)
  {
    forall number: nat, start: nat | start < |list| ::
      PageSize(server, list, number, start) == if |list| - start < size then |list| - start else size
  }

  /** Items left over after whole pages make one more page. */
  function CeilingPages(total: nat, size: nat): nat
    requires size > 0
  {
    if total <= size then 1 else 1 + CeilingPages(total - size, size)
  }

  /** `max(1, ceil(total / size))`. */
  lemma {:induction false} CeilingClosed(total: nat, size: nat)
    requires size > 0
    ensures var n := CeilingPages(total, size);
            n >= 1 && (n - 1) * size <= total <= n * size && (total > 0 ==> (n - 1) * size < total)
  {
    if total > size {
      CeilingClosed(total - size, size);
      var n := CeilingPages(total - size, size);
      assert n * size == (n - 1) * size + size && (n + 1) * size == n * size + size;
    }
  }

  lemma {:induction false} PagesAreCeiling<T(!new)>(server: Server<T>, list: seq<Option<T>>, size: nat, number: nat,
                                                    start: nat)
    requires Contiguous(server, list) && size > 0 && PagedBy(server, list, size) && start <= |list|
    ensures PagesRead(server, list, number, start) == CeilingPages(|list| - start, size)
    decreases |list| - start
  {
    hide PageSize, Contiguous;
    if start < |list| {
      assert PageSize(server, list, number, start) == if |list| - start < size then |list| - start else size;
      if GoesOn(server, list, number, start) {
        PagesAreCeiling(server, list, size, number + 1, start + size);
      }
    }
  }

  /** With pages of one size the limit that decides is max(1, ceil(total / size)). */
  lemma FetchesWithinLimit<T(!new)>(server: Server<T>, list: seq<Option<T>>, size: nat, maxPages: nat)
    requires Contiguous(server, list) && size > 0 && PagedBy(server, list, size)
    ensures Fetched(server, maxPages, 0, 0) ==
            if CeilingPages(|list|, size) <= maxPages then Success(Objects(list)) else Failure(TooManyPages)
  {
    hide PageSize, Contiguous, Objects, Fetched;
    FetchesEverything(server, list, maxPages);
    PagesAreCeiling(server, list, size, 0, 0);
  }

  /** An instance: a server of five items whose first page is empty.  Nothing is returned, and nothing raised. */
  lemma EmptyPageTruncates(maxPages: nat)
    requires maxPages >= 1
    ensures var server: Server<nat> := (number: nat, start: nat) => Page(Some([]), Some(5), Some(start), Some(0));
            && Contiguous(server, [Some(1), Some(2), Some(3), Some(4), Some(5)])
            && Fetched(server, maxPages, 0, 0) == Success([])
  {
  }
}
