/** Fetching from any server at all: which requests are made, what ends them, and what is returned
    (adapters/nvd.py:188-232). */
module Pagination {
  import opened Prelude
  import opened Nvd

  /** The index the next request asks for: from the start the page reports, or else the one asked for, by the page size
      it reports, or else the number of its items. */
  ghost predicate Next<T>(start: nat, page: Page<T>, next: nat) {
    && page.items.Some?
    && next - (if page.start.Some? then page.start.value else start) ==
       if page.perPage.Some? && page.perPage.value > 0 then page.perPage.value else |page.items.value|
  }

  /** The page is followed by another request. */
  ghost predicate Continues<T>(start: nat, page: Page<T>, next: nat) {
    page.total.Some? && Next(start, page, next) && page.items.value != [] && start < next < page.total.value
  }

  /** The start indices of successive requests, of which the first has the given number. */
  ghost predicate Trail<T>(server: Server<T>, number: nat, starts: seq<nat>) {
    starts != [] &&
      forall i | 0 <= i < |starts| - 1 :: Continues(starts[i], server(number + i, starts[i]), starts[i + 1])
  }

  /** The objects of the pages that were read, in order. */
  function Harvest<T>(server: Server<T>, number: nat, starts: seq<nat>): seq<T>
    decreases |starts|
  {
    if starts == [] then []
    else
      var page := server(number, starts[0]);
      (if page.items.Some? then Objects(page.items.value) else []) + Harvest(server, number + 1, starts[1..])
  }

  /** What ends the requests. */
  ghost predicate Ends<T>(server: Server<T>, maxPages: nat, number: nat, starts: seq<nat>, r: Result<seq<T>, PageError>)
    requires starts != []
  {
    var last := starts[|starts| - 1];
    var page := server(number + |starts| - 1, last);
    if page.items.None? then r == Failure(NotAnArray)
    else if page.total.None? then r == Failure(NoTotal)
    else if page.items.value == [] || exists next: nat :: Next(last, page, next) && next >= page.total.value
    then r == Success(Harvest(server, number, starts))
    else if exists next: nat :: Next(last, page, next) && next <= last then r == Failure(NoAdvance)
    else number + |starts| == maxPages && r == Failure(TooManyPages)
  }

  lemma NextIs<T>(start: nat, page: Page<T>)
    requires page.items.Some?
    ensures forall next: nat :: Next(start, page, next) <==> next == NextIndex(start, page)
  {
    assert Next(start, page, NextIndex(start, page));
  }

  lemma ObjectsOne<T>(x: Option<T>)
    ensures Objects([x]) == if x.Some? then [x.value] else []
    ensures Objects<T>([]) == []
  {
    assert [x][..0] == [];
  }

  lemma HarvestCons<T>(server: Server<T>, number: nat, start: nat, starts: seq<nat>)
    requires server(number, start).items.Some?
    ensures Harvest(server, number, [start] + starts) ==
            Objects(server(number, start).items.value) + Harvest(server, number + 1, starts)
  {
    assert ([start] + starts)[1..] == starts;
  }

  lemma TrailCons<T>(server: Server<T>, number: nat, start: nat, starts: seq<nat>)
    requires Trail(server, number + 1, starts) && Continues(start, server(number, start), starts[0])
    ensures Trail(server, number, [start] + starts)
  {
    hide Continues;
    var all := [start] + starts;
    forall i | 0 <= i < |all| - 1 ensures Continues(all[i], server(number + i, all[i]), all[i + 1]) {
      if i > 0 {
        assert all[i] == starts[i - 1] && all[i + 1] == starts[i] && number + i == number + 1 + (i - 1);
      }
    }
  }

  /** Against any server the requests form one trail from index zero, as long as the limit allows; the last page read
      decides: a malformed page, the end of the list or an empty page, an index that does not advance, or the limit. */
  lemma {:induction false} FetchedExactly<T>(server: Server<T>, maxPages: nat, number: nat, start: nat)
    returns (starts: seq<nat>)
    requires number < maxPages
    ensures starts != [] && starts[0] == start && number + |starts| <= maxPages && Trail(server, number, starts)
    ensures Ends(server, maxPages, number, starts, Fetched(server, maxPages, number, start))
    decreases maxPages - number
  {
    hide Objects, Next, NextIndex;
    starts := [start];
    var page := server(number, start);
    assert Trail(server, number, [start]);
    if page.items.Some? {
      NextIs(start, page);
      HarvestCons(server, number, start, []);
      assert [start] + [] == [start] && Objects(page.items.value) + [] == Objects(page.items.value);
      var next := NextIndex(start, page);
      assert Next(start, page, next);
      if page.total.Some? && page.items.value != [] && start < next < page.total.value && number + 1 < maxPages {
        var rest := FetchedExactly(server, maxPages, number + 1, next);
        TrailCons(server, number, start, rest);
        HarvestCons(server, number, start, rest);
        starts := [start] + rest;
        EndsCons(server, maxPages, number, start, rest);
        return;
      }
    }
    assert starts[|starts| - 1] == start && number + |starts| - 1 == number;
  }

  lemma EndsCons<T>(server: Server<T>, maxPages: nat, number: nat, start: nat, rest: seq<nat>)
    requires number + 1 < maxPages && rest != [] && server(number, start).items.Some?
    requires var page := server(number, start);
             page.total.Some? && page.items.value != [] && start < rest[0] == NextIndex(start, page) < page.total.value
    requires Ends(server, maxPages, number + 1, rest, Fetched(server, maxPages, number + 1, rest[0]))
    ensures Ends(server, maxPages, number, [start] + rest, Fetched(server, maxPages, number, start))
  {
    hide Objects, Next, NextIndex;
    HarvestCons(server, number, start, rest);
    var all := [start] + rest;
    assert all[|all| - 1] == rest[|rest| - 1] && number + |all| - 1 == number + 1 + |rest| - 1;
  }
}
