/**
 * loadNextPage as a state machine. The `await` of the batch splits it in two
 * steps: Request (the guard and `isLoading = true`) and Complete (applying the
 * batch or the error, then the `finally` that clears `isLoading`).
 */
module Pagination {
  import opened Catalog

  /** The layout's pagination fields. */
  datatype PageState = PageState(items: seq<Item>, currentPage: nat, isLoading: bool, hasMore: bool)

  /** How the awaited batch ended: the items fetchItems returned, or an exception. */
  datatype Outcome = Success(batch: seq<Item>) | Failure

  /** The fields as the constructor sets them. */
  const Initial := PageState([], 0, false, true)

  /** A call starts a fetch only when none is in flight and the source is not exhausted. */
  predicate Starts(s: PageState) {
    !s.isLoading && s.hasMore
  }

  /** loadNextPage up to its `await`: the guard, then `isLoading = true`. */
  function Request(s: PageState): (r: PageState)
    ensures r.items == s.items && r.currentPage == s.currentPage && r.hasMore == s.hasMore
    ensures r.isLoading <==> s.isLoading || s.hasMore
    ensures !Starts(s) ==> r == s
  {
    if s.isLoading || !s.hasMore then s else s.(isLoading := true)
  }

  /**
   * loadNextPage after its `await`: on success the page advances, the batch is
   * appended and a short batch clears hasMore; an error changes nothing; the
   * `finally` clears isLoading either way.
   */
  function Complete(s: PageState, pageSize: int, outcome: Outcome): (r: PageState)
    ensures !r.isLoading
    ensures r.hasMore ==> s.hasMore
    ensures outcome.Failure? ==> r.items == s.items && r.currentPage == s.currentPage && r.hasMore == s.hasMore
    ensures outcome.Success? ==>
      r.currentPage == s.currentPage + 1 && r.items == s.items + outcome.batch &&
      (r.hasMore <==> s.hasMore && |outcome.batch| >= pageSize)
  {
    match outcome
    case Failure => s.(isLoading := false)
    case Success(batch) =>
      PageState(s.items + batch, s.currentPage + 1, false, if |batch| < pageSize then false else s.hasMore)
  }

  /** What can happen next: a call of loadNextPage, or the end of the fetch in flight. */
  datatype Event = Call | Finish(outcome: Outcome)

  /** One event; a fetch can only finish while one is in flight. */
  function Step(s: PageState, pageSize: int, e: Event): PageState {
    match e
    case Call => Request(s)
    case Finish(o) => if s.isLoading then Complete(s, pageSize, o) else s
  }

  function Run(s: PageState, pageSize: int, events: seq<Event>): PageState
    decreases |events|
  {
    if events == [] then s else Run(Step(s, pageSize, events[0]), pageSize, events[1..])
  }

  /** The number of calls in `events` that started a fetch. */
  function Started(s: PageState, pageSize: int, events: seq<Event>): nat
    decreases |events|
  {
    if events == [] then 0
    else (if events[0].Call? && Starts(s) then 1 else 0) + Started(Step(s, pageSize, events[0]), pageSize, events[1..])
  }

  /** The number of fetches in `events` that finished. */
  function Finished(s: PageState, pageSize: int, events: seq<Event>): nat
    decreases |events|
  {
    if events == [] then 0
    else (if events[0].Finish? && s.isLoading then 1 else 0) + Finished(Step(s, pageSize, events[0]), pageSize, events[1..])
  }

  /** Once hasMore is false it stays false, whatever happens. */
  lemma {:induction false} HasMoreNeverReturns(s: PageState, pageSize: int, events: seq<Event>)
    requires !s.hasMore
    ensures !Run(s, pageSize, events).hasMore
    decreases |events|
  {
    if events != [] {
      HasMoreNeverReturns(Step(s, pageSize, events[0]), pageSize, events[1..]);
    }
  }

  /** An exhausted, idle layout is final: no event changes it. */
  lemma {:induction false} ExhaustedIsFinal(s: PageState, pageSize: int, events: seq<Event>)
    requires !s.hasMore && !s.isLoading
    ensures Run(s, pageSize, events) == s
    decreases |events|
  {
    if events != [] {
      ExhaustedIsFinal(Step(s, pageSize, events[0]), pageSize, events[1..]);
    }
  }

  /**
   * Items are append-only: the old items stay a prefix, the page never goes
   * back, and the items change only together with a page advance.
   */
  lemma {:induction false} ItemsAppendOnly(s: PageState, pageSize: int, events: seq<Event>)
    ensures var r := Run(s, pageSize, events);
      s.items <= r.items && s.currentPage <= r.currentPage &&
      (r.currentPage == s.currentPage ==> r.items == s.items)
    decreases |events|
  {
    if events != [] {
      var t := Step(s, pageSize, events[0]);
      ItemsAppendOnly(t, pageSize, events[1..]);
      assert s.items <= t.items;
    }
  }

  /**
   * At most one fetch is in flight: every started fetch but the one still
   * loading has finished, however calls and completions interleave.
   */
  lemma {:induction false} OneFetchInFlight(s: PageState, pageSize: int, events: seq<Event>)
    ensures var r := Run(s, pageSize, events);
      Started(s, pageSize, events) + (if s.isLoading then 1 else 0) ==
      Finished(s, pageSize, events) + (if r.isLoading then 1 else 0)
    decreases |events|
  {
    if events != [] {
      OneFetchInFlight(Step(s, pageSize, events[0]), pageSize, events[1..]);
    }
  }

  /** Two calls in the same turn start one fetch: the second sees isLoading and returns. */
  lemma SecondCallIsNoOp(s: PageState, pageSize: int)
    ensures Run(s, pageSize, [Call, Call]) == Run(s, pageSize, [Call])
    ensures Started(s, pageSize, [Call, Call]) == Started(s, pageSize, [Call])
  {
    assert [Call, Call][1..] == [Call];
  }
}
