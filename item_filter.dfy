/**
 * The client-side list narrowing of frontend/script.js: the module-level `allItems` and
 * `currentFilter`, `applyFilters`, and the setters that change the filter and redraw.
 */
module ItemFilter {
  import opened Wrappers
  import opened JsString

  /** An item as the client received it; `priority` and `status` may be absent. */
  datatype ClientItem = ClientItem(title: string, description: string, priority: Option<string>, status: Option<string>)

  /** `currentFilter`. */
  datatype Filter = Filter(search: string, priority: string, status: string)

  const DefaultFilter := Filter("", "all", "all")

  /** `currentFilter.search.trim()` is truthy. */
  predicate SearchActive(search: string) {
    Trim(search) != ""
  }

  /** The search test of lines 19-23, with `query` already lower-cased and not trimmed. */
  predicate MatchesSearch(item: ClientItem, query: string) {
    || Includes(Lower(item.title), query)
    || Includes(Lower(item.description), query)
    || (item.priority.Some? && item.priority.value != "" && Includes(Lower(item.priority.value), query))
  }

  /** The three stages of `applyFilters`; an inactive stage lets every item through. */
  predicate PassesSearch(f: Filter, item: ClientItem) {
    SearchActive(f.search) ==> MatchesSearch(item, Lower(f.search))
  }

  predicate PassesPriority(f: Filter, item: ClientItem) {
    f.priority != "all" ==> item.priority == Some(f.priority)
  }

  predicate PassesStatus(f: Filter, item: ClientItem) {
    f.status != "all" ==> item.status == Some(f.status)
  }

  predicate Matches(f: Filter, item: ClientItem) {
    PassesSearch(f, item) && PassesPriority(f, item) && PassesStatus(f, item)
  }

  /** `xs.filter(keep)`, defined from the last element so a left-to-right loop can follow it. */
  function Select(xs: seq<ClientItem>, keep: ClientItem -> bool): (r: seq<ClientItem>)
    decreases |xs|
  {
    if xs == [] then []
    else Select(xs[..|xs| - 1], keep) + (if keep(xs[|xs| - 1]) then [xs[|xs| - 1]] else [])
  }

  /** What `applyFilters` hands to `displayItems`: every item that passes all three stages. */
  function FilterView(items: seq<ClientItem>, f: Filter): (r: seq<ClientItem>) {
    Select(items, item => Matches(f, item))
  }

  /** `a` is `b` with some elements left out and the rest in their original order. */
  predicate IsSubsequence(a: seq<ClientItem>, b: seq<ClientItem>)
    decreases |b|
  {
    if a == [] then true
    else if b == [] then false
    else if a[|a| - 1] == b[|b| - 1] then IsSubsequence(a[..|a| - 1], b[..|b| - 1])
    else IsSubsequence(a, b[..|b| - 1])
  }

  lemma {:induction false} EmptyIsSubsequence(b: seq<ClientItem>)
    ensures IsSubsequence([], b)
  {
  }

  /** Filtering keeps an order-preserving subsequence of its input. */
  lemma {:induction false} SelectIsSubsequence(xs: seq<ClientItem>, keep: ClientItem -> bool)
    ensures IsSubsequence(Select(xs, keep), xs)
    decreases |xs|
  {
    if xs != [] {
      var init, last := xs[..|xs| - 1], xs[|xs| - 1];
      SelectIsSubsequence(init, keep);
      var r := Select(xs, keep);
      if keep(last) {
        assert r[..|r| - 1] == Select(init, keep);
      } else {
        assert r == Select(init, keep);
        SubsequenceOfPrefix(r, init, last);
      }
    }
  }

  /** A subsequence of a prefix is a subsequence of the whole. */
  lemma {:induction false} SubsequenceOfPrefix(a: seq<ClientItem>, b: seq<ClientItem>, x: ClientItem)
    requires IsSubsequence(a, b)
    ensures IsSubsequence(a, b + [x])
    decreases |b|, 1
  {
    if a != [] {
      assert (b + [x])[..|b + [x]| - 1] == b;
      if a[|a| - 1] == x {
        SubsequenceDropLast(a, b);
      }
    }
  }

  /** Dropping the last element of a subsequence leaves a subsequence. */
  lemma {:induction false} SubsequenceDropLast(a: seq<ClientItem>, b: seq<ClientItem>)
    requires a != [] && IsSubsequence(a, b)
    ensures IsSubsequence(a[..|a| - 1], b)
    decreases |b|, 0
  {
    var init := a[..|a| - 1];
    if init == [] {
      EmptyIsSubsequence(b);
    } else if a[|a| - 1] == b[|b| - 1] {
      SubsequenceOfPrefix(init, b[..|b| - 1], b[|b| - 1]);
      assert b[..|b| - 1] + [b[|b| - 1]] == b;
    } else {
      SubsequenceDropLast(a, b[..|b| - 1]);
      SubsequenceOfPrefix(init, b[..|b| - 1], b[|b| - 1]);
      assert b[..|b| - 1] + [b[|b| - 1]] == b;
    }
  }

  /** An item is kept exactly when it occurs in the input and passes the test. */
  lemma {:induction false} SelectMembership(xs: seq<ClientItem>, keep: ClientItem -> bool, x: ClientItem)
    ensures x in Select(xs, keep) <==> x in xs && keep(x)
    decreases |xs|
  {
    if xs != [] {
      var init := xs[..|xs| - 1];
      SelectMembership(init, keep, x);
      assert xs == init + [xs[|xs| - 1]];
    }
  }

  /** Two tests that agree on every item select the same items. */
  lemma {:induction false} SelectSameTest(xs: seq<ClientItem>, p: ClientItem -> bool, q: ClientItem -> bool)
    requires forall x :: p(x) == q(x)
    ensures Select(xs, p) == Select(xs, q)
    decreases |xs|
  {
    if xs != [] {
      SelectSameTest(xs[..|xs| - 1], p, q);
    }
  }

  /** Filtering twice in a row is filtering once by both tests. */
  lemma {:induction false} SelectTwice(xs: seq<ClientItem>, p: ClientItem -> bool, q: ClientItem -> bool, pq: ClientItem -> bool)
    requires forall x :: pq(x) == (p(x) && q(x))
    ensures Select(Select(xs, p), q) == Select(xs, pq)
    decreases |xs|
  {
    if xs != [] {
      var init, last := xs[..|xs| - 1], xs[|xs| - 1];
      SelectTwice(init, p, q, pq);
      if p(last) {
        var s := Select(init, p) + [last];
        assert Select(xs, p) == s;
        assert s[..|s| - 1] == Select(init, p);
        assert Select(s, q) == Select(Select(init, p), q) + (if q(last) then [last] else []);
      } else {
        assert Select(xs, p) == Select(init, p);
        assert Select(xs, pq) == Select(init, pq);
      }
    }
  }

  /** A test that every item passes keeps the whole input. */
  lemma {:induction false} SelectAll(xs: seq<ClientItem>, keep: ClientItem -> bool)
    requires forall x :: keep(x)
    ensures Select(xs, keep) == xs
    decreases |xs|
  {
    if xs != [] {
      SelectAll(xs[..|xs| - 1], keep);
    }
  }

  /** The view is an order-preserving subsequence of `allItems`. */
  lemma FilterViewIsSubsequence(items: seq<ClientItem>, f: Filter)
    ensures IsSubsequence(FilterView(items, f), items)
  {
    SelectIsSubsequence(items, item => Matches(f, item));
  }

  /**
   * An item is shown exactly when it is in `allItems`, contains the lower-cased untrimmed query
   * in its lower-cased title, description or priority (if the trimmed query is not blank),
   * has the selected priority (unless 'all') and has the selected status (unless 'all').
   */
  lemma FilterViewMembership(items: seq<ClientItem>, f: Filter, x: ClientItem)
    ensures x in FilterView(items, f) <==>
      && x in items
      && (Trim(f.search) != "" ==>
            || Includes(Lower(x.title), Lower(f.search))
            || Includes(Lower(x.description), Lower(f.search))
            || (x.priority.Some? && x.priority.value != "" && Includes(Lower(x.priority.value), Lower(f.search))))
      && (f.priority != "all" ==> x.priority == Some(f.priority))
      && (f.status != "all" ==> x.status == Some(f.status))
  {
    SelectMembership(items, item => Matches(f, item), x);
  }

  /** A blank or whitespace-only search with both selectors at 'all' shows every item, in order. */
  lemma FilterViewShowsAll(items: seq<ClientItem>, f: Filter)
    requires AllWhitespace(f.search) && f.priority == "all" && f.status == "all"
    ensures FilterView(items, f) == items
  {
    TrimEmptyIffAllWhitespace(f.search);
    SelectAll(items, item => Matches(f, item));
  }

  /** With a priority or status selected, every shown item has exactly that value. */
  lemma FilterViewSelectorsExact(items: seq<ClientItem>, f: Filter)
    ensures f.priority != "all" ==> forall x :: x in FilterView(items, f) ==> x.priority == Some(f.priority)
    ensures f.status != "all" ==> forall x :: x in FilterView(items, f) ==> x.status == Some(f.status)
  {
    forall x | x in FilterView(items, f) ensures Matches(f, x) {
      SelectMembership(items, item => Matches(f, item), x);
    }
  }

  /** The query is not trimmed before matching: " milk" does not find an item titled "milk". */
  lemma SearchIsNotTrimmed()
    ensures SearchActive(" milk")
    ensures !Matches(Filter(" milk", "all", "all"), ClientItem("milk", "", None, None))
  {
    assert Trim(" milk") == "milk" by {
      assert TrimStart(" milk") == "milk";
      assert TrimEnd("milk") == "milk";
    }
    assert Lower(" milk") == " milk";
    assert Lower("milk") == "milk";
    assert Lower("") == "";
  }

  class FilterState {
    /** `allItems`: the last list fetched from the server. */
    var allItems: seq<ClientItem>
    /** `currentFilter`. */
    var current: Filter
    /** The list last passed to `displayItems`. */
    var displayed: seq<ClientItem>

    constructor ()
      ensures allItems == [] && current == DefaultFilter && displayed == []
    {
      allItems := [];
      current := DefaultFilter;
      displayed := [];
    }

    /** `filtered.filter(keep)`, step by step. */
    static method KeepWhere(xs: seq<ClientItem>, keep: ClientItem -> bool) returns (r: seq<ClientItem>)
      ensures r == Select(xs, keep)
    {
      r := [];
      var i := 0;
      while i < |xs|
        invariant 0 <= i <= |xs|
        invariant r == Select(xs[..i], keep)
      {
        assert xs[..i + 1][..i] == xs[..i];
        if keep(xs[i]) {
          r := r + [xs[i]];
        }
        i := i + 1;
      }
      assert xs[..|xs|] == xs;
    }

    /** `applyFilters` (lines 13-37): search, then priority, then status. */
    method ApplyFilters() returns (filtered: seq<ClientItem>)
      ensures filtered == FilterView(allItems, current)
    {
      var f := current;
      var inSearch := item => PassesSearch(f, item);
      var inPriority := item => PassesPriority(f, item);
      var inSearchAndPriority := item => PassesSearch(f, item) && PassesPriority(f, item);
      filtered := allItems;
      if SearchActive(f.search) {
        var query := Lower(f.search);
        filtered := KeepWhere(filtered, item => MatchesSearch(item, query));
        SelectSameTest(allItems, item => MatchesSearch(item, query), inSearch);
      } else {
        SelectAll(allItems, inSearch);
      }
      if f.priority != "all" {
        var wanted := f.priority;
        filtered := KeepWhere(filtered, (item: ClientItem) => item.priority == Some(wanted));
        SelectTwice(allItems, inSearch, (item: ClientItem) => item.priority == Some(wanted), inSearchAndPriority);
      } else {
        SelectAll(filtered, inPriority);
        SelectTwice(allItems, inSearch, inPriority, inSearchAndPriority);
      }
      if f.status != "all" {
        var wanted := f.status;
        filtered := KeepWhere(filtered, (item: ClientItem) => item.status == Some(wanted));
        SelectTwice(allItems, inSearchAndPriority, (item: ClientItem) => item.status == Some(wanted), item => Matches(f, item));
      } else {
        SelectAll(filtered, item => PassesStatus(f, item));
        SelectTwice(allItems, inSearchAndPriority, item => PassesStatus(f, item), item => Matches(f, item));
      }
    }

    /** `searchItems(query)` (lines 39-42). */
    method SearchItems(query: string)
      modifies this
      ensures current == old(current).(search := query)
      ensures allItems == old(allItems) && displayed == FilterView(allItems, current)
    {
      current := current.(search := query);
      displayed := ApplyFilters();
    }

    /** `filterByPriority(priority)` (lines 44-47). */
    method FilterByPriority(priority: string)
      modifies this
      ensures current == old(current).(priority := priority)
      ensures allItems == old(allItems) && displayed == FilterView(allItems, current)
    {
      current := current.(priority := priority);
      displayed := ApplyFilters();
    }

    /** `filterByStatus(status)` (lines 49-52). */
    method FilterByStatus(status: string)
      modifies this
      ensures current == old(current).(status := status)
      ensures allItems == old(allItems) && displayed == FilterView(allItems, current)
    {
      current := current.(status := status);
      displayed := ApplyFilters();
    }

    /**
     * `resetFilters` (lines 54-62): restores the default filter and shows `allItems` directly,
     * which is what the default filter would show anyway.
     */
    method ResetFilters()
      modifies this
      ensures current == DefaultFilter && allItems == old(allItems)
      ensures displayed == allItems && displayed == FilterView(allItems, current)
    {
      current := DefaultFilter;
      displayed := allItems;
      FilterViewShowsAll(allItems, current);
    }

    /**
     * The success path of `fetchItems` (lines 283-284): the fetched list replaces `allItems`
     * and is displayed unfiltered; `currentFilter` is left as it was.
     */
    method Load(fetched: seq<ClientItem>)
      modifies this
      ensures allItems == fetched && displayed == fetched && current == old(current)
    {
      allItems := fetched;
      displayed := fetched;
    }
  }
}
