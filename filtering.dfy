/**
 * What `applyFilters` computes from the loaded submissions: a case-folded
 * search over four fields, optional equality filters on service and status,
 * and a stable sort by submission time.
 */
module Filtering {
  import opened Text
  import opened Sequences
  import opened Leads

  /** The select value that switches a filter off. */
  const All: string := "all"

  /** The sort order value meaning newest first; anything else sorts oldest first. */
  const Descending: string := "desc"

  /**
   * The search test, for a query that is already lower-cased. The empty
   * query is found in every record, and a query longer than each of the four
   * fields is found in none.
   */
  predicate MatchesQuery(sub: Submission, query: string)
    ensures query == [] ==> MatchesQuery(sub, query)
    ensures MatchesQuery(sub, query) ==>
      |query| <= |sub.name| || |query| <= |sub.email| || |query| <= |sub.message| || |query| <= |sub.service|
  {
    || Contains(Lower(sub.name), query)
    || Contains(Lower(sub.email), query)
    || Contains(Lower(sub.message), query)
    || Contains(Lower(sub.service), query)
  }

  /** Whether a record passes the search box and both select filters. */
  predicate Shown(sub: Submission, searchQuery: string, filterService: string, filterStatus: string)
  {
    && PassesSearch(sub, searchQuery)
    && (filterService == All || sub.service == filterService)
    && (filterStatus == All || sub.status == filterStatus)
  }

  /** An empty search box passes every record. */
  predicate PassesSearch(sub: Submission, searchQuery: string)
  {
    searchQuery == [] || MatchesQuery(sub, Lower(searchQuery))
  }

  /** What is left after the search step of `applyFilters`. */
  function AfterSearch(subs: seq<Submission>, searchQuery: string): seq<Submission>
  {
    Filter(subs, (sub: Submission) => PassesSearch(sub, searchQuery))
  }

  /** What is left after the search and service steps of `applyFilters`. */
  function AfterService(subs: seq<Submission>, searchQuery: string, filterService: string): seq<Submission>
  {
    Filter(subs, (sub: Submission) => PassesSearch(sub, searchQuery) && (filterService == All || sub.service == filterService))
  }

  /** The records that pass every filter, in list order. */
  function Matching(subs: seq<Submission>, searchQuery: string, filterService: string, filterStatus: string): seq<Submission>
  {
    Filter(subs, (sub: Submission) => Shown(sub, searchQuery, filterService, filterStatus))
  }

  /** The search step: skipped for an empty query, a filter on the lower-cased query otherwise. */
  lemma SearchStep(subs: seq<Submission>, searchQuery: string, query: string)
    requires query == Lower(searchQuery)
    ensures searchQuery == [] ==> AfterSearch(subs, searchQuery) == subs
    ensures searchQuery != [] ==>
      Filter(subs, (sub: Submission) => MatchesQuery(sub, query)) == AfterSearch(subs, searchQuery)
  {
    if searchQuery == [] {
      FilterKeepsAll(subs, (sub: Submission) => PassesSearch(sub, searchQuery));
    } else {
      FilterExtensional(subs, (sub: Submission) => MatchesQuery(sub, query),
        (sub: Submission) => PassesSearch(sub, searchQuery));
    }
  }

  /** The service step: skipped for "all", a filter on equal service otherwise. */
  lemma ServiceStep(subs: seq<Submission>, searchQuery: string, filterService: string)
    ensures filterService == All ==> AfterService(subs, searchQuery, filterService) == AfterSearch(subs, searchQuery)
    ensures filterService != All ==>
      Filter(AfterSearch(subs, searchQuery), (sub: Submission) => sub.service == filterService)
      == AfterService(subs, searchQuery, filterService)
  {
    if filterService == All {
      FilterExtensional(subs,
        (sub: Submission) => PassesSearch(sub, searchQuery) && (filterService == All || sub.service == filterService),
        (sub: Submission) => PassesSearch(sub, searchQuery));
    } else {
      FilterFilter(subs, (sub: Submission) => PassesSearch(sub, searchQuery),
        (sub: Submission) => sub.service == filterService,
        (sub: Submission) => PassesSearch(sub, searchQuery) && (filterService == All || sub.service == filterService));
    }
  }

  /** The status step: skipped for "all", a filter on equal status otherwise. */
  lemma StatusStep(subs: seq<Submission>, searchQuery: string, filterService: string, filterStatus: string)
    ensures filterStatus == All ==> Matching(subs, searchQuery, filterService, filterStatus) == AfterService(subs, searchQuery, filterService)
    ensures filterStatus != All ==>
      Filter(AfterService(subs, searchQuery, filterService), (sub: Submission) => sub.status == filterStatus)
      == Matching(subs, searchQuery, filterService, filterStatus)
  {
    var before := (sub: Submission) => PassesSearch(sub, searchQuery) && (filterService == All || sub.service == filterService);
    var after := (sub: Submission) => Shown(sub, searchQuery, filterService, filterStatus);
    if filterStatus == All {
      FilterExtensional(subs, after, before);
    } else {
      FilterFilter(subs, before, (sub: Submission) => sub.status == filterStatus, after);
    }
  }

  /**
   * The comparator handed to `sort` in `applyFilters`: `dateB - dateA` for
   * `desc`, `dateA - dateB` otherwise. It is zero exactly for equal times, and
   * negative exactly when `a` must come first.
   */
  function DateComparator(a: Submission, b: Submission, sortOrder: string): (r: int)
    ensures r == 0 <==> a.submittedAt == b.submittedAt
    ensures sortOrder == Descending ==> (r < 0 <==> a.submittedAt > b.submittedAt)
    ensures sortOrder != Descending ==> (r < 0 <==> a.submittedAt < b.submittedAt)
  {
    if sortOrder == Descending then b.submittedAt - a.submittedAt else a.submittedAt - b.submittedAt
  }

  /**
   * `a` may stand before `b` under the comparator of `applyFilters`: for
   * every sort order that selects this direction, the comparator does not
   * place `b` first.
   */
  predicate InOrder(a: Submission, b: Submission, newestFirst: bool)
    ensures forall sortOrder :: (sortOrder == Descending) == newestFirst ==>
      (InOrder(a, b, newestFirst) <==> DateComparator(a, b, sortOrder) <= 0)
  {
    if newestFirst then a.submittedAt >= b.submittedAt else a.submittedAt <= b.submittedAt
  }

  predicate SortedByDate(s: seq<Submission>, newestFirst: bool)
  {
    forall i, j :: 0 <= i < j < |s| ==> InOrder(s[i], s[j], newestFirst)
  }

  /** Inserts `x` in front of the first record it may precede. */
  function Insert(x: Submission, s: seq<Submission>, newestFirst: bool): (r: seq<Submission>)
    requires SortedByDate(s, newestFirst)
    ensures SortedByDate(r, newestFirst)
    ensures multiset(r) == multiset(s) + multiset{x}
    decreases |s|
  {
    if s == [] || InOrder(x, s[0], newestFirst) then
      SortedCons(x, s, newestFirst);
      [x] + s
    else
      var t := Insert(x, s[1..], newestFirst);
      HeadPrecedes(s, x, t, newestFirst);
      [s[0]] + t
  }

  /** The head of a sorted list may precede whatever its tail and a later record are rearranged into. */
  lemma HeadPrecedes(s: seq<Submission>, x: Submission, t: seq<Submission>, newestFirst: bool)
    requires s != [] && SortedByDate(s, newestFirst) && !InOrder(x, s[0], newestFirst)
    requires SortedByDate(t, newestFirst)
    requires multiset(t) == multiset(s[1..]) + multiset{x}
    ensures SortedByDate([s[0]] + t, newestFirst)
    ensures multiset([s[0]] + t) == multiset(s) + multiset{x}
  {
    forall k | 0 <= k < |t|
      ensures InOrder(s[0], t[k], newestFirst)
    {
      assert t[k] in multiset(t);
      if t[k] != x {
        assert t[k] in s[1..];
        var j :| 0 <= j < |s[1..]| && s[1..][j] == t[k];
        assert s[j + 1] == t[k];
      }
    }
    SortedCons(s[0], t, newestFirst);
    assert s == [s[0]] + s[1..];
  }

  /** A record that may precede every record of a sorted list keeps it sorted when put in front. */
  lemma SortedCons(x: Submission, t: seq<Submission>, newestFirst: bool)
    requires SortedByDate(t, newestFirst)
    requires forall k :: 0 <= k < |t| ==> InOrder(x, t[k], newestFirst)
    ensures SortedByDate([x] + t, newestFirst)
  {
    var r := [x] + t;
    forall i, j | 0 <= i < j < |r|
      ensures InOrder(r[i], r[j], newestFirst)
    {
      if i == 0 {
        assert r[j] == t[j - 1];
      } else {
        assert r[i] == t[i - 1] && r[j] == t[j - 1];
      }
    }
  }

  /**
   * `filtered.sort(...)` with the comparator of `applyFilters`: a stable sort
   * on `submittedAt`, newest first or oldest first.
   */
  function SortByDate(s: seq<Submission>, newestFirst: bool): (r: seq<Submission>)
    ensures SortedByDate(r, newestFirst)
    ensures multiset(r) == multiset(s)
    decreases |s|
  {
    if s == [] then []
    else
      assert s == [s[0]] + s[1..];
      Insert(s[0], SortByDate(s[1..], newestFirst), newestFirst)
  }

  /** The records of `s` submitted at instant `t`, in order. */
  function AtTime(s: seq<Submission>, t: int): seq<Submission>
  {
    Filter(s, (sub: Submission) => sub.submittedAt == t)
  }

  lemma {:induction false} InsertStable(x: Submission, s: seq<Submission>, newestFirst: bool, t: int)
    requires SortedByDate(s, newestFirst)
    ensures AtTime(Insert(x, s, newestFirst), t)
         == if x.submittedAt == t then [x] + AtTime(s, t) else AtTime(s, t)
    decreases |s|
  {
    if s == [] || InOrder(x, s[0], newestFirst) {
      assert ([x] + s)[1..] == s;
    } else {
      InsertStable(x, s[1..], newestFirst, t);
      var r := Insert(x, s, newestFirst);
      assert r[1..] == Insert(x, s[1..], newestFirst);
      if x.submittedAt == t {
        assert s[0].submittedAt != t;
      }
    }
  }

  /**
   * The sort is stable: records with equal timestamps keep their relative
   * order.
   */
  lemma {:induction false} SortByDateStable(s: seq<Submission>, newestFirst: bool, t: int)
    ensures AtTime(SortByDate(s, newestFirst), t) == AtTime(s, t)
    decreases |s|
  {
    if s != [] {
      SortByDateStable(s[1..], newestFirst, t);
      InsertStable(s[0], SortByDate(s[1..], newestFirst), newestFirst, t);
    }
  }

  /**
   * The list `applyFilters` stores in `filteredSubmissions`: exactly the
   * records that pass the filters, each as often as in the loaded list,
   * ordered by date in the chosen direction.
   */
  function Visible(subs: seq<Submission>, searchQuery: string, filterService: string, filterStatus: string, sortOrder: string): (r: seq<Submission>)
    ensures forall x :: multiset(r)[x] == if Shown(x, searchQuery, filterService, filterStatus) then multiset(subs)[x] else 0
    ensures SortedByDate(r, sortOrder == Descending)
  {
    SortByDate(Matching(subs, searchQuery, filterService, filterStatus), sortOrder == Descending)
  }

  /** The visible list inherits unique ids from the loaded list. */
  lemma VisibleUniqueIds(subs: seq<Submission>, searchQuery: string, filterService: string, filterStatus: string, sortOrder: string)
    requires UniqueIds(subs)
    ensures UniqueIds(Visible(subs, searchQuery, filterService, filterStatus, sortOrder))
  {
    UniqueIdsOfSubMultiset(subs, Visible(subs, searchQuery, filterService, filterStatus, sortOrder));
  }

  /** Every visible record is a loaded record that passes the filters. */
  lemma VisibleSound(subs: seq<Submission>, searchQuery: string, filterService: string, filterStatus: string, sortOrder: string, x: Submission)
    requires x in Visible(subs, searchQuery, filterService, filterStatus, sortOrder)
    ensures x in subs
    ensures filterService != All ==> x.service == filterService
    ensures filterStatus != All ==> x.status == filterStatus
  {
    var v := Visible(subs, searchQuery, filterService, filterStatus, sortOrder);
    assert multiset(v)[x] > 0;
    assert Shown(x, searchQuery, filterService, filterStatus) && multiset(subs)[x] > 0;
  }

  /** With no search text and both filters off, the visible list is a permutation of the loaded one. */
  lemma VisibleUnfilteredIsPermutation(subs: seq<Submission>, sortOrder: string)
    ensures multiset(Visible(subs, "", All, All, sortOrder)) == multiset(subs)
  {
    assert forall x :: multiset(Visible(subs, "", All, All, sortOrder))[x] == multiset(subs)[x];
  }

  /**
   * With a non-empty query a record passes the search exactly when the
   * lower-cased query occurs in its lower-cased name, email, message or
   * service; an empty query passes every record.
   */
  lemma SearchSemantics(sub: Submission, q: string)
    ensures q == [] ==> Shown(sub, q, All, All)
    ensures q != [] ==>
      (Shown(sub, q, All, All) <==>
         || (exists i :: OccursAt(Lower(sub.name), Lower(q), i))
         || (exists i :: OccursAt(Lower(sub.email), Lower(q), i))
         || (exists i :: OccursAt(Lower(sub.message), Lower(q), i))
         || (exists i :: OccursAt(Lower(sub.service), Lower(q), i)))
  {
    ContainsIffOccurs(Lower(sub.name), Lower(q));
    ContainsIffOccurs(Lower(sub.email), Lower(q));
    ContainsIffOccurs(Lower(sub.message), Lower(q));
    ContainsIffOccurs(Lower(sub.service), Lower(q));
  }

  /** The search ignores the case of the query. */
  lemma SearchIgnoresQueryCase(sub: Submission, q: string, filterService: string, filterStatus: string)
    ensures Shown(sub, Lower(q), filterService, filterStatus) == Shown(sub, q, filterService, filterStatus)
  {
    LowerIdempotent(q);
  }
}
