/**
 The browsing pages: newest first, each page's Older link asking for what comes after its last post.

 A key stands for a post: the text it is sorted by, and its id, compared as SQLite compares text. `table` holds
 the keys of the posts the account and the search select, both of which every link carries on.
 */
module Paging {
  import opened Text
  import opened Timestamps

  const DEFAULT_LIMIT := 50
  const MAX_LIMIT := 500

  datatype Key = Key(sortAt: string, id: string)

  predicate KeyLess(a: Key, b: Key) {
    Less(a.sortAt, b.sortAt) || (a.sortAt == b.sortAt && Less(a.id, b.id))
  }

  lemma {:induction false} LessTransitive(a: string, b: string, c: string)
    requires Less(a, b) && Less(b, c)
    ensures Less(a, c)
  {
    if a != [] && a[0] == b[0] == c[0] {
      LessTransitive(a[1..], b[1..], c[1..]);
    }
  }

  lemma {:induction false} LessTotal(a: string, b: string)
    ensures Less(a, b) || a == b || Less(b, a)
    ensures !(Less(a, b) && Less(b, a)) && (a == b ==> !Less(a, b))
  {
    if a != [] && b != [] && a[0] == b[0] {
      LessTotal(a[1..], b[1..]);
      assert a[1..] == b[1..] ==> a == [a[0]] + a[1..] == b;
    }
  }

  lemma {:induction false} KeyTransitive(a: Key, b: Key, c: Key)
    requires KeyLess(a, b) && KeyLess(b, c)
    ensures KeyLess(a, c)
  {
    if Less(a.sortAt, b.sortAt) && Less(b.sortAt, c.sortAt) {
      LessTransitive(a.sortAt, b.sortAt, c.sortAt);
    } else if a.sortAt == b.sortAt == c.sortAt {
      LessTransitive(a.id, b.id, c.id);
    }
  }

  lemma {:induction false} KeyTotal(a: Key, b: Key)
    ensures KeyLess(a, b) || a == b || KeyLess(b, a)
    ensures !(KeyLess(a, b) && KeyLess(b, a)) && (a == b ==> !KeyLess(a, b))
  {
    LessTotal(a.sortAt, b.sortAt);
    LessTotal(a.id, b.id);
  }

  /** Newest first, nothing twice. */
  ghost predicate Sorted(list: seq<Key>) {
    forall i, j | 0 <= i < j < |list| :: KeyLess(list[j], list[i])
  }

  ghost predicate Lists(list: seq<Key>, table: set<Key>) {
    Sorted(list) && forall k :: k in list <==> k in table
  }

  ghost function Newest(table: set<Key>): (newest: Key)
    requires table != {}
    ensures newest in table && forall k | k in table && k != newest :: KeyLess(k, newest)
    decreases |table|
  {
    var k: Key :| k in table;
    if table == {k} then k
    else
      assert table - {k} != {} by { assert table == {k} + (table - {k}); }
      var other := Newest(table - {k});
      NewestOfTwo(table, k, other);
      if KeyLess(k, other) then other else k
  }

  lemma {:induction false} NewestOfTwo(table: set<Key>, k: Key, other: Key)
    requires k in table && other in table - {k} && forall l | l in table - {k} && l != other :: KeyLess(l, other)
    ensures var larger := if KeyLess(k, other) then other else k;
            forall l | l in table && l != larger :: KeyLess(l, larger)
  {
    KeyTotal(k, other);
    forall l | l in table && l != if KeyLess(k, other) then other else k
      ensures KeyLess(l, if KeyLess(k, other) then other else k)
    {
      if !KeyLess(k, other) && l != other {
        KeyTransitive(l, other, k);
      }
    }
  }

  /** A set of rows from the newest down, the larger id first among equals. */
  ghost function Descending(table: set<Key>): (list: seq<Key>)
    ensures |list| == |table|
  {
    if table == {} then [] else [Newest(table)] + Descending(table - {Newest(table)})
  }

  lemma {:induction false} DescendingLists(table: set<Key>)
    ensures Lists(Descending(table), table)
    decreases |table|
  {
    if table != {} {
      var newest := Newest(table);
      DescendingLists(table - {newest});
      var rest := Descending(table - {newest});
      forall i, j | 0 <= i < j < |rest| + 1
        ensures KeyLess(([newest] + rest)[j], ([newest] + rest)[i])
      {
        assert rest[j - 1] in table - {newest};
      }
    }
  }

  /** There is one way to list a table. */
  lemma {:induction false} ListedOnce(list: seq<Key>, other: seq<Key>)
    requires Sorted(list) && Sorted(other) && forall k :: k in list <==> k in other
    ensures list == other
  {
    SameEmptiness(list, other);
    if list != [] {
      assert list[0] in other;
      assert other[0] in list;
      SameHead(list, other);
      SameTail(list, other);
      ListedOnce(list[1..], other[1..]);
    }
  }

  lemma {:induction false} SameEmptiness(list: seq<Key>, other: seq<Key>)
    requires forall k :: k in list <==> k in other
    ensures list == [] <==> other == []
  {
    if list != [] {
      assert list[0] in other;
    }
    if other != [] {
      assert other[0] in list;
    }
  }

  lemma {:induction false} SameHead(list: seq<Key>, other: seq<Key>)
    requires Sorted(list) && Sorted(other) && list != [] && other != [] && list[0] in other && other[0] in list
    ensures list[0] == other[0]
  {
    KeyTotal(list[0], other[0]);
  }

  lemma {:induction false} SameTail(list: seq<Key>, other: seq<Key>)
    requires Sorted(list) && Sorted(other) && list != [] && other != [] && list[0] == other[0]
    requires forall k :: k in list <==> k in other
    ensures Sorted(list[1..]) && Sorted(other[1..]) && forall k :: k in list[1..] <==> k in other[1..]
  {
    KeyTotal(list[0], list[0]);
    assert forall k :: k in list[1..] <==> k in list && k != list[0];
    assert forall k :: k in other[1..] <==> k in other && k != other[0];
  }

  // --- one page

  /** The query parameters: the cursor, if both its parts came, and the page size asked for. */
  datatype Request = Request(cursor: Option<Key>, limit: int)

  function Limit(requested: int): (size: int)
    ensures 1 <= size <= MAX_LIMIT
    ensures 1 <= requested <= MAX_LIMIT ==> size == requested
  {
    var capped := if requested < MAX_LIMIT then requested else MAX_LIMIT;
    if capped < 1 then 1 else capped
  }

  /** A page size out of range is the nearest one in it. */
  lemma {:induction false} LimitIsNearest(requested: int)
    ensures requested <= 1 ==> Limit(requested) == 1
    ensures requested >= MAX_LIMIT ==> Limit(requested) == MAX_LIMIT
    ensures 1 <= requested <= MAX_LIMIT ==> Limit(requested) == requested
  {
  }

  /** A link leaves out an empty parameter, and a cursor with a part missing is no cursor. */
  predicate Carries(k: Key) {
    k.sortAt != "" && k.id != ""
  }

  /** The Older link: from the last post shown, with the same page size. */
  function Older(last: Key, size: int): Request {
    Request(if Carries(last) then Some(last) else None, if size == DEFAULT_LIMIT then DEFAULT_LIMIT else size)
  }

  ghost function Before(table: set<Key>, cursor: Option<Key>): set<Key> {
    set k | k in table && (cursor.Some? ==> KeyLess(k, cursor.value))
  }

  /** The rows fetched: one past the page, so as to know whether there is another. */
  ghost function Fetched(table: set<Key>, request: Request): seq<Key> {
    var list, most := Descending(Before(table, request.cursor)), Limit(Limit(request.limit)) + 1;
    if |list| <= most then list else list[..most]
  }

  datatype Page = Page(shown: seq<Key>, older: Option<Request>)

  ghost function Browse(table: set<Key>, request: Request): Page {
    var rows, size := Fetched(table, request), Limit(request.limit);
    var shown := if |rows| <= size then rows else rows[..size];
    Page(shown, if |rows| > size then Some(Older(shown[|shown| - 1], size)) else None)
  }

  /** A page of a listing that continues at `list`. */
  lemma {:induction false} BrowseAt(table: set<Key>, request: Request, list: seq<Key>)
    requires Lists(list, Before(table, request.cursor))
    ensures var size := Limit(request.limit);
            Browse(table, request) ==
            if |list| <= size then Page(list, None) else Page(list[..size], Some(Older(list[size - 1], size)))
  {
    hide Descending, Lists, Before, Older, Limit;
    ListsOnce(list, Before(table, request.cursor));
  }

  lemma {:induction false} ListsOnce(list: seq<Key>, table: set<Key>)
    requires Lists(list, table)
    ensures list == Descending(table)
  {
    DescendingLists(table);
    ListedOnce(list, Descending(table));
  }

  // --- following the links

  /** Every post shown by following the Older links, the `i`th page read from `tables[i]`, and whether a page
      without a link was reached. */
  ghost function Follow(tables: seq<set<Key>>, request: Request): (seq<Key>, bool) {
    if tables == [] then ([], false)
    else
      var page := Browse(tables[0], request);
      if page.older.None? then (page.shown, true)
      else
        var rest := Follow(tables[1..], page.older.value);
        (page.shown + rest.0, rest.1)
  }

  ghost predicate Readable(tables: seq<set<Key>>) {
    forall i, k | 0 <= i < |tables| && k in tables[i] :: Carries(k)
  }

  ghost predicate InAll(tables: seq<set<Key>>, k: Key) {
    forall i | 0 <= i < |tables| :: k in tables[i]
  }

  ghost predicate InSome(tables: seq<set<Key>>, k: Key) {
    exists i :: 0 <= i < |tables| && k in tables[i]
  }

  ghost predicate Past(request: Request, k: Key) {
    request.cursor.Some? ==> KeyLess(k, request.cursor.value)
  }

  /** Whatever is stored or deleted between pages: nothing is shown twice, nothing that was never there, and at
      the last page, everything that was there throughout has been shown. */
  lemma {:induction false} FollowingIsSound(tables: seq<set<Key>>, request: Request)
    requires Readable(tables)
    ensures var (shown, done) := Follow(tables, request);
            && Sorted(shown)
            && (forall k | k in shown :: Past(request, k) && InSome(tables, k))
            && (done ==> forall k | InAll(tables, k) && Past(request, k) :: k in shown)
  {
    if tables != [] {
      var table, size := tables[0], Limit(request.limit);
      var list := Descending(Before(table, request.cursor));
      DescendingLists(Before(table, request.cursor));
      BrowseAt(table, request, list);
      assert forall k | k in list :: Past(request, k) && k in tables[0];
      if |list| > size {
        var last := list[size - 1];
        var rest := tables[1..];
        FollowingIsSound(rest, Older(last, size));
        FollowedOn(tables, request, list, size);
      }
    }
  }

  lemma {:induction false} FollowedOn(tables: seq<set<Key>>, request: Request, list: seq<Key>, size: nat)
    requires Readable(tables) && tables != [] && 0 < size < |list| && Lists(list, Before(tables[0], request.cursor))
    requires var (shown, done) := Follow(tables[1..], Older(list[size - 1], size));
             && Sorted(shown)
             && (forall k | k in shown :: KeyLess(k, list[size - 1]) && InSome(tables[1..], k))
             && (done ==> forall k | InAll(tables[1..], k) && KeyLess(k, list[size - 1]) :: k in shown)
    ensures var (shown, done) := Follow(tables[1..], Older(list[size - 1], size)); var all := list[..size] + shown;
            && Sorted(all)
            && (forall k | k in all :: Past(request, k) && InSome(tables, k))
            && (done ==> forall k | InAll(tables, k) && Past(request, k) :: k in all)
  {
    hide Follow, Older, KeyLess, Sorted, InAll, InSome, Lists, Before, Past;
    var (shown, done) := Follow(tables[1..], Older(list[size - 1], size));
    SortedOn(tables[0], request, list, shown, size);
    forall k | k in list[..size] + shown
      ensures Past(request, k) && InSome(tables, k)
    {
      ShownBelongs(tables, request, list, shown, size, k);
    }
    if done {
      forall k | InAll(tables, k) && Past(request, k)
        ensures k in list[..size] + shown
      {
        StaysShown(tables, request, list, size, k);
      }
    }
  }

  lemma {:induction false} SortedOn(table: set<Key>, request: Request, list: seq<Key>, shown: seq<Key>, size: nat)
    requires 0 < size < |list| && Lists(list, Before(table, request.cursor))
    requires Sorted(shown) && forall k | k in shown :: KeyLess(k, list[size - 1])
    ensures Sorted(list[..size] + shown)
  {
    hide KeyLess;
    var last, all := list[size - 1], list[..size] + shown;
    forall i, j | 0 <= i < j < |all|
      ensures KeyLess(all[j], all[i])
    {
      if i < size <= j {
        assert shown[j - size] in shown;
        if i < size - 1 {
          KeyTransitive(all[j], last, all[i]);
        }
      }
    }
  }

  lemma {:induction false} ShownBelongs(tables: seq<set<Key>>, request: Request, list: seq<Key>, shown: seq<Key>,
                                        size: nat, k: Key)
    requires tables != [] && 0 < size < |list| && Lists(list, Before(tables[0], request.cursor))
    requires forall l | l in shown :: KeyLess(l, list[size - 1]) && InSome(tables[1..], l)
    requires k in list[..size] + shown
    ensures Past(request, k) && InSome(tables, k)
  {
    hide KeyLess, Sorted;
    var last := list[size - 1];
    assert last in list;
    if k in list[..size] {
      assert k in list;
      assert k in tables[0];
    } else {
      assert k in shown;
      var i :| 0 <= i < |tables[1..]| && k in tables[1..][i];
      assert k in tables[i + 1];
      if request.cursor.Some? {
        KeyTransitive(k, last, request.cursor.value);
      }
    }
  }

  /** A post that is there throughout is on this page or wanted from the pages after it. */
  lemma {:induction false} StaysShown(tables: seq<set<Key>>, request: Request, list: seq<Key>, size: nat, k: Key)
    requires tables != [] && 0 < size < |list| && Lists(list, Before(tables[0], request.cursor))
    requires InAll(tables, k) && Past(request, k)
    ensures k in list[..size] || (InAll(tables[1..], k) && KeyLess(k, list[size - 1]))
  {
    hide KeyLess;
    assert k in tables[0] && k in list;
    var i :| 0 <= i < |list| && list[i] == k;
    if i < size {
      assert list[..size][i] == k;
    } else {
      assert KeyLess(list[i], list[size - 1]);
      assert forall j | 0 <= j < |tables[1..]| :: tables[1..][j] == tables[j + 1];
    }
  }

  /** What stayed where it was has been shown exactly once. */
  lemma {:induction false} WhatStaysIsShownOnce(tables: seq<set<Key>>, limit: int, k: Key)
    requires Readable(tables) && InAll(tables, k) && Follow(tables, Request(None, limit)).1
    ensures var shown := Follow(tables, Request(None, limit)).0;
            exists i :: 0 <= i < |shown| && shown[i] == k && forall j | 0 <= j < |shown| && shown[j] == k :: j == i
  {
    FollowingIsSound(tables, Request(None, limit));
    var shown := Follow(tables, Request(None, limit)).0;
    assert k in shown;
    var i :| 0 <= i < |shown| && shown[i] == k;
    KeyTotal(k, k);
    assert forall j | 0 <= j < |shown| && shown[j] == k :: j == i;
  }

  // --- a table that does not change

  ghost function Same(table: set<Key>, n: nat): seq<set<Key>> {
    seq(n, _ => table)
  }

  /** The row the `n`th page starts at. */
  function Start(n: nat, size: nat): nat {
    if n == 0 then 0 else Start(n - 1, size) + size
  }

  /** The request an unchanging list's row `p` on is asked for with. */
  function At(list: seq<Key>, p: nat, limit: int): Request
    requires p <= |list|
  {
    if p == 0 then Request(None, limit) else Older(list[p - 1], Limit(limit))
  }

  /** A link leads to the `n`th page, and its cursor comes through. */
  ghost predicate Reaches(list: seq<Key>, size: nat, n: nat) {
    0 < n && 0 < Start(n, size) < |list| && Carries(list[Start(n, size) - 1])
  }

  ghost predicate EveryLinkCarries(list: seq<Key>, size: nat) {
    forall n: nat | 0 < n && 0 < Start(n, size) < |list| :: Reaches(list, size, n)
  }

  lemma {:induction false} TailLists(table: set<Key>, p: nat, limit: int)
    requires var list := Descending(table); p == 0 || (p < |list| && Carries(list[p - 1]))
    ensures Lists(Descending(table)[p..], Before(table, At(Descending(table), p, limit).cursor))
  {
    var list := Descending(table);
    DescendingLists(table);
    var rest := list[p..];
    forall k
      ensures k in rest <==> k in Before(table, At(list, p, limit).cursor)
    {
      if p > 0 && k in list {
        var i :| 0 <= i < |list| && list[i] == k;
        KeyTotal(list[i], list[p - 1]);
        assert i >= p ==> rest[i - p] == k;
      }
    }
  }

  /** A page of an unchanging list. */
  lemma {:induction false} PageAt(table: set<Key>, p: nat, limit: int)
    requires var list := Descending(table); p == 0 || (p < |list| && Carries(list[p - 1]))
    ensures var list, size := Descending(table), Limit(limit);
            Browse(table, At(list, p, limit)) ==
            if |list| <= p + size then Page(list[p..], None)
            else Page(list[p..p + size], Some(At(list, p + size, limit)))
  {
    hide Descending, Browse, Lists, Before;
    var list, size := Descending(table), Limit(limit);
    TailLists(table, p, limit);
    BrowseAt(table, At(list, p, limit), list[p..]);
    if |list| > p + size {
      assert list[p..][..size] == list[p..p + size];
    }
  }

  lemma {:induction false} FollowSame(table: set<Key>, n: nat, request: Request)
    requires n > 0
    ensures var page := Browse(table, request);
            Follow(Same(table, n), request) ==
            if page.older.None? then (page.shown, true)
            else var rest := Follow(Same(table, n - 1), page.older.value); (page.shown + rest.0, rest.1)
  {
    hide Browse;
    assert Same(table, n)[1..] == Same(table, n - 1);
  }

  /** Following the links from row `p`: its page, then the rest. */
  lemma {:induction false} FollowFrom(table: set<Key>, p: nat, limit: int, n: nat)
    requires var list := Descending(table); p == 0 || (p < |list| && Carries(list[p - 1]))
    requires n > 0
    ensures var list, next := Descending(table), p + Limit(limit);
            Follow(Same(table, n), At(list, p, limit)) ==
            if |list| <= next then (list[p..], true)
            else var rest := Follow(Same(table, n - 1), At(list, next, limit)); (list[p..next] + rest.0, rest.1)
  {
    hide *;
    PageAt(table, p, limit);
    FollowSame(table, n, At(Descending(table), p, limit));
  }

  /** `p` is where the `i`th page of the list starts, and a link leads there. */
  ghost predicate IsPage(table: set<Key>, list: seq<Key>, i: nat, p: nat, size: nat) {
    list == Descending(table) && p == Start(i, size) && (i == 0 || Reaches(list, size, i))
  }

  lemma {:induction false} PageFacts(table: set<Key>, list: seq<Key>, i: nat, p: nat, size: nat)
    requires IsPage(table, list, i, p, size)
    ensures list == Descending(table)
    ensures p == 0 || (p < |list| && Carries(list[p - 1]))
  {
  }

  lemma {:induction false} NextPage(table: set<Key>, list: seq<Key>, i: nat, p: nat, size: nat)
    requires IsPage(table, list, i, p, size) && 0 < p + size < |list|
    ensures Carries(list[p + size - 1]) ==> IsPage(table, list, i + 1, p + size, size)
    ensures EveryLinkCarries(list, size) ==> Carries(list[p + size - 1])
  {
    assert Start(i + 1, size) == p + size;
    assert EveryLinkCarries(list, size) ==> Reaches(list, size, i + 1);
  }

  lemma {:induction false} FollowsToTheEnd(table: set<Key>, list: seq<Key>, i: nat, p: nat, limit: int, n: nat)
    requires IsPage(table, list, i, p, Limit(limit)) && p <= |list| && n > |list| - p
             && EveryLinkCarries(list, Limit(limit))
    ensures Follow(Same(table, n), At(list, p, limit)) == (list[p..], true)
    decreases n
  {
    hide *;
    var next := p + Limit(limit);
    PageFacts(table, list, i, p, Limit(limit));
    FollowFrom(table, p, limit, n);
    if |list| > next {
      NextPage(table, list, i, p, Limit(limit));
      FollowsToTheEnd(table, list, i + 1, next, limit, n - 1);
      assert list[p..] == list[p..next] + list[next..];
    }
  }

  /** Asking for a size past the limits is asking for the limit. */
  lemma {:induction false} SameSize(tables: seq<set<Key>>, request: Request, other: Request)
    requires request.cursor == other.cursor && Limit(request.limit) == Limit(other.limit)
    ensures Follow(tables, request) == Follow(tables, other)
  {
    hide Descending, Before, Limit;
    if tables != [] {
      assert Browse(tables[0], request) == Browse(tables[0], other);
    }
  }

  /** With a link ahead that carries nothing, no number of pages is the last: the pages start over. */
  lemma {:induction false} GoesRound(table: set<Key>, list: seq<Key>, i: nat, p: nat, bad: nat, limit: int, n: nat)
    requires IsPage(table, list, i, p, Limit(limit)) && i < bad
    requires 0 < Start(bad, Limit(limit)) < |list| && !Carries(list[Start(bad, Limit(limit)) - 1])
    ensures p <= |list| && !Follow(Same(table, n), At(list, p, limit)).1
    decreases n
  {
    hide *;
    var next := p + Limit(limit);
    PageFacts(table, list, i, p, Limit(limit));
    BadIsAhead(table, list, i, p, bad, Limit(limit));
    if n == 0 {
      NoPages(table, At(list, p, limit));
    } else {
      FollowFrom(table, p, limit, n);
      NextPage(table, list, i, p, Limit(limit));
      StartOver(table, list, next, limit, n - 1);
      GoesRound(table, list, 0, 0, bad, limit, n - 1);
      if Carries(list[next - 1]) {
        GoesRound(table, list, i + 1, next, bad, limit, n - 1);
      }
    }
  }

  lemma {:induction false} NoPages(table: set<Key>, request: Request)
    ensures !Follow(Same(table, 0), request).1
  {
  }

  lemma {:induction false} BadLink(list: seq<Key>, size: nat) returns (bad: nat)
    requires !EveryLinkCarries(list, size)
    ensures 0 < bad && 0 < Start(bad, size) < |list| && !Carries(list[Start(bad, size) - 1])
  {
    bad :| 0 < bad && 0 < Start(bad, size) < |list| && !Reaches(list, size, bad);
  }

  lemma {:induction false} FirstPage(table: set<Key>, limit: int)
    ensures IsPage(table, Descending(table), 0, 0, Limit(limit))
            && At(Descending(table), 0, limit) == Request(None, limit)
    ensures Descending(table)[0..] == Descending(table)
  {
  }

  lemma {:induction false} BadIsAhead(table: set<Key>, list: seq<Key>, i: nat, p: nat, bad: nat, size: nat)
    requires IsPage(table, list, i, p, size) && i < bad
    requires 0 < Start(bad, size) < |list| && !Carries(list[Start(bad, size) - 1])
    ensures IsPage(table, list, 0, 0, size) && p + size < |list|
    ensures i + 1 == bad ==> 0 < p + size && !Carries(list[p + size - 1])
  {
    StartsInOrder(i + 1, bad, size);
    assert Start(i + 1, size) == p + size;
  }

  /** Past a last post that a cursor cannot carry comes the first page again. */
  lemma {:induction false} StartOver(table: set<Key>, list: seq<Key>, next: nat, limit: int, n: nat)
    requires 0 < next <= |list|
    ensures !Carries(list[next - 1]) ==>
              Follow(Same(table, n), At(list, next, limit)) == Follow(Same(table, n), At(list, 0, limit))
  {
    hide Follow;
    if !Carries(list[next - 1]) {
      SameSize(Same(table, n), At(list, next, limit), At(list, 0, limit));
    }
  }

  lemma {:induction false} StartsInOrder(i: nat, j: nat, size: nat)
    requires i <= j
    ensures Start(i, size) <= Start(j, size)
  {
    if i < j {
      StartsInOrder(i, j - 1, size);
    }
  }

  /** Over a table that stays as it is, the pages come to an end exactly when every link's cursor comes through,
      and then they are the whole table, newest first, each post once. */
  lemma {:induction false} PagesShowEverythingOnce(table: set<Key>, limit: int)
    ensures var list := Descending(table);
            && Lists(list, table)
            && (EveryLinkCarries(list, Limit(limit)) <==>
                 exists n: nat :: Follow(Same(table, n), Request(None, limit)).1)
            && (EveryLinkCarries(list, Limit(limit)) ==>
                  forall n: nat | n > |table| :: Follow(Same(table, n), Request(None, limit)) == (list, true))
  {
    hide *;
    var list := Descending(table);
    DescendingLists(table);
    FirstPage(table, limit);
    if EveryLinkCarries(list, Limit(limit)) {
      forall n: nat | n > |table|
        ensures Follow(Same(table, n), Request(None, limit)) == (list, true)
      {
        FollowsToTheEnd(table, list, 0, 0, limit, n);
      }
      assert Follow(Same(table, |table| + 1), Request(None, limit)).1;
    } else {
      var bad := BadLink(list, Limit(limit));
      forall n: nat
        ensures !Follow(Same(table, n), Request(None, limit)).1
      {
        GoesRound(table, list, 0, 0, bad, limit, n);
      }
    }
  }

  predicate NothingEmpty(table: set<Key>) {
    forall k | k in table :: |k.sortAt| > 0 && |k.id| > 0
  }

  /** With no sort text and no id empty, as stored rows have it, following the links shows every post once and ends. */
  lemma {:induction false} StoredPostsPageThrough(table: set<Key>, limit: int, n: nat)
    requires NothingEmpty(table) && n > |table|
    ensures Follow(Same(table, n), Request(None, limit)) == (Descending(table), true)
  {
    DescendingLists(table);
    PagesShowEverythingOnce(table, limit);
    var list := Descending(table);
    assert forall i | 0 <= i < |list| :: list[i] in table;
    hide Follow, Descending, Lists;
  }

  /** Two posts, one to a page, the newer with an empty id: following the links never comes to an end. */
  lemma {:induction false} AnEmptyIdGoesRound(n: nat)
    ensures var table := {Key("2", ""), Key("1", "a")};
            Limit(1) == 1 && !Follow(Same(table, n), Request(None, 1)).1
  {
    var newer, older := Key("2", ""), Key("1", "a");
    var table := {newer, older};
    var list := [newer, older];
    DescendingLists(table);
    ListedOnce(list, Descending(table));
    PagesShowEverythingOnce(table, 1);
    assert Start(1, 1) == 1;
    assert !Reaches(list, 1, 1);
  }
}
