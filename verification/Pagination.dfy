/** Keyset pagination of scenes and of revision histories. */
module Pagination {
  import opened Wrappers
  import opened Sorting

  /** The parent ids a row carries; a history cursor is bound to the first one present. */
  datatype Parents = Parents(sceneId: Option<string>, localizedDialogueId: Option<string>,
                             dialogueTranslationId: Option<string>, glossaryEntryId: Option<string>)

  /** `number` is a scene's ordinal or a revision's number. */
  datatype Row = Row(number: int, id: nat, parents: Parents)

  datatype Cursor = Cursor(resourceId: string, number: int, id: nat)

  /** Scenes of a track in ascending order, or the history of a resource in descending order. */
  datatype Listing = Scenes(resourceId: string) | History(resourceId: string)

  datatype Response = Page(data: seq<Row>, next: Option<Cursor>) | Rejected

  predicate KeyLe(a: Row, b: Row) {
    a.number < b.number || (a.number == b.number && a.id <= b.id)
  }

  predicate KeyGe(a: Row, b: Row) {
    KeyLe(b, a)
  }

  function Order(listing: Listing): (Row, Row) -> bool {
    if listing.Scenes? then KeyLe else KeyGe
  }

  /** The row condition a cursor adds to the query. */
  predicate Where(listing: Listing, cursor: Option<Cursor>, row: Row) {
    cursor.None?
    || if listing.Scenes?
       then row.number > cursor.value.number || (row.id > cursor.value.id && row.number == cursor.value.number)
       else row.number < cursor.value.number || (row.id < cursor.value.id && row.number == cursor.value.number)
  }

  function HistoryResourceId(parents: Parents): Option<string> {
    if parents.sceneId.Some? then parents.sceneId
    else if parents.localizedDialogueId.Some? then parents.localizedDialogueId
    else if parents.dialogueTranslationId.Some? then parents.dialogueTranslationId
    else parents.glossaryEntryId
  }

  function CursorResource(listing: Listing, row: Row): Option<string> {
    if listing.Scenes? then Some(listing.resourceId) else HistoryResourceId(row.parents)
  }

  function Matching(table: seq<Row>, listing: Listing, cursor: Option<Cursor>): seq<Row> {
    if table == [] then []
    else (if Where(listing, cursor, table[0]) then [table[0]] else []) + Matching(table[1..], listing, cursor)
  }

  function Take<T>(s: seq<T>, n: nat): seq<T> {
    if |s| <= n then s else s[..n]
  }

  /** Cuts the page from the queried rows, one more than the limit at most. */
  function Cut(rows: seq<Row>, listing: Listing, limit: nat): Response {
    var page := Take(rows, limit);
    if |rows| > limit && page != [] then
      var last := page[|page| - 1];
      var resource := CursorResource(listing, last);
      if resource.None? then Rejected else Page(page, Some(Cursor(resource.value, last.number, last.id)))
    else Page(page, None)
  }

  /** One request: decode the cursor, query in order, cut the page. */
  function ReadPage(table: seq<Row>, listing: Listing, cursor: Option<Cursor>, limit: nat): Response {
    if cursor.Some? && (cursor.value.resourceId != listing.resourceId || cursor.value.number < 1) then Rejected
    else Cut(Take(Sort(Matching(table, listing, cursor), Order(listing)), limit + 1), listing, limit)
  }

  ghost predicate DistinctKeys(table: seq<Row>) {
    forall i, j :: 0 <= i < j < |table| ==> table[i].number != table[j].number || table[i].id != table[j].id
  }

  /** Rows whose keys tie are the same row. */
  ghost predicate KeysIdentify(table: seq<Row>) {
    forall x, y :: x in table && y in table && x.number == y.number && x.id == y.id ==> x == y
  }

  lemma OrderIsTotal(listing: Listing)
    ensures TotalPreorder(Order(listing))
    ensures forall x, y :: Order(listing)(x, y) && Order(listing)(y, x) ==> x.number == y.number && x.id == y.id
  {
  }

  lemma DistinctKeysIdentify(table: seq<Row>)
    requires DistinctKeys(table)
    ensures KeysIdentify(table) && Distinct(table)
  {
  }

  lemma {:induction false} MatchingMembers(table: seq<Row>, listing: Listing, cursor: Option<Cursor>)
    ensures forall r :: r in Matching(table, listing, cursor) <==> r in table && Where(listing, cursor, r)
    ensures forall r ::
              multiset(Matching(table, listing, cursor))[r]
              == if Where(listing, cursor, r) then multiset(table)[r] else 0
  {
    if table != [] {
      MatchingMembers(table[1..], listing, cursor);
      assert table == [table[0]] + table[1..];
    }
  }

  /** Sorted rows after position `k`, exactly those the cursor of row `k - 1` admits. */
  lemma {:induction false} MatchingSuffix(s: seq<Row>, listing: Listing, k: nat, resource: string)
    requires Sorted(s, Order(listing)) && DistinctKeys(s) && 0 < k <= |s|
    ensures forall i :: 0 <= i < |s| ==>
      (Where(listing, Some(Cursor(resource, s[k - 1].number, s[k - 1].id)), s[i]) <==> i >= k)
  {
    forall i | 0 <= i < |s|
      ensures Where(listing, Some(Cursor(resource, s[k - 1].number, s[k - 1].id)), s[i]) <==> i >= k
    {
      if i < k - 1 { assert Order(listing)(s[i], s[k - 1]); }
      if i >= k { assert Order(listing)(s[k - 1], s[i]); }
    }
  }

  lemma SortedDistinctKeys(table: seq<Row>, s: seq<Row>)
    requires DistinctKeys(table) && multiset(table) == multiset(s)
    ensures DistinctKeys(s)
  {
    DistinctKeysIdentify(table);
    DistinctOfPermutation(table, s);
    SameElements(table, s);
    forall i, j | 0 <= i < j < |s| ensures s[i].number != s[j].number || s[i].id != s[j].id {
      assert s[i] in table && s[j] in table && s[i] != s[j];
    }
  }

  lemma {:induction false} SuffixCounts(s: seq<Row>, listing: Listing, cursor: Option<Cursor>, k: nat)
    requires k <= |s| && forall i :: 0 <= i < |s| ==> (Where(listing, cursor, s[i]) <==> i >= k)
    ensures Matching(s, listing, cursor) == s[k..]
  {
    if s != [] {
      forall i | 0 <= i < |s| - 1 ensures Where(listing, cursor, s[1..][i]) <==> i >= (if k == 0 then 0 else k - 1) {
        assert Where(listing, cursor, s[i + 1]) <==> i + 1 >= k;
      }
      SuffixCounts(s[1..], listing, cursor, if k == 0 then 0 else k - 1);
    }
  }

  lemma {:induction false} NoCursorMatchesAll(table: seq<Row>, listing: Listing)
    ensures Matching(table, listing, None) == table
  {
    if table != [] { NoCursorMatchesAll(table[1..], listing); }
  }

  lemma {:induction false} MatchingConcat(a: seq<Row>, b: seq<Row>, listing: Listing, cursor: Option<Cursor>)
    ensures Matching(a + b, listing, cursor) == Matching(a, listing, cursor) + Matching(b, listing, cursor)
  {
    if a == [] {
      assert a + b == b;
    } else {
      var head := if Where(listing, cursor, a[0]) then [a[0]] else [];
      assert (a + b)[1..] == a[1..] + b;
      MatchingConcat(a[1..], b, listing, cursor);
      Regroup(head, Matching(a[1..], listing, cursor), Matching(b, listing, cursor));
    }
  }

  lemma Regroup<T>(a: seq<T>, b: seq<T>, c: seq<T>)
    ensures a + (b + c) == (a + b) + c
  {
  }

  /** The number a new revision gets: one more than the largest so far. */
  function NextNumber(table: seq<Row>): (r: int)
    requires forall x :: x in table ==> x.number >= 1
    ensures r >= 1 && forall x :: x in table ==> x.number < r
    ensures r == 1 || exists x :: x in table && x.number == r - 1
  {
    if table == [] then 1
    else
      var rest := NextNumber(table[1..]);
      assert table == [table[0]] + table[1..];
      if table[0].number < rest then rest else
        assert table[0] in table;
        table[0].number + 1
  }

  ghost predicate Numbered(table: seq<Row>) {
    forall x :: x in table ==> x.number >= 1
  }

  ghost predicate NumberedNext(table: seq<Row>, i: nat)
    requires i < |table| && Numbered(table)
  {
    table[i].number == NextNumber(table[..i])
  }

  /** `table` is what `base` has become: a history may have gained revisions, the scenes of a track stay. */
  ghost predicate GrownFrom(base: seq<Row>, table: seq<Row>, listing: Listing) {
    && Numbered(table)
    && base <= table
    && (listing.Scenes? ==> table == base)
    && forall i :: |base| <= i < |table| ==> NumberedNext(table, i)
  }

  ghost predicate CursorOf(cursor: Option<Cursor>, s: seq<Row>, listing: Listing, k: nat)
    requires k <= |s|
  {
    if k == 0 then cursor == None
    else cursor == Some(Cursor(listing.resourceId, s[k - 1].number, s[k - 1].id))
  }

  lemma AppendedNumber(base: seq<Row>, table: seq<Row>, listing: Listing, row: Row, i: nat)
    requires GrownFrom(base, table, listing) && row in base && |base| <= i < |table|
    ensures listing.History? && table[i].number > row.number
  {
    var before := table[..i];
    assert NumberedNext(table, i);
    var j :| 0 <= j < |base| && base[j] == row;
    assert before[j] == row;
  }

  lemma {:induction false} NothingMatches(newer: seq<Row>, listing: Listing, cursor: Option<Cursor>)
    requires forall i :: 0 <= i < |newer| ==> !Where(listing, cursor, newer[i])
    ensures Matching(newer, listing, cursor) == []
  {
    if newer != [] {
      NothingMatches(newer[1..], listing, cursor);
    }
  }

  lemma GrownRowsAreHidden(base: seq<Row>, table: seq<Row>, listing: Listing, cursor: Option<Cursor>, row: Row)
    requires GrownFrom(base, table, listing) && cursor.Some? && row in base && row.number == cursor.value.number
    ensures Matching(table, listing, cursor) == Matching(base, listing, cursor)
  {
    var newer := table[|base|..];
    assert table == base + newer;
    forall i | 0 <= i < |newer| ensures !Where(listing, cursor, newer[i]) {
      AppendedNumber(base, table, listing, row, |base| + i);
    }
    NothingMatches(newer, listing, cursor);
    MatchingConcat(base, newer, listing, cursor);
  }

  lemma SuffixOfSorted(s: seq<Row>, m: seq<Row>, k: nat, listing: Listing)
    requires k <= |s| && Sorted(s, Order(listing)) && DistinctKeys(s) && multiset(m) == multiset(s[k..])
    ensures Sort(m, Order(listing)) == s[k..]
  {
    var le := Order(listing);
    OrderIsTotal(listing);
    SortSorts(m, le);
    DistinctKeysIdentify(s);
    forall x | x in s[k..] ensures x in s { }
    SortedUnique(s[k..], Sort(m, le), le);
  }

  lemma MatchingPermutes(a: seq<Row>, b: seq<Row>, listing: Listing, cursor: Option<Cursor>)
    requires multiset(a) == multiset(b)
    ensures multiset(Matching(a, listing, cursor)) == multiset(Matching(b, listing, cursor))
  {
    MatchingMembers(a, listing, cursor);
    MatchingMembers(b, listing, cursor);
    var x, y := multiset(Matching(a, listing, cursor)), multiset(Matching(b, listing, cursor));
    assert forall r :: x[r] == y[r];
  }

  /** What the query sees after `k` rows of the first snapshot, whatever was added since. */
  lemma RowsAfter(base: seq<Row>, table: seq<Row>, listing: Listing, cursor: Option<Cursor>, k: nat)
    requires DistinctKeys(base) && k <= |base| && GrownFrom(base, table, listing)
    requires k == 0 ==> table == base
    requires CursorOf(cursor, Sort(base, Order(listing)), listing, k)
    ensures Sort(Matching(table, listing, cursor), Order(listing)) == Sort(base, Order(listing))[k..]
  {
    var le, s := Order(listing), Sort(base, Order(listing));
    OrderIsTotal(listing);
    SortSorts(base, le);
    SortedDistinctKeys(base, s);
    if k == 0 {
      NoCursorMatchesAll(table, listing);
      assert s[k..] == s;
    } else {
      SameElements(base, s);
      GrownRowsAreHidden(base, table, listing, cursor, s[k - 1]);
      MatchingSuffix(s, listing, k, listing.resourceId);
      SuffixCounts(s, listing, cursor, k);
      MatchingPermutes(base, s, listing, cursor);
      SuffixOfSorted(s, Matching(base, listing, cursor), k, listing);
    }
  }

  /** What the `i`-th request of a client is answered, given its cursor: `tables[i]` is the table at that time. */
  function Reader(tables: seq<seq<Row>>, listing: Listing, limit: nat): (nat, Option<Cursor>) -> Response {
    (i: nat, cursor: Option<Cursor>) => if i < |tables| then ReadPage(tables[i], listing, cursor, limit) else Rejected
  }

  /** Requests `i` to `n - 1`, each with the cursor of the page before, until a cursor is null. */
  function Requests(read: (nat, Option<Cursor>) -> Response, n: nat, i: nat, cursor: Option<Cursor>): seq<Response>
    decreases n - i
  {
    if i >= n then []
    else
      var r := read(i, cursor);
      [r] + if r.Page? && r.next.Some? then Requests(read, n, i + 1, r.next) else []
  }

  /** Reads pages until the cursor is null; the reads stop early when `tables` runs out. */
  function Follow(tables: seq<seq<Row>>, listing: Listing, limit: nat): seq<Response> {
    Requests(Reader(tables, listing, limit), |tables|, 0, None)
  }

  function Data(responses: seq<Response>): seq<Row> {
    if responses == [] then []
    else (if responses[0].Page? then responses[0].data else []) + Data(responses[1..])
  }

  /** The client saw a null cursor. */
  predicate Ended(responses: seq<Response>) {
    responses != [] && var last := responses[|responses| - 1]; last.Page? && last.next.None?
  }

  /** Every cursor this listing hands out is one it accepts. */
  ghost predicate OwnCursors(base: seq<Row>, listing: Listing) {
    forall r :: r in base ==> CursorResource(listing, r) == Some(listing.resourceId)
  }

  ghost predicate Session(base: seq<Row>, tables: seq<seq<Row>>, listing: Listing) {
    && DistinctKeys(base)
    && forall i :: 0 <= i < |tables| ==> GrownFrom(base, tables[i], listing)
  }

  function Smaller(a: int, b: int): int {
    if a <= b then a else b
  }

  function CursorAfter(listing: Listing, s: seq<Row>, e: nat): Option<Cursor>
    requires 0 < e <= |s| && CursorResource(listing, s[e - 1]).Some?
  {
    Some(Cursor(CursorResource(listing, s[e - 1]).value, s[e - 1].number, s[e - 1].id))
  }

  /** `r` carries the next `limit` rows of `s` from row `k` on, and a cursor exactly when rows remain. */
  ghost predicate PageOf(r: Response, s: seq<Row>, listing: Listing, k: nat, limit: nat)
    requires k <= |s| && limit >= 1
  {
    if k + limit >= |s| then r == Page(s[k..], None)
    else if CursorResource(listing, s[k + limit - 1]).None? then r == Rejected
    else r == Page(s[k..k + limit], CursorAfter(listing, s, k + limit))
  }

  lemma CutAt(s: seq<Row>, listing: Listing, k: nat, limit: nat)
    requires k <= |s| && limit >= 1
    ensures PageOf(Cut(Take(s[k..], limit + 1), listing, limit), s, listing, k, limit)
  {
    var rows := Take(s[k..], limit + 1);
    if k + limit < |s| {
      assert |rows| == limit + 1;
      assert Take(rows, limit) == s[k..k + limit];
    } else {
      assert rows == s[k..];
    }
  }

  /** One page, whatever revisions were appended since the first one was read. */
  lemma PageAt(base: seq<Row>, table: seq<Row>, listing: Listing, cursor: Option<Cursor>, s: seq<Row>, k: nat,
               limit: nat)
    requires DistinctKeys(base) && k <= |base| && GrownFrom(base, table, listing) && limit >= 1
    requires k == 0 ==> table == base
    requires s == Sort(base, Order(listing)) && CursorOf(cursor, s, listing, k)
    ensures PageOf(ReadPage(table, listing, cursor, limit), s, listing, k, limit)
  {
    RowsAfter(base, table, listing, cursor, k);
    if k > 0 {
      SameElements(base, s);
      assert s[k - 1] in base && base <= table;
    }
    CutAt(s, listing, k, limit);
    assert ReadPage(table, listing, cursor, limit) == Cut(Take(s[k..], limit + 1), listing, limit);
  }

  /** The rows that `pages` full pages hold. */
  function RowsIn(pages: nat, limit: nat): nat {
    if pages == 0 then 0 else RowsIn(pages - 1, limit) + limit
  }

  lemma {:induction false} RowsInProduct(pages: nat, limit: nat)
    ensures RowsIn(pages, limit) == pages * limit
  {
    if pages > 0 { RowsInProduct(pages - 1, limit); }
  }

  /** At most `requests` responses that read `s` from row `k` on, in order and without a gap. */
  ghost predicate Followed(rs: seq<Response>, requests: nat, s: seq<Row>, k: nat, limit: nat)
    requires k <= |s|
  {
    && |rs| <= requests
    && (requests > 0 ==> rs != [])
    && Data(rs) == s[k..Smaller(|s|, k + RowsIn(|rs|, limit))]
    && (Ended(rs) <==> rs != [] && k + RowsIn(|rs|, limit) >= |s|)
    && (rs != [] ==> |rs| == 1 || k + RowsIn(|rs| - 1, limit) < |s|)
    && (!Ended(rs) ==> |rs| == requests)
  }

  lemma FollowStep(s: seq<Row>, r: Response, rest: seq<Response>, requests: nat, k: nat, limit: nat)
    requires r.Page? && k + limit < |s| && r.data == s[k..k + limit] && r.next.Some?
    requires requests > 0 && Followed(rest, requests - 1, s, k + limit, limit)
    ensures Followed([r] + rest, requests, s, k, limit)
  {
    var rs := [r] + rest;
    assert rs[1..] == rest;
    assert RowsIn(|rs|, limit) == RowsIn(|rest|, limit) + limit;
    if rest != [] {
      assert rs[|rs| - 1] == rest[|rest| - 1];
      assert RowsIn(|rs| - 1, limit) == RowsIn(|rest| - 1, limit) + limit;
    }
  }

  lemma FollowLast(s: seq<Row>, r: Response, requests: nat, k: nat, limit: nat)
    requires requests > 0 && k <= |s| && k + limit >= |s| && r == Page(s[k..], None)
    ensures Followed([r], requests, s, k, limit)
  {
    assert Data([r]) == r.data + Data([r][1..]);
    assert RowsIn(1, limit) == RowsIn(0, limit) + limit;
  }

  lemma OwnNextCursor(base: seq<Row>, r: Response, s: seq<Row>, listing: Listing, k: nat, limit: nat)
    requires OwnCursors(base, listing) && multiset(s) == multiset(base)
    requires limit >= 1 && k + limit < |s| && PageOf(r, s, listing, k, limit)
    ensures r.Page? && r.data == s[k..k + limit] && r.next.Some? && CursorOf(r.next, s, listing, k + limit)
  {
    SameElements(base, s);
    assert s[k + limit - 1] in base;
  }

  /** Each response carries the rows of `s` that are due, and the last one read to the end has no cursor. */
  ghost predicate Due(rs: seq<Response>, requests: nat, s: seq<Row>, k: nat, limit: nat)
    decreases |rs|
  {
    k <= |s|
    && if requests == 0 then rs == []
       else
         && rs != []
         && rs[0].Page?
         && if k + limit < |s|
            then rs[0].data == s[k..k + limit] && rs[0].next.Some? && Due(rs[1..], requests - 1, s, k + limit, limit)
            else rs == [Page(s[k..], None)]
  }

  /** Reading `limit` due rows and following the cursor. */
  ghost predicate ReadOn(rs: seq<Response>, r: Response, rest: seq<Response>, s: seq<Row>, k: nat, limit: nat) {
    rs == [r] + rest && k + limit < |s| && r.Page? && r.data == s[k..k + limit] && r.next.Some?
  }

  lemma DueMore(rs: seq<Response>, r: Response, rest: seq<Response>, requests: nat, s: seq<Row>, k: nat, limit: nat)
    requires ReadOn(rs, r, rest, s, k, limit) && requests > 0
    requires Due(rest, requests - 1, s, k + limit, limit)
    ensures Due(rs, requests, s, k, limit)
  {
    assert rs[1..] == rest;
  }

  /** The answer to a request with the cursor of row `k - 1`: the rows that are due from row `k` on. */
  ghost predicate IsDue(r: Response, listing: Listing, s: seq<Row>, k: nat, limit: nat) {
    if k + limit < |s| then
      r.Page? && r.data == s[k..k + limit] && r.next.Some? && CursorOf(r.next, s, listing, k + limit)
    else k <= |s| && r == Page(s[k..], None)
  }

  ghost predicate ReadsDue(read: (nat, Option<Cursor>) -> Response, n: nat, listing: Listing, s: seq<Row>, limit: nat) {
    forall i: nat, cursor: Option<Cursor>, k: nat ::
      i < n && k <= |s| && (k == 0 ==> i == 0) && CursorOf(cursor, s, listing, k) ==>
        IsDue(read(i, cursor), listing, s, k, limit)
  }

  lemma SessionReadsDue(base: seq<Row>, tables: seq<seq<Row>>, listing: Listing, s: seq<Row>, limit: nat)
    requires Session(base, tables, listing) && OwnCursors(base, listing) && limit >= 1
    requires s == Sort(base, Order(listing)) && (tables != [] ==> tables[0] == base)
    ensures ReadsDue(Reader(tables, listing, limit), |tables|, listing, s, limit)
  {
    forall i: nat, cursor: Option<Cursor>, k: nat
      | i < |tables| && k <= |s| && (k == 0 ==> i == 0) && CursorOf(cursor, s, listing, k)
      ensures IsDue(Reader(tables, listing, limit)(i, cursor), listing, s, k, limit)
    {
      PageAt(base, tables[i], listing, cursor, s, k, limit);
      if k + limit < |s| { OwnNextCursor(base, ReadPage(tables[i], listing, cursor, limit), s, listing, k, limit); }
    }
  }

  lemma {:induction false} PagesDue(read: (nat, Option<Cursor>) -> Response, n: nat, i: nat, listing: Listing,
                                    cursor: Option<Cursor>, s: seq<Row>, k: nat, limit: nat)
    requires ReadsDue(read, n, listing, s, limit) && limit >= 1 && i <= n
    requires k <= |s| && (k == 0 ==> i == 0) && CursorOf(cursor, s, listing, k)
    ensures Due(Requests(read, n, i, cursor), n - i, s, k, limit)
    decreases n - i
  {
    if i < n {
      var r := read(i, cursor);
      assert IsDue(r, listing, s, k, limit);
      if k + limit < |s| {
        PagesDue(read, n, i + 1, listing, r.next, s, k + limit, limit);
        DueMore(Requests(read, n, i, cursor), r, Requests(read, n, i + 1, r.next), n - i, s, k, limit);
      }
    }
  }

  /** Following cursors from row `k` on. */
  lemma {:induction false} FollowFrom(rs: seq<Response>, requests: nat, s: seq<Row>, k: nat, limit: nat)
    requires (k < |s| || k == 0) && Due(rs, requests, s, k, limit)
    ensures Followed(rs, requests, s, k, limit)
    decreases |rs|
  {
    if requests > 0 {
      if k + limit < |s| {
        FollowFrom(rs[1..], requests - 1, s, k + limit, limit);
        FollowStep(s, rs[0], rs[1..], requests, k, limit);
        assert rs == [rs[0]] + rs[1..];
      } else {
        FollowLast(s, rs[0], requests, k, limit);
      }
    }
  }

  /** `responses` to at most `requests` requests return all of `s` once, in max(1, ceil(|s| / limit)) pages. */
  ghost predicate ReadOnce(responses: seq<Response>, requests: nat, s: seq<Row>, limit: nat) {
    && Data(responses) == s[..Smaller(|s|, |responses| * limit)]
    && (Ended(responses) <==> requests * limit >= |s|)
    && (Ended(responses) ==>
          && Data(responses) == s
          && |responses| * limit >= |s|
          && (|responses| == 1 || (|responses| - 1) * limit < |s|))
  }

  lemma WholeRun(s: seq<Row>, rs: seq<Response>, requests: nat, limit: nat)
    requires limit >= 1 && requests > 0 && Followed(rs, requests, s, 0, limit)
    ensures ReadOnce(rs, requests, s, limit)
  {
    RowsInProduct(|rs|, limit);
    RowsInProduct(|rs| - 1, limit);
    assert s[0..Smaller(|s|, |rs| * limit)] == s[..Smaller(|s|, |rs| * limit)];
    if Ended(rs) {
      Multiples(requests, |rs|, limit);
      assert s[..|s|] == s;
    }
  }

  lemma Multiples(a: nat, b: nat, limit: nat)
    requires a >= b
    ensures a * limit >= b * limit
  {
  }

  /** Following the cursor reads the first snapshot once and in order, never a row appended since. */
  lemma FollowingReadsTheSnapshot(base: seq<Row>, tables: seq<seq<Row>>, listing: Listing, limit: nat)
    requires Session(base, tables, listing) && OwnCursors(base, listing) && limit >= 1
    requires tables != [] && tables[0] == base
    ensures ReadOnce(Follow(tables, listing, limit), |tables|, Sort(base, Order(listing)), limit)
  {
    var s := Sort(base, Order(listing));
    SessionReadsDue(base, tables, listing, s, limit);
    RequestsReadOnce(Reader(tables, listing, limit), |tables|, listing, s, limit);
  }

  lemma RequestsReadOnce(read: (nat, Option<Cursor>) -> Response, n: nat, listing: Listing, s: seq<Row>, limit: nat)
    requires ReadsDue(read, n, listing, s, limit) && limit >= 1 && n > 0
    ensures ReadOnce(Requests(read, n, 0, None), n, s, limit)
  {
    PagesDue(read, n, 0, listing, None, s, 0, limit);
    FollowFrom(Requests(read, n, 0, None), n, s, 0, limit);
    WholeRun(s, Requests(read, n, 0, None), n, limit);
  }

  /** The resource of a row is its scene, or else its dialogue, or else its translation, or else its glossary entry. */
  lemma ResourceIsFirstParent(p: Parents)
    ensures HistoryResourceId(p) ==
            match p
            case Parents(Some(scene), _, _, _) => Some(scene)
            case Parents(None, Some(dialogue), _, _) => Some(dialogue)
            case Parents(None, None, Some(translation), _) => Some(translation)
            case Parents(None, None, None, entry) => entry
  {
  }

  /** Scene lists, and the histories of scenes, source dialogues and glossary entries, take their own cursors back. */
  lemma OtherListingsAcceptTheirCursors(base: seq<Row>, listing: Listing)
    requires listing.History? ==> forall r :: r in base ==>
      || r.parents.sceneId == Some(listing.resourceId)
      || (r.parents.sceneId.None? && r.parents.localizedDialogueId == Some(listing.resourceId))
      || r.parents == Parents(None, None, None, Some(listing.resourceId))
    ensures OwnCursors(base, listing)
  {
  }

  /** The rows of a translation's history: each names its dialogue as well as its translation, and no scene. */
  ghost predicate TranslationRows(base: seq<Row>, dialogueId: string, translationId: string) {
    forall r :: r in base ==>
      && r.parents.sceneId == None
      && r.parents.localizedDialogueId == Some(dialogueId)
      && r.parents.dialogueTranslationId == Some(translationId)
  }

  lemma RejectedAtOnce(tables: seq<seq<Row>>, listing: Listing, first: Response, limit: nat)
    requires |tables| >= 2 && first == ReadPage(tables[0], listing, None, limit)
    requires first.Page? && first.next.Some? && first.next.value.resourceId != listing.resourceId
    ensures Follow(tables, listing, limit) == [first, Rejected]
  {
    var read := Reader(tables, listing, limit);
    assert read(1, first.next) == Rejected;
    assert Requests(read, |tables|, 1, first.next) == [Rejected];
    assert Follow(tables, listing, limit) == [first] + [Rejected];
  }

  lemma FirstPageOf(r: Response, s: seq<Row>, listing: Listing, limit: nat)
    requires limit >= 1 && PageOf(r, s, listing, 0, limit)
    ensures |s| <= limit ==> r == Page(s, None)
    ensures |s| > limit && CursorResource(listing, s[limit - 1]).Some? ==>
      r == Page(s[..limit], CursorAfter(listing, s, limit))
  {
    assert s[0..] == s;
    assert limit <= |s| ==> s[0..limit] == s[..limit];
  }

  /** The first page of any list: all of it, or the first rows and a cursor naming the last row's resource. */
  lemma FirstPage(base: seq<Row>, listing: Listing, s: seq<Row>, limit: nat)
    requires DistinctKeys(base) && Numbered(base) && limit >= 1 && s == Sort(base, Order(listing))
    ensures PageOf(ReadPage(base, listing, None, limit), s, listing, 0, limit)
  {
    PageAt(base, base, listing, None, s, 0, limit);
  }

  /** The first page of a translation's history; its cursor names the dialogue. */
  lemma TranslationFirstPage(base: seq<Row>, dialogueId: string, translationId: string, limit: nat)
    requires DistinctKeys(base) && Numbered(base) && TranslationRows(base, dialogueId, translationId) && limit >= 1
    ensures var first := ReadPage(base, History(translationId), None, limit);
            && first.Page?
            && if |base| <= limit then first.next == None
               else first.next.Some? && first.next.value.resourceId == dialogueId
  {
    var listing := History(translationId);
    var s := Sort(base, Order(listing));
    FirstPage(base, listing, s, limit);
    FirstPageOf(ReadPage(base, listing, None, limit), s, listing, limit);
    if |base| > limit { TranslationCursor(base, s, dialogueId, translationId, limit - 1); }
  }

  lemma TranslationCursor(base: seq<Row>, s: seq<Row>, dialogueId: string, translationId: string, i: nat)
    requires multiset(s) == multiset(base) && TranslationRows(base, dialogueId, translationId) && i < |s|
    ensures CursorResource(History(translationId), s[i]) == Some(dialogueId)
  {
    SameElements(base, s);
    assert s[i] in base;
  }

  /** A translation's cursor names the dialogue while the reader expects the translation: page two is refused. */
  lemma TranslationSecondPageRejected(base: seq<Row>, tables: seq<seq<Row>>, dialogueId: string, translationId: string,
                                      limit: nat)
    requires Session(base, tables, History(translationId)) && TranslationRows(base, dialogueId, translationId)
    requires limit >= 1 && |tables| >= 2 && tables[0] == base && dialogueId != translationId && |base| > limit
    ensures Follow(tables, History(translationId), limit)
      == [ReadPage(base, History(translationId), None, limit), Rejected]
  {
    assert GrownFrom(base, tables[0], History(translationId));
    TranslationFirstPage(base, dialogueId, translationId, limit);
    RejectedAtOnce(tables, History(translationId), ReadPage(base, History(translationId), None, limit), limit);
  }

  /** Exactly when a translation's history can be read to its end. */
  lemma TranslationHistoryReadable(base: seq<Row>, tables: seq<seq<Row>>, dialogueId: string, translationId: string,
                                   limit: nat)
    requires Session(base, tables, History(translationId)) && TranslationRows(base, dialogueId, translationId)
    requires limit >= 1 && |tables| >= 2 && tables[0] == base && |tables| * limit >= |base|
    ensures Ended(Follow(tables, History(translationId), limit)) <==> |base| <= limit || dialogueId == translationId
  {
    var listing := History(translationId);
    if dialogueId == translationId {
      FollowingReadsTheSnapshot(base, tables, listing, limit);
    } else if |base| > limit {
      TranslationSecondPageRejected(base, tables, dialogueId, translationId, limit);
    } else {
      assert GrownFrom(base, tables[0], listing);
      TranslationFirstPage(base, dialogueId, translationId, limit);
      assert Follow(tables, listing, limit) == [ReadPage(base, listing, None, limit)];
    }
  }
}
