/** Keyset pagination of a boundary's assessment runs, and the walk a client makes by following next_cursor. */
module EvidencePagination {
  import opened Common

  datatype Run = Run(boundary: int, createdAt: int)

  /** nist_assessment_runs by id. */
  type Table = map<int, Run>

  /** (created_at, id): what the query sorts by and what a cursor holds. */
  type Key = (int, int)

  datatype Page = Page(items: seq<Key>, limit: int, next: Option<Key>)

  const MAX_PAGE := 50

  function Matching(table: Table, boundary: int, before: Option<Key>): set<Key> {
    set id | id in table && table[id].boundary == boundary && (before.None? || Before((table[id].createdAt, id), before.value)) ::
      (table[id].createdAt, id)
  }

  predicate IsTop(keys: set<Key>, top: Key) {
    top in keys && forall other :: other in keys && other != top ==> Before(other, top)
  }

  lemma {:induction false} TopExists(keys: set<Key>)
    requires keys != {}
    ensures exists top :: IsTop(keys, top)
    decreases keys
  {
    var pick :| pick in keys;
    var rest := keys - {pick};
    assert forall key :: key in keys ==> key == pick || key in rest;
    if rest == {} {
      assert IsTop(keys, pick);
    } else {
      TopExists(rest);
      var top :| IsTop(rest, top);
      assert IsTop(keys, if Before(top, pick) then pick else top);
    }
  }

  ghost predicate StrictlyDescending(d: seq<Key>) {
    forall i, j :: 0 <= i < j < |d| ==> Before(d[j], d[i])
  }

  ghost predicate Lists(d: seq<Key>, keys: set<Key>) {
    StrictlyDescending(d) && forall key :: key in d <==> key in keys
  }

  lemma {:induction false} ListingExists(keys: set<Key>)
    ensures exists d :: Lists(d, keys)
    decreases keys
  {
    if keys == {} {
      assert Lists([], keys);
    } else {
      TopExists(keys);
      var top :| IsTop(keys, top);
      ListingExists(keys - {top});
      var d :| Lists(d, keys - {top});
      assert Lists([top] + d, keys) by {
        assert forall i :: 0 <= i < |d| ==> d[i] in keys - {top};
      }
    }
  }

  /** ORDER BY created_at DESC, id DESC; DescendingIsUnique says there is only one such listing. */
  ghost function Descending(keys: set<Key>): (d: seq<Key>)
    ensures Lists(d, keys)
  {
    ListingExists(keys);
    var d :| Lists(d, keys);
    d
  }

  function SafeLimit(limit: int): (n: int)
    ensures 1 <= n <= MAX_PAGE
  {
    Clamp(1, limit, MAX_PAGE)
  }

  /** list_boundary_runs: one row more than the page is fetched to learn whether there is a next page. */
  ghost function ListBoundaryRuns(table: Table, boundary: int, limit: int, beforeCreatedAt: Option<int>, beforeId: Option<int>): Result<Page> {
    if beforeCreatedAt.None? != beforeId.None? then Err("before_created_at and before_id must be provided together")
    else
      var n := SafeLimit(limit);
      var cursor := if beforeId.Some? then Some((beforeCreatedAt.value, beforeId.value)) else None;
      var sorted := Descending(Matching(table, boundary, cursor));
      var rows := sorted[..Min(n + 1, |sorted|)];
      var items := rows[..Min(n, |rows|)];
      Ok(Page(items, n, if |rows| > n then Some(items[|items| - 1]) else None))
  }

  ghost function PageAt(table: Table, boundary: int, limit: int, cursor: Option<Key>): Page {
    ListBoundaryRuns(table, boundary, limit, if cursor.None? then None else Some(cursor.value.0),
                     if cursor.None? then None else Some(cursor.value.1)).value
  }

  /** What a client has read after at most |tables| pages, page k being served from tables[k], and whether it was told to stop. */
  ghost function Walk(tables: seq<Table>, boundary: int, limit: int, cursor: Option<Key>): (seq<Key>, bool)
    decreases |tables|
  {
    if tables == [] then ([], false)
    else
      var page := PageAt(tables[0], boundary, limit, cursor);
      if page.next.None? then (page.items, true)
      else
        var rest := Walk(tables[1..], boundary, limit, page.next);
        (page.items + rest.0, rest.1)
  }

  /** Runs are only ever added. */
  ghost predicate Grows(tables: seq<Table>, boundary: int) {
    forall i, j :: 0 <= i <= j < |tables| ==> Matching(tables[i], boundary, None) <= Matching(tables[j], boundary, None)
  }

  /** `all` is `start` and runs that sort above all of it. */
  ghost predicate OnlyNewer(start: set<Key>, all: set<Key>) {
    && start <= all
    && forall key, other :: key in all && key !in start && other in start ==> Before(other, key)
  }

  ghost predicate GrowsNewer(start: set<Key>, tables: seq<Table>, boundary: int) {
    forall i :: 0 <= i < |tables| ==> OnlyNewer(start, Matching(tables[i], boundary, None))
  }

  /** How many rows so many pages hold. */
  function Room(pages: nat, limit: int): nat {
    if pages == 0 then 0 else SafeLimit(limit) + Room(pages - 1, limit)
  }

  lemma {:induction false} RoomIsProduct(pages: nat, limit: int)
    ensures Room(pages, limit) == pages * SafeLimit(limit)
  {
    if pages > 0 {
      RoomIsProduct(pages - 1, limit);
    }
  }

  // ---------- one page ----------

  lemma {:induction false} ListLength(d: seq<Key>, keys: set<Key>)
    requires Lists(d, keys)
    ensures |d| == |keys|
    decreases |d|
  {
    if d != [] {
      assert d[0] in keys;
      TailLists(d, keys);
      ListLength(d[1..], keys - {d[0]});
    } else {
      assert keys == {};
    }
  }

  lemma {:induction false} DescendingIsUnique(d: seq<Key>, e: seq<Key>, keys: set<Key>)
    requires Lists(d, keys) && Lists(e, keys)
    ensures d == e
    decreases |d|
  {
    ListLength(d, keys);
    ListLength(e, keys);
    if d != [] {
      assert d[0] in keys && e[0] in keys;
      assert d[0] == e[0];
      TailLists(d, keys);
      TailLists(e, keys);
      DescendingIsUnique(d[1..], e[1..], keys - {d[0]});
      assert d == [d[0]] + d[1..] && e == [e[0]] + e[1..];
    }
  }

  lemma TailLists(d: seq<Key>, keys: set<Key>)
    requires d != [] && Lists(d, keys)
    ensures Lists(d[1..], keys - {d[0]})
  {
    forall key
      ensures key in d[1..] <==> key in keys - {d[0]}
    {
      assert key in d <==> key == d[0] || key in d[1..];
    }
  }

  /** The rows below the last row of a page are exactly the rows after it. */
  lemma BelowCursor(keys: set<Key>, below: set<Key>, n: nat)
    requires 0 < n <= |Descending(keys)|
    requires below == set key | key in keys && Before(key, Descending(keys)[n - 1])
    ensures Descending(below) == Descending(keys)[n..] && |below| == |keys| - n
  {
    var d := Descending(keys);
    ListLength(d, keys);
    ListLength(Descending(below), below);
    forall key
      ensures key in d[n..] <==> key in below
    {
      TailMember(d, n, key);
    }
    DescendingIsUnique(Descending(below), d[n..], below);
  }

  lemma TailMember(d: seq<Key>, n: nat, key: Key)
    requires 0 < n <= |d| && StrictlyDescending(d)
    ensures key in d[n..] <==> key in d && Before(key, d[n - 1])
  {
    if key in d && Before(key, d[n - 1]) {
      var i :| 0 <= i < |d| && d[i] == key;
      assert i >= n;
      assert d[n..][i - n] == key;
    }
  }

  lemma PageOf(table: Table, boundary: int, limit: int, cursor: Option<Key>, left: set<Key>)
    requires left == Matching(table, boundary, cursor)
    ensures var page, d, n := PageAt(table, boundary, limit, cursor), Descending(left), SafeLimit(limit);
            page == Page(d[..Min(n, |d|)], n, if |d| > n then Some(d[n - 1]) else None)
  {
    var d, n := Descending(left), SafeLimit(limit);
    assert d[..Min(n + 1, |d|)][..Min(n, |d|)] == d[..Min(n, |d|)];
  }

  // ---------- the walk ----------

  /** Newer rows are invisible below a cursor. */
  lemma NewerIsInvisible(start: set<Key>, table: Table, boundary: int, last: Key)
    requires OnlyNewer(start, Matching(table, boundary, None)) && last in start
    ensures Matching(table, boundary, Some(last)) == set key | key in start && Before(key, last)
  {
    forall key
      ensures key in Matching(table, boundary, Some(last)) <==> key in Matching(table, boundary, None) && Before(key, last)
    {
      if key in Matching(table, boundary, None) {
        assert key.1 in table && table[key.1].boundary == boundary && table[key.1].createdAt == key.0;
      }
    }
  }

  /** What a cursor leaves to read of the runs in `start`. */
  ghost function Left(start: set<Key>, cursor: Option<Key>): set<Key> {
    set key | key in start && (cursor.None? || Before(key, cursor.value))
  }

  lemma {:induction false} WalkFrom(start: set<Key>, tables: seq<Table>, boundary: int, limit: int, cursor: Option<Key>)
    requires GrowsNewer(start, tables, boundary)
    requires if cursor.Some? then cursor.value in start else tables == [] || Matching(tables[0], boundary, None) == start
    ensures var read, done, d := Walk(tables, boundary, limit, cursor).0, Walk(tables, boundary, limit, cursor).1, Descending(Left(start, cursor));
            && read == d[..Min(|d|, Room(|tables|, limit))]
            && (done <==> tables != [] && |d| <= Room(|tables|, limit))
    decreases |tables|
  {
    if tables != [] {
      var n, left := SafeLimit(limit), Left(start, cursor);
      assert OnlyNewer(start, Matching(tables[0], boundary, None));
      if cursor.Some? {
        NewerIsInvisible(start, tables[0], boundary, cursor.value);
      }
      assert Matching(tables[0], boundary, cursor) == left;
      PageOf(tables[0], boundary, limit, cursor, left);
      if |Descending(left)| > n {
        WalkOn(start, left, tables, boundary, limit, cursor);
      }
    }
  }

  lemma WalkOn(start: set<Key>, left: set<Key>, tables: seq<Table>, boundary: int, limit: int, cursor: Option<Key>)
    requires tables != [] && GrowsNewer(start, tables, boundary)
    requires left == Left(start, cursor) && |Descending(left)| > SafeLimit(limit)
    requires var d, n := Descending(left), SafeLimit(limit);
             PageAt(tables[0], boundary, limit, cursor) == Page(d[..n], n, Some(d[n - 1]))
    ensures var read, done, d := Walk(tables, boundary, limit, cursor).0, Walk(tables, boundary, limit, cursor).1, Descending(left);
            && read == d[..Min(|d|, Room(|tables|, limit))]
            && (done <==> |d| <= Room(|tables|, limit))
    decreases |tables|, 0
  {
    var n, d := SafeLimit(limit), Descending(left);
    var last, later := d[n - 1], tables[1..];
    NextLeft(start, left, cursor, n);
    assert GrowsNewer(start, later, boundary);
    WalkFrom(start, later, boundary, limit, Some(last));
    JoinPages(d, n, Room(|later|, limit));
  }

  lemma NextLeft(start: set<Key>, left: set<Key>, cursor: Option<Key>, n: nat)
    requires left == Left(start, cursor) && 0 < n < |Descending(left)|
    ensures var d := Descending(left); d[n - 1] in start && Descending(Left(start, Some(d[n - 1]))) == d[n..]
  {
    var d := Descending(left);
    var last := d[n - 1];
    assert last in left;
    var below := set key | key in left && Before(key, last);
    assert below == Left(start, Some(last));
    BelowCursor(left, below, n);
  }

  lemma JoinPages(d: seq<Key>, n: nat, room: nat)
    requires n <= |d|
    ensures d[..n] + d[n..][..Min(|d| - n, room)] == d[..Min(|d|, n + room)]
  {
  }

  lemma {:induction false} WalkIsSound(tables: seq<Table>, boundary: int, limit: int, cursor: Option<Key>)
    requires tables != [] && Grows(tables, boundary)
    ensures var walk := Walk(tables, boundary, limit, cursor); Sound(walk.0, walk.1, Matching(tables[0], boundary, cursor), cursor)
    decreases |tables|
  {
    var n, here := SafeLimit(limit), Matching(tables[0], boundary, cursor);
    var d := Descending(here);
    PageOf(tables[0], boundary, limit, cursor, here);
    if |d| > n {
      var last := d[n - 1];
      var walk, rest := Walk(tables, boundary, limit, cursor), Walk(tables[1..], boundary, limit, Some(last));
      assert walk == (d[..n] + rest.0, rest.1);
      if |tables| > 1 {
        WalkIsSound(tables[1..], boundary, limit, Some(last));
        GrowsBelow(tables, boundary, cursor, last);
        ReadOn(here, cursor, n, rest.0, rest.1, Matching(tables[1], boundary, Some(last)));
      } else {
        ReadOn(here, cursor, n, rest.0, rest.1, {});
      }
    } else {
      assert d[..|d|] == d;
      assert forall key :: key in d ==> key in here;
    }
  }

  /** No repetition, nothing at or above the cursor, and once told to stop everything in `here` has been read. */
  ghost predicate Sound(read: seq<Key>, done: bool, here: set<Key>, cursor: Option<Key>) {
    && StrictlyDescending(read)
    && (forall key :: key in read && cursor.Some? ==> Before(key, cursor.value))
    && (done ==> forall key :: key in here ==> key in read)
  }

  /** A page followed by a sound walk below its last row. */
  lemma ReadOn(here: set<Key>, cursor: Option<Key>, n: nat, rest: seq<Key>, done: bool, next: set<Key>)
    requires 0 < n < |Descending(here)|
    requires forall key :: key in here && cursor.Some? ==> Before(key, cursor.value)
    requires Sound(rest, done, next, Some(Descending(here)[n - 1]))
    requires done ==> forall key :: key in here && Before(key, Descending(here)[n - 1]) ==> key in next
    ensures Sound(Descending(here)[..n] + rest, done, here, cursor)
  {
    var d := Descending(here);
    var all := d[..n] + rest;
    forall i, j | 0 <= i < j < |all|
      ensures Before(all[j], all[i])
    {
      if i < n <= j {
        assert all[j] in rest;
        assert i == n - 1 || Before(d[n - 1], d[i]);
      }
    }
    forall key | key in all && cursor.Some?
      ensures Before(key, cursor.value)
    {
      assert d[n - 1] in here;
      assert key in d[..n] ==> key in d;
    }
    forall key | key in here && done
      ensures key in all
    {
      assert key in d;
      var i :| 0 <= i < |d| && d[i] == key;
      assert i < n ==> all[i] == key;
    }
  }

  lemma GrowsBelow(tables: seq<Table>, boundary: int, cursor: Option<Key>, last: Key)
    requires |tables| > 1 && Grows(tables, boundary)
    ensures forall key :: key in Matching(tables[0], boundary, cursor) && Before(key, last) ==> key in Matching(tables[1], boundary, Some(last))
  {
    forall key | key in Matching(tables[0], boundary, cursor) && Before(key, last)
      ensures key in Matching(tables[1], boundary, Some(last))
    {
      assert key in Matching(tables[0], boundary, None);
      assert Matching(tables[0], boundary, None) <= Matching(tables[1], boundary, None);
    }
  }

  // ---------- the same, said of the tables ----------

  lemma Members(table: Table, boundary: int, before: Option<Key>)
    ensures forall c, i :: (c, i) in Matching(table, boundary, before) <==>
                           i in table && table[i] == Run(boundary, c) && (before.None? || Before((c, i), before.value))
  {
    forall c, i
      ensures (c, i) in Matching(table, boundary, before) <==>
              i in table && table[i] == Run(boundary, c) && (before.None? || Before((c, i), before.value))
    {
      if i in table && table[i] == Run(boundary, c) {
        var id := i;
        assert id in table && (table[id].createdAt, id) == (c, i);
      }
    }
  }

  /** A run of the boundary, older than the cursor if there is one. */
  ghost predicate Wanted(table: Table, boundary: int, beforeCreatedAt: Option<int>, beforeId: Option<int>, i: int) {
    && i in table && table[i].boundary == boundary
    && (beforeCreatedAt.Some? && beforeId.Some? ==>
          table[i].createdAt < beforeCreatedAt.value || (table[i].createdAt == beforeCreatedAt.value && i < beforeId.value))
  }

  /** What sorts below a full page that names its last row as the next cursor. */
  ghost predicate Below(page: Page, key: Key) {
    && |page.items| == page.limit > 0
    && page.next == Some(page.items[|page.items| - 1])
    && (key.0 < page.next.value.0 || (key.0 == page.next.value.0 && key.1 < page.next.value.1))
  }

  /**
   A page holds only runs of the boundary, newest first and below the cursor, at most the clamped limit of them, and
   misses none above its last row; it carries a cursor, its last row, exactly when it is full and a run lies below it.
   Half a cursor is refused.
   */
  lemma PageHolds(table: Table, boundary: int, limit: int, beforeCreatedAt: Option<int>, beforeId: Option<int>)
    ensures var answer := ListBoundaryRuns(table, boundary, limit, beforeCreatedAt, beforeId);
            && (answer.Ok? <==> (beforeCreatedAt.Some? <==> beforeId.Some?))
            && (answer.Ok? ==>
                  var items := answer.value.items;
                  && answer.value.limit == (if limit < 1 then 1 else if limit > 50 then 50 else limit)
                  && |items| <= answer.value.limit
                  && (forall j, k :: 0 <= j < k < |items| ==>
                        items[k].0 < items[j].0 || (items[k].0 == items[j].0 && items[k].1 < items[j].1))
                  && (forall c, i :: (c, i) in items ==> Wanted(table, boundary, beforeCreatedAt, beforeId, i) && c == table[i].createdAt)
                  && (forall c, i :: Wanted(table, boundary, beforeCreatedAt, beforeId, i) && c == table[i].createdAt && (c, i) !in items ==>
                                     Below(answer.value, (c, i)))
                  && (answer.value.next.Some? ==>
                        exists c, i :: Wanted(table, boundary, beforeCreatedAt, beforeId, i) && c == table[i].createdAt && Below(answer.value, (c, i))))
  {
    if beforeCreatedAt.Some? <==> beforeId.Some? {
      var cursor := if beforeId.Some? then Some((beforeCreatedAt.value, beforeId.value)) else None;
      var keys := Matching(table, boundary, cursor);
      assert forall c, i :: (c, i) in keys <==> Wanted(table, boundary, beforeCreatedAt, beforeId, i) && c == table[i].createdAt by {
        Members(table, boundary, cursor);
      }
      PageOf(table, boundary, limit, cursor, keys);
      var page := PageAt(table, boundary, limit, cursor);
      assert Ok(page) == ListBoundaryRuns(table, boundary, limit, beforeCreatedAt, beforeId);
      hide PageAt, ListBoundaryRuns, Matching, Wanted;
      PageLists(Descending(keys), keys, SafeLimit(limit), page);
    }
  }

  /** A page cut from the head of a listing. */
  lemma PageLists(d: seq<Key>, keys: set<Key>, n: int, page: Page)
    requires 0 < n && Lists(d, keys)
    requires page == Page(d[..Min(n, |d|)], n, if |d| > n then Some(d[n - 1]) else None)
    ensures forall key :: key in page.items ==> key in keys
    ensures forall key :: key in keys && key !in page.items ==> Below(page, key)
    ensures page.next.Some? ==> exists key :: key in keys && Below(page, key)
  {
    forall key | key in page.items
      ensures key in keys
    {
      assert key in d;
    }
    forall key | key in keys && key !in page.items
      ensures Below(page, key)
    {
      MissedIsBelow(d, n, key);
    }
    if |d| > n {
      var key := d[n];
      assert key in d && key in keys && Below(page, key);
    }
  }

  lemma MissedIsBelow(d: seq<Key>, n: nat, key: Key)
    requires StrictlyDescending(d) && 0 < n && key in d && key !in d[..Min(n, |d|)]
    ensures |d| > n && Before(key, d[n - 1])
  {
    var i :| 0 <= i < |d| && d[i] == key;
    var page := d[..Min(n, |d|)];
    assert forall j :: 0 <= j < |page| ==> page[j] == d[j] && page[j] in page;
  }

  lemma {:induction false} OneKeyPerRun(table: Table, ids: set<int>, keys: set<Key>)
    requires ids <= table.Keys && keys == set id | id in ids :: (table[id].createdAt, id)
    ensures |keys| == |ids|
    decreases ids
  {
    if exists id :: id in ids {
      var id :| id in ids;
      var rest := ids - {id};
      var fewer := set other | other in rest :: (table[other].createdAt, other);
      OneKeyPerRun(table, rest, fewer);
      assert keys == fewer + {(table[id].createdAt, id)};
      assert ids == rest + {id};
    } else {
      assert ids == {} && keys == {};
    }
  }

  /** A run, once there, stays as it is. */
  ghost predicate Kept(before: Table, after: Table, boundary: int) {
    forall i :: i in before && before[i].boundary == boundary ==> i in after && after[i] == before[i]
  }

  /** Every run of the boundary that only the later table holds was created after, or with a higher id at the same time as, all of the first. */
  ghost predicate AddedAbove(first: Table, later: Table, boundary: int) {
    forall i, other :: i in later && later[i].boundary == boundary && !(i in first && first[i] == later[i]) ==>
                       other in first && first[other].boundary == boundary ==>
                       first[other].createdAt < later[i].createdAt || (first[other].createdAt == later[i].createdAt && other < i)
  }

  /**
   Following next_cursor reads the boundary's runs, newest first, each exactly once, whatever the limit, and is told to
   stop after exactly as many pages as they fill; runs added meanwhile above them change nothing.
   */
  lemma WalkIsExact(tables: seq<Table>, boundary: int, limit: int)
    requires tables != []
    requires forall k :: 0 <= k < |tables| ==> Kept(tables[0], tables[k], boundary) && AddedAbove(tables[0], tables[k], boundary)
    ensures var (read, done) := Walk(tables, boundary, limit, None);
            && (forall j, k :: 0 <= j < k < |read| ==> read[k].0 < read[j].0 || (read[k].0 == read[j].0 && read[k].1 < read[j].1))
            && (forall c, i :: (c, i) in read ==> i in tables[0] && tables[0][i] == Run(boundary, c))
            && (forall c, i :: done && i in tables[0] && tables[0][i] == Run(boundary, c) ==> (c, i) in read)
            && (done <==> |set i | i in tables[0] && tables[0][i].boundary == boundary| <=
                          |tables| * (if limit < 1 then 1 else if limit > 50 then 50 else limit))
            && (!done ==> |read| == |tables| * (if limit < 1 then 1 else if limit > 50 then 50 else limit))
  {
    hide Walk, Kept, AddedAbove;
    var start := Matching(tables[0], boundary, None);
    assert Left(start, None) == start;
    forall k | 0 <= k < |tables|
      ensures OnlyNewer(start, Matching(tables[k], boundary, None))
    {
      assert Kept(tables[0], tables[k], boundary) && AddedAbove(tables[0], tables[k], boundary);
      Additions(tables[0], tables[k], boundary);
    }
    var d := Descending(start);
    ListLength(d, start);
    WalkFrom(start, tables, boundary, limit, None);
    RoomIsProduct(|tables|, limit);
    OneKeyPerRun(tables[0], (set i | i in tables[0] && tables[0][i].boundary == boundary), start);
    Members(tables[0], boundary, None);
    forall c, i | (c, i) in Walk(tables, boundary, limit, None).0
      ensures (c, i) in start
    {
      assert (c, i) in d;
    }
  }

  lemma Additions(first: Table, later: Table, boundary: int)
    requires Kept(first, later, boundary) && AddedAbove(first, later, boundary)
    ensures OnlyNewer(Matching(first, boundary, None), Matching(later, boundary, None))
  {
    var start, all := Matching(first, boundary, None), Matching(later, boundary, None);
    Members(first, boundary, None);
    Members(later, boundary, None);
    forall key | key in start
      ensures key in all
    {
      assert key == (key.0, key.1);
    }
    forall key, other | key in all && key !in start && other in start
      ensures Before(other, key)
    {
      assert key == (key.0, key.1) && other == (other.0, other.1);
      assert later[key.1] == Run(boundary, key.0) && first[other.1].boundary == boundary;
    }
  }

  /**
   Whatever is added between pages, even below the cursor, every run read is the boundary's, none is read twice, and
   once told to stop none of the first page's table is lost.
   */
  lemma WalkNeverRepeats(tables: seq<Table>, boundary: int, limit: int)
    requires tables != []
    requires forall j, k :: 0 <= j <= k < |tables| ==> Kept(tables[j], tables[k], boundary)
    ensures var (read, done) := Walk(tables, boundary, limit, None);
            && (forall j, k :: 0 <= j < k < |read| ==> read[k].0 < read[j].0 || (read[k].0 == read[j].0 && read[k].1 < read[j].1))
            && (forall c, i :: (c, i) in read ==> i in tables[|tables| - 1] && tables[|tables| - 1][i] == Run(boundary, c))
            && (forall c, i :: done && i in tables[0] && tables[0][i] == Run(boundary, c) ==> (c, i) in read)
  {
    forall j, k | 0 <= j <= k < |tables|
      ensures Matching(tables[j], boundary, None) <= Matching(tables[k], boundary, None)
    {
      assert Kept(tables[j], tables[k], boundary);
      KeptMatches(tables[j], tables[k], boundary);
    }
    Members(tables[0], boundary, None);
    Members(tables[|tables| - 1], boundary, None);
    WalkIsSound(tables, boundary, limit, None);
    ReadRunsExist(tables, boundary, limit, None);
  }

  lemma KeptMatches(before: Table, after: Table, boundary: int)
    requires Kept(before, after, boundary)
    ensures Matching(before, boundary, None) <= Matching(after, boundary, None)
  {
    Members(before, boundary, None);
    Members(after, boundary, None);
    forall key | key in Matching(before, boundary, None)
      ensures key in Matching(after, boundary, None)
    {
      assert key == (key.0, key.1);
    }
  }

  lemma {:induction false} ReadRunsExist(tables: seq<Table>, boundary: int, limit: int, cursor: Option<Key>)
    requires tables != [] && Grows(tables, boundary)
    ensures forall key :: key in Walk(tables, boundary, limit, cursor).0 ==> key in Matching(tables[|tables| - 1], boundary, None)
    decreases |tables|
  {
    var here, page := Matching(tables[0], boundary, cursor), PageAt(tables[0], boundary, limit, cursor);
    PageOf(tables[0], boundary, limit, cursor, here);
    forall key | key in page.items
      ensures key in Matching(tables[|tables| - 1], boundary, None)
    {
      assert key in Descending(here) && key in here;
      assert key in Matching(tables[0], boundary, None);
    }
    if page.next.Some? && |tables| > 1 {
      assert Grows(tables[1..], boundary);
      ReadRunsExist(tables[1..], boundary, limit, page.next);
    }
  }
}
