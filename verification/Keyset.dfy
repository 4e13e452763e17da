/** Keyset pagination as the task and project lists do it: filter, cut at the cursor,
    newest first, one row too many to see whether there is more. */
module Keyset {
  import opened Wrappers
  import opened Calendar
  import opened Cursor
  import opened Text

  datatype Row<P> = Row(createdAt: Timestamp, id: Uuid, fields: P) {
    function At(): Position { Position(createdAt, id) }
  }

  datatype Page<P> = Page(items: seq<Row<P>>, nextCursor: Option<string>)

  // ------------------------------------------------- the order of the query

  /** created_at < ..., or the same created_at and id < ... */
  predicate Below(a: Position, b: Position) {
    Instant(a.createdAt) < Instant(b.createdAt) ||
    (Instant(a.createdAt) == Instant(b.createdAt) && a.entityId < b.entityId)
  }

  /** Primary key and timezone-aware timestamps. */
  ghost predicate Keyed<P(!new)>(rows: set<Row<P>>) {
    && (forall r :: r in rows ==> r.createdAt.offset.Some?)
    && (forall r, q :: r in rows && q in rows && r.id == q.id ==> r == q)
  }

  ghost predicate Decreasing<P(!new)>(s: seq<Row<P>>) {
    forall i, j :: 0 <= i < j < |s| ==> Below(s[j].At(), s[i].At())
  }

  /** Read on clocks of the same offset, an earlier calendar date and time, or the same and a smaller id. */
  predicate OlderIfAligned(a: Position, b: Position) {
    a.createdAt.offset == b.createdAt.offset ==> OlderInFields(a, b)
  }

  /** Newest first, in the fields of the timestamps: of two rows of the same offset the later one is older. */
  ghost predicate NewestFirst<P(!new)>(s: seq<Row<P>>) {
    forall i, j :: 0 <= i < j < |s| ==> OlderIfAligned(s[j].At(), s[i].At())
  }

  lemma BelowIsOlder(a: Position, b: Position)
    requires a.createdAt.offset == b.createdAt.offset
    ensures Below(a, b) <==> OlderInFields(a, b)
  {
    hide Instant, OlderInFields;
    InstantOrder(a, b);
  }

  lemma DecreasingIsNewestFirst<P(!new)>(s: seq<Row<P>>)
    requires Decreasing(s)
    ensures NewestFirst(s)
  {
    hide Below, OlderInFields;
    forall i, j | 0 <= i < j < |s|
      ensures OlderIfAligned(s[j].At(), s[i].At())
    {
      if s[i].createdAt.offset == s[j].createdAt.offset {
        BelowIsOlder(s[j].At(), s[i].At());
      }
    }
  }

  lemma {:induction false} NewestExists<P(!new)>(rows: set<Row<P>>) returns (top: Row<P>)
    requires Keyed(rows) && rows != {}
    ensures top in rows && forall r :: r in rows && r != top ==> Below(r.At(), top.At())
    decreases |rows|
  {
    hide Instant;
    var some :| some in rows;
    var others := rows - {some};
    assert forall r :: r in rows ==> r == some || r in others;
    if others == {} {
      top := some;
    } else {
      var best := NewestExists(others);
      top := if Below(best.At(), some.At()) then some else best;
      assert some.id != best.id;
    }
  }

  ghost function Newest<P(!new)>(rows: set<Row<P>>): (top: Row<P>)
    requires Keyed(rows) && rows != {}
    ensures top in rows && forall r :: r in rows && r != top ==> Below(r.At(), top.At())
  {
    NewestOf(rows);
    var top :| top in rows && forall r :: r in rows && r != top ==> Below(r.At(), top.At());
    top
  }

  lemma NewestOf<P(!new)>(rows: set<Row<P>>)
    requires Keyed(rows) && rows != {}
    ensures exists top :: top in rows && forall r :: r in rows && r != top ==> Below(r.At(), top.At())
  {
    var top := NewestExists(rows);
  }

  /** ORDER BY created_at DESC, id DESC. */
  ghost function Descending<P(!new)>(rows: set<Row<P>>): (s: seq<Row<P>>)
    requires Keyed(rows)
    decreases |rows|
  {
    if rows == {} then []
    else
      var top := Newest(rows);
      [top] + Descending(rows - {top})
  }

  lemma {:induction false} DescendingHolds<P(!new)>(rows: set<Row<P>>, r: Row<P>)
    requires Keyed(rows)
    ensures r in Descending(rows) <==> r in rows
    decreases |rows|
  {
    if rows != {} {
      DescendingHolds(rows - {Newest(rows)}, r);
    }
  }

  lemma {:induction false} DescendingDecreases<P(!new)>(rows: set<Row<P>>)
    requires Keyed(rows)
    ensures Decreasing(Descending(rows)) && |Descending(rows)| == |rows|
    decreases |rows|
  {
    hide Below;
    if rows != {} {
      var top := Newest(rows);
      var rest := Descending(rows - {top});
      DescendingDecreases(rows - {top});
      forall j | 0 <= j < |rest|
        ensures Below(rest[j].At(), top.At())
      {
        DescendingHolds(rows - {top}, rest[j]);
      }
      HeadDecreasing(top, rest);
    }
  }

  lemma HeadDecreasing<P(!new)>(top: Row<P>, rest: seq<Row<P>>)
    requires Decreasing(rest) && forall r :: r in rest ==> Below(r.At(), top.At())
    ensures Decreasing([top] + rest)
  {
    hide Below;
    var s := [top] + rest;
    forall i, j | 0 <= i < j < |s|
      ensures Below(s[j].At(), s[i].At())
    {
      assert s[j] == rest[j - 1] && rest[j - 1] in rest;
    }
  }

  ghost function Beyond<P(!new)>(rows: set<Row<P>>, position: Position): set<Row<P>> {
    set r | r in rows && Below(r.At(), position)
  }

  /** The sorted result is the only decreasing list of the rows. */
  lemma {:induction false} OnlyDescending<P(!new)>(rows: set<Row<P>>, s: seq<Row<P>>)
    requires Keyed(rows) && Decreasing(s) && forall r :: r in s <==> r in rows
    ensures s == Descending(rows)
    decreases |s|
  {
    hide Below, Decreasing;
    if s == [] {
      assert rows == {};
    } else {
      HeadIsNewest(rows, s);
      HeadOnce(s);
      assert forall r :: r in s <==> r == s[0] || r in s[1..];
      OnlyDescending(rows - {s[0]}, s[1..]);
    }
  }

  lemma HeadIsNewest<P(!new)>(rows: set<Row<P>>, s: seq<Row<P>>)
    requires Keyed(rows) && Decreasing(s) && s != [] && forall r :: r in s <==> r in rows
    ensures rows != {} && Newest(rows) == s[0]
  {
    hide Below;
    assert s[0] in s;
    var top := Newest(rows);
    var i :| 0 <= i < |s| && s[i] == top;
    NotBothBelow(s[0].At(), s[i].At());
  }

  lemma HeadOnce<P(!new)>(s: seq<Row<P>>)
    requires s != [] && Decreasing(s)
    ensures s[0] !in s[1..] && Decreasing(s[1..])
  {
  }

  /** Below the k-th row of the sorted result are exactly the rows after it. */
  lemma AfterIsBeyond<P(!new)>(rows: set<Row<P>>, s: seq<Row<P>>, k: nat, r: Row<P>)
    requires Decreasing(s) && (forall q :: q in s <==> q in rows) && 1 <= k <= |s|
    ensures r in s[k..] <==> r in Beyond(rows, s[k - 1].At())
  {
    hide Below;
    if r in s[k..] {
      var j :| 0 <= j < |s[k..]| && s[k..][j] == r;
      assert s[k + j] == r;
    }
    if r in Beyond(rows, s[k - 1].At()) {
      var i :| 0 <= i < |s| && s[i] == r;
      NotBelowItself(r.At());
      NotBothBelow(r.At(), s[k - 1].At());
      assert s[k..][i - k] == r;
    }
  }

  /** Cutting below the k-th row of the sorted result drops exactly the first k rows. */
  lemma CutAfter<P(!new)>(rows: set<Row<P>>, k: nat)
    requires Keyed(rows) && 1 <= k <= |Descending(rows)|
    ensures Keyed(Beyond(rows, Descending(rows)[k - 1].At()))
    ensures Descending(Beyond(rows, Descending(rows)[k - 1].At())) == Descending(rows)[k..]
  {
    hide Below, Descending;
    var s := Descending(rows);
    DescendingDecreases(rows);
    forall r
      ensures r in s <==> r in rows
    {
      DescendingHolds(rows, r);
    }
    forall r
      ensures r in s[k..] <==> r in Beyond(rows, s[k - 1].At())
    {
      AfterIsBeyond(rows, s, k, r);
    }
    OnlyDescending(Beyond(rows, s[k - 1].At()), s[k..]);
  }

  lemma NotBothBelow(a: Position, b: Position)
    ensures !Below(a, b) || !Below(b, a)
  {
  }

  // ------------------------------------------------- one page

  /** How cursors are read.  `DecodeCursor` is one way; Python's parsers accept more spellings. */
  type Decoder = string -> Result<Position, CursorError>

  /** The decoder undoes the encoding of aware positions, whatever else it accepts. */
  ghost predicate ReadsBack(decode: Decoder) {
    forall t: Timestamp, id: Uuid {:trigger decode(EncodeCursor(t, id))} ::
      t.offset.Some? ==> decode(EncodeCursor(t, id)) == Success(Position(t, id))
  }

  lemma DecodeCursorReadsBack()
    ensures ReadsBack(DecodeCursor)
  {
    hide EncodeCursor, DecodeCursor;
    forall t: Timestamp, id: Uuid | t.offset.Some?
      ensures DecodeCursor(EncodeCursor(t, id)) == Success(Position(t, id))
    {
      CursorRoundTrip(t, id);
    }
  }

  /** The WHERE clause of a list and its cursor decoder. */
  datatype Query<!P> = Query(keep: P -> bool, decode: Decoder)

  ghost function Matching<P(!new)>(table: set<Row<P>>, query: Query<P>): set<Row<P>> {
    set r | r in table && query.keep(r.fields)
  }

  /** The rows a request may see: an absent or empty cursor starts from the top. */
  ghost function Selected<P(!new)>(table: set<Row<P>>, query: Query<P>, cursor: Option<string>)
    : Result<set<Row<P>>, CursorError>
  {
    if cursor.None? || cursor.value == "" then Success(Matching(table, query))
    else match query.decode(cursor.value)
      case Failure(e) => Failure(e)
      case Success(position) => Success(Beyond(Matching(table, query), position))
  }

  ghost function ListPage<P(!new)>(table: set<Row<P>>, query: Query<P>, cursor: Option<string>, limit: nat)
    : Result<Page<P>, CursorError>
    requires Keyed(table)
  {
    match Selected(table, query, cursor)
    case Failure(e) => Failure(e)
    case Success(selected) =>
      assert Keyed(selected);
      var all := Descending(selected);
      var rows := if |all| > limit + 1 then all[..limit + 1] else all;
      var hasMore := |rows| > limit;
      var pageRows := if hasMore then rows[..limit] else rows;
      var next := if hasMore && pageRows != [] then
                    var last := pageRows[|pageRows| - 1];
                    Some(EncodeCursor(last.createdAt, last.id))
                  else None;
      Success(Page(pageRows, next))
  }

  /** The first `limit` rows; the next cursor, if there is more, stands for the last of them. */
  lemma PageIsPrefix<P(!new)>(table: set<Row<P>>, query: Query<P>, cursor: Option<string>, limit: nat)
    requires Keyed(table) && limit >= 1
    ensures ListPage(table, query, cursor, limit).Success? <==> Selected(table, query, cursor).Success?
    ensures Selected(table, query, cursor).Success? ==>
              && Keyed(Selected(table, query, cursor).value)
              && var all := Descending(Selected(table, query, cursor).value);
                 var page := ListPage(table, query, cursor, limit).value;
                 && (|all| <= limit ==> page == Page(all, None))
                 && (|all| > limit ==>
                       && page.items == all[..limit]
                       && page.nextCursor == Some(EncodeCursor(all[limit - 1].createdAt, all[limit - 1].id)))
  {
    hide Below, EncodeCursor, Instant;
    if Selected(table, query, cursor).Failure? {
      return;
    }
    var all := Descending(Selected(table, query, cursor).value);
    if |all| > limit + 1 {
      assert all[..limit + 1][..limit] == all[..limit];
    }
  }

  /** A page shows the newest of the selected rows, `limit` of them if there are as many, and has a
      next cursor exactly if it leaves a row out. */
  ghost predicate ShowsNewest<P(!new)>(selected: set<Row<P>>, page: Page<P>, limit: nat) {
    && Decreasing(page.items)
    && (forall r :: r in page.items ==> r in selected)
    && |page.items| == (if |selected| < limit then |selected| else limit)
    && (forall r, q :: r in selected && r !in page.items && q in page.items ==> Below(r.At(), q.At()))
    && (page.nextCursor.Some? <==> exists r :: r in selected && r !in page.items)
  }

  /** The same in fields: shown newest first, and what is left out is older than all that is shown. */
  ghost predicate ShowsNewestInFields<P(!new)>(selected: set<Row<P>>, page: Page<P>, limit: nat) {
    && NewestFirst(page.items)
    && (forall r :: r in page.items ==> r in selected)
    && |page.items| == (if |selected| < limit then |selected| else limit)
    && (forall r, q :: r in selected && r !in page.items && q in page.items ==> OlderIfAligned(r.At(), q.At()))
    && (page.nextCursor.Some? <==> exists r :: r in selected && r !in page.items)
  }

  lemma ShownInFields<P(!new)>(selected: set<Row<P>>, page: Page<P>, limit: nat)
    requires ShowsNewest(selected, page, limit)
    ensures ShowsNewestInFields(selected, page, limit)
  {
    hide Below, OlderInFields, Decreasing;
    DecreasingIsNewestFirst(page.items);
    forall r, q | r in selected && r !in page.items && q in page.items
      ensures OlderIfAligned(r.At(), q.At())
    {
      if r.createdAt.offset == q.createdAt.offset {
        BelowIsOlder(r.At(), q.At());
      }
    }
  }

  lemma PageIsNewest<P(!new)>(table: set<Row<P>>, query: Query<P>, cursor: Option<string>, limit: nat)
    requires Keyed(table) && limit >= 1
    ensures ListPage(table, query, cursor, limit).Success? <==> Selected(table, query, cursor).Success?
    ensures Selected(table, query, cursor).Success? ==>
              var selected, page := Selected(table, query, cursor).value, ListPage(table, query, cursor, limit).value;
              ShowsNewest(selected, page, limit) && ShowsNewestInFields(selected, page, limit)
  {
    hide Below, EncodeCursor, Instant, Descending, ShowsNewestInFields;
    PageIsPrefix(table, query, cursor, limit);
    if Selected(table, query, cursor).Failure? {
      return;
    }
    var selected := Selected(table, query, cursor).value;
    var all := Descending(selected);
    DescendingDecreases(selected);
    forall r
      ensures r in all <==> r in selected
    {
      DescendingHolds(selected, r);
    }
    if |all| > limit {
      PrefixIsNewest(selected, all, limit);
    }
    ShownInFields(selected, ListPage(table, query, cursor, limit).value, limit);
  }

  lemma PrefixIsNewest<P(!new)>(selected: set<Row<P>>, all: seq<Row<P>>, limit: nat)
    requires Decreasing(all) && (forall r :: r in all <==> r in selected) && |all| > limit
    ensures Decreasing(all[..limit]) && forall r :: r in all[..limit] ==> r in selected
    ensures forall r, q :: r in selected && r !in all[..limit] && q in all[..limit] ==> Below(r.At(), q.At())
    ensures all[limit] in selected && all[limit] !in all[..limit]
  {
  }

  // ------------------------------------------------- walking a table that changes

  /** One request of a walk: the table as it is then, and the page size asked for. */
  datatype Fetch<P(==)> = Fetch(table: set<Row<P>>, limit: nat)

  ghost predicate Requests<P(!new)>(fetches: seq<Fetch<P>>) {
    forall f :: f in fetches ==> Keyed(f.table) && f.limit >= 1
  }

  datatype Trail<P> = Trail(items: seq<Row<P>>, pages: nat, finished: bool)

  /** Following the next cursor from page to page until there is none. */
  ghost function Walk<P(!new)>(fetches: seq<Fetch<P>>, query: Query<P>, cursor: Option<string>): (w: Trail<P>)
    requires Requests(fetches)
    ensures w.pages <= |fetches|
    decreases |fetches|
  {
    if fetches == [] then Trail([], 0, false)
    else
      assert fetches[0] in fetches;
      match ListPage(fetches[0].table, query, cursor, fetches[0].limit)
      case Failure(_) => Trail([], 1, false)
      case Success(page) =>
        if page.nextCursor.None? then Trail(page.items, 1, true)
        else
          assert Requests(fetches[1..]) by {
            assert forall f :: f in fetches[1..] ==> f in fetches;
          }
          var rest := Walk(fetches[1..], query, page.nextCursor);
          Trail(page.items + rest.items, 1 + rest.pages, rest.finished)
  }

  /** The row with this position is there and passes the filter. */
  ghost predicate Shows<P(!new)>(table: set<Row<P>>, query: Query<P>, p: Position) {
    exists r :: r in table && query.keep(r.fields) && r.At() == p
  }

  /** The cursor of a walk that starts at the top, or below a given row. */
  function CursorOf(from: Option<Position>): Option<string> {
    if from.None? then None else Some(EncodeCursor(from.value.createdAt, from.value.entityId))
  }

  predicate Aware(from: Option<Position>) {
    from.Some? ==> from.value.createdAt.offset.Some?
  }

  ghost predicate Under(p: Position, from: Option<Position>) {
    from.Some? ==> Below(p, from.value)
  }

  ghost function Cut<P(!new)>(rows: set<Row<P>>, from: Option<Position>): set<Row<P>> {
    if from.None? then rows else Beyond(rows, from.value)
  }

  lemma StartSelects<P(!new)>(table: set<Row<P>>, query: Query<P>, from: Option<Position>)
    requires ReadsBack(query.decode) && Aware(from)
    ensures Selected(table, query, CursorOf(from)) == Success(Cut(Matching(table, query), from))
  {
    hide EncodeCursor, Below;
    if from.Some? {
      CursorRoundTrip(from.value.createdAt, from.value.entityId);
    }
  }

  /** What one page of a walk shows: the top `limit` of the rows below `from`, and where to go on. */
  lemma PageStep<P(!new)>(f: Fetch<P>, query: Query<P>, from: Option<Position>)
    returns (all: seq<Row<P>>, next: Option<Position>)
    requires ReadsBack(query.decode) && Keyed(f.table) && f.limit >= 1 && Aware(from)
    ensures Keyed(Cut(Matching(f.table, query), from)) && all == Descending(Cut(Matching(f.table, query), from))
    ensures var page := ListPage(f.table, query, CursorOf(from), f.limit);
            && page.Success?
            && (|all| <= f.limit ==> page.value == Page(all, None))
            && (|all| > f.limit ==>
                  && page.value.items == all[..f.limit]
                  && next == Some(all[f.limit - 1].At()) && Aware(next)
                  && page.value.nextCursor == CursorOf(next) != None)
    ensures Decreasing(all)
    ensures forall r :: r in all <==> r in f.table && query.keep(r.fields) && Under(r.At(), from)
  {
    hide EncodeCursor, Below;
    StartSelects(f.table, query, from);
    PageIsPrefix(f.table, query, CursorOf(from), f.limit);
    var cut := Cut(Matching(f.table, query), from);
    all := Descending(cut);
    next := None;
    DescendingDecreases(cut);
    forall r
      ensures r in all <==> r in f.table && query.keep(r.fields) && Under(r.At(), from)
    {
      DescendingHolds(cut, r);
    }
    if |all| > f.limit {
      next := Some(all[f.limit - 1].At());
      assert all[f.limit - 1] in all;
    }
  }

  lemma BelowTransitive(a: Position, b: Position, c: Position)
    requires Below(a, b) && Below(b, c)
    ensures Below(a, c)
  {
  }

  lemma Rest<P(!new)>(fetches: seq<Fetch<P>>)
    requires fetches != [] && Requests(fetches)
    ensures Keyed(fetches[0].table) && fetches[0].limit >= 1 && Requests(fetches[1..])
  {
  }

  lemma JoinDecreasing<P(!new)>(a: seq<Row<P>>, b: seq<Row<P>>)
    requires Decreasing(a) && Decreasing(b) && a != []
    requires forall r :: r in b ==> Below(r.At(), a[|a| - 1].At())
    ensures Decreasing(a + b)
  {
    hide Below;
    forall i, j | 0 <= i < j < |a + b|
      ensures Below((a + b)[j].At(), (a + b)[i].At())
    {
      if i < |a| <= j {
        var r := b[j - |a|];
        assert r in b;
        if i < |a| - 1 {
          BelowTransitive(r.At(), a[|a| - 1].At(), a[i].At());
        }
      }
    }
  }

  /** A walk is its first page, and the walk that goes on below that page's last row if there is more. */
  lemma WalkStep<P(!new)>(fetches: seq<Fetch<P>>, query: Query<P>, from: Option<Position>)
    returns (all: seq<Row<P>>, next: Option<Position>)
    requires ReadsBack(query.decode) && Requests(fetches) && fetches != [] && Aware(from)
    ensures Requests(fetches[1..]) && fetches[0].limit >= 1
    ensures var cut := Cut(Matching(fetches[0].table, query), from); Keyed(cut) && all == Descending(cut)
    ensures Decreasing(all)
    ensures forall r :: r in all <==> r in fetches[0].table && query.keep(r.fields) && Under(r.At(), from)
    ensures var limit := fetches[0].limit;
            && (|all| <= limit ==> Walk(fetches, query, CursorOf(from)) == Trail(all, 1, true))
            && (|all| > limit ==>
                  && next == Some(all[limit - 1].At()) && Aware(next)
                  && var rest := Walk(fetches[1..], query, CursorOf(next));
                     Walk(fetches, query, CursorOf(from)) ==
                     Trail(all[..limit] + rest.items, 1 + rest.pages, rest.finished))
  {
    hide Below, ListPage, CursorOf, Descending, ReadsBack;
    Rest(fetches);
    var f := fetches[0];
    all, next := PageStep(f, query, from);
  }

  /** However the table changes between requests and whatever the page sizes, the emitted positions
      strictly decrease, and each emitted row was in the table, passing the filter, when it was emitted. */
  lemma {:induction false} WalkDecreases<P(!new)>(
    fetches: seq<Fetch<P>>, query: Query<P>, from: Option<Position>)
    requires ReadsBack(query.decode) && Requests(fetches) && Aware(from)
    ensures var w := Walk(fetches, query, CursorOf(from));
            && Decreasing(w.items) && NewestFirst(w.items)
            && (forall r :: r in w.items ==> Under(r.At(), from) && query.keep(r.fields) &&
                                             exists f :: f in fetches && r in f.table)
    decreases |fetches|
  {
    hide Below, ListPage, CursorOf, Descending, ReadsBack;
    if fetches != [] {
      var limit := fetches[0].limit;
      var all, next := WalkStep(fetches, query, from);
      assert fetches[0] in fetches;
      if |all| > limit {
        WalkDecreases(fetches[1..], query, next);
        var rest := Walk(fetches[1..], query, CursorOf(next));
        var page, last := all[..limit], all[limit - 1];
        assert last in all && page[|page| - 1] == last;
        forall r | r in rest.items
          ensures Under(r.At(), from) && query.keep(r.fields) && exists g :: g in fetches && r in g.table
        {
          assert Below(r.At(), last.At());
          if from.Some? {
            BelowTransitive(r.At(), last.At(), from.value);
          }
        }
        JoinDecreasing(page, rest.items);
        assert forall r :: r in page ==> r in all;
      }
    }
    DecreasingIsNewestFirst(Walk(fetches, query, CursorOf(from)).items);
  }

  /** The walk finished, and every table it looked at showed the position. */
  ghost predicate ShownThroughout<P(!new)>(fetches: seq<Fetch<P>>, w: Trail<P>, query: Query<P>, p: Position) {
    w.finished && w.pages <= |fetches| && forall i :: 0 <= i < w.pages ==> Shows(fetches[i].table, query, p)
  }

  /** A position shown by every table a finished walk looked at is emitted. */
  lemma {:induction false} WalkComplete<P(!new)>(
    fetches: seq<Fetch<P>>, query: Query<P>, from: Option<Position>, p: Position)
    requires ReadsBack(query.decode) && Requests(fetches) && Aware(from) && Under(p, from)
    ensures ShownThroughout(fetches, Walk(fetches, query, CursorOf(from)), query, p) ==>
              exists r :: r in Walk(fetches, query, CursorOf(from)).items && r.At() == p
    decreases |fetches|
  {
    hide Below, ListPage, CursorOf, Descending, ReadsBack;
    var w := Walk(fetches, query, CursorOf(from));
    if ShownThroughout(fetches, w, query, p) {
      var limit := fetches[0].limit;
      var all, next := WalkStep(fetches, query, from);
      assert Shows(fetches[0].table, query, p);
      var r :| r in fetches[0].table && query.keep(r.fields) && r.At() == p;
      var i :| 0 <= i < |all| && all[i] == r;
      if |all| > limit {
        var rest := Walk(fetches[1..], query, CursorOf(next));
        if i < limit {
          assert all[..limit][i] == r;
        } else {
          assert Below(r.At(), all[limit - 1].At());
          assert forall k :: 0 <= k < rest.pages ==> fetches[1..][k] == fetches[k + 1];
          WalkComplete(fetches[1..], query, next, p);
          var q :| q in rest.items && q.At() == p;
          assert q in w.items;
        }
      }
    }
  }

  ghost predicate EmittedOnce<P(!new)>(items: seq<Row<P>>, p: Position) {
    exists i :: && 0 <= i < |items| && items[i].At() == p
                && forall j :: 0 <= j < |items| && items[j].At() == p ==> j == i
  }

  lemma DecreasingOnce<P(!new)>(items: seq<Row<P>>, r: Row<P>)
    requires Decreasing(items) && r in items
    ensures EmittedOnce(items, r.At())
  {
    hide Below;
    var i :| 0 <= i < |items| && items[i] == r;
    NotBelowItself(r.At());
  }

  /** Over a changing table, a finished walk emits every row that matched throughout exactly once. */
  lemma ChangingTable<P(!new)>(fetches: seq<Fetch<P>>, query: Query<P>, p: Position)
    requires ReadsBack(query.decode) && Requests(fetches)
    ensures ShownThroughout(fetches, Walk(fetches, query, None), query, p) ==>
              EmittedOnce(Walk(fetches, query, None).items, p)
  {
    hide Below, Walk, Requests, ReadsBack, ShownThroughout, EmittedOnce, Decreasing;
    if ShownThroughout(fetches, Walk(fetches, query, None), query, p) {
      assert CursorOf(None) == None;
      WalkDecreases(fetches, query, None);
      WalkComplete(fetches, query, None, p);
      var items := Walk(fetches, query, None).items;
      var r :| r in items && r.At() == p;
      DecreasingOnce(items, r);
    }
  }

  lemma NotBelowItself(p: Position)
    ensures !Below(p, p)
  {
  }

  // ------------------------------------------------- walking a table that does not change

  /** The pages that n rows fill, d to a page: n / d rounded up. */
  function Ceil(n: nat, d: nat): nat
    requires d >= 1
  {
    if n <= d then if n == 0 then 0 else 1 else 1 + Ceil(n - d, d)
  }

  lemma {:induction false} CeilIsQuotient(n: nat, d: nat)
    requires d >= 1
    ensures Ceil(n, d) == (n + d - 1) / d
    decreases n
  {
    if n > d {
      CeilIsQuotient(n - d, d);
      QuotientStep(n - 1, d);
    } else if n == 0 {
      QuotientUnique(d - 1, d, 0);
    } else {
      QuotientUnique(n + d - 1, d, 1);
    }
  }

  function Steady<P(==)>(f: Fetch<P>, n: nat): seq<Fetch<P>> {
    seq(n, _ => f)
  }

  lemma SteadyRequests<P(!new)>(f: Fetch<P>, n: nat)
    requires Keyed(f.table) && f.limit >= 1
    ensures Requests(Steady(f, n))
    ensures n >= 1 ==> Steady(f, n) != [] && Steady(f, n)[0] == f && Steady(f, n)[1..] == Steady(f, n - 1)
  {
  }

  lemma {:induction false} SteadyWalk<P(!new)>(
    f: Fetch<P>, n: nat, query: Query<P>, from: Option<Position>)
    requires ReadsBack(query.decode) && Keyed(f.table) && f.limit >= 1 && n >= 1 && Aware(from)
    ensures Requests(Steady(f, n)) && Keyed(Cut(Matching(f.table, query), from))
    ensures var all := Descending(Cut(Matching(f.table, query), from));
            n >= Ceil(|all|, f.limit) ==>
              Walk(Steady(f, n), query, CursorOf(from)) ==
              Trail(all, if all == [] then 1 else Ceil(|all|, f.limit), true)
    decreases n
  {
    hide Below, CursorOf, Descending, ReadsBack, Walk, Requests, Steady, Keyed;
    SteadyRequests(f, n);
    var rows := Cut(Matching(f.table, query), from);
    var all, next := WalkStep(Steady(f, n), query, from);
    if |all| > f.limit && n >= Ceil(|all|, f.limit) {
      CutAfter(rows, f.limit);
      assert all[f.limit - 1] in all;
      CutTwice(f.table, query, from, all[f.limit - 1]);
      SteadyWalk(f, n - 1, query, next);
      assert all == all[..f.limit] + all[f.limit..];
    }
  }

  lemma CutTwice<P(!new)>(table: set<Row<P>>, query: Query<P>, from: Option<Position>, r: Row<P>)
    requires Under(r.At(), from)
    ensures Cut(Matching(table, query), Some(r.At())) == Beyond(Cut(Matching(table, query), from), r.At())
  {
  }

  /** n / d rounded up, and one page even for nothing. */
  function PageCount(n: nat, d: nat): nat
    requires d >= 1
  {
    if n == 0 then 1 else (n + d - 1) / d
  }

  /** n requests with the same limit on the same table, from the top. */
  ghost function FixedWalk<P(!new)>(table: set<Row<P>>, query: Query<P>, limit: nat, n: nat): Trail<P>
    requires Keyed(table) && limit >= 1
  {
    SteadyRequests(Fetch(table, limit), n);
    Walk(Steady(Fetch(table, limit), n), query, None)
  }

  /** On a fixed table the walk emits exactly the sorted, filtered table, in max(1, ceil(n / limit)) pages. */
  lemma FixedTable<P(!new)>(table: set<Row<P>>, query: Query<P>, limit: nat, n: nat)
    requires Keyed(table) && limit >= 1 && ReadsBack(query.decode)
    requires n >= PageCount(|Matching(table, query)|, limit)
    ensures Keyed(Matching(table, query))
    ensures NewestFirst(FixedWalk(table, query, limit, n).items)
    ensures FixedWalk(table, query, limit, n) ==
            Trail(Descending(Matching(table, query)), PageCount(|Matching(table, query)|, limit), true)
  {
    hide Below, Walk, ReadsBack, EncodeCursor, Descending;
    assert CursorOf(None) == None;
    DescendingDecreases(Matching(table, query));
    CeilIsQuotient(|Matching(table, query)|, limit);
    SteadyWalk(Fetch(table, limit), n, query, None);
    DecreasingIsNewestFirst(Descending(Matching(table, query)));
  }

  // ------------------------------------------------- the two lists

  datatype TaskFields = TaskFields(
    organization: nat, project: nat, status: string, assignee: Option<nat>, priority: string)

  /** The task list's optional query parameters. */
  datatype TaskFilter = TaskFilter(
    organization: nat, project: Option<nat>, status: Option<string>, assignee: Option<nat>, priority: Option<string>)
  {
    predicate Admits(task: TaskFields) {
      && task.organization == organization
      && (project.Some? ==> task.project == project.value)
      && (status.Some? ==> task.status == status.value)
      && (assignee.Some? ==> task.assignee == assignee)
      && (priority.Some? ==> task.priority == priority.value)
    }
  }

  ghost function ListTasks(
    table: set<Row<TaskFields>>, filter: TaskFilter, decode: Decoder, cursor: Option<string>, limit: nat)
    : Result<Page<TaskFields>, CursorError>
    requires Keyed(table)
  {
    ListPage(table, Query((task: TaskFields) => filter.Admits(task), decode), cursor, limit)
  }

  datatype ProjectFields = ProjectFields(organization: nat, name: string, status: string)

  ghost function ListProjects(
    table: set<Row<ProjectFields>>, organization: nat, decode: Decoder, cursor: Option<string>, limit: nat)
    : Result<Page<ProjectFields>, CursorError>
    requires Keyed(table)
  {
    ListPage(table, Query((project: ProjectFields) => project.organization == organization, decode), cursor, limit)
  }

  /** An absent or empty cursor selects from the top. */
  predicate Given(cursor: Option<string>) {
    cursor.Some? && cursor.value != ""
  }

  /** The row comes after the cursor: in fields where the two have the same offset. */
  ghost predicate AfterCursor(at: Position, cursor: Position) {
    && Below(at, cursor)
    && OlderIfAligned(at, cursor)
  }

  lemma AfterIsBelow(at: Position, cursor: Position)
    ensures AfterCursor(at, cursor) <==> Below(at, cursor)
    ensures at.createdAt.offset == cursor.createdAt.offset ==> (AfterCursor(at, cursor) <==> OlderInFields(at, cursor))
  {
    hide Below, OlderInFields;
    if at.createdAt.offset == cursor.createdAt.offset {
      BelowIsOlder(at, cursor);
    }
  }

  /** What a task page shows: the newest of the organization's tasks that pass every given filter. */
  lemma TaskPage(
    table: set<Row<TaskFields>>, filter: TaskFilter, decode: Decoder, cursor: Option<string>, limit: nat)
    requires Keyed(table) && limit >= 1
    ensures ListTasks(table, filter, decode, cursor, limit).Failure? <==> Given(cursor) && decode(cursor.value).Failure?
    ensures ListTasks(table, filter, decode, cursor, limit).Success? ==>
              exists selected ::
                && ShowsNewest(selected, ListTasks(table, filter, decode, cursor, limit).value, limit)
                && ShowsNewestInFields(selected, ListTasks(table, filter, decode, cursor, limit).value, limit)
                && forall r :: r in selected <==>
                     && r in table
                     && r.fields.organization == filter.organization
                     && (filter.project.Some? ==> r.fields.project == filter.project.value)
                     && (filter.status.Some? ==> r.fields.status == filter.status.value)
                     && (filter.assignee.Some? ==> r.fields.assignee == Some(filter.assignee.value))
                     && (filter.priority.Some? ==> r.fields.priority == filter.priority.value)
                     && (Given(cursor) ==> AfterCursor(r.At(), decode(cursor.value).value))
  {
    hide Below, AfterCursor, ShowsNewest, ShowsNewestInFields, Instant, Descending;
    PageIsNewest(table, Query((task: TaskFields) => filter.Admits(task), decode), cursor, limit);
    forall at, position
      ensures AfterCursor(at, position) <==> Below(at, position)
    {
      AfterIsBelow(at, position);
    }
  }

  /** What a project page shows: the newest of the organization's projects. */
  lemma ProjectPage(
    table: set<Row<ProjectFields>>, organization: nat, decode: Decoder, cursor: Option<string>, limit: nat)
    requires Keyed(table) && limit >= 1
    ensures ListProjects(table, organization, decode, cursor, limit).Failure? <==>
              Given(cursor) && decode(cursor.value).Failure?
    ensures ListProjects(table, organization, decode, cursor, limit).Success? ==>
              exists selected ::
                && ShowsNewest(selected, ListProjects(table, organization, decode, cursor, limit).value, limit)
                && ShowsNewestInFields(selected, ListProjects(table, organization, decode, cursor, limit).value, limit)
                && forall r :: r in selected <==>
                     && r in table && r.fields.organization == organization
                     && (Given(cursor) ==> AfterCursor(r.At(), decode(cursor.value).value))
  {
    hide Below, AfterCursor, ShowsNewest, ShowsNewestInFields, Instant, Descending;
    PageIsNewest(table, Query((project: ProjectFields) => project.organization == organization, decode), cursor, limit);
    forall at, position
      ensures AfterCursor(at, position) <==> Below(at, position)
    {
      AfterIsBelow(at, position);
    }
  }

  /** Of a task of January and one of February 2024, a page of one shows the latter. */
  lemma FebruaryFirst(
    table: set<Row<TaskFields>>, january: Row<TaskFields>, february: Row<TaskFields>, filter: TaskFilter,
    decode: Decoder)
    requires table == {january, february}
    requires january.createdAt == DateTime(2024, 1, 1, 0, 0, 0, 0, Some(0))
    requires february.createdAt == DateTime(2024, 2, 1, 0, 0, 0, 0, Some(0))
    requires january.fields == february.fields && january.id != february.id
    requires filter == TaskFilter(january.fields.organization, None, None, None, None)
    ensures Keyed(table)
    ensures var page := ListTasks(table, filter, decode, None, 1);
            page.Success? && page.value.items == [february]
  {
    hide Below, ShowsNewest, Instant, Descending, ListPage;
    var query := Query((task: TaskFields) => filter.Admits(task), decode);
    PageIsNewest(table, query, None, 1);
    var page := ListPage(table, query, None, 1).value;
    var selected := Selected(table, query, None).value;
    assert january in selected && february in selected && selected == table && |table| == 2;
    assert page.items[0] in page.items;
    assert !OlderInFields(february.At(), january.At());
  }
}
