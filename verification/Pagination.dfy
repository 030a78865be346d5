// Keyset pagination over releases, and the index rebuild that relies on it.
module Pagination {
  import opened Common

  const DEFAULT_LIMIT := 100
  const DEFAULT_COUNT_CAP := 10000
  const DEFAULT_PAGE := 500

  datatype Row = Row(id: int, guid: string, postedAt: Option<int>, createdAt: int, name: string)

  // (coalesce(posted_at, created_at), id): a position in the recency order.
  datatype Cursor = Cursor(sort: int, id: int)

  function At(r: Row): (c: Cursor)
  {
    Cursor(if r.postedAt.Some? then r.postedAt.value else r.createdAt, r.id)
  }

  // Row comparison, as SQL compares the pairs.
  predicate Less(a: Cursor, b: Cursor)
  {
    a.sort < b.sort || (a.sort == b.sort && a.id < b.id)
  }

  predicate UniqueIds(rows: set<Row>)
  {
    forall a, b :: a in rows && b in rows && a.id == b.id ==> a == b
  }

  // ---- the recency order ----

  predicate IsNewest(rows: set<Row>, r: Row)
  {
    r in rows && forall q :: q in rows && q != r ==> Less(At(q), At(r))
  }

  lemma {:induction false} NewestExists(rows: set<Row>) returns (r: Row)
    requires UniqueIds(rows) && rows != {}
    ensures IsNewest(rows, r)
    decreases rows
  {
    r :| r in rows;
    if rows != {r} {
      assert forall q :: q in rows && q != r ==> q in rows - {r};
      var q := NewestExists(rows - {r});
      if Less(At(r), At(q)) {
        r := q;
      }
    }
  }

  // ORDER BY coalesce(posted_at, created_at) DESC, id DESC
  ghost function Ordered(rows: set<Row>): (s: seq<Row>)
    requires UniqueIds(rows)
    ensures |s| == |rows|
    decreases rows
  {
    if rows == {} then []
    else
      assert exists r :: IsNewest(rows, r) by { var r := NewestExists(rows); }
      var r :| IsNewest(rows, r);
      [r] + Ordered(rows - {r})
  }

  // Exactly the rows, each once, strictly older from one to the next.
  ghost predicate IsOrdering(rows: set<Row>, s: seq<Row>)
  {
    && (forall r :: r in s <==> r in rows)
    && (forall i, j :: 0 <= i < j < |s| ==> Less(At(s[j]), At(s[i])))
  }

  lemma {:induction false} OrderedIsOrdering(rows: set<Row>)
    requires UniqueIds(rows)
    ensures IsOrdering(rows, Ordered(rows))
    decreases rows
  {
    if rows != {} {
      var r := Ordered(rows)[0];
      OrderedIsOrdering(rows - {r});
    }
  }

  lemma NewestFirst(rows: set<Row>, s: seq<Row>)
    requires IsOrdering(rows, s) && s != []
    ensures IsNewest(rows, s[0]) && IsOrdering(rows - {s[0]}, s[1..])
  {
    hide At;
    assert s[0] in s;
    forall r
      ensures r in s[1..] <==> r in rows - {s[0]}
    {
      if r in s[1..] {
        var j :| 0 <= j < |s| - 1 && s[1..][j] == r;
        assert s[j + 1] == r && Less(At(s[j + 1]), At(s[0]));
      }
      if r in rows - {s[0]} {
        var j :| 0 <= j < |s| && s[j] == r;
        assert s[1..][j - 1] == r;
      }
    }
    forall r | r in rows && r != s[0]
      ensures Less(At(r), At(s[0]))
    {
      var j :| 0 <= j < |s| && s[j] == r;
    }
  }

  lemma OneNewest(rows: set<Row>, q: Row, r: Row)
    requires IsNewest(rows, q) && IsNewest(rows, r)
    ensures q == r
  {
  }

  lemma NewestIsFirst(rows: set<Row>, r: Row)
    requires UniqueIds(rows) && IsNewest(rows, r)
    ensures Ordered(rows) == [r] + Ordered(rows - {r})
  {
    OrderedIsOrdering(rows);
    NewestFirst(rows, Ordered(rows));
    OneNewest(rows, Ordered(rows)[0], r);
  }

  lemma {:induction false} OrderingIsUnique(rows: set<Row>, s: seq<Row>)
    requires UniqueIds(rows) && IsOrdering(rows, s)
    ensures s == Ordered(rows)
    decreases |s|
  {
    if s == [] {
      assert rows == {};
    } else {
      NewestFirst(rows, s);
      hide IsNewest, IsOrdering, Ordered;
      NewestIsFirst(rows, s[0]);
      OrderingIsUnique(rows - {s[0]}, s[1..]);
    }
  }

  // ---- one page ----

  datatype Filter = Filter(matches: Row -> bool, limit: int, offset: int, countCap: int, cursor: Option<Cursor>)

  datatype Page = Page(releases: seq<Row>, total: nat, approximate: bool, nextCursor: Option<Cursor>, hasMore: bool)

  function Take<T>(s: seq<T>, n: nat): (r: seq<T>)
  {
    if n <= |s| then s[..n] else s
  }

  function Drop<T>(s: seq<T>, n: nat): (r: seq<T>)
  {
    if n <= |s| then s[n..] else []
  }

  function Limit(f: Filter): (l: nat)
    ensures l > 0
  {
    if f.limit <= 0 then DEFAULT_LIMIT else f.limit
  }

  function Matching(rows: set<Row>, f: Filter): (s: set<Row>)
    ensures UniqueIds(rows) ==> UniqueIds(s)
  {
    set r | r in rows && f.matches(r)
  }

  function Below(rows: set<Row>, c: Option<Cursor>): (s: set<Row>)
    ensures UniqueIds(rows) ==> UniqueIds(s)
  {
    if c.None? then rows else set r | r in rows && Less(At(r), c.value)
  }

  // OFFSET only counts on the cursorless path.
  function Start(f: Filter): (n: nat)
    requires f.cursor.None? ==> f.offset >= 0
  {
    if f.cursor.None? then f.offset else 0
  }

  ghost function Listed(rows: set<Row>, f: Filter): (s: seq<Row>)
    requires UniqueIds(rows) && (f.cursor.None? ==> f.offset >= 0)
  {
    var all := Ordered(Below(Matching(rows, f), f.cursor));
    Take(Drop(all, Start(f)), Limit(f))
  }

  function LastOf(page: seq<Row>): (c: Option<Cursor>)
  {
    if page == [] then None else Some(At(page[|page| - 1]))
  }

  // The total is exact up to the cap; a negative cap means no cap.
  method BoundedCount(rows: set<Row>, f: Filter) returns (total: nat, approximate: bool)
    ensures approximate ==>
      total < |Matching(rows, f)| && total == if f.countCap == 0 then 10000 else f.countCap
    ensures !approximate ==> total == |Matching(rows, f)|
    ensures f.countCap < 0 ==> !approximate
    ensures f.countCap >= 0 ==> total <= if f.countCap == 0 then 10000 else f.countCap
  {
    var cap := if f.countCap == 0 then DEFAULT_COUNT_CAP else f.countCap;
    if cap < 0 {
      return |Matching(rows, f)|, false;
    }
    var n := Min(|Matching(rows, f)|, cap + 1);
    if n > cap {
      return cap, true;
    }
    return n, false;
  }

  // LIMIT and OFFSET over the recency order: one row at a time, newest first.
  method Fetch(rows: set<Row>, offset: nat, limit: nat) returns (out: seq<Row>)
    requires UniqueIds(rows)
    ensures out == Take(Drop(Ordered(rows), offset), limit)
  {
    out := [];
    var rest, skip := rows, offset;
    hide Ordered, IsNewest, Take, Drop;
    while |out| < limit && rest != {}
      invariant UniqueIds(rest) && |out| <= limit
      invariant out + Take(Drop(Ordered(rest), skip), limit - |out|) == Take(Drop(Ordered(rows), offset), limit)
      decreases rest
    {
      var n := NewestExists(rest);
      var r :| r in rest && IsNewest(rest, r);
      NewestIsFirst(rest, r);
      TakeOne(r, Ordered(rest - {r}), skip, limit - |out|);
      rest := rest - {r};
      if skip > 0 {
        skip := skip - 1;
      } else {
        out := out + [r];
      }
    }
    TakeNone(Ordered(rest), skip, limit - |out|);
  }

  lemma TakeOne(r: Row, s: seq<Row>, skip: nat, n: nat)
    requires n > 0
    ensures Take(Drop([r] + s, skip), n) ==
      if skip > 0 then Take(Drop(s, skip - 1), n)
      else [r] + Take(Drop(s, 0), n - 1)
  {
  }

  lemma TakeNone(s: seq<Row>, skip: nat, n: nat)
    requires s == [] || n == 0
    ensures Take(Drop(s, skip), n) == []
  {
  }

  // None is the database's refusal of a negative OFFSET.
  method SearchReleasesPage(rows: set<Row>, f: Filter) returns (page: Option<Page>)
    requires UniqueIds(rows)
    ensures page.None? <==> f.cursor.None? && f.offset < 0
    ensures page.Some? ==> page.value.releases == Listed(rows, f)
    ensures page.Some? ==> (page.value.hasMore <==> |page.value.releases| == Limit(f))
    ensures page.Some? ==> page.value.nextCursor == LastOf(page.value.releases)
    ensures page.Some? && !page.value.approximate ==> page.value.total == |Matching(rows, f)|
    ensures page.Some? && page.value.approximate ==> page.value.total < |Matching(rows, f)|
  {
    if f.cursor.None? && f.offset < 0 {
      return None;
    }
    var total, approximate := BoundedCount(rows, f);
    var out := Fetch(Below(Matching(rows, f), f.cursor), Start(f), Limit(f));
    return Some(Page(out, total, approximate, LastOf(out), |out| == Limit(f)));
  }

  // ---- what a page is, in terms of the rows ----

  // Later posting dates come first, creation dates standing in for missing
  // ones, and larger ids first on the same date.
  lemma LessMeans(q: Row, r: Row)
    ensures var d := if q.postedAt.Some? then q.postedAt.value else q.createdAt;
      var e := if r.postedAt.Some? then r.postedAt.value else r.createdAt;
      Less(At(q), At(r)) <==> d < e || (d == e && q.id < r.id)
  {
  }

  // The k-th row of the order has exactly k newer ones.
  lemma RankIs(rows: set<Row>, k: nat)
    requires UniqueIds(rows) && k < |rows|
    ensures Ordered(rows)[k] in rows
    ensures |set q | q in rows && Less(At(Ordered(rows)[k]), At(q))| == k
  {
    hide At;
    var s := Ordered(rows);
    OrderedIsOrdering(rows);
    assert s[k] in s;
    forall q
      ensures q in rows && Less(At(s[k]), At(q)) <==> q in s[..k]
    {
      if q in rows {
        var j :| 0 <= j < |s| && s[j] == q;
        assert j < k ==> s[..k][j] == q;
      }
      if q in s[..k] {
        var j :| 0 <= j < k && s[..k][j] == q;
        assert s[j] == q;
      }
    }
    assert (set q | q in rows && Less(At(s[k]), At(q))) == Members(s[..k]);
    forall i, j | 0 <= i < j < k ensures s[..k][i] != s[..k][j] {
      assert Less(At(s[j]), At(s[i]));
    }
    MembersSize(s[..k]);
  }

  function Members(s: seq<Row>): (m: set<Row>)
  {
    set q | q in s
  }

  lemma {:induction false} MembersSize(s: seq<Row>)
    requires forall i, j :: 0 <= i < j < |s| ==> s[i] != s[j]
    ensures |Members(s)| == |s|
    decreases |s|
  {
    if s == [] {
      assert Members(s) == {};
    } else {
      var rest := s[1..];
      MembersSize(rest);
      assert Members(s) == Members(rest) + {s[0]};
      assert s[0] !in rest;
    }
  }

  // A page holds matching rows older than the cursor, if there is one, and its
  // i-th row has exactly as many of them before it as the offset says, plus i.
  // It is as long as the limit and the rows allow.
  lemma PageMeans(rows: set<Row>, f: Filter, candidates: set<Row>)
    requires UniqueIds(rows) && (f.cursor.None? ==> f.offset >= 0)
    requires candidates == set r | r in rows && f.matches(r)
      && (f.cursor.Some? ==>
            var d := if r.postedAt.Some? then r.postedAt.value else r.createdAt;
            d < f.cursor.value.sort || (d == f.cursor.value.sort && r.id < f.cursor.value.id))
    ensures var p := Listed(rows, f); var skip := if f.cursor.None? then f.offset else 0;
      && |p| == Min(if f.limit <= 0 then 100 else f.limit, Max(|candidates| - skip, 0))
      && forall i :: 0 <= i < |p| ==>
           p[i] in candidates && |set q | q in candidates && Less(At(p[i]), At(q))| == skip + i
  {
    var m := Below(Matching(rows, f), f.cursor);
    assert m == candidates;
    var p, skip := Listed(rows, f), Start(f);
    assert |p| == Min(Limit(f), Max(|m| - skip, 0));
    forall i | 0 <= i < |p|
      ensures p[i] in candidates && |set q | q in candidates && Less(At(p[i]), At(q))| == skip + i
    {
      assert p[i] == Ordered(m)[skip + i];
      RankIs(m, skip + i);
    }
  }

  // ---- following the cursor ----

  // The rows below the k-th row of the order are the rest of the order.
  lemma BelowIsSuffix(rows: set<Row>, k: nat)
    requires UniqueIds(rows) && k < |rows|
    ensures Ordered(Below(rows, Some(At(Ordered(rows)[k])))) == Ordered(rows)[k + 1..]
  {
    OrderedIsOrdering(rows);
    SuffixIsBelow(rows, Ordered(rows), k);
    OrderingIsUnique(Below(rows, Some(At(Ordered(rows)[k]))), Ordered(rows)[k + 1..]);
  }

  lemma SuffixIsBelow(rows: set<Row>, s: seq<Row>, k: nat)
    requires IsOrdering(rows, s) && k < |s|
    ensures IsOrdering(Below(rows, Some(At(s[k]))), s[k + 1..])
  {
    hide At;
    var below, rest := Below(rows, Some(At(s[k]))), s[k + 1..];
    forall r
      ensures r in rest <==> r in below
    {
      if r in rest {
        var j :| 0 <= j < |rest| && rest[j] == r;
        assert s[k + 1 + j] == r;
      }
      if r in below {
        var j :| 0 <= j < |s| && s[j] == r;
        assert j > k;
        assert rest[j - k - 1] == r;
      }
    }
  }

  // A client that keeps passing NextCursor: the k-th page it sees. The filter
  // and the table are fixed. A page after an empty one does not exist.
  ghost function NthPage(rows: set<Row>, f: Filter, k: nat): (page: Option<seq<Row>>)
    requires UniqueIds(rows) && f.cursor.None? && f.offset == 0
  {
    if k == 0 then Some(Listed(rows, f))
    else
      match NthPage(rows, f, k - 1)
      case None => None
      case Some(p) => if p == [] then None else Some(Listed(rows, f.(cursor := LastOf(p))))
  }

  // k * l, the OFFSET of page k.
  function OffsetOf(k: nat, l: nat): (n: nat)
    ensures k == 0 ==> n == 0
  {
    if k == 0 then 0 else OffsetOf(k - 1, l) + l
  }

  lemma {:induction false} OffsetIsProduct(k: nat, l: nat)
    ensures OffsetOf(k, l) == k * l
  {
    if k > 0 {
      OffsetIsProduct(k - 1, l);
      assert (k - 1) * l + l == k * l;
    }
  }

  // Page k by cursor is page k by OFFSET, for as long as there is a page.
  lemma {:induction false} KeysetEqualsOffset(rows: set<Row>, f: Filter, k: nat)
    requires UniqueIds(rows) && f.cursor.None? && f.offset == 0
    ensures NthPage(rows, f, k).Some? <==> k == 0 || OffsetOf(k - 1, Limit(f)) < |Matching(rows, f)|
    ensures NthPage(rows, f, k).Some? ==> NthPage(rows, f, k).value == Listed(rows, f.(offset := OffsetOf(k, Limit(f))))
  {
    hide NthPage, Listed, Matching, UniqueIds, Limit;
    if k == 0 {
      FirstPage(rows, f);
    } else {
      KeysetEqualsOffset(rows, f, k - 1);
      PageStep(rows, f, k, OffsetOf(k - 1, Limit(f)));
    }
  }

  lemma FirstPage(rows: set<Row>, f: Filter)
    requires UniqueIds(rows) && f.cursor.None? && f.offset == 0
    ensures NthPage(rows, f, 0) == Some(Listed(rows, f.(offset := 0)))
  {
    assert f == f.(offset := 0);
  }

  lemma PageStep(rows: set<Row>, f: Filter, k: nat, from: nat)
    requires UniqueIds(rows) && f.cursor.None? && f.offset == 0 && k > 0
    requires NthPage(rows, f, k - 1).Some? ==> NthPage(rows, f, k - 1).value == Listed(rows, f.(offset := from))
    ensures NthPage(rows, f, k).Some? <==> NthPage(rows, f, k - 1).Some? && from < |Matching(rows, f)|
    ensures NthPage(rows, f, k).Some? ==> NthPage(rows, f, k).value == Listed(rows, f.(offset := from + Limit(f)))
  {
    hide Listed, Matching, Limit, LastOf;
    PageLength(rows, f, from);
    if from < |Matching(rows, f)| {
      NextPage(rows, f, from);
    }
  }

  lemma PageLength(rows: set<Row>, f: Filter, from: nat)
    requires UniqueIds(rows) && f.cursor.None?
    ensures Listed(rows, f.(offset := from)) != [] <==> from < |Matching(rows, f)|
  {
    assert Matching(rows, f.(offset := from)) == Matching(rows, f);
  }

  // The page after the one at OFFSET `from`, by its cursor and by OFFSET.
  lemma NextPage(rows: set<Row>, f: Filter, from: nat)
    requires UniqueIds(rows) && f.cursor.None? && from < |Matching(rows, f)|
    ensures var p := Listed(rows, f.(offset := from));
      && p != []
      && Listed(rows, f.(cursor := LastOf(p))) == Listed(rows, f.(offset := from + Limit(f)))
  {
    var m := Matching(rows, f);
    hide *;
    SameMatches(rows, f, from, None);
    SameMatches(rows, f, from + Limit(f), None);
    var p := Take(Drop(Ordered(m), from), Limit(f));
    SliceStep(Ordered(m), from, Limit(f));
    LastIs(p);
    SameMatches(rows, f, f.offset, LastOf(p));
    BelowIsSuffix(m, from + |p| - 1);
  }

  lemma LastIs(p: seq<Row>)
    requires p != []
    ensures LastOf(p) == Some(At(p[|p| - 1]))
  {
  }

  lemma SameMatches(rows: set<Row>, f: Filter, offset: int, c: Option<Cursor>)
    requires UniqueIds(rows) && (c.None? ==> offset >= 0)
    ensures var g := f.(offset := offset, cursor := c); var m := Matching(rows, f);
      && Matching(rows, g) == m
      && (c.None? ==> Listed(rows, g) == Take(Drop(Ordered(m), offset), Limit(f)))
      && (c.Some? ==> Listed(rows, g) == Take(Drop(Ordered(Below(m, c)), 0), Limit(f)))
  {
    assert Matching(rows, f.(offset := offset, cursor := c)) == Matching(rows, f);
  }

  lemma SliceStep(all: seq<Row>, from: nat, l: nat)
    requires from < |all| && l > 0
    ensures var p := Take(Drop(all, from), l);
      && 0 < |p| && from + |p| <= |all| && p[|p| - 1] == all[from + |p| - 1]
      && Take(Drop(all[from + |p|..], 0), l) == Take(Drop(all, from + l), l)
  {
  }

  // What the client has collected after k pages.
  ghost function Collected(rows: set<Row>, f: Filter, k: nat): (s: seq<Row>)
    requires UniqueIds(rows) && f.cursor.None? && f.offset == 0
  {
    if k == 0 then []
    else Collected(rows, f, k - 1) + (if NthPage(rows, f, k - 1).Some? then NthPage(rows, f, k - 1).value else [])
  }

  // k pages hold the k * limit newest matches, each once and in order; enough
  // pages hold them all.
  lemma {:induction false} CollectedIsPrefix(rows: set<Row>, f: Filter, k: nat)
    requires UniqueIds(rows) && f.cursor.None? && f.offset == 0
    ensures Collected(rows, f, k) == Take(Ordered(Matching(rows, f)), OffsetOf(k, Limit(f)))
    ensures OffsetOf(k, Limit(f)) >= |Matching(rows, f)| ==> Collected(rows, f, k) == Ordered(Matching(rows, f))
  {
    hide NthPage, Listed, Matching, Ordered, UniqueIds, Limit;
    var all := Ordered(Matching(rows, f));
    if k > 0 {
      var l := Limit(f);
      var from := OffsetOf(k - 1, l);
      CollectedIsPrefix(rows, f, k - 1);
      KeysetEqualsOffset(rows, f, k - 1);
      SameMatches(rows, f, from, None);
      TakeMore(all, from, l);
    }
  }

  lemma TakeMore(all: seq<Row>, from: nat, l: nat)
    ensures Take(all, from) + Take(Drop(all, from), l) == Take(all, from + l)
    ensures from >= |all| ==> Take(all, from) == Take(all, from + l)
  {
  }

  // ---- rebuilding the index ----

  // What stops the rebuild before page k or at document n, if anything.
  datatype Env = Env(pageFails: nat -> bool, documentFails: nat -> bool)

  // The derived search index: documents upserted by guid, and the order of writes.
  class Index {
    var docs: map<string, Row>
    ghost var log: seq<Row>

    constructor ()
      ensures docs == map[] && log == []
    {
      docs, log := map[], [];
    }

    method IndexRelease(r: Row)
      modifies this
      ensures docs == old(docs)[r.guid := r] && log == old(log) + [r]
    {
      docs, log := docs[r.guid := r], log + [r];
    }
  }

  function Upserted(docs: map<string, Row>, s: seq<Row>): (m: map<string, Row>)
  {
    if s == [] then docs else Upserted(docs, s[..|s| - 1])[s[|s| - 1].guid := s[|s| - 1]]
  }

  lemma {:induction false} UpsertedTwice(docs: map<string, Row>, s: seq<Row>, t: seq<Row>)
    ensures Upserted(Upserted(docs, s), t) == Upserted(docs, s + t)
    decreases |t|
  {
    if t == [] {
      assert s + t == s;
    } else {
      UpsertedTwice(docs, s, t[..|t| - 1]);
      assert (s + t)[..|s + t| - 1] == s + t[..|t| - 1];
    }
  }

  // The documents of one page; n counts the ones written.
  method IndexAll(ix: Index, out: seq<Row>, first: nat, env: Env) returns (n: nat, fine: bool)
    modifies ix
    ensures n <= |out| && ix.log == old(ix.log) + out[..n] && ix.docs == Upserted(old(ix.docs), out[..n])
    ensures fine ==> n == |out|
    ensures !fine ==> env.documentFails(first + n)
  {
    n := 0;
    while n < |out|
      invariant n <= |out| && ix.log == old(ix.log) + out[..n] && ix.docs == Upserted(old(ix.docs), out[..n])
    {
      if env.documentFails(first + n) {
        return n, false;
      }
      assert out[..n + 1] == out[..n] + [out[n]] && out[..n + 1][..n] == out[..n];
      ix.IndexRelease(out[n]);
      n := n + 1;
    }
    return n, true;
  }

  function PageSize(n: int): (size: nat)
    ensures size > 0
  {
    if n <= 0 then DEFAULT_PAGE else n
  }

  lemma PageSizeIs(n: int)
    ensures PageSize(n) == if n <= 0 then 500 else n
  {
  }

  // Pages through the whole table; ok is false after an error or cancellation.
  method Reindex(ix: Index, rows: set<Row>, pageSize: int, env: Env) returns (indexed: nat, ok: bool)
    requires UniqueIds(rows)
    modifies ix
    ensures indexed <= |rows| && ix.log == old(ix.log) + Ordered(rows)[..indexed]
    ensures ix.docs == Upserted(old(ix.docs), Ordered(rows)[..indexed])
    ensures ok ==> indexed == |rows|
    // It stops at a document that fails, or after whole pages at a query that fails.
    ensures ok || env.documentFails(indexed)
            || exists k: nat :: env.pageFails(k) && indexed == k * (if pageSize <= 0 then 500 else pageSize)
    ensures (forall k: nat :: !env.pageFails(k) && !env.documentFails(k)) ==> ok
  {
    hide *;
    var size := PageSize(pageSize);
    PageSizeIs(pageSize);
    var cursor: Option<Cursor> := None;
    indexed, ok := 0, false;
    var k := 0;
    ghost var s := Ordered(rows);
    BelowNothing(rows);
    WrittenNone(ix.docs, ix.log, s);
    while true
      invariant 0 <= k && indexed <= |s| && Written(old(ix.docs), old(ix.log), ix.docs, ix.log, s, indexed)
      invariant Ordered(Below(rows, cursor)) == s[indexed..]
      invariant indexed == k * size
      decreases |s| - indexed
    {
      if env.pageFails(k) {
        break;
      }
      var page := RebuildPage(rows, size, cursor);
      var out := page.releases;
      ReindexPage(rows, cursor, size, s, indexed);
      ghost var docs, log := ix.docs, ix.log;
      var n, fine := IndexAll(ix, out, indexed, env);
      WrittenMore(old(ix.docs), old(ix.log), docs, log, s, indexed, out, n);
      indexed := indexed + n;
      if !fine {
        break;
      }
      if !page.hasMore || page.nextCursor.None? || |out| == 0 {
        assert indexed == |s|;
        ok := true;
        break;
      }
      cursor := page.nextCursor;
      assert (k + 1) * size == k * size + size;
      k := k + 1;
    }
    WrittenMeans(old(ix.docs), old(ix.log), ix.docs, ix.log, s, indexed);
  }

  // The first n of s have been written, in order.
  ghost predicate Written(docs: map<string, Row>, log: seq<Row>, now: map<string, Row>, all: seq<Row>, s: seq<Row>,
                          n: nat)
  {
    n <= |s| && all == log + s[..n] && now == Upserted(docs, s[..n])
  }

  lemma WrittenNone(docs: map<string, Row>, log: seq<Row>, s: seq<Row>)
    ensures Written(docs, log, docs, log, s, 0)
  {
    assert log + s[..0] == log;
  }

  lemma WrittenMore(docs: map<string, Row>, log: seq<Row>, now: map<string, Row>, all: seq<Row>, s: seq<Row>, n: nat,
                    out: seq<Row>, m: nat)
    requires Written(docs, log, now, all, s, n)
    requires n + |out| <= |s| && out == s[n..n + |out|] && m <= |out|
    ensures Written(docs, log, Upserted(now, out[..m]), all + out[..m], s, n + m)
  {
    assert s[..n + m] == s[..n] + out[..m];
    UpsertedTwice(docs, s[..n], out[..m]);
  }

  lemma WrittenMeans(docs: map<string, Row>, log: seq<Row>, now: map<string, Row>, all: seq<Row>, s: seq<Row>, n: nat)
    requires Written(docs, log, now, all, s, n)
    ensures n <= |s| && all == log + s[..n] && now == Upserted(docs, s[..n])
  {
  }

  // The query of the rebuild: every release, obfuscated or not.
  method RebuildPage(rows: set<Row>, size: nat, cursor: Option<Cursor>) returns (page: Page)
    requires UniqueIds(rows) && size > 0
    ensures page.releases == Take(Ordered(Below(rows, cursor)), size)
    ensures page.hasMore <==> |page.releases| == size
    ensures page.nextCursor == LastOf(page.releases)
  {
    var f := Filter(_ => true, size, 0, -1, cursor);
    AllMatch(rows, f);
    hide Ordered, Matching, Below, UniqueIds, LastOf;
    var p := SearchReleasesPage(rows, f);
    page := p.value;
  }

  // What one page of the rebuild holds, and where the next one starts.
  lemma ReindexPage(rows: set<Row>, c: Option<Cursor>, size: nat, s: seq<Row>, done: nat)
    requires UniqueIds(rows) && s == Ordered(rows) && done <= |s| && size > 0
    requires Ordered(Below(rows, c)) == s[done..]
    ensures var p := Take(Ordered(Below(rows, c)), size);
      && |p| <= size && done + |p| <= |s| && p == s[done..done + |p|]
      && (|p| < size ==> done + |p| == |s|)
      && (p != [] ==> LastOf(p).Some? && Ordered(Below(rows, LastOf(p))) == s[done + |p|..])
  {
    hide *;
    var p := Take(s[done..], size);
    FirstSlice(s, done, size);
    if p != [] {
      LastIs(p);
      BelowIsSuffix(rows, done + |p| - 1);
    }
  }

  lemma FirstSlice(s: seq<Row>, done: nat, l: nat)
    requires done <= |s|
    ensures var p := Take(s[done..], l);
      && |p| <= l && done + |p| <= |s| && p == s[done..done + |p|] && (|p| < l ==> done + |p| == |s|)
      && (p != [] ==> p[|p| - 1] == s[done + |p| - 1])
  {
  }

  lemma BelowNothing(rows: set<Row>)
    requires UniqueIds(rows)
    ensures Ordered(Below(rows, None)) == Ordered(rows)[0..]
  {
  }

  lemma AllMatch(rows: set<Row>, f: Filter)
    requires forall r :: f.matches(r)
    ensures Matching(rows, f) == rows
  {
  }

  // A completed rebuild leaves every release under its guid...
  lemma {:induction false} UpsertedHolds(docs: map<string, Row>, s: seq<Row>, i: nat)
    requires i < |s| && forall j :: i < j < |s| ==> s[j].guid != s[i].guid
    ensures s[i].guid in Upserted(docs, s) && Upserted(docs, s)[s[i].guid] == s[i]
    decreases |s|
  {
    if i < |s| - 1 {
      UpsertedHolds(docs, s[..|s| - 1], i);
    }
  }

  // ...and no other entry changed.
  lemma {:induction false} UpsertedFrame(docs: map<string, Row>, s: seq<Row>, g: string)
    requires forall i :: 0 <= i < |s| ==> s[i].guid != g
    ensures g in Upserted(docs, s) <==> g in docs
    ensures g in docs ==> Upserted(docs, s)[g] == docs[g]
    decreases |s|
  {
    if s != [] {
      UpsertedFrame(docs, s[..|s| - 1], g);
    }
  }
}
