// Re-parsing stored subjects and tearing down mis-grouped binaries: a
// crash-resumable sweep over the parts table.
module Reassembly {
  import opened Common
  import opened Tables

  // ParseSubject's grouping fields: a pure function of the subject.
  type Parser = string -> Grouping

  // The columns the sweep reads of one part.
  datatype Row = Row(id: PartId, subject: string, binary: Option<BinId>, grouping: Grouping)

  datatype Update = Update(id: PartId, grouping: Grouping)

  predicate Changed(parse: Parser, r: Row)
  {
    parse(r.subject) != r.grouping
  }

  // ---- listing ----

  function RowOf(m: Parts, i: PartId): (r: Row)
    requires i in m
  {
    Row(i, m[i].subject, m[i].binary, m[i].grouping)
  }

  predicate Ascending(rows: seq<Row>)
  {
    forall i, j :: 0 <= i < j < |rows| ==> rows[i].id < rows[j].id
  }

  function Ids(rows: seq<Row>): (s: set<PartId>)
  {
    set k | 0 <= k < |rows| :: rows[k].id
  }

  // The first `limit` parts with an id above the cursor, in id order.
  ghost predicate IsListing(m: Parts, after: nat, limit: nat, rows: seq<Row>)
  {
    && Ascending(rows) && |rows| <= limit
    && (forall k :: 0 <= k < |rows| ==> after < rows[k].id && rows[k].id in m && rows[k] == RowOf(m, rows[k].id))
    && (forall i :: i in m && after < i && (|rows| < limit || (rows != [] && i <= rows[|rows| - 1].id)) ==>
          i in Ids(rows))
  }

  function BatchSize(limit: int): (n: nat)
    ensures n > 0
  {
    if limit <= 0 then 5000 else limit
  }

  method ListPartsForReparse(m: Parts, after: nat, limit: int) returns (rows: seq<Row>)
    ensures IsListing(m, after, if limit <= 0 then 5000 else limit, rows)
  {
    hide Ids, Ascending, IsListing, RowOf, Above;
    var l := BatchSize(limit);
    rows := [];
    NoRowsYet();
    var rest := Above(m, after);
    AboveMeans(m, after);
    while |rows| < l && rest != {}
      invariant |rows| <= l && Ascending(rows) && rest <= Above(m, after) && Ids(rows) == Above(m, after) - rest
      invariant forall k :: 0 <= k < |rows| ==> rows[k].id in Above(m, after) && rows[k] == RowOf(m, rows[k].id)
      invariant rows != [] ==> forall i :: i in rest ==> rows[|rows| - 1].id < i
      decreases rest
    {
      var least := LeastExists(rest);
      var i :| i in rest && forall j :: j in rest ==> i <= j;
      AppendRow(rows, RowOf(m, i));
      rows := rows + [RowOf(m, i)];
      rest := rest - {i};
    }
    ListingDone(m, after, l, rows, rest);
  }

  function Above(m: Parts, after: nat): (s: set<PartId>)
  {
    set i | i in m && after < i
  }

  lemma AboveMeans(m: Parts, after: nat)
    ensures forall i :: i in Above(m, after) ==> i in m && after < i && RowOf(m, i).id == i
  {
  }

  lemma NoRowsYet()
    ensures Ascending([]) && Ids([]) == {}
  {
  }

  lemma ListingDone(m: Parts, after: nat, l: nat, rows: seq<Row>, rest: set<PartId>)
    requires Ascending(rows) && |rows| <= l && rest <= Above(m, after) && Ids(rows) == Above(m, after) - rest
    requires forall k :: 0 <= k < |rows| ==> rows[k].id in Above(m, after) && rows[k] == RowOf(m, rows[k].id)
    requires |rows| < l ==> rest == {}
    requires rows != [] ==> forall i :: i in rest ==> rows[|rows| - 1].id < i
    ensures IsListing(m, after, l, rows)
  {
    hide Ids, Ascending;
    forall i | i in m && after < i && (|rows| < l || (rows != [] && i <= rows[|rows| - 1].id))
      ensures i in Ids(rows)
    {
      assert i in Above(m, after);
    }
  }

  lemma AppendRow(rows: seq<Row>, r: Row)
    requires Ascending(rows) && (rows != [] ==> rows[|rows| - 1].id < r.id)
    ensures Ascending(rows + [r]) && Ids(rows + [r]) == Ids(rows) + {r.id}
  {
    assert forall k :: 0 <= k < |rows| ==> (rows + [r])[k] == rows[k];
    assert (rows + [r])[|rows|] == r;
  }

  lemma {:induction false} LeastExists(s: set<nat>) returns (i: nat)
    requires s != {}
    ensures i in s && forall j :: j in s ==> i <= j
    decreases s
  {
    i :| i in s;
    var rest := s - {i};
    assert forall j :: j in s ==> j == i || j in rest;
    if rest != {} {
      var y := LeastExists(rest);
      if y < i {
        i := y;
      }
    }
  }

  // ---- planning ----

  // The rewrites a scan of the rows calls for, and the binaries they dirty.
  function Updates(parse: Parser, rows: seq<Row>): (u: map<PartId, Grouping>)
  {
    if rows == [] then map[]
    else
      var r := rows[|rows| - 1];
      var u := Updates(parse, rows[..|rows| - 1]);
      if Changed(parse, r) then u[r.id := parse(r.subject)] else u
  }

  function Dirty(parse: Parser, rows: seq<Row>): (d: set<BinId>)
  {
    if rows == [] then {}
    else
      var r := rows[|rows| - 1];
      var d := Dirty(parse, rows[..|rows| - 1]);
      if Changed(parse, r) && r.binary.Some? then d + {r.binary.value} else d
  }

  // A listing is rewritten exactly where re-parsing differs from what is
  // stored, with the re-parsed grouping.
  lemma {:induction false} UpdatesMean(parse: Parser, rows: seq<Row>)
    requires Ascending(rows)
    ensures forall k :: 0 <= k < |rows| ==> (rows[k].id in Updates(parse, rows) <==> Changed(parse, rows[k]))
    ensures forall k :: 0 <= k < |rows| && Changed(parse, rows[k]) ==>
      Updates(parse, rows)[rows[k].id] == parse(rows[k].subject)
    ensures forall i :: i in Updates(parse, rows) ==> exists k :: 0 <= k < |rows| && rows[k].id == i
  {
    if rows != [] {
      var n := |rows| - 1;
      UpdatesMean(parse, rows[..n]);
      assert forall k :: 0 <= k < n ==> rows[..n][k] == rows[k];
      assert rows[n].id !in Updates(parse, rows[..n]);
    }
  }

  lemma {:induction false} DirtyMeans(parse: Parser, rows: seq<Row>)
    ensures forall k :: 0 <= k < |rows| && Changed(parse, rows[k]) && rows[k].binary.Some? ==>
      rows[k].binary.value in Dirty(parse, rows)
    ensures forall b :: b in Dirty(parse, rows) ==>
      exists k :: 0 <= k < |rows| && Changed(parse, rows[k]) && rows[k].binary == Some(b)
  {
    if rows != [] {
      var n := |rows| - 1;
      DirtyMeans(parse, rows[..n]);
      assert forall k :: 0 <= k < n ==> rows[..n][k] == rows[k];
    }
  }

  function Assigned(us: seq<Update>): (u: map<PartId, Grouping>)
  {
    if us == [] then map[] else Assigned(us[..|us| - 1])[us[|us| - 1].id := us[|us| - 1].grouping]
  }

  function SetOf(bs: seq<BinId>): (s: set<BinId>)
  {
    set b | b in bs
  }

  // The lists the loop builds carry exactly those rewrites and binaries, no
  // binary twice.
  method Plan(parse: Parser, rows: seq<Row>) returns (updates: seq<Update>, dirty: seq<BinId>)
    ensures Assigned(updates) == Updates(parse, rows)
    ensures SetOf(dirty) == Dirty(parse, rows)
    ensures forall i, j :: 0 <= i < j < |dirty| ==> dirty[i] != dirty[j]
  {
    updates, dirty := [], [];
    var seen: set<BinId> := {};
    var n := 0;
    while n < |rows|
      invariant n <= |rows|
      invariant Assigned(updates) == Updates(parse, rows[..n])
      invariant seen == SetOf(dirty) == Dirty(parse, rows[..n])
      invariant forall i, j :: 0 <= i < j < |dirty| ==> dirty[i] != dirty[j]
    {
      var r := rows[n];
      assert rows[..n + 1][..n] == rows[..n];
      if Changed(parse, r) {
        var u := Update(r.id, parse(r.subject));
        assert (updates + [u])[..|updates|] == updates;
        updates := updates + [u];
        if r.binary.Some? && r.binary.value !in seen {
          seen := seen + {r.binary.value};
          dirty := dirty + [r.binary.value];
        }
      }
      n := n + 1;
    }
    assert rows[..n] == rows;
  }

  // ---- applying a batch ----

  // The binary backs a release that has been post-processed.
  predicate BacksDone(db: Db, b: BinId)
  {
    exists r :: r in db.releases && db.releases[r].binary == Some(b) && db.releases[r].status.Done?
  }

  function Protected(db: Db, dirty: set<BinId>): (p: set<BinId>)
  {
    set b | b in dirty && BacksDone(db, b)
  }

  predicate On(binary: Option<BinId>, bs: set<BinId>)
  {
    binary.Some? && binary.value in bs
  }

  // The list of protected binaries is a nil slice until one is found, and the
  // database driver decides what the statement then sees: an empty array, or NULL.
  datatype Driver = SendsEmpty | SendsNull

  // binary_id IS NULL OR binary_id <> ALL(protected). Comparing with ALL(NULL)
  // is never true.
  predicate Reaches(drv: Driver, binary: Option<BinId>, protected: set<BinId>)
  {
    binary.None? || (binary.value !in protected && (drv.SendsEmpty? || protected != {}))
  }

  function Regroup(drv: Driver, m: Parts, u: map<PartId, Grouping>, protected: set<BinId>): (r: Parts)
  {
    map i | i in m :: if i in u && Reaches(drv, m[i].binary, protected) then m[i].(grouping := u[i]) else m[i]
  }

  function Detach(m: Parts, gone: set<BinId>): (r: Parts)
  {
    map i | i in m :: if On(m[i].binary, gone) then m[i].(binary := None) else m[i]
  }

  function DropReleases(rs: map<RelId, Release>, gone: set<BinId>): (r: map<RelId, Release>)
  {
    map r | r in rs && !On(rs[r].binary, gone) :: rs[r]
  }

  function Applied(drv: Driver, db: Db, u: map<PartId, Grouping>, dirty: set<BinId>): (d: Db)
  {
    var protected := Protected(db, dirty);
    var gone := dirty - protected;
    Db(Detach(Regroup(drv, db.parts, u, protected), gone), db.binaries - gone, DropReleases(db.releases, gone))
  }

  // The rows the two UPDATE statements affect.
  function Rewritten(drv: Driver, m: Parts, u: map<PartId, Grouping>, protected: set<BinId>): (s: set<PartId>)
  {
    set i | i in m && i in u && Reaches(drv, m[i].binary, protected)
  }

  function PartsOn(m: Parts, bs: set<BinId>): (s: set<PartId>)
  {
    set i | i in m && On(m[i].binary, bs)
  }

  datatype Stats = Stats(partsUpdated: nat, partsDetached: nat, binariesDeleted: nat, releasesDeleted: nat,
                         binariesProtected: nat)

  method FindProtected(st: Store, dirty: seq<BinId>) returns (protected: set<BinId>)
    ensures protected == Protected(st.View(), SetOf(dirty))
  {
    protected := set r | r in st.releases && st.releases[r].binary.Some? && st.releases[r].binary.value in dirty
                         && st.releases[r].status.Done? :: st.releases[r].binary.value;
  }

  method Unprotected(dirty: seq<BinId>, protected: set<BinId>) returns (gone: set<BinId>)
    ensures gone == SetOf(dirty) - protected
  {
    gone := {};
    for n := 0 to |dirty|
      invariant gone == SetOf(dirty[..n]) - protected
    {
      if dirty[n] !in protected {
        gone := gone + {dirty[n]};
      }
      assert dirty[..n + 1] == dirty[..n] + [dirty[n]];
    }
    assert dirty[..|dirty|] == dirty;
  }

  // Of the dirty binaries no 'done' release pointed at, nothing is left: no row,
  // no part and no release.
  ghost predicate UndoneGone(db: Db, d: Db, dirty: seq<BinId>)
  {
    forall b :: b in dirty ==>
      (forall r :: r in db.releases && db.releases[r].binary == Some(b) ==> db.releases[r].status != Done) ==>
        && b !in d.binaries && (forall i :: i in d.parts ==> d.parts[i].binary != Some(b))
        && (forall r :: r in d.releases ==> d.releases[r].binary != Some(b))
  }

  // One transaction, statement by statement; the statistics are the rows affected.
  // With nothing to do the source returns early, which is the same step.
  method ApplyReparse(drv: Driver, st: Store, updates: seq<Update>, dirty: seq<BinId>) returns (stats: Stats)
    requires st.Valid()
    modifies st
    ensures st.Valid()
    ensures st.View() == Applied(drv, old(st.View()), Assigned(updates), SetOf(dirty))
    ensures var db, d := old(st.View()), SetOf(dirty); var p := Protected(db, d);
      && stats.partsUpdated == |Rewritten(drv, db.parts, Assigned(updates), p)|
      && stats.partsDetached == |PartsOn(db.parts, d - p)|
      && stats.releasesDeleted == |db.releases| - |st.releases|
      && stats.binariesDeleted == |db.binaries| - |st.binaries|
      && stats.binariesProtected == |p|
    ensures var rs := old(st.releases);
      stats.binariesProtected ==
      |(set b | b in dirty && exists r :: r in rs && rs[r].binary == Some(b) && rs[r].status == Done)|
    ensures UndoneGone(old(st.View()), st.View(), dirty)
  {
    hide UndoneGone, BacksDone, Assigned, KeysUnique, Reaches, Regroup, Detach;
    hide DropReleases, Rewritten, PartsOn, Protected, SetOf;
    ghost var db := st.View();
    var protected := FindProtected(st, dirty);
    var u := Assigned(updates);
    var updated := |Rewritten(drv, st.parts, u, protected)|;
    st.parts := Regroup(drv, st.parts, u, protected);
    var gone := Unprotected(dirty, protected);
    RegroupKeepsLinks(drv, db.parts, u, protected, gone);
    var detached := |PartsOn(st.parts, gone)|;
    st.parts := Detach(st.parts, gone);
    var releases, binaries := |st.releases|, |st.binaries|;
    DropsOnly(st.releases, gone);
    st.releases := DropReleases(st.releases, gone);
    DeletesOnly(st.binaries, gone);
    st.binaries := st.binaries - gone;
    NotDoneGo(drv, db, u, dirty);
    return Stats(updated, detached, binaries - |st.binaries|, releases - |st.releases|, |protected|);
  }

  lemma NotDoneGo(drv: Driver, db: Db, u: map<PartId, Grouping>, dirty: seq<BinId>)
    ensures var rs := db.releases;
      Protected(db, SetOf(dirty)) ==
      set b | b in dirty && exists r :: r in rs && rs[r].binary == Some(b) && rs[r].status == Done
    ensures UndoneGone(db, Applied(drv, db, u, SetOf(dirty)), dirty)
  {
    hide Applied;
    var rs := db.releases;
    forall b: BinId
      ensures b in Protected(db, SetOf(dirty)) <==>
        b in dirty && exists r :: r in rs && rs[r].binary == Some(b) && rs[r].status == Done
    {
      ProtectedIff(db, SetOf(dirty), b);
    }
    forall b: BinId | b in dirty && forall r :: r in rs && rs[r].binary == Some(b) ==> rs[r].status != Done
      ensures var d := Applied(drv, db, u, SetOf(dirty));
        && b !in d.binaries && (forall i :: i in d.parts ==> d.parts[i].binary != Some(b))
        && (forall r :: r in d.releases ==> d.releases[r].binary != Some(b))
    {
      UndoneIsTornDown(drv, db, u, SetOf(dirty), b);
    }
  }

  lemma RegroupKeepsLinks(drv: Driver, m: Parts, u: map<PartId, Grouping>, protected: set<BinId>, bs: set<BinId>)
    ensures PartsOn(Regroup(drv, m, u, protected), bs) == PartsOn(m, bs)
  {
  }

  lemma DropsOnly(rs: map<RelId, Release>, gone: set<BinId>)
    ensures |DropReleases(rs, gone)| <= |rs|
  {
    SubsetSize(DropReleases(rs, gone).Keys, rs.Keys);
  }

  lemma DeletesOnly(m: map<BinId, Binary>, gone: set<BinId>)
    ensures |m - gone| <= |m| && (KeysUnique(m) ==> KeysUnique(m - gone))
  {
    SubsetSize((m - gone).Keys, m.Keys);
  }

  // ---- what the transaction does, in terms of the rows ----

  // A dirty binary that no 'done' release points at is torn down: its row and
  // its releases go, and no part is left on it.
  lemma UndoneIsTornDown(drv: Driver, db: Db, u: map<PartId, Grouping>, dirty: set<BinId>, b: BinId)
    requires b in dirty
    requires forall r :: r in db.releases && db.releases[r].binary == Some(b) ==> db.releases[r].status != Done
    ensures var d := Applied(drv, db, u, dirty);
      && b !in d.binaries && (forall i :: i in d.parts ==> d.parts[i].binary != Some(b))
      && (forall r :: r in d.releases ==> d.releases[r].binary != Some(b))
  {
    assert b !in Protected(db, dirty);
  }

  // Every other binary keeps its row, its parts and its releases.
  lemma OthersStay(drv: Driver, db: Db, u: map<PartId, Grouping>, dirty: set<BinId>, b: BinId)
    requires b in dirty ==>
      exists r :: r in db.releases && db.releases[r].binary == Some(b) && db.releases[r].status == Done
    ensures var d := Applied(drv, db, u, dirty);
      && (b in db.binaries ==> b in d.binaries && d.binaries[b] == db.binaries[b])
      && (forall i :: i in db.parts && db.parts[i].binary == Some(b) ==> i in d.parts && d.parts[i].binary == Some(b))
      && (forall r :: r in db.releases && db.releases[r].binary == Some(b) ==>
            r in d.releases && d.releases[r] == db.releases[r])
  {
  }

  // A part takes the new grouping exactly when it has one and is unassigned, or
  // its binary is not protected and the list of protected binaries, if empty,
  // does not arrive as NULL; nothing else about it changes but its binary.
  lemma PartAfterwards(drv: Driver, db: Db, u: map<PartId, Grouping>, dirty: set<BinId>, i: PartId)
    requires i in db.parts
    ensures var d, p, kept := Applied(drv, db, u, dirty), db.parts[i], Protected(db, dirty);
      && i in d.parts
      && d.parts[i] == p.(grouping := d.parts[i].grouping, binary := d.parts[i].binary)
      && d.parts[i].grouping ==
         if i in u && (p.binary.None? || (p.binary.value !in kept && (drv.SendsEmpty? || kept != {})))
         then u[i] else p.grouping
  {
  }

  // A dirty binary is protected exactly when a 'done' release points at it.
  lemma ProtectedIff(db: Db, dirty: set<BinId>, b: BinId)
    ensures b in Protected(db, dirty) <==>
      b in dirty && exists r :: r in db.releases && db.releases[r].binary == Some(b) && db.releases[r].status == Done
  {
  }

  // The rows the two UPDATE statements count.
  lemma RowsCounted(drv: Driver, db: Db, u: map<PartId, Grouping>, dirty: set<BinId>, i: PartId)
    ensures i in PartsOn(db.parts, dirty) <==>
      i in db.parts && db.parts[i].binary.Some? && db.parts[i].binary.value in dirty
    ensures i in Rewritten(drv, db.parts, u, Protected(db, dirty)) ==>
      i in u && Applied(drv, db, u, dirty).parts[i].grouping == u[i]
    ensures i in db.parts && Applied(drv, db, u, dirty).parts[i].grouping != db.parts[i].grouping ==>
      i in Rewritten(drv, db.parts, u, Protected(db, dirty))
  {
  }

  // ---- one batch, read and applied in one step ----

  ghost predicate RefsValid(db: Db)
  {
    && (forall i :: i in db.parts && db.parts[i].binary.Some? ==> db.parts[i].binary.value in db.binaries)
    && (forall r :: r in db.releases && db.releases[r].binary.Some? ==> db.releases[r].binary.value in db.binaries)
  }

  function Batch(drv: Driver, parse: Parser, db: Db, rows: seq<Row>): (d: Db)
  {
    Applied(drv, db, Updates(parse, rows), Dirty(parse, rows))
  }

  // The rows still say what the table says.
  ghost predicate Fresh(db: Db, rows: seq<Row>)
  {
    Ascending(rows) && forall k :: 0 <= k < |rows| ==> rows[k].id in db.parts && rows[k] == RowOf(db.parts, rows[k].id)
  }

  // Binary b, its parts and its releases are the same in both databases.
  ghost predicate SameAround(db: Db, d: Db, b: BinId)
  {
    && (b in d.binaries <==> b in db.binaries) && (b in db.binaries ==> d.binaries[b] == db.binaries[b])
    && (forall i :: i in db.parts && i in d.parts ==>
          db.parts[i].binary == Some(b) || d.parts[i].binary == Some(b) ==> d.parts[i] == db.parts[i])
    && (forall r :: r in db.releases && db.releases[r].binary == Some(b) ==>
          r in d.releases && d.releases[r] == db.releases[r])
  }

  // References stay valid, no part is deleted, the deleted releases are
  // exactly those of the torn-down binaries and none of them was done.
  lemma BatchKeepsReferences(drv: Driver, parse: Parser, db: Db, rows: seq<Row>)
    requires RefsValid(db)
    ensures var d := Batch(drv, parse, db, rows); var gone := Dirty(parse, rows) - Protected(db, Dirty(parse, rows));
      && RefsValid(d) && d.parts.Keys == db.parts.Keys && d.binaries.Keys == db.binaries.Keys - gone
      && (forall r :: r in db.releases ==> (r in d.releases <==> !On(db.releases[r].binary, gone)))
      && (forall r :: r in db.releases && db.releases[r].status.Done? ==>
            r in d.releases && d.releases[r] == db.releases[r])
  {
  }

  // A part is rewritten only together with the binary it sits on.
  lemma RewrittenPartsAreDirty(parse: Parser, db: Db, rows: seq<Row>, i: PartId)
    requires Fresh(db, rows) && i in Updates(parse, rows)
    ensures i in db.parts && Updates(parse, rows)[i] == parse(db.parts[i].subject)
    ensures db.parts[i].binary.Some? ==> db.parts[i].binary.value in Dirty(parse, rows)
  {
    UpdatesMean(parse, rows);
    DirtyMeans(parse, rows);
    var k :| 0 <= k < |rows| && rows[k].id == i;
  }

  // Every binary backing a done release comes out with its row, its parts and
  // its releases untouched.
  lemma BatchSparesDone(drv: Driver, parse: Parser, db: Db, rows: seq<Row>, b: BinId)
    requires Fresh(db, rows) && BacksDone(db, b)
    ensures SameAround(db, Batch(drv, parse, db, rows), b)
  {
    var u := Updates(parse, rows);
    forall i | i in u && i in db.parts && db.parts[i].binary == Some(b) ensures b in Dirty(parse, rows) {
      RewrittenPartsAreDirty(parse, db, rows, i);
    }
  }
}
