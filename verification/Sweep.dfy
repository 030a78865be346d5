// Whole runs of the re-assembly sweep: replays, interleaved assembler work,
// and crashes at any point.
module Sweep {
  import opened Common
  import opened Tables
  import opened Reassembly
  import Assembly

  // ---- the batch and the assembler's invariant ----

  // A rewrite that reaches a part whose binary the batch does not tear down.
  ghost predicate RewrittenInPlace(drv: Driver, db: Db, u: map<PartId, Grouping>, dirty: set<BinId>, i: PartId)
  {
    && i in u && i in db.parts && u[i] != db.parts[i].grouping
    && db.parts[i].binary.Some? && db.parts[i].binary.value !in dirty
    && Reaches(drv, db.parts[i].binary, Protected(db, dirty))
  }

  // Whatever listing the plan came from, surviving binaries stay exact when no
  // rewrite happens in place, so assembly can simply go on.
  lemma AppliedKeepsSound(drv: Driver, db: Db, u: map<PartId, Grouping>, dirty: set<BinId>)
    requires Assembly.Sound(db) && forall i :: !RewrittenInPlace(drv, db, u, dirty, i)
    ensures Assembly.Sound(Applied(drv, db, u, dirty))
  {
    hide Assembly.Totals, Applied, RewrittenInPlace, Protected;
    var d := Applied(drv, db, u, dirty);
    AppliedRows(drv, db, u, dirty);
    forall i | i in db.parts
      ensures d.parts[i].binary.Some? ==> d.parts[i] == db.parts[i] && d.parts[i].binary.value in d.binaries
      ensures db.parts[i].binary.Some? && db.parts[i].binary.value in d.binaries ==> d.parts[i] == db.parts[i]
    {
      AppliedPart(drv, db, u, dirty, i);
    }
    forall b | b in d.binaries ensures Linked(d.parts, b) == Linked(db.parts, b) {
    }
    Assembly.RestKeepsSound(db, d);
  }

  lemma BatchKeepsSound(drv: Driver, parse: Parser, db: Db, rows: seq<Row>)
    requires Assembly.Sound(db) && Fresh(db, rows)
    ensures Assembly.Sound(Batch(drv, parse, db, rows))
  {
    hide Assembly.Sound, Reaches;
    forall i ensures !RewrittenInPlace(drv, db, Updates(parse, rows), Dirty(parse, rows), i) {
      if i in Updates(parse, rows) {
        RewrittenPartsAreDirty(parse, db, rows, i);
      }
    }
    AppliedKeepsSound(drv, db, Updates(parse, rows), Dirty(parse, rows));
  }

  // With a listing gone stale a part can end up on a binary of another key:
  // exactly when a rewrite in place changes the key the part folds under.
  lemma KeysKeptIff(drv: Driver, db: Db, u: map<PartId, Grouping>, dirty: set<BinId>)
    requires Assembly.KeysAgree(db)
    ensures Assembly.KeysAgree(Applied(drv, db, u, dirty)) <==>
            forall i :: RewrittenInPlace(drv, db, u, dirty, i) ==>
              FoldKey(db.parts[i].(grouping := u[i])) == FoldKey(db.parts[i])
  {
    hide FoldKey, Applied, RewrittenInPlace;
    var d := Applied(drv, db, u, dirty);
    AppliedRows(drv, db, u, dirty);
    InPlaceIsPart(drv, db, u, dirty);
    forall i | i in db.parts
      ensures d.parts[i].binary.Some? ==>
        d.parts[i].binary.value in d.binaries && d.parts[i].binary == db.parts[i].binary
      ensures d.parts[i].binary.Some? ==>
        d.parts[i] == if RewrittenInPlace(drv, db, u, dirty, i) then db.parts[i].(grouping := u[i]) else db.parts[i]
      ensures RewrittenInPlace(drv, db, u, dirty, i) ==> i in u && d.parts[i].binary.Some?
    {
      AppliedPart(drv, db, u, dirty, i);
    }
  }

  lemma InPlaceIsPart(drv: Driver, db: Db, u: map<PartId, Grouping>, dirty: set<BinId>)
    ensures forall i :: RewrittenInPlace(drv, db, u, dirty, i) ==> i in u && i in db.parts && db.parts[i].binary.Some?
  {
  }

  lemma AppliedRows(drv: Driver, db: Db, u: map<PartId, Grouping>, dirty: set<BinId>)
    ensures var d := Applied(drv, db, u, dirty);
      d.parts.Keys == db.parts.Keys && d.binaries == db.binaries - (dirty - Protected(db, dirty))
  {
  }

  // One part after the batch; in place means that it keeps its binary.
  lemma AppliedPart(drv: Driver, db: Db, u: map<PartId, Grouping>, dirty: set<BinId>, i: PartId)
    requires i in db.parts
    ensures var d := Applied(drv, db, u, dirty); var p := Protected(db, dirty);
      && i in d.parts
      && d.parts[i] == db.parts[i].(
           binary := if On(db.parts[i].binary, dirty - p) then None else db.parts[i].binary,
           grouping := if i in u && Reaches(drv, db.parts[i].binary, p) then u[i] else db.parts[i].grouping)
      && (d.parts[i].binary.Some? ==>
            d.parts[i] ==
              if RewrittenInPlace(drv, db, u, dirty, i) then db.parts[i].(grouping := u[i])
              else db.parts[i])
      && (RewrittenInPlace(drv, db, u, dirty, i) ==> i in u && d.parts[i].binary.Some?)
  {
  }

  // ---- stale listings ----

  // A rewrite in place of a part that sits on a done-backed binary.
  ghost predicate StrayRewrite(drv: Driver, db: Db, u: map<PartId, Grouping>, dirty: set<BinId>, i: PartId)
  {
    RewrittenInPlace(drv, db, u, dirty, i) && BacksDone(db, db.parts[i].binary.value)
  }

  // Whatever listing the plan came from, applying it leaves every done-backed
  // binary untouched if and only if no rewrite is stray at that moment.
  lemma DoneUntouchedIff(drv: Driver, db: Db, u: map<PartId, Grouping>, dirty: set<BinId>)
    ensures (forall b :: BacksDone(db, b) ==> SameAround(db, Applied(drv, db, u, dirty), b)) <==>
            (forall i :: !StrayRewrite(drv, db, u, dirty, i))
  {
    hide Applied, SameAround, RewrittenInPlace, Protected, BacksDone;
    var d := Applied(drv, db, u, dirty);
    InPlaceIsPart(drv, db, u, dirty);
    forall b: BinId | BacksDone(db, b)
      ensures SameAround(db, d, b) <==> forall i :: i in db.parts && db.parts[i].binary == Some(b) ==>
        !RewrittenInPlace(drv, db, u, dirty, i)
    {
      AroundIs(drv, db, u, dirty, b);
      forall i | i in db.parts && db.parts[i].binary == Some(b)
        ensures d.parts[i] == db.parts[i] <==> !RewrittenInPlace(drv, db, u, dirty, i)
      {
        UntouchedIff(drv, db, u, dirty, i);
      }
    }
    forall i | StrayRewrite(drv, db, u, dirty, i)
      ensures exists b :: BacksDone(db, b) && !SameAround(db, d, b)
    {
      assert !SameAround(db, d, db.parts[i].binary.value);
    }
    if forall i :: !StrayRewrite(drv, db, u, dirty, i) {
      forall b: BinId | BacksDone(db, b) ensures SameAround(db, d, b) {
        forall i | i in db.parts && db.parts[i].binary == Some(b) ensures !RewrittenInPlace(drv, db, u, dirty, i) {
          assert !StrayRewrite(drv, db, u, dirty, i);
        }
      }
    }
  }

  lemma UntouchedIff(drv: Driver, db: Db, u: map<PartId, Grouping>, dirty: set<BinId>, i: PartId)
    requires i in db.parts && db.parts[i].binary.Some? && BacksDone(db, db.parts[i].binary.value)
    ensures i in Applied(drv, db, u, dirty).parts
    ensures Applied(drv, db, u, dirty).parts[i] == db.parts[i] <==> !RewrittenInPlace(drv, db, u, dirty, i)
  {
  }

  // The sweep lists an unassigned, mis-grouped part, the assembler folds it
  // into the done-backed binary of its old key, and the batch then rewrites it
  // there: exactly when the statement's list of protected binaries is not NULL.
  lemma FoldBetweenListAndApply(drv: Driver, parse: Parser, db: Db, rows: seq<Row>, i: PartId,
                                coll: bool, k: Key, b: BinId, a: Assembly.Agg)
    requires Fresh(db, rows) && i in Ids(rows) && parse(db.parts[i].subject) != db.parts[i].grouping
    requires Assembly.CanFold(db, coll, k, {i}, b, a) && BacksDone(db, b) && b !in Dirty(parse, rows)
    ensures var db' := Assembly.Fold(db, coll, k, {i}, b, a);
      && BacksDone(db', b)
      && (SameAround(db', Batch(drv, parse, db', rows), b) <==>
            drv.SendsNull? && Protected(db, Dirty(parse, rows)) == {})
  {
    hide Applied, Updates, Dirty, Protected, BacksDone, Reaches, RewrittenInPlace;
    var db' := Assembly.Fold(db, coll, k, {i}, b, a);
    var u, dirty := Updates(parse, rows), Dirty(parse, rows);
    ListedRewrite(parse, db, rows, i);
    assert i in {i} && db'.parts[i] == db.parts[i].(binary := Some(b));
    FoldKeepsReleases(db, coll, k, {i}, b, a, dirty);
    OnlyOne(drv, parse, db, db', rows, i, b);
  }

  lemma ListedRewrite(parse: Parser, db: Db, rows: seq<Row>, i: PartId)
    requires Fresh(db, rows) && i in Ids(rows) && parse(db.parts[i].subject) != db.parts[i].grouping
    ensures i in Updates(parse, rows) && Updates(parse, rows)[i] == parse(db.parts[i].subject)
  {
    UpdatesMean(parse, rows);
    var n :| 0 <= n < |rows| && rows[n].id == i;
  }

  // Part i alone has joined binary b since the listing.
  lemma OnlyOne(drv: Driver, parse: Parser, db: Db, now: Db, rows: seq<Row>, i: PartId, b: BinId)
    requires Fresh(db, rows) && i in Updates(parse, rows) && i in now.parts && now.parts.Keys == db.parts.Keys
    requires now.parts[i].binary == Some(b) && Updates(parse, rows)[i] != now.parts[i].grouping
    requires forall j :: j in db.parts && j != i ==> now.parts[j] == db.parts[j]
    requires b !in Dirty(parse, rows)
    ensures SameAround(now, Batch(drv, parse, now, rows), b) <==>
            drv.SendsNull? && Protected(now, Dirty(parse, rows)) == {}
  {
    hide Applied, Updates, Dirty, Protected, RewrittenInPlace;
    var u, dirty := Updates(parse, rows), Dirty(parse, rows);
    var d := Batch(drv, parse, now, rows);
    AppliedPart(drv, now, u, dirty, i);
    ProtectedAreDirty(now, dirty);
    AroundIs(drv, now, u, dirty, b);
    forall j | j in now.parts && j != i && now.parts[j].binary == Some(b) ensures d.parts[j] == now.parts[j] {
      AppliedPart(drv, now, u, dirty, j);
      if j in u {
        RewrittenPartsAreDirty(parse, db, rows, j);
      }
    }
  }

  lemma ProtectedAreDirty(db: Db, dirty: set<BinId>)
    ensures Protected(db, dirty) <= dirty
  {
  }

  // A binary that is not torn down is only touched through its parts.
  lemma AroundIs(drv: Driver, db: Db, u: map<PartId, Grouping>, dirty: set<BinId>, b: BinId)
    requires b !in dirty || BacksDone(db, b)
    ensures var d := Applied(drv, db, u, dirty);
      && d.parts.Keys == db.parts.Keys
      && (SameAround(db, d, b) <==> forall j :: j in db.parts && db.parts[j].binary == Some(b) ==>
            d.parts[j] == db.parts[j])
  {
  }

  lemma FoldKeepsReleases(db: Db, coll: bool, k: Key, rows: set<PartId>, b: BinId, a: Assembly.Agg, dirty: set<BinId>)
    ensures var d := Assembly.Fold(db, coll, k, rows, b, a);
      && Protected(d, dirty) == Protected(db, dirty) && (forall c :: BacksDone(d, c) <==> BacksDone(db, c))
  {
    var d := Assembly.Fold(db, coll, k, rows, b, a);
    assert d.releases == db.releases;
    assert forall c :: BacksDone(d, c) <==> BacksDone(db, c);
  }

  // ---- replay ----

  lemma AscendingIds(rows: seq<Row>)
    requires Ascending(rows)
    ensures |Ids(rows)| == |rows|
  {
    if rows != [] {
      var n := |rows| - 1;
      assert Ids(rows) == Ids(rows[..n]) + {rows[n].id};
      AscendingIds(rows[..n]);
    }
  }

  // A listing that contains i contains everything between the cursor and i;
  // one that misses i is full and ends before it.
  lemma ListingIsPrefix(m: Parts, after: nat, limit: nat, rows: seq<Row>, i: PartId)
    requires IsListing(m, after, limit, rows) && i in m && after < i
    ensures i in Ids(rows) ==> forall j :: j in m && after < j <= i ==> j in Ids(rows)
    ensures i !in Ids(rows) ==> |rows| == limit && forall j :: j in Ids(rows) ==> j in m && after < j < i
    ensures |Ids(rows)| == |rows|
  {
    AscendingIds(rows);
    if i in Ids(rows) {
      assert rows != [] && i <= rows[|rows| - 1].id;
    } else if rows != [] {
      assert rows[|rows| - 1].id < i;
    }
  }

  // Listing again from the same cursor, with more parts in the table, yields
  // no old part the first listing did not have.
  lemma OldIdsListed(m: Parts, n: Parts, after: nat, limit: nat, rows: seq<Row>, again: seq<Row>)
    requires m.Keys <= n.Keys
    requires IsListing(m, after, limit, rows) && IsListing(n, after, limit, again)
    ensures forall i :: i in Ids(again) && i in m ==> i in Ids(rows)
  {
    forall i | i in Ids(again) && i in m ensures i in Ids(rows) {
      assert i in n && after < i;
      ListingIsPrefix(m, after, limit, rows, i);
      ListingIsPrefix(n, after, limit, again, i);
      AtMostLimit(n, after, limit, again);
      if i !in Ids(rows) {
        hide IsListing, Ids;
        SubsetSize(Ids(rows) + {i}, Ids(again));
        assert false;
      }
    }
  }

  lemma AtMostLimit(m: Parts, after: nat, limit: nat, rows: seq<Row>)
    requires IsListing(m, after, limit, rows)
    ensures |rows| <= limit
  {
  }

  // ---- what one batch achieves ----

  predicate Good(parse: Parser, p: Part)
  {
    p.grouping == parse(p.subject)
  }

  // Parts of the batch that are to be rewritten but sit on a protected binary.
  function Spared(parse: Parser, db: Db, rows: seq<Row>): (r: set<PartId>)
  {
    set i | i in db.parts && i in Updates(parse, rows) && On(db.parts[i].binary, Protected(db, Dirty(parse, rows)))
  }

  // The batch can regroup its parts: its list of protected binaries does not
  // arrive as NULL, or no part it has to regroup is assigned.
  predicate Sees(drv: Driver, parse: Parser, db: Db, rows: seq<Row>)
  {
    || drv.SendsEmpty? || Protected(db, Dirty(parse, rows)) != {}
    || forall k :: 0 <= k < |rows| && Changed(parse, rows[k]) ==> rows[k].binary.None?
  }

  // What one listed part looks like afterwards.
  lemma AfterwardsIs(drv: Driver, parse: Parser, db: Db, rows: seq<Row>, k: nat)
    requires Fresh(db, rows) && k < |rows|
    ensures var i := rows[k].id; var d := Batch(drv, parse, db, rows); var dirty := Dirty(parse, rows);
      && i in db.parts && i in d.parts && d.parts[i].subject == db.parts[i].subject
      && Changed(parse, rows[k]) == !Good(parse, db.parts[i])
      && (i in Spared(parse, db, rows) <==> Changed(parse, rows[k]) && On(db.parts[i].binary, Protected(db, dirty)))
      && (Good(parse, d.parts[i]) <==>
            Good(parse, db.parts[i]) || Reaches(drv, db.parts[i].binary, Protected(db, dirty)))
      && (Changed(parse, rows[k]) ==>
            d.parts[i].binary == if On(db.parts[i].binary, Protected(db, dirty)) then db.parts[i].binary else None)
  {
    var i := rows[k].id;
    UpdatesMean(parse, rows);
    if Changed(parse, rows[k]) {
      RewrittenPartsAreDirty(parse, db, rows, i);
    }
  }

  // Every listed part is regrouped, or spared because its binary is
  // protected, if and only if the batch can see what it has to regroup.
  lemma BatchSweepsIff(drv: Driver, parse: Parser, db: Db, rows: seq<Row>)
    requires Fresh(db, rows)
    ensures (forall k :: 0 <= k < |rows| ==>
               Good(parse, Batch(drv, parse, db, rows).parts[rows[k].id]) || rows[k].id in Spared(parse, db, rows)) <==>
            Sees(drv, parse, db, rows)
  {
    hide Batch, Spared, Dirty, Protected, Good, Changed;
    forall k | 0 <= k < |rows|
      ensures var i := rows[k].id; var d := Batch(drv, parse, db, rows); var p := Protected(db, Dirty(parse, rows));
        && rows[k].binary == db.parts[i].binary && i in d.parts
        && (Good(parse, d.parts[i]) <==> !Changed(parse, rows[k]) || Reaches(drv, db.parts[i].binary, p))
        && (i in Spared(parse, db, rows) <==> Changed(parse, rows[k]) && On(db.parts[i].binary, p))
    {
      AfterwardsIs(drv, parse, db, rows, k);
    }
  }

  // The failing batch: one mis-grouped part on a binary that backs nothing
  // done. The binary is torn down and the part keeps its old grouping, ready
  // to be folded under its old key again.
  lemma NullListTearsDownOnly(parse: Parser, db: Db, i: PartId)
    requires i in db.parts && !Good(parse, db.parts[i])
    requires db.parts[i].binary.Some? && !BacksDone(db, db.parts[i].binary.value)
    ensures var d := Batch(SendsNull, parse, db, [RowOf(db.parts, i)]);
      && !Sees(SendsNull, parse, db, [RowOf(db.parts, i)])
      && d.parts[i] == db.parts[i].(binary := None) && db.parts[i].binary.value !in d.binaries
      && FoldKey(d.parts[i]) == FoldKey(db.parts[i])
  {
    var rows := [RowOf(db.parts, i)];
    var b := db.parts[i].binary.value;
    assert rows[..|rows| - 1] == [];
    assert Dirty(parse, rows[..|rows| - 1]) == {} && Updates(parse, rows[..|rows| - 1]) == map[];
    assert Dirty(parse, rows) == {b} && Protected(db, {b}) == {};
    assert Changed(parse, rows[0]) && rows[0].binary.Some?;
  }

  // ---- replay ----

  // A batch whose rewrites all sit on protected binaries changes nothing.
  lemma ProtectedBatchIsNoop(drv: Driver, parse: Parser, db: Db, rows: seq<Row>)
    requires Fresh(db, rows)
    requires forall k :: 0 <= k < |rows| && Changed(parse, rows[k]) ==>
      rows[k].binary.Some? && BacksDone(db, rows[k].binary.value)
    ensures Batch(drv, parse, db, rows) == db
  {
    var dirty := Dirty(parse, rows);
    DirtyMeans(parse, rows);
    assert Protected(db, dirty) == dirty;
    assert dirty - dirty == {};
    forall i | i in Updates(parse, rows) && i in db.parts ensures On(db.parts[i].binary, dirty) {
      UpdatesMean(parse, rows);
      RewrittenPartsAreDirty(parse, db, rows, i);
      var k :| 0 <= k < |rows| && rows[k].id == i;
    }
  }

  // ---- runs with crashes and other writers ----

  // The parts a batch should have regrouped but could not see, because they
  // are assigned and its list of protected binaries arrived as NULL.
  function Missed(drv: Driver, parse: Parser, db: Db, rows: seq<Row>, exempt: set<PartId>): (r: set<PartId>)
  {
    set i | i in db.parts && i in Updates(parse, rows) && i !in exempt && db.parts[i].binary.Some?
            && drv.SendsNull? && Protected(db, Dirty(parse, rows)) == {} && !Good(parse, db.parts[i])
  }

  // The sweeping process between two of its database calls. `missed` is what
  // the batch it has just applied could not see.
  datatype Worker =
    | Off
    | Ready(cursor: nat)
    | Listed(cursor: nat, rows: seq<Row>)
    | Wrote(next: nat, missed: set<PartId>)

  // `saved` is the persisted cursor, `born` every part id ever used (ids come
  // from a sequence and are never reused), `exempt` the parts that sat on a
  // protected binary when their batch was applied.
  datatype Sys = Sys(db: Db, born: set<PartId>, saved: nat, worker: Worker, exempt: set<PartId>)

  datatype Event =
    | Begin
    | List(limit: nat, found: seq<Row>)
    | Apply
    | Save
    | Crash
    | Other(db: Db)

  // What other writers may do: parts keep subject and grouping while they
  // exist, and new parts are grouped by the current parser.
  ghost predicate OtherMay(parse: Parser, s: Sys, db: Db)
  {
    forall i :: i in db.parts ==>
      if i in s.db.parts
      then db.parts[i].subject == s.db.parts[i].subject && db.parts[i].grouping == s.db.parts[i].grouping
      else i !in s.born && Good(parse, db.parts[i])
  }

  ghost predicate Enabled(parse: Parser, s: Sys, e: Event)
  {
    match e
    case Begin => s.worker.Off?
    case List(limit, found) => s.worker.Ready? && limit > 0 && IsListing(s.db.parts, s.worker.cursor, limit, found)
    case Apply => s.worker.Listed? && s.worker.rows != []
    case Save => s.worker.Wrote?
    case Crash => true
    case Other(db) => OtherMay(parse, s, db)
  }

  ghost function Step(drv: Driver, parse: Parser, s: Sys, e: Event): (r: Sys)
    requires Enabled(parse, s, e)
  {
    match e
    case Begin => s.(worker := Ready(s.saved))
    case List(_, found) => s.(worker := if found == [] then Off else Listed(s.worker.cursor, found))
    case Apply =>
      var rows := s.worker.rows;
      s.(db := Batch(drv, parse, s.db, rows), exempt := s.exempt + Spared(parse, s.db, rows),
         worker := Wrote(rows[|rows| - 1].id, Missed(drv, parse, s.db, rows, s.exempt)))
    case Save => s.(saved := s.worker.next, worker := Ready(s.worker.next))
    case Crash => s.(worker := Off)
    case Other(db) => s.(db := db, born := s.born + db.parts.Keys)
  }

  // Everything up to the cursor has the grouping the parser gives, or was exempt.
  ghost predicate Swept(parse: Parser, m: Parts, upTo: nat, exempt: set<PartId>)
  {
    forall i :: i in m && i <= upTo ==> Good(parse, m[i]) || i in exempt
  }

  // `missed` really is missed: not exempt, not beyond `upTo`, and still mis-grouped.
  ghost predicate StillMissed(parse: Parser, m: Parts, upTo: nat, exempt: set<PartId>, missed: set<PartId>)
  {
    forall i :: i in missed ==> i <= upTo && i !in exempt && (i in m ==> !Good(parse, m[i]))
  }

  // The listing still tells the sweep what it needs to know about (cursor, last].
  ghost predicate Covers(parse: Parser, m: Parts, cursor: nat, rows: seq<Row>)
  {
    && Ascending(rows) && rows != []
    && (forall k :: 0 <= k < |rows| ==> cursor < rows[k].id)
    && (forall k :: 0 <= k < |rows| && rows[k].id in m ==> m[rows[k].id].subject == rows[k].subject)
    && (forall i :: i in m && cursor < i <= rows[|rows| - 1].id && !Good(parse, m[i]) ==>
          exists k :: 0 <= k < |rows| && rows[k].id == i && rows[k].grouping == m[i].grouping)
  }

  ghost predicate Inv(parse: Parser, s: Sys)
  {
    && s.db.parts.Keys <= s.born && Swept(parse, s.db.parts, s.saved, s.exempt)
    && match s.worker
       case Off => true
       case Ready(c) => c == s.saved
       case Listed(c, rows) => c == s.saved && Covers(parse, s.db.parts, c, rows) && Ids(rows) <= s.born
       case Wrote(next, missed) =>
         && next >= s.saved && Swept(parse, s.db.parts, next, s.exempt + missed) && missed <= s.born
         && StillMissed(parse, s.db.parts, next, s.exempt, missed)
  }

  lemma ListKeepsInv(parse: Parser, s: Sys, limit: nat, rows: seq<Row>)
    requires Inv(parse, s) && s.worker.Ready?
    requires limit > 0 && IsListing(s.db.parts, s.worker.cursor, limit, rows) && rows != []
    ensures Covers(parse, s.db.parts, s.worker.cursor, rows) && Ids(rows) <= s.born
  {
    var m := s.db.parts;
    forall i | i in m && s.worker.cursor < i <= rows[|rows| - 1].id
      ensures exists k :: 0 <= k < |rows| && rows[k].id == i && rows[k].grouping == m[i].grouping
    {
      assert i in Ids(rows);
      var k :| 0 <= k < |rows| && rows[k].id == i;
      assert rows[k] == RowOf(m, i);
    }
  }

  // Applying a covering listing leaves everything up to its last row swept,
  // spared or missed, even if other writers have moved the parts since.
  lemma ApplySweeps(drv: Driver, parse: Parser, db: Db, cursor: nat, rows: seq<Row>, exempt: set<PartId>)
    requires Covers(parse, db.parts, cursor, rows) && Swept(parse, db.parts, cursor, exempt)
    ensures var d, last := Batch(drv, parse, db, rows), rows[|rows| - 1].id;
      var e, missed := exempt + Spared(parse, db, rows), Missed(drv, parse, db, rows, exempt);
      && cursor < last && d.parts.Keys == db.parts.Keys && missed <= db.parts.Keys
      && Swept(parse, d.parts, cursor, e) && Swept(parse, d.parts, last, e + missed)
      && StillMissed(parse, d.parts, last, e, missed)
      && (forall i :: i in missed ==> cursor < i)
      && (forall i :: i in db.parts && i <= cursor ==>
            Good(parse, d.parts[i]) == Good(parse, db.parts[i]) && i !in Spared(parse, db, rows))
  {
    hide Batch, Spared, Missed, Good;
    LastIsAhead(parse, db.parts, cursor, rows);
    var last := rows[|rows| - 1].id;
    PartsStay(drv, parse, db, rows);
    forall i | i in db.parts
      ensures var good := Good(parse, Batch(drv, parse, db, rows).parts[i]);
        && (i <= cursor ==> good == Good(parse, db.parts[i]) && i !in Spared(parse, db, rows))
        && (cursor < i <= last ==>
              good || i in exempt || i in Spared(parse, db, rows) || i in Missed(drv, parse, db, rows, exempt))
        && (i in Missed(drv, parse, db, rows, exempt) ==>
              cursor < i <= last && !good && i !in exempt && i !in Spared(parse, db, rows))
    {
      ApplyPart(drv, parse, db, cursor, rows, exempt, i);
    }
    MissedAreParts(drv, parse, db, rows, exempt);
  }

  lemma LastIsAhead(parse: Parser, m: Parts, cursor: nat, rows: seq<Row>)
    requires Covers(parse, m, cursor, rows)
    ensures rows != [] && cursor < rows[|rows| - 1].id
    ensures forall k :: 0 <= k < |rows| ==> cursor < rows[k].id <= rows[|rows| - 1].id
  {
    assert forall k :: 0 <= k < |rows| - 1 ==> rows[k].id < rows[|rows| - 1].id;
  }

  lemma PartsStay(drv: Driver, parse: Parser, db: Db, rows: seq<Row>)
    ensures Batch(drv, parse, db, rows).parts.Keys == db.parts.Keys
  {
  }

  lemma MissedAreParts(drv: Driver, parse: Parser, db: Db, rows: seq<Row>, exempt: set<PartId>)
    ensures Missed(drv, parse, db, rows, exempt) <= db.parts.Keys
  {
  }

  // One part under a listing that may have gone stale.
  lemma ApplyPart(drv: Driver, parse: Parser, db: Db, cursor: nat, rows: seq<Row>, exempt: set<PartId>, i: PartId)
    requires Covers(parse, db.parts, cursor, rows) && i in db.parts
    ensures var d, last := Batch(drv, parse, db, rows), rows[|rows| - 1].id;
      && i in d.parts
      && (i <= cursor ==> Good(parse, d.parts[i]) == Good(parse, db.parts[i]) && i !in Spared(parse, db, rows))
      && (cursor < i <= last ==>
            || Good(parse, d.parts[i]) || i in exempt || i in Spared(parse, db, rows)
            || i in Missed(drv, parse, db, rows, exempt))
      && (i in Missed(drv, parse, db, rows, exempt) ==>
            cursor < i <= last && !Good(parse, d.parts[i]) && i !in exempt && i !in Spared(parse, db, rows))
  {
    hide Updates, Dirty, Applied, Protected, RewrittenInPlace;
    UpdatesMean(parse, rows);
    LastIsAhead(parse, db.parts, cursor, rows);
    AppliedPart(drv, db, Updates(parse, rows), Dirty(parse, rows), i);
    if i in Updates(parse, rows) {
      var k :| 0 <= k < |rows| && rows[k].id == i;
    }
  }

  lemma OtherKeepsInv(parse: Parser, s: Sys, db: Db)
    requires Inv(parse, s) && OtherMay(parse, s, db)
    ensures Inv(parse, s.(db := db, born := s.born + db.parts.Keys))
  {
    if s.worker.Listed? {
      var rows := s.worker.rows;
      forall k | 0 <= k < |rows| && rows[k].id in db.parts ensures db.parts[rows[k].id].subject == rows[k].subject {
        assert rows[k].id in Ids(rows);
      }
      assert Covers(parse, db.parts, s.worker.cursor, rows);
    }
  }

  // Everything the batch about to be recorded has missed is gone by now.
  predicate SaveIsClean(s: Sys)
  {
    s.worker.Wrote? ==> forall i :: i in s.worker.missed ==> i !in s.db.parts
  }

  lemma StepKeepsInv(drv: Driver, parse: Parser, s: Sys, e: Event)
    requires Inv(parse, s) && Enabled(parse, s, e) && (e.Save? ==> SaveIsClean(s))
    ensures Inv(parse, Step(drv, parse, s, e))
  {
    match e
    case Begin =>
    case List(limit, found) =>
      if found != [] {
        ListKeepsInv(parse, s, limit, found);
      }
    case Apply =>
      hide Batch, Spared, Missed, Covers;
      ApplySweeps(drv, parse, s.db, s.worker.cursor, s.worker.rows, s.exempt);
    case Save =>
    case Crash =>
    case Other(db) => OtherKeepsInv(parse, s, db);
  }

  lemma UncleanSaveSkips(drv: Driver, parse: Parser, s: Sys)
    requires Inv(parse, s) && s.worker.Wrote? && !SaveIsClean(s)
    ensures var n := Step(drv, parse, s, Save); !Swept(parse, n.db.parts, n.saved, n.exempt)
  {
    var i :| i in s.worker.missed && i in s.db.parts;
    assert i <= s.worker.next && i !in s.exempt && !Good(parse, s.db.parts[i]);
  }

  ghost predicate IsRun(drv: Driver, parse: Parser, s: Sys, es: seq<Event>)
    decreases |es|
  {
    |es| == 0 || (Enabled(parse, s, es[0]) && IsRun(drv, parse, Step(drv, parse, s, es[0]), es[1..]))
  }

  ghost function Final(drv: Driver, parse: Parser, s: Sys, es: seq<Event>): (r: Sys)
    requires IsRun(drv, parse, s, es)
    decreases |es|
  {
    if |es| == 0 then s else Final(drv, parse, Step(drv, parse, s, es[0]), es[1..])
  }

  ghost predicate AlwaysSwept(drv: Driver, parse: Parser, s: Sys, es: seq<Event>)
    requires IsRun(drv, parse, s, es)
    decreases |es|
  {
    && Swept(parse, s.db.parts, s.saved, s.exempt)
    && (|es| > 0 ==> AlwaysSwept(drv, parse, Step(drv, parse, s, es[0]), es[1..]))
  }

  ghost predicate CleanSaves(drv: Driver, parse: Parser, s: Sys, es: seq<Event>)
    requires IsRun(drv, parse, s, es)
    decreases |es|
  {
    |es| > 0 ==> (es[0].Save? ==> SaveIsClean(s)) && CleanSaves(drv, parse, Step(drv, parse, s, es[0]), es[1..])
  }

  // Over any sequence of passes, crashes (also between applying a batch and
  // saving the cursor) and other writers' work: every part at or below the
  // saved cursor has, at every moment, the grouping the parser gives or sat on
  // a protected binary when its batch was applied, if and only if the cursor
  // is never saved past a part its batch could not see.
  lemma {:induction false} SweepNeverMissesIff(drv: Driver, parse: Parser, s: Sys, es: seq<Event>)
    requires Inv(parse, s) && IsRun(drv, parse, s, es)
    ensures AlwaysSwept(drv, parse, s, es) <==> CleanSaves(drv, parse, s, es)
    ensures CleanSaves(drv, parse, s, es) ==> Inv(parse, Final(drv, parse, s, es))
    decreases |es|
  {
    if |es| > 0 {
      hide Inv, Swept, Step, SaveIsClean;
      InvSwept(parse, s);
      var n := Step(drv, parse, s, es[0]);
      if es[0].Save? && !SaveIsClean(s) {
        UncleanSaveSkips(drv, parse, s);
      } else {
        StepKeepsInv(drv, parse, s, es[0]);
        SweepNeverMissesIff(drv, parse, n, es[1..]);
      }
    }
  }

  lemma InvSwept(parse: Parser, s: Sys)
    requires Inv(parse, s)
    ensures Swept(parse, s.db.parts, s.saved, s.exempt)
  {
  }

  // Each batch applied in the run can see what it has to regroup at that moment.
  ghost predicate AppliesSee(drv: Driver, parse: Parser, s: Sys, es: seq<Event>)
    requires IsRun(drv, parse, s, es)
    decreases |es|
  {
    |es| > 0 ==>
      && (es[0].Apply? ==> Missed(drv, parse, s.db, s.worker.rows, s.exempt) == {})
      && AppliesSee(drv, parse, Step(drv, parse, s, es[0]), es[1..])
  }

  // Two ways to be safe: batches that can see, or a driver that sends an
  // empty array, with which they all can.
  lemma {:induction false} SeeingRunsAreClean(drv: Driver, parse: Parser, s: Sys, es: seq<Event>)
    requires IsRun(drv, parse, s, es) && (s.worker.Wrote? ==> s.worker.missed == {})
    requires drv.SendsEmpty? || AppliesSee(drv, parse, s, es)
    ensures CleanSaves(drv, parse, s, es)
    decreases |es|
  {
    if |es| > 0 {
      hide Batch, Spared;
      SeeingRunsAreClean(drv, parse, Step(drv, parse, s, es[0]), es[1..]);
    }
  }

  // The saved cursor, on the way to being saved, and the last row listed.
  ghost predicate CursorsInOrder(s: Sys)
  {
    match s.worker
    case Off => true
    case Ready(c) => c == s.saved
    case Listed(c, rows) => c == s.saved && (rows != [] ==> c < rows[|rows| - 1].id)
    case Wrote(next, _) => s.saved < next
  }

  // Whatever the batches could see, the saved cursor never goes back.
  lemma {:induction false} CursorNeverDecreases(drv: Driver, parse: Parser, s: Sys, es: seq<Event>)
    requires CursorsInOrder(s) && IsRun(drv, parse, s, es)
    ensures s.saved <= Final(drv, parse, s, es).saved && CursorsInOrder(Final(drv, parse, s, es))
    decreases |es|
  {
    if |es| > 0 {
      hide Batch, Spared, Missed;
      CursorNeverDecreases(drv, parse, Step(drv, parse, s, es[0]), es[1..]);
    }
  }

  // With a driver that sends NULL, the first pass over a database whose first
  // part is mis-grouped and assigned to a binary that backs nothing done
  // leaves that part below the saved cursor, neither regrouped nor spared.
  lemma NullListSkipsPart(parse: Parser, db: Db, i: PartId) returns (es: seq<Event>)
    requires i in db.parts && !Good(parse, db.parts[i]) && (forall j :: j in db.parts ==> 0 < i <= j)
    requires db.parts[i].binary.Some? && !BacksDone(db, db.parts[i].binary.value)
    ensures var s := Sys(db, db.parts.Keys, 0, Off, {});
      && IsRun(SendsNull, parse, s, es)
      && var f := Final(SendsNull, parse, s, es);
         i in f.db.parts && i <= f.saved && !Good(parse, f.db.parts[i]) && i !in f.exempt
  {
    var rows := [RowOf(db.parts, i)];
    var s := Sys(db, db.parts.Keys, 0, Off, {});
    es := [Begin, List(1, rows), Apply, Save];
    FirstPart(db.parts, i);
    NullListTearsDownOnly(parse, db, i);
    NothingSpared(parse, db, i);
    hide Batch, IsListing, Sees, Spared, Missed, Good;
    var s1 := s.(worker := Ready(0));
    var s2 := s.(worker := Listed(0, rows));
    var s3 := Step(SendsNull, parse, s2, Apply);
    var s4 := Step(SendsNull, parse, s3, Save);
    assert es[1..][1..][1..] == [Save] && es[1..][1..] == [Apply, Save] && es[1..] == [List(1, rows), Apply, Save];
    LastStep(SendsNull, parse, s3, Save);
    assert [Apply, Save][1..] == [Save];
    assert IsRun(SendsNull, parse, s2, [Apply, Save]) && Final(SendsNull, parse, s2, [Apply, Save]) == s4;
    assert IsRun(SendsNull, parse, s1, es[1..]) && Final(SendsNull, parse, s1, es[1..]) == s4;
    assert Final(SendsNull, parse, s, es) == s4;
  }

  lemma LastStep(drv: Driver, parse: Parser, s: Sys, e: Event)
    requires Enabled(parse, s, e)
    ensures IsRun(drv, parse, s, [e]) && Final(drv, parse, s, [e]) == Step(drv, parse, s, e)
  {
    assert [e][1..] == [];
  }

  lemma FirstPart(m: Parts, i: PartId)
    requires i in m && forall j :: j in m ==> 0 < i <= j
    ensures IsListing(m, 0, 1, [RowOf(m, i)])
  {
    assert [RowOf(m, i)][0].id == i;
  }

  lemma NothingSpared(parse: Parser, db: Db, i: PartId)
    requires i in db.parts && db.parts[i].binary.Some? && !BacksDone(db, db.parts[i].binary.value)
    ensures i !in Spared(parse, db, [RowOf(db.parts, i)])
  {
  }

  // A database the sweep has never run on satisfies the invariant.
  lemma StartsSwept(parse: Parser, db: Db)
    requires forall i :: i in db.parts ==> i > 0
    ensures Inv(parse, Sys(db, db.parts.Keys, 0, Off, {}))
  {
  }

  // So it holds of every run from there.
  lemma SweepFromScratchIff(drv: Driver, parse: Parser, db: Db, es: seq<Event>)
    requires forall i :: i in db.parts ==> i > 0
    requires IsRun(drv, parse, Sys(db, db.parts.Keys, 0, Off, {}), es)
    ensures var s := Sys(db, db.parts.Keys, 0, Off, {});
      AlwaysSwept(drv, parse, s, es) <==> CleanSaves(drv, parse, s, es)
  {
    StartsSwept(parse, db);
    SweepNeverMissesIff(drv, parse, Sys(db, db.parts.Keys, 0, Off, {}), es);
  }

  // Everything the assembler does is something another writer may do.
  lemma AssemblerMay(parse: Parser, s: Sys, e: Assembly.Event)
    requires Assembly.Enabled(s.db, e)
    requires e.Insert? ==> forall i :: i in e.added ==> i !in s.born && Good(parse, e.added[i])
    ensures OtherMay(parse, s, Assembly.Step(s.db, e))
  {
  }

  // ---- the pass itself ----

  // What stops an iteration of the loop, if anything.
  datatype Stop = Go | Cancelled | Deadline | ListError | ApplyError | SaveError

  method PlanAndApply(drv: Driver, st: Store, parse: Parser, rows: seq<Row>) returns (stats: Stats)
    requires st.Valid()
    modifies st
    ensures st.Valid() && st.View() == Batch(drv, parse, old(st.View()), rows)
  {
    hide Applied, Assigned, Updates, Dirty, Protected, Rewritten, PartsOn;
    var updates, dirty := Plan(parse, rows);
    stats := ApplyReparse(drv, st, updates, dirty);
  }

  // What a pass has done so far: `exempt` are the spared parts, `missed` those
  // below the cursor that no batch could see.
  ghost predicate Progress(parse: Parser, m: Parts, cursor: nat, exempt: set<PartId>, missed: set<PartId>)
  {
    && Swept(parse, m, cursor, exempt + missed)
    && forall i :: i in missed ==> i in m && i <= cursor && i !in exempt && !Good(parse, m[i])
  }

  class Reassembler {
    var cursor: nat  // the persisted setting; 0 when unset

    constructor ()
      ensures cursor == 0
    {
      cursor := 0;
    }

    // One pass with no other writer: what the cursor passed is swept exactly
    // when no batch it recorded missed a part.
    method Run(drv: Driver, st: Store, parse: Parser, batchSize: int, maxBatches: nat, stop: nat -> Stop,
               ghost before: set<PartId>)
      returns (done: bool, batches: nat, ghost exempt: set<PartId>, ghost missed: set<PartId>)
      requires st.Valid() && Swept(parse, st.parts, cursor, before)
      modifies this, st
      ensures st.Valid() && before <= exempt && old(cursor) <= cursor && batches <= maxBatches
      ensures st.parts.Keys == old(st.parts.Keys)
      ensures Progress(parse, st.parts, cursor, exempt, missed)
      ensures Swept(parse, st.parts, cursor, exempt) <==> missed == {}
      ensures drv.SendsEmpty? ==> missed == {}
      ensures done ==> forall i :: i in st.parts ==> Good(parse, st.parts[i]) || i in exempt || i in missed
    {
      hide Swept, IsListing, Batch, Covers, Spared, Missed, Progress, Good, KeysUnique;
      exempt, missed, batches, done := before, {}, 0, false;
      StartOfPass(parse, st.parts, cursor, before);
      while batches < maxBatches
        invariant st.Valid() && before <= exempt && old(cursor) <= cursor && batches <= maxBatches && !done
        invariant st.parts.Keys == old(st.parts.Keys)
        invariant Progress(parse, st.parts, cursor, exempt, missed)
        invariant drv.SendsEmpty? ==> missed == {}
      {
        var s := stop(batches);
        if s.Cancelled? || s.Deadline? || s.ListError? {
          break;
        }
        var rows := ListPartsForReparse(st.parts, cursor, batchSize);
        if rows == [] {
          NothingListed(parse, st.parts, cursor, BatchSize(batchSize), exempt, missed);
          done := true;
          break;
        }
        ListingCovers(parse, st.parts, cursor, BatchSize(batchSize), rows);
        ghost var db := st.View();
        if s.ApplyError? {
          break;
        }
        var stats := PlanAndApply(drv, st, parse, rows);
        AfterBatch(drv, parse, db, st.View(), cursor, rows, exempt, missed);
        exempt := exempt + Spared(parse, db, rows);
        if s.SaveError? {
          break;
        }
        missed := missed + Missed(drv, parse, db, rows, exempt + missed);
        cursor := rows[|rows| - 1].id;
        batches := batches + 1;
      }
      EndOfPass(parse, st.parts, cursor, exempt, missed);
    }
  }

  lemma StartOfPass(parse: Parser, m: Parts, cursor: nat, exempt: set<PartId>)
    requires Swept(parse, m, cursor, exempt)
    ensures Progress(parse, m, cursor, exempt, {})
  {
    assert exempt + {} == exempt;
  }

  lemma EndOfPass(parse: Parser, m: Parts, cursor: nat, exempt: set<PartId>, missed: set<PartId>)
    requires Progress(parse, m, cursor, exempt, missed)
    ensures Swept(parse, m, cursor, exempt) <==> missed == {}
  {
    if missed != {} {
      var i :| i in missed;
      assert !Good(parse, m[i]) && i !in exempt;
    }
  }

  lemma NothingListed(parse: Parser, m: Parts, cursor: nat, limit: nat, exempt: set<PartId>, missed: set<PartId>)
    requires limit > 0 && IsListing(m, cursor, limit, []) && Progress(parse, m, cursor, exempt, missed)
    ensures forall i :: i in m ==> Good(parse, m[i]) || i in exempt || i in missed
  {
    assert Ids([]) == {};
  }

  lemma AfterBatch(drv: Driver, parse: Parser, db: Db, d: Db, cursor: nat, rows: seq<Row>, exempt: set<PartId>,
                   missed: set<PartId>)
    requires Covers(parse, db.parts, cursor, rows) && Progress(parse, db.parts, cursor, exempt, missed)
    requires d == Batch(drv, parse, db, rows)
    ensures var e := exempt + Spared(parse, db, rows); var more := Missed(drv, parse, db, rows, e + missed);
      && rows != [] && cursor < rows[|rows| - 1].id && d.parts.Keys == db.parts.Keys
      && Progress(parse, d.parts, cursor, e, missed)
      && Progress(parse, d.parts, rows[|rows| - 1].id, e, missed + more)
      && (drv.SendsEmpty? ==> more == {})
  {
    hide Batch, Spared, Missed, Good;
    var e := exempt + Spared(parse, db, rows);
    ApplySweeps(drv, parse, db, cursor, rows, exempt + missed);
    SparedOrMissed(drv, parse, db, rows, exempt, missed);
    var more := Missed(drv, parse, db, rows, e + missed);
    assert exempt + missed + Spared(parse, db, rows) == e + missed;
    assert e + missed + more == e + (missed + more);
  }

  // A batch that misses parts spares none.
  lemma SparedOrMissed(drv: Driver, parse: Parser, db: Db, rows: seq<Row>, exempt: set<PartId>, missed: set<PartId>)
    ensures Missed(drv, parse, db, rows, exempt + Spared(parse, db, rows) + missed) ==
      Missed(drv, parse, db, rows, exempt + missed)
    ensures drv.SendsEmpty? ==> Missed(drv, parse, db, rows, exempt + missed) == {}
  {
  }

  lemma ListingCovers(parse: Parser, m: Parts, cursor: nat, limit: nat, rows: seq<Row>)
    requires limit > 0 && IsListing(m, cursor, limit, rows) && rows != []
    ensures Covers(parse, m, cursor, rows)
  {
    var s := Sys(Db(m, map[], map[]), m.Keys, cursor, Ready(cursor), m.Keys);
    ListKeepsInv(parse, s, limit, rows);
  }
}
