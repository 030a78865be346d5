// Replaying a re-assembly batch whose cursor write was lost, with other
// writers at work in between.
module Replay {
  import opened Common
  import opened Tables
  import opened Reassembly
  import opened Sweep
  import Assembly

  // ---- nobody in between ----

  // The driver makes a difference to exactly the batches that cannot see.
  lemma DriverMattersIff(drv: Driver, parse: Parser, db: Db, rows: seq<Row>)
    requires Fresh(db, rows)
    ensures Batch(drv, parse, db, rows) == Batch(SendsEmpty, parse, db, rows) <==> Sees(drv, parse, db, rows)
  {
    var u, dirty := Updates(parse, rows), Dirty(parse, rows);
    hide Applied, Updates, Dirty, Protected, RewrittenInPlace;
    var d, e := Batch(drv, parse, db, rows), Batch(SendsEmpty, parse, db, rows);
    SameElsewhere(drv, db, u, dirty);
    forall i | i in db.parts
      ensures drv.SendsEmpty? || Protected(db, dirty) != {} || i !in u || db.parts[i].binary.None? ==>
        d.parts[i] == e.parts[i]
    {
      AppliedPart(drv, db, u, dirty, i);
      AppliedPart(SendsEmpty, db, u, dirty, i);
    }
    if Sees(drv, parse, db, rows) {
      forall i | i in db.parts ensures d.parts[i] == e.parts[i] {
        if i in u && db.parts[i].binary.Some? {
          UpdatesMean(parse, rows);
          var k :| 0 <= k < |rows| && rows[k].id == i;
          assert Changed(parse, rows[k]);
        }
      }
      assert d.parts == e.parts;
    } else {
      var k :| 0 <= k < |rows| && Changed(parse, rows[k]) && rows[k].binary.Some?;
      AfterwardsIs(drv, parse, db, rows, k);
      AfterwardsIs(SendsEmpty, parse, db, rows, k);
      assert d.parts[rows[k].id] != e.parts[rows[k].id];
    }
  }

  lemma SameElsewhere(drv: Driver, db: Db, u: map<PartId, Grouping>, dirty: set<BinId>)
    ensures var d, e := Applied(drv, db, u, dirty), Applied(SendsEmpty, db, u, dirty);
      && d.binaries == e.binaries && d.releases == e.releases && d.parts.Keys == e.parts.Keys == db.parts.Keys
  {
  }

  lemma StaysProtected(drv: Driver, parse: Parser, db: Db, rows: seq<Row>, i: PartId)
    requires i in Spared(parse, db, rows)
    ensures var d := Batch(drv, parse, db, rows);
      i in d.parts && d.parts[i].binary.Some? && BacksDone(d, d.parts[i].binary.value)
  {
    var b := db.parts[i].binary.value;
    var r :| r in db.releases && db.releases[r].binary == Some(b) && db.releases[r].status.Done?;
    assert Batch(drv, parse, db, rows).releases[r] == db.releases[r];
  }

  // A batch that could not see has detached what it did not regroup, so the
  // second time it can.
  lemma SecondFinishes(parse: Parser, db: Db, rows: seq<Row>, again: seq<Row>)
    requires Fresh(db, rows) && !Sees(SendsNull, parse, db, rows)
    requires Fresh(Batch(SendsNull, parse, db, rows), again) && Ids(again) == Ids(rows)
    ensures Batch(SendsNull, parse, Batch(SendsNull, parse, db, rows), again) == Batch(SendsEmpty, parse, db, rows)
  {
    var d, e := Batch(SendsNull, parse, db, rows), Batch(SendsEmpty, parse, db, rows);
    var u, dirty := Updates(parse, rows), Dirty(parse, rows);
    hide Applied, Updates, Dirty, Protected, RewrittenInPlace, Spared;
    assert Protected(db, dirty) == {};
    forall n | 0 <= n < |again| && Changed(parse, again[n]) ensures again[n].binary.None? {
      assert again[n].id in Ids(again);
      var k :| 0 <= k < |rows| && rows[k].id == again[n].id;
      AfterwardsIs(SendsNull, parse, db, rows, k);
    }
    NothingDirty(parse, d, again);
    var f := Batch(SendsNull, parse, d, again);
    NothingTornDown(SendsNull, d, Updates(parse, again));
    SameElsewhere(SendsNull, db, u, dirty);
    forall i | i in db.parts ensures f.parts[i] == e.parts[i] {
      SecondPart(parse, db, rows, again, i);
    }
    assert f.parts == e.parts;
  }

  lemma NothingDirty(parse: Parser, db: Db, rows: seq<Row>)
    requires forall k :: 0 <= k < |rows| && Changed(parse, rows[k]) ==> rows[k].binary.None?
    ensures Dirty(parse, rows) == {} && Protected(db, {}) == {}
  {
    DirtyMeans(parse, rows);
  }

  lemma NothingTornDown(drv: Driver, db: Db, u: map<PartId, Grouping>)
    ensures var d := Applied(drv, db, u, {});
      d.binaries == db.binaries && d.releases == db.releases && d.parts.Keys == db.parts.Keys
  {
    assert {} - Protected(db, {}) == {};
  }

  lemma SecondPart(parse: Parser, db: Db, rows: seq<Row>, again: seq<Row>, i: PartId)
    requires Fresh(db, rows) && Protected(db, Dirty(parse, rows)) == {} && i in db.parts
    requires Fresh(Batch(SendsNull, parse, db, rows), again) && Ids(again) == Ids(rows) && Dirty(parse, again) == {}
    ensures var d := Batch(SendsNull, parse, db, rows);
      && i in Batch(SendsNull, parse, d, again).parts && i in Batch(SendsEmpty, parse, db, rows).parts
      && Batch(SendsNull, parse, d, again).parts[i] == Batch(SendsEmpty, parse, db, rows).parts[i]
  {
    hide Applied, Updates, Dirty, RewrittenInPlace;
    var d, u, dirty := Batch(SendsNull, parse, db, rows), Updates(parse, rows), Dirty(parse, rows);
    assert Protected(d, {}) == {};
    AppliedPart(SendsNull, db, u, dirty, i);
    AppliedPart(SendsEmpty, db, u, dirty, i);
    AppliedPart(SendsNull, d, Updates(parse, again), {}, i);
    if i in u {
      RewrittenPartsAreDirty(parse, db, rows, i);
    }
    ListedIff(parse, db, rows, i);
    ListedIff(parse, d, again, i);
  }

  lemma ListedIff(parse: Parser, db: Db, rows: seq<Row>, i: PartId)
    requires Fresh(db, rows) && i in db.parts
    ensures i in Updates(parse, rows) <==> i in Ids(rows) && !Good(parse, db.parts[i])
    ensures i in Updates(parse, rows) ==> Updates(parse, rows)[i] == parse(db.parts[i].subject)
  {
    UpdatesMean(parse, rows);
    if i in Ids(rows) {
      var k :| 0 <= k < |rows| && rows[k].id == i;
    }
  }

  // Applied again with nobody in between, a batch ends in the database it was
  // meant to leave.
  lemma ReplayAloneFinishes(drv: Driver, parse: Parser, db: Db, after: nat, limit: nat, rows: seq<Row>, again: seq<Row>)
    requires limit > 0 && IsListing(db.parts, after, limit, rows)
    requires IsListing(Batch(drv, parse, db, rows).parts, after, limit, again)
    ensures Batch(drv, parse, Batch(drv, parse, db, rows), again) == Batch(SendsEmpty, parse, db, rows)
  {
    var d := Batch(drv, parse, db, rows);
    OldIdsListed(db.parts, d.parts, after, limit, rows, again);
    OldIdsListed(d.parts, db.parts, after, limit, again, rows);
    ListingIsFresh(db, after, limit, rows);
    ListingIsFresh(d, after, limit, again);
    hide Batch, Sees, IsListing;
    assert Ids(again) == Ids(rows);
    if Sees(drv, parse, db, rows) {
      DriverMattersIff(drv, parse, db, rows);
      NobodyBetween(parse, d);
      ReplayChangesNothingIff(drv, parse, db, rows, d, again);
    } else {
      BlindMeansNull(drv, parse, db, rows);
      SecondFinishes(parse, db, rows, again);
    }
  }

  lemma ListingIsFresh(db: Db, after: nat, limit: nat, rows: seq<Row>)
    requires IsListing(db.parts, after, limit, rows)
    ensures Fresh(db, rows) && forall i :: i in Ids(rows) ==> i in db.parts
  {
  }

  lemma BlindMeansNull(drv: Driver, parse: Parser, db: Db, rows: seq<Row>)
    requires !Sees(drv, parse, db, rows)
    ensures drv.SendsNull?
  {
  }

  // ---- other writers in between ----

  // What may happen between the lost write and the replay: parts keep subject
  // and grouping while they exist and their binary if they have one, new parts
  // are grouped by the parser, and what backs a done release goes on doing so.
  ghost predicate Between(parse: Parser, d: Db, now: Db)
  {
    && (forall i :: i in now.parts && i in d.parts ==>
          && now.parts[i].subject == d.parts[i].subject && now.parts[i].grouping == d.parts[i].grouping
          && (d.parts[i].binary.Some? ==> now.parts[i].binary == d.parts[i].binary))
    && (forall i :: i in now.parts && i !in d.parts ==> Good(parse, now.parts[i]))
    && (forall b :: BacksDone(d, b) ==> BacksDone(now, b))
  }

  // The replay lists no old part the first listing did not have.
  ghost predicate Relists(d: Db, rows: seq<Row>, again: seq<Row>)
  {
    forall i :: i in Ids(again) && i in d.parts ==> i in Ids(rows)
  }

  // As long as no part is deleted, the same listing limit sees to that.
  lemma ListingRelists(drv: Driver, parse: Parser, db: Db, now: Db, after: nat, limit: nat, rows: seq<Row>,
                       again: seq<Row>)
    requires IsListing(db.parts, after, limit, rows) && IsListing(now.parts, after, limit, again)
    requires db.parts.Keys <= now.parts.Keys
    ensures Fresh(db, rows) && Fresh(now, again) && Relists(Batch(drv, parse, db, rows), rows, again)
  {
    OldIdsListed(db.parts, now.parts, after, limit, rows, again);
    assert Batch(drv, parse, db, rows).parts.Keys == db.parts.Keys;
  }

  // The parts the first application could not see.
  function Unseen(drv: Driver, parse: Parser, db: Db, rows: seq<Row>): (r: set<PartId>)
  {
    Missed(drv, parse, db, rows, {})
  }

  lemma UnseenIff(drv: Driver, parse: Parser, db: Db, rows: seq<Row>)
    requires Fresh(db, rows)
    ensures Unseen(drv, parse, db, rows) == {} <==> Sees(drv, parse, db, rows)
  {
    hide Updates, Dirty, Protected;
    forall k | 0 <= k < |rows| && Changed(parse, rows[k]) && rows[k].binary.Some?
      ensures drv.SendsNull? && Protected(db, Dirty(parse, rows)) == {} ==> rows[k].id in Unseen(drv, parse, db, rows)
    {
      assert rows[k].id in Ids(rows);
      ListedIff(parse, db, rows, rows[k].id);
    }
    forall i | i in Unseen(drv, parse, db, rows)
      ensures exists k :: 0 <= k < |rows| && Changed(parse, rows[k]) && rows[k].binary.Some?
    {
      ListedIff(parse, db, rows, i);
      var k :| 0 <= k < |rows| && rows[k].id == i;
      assert Changed(parse, rows[k]) && rows[k].binary.Some?;
    }
  }

  // What the replay finds wrong: a part the first application spared, still on
  // its done-backed binary, or one it could not see.
  lemma FoundAgain(drv: Driver, parse: Parser, db: Db, rows: seq<Row>, now: Db, again: seq<Row>, n: nat)
    requires Fresh(db, rows) && Fresh(now, again) && n < |again|
    requires Between(parse, Batch(drv, parse, db, rows), now) && Relists(Batch(drv, parse, db, rows), rows, again)
    ensures var i := again[n].id;
      && i in now.parts && again[n].binary == now.parts[i].binary
      && (i in Unseen(drv, parse, db, rows) ==> Changed(parse, again[n]))
      && (Changed(parse, again[n]) && i !in Unseen(drv, parse, db, rows) ==>
            now.parts[i].binary.Some? && BacksDone(now, now.parts[i].binary.value))
  {
    var i, d := again[n].id, Batch(drv, parse, db, rows);
    assert i in Ids(again);
    hide Batch, Updates, Dirty, Protected, BacksDone, Spared;
    if i in d.parts {
      var k :| 0 <= k < |rows| && rows[k].id == i;
      AfterwardsIs(drv, parse, db, rows, k);
      ListedIff(parse, db, rows, i);
      if i in Spared(parse, db, rows) {
        StaysProtected(drv, parse, db, rows, i);
      }
    } else {
      BatchKeepsParts(drv, parse, db, rows);
    }
  }

  lemma BatchKeepsParts(drv: Driver, parse: Parser, db: Db, rows: seq<Row>)
    ensures Batch(drv, parse, db, rows).parts.Keys == db.parts.Keys
  {
  }

  // A batch changes nothing if and only if all it finds wrong is protected.
  lemma NoopIff(drv: Driver, parse: Parser, db: Db, rows: seq<Row>)
    requires Fresh(db, rows)
    ensures Batch(drv, parse, db, rows) == db <==>
      forall k :: 0 <= k < |rows| && Changed(parse, rows[k]) ==>
        rows[k].binary.Some? && BacksDone(db, rows[k].binary.value)
  {
    hide Batch, Updates, Dirty, Spared;
    if k :| 0 <= k < |rows| && Changed(parse, rows[k])
            && (rows[k].binary.Some? ==> !BacksDone(db, rows[k].binary.value)) {
      AfterwardsIs(drv, parse, db, rows, k);
      assert Batch(drv, parse, db, rows).parts[rows[k].id] != db.parts[rows[k].id];
    } else {
      ProtectedBatchIsNoop(drv, parse, db, rows);
    }
  }

  // The replay changes nothing if and only if every part the first application
  // could not see has since come onto a binary that backs a done release. In
  // particular it changes nothing whenever the first application could see.
  lemma ReplayChangesNothingIff(drv: Driver, parse: Parser, db: Db, rows: seq<Row>, now: Db, again: seq<Row>)
    requires Fresh(db, rows) && Fresh(now, again)
    requires Between(parse, Batch(drv, parse, db, rows), now) && Relists(Batch(drv, parse, db, rows), rows, again)
    ensures Batch(drv, parse, now, again) == now <==>
      forall i :: i in Unseen(drv, parse, db, rows) && i in Ids(again) ==>
        i in now.parts && now.parts[i].binary.Some? && BacksDone(now, now.parts[i].binary.value)
    ensures Sees(drv, parse, db, rows) ==> Batch(drv, parse, now, again) == now
  {
    hide Batch, Unseen, Between, Relists, BacksDone, Sees;
    NoopIff(drv, parse, now, again);
    UnseenIff(drv, parse, db, rows);
    forall n | 0 <= n < |again|
      ensures var i := again[n].id;
        && i in now.parts && again[n].binary == now.parts[i].binary
        && (i in Unseen(drv, parse, db, rows) ==> Changed(parse, again[n]))
        && (Changed(parse, again[n]) && i !in Unseen(drv, parse, db, rows) ==>
              now.parts[i].binary.Some? && BacksDone(now, now.parts[i].binary.value))
    {
      FoundAgain(drv, parse, db, rows, now, again, n);
    }
  }

  // A part the first application could not see has been folded back since.
  ghost predicate FoldedBack(drv: Driver, parse: Parser, db: Db, rows: seq<Row>, now: Db, again: seq<Row>)
  {
    exists i :: i in Unseen(drv, parse, db, rows) && i in Ids(again) && i in now.parts && now.parts[i].binary.Some?
  }

  // The replay finishes the work, every part it lists regrouped or spared, if
  // and only if no part the first application could not see has been folded
  // back, or one of those it finds wrong is protected.
  lemma ReplayFinishesIff(drv: Driver, parse: Parser, db: Db, rows: seq<Row>, now: Db, again: seq<Row>)
    requires Fresh(db, rows) && Fresh(now, again)
    requires Between(parse, Batch(drv, parse, db, rows), now) && Relists(Batch(drv, parse, db, rows), rows, again)
    ensures (forall n :: 0 <= n < |again| ==>
               || Good(parse, Batch(drv, parse, now, again).parts[again[n].id])
               || again[n].id in Spared(parse, now, again)) <==>
            !FoldedBack(drv, parse, db, rows, now, again) || Protected(now, Dirty(parse, again)) != {}
  {
    hide Batch, Between, Relists, BacksDone, Dirty, Protected, Unseen, Spared;
    BatchSweepsIff(drv, parse, now, again);
    SeesAgain(drv, parse, db, rows, now, again);
  }

  lemma IsProtected(parse: Parser, db: Db, rows: seq<Row>, k: nat)
    requires k < |rows| && Changed(parse, rows[k]) && rows[k].binary.Some? && BacksDone(db, rows[k].binary.value)
    ensures rows[k].binary.value in Protected(db, Dirty(parse, rows))
  {
    DirtyMeans(parse, rows);
  }

  lemma SeesAgain(drv: Driver, parse: Parser, db: Db, rows: seq<Row>, now: Db, again: seq<Row>)
    requires Fresh(db, rows) && Fresh(now, again)
    requires Between(parse, Batch(drv, parse, db, rows), now) && Relists(Batch(drv, parse, db, rows), rows, again)
    ensures Sees(drv, parse, now, again) <==>
            !FoldedBack(drv, parse, db, rows, now, again) || Protected(now, Dirty(parse, again)) != {}
  {
    hide Batch, Between, Relists, BacksDone, Dirty, Protected;
    NullIfUnseen(drv, parse, db, rows);
    forall n | 0 <= n < |again|
      ensures again[n].id in Ids(again)
      ensures again[n].id in now.parts && again[n].binary == now.parts[again[n].id].binary
      ensures again[n].id in Unseen(drv, parse, db, rows) ==> Changed(parse, again[n])
      ensures Changed(parse, again[n]) ==>
        again[n].id in Unseen(drv, parse, db, rows) || Protected(now, Dirty(parse, again)) != {}
    {
      FoundAgain(drv, parse, db, rows, now, again, n);
      if Changed(parse, again[n]) && again[n].id !in Unseen(drv, parse, db, rows) {
        IsProtected(parse, now, again, n);
      }
    }
    hide Unseen;
    if FoldedBack(drv, parse, db, rows, now, again) {
      var i :| i in Unseen(drv, parse, db, rows) && i in Ids(again) && i in now.parts && now.parts[i].binary.Some?;
      var n :| 0 <= n < |again| && again[n].id == i;
      assert Changed(parse, again[n]) && again[n].binary.Some?;
    }
  }

  lemma NullIfUnseen(drv: Driver, parse: Parser, db: Db, rows: seq<Row>)
    ensures Unseen(drv, parse, db, rows) != {} ==> drv.SendsNull?
  {
  }

  lemma NobodyBetween(parse: Parser, d: Db)
    ensures Between(parse, d, d)
  {
  }

  lemma BetweenOn(parse: Parser, d: Db, e: Db, now: Db)
    requires Between(parse, d, e) && Between(parse, e, now)
    requires forall i :: i in now.parts && i in d.parts ==> i in e.parts
    ensures Between(parse, d, now)
  {
    hide BacksDone;
  }

  // What the assembler does in between, step by step: it inserts parts grouped
  // by the parser, never reusing an id, folds, settles and releases, and ages
  // out binaries that back nothing done.
  ghost predicate Harmless(parse: Parser, d: Db, e: Assembly.Event, born: set<PartId>)
  {
    && Assembly.Enabled(d, e)
    && (e.Insert? ==> forall i :: i in e.added ==> i !in born && Good(parse, e.added[i]))
    && (e.AgeOut? ==> forall b :: b in e.ids ==> !BacksDone(d, b))
  }

  ghost predicate HarmlessRun(parse: Parser, d: Db, es: seq<Assembly.Event>, born: set<PartId>)
    decreases |es|
  {
    |es| > 0 ==>
      && Harmless(parse, d, es[0], born)
      && HarmlessRun(parse, Assembly.Step(d, es[0]), es[1..], born + Assembly.Step(d, es[0]).parts.Keys)
  }

  lemma StepIsBetween(parse: Parser, d: Db, e: Assembly.Event, born: set<PartId>)
    requires Harmless(parse, d, e, born)
    ensures Between(parse, d, Assembly.Step(d, e))
    ensures forall i :: i in Assembly.Step(d, e).parts && i in born ==> i in d.parts
    ensures !e.AgeOut? ==> d.parts.Keys <= Assembly.Step(d, e).parts.Keys
  {
    var n := Assembly.Step(d, e);
    hide Assembly.IsAgg;
    forall b: BinId | BacksDone(d, b) ensures BacksDone(n, b) {
      var r :| r in d.releases && d.releases[r].binary == Some(b) && d.releases[r].status.Done?;
      assert r in n.releases && n.releases[r] == d.releases[r];
    }
  }

  // Any run of the assembler is something that may happen in between.
  lemma {:induction false} AssemblerIsBetween(parse: Parser, d: Db, es: seq<Assembly.Event>, born: set<PartId>)
    requires HarmlessRun(parse, d, es, born) && d.parts.Keys <= born
    ensures Between(parse, d, Assembly.Final(d, es))
    ensures forall i :: i in Assembly.Final(d, es).parts && i in born ==> i in d.parts
    ensures (forall n :: 0 <= n < |es| ==> !es[n].AgeOut?) ==> d.parts.Keys <= Assembly.Final(d, es).parts.Keys
    decreases |es|
  {
    if |es| == 0 {
      NobodyBetween(parse, d);
    } else {
      hide Between, Harmless, Assembly.Step;
      var n := Assembly.Step(d, es[0]);
      StepIsBetween(parse, d, es[0], born);
      AssemblerIsBetween(parse, n, es[1..], born + n.parts.Keys);
      BetweenOn(parse, d, n, Assembly.Final(d, es));
    }
  }

  // The replay after any run of the assembler that deletes no part: the lost
  // cursor write costs nothing if the first application could see, and
  // otherwise the replay finishes exactly as ReplayFinishesIff says.
  lemma ReplayAfterAssembler(drv: Driver, parse: Parser, db: Db, after: nat, limit: nat, rows: seq<Row>,
                             es: seq<Assembly.Event>, again: seq<Row>)
    requires IsListing(db.parts, after, limit, rows)
    requires HarmlessRun(parse, Batch(drv, parse, db, rows), es, db.parts.Keys)
    requires forall n :: 0 <= n < |es| ==> !es[n].AgeOut?
    requires IsListing(Assembly.Final(Batch(drv, parse, db, rows), es).parts, after, limit, again)
    ensures var now := Assembly.Final(Batch(drv, parse, db, rows), es);
      && Fresh(now, again)
      && (Sees(drv, parse, db, rows) ==> Batch(drv, parse, now, again) == now)
      && ((forall n :: 0 <= n < |again| ==>
             || Good(parse, Batch(drv, parse, now, again).parts[again[n].id])
             || again[n].id in Spared(parse, now, again)) <==>
          !FoldedBack(drv, parse, db, rows, now, again) || Protected(now, Dirty(parse, again)) != {})
  {
    var d := Batch(drv, parse, db, rows);
    var now := Assembly.Final(d, es);
    BatchKeepsParts(drv, parse, db, rows);
    AssemblerIsBetween(parse, d, es, db.parts.Keys);
    ListingRelists(drv, parse, db, now, after, limit, rows, again);
    hide *;
    ReplayChangesNothingIff(drv, parse, db, rows, now, again);
    ReplayFinishesIff(drv, parse, db, rows, now, again);
  }

  // It does happen. The first application misses part i and detaches it, the
  // process crashes before saving, the assembler folds i back under its old
  // key, and the next pass misses it again and saves the cursor past it.
  lemma RefoldSkipsPart(parse: Parser, db: Db, i: PartId, coll: bool, k: Key, b: BinId, a: Assembly.Agg)
    returns (es: seq<Event>)
    requires i in db.parts && !Good(parse, db.parts[i]) && (forall j :: j in db.parts ==> 0 < i <= j)
    requires db.parts[i].binary.Some? && !BacksDone(db, db.parts[i].binary.value)
    requires var d := Batch(SendsNull, parse, db, [RowOf(db.parts, i)]);
      Assembly.CanFold(d, coll, k, {i}, b, a) && !BacksDone(d, b)
    ensures var s := Sys(db, db.parts.Keys, 0, Off, {});
      && IsRun(SendsNull, parse, s, es) && |es| >= 5 && es[3] == Crash && es[4].Other?
      && var f := Final(SendsNull, parse, s, es);
         i in f.db.parts && i <= f.saved && !Good(parse, f.db.parts[i]) && i !in f.exempt
  {
    hide Batch, IsListing, IsRun, Final, Spared, BacksDone, Good, Sees, Assembly.Fold, Assembly.CanFold, Enabled, RowOf;
    var rows := [RowOf(db.parts, i)];
    var d := Batch(SendsNull, parse, db, rows);
    var now := Assembly.Fold(d, coll, k, {i}, b, a);
    FirstPart(db.parts, i);
    NullListTearsDownOnly(parse, db, i);
    NobodySpared(parse, db, i);
    BatchKeepsParts(SendsNull, parse, db, rows);
    FoldedAgain(parse, d, now, i, coll, k, b, a);
    SameGood(parse, db.parts[i], now.parts[i]);
    MayFold(parse, Sys(d, db.parts.Keys, 0, Off, {}), now, coll, k, i, b, a);
    var rest := NullListSkipsPart(parse, now, i);
    es := CrashedPass(parse, db, rows, now, rest);
  }

  lemma SameGood(parse: Parser, p: Part, q: Part)
    requires q.subject == p.subject && q.grouping == p.grouping
    ensures Good(parse, q) == Good(parse, p)
  {
  }

  // A pass that crashes between applying its first batch and saving the
  // cursor, another writer's step, and whatever comes then.
  lemma CrashedPass(parse: Parser, db: Db, rows: seq<Row>, now: Db, rest: seq<Event>) returns (es: seq<Event>)
    requires IsListing(db.parts, 0, 1, rows) && rows != [] && Spared(parse, db, rows) == {}
    requires Enabled(parse, Sys(Batch(SendsNull, parse, db, rows), db.parts.Keys, 0, Off, {}), Other(now))
    requires now.parts.Keys == db.parts.Keys && IsRun(SendsNull, parse, Sys(now, now.parts.Keys, 0, Off, {}), rest)
    ensures es == [Begin, List(1, rows), Apply, Crash, Other(now)] + rest
    ensures var s := Sys(db, db.parts.Keys, 0, Off, {});
      && IsRun(SendsNull, parse, s, es)
      && Final(SendsNull, parse, s, es) == Final(SendsNull, parse, Sys(now, now.parts.Keys, 0, Off, {}), rest)
  {
    hide Batch, IsListing, Missed, Spared, OtherMay, IsRun, Final;
    var s := Sys(db, db.parts.Keys, 0, Off, {});
    var s1, s2 := s.(worker := Ready(0)), s.(worker := Listed(0, rows));
    var s3 := Step(SendsNull, parse, s2, Apply);
    var s4 := s3.(worker := Off);
    assert s4 == Sys(Batch(SendsNull, parse, db, rows), db.parts.Keys, 0, Off, {});
    es := Cons(parse, s4, Other(now), Sys(now, now.parts.Keys, 0, Off, {}), rest);
    es := Cons(parse, s3, Crash, s4, es);
    es := Cons(parse, s2, Apply, s3, es);
    es := Cons(parse, s1, List(1, rows), s2, es);
    es := Cons(parse, s, Begin, s1, es);
  }

  lemma Cons(parse: Parser, s: Sys, e: Event, n: Sys, rest: seq<Event>) returns (es: seq<Event>)
    requires Enabled(parse, s, e) && Step(SendsNull, parse, s, e) == n && IsRun(SendsNull, parse, n, rest)
    ensures es == [e] + rest && IsRun(SendsNull, parse, s, es)
    ensures Final(SendsNull, parse, s, es) == Final(SendsNull, parse, n, rest)
  {
    hide Enabled, Step;
    es := [e] + rest;
    assert es[1..] == rest;
  }

  lemma NobodySpared(parse: Parser, db: Db, i: PartId)
    requires i in db.parts && db.parts[i].binary.Some? && !BacksDone(db, db.parts[i].binary.value)
    ensures Spared(parse, db, [RowOf(db.parts, i)]) == {}
  {
    var rows := [RowOf(db.parts, i)];
    DirtyMeans(parse, rows);
    assert forall c :: c in Dirty(parse, rows) ==> c == db.parts[i].binary.value;
    assert Protected(db, Dirty(parse, rows)) == {};
  }

  lemma FoldedAgain(parse: Parser, d: Db, now: Db, i: PartId, coll: bool, k: Key, b: BinId, a: Assembly.Agg)
    requires Assembly.CanFold(d, coll, k, {i}, b, a) && now == Assembly.Fold(d, coll, k, {i}, b, a) && !BacksDone(d, b)
    ensures i in d.parts && now.parts.Keys == d.parts.Keys && now.parts[i] == d.parts[i].(binary := Some(b))
    ensures !BacksDone(now, b)
  {
    hide Assembly.IsAgg;
    assert i in {i};
    assert now.releases == d.releases;
  }

  lemma MayFold(parse: Parser, s: Sys, now: Db, coll: bool, k: Key, i: PartId, b: BinId, a: Assembly.Agg)
    requires Assembly.CanFold(s.db, coll, k, {i}, b, a) && now == Assembly.Fold(s.db, coll, k, {i}, b, a)
    ensures Enabled(parse, s, Other(now))
  {
    hide Assembly.IsAgg;
    AssemblerMay(parse, s, Assembly.FoldSome(coll, k, {i}, b, a));
  }
}
