// What the collected count and the complete flag of a collection really say:
// the count adds up distinct files batch by batch.
module Collections {
  import opened Common
  import opened Tables
  import opened Assembly

  // What the collected count has beyond the single rows and distinct files.
  ghost function Excess(m: Parts, s: set<PartId>, r: Binary): (n: int)
    requires s <= m.Keys
  {
    r.collectedParts - |Singles(m, s)| - |Files(m, s)|
  }

  lemma OverlapSize(a: set<int>, b: set<int>)
    ensures |a + b| == |a| + |b| - |a * b|
  {
    assert a + b == a + (b - a) && b == (b - a) + a * b;
    assert |b| == |b - a| + |a * b|;
  }

  // One fold: the excess grows by the files that were already there.
  lemma FoldAddsOverlap(m: Parts, s: set<PartId>, t: set<PartId>, r: Binary, a: Agg, coll: bool)
    requires s <= m.Keys && IsAgg(m, t, a) && s !! t && forall i :: i in t ==> IsCollection(m[i]) == coll
    ensures Excess(m, s + t, Updated(r, a, coll)) == Excess(m, s, r) + |Files(m, s) * Files(m, t)|
  {
    hide Singles, Files;
    KindCounts(m, t, a, coll);
    SetsMerge(m, s, t);
    OverlapSize(Files(m, s), Files(m, t));
  }

  lemma FirstFoldIsExact(m: Parts, t: set<PartId>, k: Key, a: Agg, coll: bool)
    requires IsAgg(m, t, a) && forall i :: i in t ==> IsCollection(m[i]) == coll
    ensures Excess(m, t, Inserted(k, a, coll)) == 0
  {
    KindCounts(m, t, a, coll);
  }

  lemma ExcessFrame(m: Parts, n: Parts, s: set<PartId>, r: Binary)
    requires SameFacts(m, n, s)
    ensures Excess(m, s, r) == Excess(n, s, r) && Files(m, s) == Files(n, s)
  {
    assert Singles(m, s) == Singles(n, s);
    assert Files(m, s) == Files(n, s);
  }

  ghost function ExcessOf(db: Db, b: BinId): (n: int)
    requires b in db.binaries
  {
    Excess(db.parts, Linked(db.parts, b), db.binaries[b])
  }

  predicate FoldsInto(e: Event, b: BinId)
  {
    e.FoldSome? && e.id == b
  }

  // The files of the folded rows that the binary already has.
  function Repeated(db: Db, e: Event): (s: set<int>)
    requires e.FoldSome? && e.rows <= db.parts.Keys
  {
    Files(db.parts, Linked(db.parts, e.id)) * Files(db.parts, e.rows)
  }

  lemma FoldFacts(db: Db, e: Event)
    requires Sound(db) && Enabled(db, e) && e.FoldSome?
    ensures IsAgg(db.parts, e.rows, e.a) && forall i :: i in e.rows ==> i in db.parts && db.parts[i].binary.None?
    ensures forall i :: i in e.rows ==> IsCollection(db.parts[i]) == e.coll && FoldKey(db.parts[i]) == Some(e.k)
    ensures e.id !in db.binaries ==> Linked(db.parts, e.id) == {}
    ensures var d := Step(db, e);
      && d.parts == Link(db.parts, e.rows, e.id) && e.id in d.binaries
      && d.binaries[e.id] ==
           if e.id in db.binaries then Updated(db.binaries[e.id], e.a, e.coll) else Inserted(e.k, e.a, e.coll)
  {
    hide Totals, IsAgg;
  }

  lemma FoldExcess(db: Db, e: Event)
    requires Sound(db) && Enabled(db, e) && e.FoldSome?
    ensures e.rows <= db.parts.Keys
    ensures var d := Step(db, e);
      && e.id in d.binaries
      && ExcessOf(d, e.id) == if e.id in db.binaries then ExcessOf(db, e.id) + |Repeated(db, e)| else 0
  {
    hide Files, Singles, Sound, Enabled, Step, Link, IsAgg, Excess, Linked, Updated, Inserted;
    FoldFacts(db, e);
    var m, before := db.parts, Linked(db.parts, e.id);
    LinkedAreParts(m, e.id);
    LinkMoves(m, e.rows, e.id, e.id);
    var r := Step(db, e).binaries[e.id];
    FramesSubset(m, Link(m, e.rows, e.id), before + e.rows);
    ExcessFrame(m, Link(m, e.rows, e.id), before + e.rows, r);
    if e.id in db.binaries {
      FoldAddsOverlap(m, before, e.rows, db.binaries[e.id], e.a, e.coll);
    } else {
      assert before + e.rows == e.rows;
      FirstFoldIsExact(m, e.rows, e.k, e.a, e.coll);
    }
  }

  lemma LinkedAreParts(m: Parts, b: BinId)
    ensures Linked(m, b) <= m.Keys
  {
  }

  lemma FramesSubset(m: Parts, n: Parts, s: set<PartId>)
    requires SameFacts(m, n, m.Keys) && s <= m.Keys
    ensures SameFacts(m, n, s)
  {
  }

  // Every other step leaves a surviving binary's count and parts alone.
  lemma OtherExcess(db: Db, e: Event, b: BinId)
    requires Sound(db) && Enabled(db, e) && !FoldsInto(e, b) && b in Step(db, e).binaries
    ensures b in db.binaries && ExcessOf(Step(db, e), b) == ExcessOf(db, b)
  {
    hide Totals, SumBytes;
    var d := Step(db, e);
    assert Linked(d.parts, b) == Linked(db.parts, b) && SameFacts(db.parts, d.parts, Linked(db.parts, b)) by {
      if e.FoldSome? {
        LinkMoves(db.parts, e.rows, e.id, b);
      }
    }
    ExcessFrame(db.parts, d.parts, Linked(db.parts, b), db.binaries[b]);
  }

  // No fold of the run into b, since b was last created, brings a file b
  // already has; `clean` says so of what happened before.
  ghost predicate NoRepeats(db: Db, es: seq<Event>, b: BinId, clean: bool)
    requires IsRun(db, es)
    decreases |es|
  {
    if |es| == 0 then clean
    else
      var e := es[0];
      NoRepeats(Step(db, e), es[1..], b,
                if FoldsInto(e, b) && e.rows <= db.parts.Keys then b !in db.binaries || (clean && Repeated(db, e) == {})
                else clean)
  }

  // The collected count is exact if and only if no fold repeated a file.
  lemma {:induction false} CollectedExactIff(db: Db, es: seq<Event>, b: BinId, clean: bool)
    requires Sound(db) && IsRun(db, es)
    requires b in db.binaries ==> ExcessOf(db, b) >= 0 && (ExcessOf(db, b) == 0 <==> clean)
    ensures b in Final(db, es).binaries ==>
      && ExcessOf(Final(db, es), b) >= 0
      && (ExcessOf(Final(db, es), b) == 0 <==> NoRepeats(db, es, b, clean))
    decreases |es|
  {
    if |es| > 0 {
      hide Sound, Step, Enabled, ExcessOf, Repeated;
      var e, d := es[0], Step(db, es[0]);
      StepKeepsSound(db, e);
      if FoldsInto(e, b) {
        FoldExcess(db, e);
        CollectedExactIff(d, es[1..], b, b !in db.binaries || (clean && Repeated(db, e) == {}));
      } else {
        if b in d.binaries {
          OtherExcess(db, e, b);
        }
        CollectedExactIff(d, es[1..], b, clean);
      }
    }
  }

  // A collection with a declared file count is complete exactly when its
  // distinct files and its excess together reach that count.
  lemma CollectionRow(m: Parts, s: set<PartId>, r: Binary)
    requires Totals(m, s, r) && Singles(m, s) == {}
    ensures |Files(m, s)| <= r.collectedParts <= |s|
    ensures r.totalParts > 0 ==> (r.complete <==> |Files(m, s)| + Excess(m, s, r) >= r.totalParts)
    ensures r.totalParts > 0 && |Files(m, s)| >= r.totalParts ==> r.complete
  {
  }

  predicate Unsettled(es: seq<Event>, b: BinId)
  {
    forall i :: 0 <= i < |es| && es[i].Settle? ==> b !in es[i].ids
  }

  ghost predicate TotalIfComplete(db: Db, b: BinId)
  {
    b in db.binaries && db.binaries[b].complete ==> db.binaries[b].totalParts > 0
  }

  lemma StepNeedsTotal(db: Db, e: Event, b: BinId)
    requires Sound(db) && Enabled(db, e) && TotalIfComplete(db, b) && (e.Settle? ==> b !in e.ids)
    ensures TotalIfComplete(Step(db, e), b)
  {
    hide Sound, IsAgg;
    if FoldsInto(e, b) {
      FoldFacts(db, e);
      FoldNeedsTotal(db.parts, e);
    }
  }

  lemma FoldNeedsTotal(m: Parts, e: Event)
    requires e.FoldSome? && IsAgg(m, e.rows, e.a)
    requires forall i :: i in e.rows ==> i in m && IsCollection(m[i]) == e.coll && FoldKey(m[i]) == Some(e.k)
    ensures !e.coll ==> e.a.declared > 0
  {
    SinglesDeclare(m, e.rows, e.a, e.coll);
  }

  // Only settling completes a binary that declares no total.
  lemma {:induction false} CompleteNeedsTotal(db: Db, es: seq<Event>, b: BinId)
    requires Sound(db) && IsRun(db, es) && Unsettled(es, b) && TotalIfComplete(db, b)
    ensures TotalIfComplete(Final(db, es), b)
    decreases |es|
  {
    if |es| > 0 {
      hide Sound, Step, Enabled, TotalIfComplete;
      StepNeedsTotal(db, es[0], b);
      StepKeepsSound(db, es[0]);
      CompleteNeedsTotal(Step(db, es[0]), es[1..], b);
    }
  }

  // In a run from an empty binaries table, a collection that never folded a
  // file twice is complete exactly when all declared files are linked, unless
  // it declares none and was settled.
  lemma CompleteMeansAllFiles(db: Db, es: seq<Event>, b: BinId)
    requires Sound(db) && IsRun(db, es) && db.binaries == map[] && b in Final(db, es).binaries
    requires var d := Final(db, es); Singles(d.parts, Linked(d.parts, b)) == {}
    requires NoRepeats(db, es, b, true)
    ensures var d := Final(db, es); var total := d.binaries[b].totalParts;
      && (total > 0 ==> (d.binaries[b].complete <==> |Files(d.parts, Linked(d.parts, b))| >= total))
      && (Unsettled(es, b) ==> (d.binaries[b].complete <==> |Files(d.parts, Linked(d.parts, b))| >= total && total > 0))
  {
    var d := Final(db, es);
    CollectedExactIff(db, es, b, true);
    RunKeepsSound(db, es);
    assert Totals(d.parts, Linked(d.parts, b), d.binaries[b]);
    CollectionRow(d.parts, Linked(d.parts, b), d.binaries[b]);
    if Unsettled(es, b) {
      CompleteNeedsTotal(db, es, b);
    }
  }

  function AggOf(p: Part): (a: Agg)
    requires IsCollection(p)
  {
    Agg(1, {p.grouping.fileNumber}, Declared(p), p.bytes, p.postedAt)
  }

  lemma OneRowAgg(m: Parts, i: PartId)
    requires i in m && IsCollection(m[i])
    ensures IsAgg(m, {i}, AggOf(m[i])) && Files(m, {i}) == {m[i].grouping.fileNumber}
  {
    SumPick(m, {i}, i);
    assert {i} - {i} == {};
    assert Files(m, {i}) == {m[i].grouping.fileNumber};
  }

  // Otherwise it can be complete with files missing: one segment of a file of
  // two is folded, another segment of the same file arrives and is folded, and
  // the two count as both files. Each fold takes every row its key has.
  lemma CompleteWithFileMissing(m: Parts, i: PartId, j: PartId, p: Part, k: Key) returns (es: seq<Event>)
    requires RowsOf(m, true, k) == {i} && forall n :: n in m ==> m[n].binary.None?
    requires j !in m && IsCollection(p) && p.binary.None? && FoldKey(p) == Some(k)
    requires i in m && p.grouping.fileNumber == m[i].grouping.fileNumber
    requires m[i].grouping.collectionFiles == 2 == p.grouping.collectionFiles
    ensures |es| == 3 && IsRun(Db(m, map[], map[]), es)
    ensures var d := Final(Db(m, map[], map[]), es[..2]);
      && FoldsInto(es[0], 0) && es[0].rows == RowsOf(m, true, k)
      && FoldsInto(es[2], 0) && es[2].rows == RowsOf(d.parts, true, k)
    ensures var d := Final(Db(m, map[], map[]), es);
      && 0 in d.binaries && d.binaries[0].complete && d.binaries[0].totalParts == 2
      && |Files(d.parts, Linked(d.parts, 0))| == 1
  {
    IsRow(m, i, k);
    var e, f, g := FoldSome(true, k, {i}, 0, AggOf(m[i])), Insert(map[j := p]), FoldSome(true, k, {j}, 0, AggOf(p));
    es := [e, f, g];
    var d := Db(m, map[], map[]);
    CanFoldOne(d, i, k);
    var d1 := Step(d, e);
    var d2 := Step(d1, f);
    assert d2.parts[j] == p && d2.binaries == d1.binaries;
    CanFoldOne(d2, j, k);
    hide Linked, Files, Completes;
    ThreeSteps(d, e, f, g);
    OnlyNewRow(m, i, j, p, k);
    BothLinked(m, i, j, p);
    FoldedTwice(k, m[i], p);
  }

  lemma IsRow(m: Parts, i: PartId, k: Key)
    requires RowsOf(m, true, k) == {i}
    ensures i in m && IsCollection(m[i]) && m[i].binary.None? && FoldKey(m[i]) == Some(k)
  {
    assert i in RowsOf(m, true, k);
  }

  lemma FoldedTwice(k: Key, p: Part, q: Part)
    requires IsCollection(p) && IsCollection(q) && Declared(p) == 2 == Declared(q)
    ensures var r := Updated(Inserted(k, AggOf(p), true), AggOf(q), true); r.complete && r.totalParts == 2
  {
  }

  lemma CanFoldOne(db: Db, i: PartId, k: Key)
    requires i in db.parts && IsCollection(db.parts[i]) && db.parts[i].binary.None? && FoldKey(db.parts[i]) == Some(k)
    requires forall b :: b in db.binaries ==> b == 0 && db.binaries[b].key == k
    ensures Enabled(db, FoldSome(true, k, {i}, 0, AggOf(db.parts[i])))
  {
    OneRowAgg(db.parts, i);
    hide IsAgg;
  }

  lemma ThreeSteps(db: Db, e: Event, f: Event, g: Event)
    requires Enabled(db, e) && Enabled(Step(db, e), f) && Enabled(Step(Step(db, e), f), g)
    ensures IsRun(db, [e, f, g]) && Final(db, [e, f, g]) == Step(Step(Step(db, e), f), g)
    ensures [e, f, g][..2] == [e, f] && Final(db, [e, f]) == Step(Step(db, e), f)
  {
    hide Enabled, Step;
    var d1, d2 := Step(db, e), Step(Step(db, e), f);
    assert [e, f, g][1..] == [f, g] && [f, g][1..] == [g] && [g][1..] == [] && [e, f][1..] == [f] && [f][1..] == [];
    assert IsRun(d2, [g]) && Final(d2, [g]) == Step(d2, g);
    assert IsRun(d1, [f, g]) && Final(d1, [f, g]) == Step(d2, g) && Final(d1, [f]) == d2;
  }

  lemma OnlyNewRow(m: Parts, i: PartId, j: PartId, p: Part, k: Key)
    requires RowsOf(m, true, k) == {i} && j !in m && IsCollection(p) && p.binary.None? && FoldKey(p) == Some(k)
    ensures RowsOf(Link(m, {i}, 0) + map[j := p], true, k) == {j}
  {
    var n := Link(m, {i}, 0) + map[j := p];
    assert n[j] == p && forall x :: x in m && x != i ==> n[x] == m[x];
    assert forall x :: x in RowsOf(n, true, k) && x != j ==> x in RowsOf(m, true, k) - {i};
    assert j in RowsOf(n, true, k);
  }

  lemma BothLinked(m: Parts, i: PartId, j: PartId, p: Part)
    requires i in m && j !in m && IsCollection(m[i]) && IsCollection(p)
    requires forall n :: n in m ==> m[n].binary.None?
    requires m[i].grouping.fileNumber == p.grouping.fileNumber && p.binary.None?
    ensures var n := Link(Link(m, {i}, 0) + map[j := p], {j}, 0); Files(n, Linked(n, 0)) == {p.grouping.fileNumber}
  {
    var n := Link(Link(m, {i}, 0) + map[j := p], {j}, 0);
    assert Linked(n, 0) == {i, j};
    assert n[i].grouping == m[i].grouping && n[j].grouping == p.grouping;
  }
}
