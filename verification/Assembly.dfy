// Folding parts into binaries in bounded batches, and the drain loop over it.
module Assembly {
  import opened Common
  import opened Tables

  const ROWS_PER_KEY := 500
  const DEFAULT_LIMIT := 500
  const MAX_DEADLOCK_RETRIES := 3

  // What the agg step of a batch computes for one key.
  datatype Agg = Agg(rows: int, files: set<int>, declared: int, bytes: int, earliest: Option<int>)

  ghost predicate IsAgg(m: Parts, s: set<PartId>, a: Agg)
  {
    && s <= m.Keys && s != {}
    && a.rows == |s| && a.files == Files(m, s) && a.bytes == SumBytes(m, s)
    && IsMaxDeclared(m, s, a.declared) && IsMinDate(m, s, a.earliest)
  }

  // LEAST ignores NULL.
  function Earlier(a: Option<int>, b: Option<int>): (r: Option<int>)
  {
    if a.None? then b else if b.None? then a else Some(Min(a.value, b.value))
  }

  // A batch counts rows for single files and distinct files for collections.
  function Collected(a: Agg, coll: bool): int
  {
    if coll then |a.files| else a.rows
  }

  function Completes(coll: bool, total: int, collected: int): (r: bool)
  {
    if coll then collected >= total && total > 0 else total == 0 || collected >= total
  }

  // The row INSERT writes for a new key.
  function Inserted(k: Key, a: Agg, coll: bool): (r: Binary)
  {
    var c := Collected(a, coll);
    Binary(k, a.declared, c, a.bytes, a.earliest,
           if coll then k.subject else "", if coll then a.declared else 0,
           Completes(coll, a.declared, c), false)
  }

  // The row ON CONFLICT DO UPDATE leaves for a key that already has one.
  function Updated(b: Binary, a: Agg, coll: bool): (r: Binary)
  {
    var c := b.collectedParts + Collected(a, coll);
    var t := Max(b.totalParts, a.declared);
    b.(collectedParts := c, totalParts := t, totalBytes := b.totalBytes + a.bytes,
       postedAt := Earlier(b.postedAt, a.earliest),
       collectionFiles := if coll then Max(b.collectionFiles, a.declared) else b.collectionFiles,
       complete := Completes(coll, t, c))
  }

  // Unassigned rows of one kind a key can still fold.
  function Unassigned(m: Parts, coll: bool): (r: set<PartId>)
  {
    set i | i in m && m[i].binary.None? && IsCollection(m[i]) == coll && FoldKey(m[i]).Some?
  }

  function RowsOf(m: Parts, coll: bool, k: Key): (r: set<PartId>)
  {
    set i | i in Unassigned(m, coll) && FoldKey(m[i]) == Some(k)
  }

  function KeysOf(m: Parts, coll: bool): (r: set<Key>)
  {
    set i | i in Unassigned(m, coll) :: FoldKey(m[i]).value
  }

  function Link(m: Parts, rows: set<PartId>, id: BinId): (r: Parts)
  {
    map i | i in m :: if i in rows then m[i].(binary := Some(id)) else m[i]
  }

  function Fold(db: Db, coll: bool, k: Key, rows: set<PartId>, id: BinId, a: Agg): (r: Db)
  {
    db.(parts := Link(db.parts, rows, id),
        binaries := db.binaries[id := if id in db.binaries then Updated(db.binaries[id], a, coll)
                                      else Inserted(k, a, coll)])
  }

  predicate AreRowsOf(m: Parts, coll: bool, k: Key, rows: set<PartId>)
  {
    forall i :: i in rows ==>
      i in m && m[i].binary.None? && IsCollection(m[i]) == coll && FoldKey(m[i]) == Some(k)
  }

  // A legal fold of one key: any rows of the key, an id that is the key's own
  // or a new one when it has none, and the true aggregate of the rows.
  ghost predicate CanFold(db: Db, coll: bool, k: Key, rows: set<PartId>, id: BinId, a: Agg)
  {
    && AreRowsOf(db.parts, coll, k, rows) && IsAgg(db.parts, rows, a)
    && forall b :: b in db.binaries ==> (db.binaries[b].key == k <==> b == id)
  }

  // ---- exactness ----

  // Bytes, declared total and date of the row are exactly those of the parts in s.
  ghost predicate Measures(m: Parts, s: set<PartId>, r: Binary)
    requires s <= m.Keys
  {
    r.totalBytes == SumBytes(m, s) && IsMaxDeclared(m, s, r.totalParts) && IsMinDate(m, s, r.postedAt)
  }

  // The collected count is exact for single files and lies between distinct
  // files and rows for collection parts.
  ghost predicate Counts(m: Parts, s: set<PartId>, r: Binary)
    requires s <= m.Keys
  {
    |Singles(m, s)| + |Files(m, s)| <= r.collectedParts <= |s|
  }

  ghost predicate KindMarks(m: Parts, s: set<PartId>, r: Binary)
    requires s <= m.Keys
  {
    && (Singles(m, s) == {} ==> r.collectionFiles == r.totalParts)
    && (Singles(m, s) == s ==> r.collectionKey == "")
    && (Singles(m, s) != {} ==> r.totalParts > 0)
  }

  // Complete when the declared total is known and reached, or else only by
  // settling a collection that declares no file count.
  predicate CompleteMark(r: Binary)
  {
    && (r.totalParts > 0 && r.collectedParts >= r.totalParts ==> r.complete)
    && (r.complete ==>
          (r.totalParts > 0 && r.collectedParts >= r.totalParts) || (r.collectionKey != "" && r.collectionFiles == 0))
  }

  ghost predicate Totals(m: Parts, s: set<PartId>, r: Binary)
  {
    s <= m.Keys && s != {} && Measures(m, s, r) && Counts(m, s, r) && KindMarks(m, s, r) && CompleteMark(r)
  }

  ghost predicate Sound(db: Db)
  {
    KeysAgree(db) && forall b :: b in db.binaries ==> Totals(db.parts, Linked(db.parts, b), db.binaries[b])
  }

  // Two part tables agree on everything the aggregates read.
  ghost predicate SameFacts(m: Parts, n: Parts, s: set<PartId>)
  {
    && s <= m.Keys && s <= n.Keys
    && forall i :: i in s ==> n[i] == m[i].(binary := n[i].binary)
  }

  lemma TotalsFrame(m: Parts, n: Parts, s: set<PartId>, r: Binary)
    requires SameFacts(m, n, s) && Totals(m, s, r)
    ensures Totals(n, s, r)
  {
    SumFrame(m, n, s);
    assert Files(n, s) == Files(m, s) && Singles(n, s) == Singles(m, s);
    assert forall i :: i in s ==> Declared(n[i]) == Declared(m[i]) && n[i].postedAt == m[i].postedAt;
  }

  lemma KindCounts(m: Parts, t: set<PartId>, a: Agg, coll: bool)
    requires IsAgg(m, t, a) && forall i :: i in t ==> IsCollection(m[i]) == coll
    ensures Singles(m, t) == (if coll then {} else t)
    ensures !coll ==> Files(m, t) == {}
    ensures Collected(a, coll) == |Singles(m, t)| + |Files(m, t)| <= |t|
  {
    FilesAtMostRows(m, t);
  }

  lemma TotalsNew(m: Parts, t: set<PartId>, k: Key, a: Agg, coll: bool)
    requires IsAgg(m, t, a)
    requires forall i :: i in t ==> IsCollection(m[i]) == coll && FoldKey(m[i]) == Some(k)
    ensures Totals(m, t, Inserted(k, a, coll))
  {
    KindCounts(m, t, a, coll);
  }

  lemma TotalsMerge(m: Parts, s: set<PartId>, t: set<PartId>, r: Binary, a: Agg, coll: bool)
    requires Totals(m, s, r) && IsAgg(m, t, a) && s !! t
    requires forall i :: i in t ==> IsCollection(m[i]) == coll && FoldKey(m[i]).Some?
    ensures Totals(m, s + t, Updated(r, a, coll))
  {
    MeasuresMerge(m, s, t, r, a, coll);
    CountsMerge(m, s, t, r, a, coll);
  }

  lemma MeasuresMerge(m: Parts, s: set<PartId>, t: set<PartId>, r: Binary, a: Agg, coll: bool)
    requires s <= m.Keys && Measures(m, s, r) && IsAgg(m, t, a) && s !! t
    ensures Measures(m, s + t, Updated(r, a, coll))
  {
    SumUnion(m, s, t);
    MaxMerges(m, s, t, r.totalParts, a.declared);
    MinMerges(m, s, t, r.postedAt, a.earliest);
  }

  lemma SetsMerge(m: Parts, s: set<PartId>, t: set<PartId>)
    requires s + t <= m.Keys && s !! t
    ensures |s + t| == |s| + |t|
    ensures Singles(m, s + t) == Singles(m, s) + Singles(m, t)
    ensures |Singles(m, s + t)| == |Singles(m, s)| + |Singles(m, t)|
    ensures Files(m, s + t) == Files(m, s) + Files(m, t)
    ensures |Files(m, s + t)| <= |Files(m, s)| + |Files(m, t)|
  {
    assert Singles(m, s + t) == Singles(m, s) + Singles(m, t);
    assert Files(m, s + t) == Files(m, s) + Files(m, t);
  }

  lemma CountsMerge(m: Parts, s: set<PartId>, t: set<PartId>, r: Binary, a: Agg, coll: bool)
    requires Totals(m, s, r) && IsAgg(m, t, a) && s !! t
    requires forall i :: i in t ==> IsCollection(m[i]) == coll && FoldKey(m[i]).Some?
    ensures Counts(m, s + t, Updated(r, a, coll)) && CompleteMark(Updated(r, a, coll))
    ensures KindMarks(m, s + t, Updated(r, a, coll))
  {
    KindCounts(m, t, a, coll);
    SetsMerge(m, s, t);
    SinglesDeclare(m, t, a, coll);
    MarksMerge(r, a, coll, Singles(m, s), s, if coll then {} else t, t);
  }

  lemma SinglesDeclare(m: Parts, t: set<PartId>, a: Agg, coll: bool)
    requires IsAgg(m, t, a)
    requires forall i :: i in t ==> IsCollection(m[i]) == coll && FoldKey(m[i]).Some?
    ensures !coll ==> a.declared > 0
  {
    var i :| i in t;
    assert Declared(m[i]) <= a.declared;
  }

  // The marks only depend on which of the old and new rows are single files.
  lemma MarksMerge(r: Binary, a: Agg, coll: bool, ss: set<PartId>, s: set<PartId>, st: set<PartId>, t: set<PartId>)
    requires ss <= s && s != {} && t != {} && s !! t && st == (if coll then {} else t)
    requires !coll ==> a.declared > 0
    requires ss == {} ==> r.collectionFiles == r.totalParts
    requires ss == s ==> r.collectionKey == ""
    requires ss != {} ==> r.totalParts > 0
    ensures var u := Updated(r, a, coll);
      && (ss + st == {} ==> u.collectionFiles == u.totalParts)
      && (ss + st == s + t ==> u.collectionKey == "")
      && (ss + st != {} ==> u.totalParts > 0)
      && CompleteMark(u)
  {
    if ss + st == s + t {
      assert s == (s + t) - t <= ss;
    }
    if ss + st == {} {
      assert ss == {} && st == {};
    }
  }

  lemma MaxMerges(m: Parts, s: set<PartId>, t: set<PartId>, x: int, y: int)
    requires s + t <= m.Keys && IsMaxDeclared(m, s, x) && IsMaxDeclared(m, t, y)
    ensures IsMaxDeclared(m, s + t, Max(x, y))
  {
    var i :| i in s && Declared(m[i]) == x;
    var j :| j in t && Declared(m[j]) == y;
    assert i in s + t && j in s + t;
  }

  lemma MinMerges(m: Parts, s: set<PartId>, t: set<PartId>, x: Option<int>, y: Option<int>)
    requires s + t <= m.Keys && IsMinDate(m, s, x) && IsMinDate(m, t, y)
    ensures IsMinDate(m, s + t, Earlier(x, y))
  {
    assert forall i :: i in s || i in t ==> i in s + t;
  }

  lemma LinkMoves(m: Parts, rows: set<PartId>, id: BinId, b: BinId)
    requires rows <= m.Keys && forall i :: i in rows ==> m[i].binary.None?
    ensures Linked(Link(m, rows, id), b) == Linked(m, b) + (if b == id then rows else {})
    ensures Linked(m, b) !! rows
    ensures SameFacts(m, Link(m, rows, id), m.Keys)
  {
  }

  // The row of the folded key stays exact, and so does every other row.
  lemma FoldKeepsTotals(m: Parts, r: Option<Binary>, coll: bool, k: Key, rows: set<PartId>, id: BinId, a: Agg, b: BinId)
    requires AreRowsOf(m, coll, k, rows) && IsAgg(m, rows, a)
    requires r.Some? ==> Totals(m, Linked(m, b), r.value)
    requires r.None? ==> b == id && Linked(m, b) == {}
    ensures Totals(Link(m, rows, id), Linked(Link(m, rows, id), b),
                   if b != id then r.value else if r.Some? then Updated(r.value, a, coll) else Inserted(k, a, coll))
  {
    LinkMoves(m, rows, id, b);
    var before := Linked(m, b);
    if b != id {
      TotalsFrame(m, Link(m, rows, id), before, r.value);
    } else if r.Some? {
      TotalsMerge(m, before, rows, r.value, a, coll);
      TotalsFrame(m, Link(m, rows, id), before + rows, Updated(r.value, a, coll));
    } else {
      assert before + rows == rows;
      TotalsNew(m, rows, k, a, coll);
      TotalsFrame(m, Link(m, rows, id), rows, Inserted(k, a, coll));
    }
  }

  lemma FoldKeepsSound(db: Db, coll: bool, k: Key, rows: set<PartId>, id: BinId, a: Agg)
    requires Sound(db) && CanFold(db, coll, k, rows, id, a)
    ensures Sound(Fold(db, coll, k, rows, id, a))
  {
    hide Totals;
    var d := Fold(db, coll, k, rows, id, a);
    forall b | b in d.binaries ensures Totals(d.parts, Linked(d.parts, b), d.binaries[b]) {
      FoldKeepsTotals(db.parts, if b in db.binaries then Some(db.binaries[b]) else None, coll, k, rows, id, a, b);
    }
    FoldKeepsKeys(db, coll, k, rows, id, a);
  }

  ghost predicate KeysAgree(db: Db)
  {
    && KeysUnique(db.binaries)
    && (forall i :: i in db.parts && db.parts[i].binary.Some? ==>
          && db.parts[i].binary.value in db.binaries
          && FoldKey(db.parts[i]) == Some(db.binaries[db.parts[i].binary.value].key))
  }

  lemma FoldKeepsKeys(db: Db, coll: bool, k: Key, rows: set<PartId>, id: BinId, a: Agg)
    requires KeysAgree(db) && CanFold(db, coll, k, rows, id, a)
    ensures KeysAgree(Fold(db, coll, k, rows, id, a))
  {
    hide KeysAgree, IsAgg;
    var d := Fold(db, coll, k, rows, id, a);
    KeysFrame(db, d, k, id);
  }

  // One binary gained parts of its own key, or was added under a new key.
  lemma KeysFrame(db: Db, d: Db, k: Key, id: BinId)
    requires KeysAgree(db) && d.parts.Keys == db.parts.Keys && d.binaries.Keys == db.binaries.Keys + {id}
    requires forall b :: b in d.binaries ==> d.binaries[b].key == if b == id then k else db.binaries[b].key
    requires forall b :: b in db.binaries ==> (db.binaries[b].key == k <==> b == id)
    requires forall i :: i in d.parts ==>
      && FoldKey(d.parts[i]) == FoldKey(db.parts[i])
      && (d.parts[i].binary == db.parts[i].binary || (d.parts[i].binary == Some(id) && FoldKey(db.parts[i]) == Some(k)))
    ensures KeysAgree(d)
  {
    hide FoldKey;
  }

  // ---- runs ----

  datatype Event =
    | Insert(added: Parts)
    | FoldSome(coll: bool, k: Key, rows: set<PartId>, id: BinId, a: Agg)
    | Settle(ids: set<BinId>)
    | MarkReleased(ids: set<BinId>)
    | AgeOut(ids: set<BinId>)

  ghost predicate Enabled(db: Db, e: Event)
  {
    match e
    case Insert(rows) => rows.Keys !! db.parts.Keys && forall i :: i in rows ==> rows[i].binary.None?
    case FoldSome(coll, k, rows, id, a) => CanFold(db, coll, k, rows, id, a)
    case Settle(ids) =>
      forall b :: b in ids ==> b in db.binaries && !db.binaries[b].complete && !db.binaries[b].released
                               && db.binaries[b].collectionKey != "" && db.binaries[b].collectionFiles == 0
    case MarkReleased(ids) => ids <= db.binaries.Keys
    case AgeOut(ids) => forall b :: b in ids ==>
      b in db.binaries && !db.binaries[b].complete && !db.binaries[b].released
  }

  function Mark(bs: map<BinId, Binary>, ids: set<BinId>, e: Event): (r: map<BinId, Binary>)
  {
    map b | b in bs :: if b !in ids then bs[b]
                       else if e.Settle? then bs[b].(complete := true)
                       else bs[b].(released := true)
  }

  function Step(db: Db, e: Event): (r: Db)
  {
    match e
    case Insert(rows) => db.(parts := db.parts + rows)
    case FoldSome(coll, k, rows, id, a) => Fold(db, coll, k, rows, id, a)
    case Settle(ids) => db.(binaries := Mark(db.binaries, ids, e))
    case MarkReleased(ids) => db.(binaries := Mark(db.binaries, ids, e))
    case AgeOut(ids) =>
      db.(parts := map i | i in db.parts && (db.parts[i].binary.Some? ==> db.parts[i].binary.value !in ids) ::
            db.parts[i],
          binaries := db.binaries - ids,
          releases := map r | r in db.releases ::
            if db.releases[r].binary.Some? && db.releases[r].binary.value in ids then db.releases[r].(binary := None)
            else db.releases[r])
  }

  lemma TotalsRemarked(m: Parts, s: set<PartId>, r: Binary, u: Binary)
    requires Totals(m, s, r) && (CompleteMark(r) ==> CompleteMark(u))
    requires u == r.(complete := u.complete, released := u.released)
    ensures Totals(m, s, u)
  {
  }

  // A step that keeps the rows of the surviving binaries' parts keeps exactness.
  lemma RestKeepsSound(db: Db, d: Db)
    requires Sound(db) && d.binaries.Keys <= db.binaries.Keys
    requires forall b :: b in d.binaries ==>
      && Linked(d.parts, b) == Linked(db.parts, b) && SameFacts(db.parts, d.parts, Linked(db.parts, b))
      && d.binaries[b] == db.binaries[b].(complete := d.binaries[b].complete, released := d.binaries[b].released)
      && (CompleteMark(db.binaries[b]) ==> CompleteMark(d.binaries[b]))
    requires forall i :: i in d.parts && d.parts[i].binary.Some? ==> d.parts[i].binary.value in d.binaries
    ensures Sound(d)
  {
    hide Totals;
    forall b | b in d.binaries ensures Totals(d.parts, Linked(d.parts, b), d.binaries[b]) {
      TotalsFrame(db.parts, d.parts, Linked(db.parts, b), db.binaries[b]);
      TotalsRemarked(d.parts, Linked(d.parts, b), db.binaries[b], d.binaries[b]);
    }
    forall i | i in d.parts && d.parts[i].binary.Some?
      ensures FoldKey(d.parts[i]) == Some(d.binaries[d.parts[i].binary.value].key)
    {
      assert i in Linked(d.parts, d.parts[i].binary.value);
    }
  }

  lemma MarkKeepsSound(db: Db, e: Event)
    requires Sound(db) && Enabled(db, e) && (e.Settle? || e.MarkReleased?)
    ensures Sound(Step(db, e))
  {
    hide Totals;
    RestKeepsSound(db, Step(db, e));
  }

  lemma StepKeepsSound(db: Db, e: Event)
    requires Sound(db) && Enabled(db, e)
    ensures Sound(Step(db, e))
  {
    hide Totals;
    match e
    case FoldSome(coll, k, rows, id, a) => FoldKeepsSound(db, coll, k, rows, id, a);
    case Insert(rows) =>
      var d := Step(db, e);
      assert forall b :: b in d.binaries ==> Linked(d.parts, b) == Linked(db.parts, b);
      RestKeepsSound(db, d);
    case Settle(_) => MarkKeepsSound(db, e);
    case MarkReleased(_) => MarkKeepsSound(db, e);
    case AgeOut(ids) =>
      var d := Step(db, e);
      assert forall b :: b in d.binaries ==> Linked(d.parts, b) == Linked(db.parts, b);
      RestKeepsSound(db, d);
  }

  ghost predicate IsRun(db: Db, es: seq<Event>)
    decreases |es|
  {
    |es| == 0 || (Enabled(db, es[0]) && IsRun(Step(db, es[0]), es[1..]))
  }

  ghost function Final(db: Db, es: seq<Event>): (r: Db)
    decreases |es|
  {
    if |es| == 0 then db else Final(Step(db, es[0]), es[1..])
  }

  // Whatever inserts, capped folds in any order, settling, releasing and
  // aging-out happen, every binary's row stays exact.
  lemma {:induction false} RunKeepsSound(db: Db, es: seq<Event>)
    requires Sound(db) && IsRun(db, es)
    ensures Sound(Final(db, es))
    decreases |es|
  {
    if |es| > 0 {
      StepKeepsSound(db, es[0]);
      RunKeepsSound(Step(db, es[0]), es[1..]);
    }
  }

  // ---- agreement with the one-shot GROUP BY ----

  function GroupOf(m: Parts, k: Key): (r: set<PartId>)
  {
    set i | i in m && FoldKey(m[i]) == Some(k)
  }

  predicate Drained(m: Parts)
  {
    Unassigned(m, true) == {} && Unassigned(m, false) == {}
  }

  // Once nothing is left to fold, each group of parts has exactly one binary,
  // linked to the whole group and carrying the group's aggregate, however the
  // group was cut into batches.
  lemma GroupByAgreement(db: Db, es: seq<Event>, k: Key) returns (b: BinId)
    requires Sound(db) && IsRun(db, es) && Drained(Final(db, es).parts)
    requires GroupOf(Final(db, es).parts, k) != {}
    ensures var d := Final(db, es);
      && b in d.binaries && d.binaries[b].key == k
      && (forall c :: c in d.binaries && d.binaries[c].key == k ==> c == b)
      && Linked(d.parts, b) == GroupOf(d.parts, k)
      && Totals(d.parts, GroupOf(d.parts, k), d.binaries[b])
  {
    hide Totals;
    RunKeepsSound(db, es);
    var d := Final(db, es);
    forall i | i in GroupOf(d.parts, k) ensures d.parts[i].binary.Some? {
      assert i !in Unassigned(d.parts, IsCollection(d.parts[i]));
    }
    var i :| i in GroupOf(d.parts, k);
    b := d.parts[i].binary.value;
    assert Linked(d.parts, b) == GroupOf(d.parts, k);
  }

  // Read off a row: a single-file binary counts its parts exactly and is
  // complete exactly when it has as many as declared.
  lemma SingleFileRow(m: Parts, s: set<PartId>, r: Binary)
    requires Totals(m, s, r) && Singles(m, s) == s
    ensures r.collectedParts == |s|
    ensures r.complete <==> |s| >= r.totalParts
  {
    assert Files(m, s) == {};
  }
}
