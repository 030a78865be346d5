// What a group of parts is, in terms of the parts' own columns: single files
// go together by group, normalized subject and poster, collections by group,
// collection key and poster.
module Groups {
  import opened Common
  import opened Tables
  import opened Assembly

  // Parts linked to a binary carry exactly the group, name and poster in its
  // key, and could be folded at all.
  lemma LinkedPartIs(db: Db, i: PartId)
    requires Sound(db) && i in db.parts && db.parts[i].binary.Some?
    ensures var p := db.parts[i];
      && p.binary.value in db.binaries
      && var k := db.binaries[p.binary.value].key;
         && k.group == p.group && k.poster == p.poster
         && k.subject == (if p.grouping.collectionKey != "" then p.grouping.collectionKey else p.grouping.normSubject)
         && (p.grouping.collectionKey != "" || (p.grouping.normSubject != "" && p.totalParts > 0))
  {
    hide Totals;
  }

  // In every run, parts of one binary agree in group, poster and name, and
  // parts of two binaries differ in one of them.
  lemma SameBinaryIff(db: Db, es: seq<Event>, i: PartId, j: PartId)
    requires Sound(db) && IsRun(db, es)
    requires var m := Final(db, es).parts; i in m && j in m && m[i].binary.Some? && m[j].binary.Some?
    ensures var m := Final(db, es).parts; var p, q := m[i], m[j];
      p.binary == q.binary <==>
        && p.group == q.group && p.poster == q.poster
        && (if p.grouping.collectionKey != "" then p.grouping.collectionKey else p.grouping.normSubject) ==
           (if q.grouping.collectionKey != "" then q.grouping.collectionKey else q.grouping.normSubject)
  {
    hide Totals;
    RunKeepsSound(db, es);
    LinkedPartIs(Final(db, es), i);
    LinkedPartIs(Final(db, es), j);
  }

  // Nothing is left to fold exactly when every part with a collection key, or
  // with a normalized subject and a segment count, has a binary.
  lemma DrainedIff(m: Parts)
    ensures Drained(m) <==>
      forall i :: i in m ==>
        m[i].grouping.collectionKey != "" || (m[i].grouping.normSubject != "" && m[i].totalParts > 0) ==>
        m[i].binary.Some?
  {
    forall i | i in m
      ensures i in Unassigned(m, true) || i in Unassigned(m, false) <==>
        && m[i].binary.None?
        && (m[i].grouping.collectionKey != "" || (m[i].grouping.normSubject != "" && m[i].totalParts > 0))
    {
    }
  }

  // Once drained, parts that can be folded and agree in the three share a binary.
  lemma DrainedGroupsTogether(db: Db, es: seq<Event>, i: PartId, j: PartId)
    requires Sound(db) && IsRun(db, es) && Drained(Final(db, es).parts)
    requires i in Final(db, es).parts && j in Final(db, es).parts
    requires var m := Final(db, es).parts; var p, q := m[i], m[j];
      && p.group == q.group && p.poster == q.poster
      && ((p.grouping.collectionKey != "" && q.grouping.collectionKey == p.grouping.collectionKey)
          || (p.grouping.collectionKey == "" == q.grouping.collectionKey
              && p.grouping.normSubject == q.grouping.normSubject != "" && p.totalParts > 0 && q.totalParts > 0))
    ensures var m := Final(db, es).parts; m[i].binary.Some? && m[i].binary == m[j].binary
  {
    DrainedIff(Final(db, es).parts);
    SameBinaryIff(db, es, i, j);
  }

  // The row of a binary in terms of its parts: the declared total is the
  // largest file count of its collection parts and segment count of its single
  // ones, the date the earliest one given.
  lemma RowMeans(db: Db, b: BinId)
    requires Sound(db) && b in db.binaries
    ensures var m, r := db.parts, db.binaries[b];
      && (forall i :: i in m && m[i].binary == Some(b) ==>
            && (m[i].grouping.collectionKey != "" ==> m[i].grouping.collectionFiles <= r.totalParts)
            && (m[i].grouping.collectionKey == "" ==> m[i].totalParts <= r.totalParts)
            && (m[i].postedAt.Some? ==> r.postedAt.Some? && r.postedAt.value <= m[i].postedAt.value))
      && (exists i :: i in m && m[i].binary == Some(b)
            && (m[i].grouping.collectionKey != "" ==> r.totalParts == m[i].grouping.collectionFiles)
            && (m[i].grouping.collectionKey == "" ==> r.totalParts == m[i].totalParts))
      && (r.postedAt.Some? ==> exists i :: i in m && m[i].binary == Some(b) && m[i].postedAt == r.postedAt)
      && r.totalBytes == SumBytes(m, set i | i in m && m[i].binary == Some(b))
  {
    var m, r, s := db.parts, db.binaries[b], Linked(db.parts, b);
    hide KeysAgree, SumBytes, Counts, KindMarks, CompleteMark;
    assert Measures(m, s, r);
    assert s == set i | i in m && m[i].binary == Some(b);
    var i :| i in s && Declared(m[i]) == r.totalParts;
    assert i in m && m[i].binary == Some(b);
    if r.postedAt.Some? {
      var j :| j in s && m[j].postedAt == r.postedAt;
      assert j in m && m[j].binary == Some(b);
    }
    assert forall j :: j in m && m[j].binary == Some(b) ==> j in s && Declared(m[j]) <= r.totalParts;
  }

  // The sum is the sum: of nothing 0, and one row more adds its bytes.
  lemma SumMeans(m: Parts, s: set<PartId>, i: PartId)
    requires s <= m.Keys && i in m && i !in s
    ensures SumBytes(m, {}) == 0 && SumBytes(m, s + {i}) == SumBytes(m, s) + m[i].bytes
  {
    SumPick(m, s + {i}, i);
    assert s + {i} - {i} == s;
  }

  // A fold releases nothing, changes no other binary, and names a new
  // collection binary after its collection.
  lemma FoldSpares(db: Db, coll: bool, k: Key, rows: set<PartId>, id: BinId, a: Agg)
    ensures var d := Fold(db, coll, k, rows, id, a);
      && d.releases == db.releases && d.binaries.Keys == db.binaries.Keys + {id}
      && (forall b :: b in db.binaries && b != id ==> d.binaries[b] == db.binaries[b])
      && (id in db.binaries ==>
            && d.binaries[id].key == db.binaries[id].key && d.binaries[id].released == db.binaries[id].released
            && d.binaries[id].collectionKey == db.binaries[id].collectionKey)
      && (id !in db.binaries ==>
            && d.binaries[id].key == k && !d.binaries[id].released
            && d.binaries[id].collectionKey == if coll then k.subject else "")
      && (forall i :: i in db.parts ==>
            i in d.parts && d.parts[i] == if i in rows then db.parts[i].(binary := Some(id)) else db.parts[i])
  {
  }

  // What one step does to the marks and the existence of a binary.
  lemma MarksAfterStep(db: Db, e: Event, b: BinId)
    requires Enabled(db, e)
    ensures var d := Step(db, e);
      && (b in d.binaries && d.binaries[b].released <==>
            || (b in db.binaries && db.binaries[b].released)
            || (e.MarkReleased? && b in e.ids))
      && (b in db.binaries && !e.FoldSome? && !e.AgeOut? ==>
            && b in d.binaries
            && d.binaries[b] == db.binaries[b].(complete := d.binaries[b].complete, released := d.binaries[b].released)
            && (d.binaries[b].complete <==> db.binaries[b].complete || (e.Settle? && b in e.ids)))
      && (e.AgeOut? && b in e.ids ==>
            && b !in d.binaries
            && forall i :: i in db.parts ==>
                 (i in d.parts <==> db.parts[i].binary.None? || db.parts[i].binary.value !in e.ids))
  {
  }

  // Over every run, a binary is released at the end if and only if it was so at
  // the start or was ever marked: nothing takes the mark back or ages it out.
  lemma {:induction false} ReleasedIff(db: Db, es: seq<Event>, b: BinId)
    requires IsRun(db, es)
    ensures b in Final(db, es).binaries && Final(db, es).binaries[b].released <==>
            || (b in db.binaries && db.binaries[b].released)
            || exists i :: 0 <= i < |es| && es[i].MarkReleased? && b in es[i].ids
    decreases |es|
  {
    hide Enabled, Step;
    if |es| > 0 {
      MarksAfterStep(db, es[0], b);
      ReleasedIff(Step(db, es[0]), es[1..], b);
      assert forall i :: 1 <= i < |es| ==> es[i] == es[1..][i - 1];
      assert forall i :: 0 <= i < |es[1..]| ==> es[1..][i] == es[i + 1];
    }
  }
}
