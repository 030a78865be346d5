// The three tables of the pipeline as finite maps, and the aggregates the
// assembly statements compute over sets of part rows.
module Tables {
  import opened Common

  type PartId = nat
  type BinId = nat
  type RelId = nat

  // The unique key of a binary: (group_id, norm_subject, poster).
  datatype Key = Key(group: int, subject: string, poster: string)

  // The grouping columns ParseSubject fills in.
  datatype Grouping = Grouping(normSubject: string, collectionKey: string, fileNumber: int, collectionFiles: int)

  datatype Part = Part(
    group: int,
    article: int,
    messageId: string,
    subject: string,
    poster: string,
    postedAt: Option<int>,
    bytes: int,
    partNumber: int,
    totalParts: int,
    grouping: Grouping,
    binary: Option<BinId>)

  datatype Binary = Binary(
    key: Key,
    totalParts: int,
    collectedParts: int,
    totalBytes: int,
    postedAt: Option<int>,
    collectionKey: string,
    collectionFiles: int,
    complete: bool,
    released: bool)

  datatype Status = Pending | Done | Failed

  datatype Segment = Segment(messageId: string, bytes: int, number: int, subject: string)

  datatype Release = Release(
    binary: Option<BinId>,
    status: Status,
    segments: seq<Segment>,
    postedAt: Option<int>,
    createdAt: int)

  type Parts = map<PartId, Part>

  datatype Db = Db(parts: Parts, binaries: map<BinId, Binary>, releases: map<RelId, Release>)

  function Linked(m: Parts, b: BinId): (r: set<PartId>)
  {
    set i | i in m && m[i].binary == Some(b)
  }

  predicate IsCollection(p: Part)
  {
    p.grouping.collectionKey != ""
  }

  // The key a part folds under: collections by collection key, single files by
  // normalized subject and only with a known segment count.
  function FoldKey(p: Part): (k: Option<Key>)
  {
    if IsCollection(p) then Some(Key(p.group, p.grouping.collectionKey, p.poster))
    else if p.grouping.normSubject != "" && p.totalParts > 0 then Some(Key(p.group, p.grouping.normSubject, p.poster))
    else None
  }

  // The count a part declares for the whole: files of its collection, or segments of its file.
  function Declared(p: Part): int
  {
    if IsCollection(p) then p.grouping.collectionFiles else p.totalParts
  }

  // ---- aggregates over a set of rows ----

  ghost function SumBytes(m: Parts, s: set<PartId>): (r: int)
    requires s <= m.Keys
  {
    if s == {} then 0
    else
      var i :| i in s;
      m[i].bytes + SumBytes(m, s - {i})
  }

  ghost predicate IsMaxDeclared(m: Parts, s: set<PartId>, x: int)
    requires s <= m.Keys
  {
    && (forall i :: i in s ==> Declared(m[i]) <= x)
    && (exists i :: i in s && Declared(m[i]) == x)
  }

  // min() skips NULL dates and is NULL when there is no other.
  ghost predicate IsMinDate(m: Parts, s: set<PartId>, x: Option<int>)
    requires s <= m.Keys
  {
    && (forall i :: i in s && m[i].postedAt.Some? ==> x.Some? && x.value <= m[i].postedAt.value)
    && (x.Some? ==> exists i :: i in s && m[i].postedAt == x)
  }

  function Files(m: Parts, s: set<PartId>): (r: set<int>)
    requires s <= m.Keys
  {
    set i | i in s && IsCollection(m[i]) :: m[i].grouping.fileNumber
  }

  function Singles(m: Parts, s: set<PartId>): (r: set<PartId>)
    requires s <= m.Keys
  {
    set i | i in s && !IsCollection(m[i])
  }

  lemma {:induction false} SumPick(m: Parts, s: set<PartId>, i: PartId)
    requires s <= m.Keys && i in s
    ensures SumBytes(m, s) == m[i].bytes + SumBytes(m, s - {i})
    decreases s
  {
    var j :| j in s && SumBytes(m, s) == m[j].bytes + SumBytes(m, s - {j});
    if j != i {
      SumPick(m, s - {j}, i);
      SumPick(m, s - {i}, j);
      assert s - {j} - {i} == s - {i} - {j};
    }
  }

  lemma {:induction false} SumUnion(m: Parts, s: set<PartId>, t: set<PartId>)
    requires s + t <= m.Keys && s !! t
    ensures SumBytes(m, s + t) == SumBytes(m, s) + SumBytes(m, t)
    decreases t
  {
    if t == {} {
      assert s + t == s;
    } else {
      var i :| i in t;
      SumPick(m, s + t, i);
      SumPick(m, t, i);
      assert s + t - {i} == s + (t - {i});
      SumUnion(m, s, t - {i});
    }
  }

  lemma {:induction false} SumFrame(m: Parts, n: Parts, s: set<PartId>)
    requires s <= m.Keys && s <= n.Keys
    requires forall i :: i in s ==> m[i].bytes == n[i].bytes
    ensures SumBytes(m, s) == SumBytes(n, s)
    decreases s
  {
    if s != {} {
      var i :| i in s;
      SumPick(m, s, i);
      SumPick(n, s, i);
      SumFrame(m, n, s - {i});
    }
  }

  // Adding a row adds at most its file, and counts as a collection row exactly if it is one.
  lemma AddRow(m: Parts, s: set<PartId>, i: PartId)
    requires s <= m.Keys && i in m && i !in s
    ensures Files(m, s + {i}) == Files(m, s) + (if IsCollection(m[i]) then {m[i].grouping.fileNumber} else {})
    ensures |s + {i} - Singles(m, s + {i})| == |s - Singles(m, s)| + (if IsCollection(m[i]) then 1 else 0)
  {
    assert s + {i} - Singles(m, s + {i}) == (s - Singles(m, s)) + (if IsCollection(m[i]) then {i} else {});
  }

  // There are no more distinct files than collection rows.
  lemma {:induction false} FilesAtMostRows(m: Parts, s: set<PartId>)
    requires s <= m.Keys
    ensures |Files(m, s)| <= |s - Singles(m, s)|
    decreases s
  {
    if s != {} {
      var i :| i in s;
      var rest := s - {i};
      FilesAtMostRows(m, rest);
      AddRow(m, rest, i);
      assert rest + {i} == s;
    }
  }

  // The unique constraint on (group_id, norm_subject, poster).
  ghost predicate KeysUnique(m: map<BinId, Binary>)
  {
    forall b, c :: b in m && c in m && m[b].key == m[c].key ==> b == c
  }

  // The database object the store's methods write to.
  class Store {
    var parts: Parts
    var binaries: map<BinId, Binary>
    var releases: map<RelId, Release>
    var nextBinary: BinId  // the sequence behind binaries.id

    ghost predicate Valid()
      reads this
    {
      KeysUnique(binaries) && forall b :: b in binaries ==> b < nextBinary
    }

    function View(): (db: Db)
      reads this
    {
      Db(parts, binaries, releases)
    }

    constructor (db: Db, next: BinId)
      requires KeysUnique(db.binaries) && forall b :: b in db.binaries ==> b < next
      ensures Valid() && View() == db && nextBinary == next
    {
      parts, binaries, releases, nextBinary := db.parts, db.binaries, db.releases, next;
    }
  }
}
