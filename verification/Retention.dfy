// NZB segments of a release, and the retention prune of raw parts.
module Retention {
  import opened Common
  import opened Tables

  const DEFAULT_BATCH := 5000
  const MAX_PARTS_PER_BINARY := 2000

  // ---- the segments an NZB is built from ----

  // ORDER BY part_number, article_number; ties come in any order.
  predicate InOrder(p: Part, q: Part)
  {
    p.partNumber < q.partNumber || (p.partNumber == q.partNumber && p.article <= q.article)
  }

  // The rows of a binary that can be fetched at all.
  function Source(m: Parts, b: BinId): (s: set<PartId>)
  {
    set i | i in m && m[i].binary == Some(b) && m[i].messageId != ""
  }

  ghost predicate IsOrdered(m: Parts, s: set<PartId>, ids: seq<PartId>)
    requires s <= m.Keys
  {
    && |ids| == |s|
    && (forall k :: 0 <= k < |ids| ==> ids[k] in s)
    && (forall i :: i in s ==> i in ids)
    && (forall j, k :: 0 <= j < k < |ids| ==> InOrder(m[ids[j]], m[ids[k]]))
  }

  function SegmentOf(p: Part): (s: Segment)
  {
    Segment(p.messageId, p.bytes, p.partNumber, p.subject)
  }

  function Segments(m: Parts, ids: seq<PartId>): (r: seq<Segment>)
    requires forall k :: 0 <= k < |ids| ==> ids[k] in m
  {
    seq(|ids|, k requires 0 <= k < |ids| => SegmentOf(m[ids[k]]))
  }

  // An answer the raw rows of binary b allow.
  ghost predicate FromBinary(m: Parts, b: BinId, out: seq<Segment>)
  {
    exists ids :: IsOrdered(m, Source(m, b), ids) && out == Segments(m, ids)
  }

  ghost predicate FromParts(db: Db, r: RelId, out: seq<Segment>)
    requires r in db.releases
  {
    match db.releases[r].binary
    case None => out == []
    case Some(b) => FromBinary(db.parts, b, out)
  }

  // The segments GetReleaseSegments may answer with: the durable ones when
  // there are any, the raw rows otherwise.
  ghost predicate Nzb(db: Db, r: RelId, out: seq<Segment>)
    requires r in db.releases
  {
    if db.releases[r].segments != [] then out == db.releases[r].segments else FromParts(db, r, out)
  }

  ghost predicate SameNzb(before: Db, after: Db, r: RelId)
    requires r in before.releases && r in after.releases
  {
    forall out :: Nzb(before, r, out) <==> Nzb(after, r, out)
  }

  lemma {:induction false} LastExists(m: Parts, s: set<PartId>) returns (i: PartId)
    requires s <= m.Keys && s != {}
    ensures i in s && forall j :: j in s ==> InOrder(m[j], m[i])
    decreases s
  {
    i :| i in s;
    var rest := s - {i};
    assert forall j :: j in s ==> j == i || j in rest;
    if rest != {} {
      var y := LastExists(m, rest);
      if !InOrder(m[y], m[i]) {
        i := y;
      }
    }
  }

  lemma {:induction false} OrderExists(m: Parts, s: set<PartId>) returns (ids: seq<PartId>)
    requires s <= m.Keys
    ensures IsOrdered(m, s, ids)
    decreases s
  {
    if s == {} {
      ids := [];
    } else {
      var i := LastExists(m, s);
      var rest := OrderExists(m, s - {i});
      ids := rest + [i];
      assert forall j :: j in s ==> j == i || j in s - {i};
      assert ids[|rest|] == i;
    }
  }

  lemma AnswerLength(m: Parts, b: BinId, out: seq<Segment>)
    requires FromBinary(m, b, out)
    ensures |out| == |Source(m, b)|
  {
  }

  // Two rows that tie on (part, article) would make the order ambiguous; the
  // natural key (group, article) rules that out within one group.
  lemma {:induction false} OrderIsUnique(m: Parts, s: set<PartId>, ids: seq<PartId>, other: seq<PartId>)
    requires s <= m.Keys && IsOrdered(m, s, ids) && IsOrdered(m, s, other)
    requires forall i, j :: i in s && j in s && InOrder(m[i], m[j]) && InOrder(m[j], m[i]) ==> i == j
    ensures ids == other
    decreases |s|
  {
    hide IsOrdered, InOrder;
    Distinct(m, s, ids);
    Distinct(m, s, other);
    if s != {} {
      var n := |s| - 1;
      var i := ids[n];
      SameLast(m, s, ids, other);
      DropLast(m, s, ids);
      DropLast(m, s, other);
      OrderIsUnique(m, s - {i}, ids[..n], other[..n]);
      assert ids == ids[..n] + [i] && other == other[..n] + [i];
    }
  }

  lemma SameLast(m: Parts, s: set<PartId>, ids: seq<PartId>, other: seq<PartId>)
    requires s <= m.Keys && s != {} && IsOrdered(m, s, ids) && IsOrdered(m, s, other)
    requires forall i, j :: i in s && j in s && InOrder(m[i], m[j]) && InOrder(m[j], m[i]) ==> i == j
    ensures ids[|s| - 1] == other[|s| - 1]
  {
    var n := |s| - 1;
    var k :| 0 <= k < |other| && other[k] == ids[n];
    var l :| 0 <= l < |ids| && ids[l] == other[n];
  }

  lemma DropLast(m: Parts, s: set<PartId>, ids: seq<PartId>)
    requires s <= m.Keys && s != {} && IsOrdered(m, s, ids)
    requires forall j, k :: 0 <= j < k < |ids| ==> ids[j] != ids[k]
    ensures IsOrdered(m, s - {ids[|s| - 1]}, ids[..|s| - 1])
  {
    var n := |s| - 1;
    forall i | i in s - {ids[n]}
      ensures i in ids[..n]
    {
      var k :| 0 <= k < |ids| && ids[k] == i;
      assert ids[..n][k] == i;
    }
  }

  lemma Distinct(m: Parts, s: set<PartId>, ids: seq<PartId>)
    requires s <= m.Keys && IsOrdered(m, s, ids)
    ensures |ids| == |s| && forall k :: 0 <= k < |ids| ==> ids[k] in s
    ensures forall j, k :: 0 <= j < k < |ids| ==> ids[j] != ids[k]
  {
    forall j, k | 0 <= j < k < |ids|
      ensures ids[j] != ids[k]
    {
      if ids[j] == ids[k] {
        var rest := ids[..j] + ids[j + 1..];
        assert forall i :: i in s ==> i in rest by {
          forall i | i in s
            ensures i in rest
          {
            var l :| 0 <= l < |ids| && ids[l] == i;
            if l < j {
              assert rest[l] == i;
            } else if l > j {
              assert rest[l - 1] == i;
            } else {
              assert rest[k - 1] == i;
            }
          }
        }
        CoverLength(s, rest);
      }
    }
  }

  lemma {:induction false} CoverLength(s: set<PartId>, ids: seq<PartId>)
    requires forall i :: i in s ==> i in ids
    ensures |s| <= |ids|
    decreases |ids|
  {
    if ids != [] {
      var n := |ids| - 1;
      var t := s - {ids[n]};
      forall i | i in t
        ensures i in ids[..n]
      {
        var k :| 0 <= k < |ids| && ids[k] == i;
        assert ids[..n][k] == i;
      }
      CoverLength(t, ids[..n]);
    }
  }

  // One group's rows have one possible answer.
  lemma NzbIsUnique(db: Db, r: RelId, out: seq<Segment>, other: seq<Segment>)
    requires r in db.releases && Nzb(db, r, out) && Nzb(db, r, other)
    requires forall i, j :: i in db.parts && j in db.parts && i != j ==>
      db.parts[i].binary.Some? && db.parts[i].binary == db.parts[j].binary ==>
        db.parts[i].article != db.parts[j].article
    ensures out == other
  {
    if db.releases[r].segments == [] && db.releases[r].binary.Some? {
      var b := db.releases[r].binary.value;
      var m := db.parts;
      var s := Source(m, b);
      var ids :| IsOrdered(m, s, ids) && out == Segments(m, ids);
      var jds :| IsOrdered(m, s, jds) && other == Segments(m, jds);
      OrderIsUnique(m, s, ids, jds);
    }
  }

  // The row loop of releaseSegmentsFromParts over the database's answer.
  method ReleaseSegmentsFromParts(db: Db, r: RelId, ids: seq<PartId>) returns (out: seq<Segment>)
    requires r in db.releases
    requires match db.releases[r].binary
             case None => ids == []
             case Some(b) => IsOrdered(db.parts, Source(db.parts, b), ids)
    ensures FromParts(db, r, out)
  {
    out := [];
    for k := 0 to |ids|
      invariant |out| == k && forall j :: 0 <= j < k ==> out[j] == SegmentOf(db.parts[ids[j]])
    {
      out := out + [SegmentOf(db.parts[ids[k]])];
    }
    assert db.releases[r].binary.Some? ==> out == Segments(db.parts, ids);
  }

  lemma SourceMeans(m: Parts, b: BinId, i: PartId)
    ensures i in Source(m, b) <==> i in m && m[i].binary == Some(b) && m[i].messageId != ""
  {
  }

  lemma OrderMeans(m: Parts, s: set<PartId>, ids: seq<PartId>)
    requires s <= m.Keys && IsOrdered(m, s, ids)
    ensures forall k :: 0 <= k < |ids| ==> ids[k] in m
    ensures forall j, k :: 0 <= j < k < |ids| ==>
              || m[ids[j]].partNumber < m[ids[k]].partNumber
              || (m[ids[j]].partNumber == m[ids[k]].partNumber && m[ids[j]].article <= m[ids[k]].article)
  {
  }

  lemma SegmentsMean(m: Parts, ids: seq<PartId>)
    requires forall k :: 0 <= k < |ids| ==> ids[k] in m
    ensures |Segments(m, ids)| == |ids|
    ensures forall k :: 0 <= k < |ids| ==>
              Segments(m, ids)[k]
              == Segment(m[ids[k]].messageId, m[ids[k]].bytes, m[ids[k]].partNumber, m[ids[k]].subject)
  {
  }

  lemma EachRowOnce(m: Parts, s: set<PartId>, ids: seq<PartId>)
    requires s <= m.Keys && IsOrdered(m, s, ids)
    ensures |ids| == |s|
    ensures forall i :: i in s <==> i in ids
  {
    hide InOrder;
  }

  // What an answer from the raw rows is: one segment for each part of the
  // binary that has a message-id, ordered by part number and then article.
  lemma AnswerMeans(m: Parts, b: BinId, out: seq<Segment>) returns (ids: seq<PartId>)
    requires FromBinary(m, b, out)
    ensures |ids| == |out| == |Source(m, b)|
    ensures forall i :: i in ids <==> i in m && m[i].binary == Some(b) && m[i].messageId != ""
    ensures forall k :: 0 <= k < |ids| ==>
              out[k] == Segment(m[ids[k]].messageId, m[ids[k]].bytes, m[ids[k]].partNumber, m[ids[k]].subject)
    ensures forall j, k :: 0 <= j < k < |ids| ==>
              || m[ids[j]].partNumber < m[ids[k]].partNumber
              || (m[ids[j]].partNumber == m[ids[k]].partNumber && m[ids[j]].article <= m[ids[k]].article)
  {
    hide Segments, InOrder, SegmentOf, Source;
    forall i ensures i in Source(m, b) <==> i in m && m[i].binary == Some(b) && m[i].messageId != "" {
      SourceMeans(m, b, i);
    }
    ids :| IsOrdered(m, Source(m, b), ids) && out == Segments(m, ids);
    EachRowOnce(m, Source(m, b), ids);
    OrderMeans(m, Source(m, b), ids);
    SegmentsMean(m, ids);
  }

  // The NZB of a release with durable segments is those; without a binary it is empty.
  lemma NzbMeans(db: Db, r: RelId, out: seq<Segment>)
    requires r in db.releases && Nzb(db, r, out)
    ensures db.releases[r].segments != [] ==> out == db.releases[r].segments
    ensures db.releases[r].segments == [] && db.releases[r].binary.None? ==> out == []
    ensures db.releases[r].segments == [] && db.releases[r].binary.Some? ==>
      FromBinary(db.parts, db.releases[r].binary.value, out)
  {
  }

  // ---- retention candidates ----

  function SortDate(r: Release): (d: int)
  {
    if r.postedAt.Some? then r.postedAt.value else r.createdAt
  }

  predicate Redundant(db: Db, cutoff: int, b: BinId, r: RelId)
  {
    && r in db.releases && b in db.binaries && db.releases[r].binary == Some(b)
    && db.binaries[b].released && db.releases[r].status.Done? && db.releases[r].segments != []
    && SortDate(db.releases[r]) < cutoff
  }

  // The EXISTS form, asked of each part.
  predicate IsCandidate(db: Db, cutoff: int, i: PartId)
  {
    && i in db.parts && db.parts[i].binary.Some?
    && exists r :: r in db.releases && Redundant(db, cutoff, db.parts[i].binary.value, r)
  }

  function Candidates(db: Db, cutoff: int): (s: set<PartId>)
  {
    set i | i in db.parts && IsCandidate(db, cutoff, i)
  }

  // The binaries-first form: the rows of the join, one per redundant release...
  function JoinRows(db: Db, cutoff: int): (s: set<RelId>)
  {
    set r | r in db.releases && db.releases[r].binary.Some? && Redundant(db, cutoff, db.releases[r].binary.value, r)
  }

  function BinaryParts(db: Db, r: RelId): (s: set<PartId>)
  {
    if r in db.releases && db.releases[r].binary.Some? then Linked(db.parts, db.releases[r].binary.value) else {}
  }

  // ...joined out to the parts of the binary.
  function JoinedParts(db: Db, cutoff: int): (s: set<PartId>)
  {
    set r, i | r in JoinRows(db, cutoff) && i in BinaryParts(db, r) :: i
  }

  lemma CandidateFormsAgree(db: Db, cutoff: int)
    ensures JoinedParts(db, cutoff) == Candidates(db, cutoff)
  {
    forall i | i in Candidates(db, cutoff)
      ensures i in JoinedParts(db, cutoff)
    {
      var b := db.parts[i].binary.value;
      var r :| r in db.releases && Redundant(db, cutoff, b, r);
      assert r in JoinRows(db, cutoff);
      assert i in BinaryParts(db, r);
    }
  }

  // A candidate is a part of a released binary some 'done' release of which has
  // durable segments and is older than the cutoff, by its posting date or, when
  // it has none, by its creation.
  lemma CandidateIff(db: Db, cutoff: int, i: PartId)
    ensures i in Candidates(db, cutoff) <==>
      && i in db.parts && db.parts[i].binary.Some?
      && db.parts[i].binary.value in db.binaries && db.binaries[db.parts[i].binary.value].released
      && exists r :: r in db.releases && db.releases[r].binary == db.parts[i].binary
           && db.releases[r].status == Done && |db.releases[r].segments| > 0
           && (db.releases[r].postedAt.Some? ==> db.releases[r].postedAt.value < cutoff)
           && (db.releases[r].postedAt.None? ==> db.releases[r].createdAt < cutoff)
  {
    if i in Candidates(db, cutoff) {
      var r :| r in db.releases && Redundant(db, cutoff, db.parts[i].binary.value, r);
      assert |db.releases[r].segments| > 0;
    }
    if i in db.parts && db.parts[i].binary.Some? {
      forall r | r in db.releases && db.releases[r].binary == db.parts[i].binary
        && db.parts[i].binary.value in db.binaries && db.binaries[db.parts[i].binary.value].released
        && db.releases[r].status == Done && |db.releases[r].segments| > 0
        && (db.releases[r].postedAt.Some? ==> db.releases[r].postedAt.value < cutoff)
        && (db.releases[r].postedAt.None? ==> db.releases[r].createdAt < cutoff)
        ensures i in Candidates(db, cutoff)
      {
        assert Redundant(db, cutoff, db.parts[i].binary.value, r);
      }
    }
  }

  function Without(db: Db, dead: set<PartId>): (d: Db)
  {
    db.(parts := db.parts - dead)
  }

  // Deleting parts makes no other part more or less of a candidate.
  lemma CandidatesAfter(db: Db, cutoff: int, dead: set<PartId>)
    ensures Candidates(Without(db, dead), cutoff) == Candidates(db, cutoff) - dead
  {
    var d := Without(db, dead);
    assert forall b, r :: Redundant(d, cutoff, b, r) == Redundant(db, cutoff, b, r);
    forall i
      ensures i in Candidates(d, cutoff) <==> i in Candidates(db, cutoff) - dead
    {
      assert i in d.parts <==> i in db.parts && i !in dead;
      assert i in d.parts ==> IsCandidate(d, cutoff, i) == IsCandidate(db, cutoff, i);
    }
  }

  // ---- what a deletion does to the NZBs ----

  // Exactly the deletions that do not change the segments of r.
  predicate Spares(db: Db, dead: set<PartId>, r: RelId)
    requires r in db.releases
  {
    || db.releases[r].segments != [] || db.releases[r].binary.None?
    || Source(db.parts, db.releases[r].binary.value) !! dead
  }

  lemma NzbUnchangedIff(db: Db, dead: set<PartId>, r: RelId)
    requires r in db.releases
    ensures SameNzb(db, Without(db, dead), r) <==> Spares(db, dead, r)
  {
    if db.releases[r].segments == [] && db.releases[r].binary.Some? {
      var b := db.releases[r].binary.value;
      var m, n := db.parts, db.parts - dead;
      assert Source(n, b) == Source(m, b) - dead;
      if Source(m, b) !! dead {
        SameRows(m, n, b);
      } else {
        var ids := OrderExists(m, Source(m, b));
        var out := Segments(m, ids);
        assert FromBinary(m, b, out);
        assert Nzb(db, r, out);
        SubsetSize(Source(n, b), Source(m, b));
        if Nzb(Without(db, dead), r, out) {
          AnswerLength(n, b, out);
        }
      }
    }
  }

  lemma SameRows(m: Parts, n: Parts, b: BinId)
    requires Source(m, b) == Source(n, b) && forall i :: i in Source(m, b) ==> m[i] == n[i]
    ensures forall out :: FromBinary(m, b, out) <==> FromBinary(n, b, out)
  {
    var s := Source(m, b);
    forall ids | IsOrdered(m, s, ids) || IsOrdered(n, s, ids)
      ensures IsOrdered(m, s, ids) && IsOrdered(n, s, ids) && Segments(m, ids) == Segments(n, ids)
    {
    }
    forall out
      ensures FromBinary(m, b, out) <==> FromBinary(n, b, out)
    {
      if FromBinary(m, b, out) {
        var ids :| IsOrdered(m, s, ids) && out == Segments(m, ids);
        assert IsOrdered(n, s, ids) && out == Segments(n, ids);
      }
      if FromBinary(n, b, out) {
        var ids :| IsOrdered(n, s, ids) && out == Segments(n, ids);
        assert IsOrdered(m, s, ids) && out == Segments(m, ids);
      }
    }
  }

  ghost predicate OneReleasePerBinary(db: Db)
  {
    forall q, r :: q in db.releases && r in db.releases ==>
      db.releases[q].binary.Some? && db.releases[q].binary == db.releases[r].binary ==> q == r
  }

  // A release that lives off raw rows which some other release of the same
  // binary makes redundant.
  predicate AtRisk(db: Db, cutoff: int, r: RelId)
    requires r in db.releases
  {
    && db.releases[r].segments == [] && db.releases[r].binary.Some?
    && Source(db.parts, db.releases[r].binary.value) != {}
    && exists q :: q in db.releases && Redundant(db, cutoff, db.releases[r].binary.value, q)
  }

  // A finished prune keeps the NZB of r exactly when r was not at risk.
  lemma PruneKeepsNzbIff(db: Db, cutoff: int, r: RelId)
    requires r in db.releases
    ensures SameNzb(db, Without(db, Candidates(db, cutoff)), r) <==> !AtRisk(db, cutoff, r)
  {
    NzbUnchangedIff(db, Candidates(db, cutoff), r);
    if db.releases[r].binary.Some? {
      var b := db.releases[r].binary.value;
      assert forall i :: i in Source(db.parts, b) ==>
        (i in Candidates(db, cutoff) <==> exists q :: q in db.releases && Redundant(db, cutoff, b, q));
    }
  }

  // Deleting only parts that are candidates, each at any cutoff, changes no
  // NZB when binaries have at most one release.
  lemma PruneKeepsNzbs(db: Db, dead: set<PartId>)
    requires OneReleasePerBinary(db)
    requires forall i :: i in dead ==> exists c :: IsCandidate(db, c, i)
    ensures forall r :: r in db.releases ==> SameNzb(db, Without(db, dead), r)
  {
    forall r | r in db.releases
      ensures SameNzb(db, Without(db, dead), r)
    {
      if db.releases[r].segments == [] && db.releases[r].binary.Some? {
        var b := db.releases[r].binary.value;
        assert forall c, q :: !Redundant(db, c, b, q);
      }
      NzbUnchangedIff(db, dead, r);
    }
  }

  // Two releases of one binary, only one with durable segments: pruning
  // empties the other's NZB.
  lemma SharedBinaryLosesNzb() returns (db: Db, cutoff: int, r: RelId)
    ensures r in db.releases && AtRisk(db, cutoff, r)
    ensures !SameNzb(db, Without(db, Candidates(db, cutoff)), r)
  {
    var g := Grouping("s", "", 0, 0);
    var p := Part(1, 1, "<a>", "s", "p", Some(0), 10, 1, 1, g, Some(0));
    var b := Binary(Key(1, "s", "p"), 1, 1, 10, Some(0), "", 0, true, true);
    var kept := Release(Some(0), Done, [SegmentOf(p)], Some(0), 0);
    var bare := Release(Some(0), Done, [], Some(0), 0);
    db := Db(map[0 := p], map[0 := b], map[0 := kept, 1 := bare]);
    cutoff, r := 1, 1;
    assert Redundant(db, cutoff, 0, 0);
    assert 0 in Source(db.parts, 0);
    PruneKeepsNzbIff(db, cutoff, r);
  }

  // ---- the batched delete ----

  function PartsIn(pairs: set<(RelId, PartId)>): (s: set<PartId>)
  {
    set c | c in pairs :: c.1
  }

  // The pairs one row of the join contributes.
  function RowPairs(pairs: set<(RelId, PartId)>, r: RelId): (s: set<(RelId, PartId)>)
  {
    set c | c in pairs && c.0 == r
  }

  function Pairs(r: RelId, ids: set<PartId>): (s: set<(RelId, PartId)>)
  {
    set i | i in ids :: (r, i)
  }

  lemma {:induction false} ProjectionSize(pairs: set<(RelId, PartId)>)
    ensures |PartsIn(pairs)| <= |pairs|
    decreases pairs
  {
    if pairs != {} {
      var c :| c in pairs;
      ProjectionSize(pairs - {c});
      assert PartsIn(pairs) == PartsIn(pairs - {c}) + {c.1};
    }
  }

  lemma {:induction false} PairsSize(r: RelId, ids: set<PartId>)
    ensures |Pairs(r, ids)| == |ids|
    decreases ids
  {
    if ids != {} {
      var i :| i in ids;
      PairsSize(r, ids - {i});
      assert Pairs(r, ids) == Pairs(r, ids - {i}) + {(r, i)};
    }
  }

  lemma AddPairs(pairs: set<(RelId, PartId)>, r: RelId, ids: set<PartId>)
    requires RowPairs(pairs, r) == {}
    ensures var all := pairs + Pairs(r, ids);
      && PartsIn(all) == PartsIn(pairs) + ids
      && (forall q :: RowPairs(all, q) == if q == r then Pairs(r, ids) else RowPairs(pairs, q))
      && |RowPairs(all, r)| == |ids|
      && (all == {} <==> pairs == {} && ids == {})
  {
    var more := Pairs(r, ids);
    assert forall i :: i in ids ==> (r, i) in more && (r, i).1 == i;
    assert PartsIn(more) == ids;
    assert PartsIn(pairs + more) == PartsIn(pairs) + PartsIn(more);
    forall q
      ensures RowPairs(pairs + more, q) == if q == r then more else RowPairs(pairs, q)
    {
      assert forall c :: c in more ==> c.0 == r;
      assert forall c :: c in pairs && c.0 == r ==> c in RowPairs(pairs, r);
    }
    PairsSize(r, ids);
  }

  // The LATERAL join: at most MAX_PARTS_PER_BINARY parts for each join row.
  method Doomed(db: Db, cutoff: int) returns (pairs: set<(RelId, PartId)>)
    ensures PartsIn(pairs) <= Candidates(db, cutoff)
    ensures pairs == {} <==> Candidates(db, cutoff) == {}
    ensures forall r :: |RowPairs(pairs, r)| <= 2000
  {
    pairs := {};
    assert MAX_PARTS_PER_BINARY == 2000;
    var rest := JoinRows(db, cutoff);
    assert forall r :: RowPairs(pairs, r) == {};
    assert PartsIn(pairs) == {};
    CandidateFormsAgree(db, cutoff);
    JoinedFrom(db, cutoff);
    hide *;
    while rest != {}
      invariant rest <= JoinRows(db, cutoff)
      invariant PartsIn(pairs) <= JoinedParts(db, cutoff)
      invariant forall r :: r in rest ==> RowPairs(pairs, r) == {}
      invariant forall r :: r in JoinRows(db, cutoff) - rest && BinaryParts(db, r) != {} ==> pairs != {}
      invariant pairs != {} ==> JoinedParts(db, cutoff) != {}
      invariant forall r :: |RowPairs(pairs, r)| <= MAX_PARTS_PER_BINARY
      decreases rest
    {
      var r :| r in rest;
      var some := TakeUpTo(BinaryParts(db, r), MAX_PARTS_PER_BINARY);
      AddPairs(pairs, r, some);
      pairs := pairs + Pairs(r, some);
      rest := rest - {r};
    }
  }

  lemma JoinedFrom(db: Db, cutoff: int)
    ensures forall r :: r in JoinRows(db, cutoff) ==> BinaryParts(db, r) <= JoinedParts(db, cutoff)
    ensures JoinedParts(db, cutoff) != {} ==> exists r :: r in JoinRows(db, cutoff) && BinaryParts(db, r) != {}
  {
  }

  // One bounded delete: some candidates, at least one while any is left.
  method PruneRetainedParts(st: Store, cutoff: int, batchSize: int) returns (n: nat, ghost dead: set<PartId>)
    modifies st
    ensures st.View() == Without(old(st.View()), dead) && st.nextBinary == old(st.nextBinary)
    ensures dead <= Candidates(old(st.View()), cutoff) && n == |dead|
    ensures n <= if batchSize <= 0 then 5000 else batchSize
    ensures n == 0 <==> Candidates(old(st.View()), cutoff) == {}
    ensures Candidates(st.View(), cutoff) == Candidates(old(st.View()), cutoff) - dead
  {
    var size := if batchSize <= 0 then DEFAULT_BATCH else batchSize;
    var all := Doomed(st.View(), cutoff);
    var pairs := TakeUpTo(all, size);
    var doomed := PartsIn(pairs);
    ProjectionSize(pairs);
    assert doomed <= PartsIn(all);
    if all != {} {
      assert pairs != {};
      var c :| c in pairs;
      assert c.1 in doomed;
    }
    CandidatesAfter(st.View(), cutoff, doomed);
    dead, n := doomed, |doomed|;
    st.parts := st.parts - doomed;
  }

  datatype End = Exhausted | Capped | Cancelled | Errored

  // What stops an iteration of the prune loop, if anything.
  datatype Stop = Go | Cancel | Fail

  // i was a candidate at the cutoff of some batch.
  ghost predicate Ripe(db: Db, cutoff: nat -> int, i: PartId)
  {
    exists k: nat :: IsCandidate(db, cutoff(k), i)
  }

  // Some batch found nothing left.
  ghost predicate FoundNone(db: Db, cutoff: nat -> int)
  {
    exists k: nat :: Candidates(db, cutoff(k)) == {}
  }

  // Batches until nothing is left or the cap is reached (0: no cap). cutoff(k)
  // is the age boundary batch k reads off the clock.
  method PruneRetainedPartsAll(st: Store, cutoff: nat -> int, batchSize: int, maxBatches: int, stop: nat -> Stop)
    returns (total: nat, end: End, ghost dead: set<PartId>)
    modifies st
    ensures st.View() == Without(old(st.View()), dead) && dead <= old(st.parts.Keys) && total == |dead|
    ensures forall i :: i in dead ==> Ripe(old(st.View()), cutoff, i)
    ensures end.Exhausted? ==> FoundNone(st.View(), cutoff)
    ensures (forall k: nat :: cutoff(k) == cutoff(0)) ==> dead <= Candidates(old(st.View()), cutoff(0))
    ensures (forall k: nat :: cutoff(k) == cutoff(0)) && end.Exhausted? ==>
      dead == Candidates(old(st.View()), cutoff(0))
    ensures maxBatches == 0 && (forall k: nat :: stop(k).Go?) ==> end.Exhausted?
    ensures OneReleasePerBinary(old(st.View())) ==>
      forall r :: r in old(st.releases) ==> SameNzb(old(st.View()), st.View(), r)
  {
    ghost var db := st.View();
    total, dead, end := 0, {}, Capped;
    WithoutNone(db);
    hide Pruned, Without, IsCandidate, Candidates, OneReleasePerBinary, SameNzb, Ripe, FoundNone;
    var k := 0;
    while maxBatches == 0 || k < maxBatches
      invariant 0 <= k && end.Capped? && total == |dead| && Pruned(db, st.View(), cutoff, dead)
      decreases |st.parts|
    {
      if stop(k).Cancel? {
        end := Cancelled;
        break;
      }
      if stop(k).Fail? {
        end := Errored;
        break;
      }
      ghost var now := st.View();
      var n, gone := PruneRetainedParts(st, cutoff(k), batchSize);
      BatchProgress(db, now, dead, cutoff, k, gone);
      if n == 0 {
        end := Exhausted;
        break;
      }
      total, dead := total + n, dead + gone;
      k := k + 1;
    }
    WrapUp(db, st.View(), cutoff, dead, end);
  }

  // `now` is db after deleting `dead`, each of them a candidate at its time.
  ghost predicate Pruned(db: Db, now: Db, cutoff: nat -> int, dead: set<PartId>)
  {
    now == Without(db, dead) && dead <= db.parts.Keys && forall i :: i in dead ==> Ripe(db, cutoff, i)
  }

  // One batch of the loop on top of what earlier ones deleted.
  lemma BatchProgress(db: Db, now: Db, dead: set<PartId>, cutoff: nat -> int, k: nat, gone: set<PartId>)
    requires Pruned(db, now, cutoff, dead) && gone <= Candidates(now, cutoff(k))
    ensures Pruned(db, Without(now, gone), cutoff, dead + gone)
    ensures |dead + gone| == |dead| + |gone|
    ensures gone != {} ==> |Without(now, gone).parts| < |now.parts|
    ensures gone == {} ==> Without(now, gone) == now
    ensures Candidates(now, cutoff(k)) == {} ==> FoundNone(now, cutoff)
  {
    hide Without, Candidates, Ripe, FoundNone;
    NewlyGone(db, dead, cutoff, k, gone);
    NoneFound(now, cutoff, k);
    WithoutTwice(db, dead, gone);
  }

  lemma NewlyGone(db: Db, dead: set<PartId>, cutoff: nat -> int, k: nat, gone: set<PartId>)
    requires gone <= Candidates(Without(db, dead), cutoff(k))
    ensures gone <= db.parts.Keys - dead && |dead + gone| == |dead| + |gone|
    ensures forall i :: i in gone ==> Ripe(db, cutoff, i)
  {
    hide IsCandidate, Ripe;
    CandidatesAfter(db, cutoff(k), dead);
    forall i | i in gone
      ensures i in db.parts.Keys - dead && Ripe(db, cutoff, i)
    {
      assert i in Candidates(db, cutoff(k)) - dead;
      IsRipe(db, cutoff, k, i);
    }
  }

  lemma IsRipe(db: Db, cutoff: nat -> int, k: nat, i: PartId)
    requires i in Candidates(db, cutoff(k))
    ensures Ripe(db, cutoff, i)
  {
  }

  lemma NoneFound(db: Db, cutoff: nat -> int, k: nat)
    ensures Candidates(db, cutoff(k)) == {} ==> FoundNone(db, cutoff)
  {
  }

  lemma CandidatesAreParts(db: Db, cutoff: int)
    ensures forall i :: i in Candidates(db, cutoff) ==> i in db.parts && IsCandidate(db, cutoff, i)
    ensures forall i :: IsCandidate(db, cutoff, i) ==> i in Candidates(db, cutoff)
  {
  }

  lemma WithoutTwice(db: Db, dead: set<PartId>, gone: set<PartId>)
    requires gone <= db.parts.Keys - dead
    ensures Without(Without(db, dead), gone) == Without(db, dead + gone)
    ensures gone != {} ==> |Without(db, dead + gone).parts| < |Without(db, dead).parts|
    ensures gone == {} ==> Without(db, dead + gone) == Without(db, dead)
  {
    assert gone == {} ==> dead + gone == dead;
    var m, n := db.parts - dead, db.parts - (dead + gone);
    assert m - gone == n;
    KeysLeft(m, gone);
  }

  lemma KeysLeft(m: Parts, gone: set<PartId>)
    requires gone <= m.Keys
    ensures |m - gone| == |m| - |gone|
  {
    var n := m - gone;
    assert m.Keys == n.Keys + gone && n.Keys !! gone;
    assert |m| == |m.Keys| && |n| == |n.Keys|;
  }

  lemma WithoutNone(db: Db)
    ensures Without(db, {}) == db
  {
    assert db.parts - {} == db.parts;
  }

  lemma WrapUp(db: Db, now: Db, cutoff: nat -> int, dead: set<PartId>, end: End)
    requires Pruned(db, now, cutoff, dead) && (end.Exhausted? ==> FoundNone(now, cutoff))
    ensures now == Without(db, dead) && dead <= db.parts.Keys && forall i :: i in dead ==> Ripe(db, cutoff, i)
    ensures (forall k: nat :: cutoff(k) == cutoff(0)) ==>
      dead <= Candidates(db, cutoff(0)) && (end.Exhausted? ==> dead == Candidates(db, cutoff(0)))
    ensures OneReleasePerBinary(db) ==> forall r :: r in db.releases ==> SameNzb(db, Without(db, dead), r)
  {
    hide IsCandidate, Candidates, OneReleasePerBinary, SameNzb;
    if OneReleasePerBinary(db) {
      PruneKeepsNzbs(db, dead);
    }
    if forall k: nat :: cutoff(k) == cutoff(0) {
      CandidatesAfter(db, cutoff(0), dead);
      CandidatesAreParts(db, cutoff(0));
      NothingLeft(dead, Candidates(db, cutoff(0)));
    }
  }

  lemma NothingLeft(dead: set<PartId>, all: set<PartId>)
    requires dead <= all
    ensures all - dead == {} ==> dead == all
  {
    assert all == dead + (all - dead);
  }

  // ---- durable segments ----

  function Snapshot(db: Db, r: RelId, segs: seq<Segment>): (d: Db)
    requires r in db.releases
  {
    db.(releases := db.releases[r := db.releases[r].(segments := segs)])
  }

  // A snapshot fixes the NZB of r to the answer the raw rows give now, and
  // leaves every other NZB alone; unless that answer is empty, no deletion can
  // touch it from then on.
  lemma SnapshotFixesNzb(db: Db, r: RelId, segs: seq<Segment>, q: RelId)
    requires r in db.releases && q in db.releases && FromParts(db, r, segs)
    ensures var d := Snapshot(db, r, segs);
      && (forall out :: Nzb(d, r, out) <==> out == segs)
      && (q != r ==> SameNzb(db, d, q))
      && (segs != [] ==> forall dead :: Spares(d, dead, r) && SameNzb(d, Without(d, dead), r))
  {
    var d := Snapshot(db, r, segs);
    if segs == [] && db.releases[r].binary.Some? {
      var b := db.releases[r].binary.value;
      AnswerLength(db.parts, b, segs);
      forall out | FromBinary(db.parts, b, out) ensures out == [] {
        AnswerLength(db.parts, b, out);
      }
    }
    if segs != [] {
      forall dead ensures SameNzb(d, Without(d, dead), r) {
        NzbUnchangedIff(d, dead, r);
      }
    }
  }

  // So it keeps the NZB of r, the first time and again, if and only if r lived
  // off its raw rows or they still say what was stored.
  lemma SnapshotKeepsNzbIff(db: Db, r: RelId, segs: seq<Segment>)
    requires r in db.releases && FromParts(db, r, segs)
    ensures (forall out :: Nzb(Snapshot(db, r, segs), r, out) ==> Nzb(db, r, out)) <==>
            db.releases[r].segments == [] || segs == db.releases[r].segments
  {
    SnapshotFixesNzb(db, r, segs, r);
    assert Nzb(Snapshot(db, r, segs), r, segs);
  }

  // After a finished prune the raw rows say nothing: a second snapshot of a
  // release whose parts were pruned empties its NZB.
  lemma SnapshotAfterPruneEmpties(db: Db, cutoff: int, r: RelId, segs: seq<Segment>)
    requires r in db.releases && db.releases[r].binary.Some? && Redundant(db, cutoff, db.releases[r].binary.value, r)
    requires FromParts(Without(db, Candidates(db, cutoff)), r, segs)
    ensures segs == [] && db.releases[r].segments != []
    ensures Nzb(Snapshot(Without(db, Candidates(db, cutoff)), r, segs), r, [])
  {
    var d := Without(db, Candidates(db, cutoff));
    var b := db.releases[r].binary.value;
    assert forall i :: i in db.parts && db.parts[i].binary == Some(b) ==> IsCandidate(db, cutoff, i);
    assert Source(d.parts, b) == {};
    AnswerLength(d.parts, b, segs);
    SnapshotFixesNzb(d, r, segs, r);
  }
}
