// The assembly statements as methods on the store, and the drain loop.
module Assembler {
  import opened Common
  import opened Tables
  import opened Assembly
  import Groups

  // The database's ordering of grouping keys; any strict total order will do.
  ghost predicate StrictOrder(before: (Key, Key) -> bool)
  {
    && (forall k :: !before(k, k))
    && (forall j, k, l :: before(j, k) && before(k, l) ==> before(j, l))
    && (forall j, k :: j != k ==> before(j, k) || before(k, j))
  }

  predicate IsFirst(before: (Key, Key) -> bool, keys: set<Key>, k: Key)
  {
    k in keys && forall j :: j in keys && j != k ==> before(k, j)
  }

  lemma {:induction false} FirstExists(before: (Key, Key) -> bool, keys: set<Key>) returns (k: Key)
    requires StrictOrder(before) && keys != {}
    ensures IsFirst(before, keys, k)
    decreases keys
  {
    k :| k in keys;
    if keys != {k} {
      var f := FirstExists(before, keys - {k});
      if before(f, k) {
        k := f;
      }
    }
  }

  // ks is the first Min(limit, |keys|) of the keys, in order.
  ghost predicate FirstInOrder(before: (Key, Key) -> bool, keys: set<Key>, limit: int, ks: seq<Key>)
  {
    && |ks| == Min(limit, |keys|)
    && (forall i :: 0 <= i < |ks| ==> ks[i] in keys)
    && (forall i, j :: 0 <= i < j < |ks| ==> before(ks[i], ks[j]))
    && (forall i, k :: 0 <= i < |ks| && k in keys && k !in ks ==> before(ks[i], k))
  }

  // The recursive skip-scan: repeatedly the least key after the previous one.
  method SkipScan(before: (Key, Key) -> bool, keys: set<Key>, limit: int) returns (ks: seq<Key>)
    requires StrictOrder(before) && limit > 0
    ensures FirstInOrder(before, keys, limit, ks)
  {
    ks := [];
    var rest := keys;
    while |ks| < limit && rest != {}
      invariant |ks| <= limit && |ks| + |rest| == |keys|
      invariant rest <= keys && forall i :: 0 <= i < |ks| ==> ks[i] in keys
      invariant forall k :: k in keys ==> (k in rest <==> k !in ks)
      invariant forall i, j :: 0 <= i < j < |ks| ==> before(ks[i], ks[j])
      invariant forall i, k :: 0 <= i < |ks| && k in rest ==> before(ks[i], k)
      decreases |rest|
    {
      var f := FirstExists(before, rest);
      var next :| next in rest && IsFirst(before, rest, next);
      ks := ks + [next];
      ghost var was := rest;
      rest := set k | k in rest && before(next, k);
      assert !before(next, next);
      assert IsFirst(before, was, next);
      assert forall k :: k in was && k != next ==> before(next, k);
      assert forall k :: k in was && k != next ==> k in rest;
      assert rest == was - {next};
    }
  }

  // GROUP BY over the selected rows of one key, one row at a time.
  method Aggregate(m: Parts, rows: set<PartId>) returns (a: Agg)
    requires rows <= m.Keys && rows != {}
    ensures IsAgg(m, rows, a)
  {
    var i :| i in rows;
    var done := {i};
    a := Agg(1, Files(m, {i}), Declared(m[i]), m[i].bytes, m[i].postedAt);
    SumPick(m, {i}, i);
    assert {i} - {i} == {};
    while done != rows
      invariant done <= rows && IsAgg(m, done, a)
      decreases rows - done
    {
      assert rows - done != {};
      var j :| j in rows - done;
      SumPick(m, done + {j}, j);
      assert done + {j} - {j} == done;
      assert Files(m, done + {j}) == Files(m, done) + Files(m, {j});
      MaxMerges(m, done, {j}, a.declared, Declared(m[j]));
      MinMerges(m, done, {j}, a.earliest, m[j].postedAt);
      a := Agg(a.rows + 1, a.files + Files(m, {j}), Max(a.declared, Declared(m[j])), a.bytes + m[j].bytes,
               Earlier(a.earliest, m[j].postedAt));
      done := done + {j};
    }
  }

  // Upsert the key's binary and link the rows to it.
  method FoldOne(st: Store, coll: bool, k: Key, rows: set<PartId>) returns (id: BinId, a: Agg)
    requires st.Valid()
    requires AreRowsOf(st.parts, coll, k, rows) && rows != {}
    modifies st
    ensures st.Valid() && (Sound(old(st.View())) ==> Sound(st.View()))
    ensures CanFold(old(st.View()), coll, k, rows, id, a)
    ensures st.View() == Fold(old(st.View()), coll, k, rows, id, a)
    ensures st.parts == Link(old(st.parts), rows, id) && st.releases == old(st.releases)
  {
    hide Sound, FoldKey, IsCollection;
    a := Aggregate(st.parts, rows);
    if b :| b in st.binaries && st.binaries[b].key == k {
      id := b;
    } else {
      id := st.nextBinary;
      st.nextBinary := st.nextBinary + 1;
    }
    if Sound(st.View()) {
      FoldKeepsSound(st.View(), coll, k, rows, id, a);
    }
    if id in st.binaries {
      st.binaries := st.binaries[id := Updated(st.binaries[id], a, coll)];
    } else {
      st.binaries := st.binaries[id := Inserted(k, a, coll)];
    }
    st.parts := Link(st.parts, rows, id);
  }

  // Parts only gain links: nothing else about them changes and no link is undone.
  ghost predicate OnlyLinks(m: Parts, n: Parts)
  {
    && SameFacts(m, n, m.Keys) && n.Keys == m.Keys
    && forall i :: i in m && m[i].binary.Some? ==> n[i].binary == m[i].binary
  }

  lemma LinkKeepsFacts(m: Parts, rows: set<PartId>, id: BinId)
    requires forall i :: i in rows && i in m ==> m[i].binary.None?
    ensures OnlyLinks(m, Link(m, rows, id))
    ensures forall i :: i in m ==> FoldKey(Link(m, rows, id)[i]) == FoldKey(m[i])
    ensures forall i :: i in m ==> IsCollection(Link(m, rows, id)[i]) == IsCollection(m[i])
    ensures forall i :: i in m ==> (Link(m, rows, id)[i].binary.None? <==> m[i].binary.None? && i !in rows)
  {
  }

  lemma LinkShrinksUnassigned(m: Parts, coll: bool, k: Key, rows: set<PartId>, id: BinId)
    requires AreRowsOf(m, coll, k, rows)
    ensures var n := Link(m, rows, id);
      && OnlyLinks(m, n)
      && Unassigned(n, coll) == Unassigned(m, coll) - rows && Unassigned(n, !coll) == Unassigned(m, !coll)
      && RowsOf(n, coll, k) == RowsOf(m, coll, k) - rows
  {
    LinkKeepsFacts(m, rows, id);
    hide Link, FoldKey, IsCollection;
  }

  lemma LinkKeepsOtherRows(m: Parts, coll: bool, k: Key, rows: set<PartId>, id: BinId, j: Key)
    requires AreRowsOf(m, coll, k, rows) && j != k
    ensures RowsOf(Link(m, rows, id), coll, j) == RowsOf(m, coll, j)
  {
    LinkKeepsFacts(m, rows, id);
    hide Link, FoldKey, IsCollection;
  }

  // At most 500 rows of the key were folded, and as many as possible.
  ghost predicate RowsTaken(m: Parts, n: Parts, coll: bool, k: Key)
  {
    && RowsOf(n, coll, k) <= RowsOf(m, coll, k)
    && |RowsOf(m, coll, k) - RowsOf(n, coll, k)| == Min(500, |RowsOf(m, coll, k)|)
  }

  lemma HasRows(m: Parts, coll: bool, k: Key)
    requires k in KeysOf(m, coll)
    ensures RowsOf(m, coll, k) != {}
  {
    var i :| i in Unassigned(m, coll) && FoldKey(m[i]).value == k;
    assert i in RowsOf(m, coll, k);
  }

  // How the part table n relates to m once the keys `ks` of one kind were
  // folded: parts only gained links, the other kind and the other keys are as
  // they were, and of each folded key the capped number of rows is gone.
  ghost predicate Folded(m: Parts, n: Parts, coll: bool, ks: seq<Key>)
  {
    && OnlyLinks(m, n)
    && Unassigned(n, !coll) == Unassigned(m, !coll) && Unassigned(n, coll) <= Unassigned(m, coll)
    && (forall k :: k in ks ==> RowsTaken(m, n, coll, k))
    && (forall k :: k !in ks ==> RowsOf(n, coll, k) == RowsOf(m, coll, k))
  }

  lemma FoldedNext(m: Parts, n: Parts, coll: bool, ks: seq<Key>, k: Key, rows: set<PartId>, id: BinId)
    requires Folded(m, n, coll, ks) && k !in ks
    requires rows <= RowsOf(n, coll, k) && |rows| == Min(ROWS_PER_KEY, |RowsOf(n, coll, k)|)
    ensures AreRowsOf(n, coll, k, rows)
    ensures Folded(m, Link(n, rows, id), coll, ks + [k])
  {
    hide Link, RowsOf, OnlyLinks, AreRowsOf, Unassigned;
    SomeRows(n, coll, k, rows);
    LinkShrinksUnassigned(n, coll, k, rows, id);
    var l := Link(n, rows, id);
    forall j | j != k ensures RowsOf(l, coll, j) == RowsOf(n, coll, j) {
      LinkKeepsOtherRows(n, coll, k, rows, id, j);
    }
    assert RowsOf(m, coll, k) - RowsOf(l, coll, k) == rows;
    LinksCompose(m, n, l);
  }

  lemma SomeRows(m: Parts, coll: bool, k: Key, rows: set<PartId>)
    requires rows <= RowsOf(m, coll, k)
    ensures AreRowsOf(m, coll, k, rows)
  {
  }

  lemma LinksCompose(m: Parts, n: Parts, l: Parts)
    requires OnlyLinks(m, n) && OnlyLinks(n, l)
    ensures OnlyLinks(m, l)
  {
  }

  lemma FoldedKeepsRows(m: Parts, n: Parts, coll: bool, ks: seq<Key>, k: Key)
    requires Folded(m, n, coll, ks) && k !in ks && k in KeysOf(m, coll)
    ensures RowsOf(n, coll, k) != {}
  {
    HasRows(m, coll, k);
  }

  // One statement: fold up to `limit` keys of one kind, at most ROWS_PER_KEY
  // rows of each. `ks` are the keys folded.
  method AssembleKind(st: Store, before: (Key, Key) -> bool, coll: bool, limit: int) returns (ks: seq<Key>)
    requires st.Valid() && StrictOrder(before) && limit > 0
    modifies st
    ensures st.Valid() && (Sound(old(st.View())) ==> Sound(st.View())) && st.releases == old(st.releases)
    ensures FirstInOrder(before, KeysOf(old(st.parts), coll), limit, ks)
    ensures Folded(old(st.parts), st.parts, coll, ks)
  {
    hide Sound, Folded, StrictOrder, Fold, CanFold, AreRowsOf, Link, FirstInOrder, KeysOf, RowsOf;
    ghost var m := st.parts;
    ks := SkipScan(before, KeysOf(st.parts, coll), limit);
    InOrderIsDistinct(before, KeysOf(st.parts, coll), limit, ks);
    NothingFolded(m, coll);
    var n := 0;
    while n < |ks|
      invariant n <= |ks|
      invariant st.Valid() && (Sound(old(st.View())) ==> Sound(st.View())) && st.releases == old(st.releases)
      invariant Folded(m, st.parts, coll, ks[..n])
    {
      var k := ks[n];
      assert ks[..n + 1] == ks[..n] + [k];
      FoldedKeepsRows(m, st.parts, coll, ks[..n], k);
      var rows := TakeUpTo(RowsOf(st.parts, coll, k), ROWS_PER_KEY);
      FoldedNext(m, st.parts, coll, ks[..n], k, rows, 0);
      ghost var was := st.parts;
      var id, a := FoldOne(st, coll, k, rows);
      FoldedNext(m, was, coll, ks[..n], k, rows, id);
      n := n + 1;
    }
    assert ks[..n] == ks;
  }

  lemma NothingFolded(m: Parts, coll: bool)
    ensures Folded(m, m, coll, [])
  {
  }

  lemma InOrderIsDistinct(before: (Key, Key) -> bool, keys: set<Key>, limit: int, ks: seq<Key>)
    requires StrictOrder(before) && FirstInOrder(before, keys, limit, ks)
    ensures forall i :: 0 <= i < |ks| ==> ks[i] !in ks[..i] && ks[i] in keys
  {
    forall i | 0 <= i < |ks| ensures ks[i] !in ks[..i] {
      forall j | 0 <= j < i ensures ks[j] != ks[i] {
        assert before(ks[j], ks[i]);
      }
    }
  }

  // ---- one batch ----

  lemma FoldedShrinks(m: Parts, n: Parts, coll: bool, ks: seq<Key>)
    requires Folded(m, n, coll, ks) && |ks| > 0 && ks[0] in KeysOf(m, coll)
    ensures Unassigned(n, coll) < Unassigned(m, coll)
  {
    var k := ks[0];
    HasRows(m, coll, k);
    assert RowsTaken(m, n, coll, k);
    var i :| i in RowsOf(m, coll, k) - RowsOf(n, coll, k);
    assert n[i] == m[i].(binary := n[i].binary);
    assert i in Unassigned(m, coll) && i !in Unassigned(n, coll);
  }

  lemma NothingToFold(m: Parts)
    ensures Drained(m) <==> Unassigned(m, true) == {} && Unassigned(m, false) == {}
  {
  }

  lemma NoKeysNoRows(m: Parts, coll: bool)
    ensures |KeysOf(m, coll)| == 0 <==> Unassigned(m, coll) == {}
  {
    if i :| i in Unassigned(m, coll) {
      assert FoldKey(m[i]).value in KeysOf(m, coll);
    }
  }

  lemma SameKeys(m: Parts, n: Parts, coll: bool)
    requires OnlyLinks(m, n) && Unassigned(m, coll) == Unassigned(n, coll)
    ensures KeysOf(m, coll) == KeysOf(n, coll)
  {
    assert forall i :: i in Unassigned(m, coll) ==> FoldKey(m[i]) == FoldKey(n[i]);
  }

  ghost function Backlog(m: Parts): (r: nat)
  {
    |Unassigned(m, true)| + |Unassigned(m, false)|
  }

  // Collections first, then single files, in one transaction.
  method AssembleBinaries(st: Store, before: (Key, Key) -> bool, limit: int) returns (touched: nat)
    requires st.Valid() && StrictOrder(before)
    modifies st
    ensures st.Valid() && (Sound(old(st.View())) ==> Sound(st.View())) && st.releases == old(st.releases)
    ensures OnlyLinks(old(st.parts), st.parts)
    ensures var l := if limit <= 0 then 500 else limit;
      touched == Min(l, |KeysOf(old(st.parts), true)|) + Min(l, |KeysOf(old(st.parts), false)|)
    ensures touched == 0 <==> Drained(old(st.parts))
    ensures touched == 0 <==>
      forall i :: i in old(st.parts) ==> var p := old(st.parts)[i];
        p.grouping.collectionKey != "" || (p.grouping.normSubject != "" && p.totalParts > 0) ==> p.binary.Some?
    ensures Backlog(st.parts) <= Backlog(old(st.parts))
    ensures touched > 0 ==> Backlog(st.parts) < Backlog(old(st.parts))
  {
    hide Sound, StrictOrder, Drained;
    var l := if limit <= 0 then DEFAULT_LIMIT else limit;
    ghost var m := st.parts;
    NothingToFold(m);
    Groups.DrainedIff(m);
    NoKeysNoRows(m, true);
    NoKeysNoRows(m, false);
    var colls := AssembleKind(st, before, true, l);
    ghost var n := st.parts;
    SameKeys(m, n, false);
    if |colls| > 0 {
      FoldedShrinks(m, n, true, colls);
    }
    var singles := AssembleKind(st, before, false, l);
    if |singles| > 0 {
      FoldedShrinks(n, st.parts, false, singles);
    }
    LinksCompose(m, n, st.parts);
    hide Unassigned, KeysOf, OnlyLinks;
    SubsetSize(Unassigned(n, true), Unassigned(m, true));
    SubsetSize(Unassigned(st.parts, false), Unassigned(n, false));
    touched := |colls| + |singles|;
  }

  // ---- deadlock retry and the drain loop ----

  // What the environment does to one attempt at a batch.
  datatype Fault = Fine | Deadlock | DeadlockThenCancelled | OtherError

  // A losing attempt rolls back whole. `attempts` is how many were made.
  method AssembleBatchWithRetry(st: Store, before: (Key, Key) -> bool, limit: int, fault: nat -> Fault, first: nat)
    returns (ok: bool, touched: nat, attempts: nat)
    requires st.Valid() && StrictOrder(before)
    modifies st
    ensures st.Valid() && (Sound(old(st.View())) ==> Sound(st.View()))
    ensures 1 <= attempts <= 4
    ensures forall i :: first <= i < first + attempts - 1 ==> fault(i).Deadlock?
    ensures ok <==> fault(first + attempts - 1).Fine?
    ensures !ok ==> st.View() == old(st.View())
    ensures !ok && attempts < 4 ==> !fault(first + attempts - 1).Deadlock?
    ensures ok ==> (touched == 0 <==> Drained(old(st.parts))) && (touched == 0 ==> Backlog(st.parts) == 0)
    ensures ok && touched > 0 ==> Backlog(st.parts) < Backlog(old(st.parts))
  {
    hide Sound, StrictOrder, OnlyLinks, KeysOf;
    attempts := 0;
    while attempts <= MAX_DEADLOCK_RETRIES
      invariant attempts <= MAX_DEADLOCK_RETRIES + 1
      invariant st.Valid() && st.View() == old(st.View())
      invariant forall i :: first <= i < first + attempts ==> fault(i).Deadlock?
    {
      var f := fault(first + attempts);
      attempts := attempts + 1;
      match f {
        case Fine =>
          touched := AssembleBinaries(st, before, limit);
          return true, touched, attempts;
        case Deadlock =>
        case DeadlockThenCancelled =>
          return false, 0, attempts;
        case OtherError =>
          return false, 0, attempts;
      }
    }
    return false, 0, attempts;
  }

  datatype Result = Result(binariesTouched: nat, batches: nat, drained: bool)

  // Fold until a batch touches nothing or the batch cap is reached (negative:
  // no cap). With no other writer this terminates, and an error-free
  // drained result means nothing is left to fold.
  method Drain(st: Store, before: (Key, Key) -> bool, limit: int, maxBatches: int, fault: nat -> Fault,
               cancelled: nat -> bool)
    returns (ok: bool, res: Result)
    requires st.Valid() && StrictOrder(before)
    requires maxBatches != 0  // the constructor replaces 0 by 200
    modifies st
    ensures st.Valid() && (Sound(old(st.View())) ==> Sound(st.View()))
    ensures ok && res.drained ==> Drained(st.parts)
    ensures ok && res.drained ==>
      forall i :: i in st.parts ==> var p := st.parts[i];
        p.grouping.collectionKey != "" || (p.grouping.normSubject != "" && p.totalParts > 0) ==> p.binary.Some?
    ensures ok && !res.drained ==> res.batches == maxBatches
    ensures ok && maxBatches < 0 ==> res.drained
    ensures res.batches <= Backlog(old(st.parts)) && (maxBatches > 0 ==> res.batches <= maxBatches)
  {
    hide Sound, StrictOrder;
    res := Result(0, 0, true);
    var i, used := 0, 0;
    while maxBatches < 0 || i < maxBatches
      invariant st.Valid() && (Sound(old(st.View())) ==> Sound(st.View()))
      invariant 0 <= i && (maxBatches > 0 ==> i <= maxBatches)
      invariant res.batches == i && i + Backlog(st.parts) <= Backlog(old(st.parts))
      invariant res.drained <==> maxBatches < 0 || i < maxBatches
      decreases Backlog(st.parts)
    {
      if cancelled(i) {
        return false, res;
      }
      var fine, touched, n := AssembleBatchWithRetry(st, before, limit, fault, used);
      used := used + n;
      if !fine {
        return false, res;
      }
      if touched == 0 {
        assert Drained(st.parts);
        break;
      }
      res := res.(binariesTouched := res.binariesTouched + touched, batches := res.batches + 1);
      if maxBatches >= 0 && i == maxBatches - 1 {
        res := res.(drained := false);
      }
      i := i + 1;
    }
    Groups.DrainedIff(st.parts);
    return true, res;
  }
}
