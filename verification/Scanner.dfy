// Header scanning: batched forward and backward walks over article numbers,
// resumable after any failure.
module Scanner {
  import opened Common

  datatype Overview = Overview(article: int, messageId: string, subject: string, from: string, date: Option<int>,
                               bytes: int)

  datatype Parsed = Parsed(partNumber: int, totalParts: int, normalized: string, collectionKey: string,
                           fileNumber: int, collectionFiles: int)

  type Parser = string -> Parsed

  datatype PartInput = PartInput(group: int, article: int, messageId: string, subject: string, poster: string,
                                 postedAt: Option<int>, bytes: int, parsed: Parsed)

  // The natural key of a part.
  datatype Slot = Slot(group: int, article: int)

  type Table = map<Slot, PartInput>

  // lastHigh and backLow are 0 until the first batch of their direction is saved.
  datatype Group = Group(id: int, lastHigh: int, backLow: int, backDone: bool)

  // Reported water marks: section 6.1.1 of RFC 3977. An empty group may report 0.
  datatype Info = Info(low: nat, high: nat)

  // ---- storing a batch ----

  function SlotOf(p: PartInput): (k: Slot)
  {
    Slot(p.group, p.article)
  }

  // A bulk insert: known keys are skipped, and of several new rows with one
  // key any one is kept.
  ghost predicate IsInsert(t: Table, ps: seq<PartInput>, u: Table)
  {
    && (forall k :: k in t ==> k in u && u[k] == t[k])
    && (forall i :: 0 <= i < |ps| ==> SlotOf(ps[i]) in u)
    && (forall k :: k in u && k !in t ==> exists i :: 0 <= i < |ps| && SlotOf(ps[i]) == k && u[k] == ps[i])
  }

  lemma InsertNothing(t: Table)
    ensures IsInsert(t, [], t)
  {
  }

  lemma InsertOneMore(t: Table, ps: seq<PartInput>, u: Table, p: PartInput)
    requires IsInsert(t, ps, u)
    ensures IsInsert(t, ps + [p], if SlotOf(p) in u then u else u[SlotOf(p) := p])
  {
    var w, all := if SlotOf(p) in u then u else u[SlotOf(p) := p], ps + [p];
    assert all[|ps|] == p;
    forall k | k in w && k !in t ensures exists i :: 0 <= i < |all| && SlotOf(all[i]) == k && w[k] == all[i] {
      if k in u {
        var i :| 0 <= i < |ps| && SlotOf(ps[i]) == k && u[k] == ps[i];
        assert all[i] == ps[i];
      } else {
        assert SlotOf(all[|ps|]) == k && w[k] == all[|ps|];
      }
    }
  }

  // Offering the same rows again, or any rows with known keys, adds nothing.
  lemma InsertIsIdempotent(t: Table, ps: seq<PartInput>, u: Table)
    requires IsInsert(t, ps, u) && forall i :: 0 <= i < |ps| ==> SlotOf(ps[i]) in t
    ensures u == t
  {
    assert forall k :: k in u ==> k in t;
  }

  function PartOf(group: int, parse: Parser, o: Overview): (p: PartInput)
  {
    PartInput(group, o.article, o.messageId, o.subject, o.from, o.date, o.bytes, parse(o.subject))
  }

  predicate HasUsable(o: Overview)
  {
    o.messageId != ""
  }

  // The oldest posting date among the usable overviews.
  ghost predicate IsOldest(ovs: seq<Overview>, d: Option<int>)
  {
    && (forall i :: 0 <= i < |ovs| && HasUsable(ovs[i]) && ovs[i].date.Some? ==>
          d.Some? && d.value <= ovs[i].date.value)
    && (d.Some? ==> exists i :: 0 <= i < |ovs| && HasUsable(ovs[i]) && ovs[i].date == d)
  }

  // Every usable overview of the answer is in the table.
  ghost predicate Stored(t: Table, group: int, ovs: seq<Overview>)
  {
    forall i :: 0 <= i < |ovs| && HasUsable(ovs[i]) ==> Slot(group, ovs[i].article) in t
  }

  ghost predicate Grows(t: Table, u: Table)
  {
    forall k :: k in t ==> k in u && u[k] == t[k]
  }

  // The rows u has beyond t come from usable overviews of the answer.
  ghost predicate NewFrom(t: Table, u: Table, group: int, parse: Parser, ovs: seq<Overview>)
  {
    forall k :: k in u && k !in t ==> Explained(k, u[k], group, parse, ovs)
  }

  ghost predicate Explained(k: Slot, p: PartInput, group: int, parse: Parser, ovs: seq<Overview>)
  {
    exists i :: 0 <= i < |ovs| && HasUsable(ovs[i])
      && k == Slot(group, ovs[i].article) && p == PartOf(group, parse, ovs[i])
  }

  // One Overview call; None when it failed.
  datatype Ask = Ask(begin: int, end: int, answer: Option<seq<Overview>>)

  class Repo {
    var group: Group
    var table: Table

    constructor (g: Group)
      ensures group == g && table == map[]
    {
      group, table := g, map[];
    }

    // Staging keeps one row per key; known keys are then skipped.
    method InsertParts(ps: seq<PartInput>) returns (inserted: nat)
      modifies this`table
      ensures IsInsert(old(table), ps, table)
      ensures inserted == |table| - |old(table)|
    {
      hide IsInsert;
      var next := table;
      inserted := 0;
      InsertNothing(table);
      for i := 0 to |ps|
        invariant table == old(table) && IsInsert(table, ps[..i], next) && inserted == |next| - |table|
      {
        assert ps[..i + 1] == ps[..i] + [ps[i]];
        InsertOneMore(table, ps[..i], next, ps[i]);
        if SlotOf(ps[i]) !in next {
          next := next[SlotOf(ps[i]) := ps[i]];
          inserted := inserted + 1;
        }
      }
      assert ps[..|ps|] == ps;
      table := next;
    }

    method UpdateForwardPosition(high: int)
      modifies this`group
      ensures group == old(group).(lastHigh := high)
    {
      group := group.(lastHigh := high);
    }

    method UpdateBackfillPosition(low: int, complete: bool)
      modifies this`group
      ensures group == old(group).(backLow := low, backDone := complete)
    {
      group := group.(backLow := low, backDone := complete);
    }

    // Convert an answer to rows and insert them, noting the oldest date.
    method Ingest(parse: Parser, ovs: seq<Overview>) returns (inserted: nat, oldest: Option<int>)
      modifies this`table
      ensures Grows(old(table), table)
      ensures Stored(table, group.id, ovs) && NewFrom(old(table), table, group.id, parse, ovs)
      ensures inserted == |table| - |old(table)| && IsOldest(ovs, oldest)
      ensures forall i :: 0 <= i < |ovs| && ovs[i].messageId != "" ==> Slot(group.id, ovs[i].article) in table
      ensures forall k :: k in table && k !in old(table) ==>
        exists i :: 0 <= i < |ovs| && ovs[i].messageId != "" && k == Slot(group.id, ovs[i].article)
          && var o := ovs[i];
             table[k] ==
             PartInput(group.id, o.article, o.messageId, o.subject, o.from, o.date, o.bytes, parse(o.subject))
      ensures oldest.None? <==> forall i :: 0 <= i < |ovs| && ovs[i].messageId != "" ==> ovs[i].date.None?
      ensures oldest.Some? ==>
        && (exists i :: 0 <= i < |ovs| && ovs[i].messageId != "" && ovs[i].date == oldest)
        && (forall i :: 0 <= i < |ovs| && ovs[i].messageId != "" && ovs[i].date.Some? ==>
              oldest.value <= ovs[i].date.value)
    {
      hide Explained, IsOldest, IsInsert, Grows, Stored, NewFrom;
      var ps := [];
      oldest := None;
      NoOldest();
      for i := 0 to |ovs|
        invariant table == old(table) && IsOldest(ovs[..i], oldest)
        invariant forall j :: 0 <= j < i && HasUsable(ovs[j]) ==> PartOf(group.id, parse, ovs[j]) in ps
        invariant forall j :: 0 <= j < |ps| ==> Explained(SlotOf(ps[j]), ps[j], group.id, parse, ovs)
      {
        var o := ovs[i];
        assert ovs[..i + 1] == ovs[..i] + [o];
        OldestNext(ovs[..i], oldest, o);
        if HasUsable(o) {
          IsExplained(group.id, parse, ovs, i);
          oldest := OlderOf(oldest, o.date);
          ps := ps + [PartOf(group.id, parse, o)];
        }
      }
      assert ovs[..|ovs|] == ovs;
      inserted := InsertParts(ps);
      StoredAll(old(table), ps, table, group.id, parse, ovs);
      StoredMeans(old(table), table, group.id, parse, ovs);
      OldestMeans(ovs, oldest);
    }
  }

  // Usable means having a message-id; a row is its overview, parsed.
  lemma StoredMeans(t: Table, u: Table, group: int, parse: Parser, ovs: seq<Overview>)
    requires Stored(u, group, ovs) && NewFrom(t, u, group, parse, ovs)
    ensures forall i :: 0 <= i < |ovs| && ovs[i].messageId != "" ==> Slot(group, ovs[i].article) in u
    ensures forall k :: k in u && k !in t ==>
      exists i :: 0 <= i < |ovs| && ovs[i].messageId != "" && k == Slot(group, ovs[i].article)
        && var o := ovs[i];
           u[k] == PartInput(group, o.article, o.messageId, o.subject, o.from, o.date, o.bytes, parse(o.subject))
  {
    forall k | k in u && k !in t
      ensures exists i ::
        && 0 <= i < |ovs| && ovs[i].messageId != "" && k == Slot(group, ovs[i].article)
        && var o := ovs[i];
           u[k] == PartInput(group, o.article, o.messageId, o.subject, o.from, o.date, o.bytes, parse(o.subject))
    {
      assert Explained(k, u[k], group, parse, ovs);
    }
  }

  lemma OldestMeans(ovs: seq<Overview>, d: Option<int>)
    requires IsOldest(ovs, d)
    ensures d.None? <==> forall i :: 0 <= i < |ovs| && ovs[i].messageId != "" ==> ovs[i].date.None?
    ensures d.Some? ==>
      && (exists i :: 0 <= i < |ovs| && ovs[i].messageId != "" && ovs[i].date == d)
      && (forall i :: 0 <= i < |ovs| && ovs[i].messageId != "" && ovs[i].date.Some? ==> d.value <= ovs[i].date.value)
  {
  }

  function OlderOf(a: Option<int>, b: Option<int>): (r: Option<int>)
  {
    if b.None? then a else if a.None? || b.value < a.value then b else a
  }

  lemma NoOldest()
    ensures IsOldest([], None)
  {
  }

  lemma IsExplained(group: int, parse: Parser, ovs: seq<Overview>, i: nat)
    requires i < |ovs| && HasUsable(ovs[i])
    ensures var p := PartOf(group, parse, ovs[i]); Explained(SlotOf(p), p, group, parse, ovs)
  {
  }

  lemma OldestNext(ovs: seq<Overview>, d: Option<int>, o: Overview)
    requires IsOldest(ovs, d)
    ensures IsOldest(ovs + [o], if HasUsable(o) then OlderOf(d, o.date) else d)
  {
    var all := ovs + [o];
    assert all[|ovs|] == o;
    if d.Some? {
      var i :| 0 <= i < |ovs| && HasUsable(ovs[i]) && ovs[i].date == d;
      assert all[i] == ovs[i];
    }
  }

  lemma StoredAll(t: Table, ps: seq<PartInput>, u: Table, group: int, parse: Parser, ovs: seq<Overview>)
    requires IsInsert(t, ps, u)
    requires forall j :: 0 <= j < |ovs| && HasUsable(ovs[j]) ==> PartOf(group, parse, ovs[j]) in ps
    requires forall j :: 0 <= j < |ps| ==> Explained(SlotOf(ps[j]), ps[j], group, parse, ovs)
    ensures Grows(t, u) && Stored(u, group, ovs) && NewFrom(t, u, group, parse, ovs)
  {
    hide Explained;
    forall j | 0 <= j < |ovs| && HasUsable(ovs[j])
      ensures Slot(group, ovs[j].article) in u
    {
      var i :| 0 <= i < |ps| && ps[i] == PartOf(group, parse, ovs[j]);
      assert SlotOf(ps[i]) in u;
    }
  }

  // ---- tilings ----

  ghost function Top(asks: seq<Ask>, was: int): (n: int)
  {
    if asks == [] then was else asks[|asks| - 1].end
  }

  ghost function Bottom(asks: seq<Ask>, was: int): (n: int)
  {
    if asks == [] then was else asks[|asks| - 1].begin
  }

  // Consecutive ranges upward from `from`, none longer than `size`.
  ghost predicate TilesUp(asks: seq<Ask>, from: int, size: nat)
  {
    asks != [] ==>
      var last, rest := asks[|asks| - 1], asks[..|asks| - 1];
      && TilesUp(rest, from, size)
      && last.begin == Top(rest, from - 1) + 1
      && last.begin <= last.end < last.begin + size
  }

  // Consecutive ranges downward from `from`, none longer than `size`.
  ghost predicate TilesDown(asks: seq<Ask>, from: int, size: nat)
  {
    asks != [] ==>
      var last, rest := asks[|asks| - 1], asks[..|asks| - 1];
      && TilesDown(rest, from, size)
      && last.end == Bottom(rest, from + 1) - 1
      && last.begin <= last.end < last.begin + size
  }

  ghost predicate Within(asks: seq<Ask>, lo: int, hi: int)
  {
    forall i :: 0 <= i < |asks| ==> lo <= asks[i].begin <= asks[i].end <= hi
  }

  ghost predicate Disjoint(asks: seq<Ask>)
  {
    forall i, j :: 0 <= i < j < |asks| ==> asks[i].end < asks[j].begin || asks[j].end < asks[i].begin
  }

  ghost predicate Hits(asks: seq<Ask>, a: int)
  {
    exists i :: 0 <= i < |asks| && asks[i].begin <= a <= asks[i].end
  }

  // A tiling has no overlap and no gap: it hits exactly the numbers of its range.
  lemma {:induction false} UpExact(asks: seq<Ask>, from: int, size: nat)
    requires TilesUp(asks, from, size)
    ensures Within(asks, from, Top(asks, from - 1)) && from - 1 <= Top(asks, from - 1)
    ensures Disjoint(asks)
    ensures forall a :: from <= a <= Top(asks, from - 1) <==> Hits(asks, a)
    decreases |asks|
  {
    if asks != [] {
      UpExact(asks[..|asks| - 1], from, size);
      HitsNext(asks);
    }
  }

  lemma {:induction false} DownExact(asks: seq<Ask>, from: int, size: nat)
    requires TilesDown(asks, from, size)
    ensures Within(asks, Bottom(asks, from + 1), from) && Bottom(asks, from + 1) <= from + 1
    ensures Disjoint(asks)
    ensures forall a :: Bottom(asks, from + 1) <= a <= from <==> Hits(asks, a)
    decreases |asks|
  {
    if asks != [] {
      DownExact(asks[..|asks| - 1], from, size);
      HitsNext(asks);
    }
  }

  lemma HitsNext(asks: seq<Ask>)
    requires asks != []
    ensures forall a :: Hits(asks, a) <==>
      Hits(asks[..|asks| - 1], a) || asks[|asks| - 1].begin <= a <= asks[|asks| - 1].end
  {
    var n := |asks| - 1;
    forall a
      ensures Hits(asks, a) <==> Hits(asks[..n], a) || asks[n].begin <= a <= asks[n].end
    {
      if Hits(asks[..n], a) {
        var i :| 0 <= i < n && asks[..n][i].begin <= a <= asks[..n][i].end;
        assert asks[i].begin <= a <= asks[i].end;
      }
      if Hits(asks, a) {
        var i :| 0 <= i < |asks| && asks[i].begin <= a <= asks[i].end;
        assert i < n ==> asks[..n][i] == asks[i];
      }
    }
  }

  // A tiling continued where it stopped is a tiling.
  lemma {:induction false} DownJoin(asks: seq<Ask>, from: int, more: seq<Ask>, size: nat)
    requires TilesDown(asks, from, size) && TilesDown(more, Bottom(asks, from + 1) - 1, size)
    ensures TilesDown(asks + more, from, size)
    ensures Bottom(asks + more, from + 1) == Bottom(more, Bottom(asks, from + 1))
    decreases |more|
  {
    if more == [] {
      assert asks + more == asks;
    } else {
      DownJoin(asks, from, more[..|more| - 1], size);
      assert (asks + more)[..|asks + more| - 1] == asks + more[..|more| - 1];
    }
  }

  // ---- what a pass may do ----

  // u is t plus rows from the answers; the first `kept` answers are stored whole.
  ghost predicate Saves(t: Table, u: Table, group: int, parse: Parser, asks: seq<Ask>, kept: nat)
  {
    && Grows(t, u) && kept <= |asks|
    && (forall i :: 0 <= i < kept ==> asks[i].answer.Some? && Stored(u, group, asks[i].answer.value))
    && (forall k :: k in u && k !in t ==> Offered(k, u[k], group, parse, asks))
  }

  ghost predicate Offered(k: Slot, p: PartInput, group: int, parse: Parser, asks: seq<Ask>)
  {
    exists i :: 0 <= i < |asks| && asks[i].answer.Some? && Explained(k, p, group, parse, asks[i].answer.value)
  }

  lemma SavesNothing(t: Table, group: int, parse: Parser)
    ensures Saves(t, t, group, parse, [], 0)
  {
  }

  lemma SavesMore(t: Table, u: Table, w: Table, group: int, parse: Parser, asks: seq<Ask>, a: Ask)
    requires Saves(t, u, group, parse, asks, |asks|) && Grows(u, w)
    requires
      if a.answer.Some? && u != w then Stored(w, group, a.answer.value) && NewFrom(u, w, group, parse, a.answer.value)
      else u == w
    ensures Saves(t, w, group, parse, asks + [a], |asks|)
    ensures a.answer.Some? && Stored(w, group, a.answer.value) ==> Saves(t, w, group, parse, asks + [a], |asks| + 1)
  {
    hide Explained;
    var all := asks + [a];
    assert all[|asks|] == a && forall i :: 0 <= i < |asks| ==> all[i] == asks[i];
    forall k | k in w && k !in t
      ensures Offered(k, w[k], group, parse, all)
    {
      if k in u {
        var i :| 0 <= i < |asks| && asks[i].answer.Some? && Explained(k, u[k], group, parse, asks[i].answer.value);
        assert all[i].answer.Some?;
      } else {
        assert Explained(k, w[k], group, parse, all[|asks|].answer.value);
      }
    }
  }

  // The effective cap of a pass; not positive means none.
  function Effective(global: int, group: Option<int>): (cap: int)
  {
    if group.Some? then group.value else global
  }

  function ForwardStart(g: Group, info: Info): (n: int)
    ensures n >= info.low && (g.lastHigh > 0 ==> n > g.lastHigh)
  {
    if g.lastHigh == 0 then info.low else Max(g.lastHigh + 1, info.low)
  }

  function ForwardEnd(g: Group, info: Info, cap: int): (n: int)
    ensures n <= info.high && (cap > 0 ==> n - ForwardStart(g, info) + 1 <= cap)
    ensures ForwardStart(g, info) <= info.high ==> ForwardStart(g, info) <= n
  {
    if cap > 0 then Min(ForwardStart(g, info) + cap - 1, info.high) else info.high
  }

  function BackStart(g: Group, info: Info): (n: int)
  {
    if g.backLow == 0 then info.high else g.backLow - 1
  }

  function BackEnd(g: Group, info: Info, cap: int): (n: int)
    ensures n >= info.low && (cap > 0 ==> BackStart(g, info) - n + 1 <= cap)
    ensures BackStart(g, info) >= info.low ==> BackStart(g, info) >= n
  {
    if cap > 0 then Max(BackStart(g, info) - cap + 1, info.low) else info.low
  }

  // An answer holding a usable article older than the cutoff.
  ghost predicate TooOld(a: Ask, cutoff: Option<int>)
  {
    && cutoff.Some? && a.answer.Some?
    && exists i :: 0 <= i < |a.answer.value| && HasUsable(a.answer.value[i]) && a.answer.value[i].date.Some?
         && a.answer.value[i].date.value < cutoff.value
  }

  // A pass over one group: the Overview calls it made, and how many of those
  // ranges it also recorded as done.
  datatype Pass = Forward(info: Info, size: nat, cap: int, asks: seq<Ask>, kept: nat)
                | Backward(info: Info, size: nat, cap: int, cutoff: Option<int>, asks: seq<Ask>, kept: nat)

  ghost predicate ForwardMoves(g: Group, h: Group, p: Pass)
    requires p.Forward?
  {
    var from := ForwardStart(g, p.info);
    && p.kept <= |p.asks| <= p.kept + 1
    && TilesUp(p.asks, from, p.size)
    && Top(p.asks, from - 1) <= Max(from - 1, ForwardEnd(g, p.info, p.cap))
    && h == g.(lastHigh := Top(p.asks[..p.kept], g.lastHigh))
  }

  ghost predicate BackwardMoves(g: Group, h: Group, p: Pass)
    requires p.Backward?
  {
    var from := BackStart(g, p.info);
    && p.kept <= |p.asks| <= p.kept + 1
    && TilesDown(p.asks, from, p.size)
    && Bottom(p.asks, from + 1) >= Min(from + 1, BackEnd(g, p.info, p.cap))
    && (g.backDone ==> p.asks == [] && h == g)
    && h.id == g.id && h.lastHigh == g.lastHigh
    && (from >= p.info.low ==> h.backLow == Bottom(p.asks[..p.kept], g.backLow))
    && (from < p.info.low ==> p.asks == [] && (h == g || (h.backLow == p.info.low && h.backDone)))
    && (h.backDone && !g.backDone ==> h.backLow <= p.info.low || (p.kept > 0 && TooOld(p.asks[p.kept - 1], p.cutoff)))
  }

  // ---- the passes ----

  const DEFAULT_BATCH := 10000

  function BatchSize(n: int): (size: nat)
    ensures size > 0
  {
    if n <= 0 then DEFAULT_BATCH else n
  }

  // What the environment does to one batch of a pass.
  datatype Reply =
    | Cancelled
    | OverviewFails
    | InsertFails(ovs: seq<Overview>)
    | SaveFails(ovs: seq<Overview>)
    | Fine(ovs: seq<Overview>)

  type Source = (int, int) -> Reply

  // Fetch and store one range. `got` is None when the batch failed outright.
  method FetchRange(repo: Repo, parse: Parser, begin: int, end: int, r: Reply, ghost t: Table, ghost asks: seq<Ask>)
    returns (got: bool, inserted: nat, oldest: Option<int>, ghost a: Ask)
    requires !r.Cancelled? && Saves(t, repo.table, repo.group.id, parse, asks, |asks|)
    modifies repo`table
    ensures a.begin == begin && a.end == end
    ensures got <==> r.SaveFails? || r.Fine?
    ensures Saves(t, repo.table, repo.group.id, parse, asks + [a], if got then |asks| + 1 else |asks|)
    ensures got ==> a.answer.Some? && IsOldest(a.answer.value, oldest)
    ensures inserted == |repo.table| - |old(repo.table)|
  {
    hide Saves, IsOldest, Stored, NewFrom, Grows;
    inserted, oldest := 0, None;
    ghost var u := repo.table;
    GrowsSelf(u);
    match r {
      case OverviewFails =>
        a, got := Ask(begin, end, None), false;
        SavesMore(t, u, u, repo.group.id, parse, asks, a);
      case InsertFails(ovs) =>
        a, got := Ask(begin, end, Some(ovs)), false;
        SavesMore(t, u, u, repo.group.id, parse, asks, a);
      case SaveFails(ovs) =>
        a, got := Ask(begin, end, Some(ovs)), true;
        inserted, oldest := repo.Ingest(parse, ovs);
        SavesMore(t, u, repo.table, repo.group.id, parse, asks, a);
      case Fine(ovs) =>
        a, got := Ask(begin, end, Some(ovs)), true;
        inserted, oldest := repo.Ingest(parse, ovs);
        SavesMore(t, u, repo.table, repo.group.id, parse, asks, a);
    }
  }

  lemma GrowsSelf(t: Table)
    ensures Grows(t, t)
  {
  }

  // From the stored high-water mark up to the server's, or as far as the cap allows.
  method ScanForward(repo: Repo, parse: Parser, info: Info, batch: int, global: int, perGroup: Option<int>, src: Source)
    returns (ok: bool, inserted: nat, ghost p: Pass)
    modifies repo
    ensures p == Forward(info, BatchSize(batch), Effective(global, perGroup), p.asks, p.kept)
    ensures ForwardMoves(old(repo.group), repo.group, p)
    ensures Saves(old(repo.table), repo.table, repo.group.id, parse, p.asks, p.kept)
    ensures inserted == |repo.table| - |old(repo.table)|
    ensures ok ==> p.kept == |p.asks|
    ensures p.size == (if batch <= 0 then 10000 else batch)
    ensures p.cap == if perGroup.Some? then perGroup.value else global
    // It starts just above the watermark, or at the server's low mark, and
    // nothing stops an error-free pass but the server's high mark or the cap.
    ensures var was := old(repo.group).lastHigh;
      var start := if was == 0 then info.low else Max(was + 1, info.low);
      && (p.asks != [] ==> p.asks[0].begin == start)
      && (start > info.high ==> p.asks == [] && repo.group == old(repo.group))
      && (ok && start <= info.high ==>
            repo.group.lastHigh == info.high || (p.cap > 0 && Articles(p.asks) == p.cap))
    ensures FullBatches(p.asks, p.size)
    ensures (forall i, j :: src(i, j).Fine?) ==> ok
  {
    hide Saves, TilesUp, Top, ForwardStart, ForwardEnd, BatchSize, Effective, ForwardMoves, FullBatches, Articles;
    var size, cap := BatchSize(batch), Effective(global, perGroup);
    ghost var g := repo.group;
    var start, scanTo := ForwardStart(repo.group, info), ForwardEnd(repo.group, info, cap);
    ghost var asks, extra;
    ok, inserted, asks, extra := WalkUp(repo, parse, start, scanTo, size, src);
    p := Forward(info, size, cap, asks + extra, |asks|);
    assert p.asks[..p.kept] == asks;
    ForwardMoved(g, repo.group, p);
    TopOf(asks, start - 1, g.lastHigh);
    GoesFar(g, repo.group, p, ok);
    Defaults(batch, global, perGroup);
  }

  // The batch loop of a forward pass over [start, scanTo]. `extra` is the batch
  // that stopped it, if one did.
  method WalkUp(repo: Repo, parse: Parser, start: int, scanTo: int, size: nat, src: Source)
    returns (ok: bool, inserted: nat, ghost asks: seq<Ask>, ghost extra: seq<Ask>)
    requires size > 0
    modifies repo
    ensures |extra| <= 1 && TilesUp(asks + extra, start, size)
    ensures Top(asks + extra, start - 1) <= Max(start - 1, scanTo)
    ensures repo.group == old(repo.group).(lastHigh := Top(asks, old(repo.group).lastHigh))
    ensures Saves(old(repo.table), repo.table, repo.group.id, parse, asks + extra, |asks|)
    ensures inserted == |repo.table| - |old(repo.table)|
    ensures ok ==> extra == [] && Top(asks, start - 1) == Max(start - 1, scanTo)
    ensures FullBatches(asks + extra, size)
    ensures (forall i, j :: src(i, j).Fine?) ==> ok
  {
    hide Saves, TilesUp, Top, FullBatches;
    ghost var g, t := repo.group, repo.table;
    asks, extra := [], [];
    inserted, ok := 0, true;
    SavesNothing(t, g.id, parse);
    TilesUpNone(start, size);
    FullNone(size);
    var begin := start;
    ghost var top := start - 1;
    while begin <= scanTo
      invariant ok && extra == [] && asks + extra == asks
      invariant TilesUp(asks, start, size) && top == Top(asks, start - 1)
      invariant begin == top + 1 <= Max(start, scanTo + 1) || begin > scanTo == top >= start
      invariant repo.group == g.(lastHigh := Top(asks, g.lastHigh))
      invariant Saves(t, repo.table, g.id, parse, asks, |asks|) && inserted == |repo.table| - |t|
      invariant FullBatches(asks, size)
      invariant begin <= scanTo && asks != [] ==> asks[|asks| - 1].end - asks[|asks| - 1].begin + 1 == size
      decreases scanTo - begin
    {
      var end := Min(begin + size - 1, scanTo);
      var r := src(begin, end);
      if r.Cancelled? {
        ok := false;
        return;
      }
      var got, n, oldest, a := FetchRange(repo, parse, begin, end, r, t, asks);
      TilesUpNext(asks, start, size, a);
      FullNext(asks, size, a);
      inserted := inserted + n;
      if !got || r.SaveFails? {
        ok, extra := false, [a];
        SavesLess(t, repo.table, g.id, parse, asks, a);
        return;
      }
      repo.UpdateForwardPosition(end);
      asks, top := asks + [a], end;
      assert asks + extra == asks;
      begin := begin + size;
    }
  }

  lemma TopOf(asks: seq<Ask>, was: int, other: int)
    ensures asks != [] ==> Top(asks, was) == Top(asks, other)
    ensures asks == [] ==> Top(asks, was) == was
  {
  }

  // All batches but the last have the full size.
  ghost predicate FullBatches(asks: seq<Ask>, size: nat)
  {
    forall i :: 0 <= i < |asks| - 1 ==> asks[i].end - asks[i].begin + 1 == size
  }

  lemma FullNone(size: nat)
    ensures FullBatches([], size)
  {
  }

  lemma FullNext(asks: seq<Ask>, size: nat, a: Ask)
    requires FullBatches(asks, size)
    requires asks != [] ==> asks[|asks| - 1].end - asks[|asks| - 1].begin + 1 == size
    ensures FullBatches(asks + [a], size)
  {
  }

  lemma Defaults(batch: int, global: int, perGroup: Option<int>)
    ensures BatchSize(batch) == if batch <= 0 then 10000 else batch
    ensures Effective(global, perGroup) == if perGroup.Some? then perGroup.value else global
  {
  }

  lemma GoesFar(g: Group, h: Group, p: Pass, ok: bool)
    requires p.Forward? && ForwardMoves(g, h, p) && (ok ==> p.kept == |p.asks|)
    requires ok && ForwardStart(g, p.info) <= p.info.high ==> h.lastHigh == ForwardEnd(g, p.info, p.cap) && p.asks != []
    ensures var start := if g.lastHigh == 0 then p.info.low else Max(g.lastHigh + 1, p.info.low);
      && (p.asks != [] ==> p.asks[0].begin == start)
      && (start > p.info.high ==> p.asks == [] && h == g)
      && (ok && start <= p.info.high ==>
            h.lastHigh == p.info.high || (p.cap > 0 && Articles(p.asks) == p.cap))
  {
    var from := ForwardStart(g, p.info);
    UpLength(p.asks, from, p.size);
    UpExact(p.asks, from, p.size);
    if p.asks != [] {
      FirstBegin(p.asks, from, p.size);
    }
    assert ok ==> p.asks[..p.kept] == p.asks;
    assert p.asks == [] ==> p.asks[..p.kept] == [];
  }

  lemma {:induction false} FirstBegin(asks: seq<Ask>, from: int, size: nat)
    requires TilesUp(asks, from, size) && asks != []
    ensures asks[0].begin == from
    decreases |asks|
  {
    if |asks| > 1 {
      FirstBegin(asks[..|asks| - 1], from, size);
    } else {
      assert asks[..0] == [];
    }
  }

  lemma ForwardMoved(g: Group, h: Group, p: Pass)
    requires p.Forward? && p.kept <= |p.asks| <= p.kept + 1
    requires TilesUp(p.asks, ForwardStart(g, p.info), p.size)
    requires Top(p.asks, ForwardStart(g, p.info) - 1) <= Max(ForwardStart(g, p.info) - 1, ForwardEnd(g, p.info, p.cap))
    requires h == g.(lastHigh := Top(p.asks[..p.kept], g.lastHigh))
    ensures ForwardMoves(g, h, p)
  {
  }

  lemma TilesUpNone(from: int, size: nat)
    ensures TilesUp([], from, size) && forall was :: Top([], was) == was
  {
  }

  lemma TilesUpNext(asks: seq<Ask>, from: int, size: nat, a: Ask)
    requires TilesUp(asks, from, size) && a.begin == Top(asks, from - 1) + 1 && a.begin <= a.end < a.begin + size
    ensures TilesUp(asks + [a], from, size) && forall was :: Top(asks + [a], was) == a.end
  {
    assert (asks + [a])[..|asks|] == asks;
  }

  lemma SavesLess(t: Table, u: Table, group: int, parse: Parser, asks: seq<Ask>, a: Ask)
    requires Saves(t, u, group, parse, asks + [a], |asks|) || Saves(t, u, group, parse, asks + [a], |asks| + 1)
    ensures Saves(t, u, group, parse, asks + [a], |asks|)
  {
  }

  // The batch loop of a backfill pass over [target, upper]. `extra` is the
  // batch that stopped it, if one did.
  method WalkDown(repo: Repo, parse: Parser, upper: int, target: int, size: nat, cutoff: Option<int>, src: Source)
    returns (ok: bool, inserted: nat, newLow: int, reachedCutoff: bool, ghost asks: seq<Ask>, ghost extra: seq<Ask>)
    requires target <= upper && size > 0
    modifies repo
    ensures |extra| <= 1 && TilesDown(asks + extra, upper, size) && target <= Bottom(asks + extra, upper + 1)
    ensures repo.group == old(repo.group).(backLow := Bottom(asks, old(repo.group).backLow),
                                           backDone := asks == [] && old(repo.group).backDone)
    ensures Saves(old(repo.table), repo.table, repo.group.id, parse, asks + extra, |asks|)
    ensures inserted == |repo.table| - |old(repo.table)|
    ensures ok ==> extra == [] && asks != [] && newLow == Bottom(asks, upper + 1)
    ensures ok ==> (reachedCutoff <==> TooOld(asks[|asks| - 1], cutoff)) && (newLow == target || reachedCutoff)
    ensures FullBatches(asks + extra, size)
    ensures (forall i, j :: src(i, j).Fine?) ==> ok
  {
    hide Saves, TilesDown, TooOld, IsOldest, Bottom, FullBatches;
    ghost var g, t := repo.group, repo.table;
    asks, extra := [], [];
    inserted, ok := 0, true;
    newLow, reachedCutoff := upper + 1, false;
    var end := upper;
    SavesNothing(t, g.id, parse);
    TilesDownNone(upper, size);
    FullNone(size);
    while end >= target
      invariant FullBatches(asks, size)
      invariant asks != [] ==> asks[|asks| - 1].end - asks[|asks| - 1].begin + 1 == size
      invariant ok && extra == [] && asks + extra == asks && !reachedCutoff
      invariant TilesDown(asks, upper, size) && newLow == Bottom(asks, upper + 1) >= target
      invariant end == newLow - 1 && (asks == [] ==> end == upper)
      invariant repo.group == g.(backLow := Bottom(asks, g.backLow), backDone := asks == [] && g.backDone)
      invariant Saves(t, repo.table, g.id, parse, asks, |asks|) && inserted == |repo.table| - |t|
      invariant asks != [] ==> !TooOld(asks[|asks| - 1], cutoff)
      decreases end - target
    {
      var begin := Max(end - size + 1, target);
      var r := src(begin, end);
      if r.Cancelled? {
        ok := false;
        return;
      }
      var got, n, oldest, a := FetchRange(repo, parse, begin, end, r, t, asks);
      TilesDownNext(asks, upper, size, a);
      FullNext(asks, size, a);
      inserted := inserted + n;
      if !got || r.SaveFails? {
        ok, extra := false, [a];
        SavesLess(t, repo.table, g.id, parse, asks, a);
        return;
      }
      newLow := begin;
      repo.UpdateBackfillPosition(begin, false);
      asks := asks + [a];
      assert asks + extra == asks;
      OldestDecides(a, cutoff, oldest);
      if cutoff.Some? && oldest.Some? && oldest.value < cutoff.value {
        reachedCutoff := true;
        return;
      }
      if begin == target {
        return;
      }
      end := end - size;
    }
  }

  // From the backfill watermark down to the server's low, the cap or the cutoff.
  method ScanBackfill(repo: Repo, parse: Parser, info: Info, batch: int, global: int, perGroup: Option<int>,
                      cutoff: Option<int>, src: Source, finalSaveFails: bool)
    returns (ok: bool, inserted: nat, ghost p: Pass)
    modifies repo
    ensures p == Backward(info, BatchSize(batch), Effective(global, perGroup), cutoff, p.asks, p.kept)
    ensures BackwardMoves(old(repo.group), repo.group, p)
    ensures Saves(old(repo.table), repo.table, repo.group.id, parse, p.asks, p.kept)
    ensures inserted == |repo.table| - |old(repo.table)|
    ensures ok && !old(repo.group).backDone ==>
      (repo.group.backDone <==> repo.group.backLow <= info.low || (p.kept > 0 && TooOld(p.asks[p.kept - 1], cutoff)))
    ensures p.size == (if batch <= 0 then 10000 else batch)
    ensures p.cap == if perGroup.Some? then perGroup.value else global
    // It starts just below the stored position, or at the server's high mark,
    // and nothing stops an error-free pass but the server's low mark, the cap
    // or the cutoff.
    ensures var start := if old(repo.group).backLow == 0 then info.high else old(repo.group).backLow - 1;
      && (p.asks != [] ==> p.asks[0].end == start && !old(repo.group).backDone)
      && (ok && !old(repo.group).backDone && start < info.low ==>
            p.asks == [] && repo.group == old(repo.group).(backLow := info.low, backDone := true))
      && (ok && !old(repo.group).backDone && start >= info.low ==>
            || repo.group.backLow == info.low || (p.cap > 0 && Articles(p.asks) == p.cap)
            || (p.kept > 0 && TooOld(p.asks[p.kept - 1], cutoff)))
    ensures FullBatches(p.asks, p.size)
    ensures (forall i, j :: src(i, j).Fine?) && !finalSaveFails ==> ok
  {
    hide Saves, TilesDown, TooOld, BackStart, BackEnd, BatchSize, Effective, FullBatches, Articles;
    Defaults(batch, global, perGroup);
    BackBounds(repo.group, info, Effective(global, perGroup));
    FullNone(BatchSize(batch));
    var size, cap := BatchSize(batch), Effective(global, perGroup);
    p := Backward(info, size, cap, cutoff, [], 0);
    SavesNothing(repo.table, repo.group.id, parse);
    inserted, ok := 0, true;
    var upper, target := BackStart(repo.group, info), BackEnd(repo.group, info, cap);
    TilesDownNone(upper, size);
    if repo.group.backDone {
      return;
    }
    if upper < info.low {
      if finalSaveFails {
        ok := false;
      } else {
        repo.UpdateBackfillPosition(info.low, true);
      }
      return;
    }
    var fine, n, newLow, reachedCutoff, asks, extra := WalkDown(repo, parse, upper, target, size, cutoff, src);
    p := Backward(info, size, cap, cutoff, asks + extra, |asks|);
    assert p.asks[..p.kept] == asks;
    inserted := n;
    DownStarts(p.asks, upper, size);
    if !fine || finalSaveFails {
      ok := false;
      return;
    }
    repo.UpdateBackfillPosition(newLow, newLow <= info.low || reachedCutoff);
  }

  lemma BackBounds(g: Group, info: Info, cap: int)
    ensures BackStart(g, info) == if g.backLow == 0 then info.high else g.backLow - 1
    ensures BackEnd(g, info, cap) == info.low || (cap > 0 && BackEnd(g, info, cap) == BackStart(g, info) - cap + 1)
  {
  }

  lemma DownStarts(asks: seq<Ask>, upper: int, size: nat)
    requires TilesDown(asks, upper, size)
    ensures asks != [] ==> asks[0].end == upper
    ensures Articles(asks) == upper + 1 - Bottom(asks, upper + 1)
  {
    DownLength(asks, upper, size);
    if asks != [] {
      FirstEnd(asks, upper, size);
    }
  }

  // Too old is an article with a message-id posted before the cutoff.
  lemma TooOldMeans(a: Ask, cutoff: Option<int>)
    ensures TooOld(a, cutoff) <==>
      && cutoff.Some? && a.answer.Some?
      && exists i :: 0 <= i < |a.answer.value| && a.answer.value[i].messageId != ""
           && a.answer.value[i].date.Some? && a.answer.value[i].date.value < cutoff.value
  {
  }

  lemma OldestDecides(a: Ask, cutoff: Option<int>, oldest: Option<int>)
    requires a.answer.Some? && IsOldest(a.answer.value, oldest)
    ensures TooOld(a, cutoff) <==> cutoff.Some? && oldest.Some? && oldest.value < cutoff.value
  {
  }

  lemma TilesDownNone(from: int, size: nat)
    ensures TilesDown([], from, size) && forall was :: Bottom([], was) == was
  {
  }

  lemma TilesDownNext(asks: seq<Ask>, from: int, size: nat, a: Ask)
    requires TilesDown(asks, from, size) && a.end == Bottom(asks, from + 1) - 1 && a.begin <= a.end < a.begin + size
    ensures TilesDown(asks + [a], from, size) && forall was :: Bottom(asks + [a], was) == a.begin
  {
    assert (asks + [a])[..|asks|] == asks;
  }

  // ---- articles asked for in one pass ----

  ghost function Articles(asks: seq<Ask>): (n: int)
  {
    if asks == [] then 0
    else Articles(asks[..|asks| - 1]) + asks[|asks| - 1].end - asks[|asks| - 1].begin + 1
  }

  lemma {:induction false} UpLength(asks: seq<Ask>, from: int, size: nat)
    requires TilesUp(asks, from, size)
    ensures Articles(asks) == Top(asks, from - 1) + 1 - from
    decreases |asks|
  {
    if asks != [] {
      UpLength(asks[..|asks| - 1], from, size);
    }
  }

  lemma {:induction false} DownLength(asks: seq<Ask>, from: int, size: nat)
    requires TilesDown(asks, from, size)
    ensures Articles(asks) == from + 1 - Bottom(asks, from + 1)
    decreases |asks|
  {
    if asks != [] {
      DownLength(asks[..|asks| - 1], from, size);
    }
  }

  // No pass asks for more articles than its cap, counting a failed batch too,
  // and it asks for none outside the server's bounds.
  lemma PassWithinCap(g: Group, h: Group, p: Pass)
    requires if p.Forward? then ForwardMoves(g, h, p) else BackwardMoves(g, h, p)
    ensures p.cap > 0 ==> Articles(p.asks) <= p.cap
    ensures Within(p.asks, p.info.low, if p.Forward? || g.backLow == 0 then p.info.high else g.backLow - 1)
  {
    if p.Forward? {
      UpLength(p.asks, ForwardStart(g, p.info), p.size);
      UpExact(p.asks, ForwardStart(g, p.info), p.size);
    } else {
      DownLength(p.asks, BackStart(g, p.info), p.size);
      DownExact(p.asks, BackStart(g, p.info), p.size);
    }
  }

  // ---- runs of passes, with failures anywhere ----

  datatype State = State(g: Group, t: Table)

  ghost predicate IsPass(parse: Parser, s: State, n: State, p: Pass)
  {
    && (if p.Forward? then ForwardMoves(s.g, n.g, p) else BackwardMoves(s.g, n.g, p))
    && Saves(s.t, n.t, s.g.id, parse, p.asks, p.kept)
  }

  ghost predicate IsRun(parse: Parser, ss: seq<State>, ps: seq<Pass>)
  {
    |ss| == |ps| + 1 && forall i :: 0 <= i < |ps| ==> IsPass(parse, ss[i], ss[i + 1], ps[i])
  }

  lemma PassFrame(parse: Parser, s: State, n: State, p: Pass)
    requires IsPass(parse, s, n, p) && s.g.lastHigh >= 0
    ensures n.g.id == s.g.id && 0 <= s.g.lastHigh <= n.g.lastHigh && Grows(s.t, n.t)
    ensures p.Backward? ==> n.g.lastHigh == s.g.lastHigh
  {
    if p.Forward? {
      var from := ForwardStart(s.g, p.info);
      PrefixTiles(p.asks, from, p.size, p.kept);
      UpExact(p.asks[..p.kept], from, p.size);
    }
  }

  lemma {:induction false} PrefixTiles(asks: seq<Ask>, from: int, size: nat, k: nat)
    requires TilesUp(asks, from, size) && k <= |asks|
    ensures TilesUp(asks[..k], from, size)
    decreases |asks|
  {
    if k == |asks| {
      assert asks[..k] == asks;
    } else {
      PrefixTiles(asks[..|asks| - 1], from, size, k);
      assert asks[..|asks| - 1][..k] == asks[..k];
    }
  }

  lemma {:induction false} PrefixTilesDown(asks: seq<Ask>, from: int, size: nat, k: nat)
    requires TilesDown(asks, from, size) && k <= |asks|
    ensures TilesDown(asks[..k], from, size)
    decreases |asks|
  {
    if k == |asks| {
      assert asks[..k] == asks;
    } else {
      PrefixTilesDown(asks[..|asks| - 1], from, size, k);
      assert asks[..|asks| - 1][..k] == asks[..k];
    }
  }

  lemma GrowsOn(t: Table, u: Table, w: Table)
    requires Grows(t, u) && Grows(u, w)
    ensures Grows(t, w)
  {
  }

  // The watermark never moves back and no stored row is lost or changed.
  lemma {:induction false} WatermarkNeverDecreases(parse: Parser, ss: seq<State>, ps: seq<Pass>, i: nat, j: nat)
    requires IsRun(parse, ss, ps) && ss[0].g.lastHigh >= 0 && i <= j < |ss|
    ensures 0 <= ss[i].g.lastHigh <= ss[j].g.lastHigh && Grows(ss[i].t, ss[j].t) && ss[i].g.id == ss[j].g.id
    decreases j
  {
    hide IsPass, Grows;
    if i < j {
      WatermarkNeverDecreases(parse, ss, ps, i, j - 1);
      PassFrame(parse, ss[j - 1], ss[j], ps[j - 1]);
      GrowsOn(ss[i].t, ss[j - 1].t, ss[j].t);
    } else if i > 0 {
      WatermarkNeverDecreases(parse, ss, ps, i - 1, i - 1);
      PassFrame(parse, ss[i - 1], ss[i], ps[i - 1]);
      GrowsSelf(ss[i].t);
    } else {
      GrowsSelf(ss[i].t);
    }
  }

  // Article a was read in a range pass p recorded, and the answer is stored in t.
  ghost predicate ReadBy(p: Pass, a: int, t: Table, group: int)
  {
    exists k :: 0 <= k < p.kept && k < |p.asks| && p.asks[k].begin <= a <= p.asks[k].end
      && p.asks[k].answer.Some? && Stored(t, group, p.asks[k].answer.value)
  }

  // Article a had already expired from the server when pass p skipped it.
  predicate SkippedBy(s: State, p: Pass, a: int)
  {
    p.Forward? && s.g.lastHigh < a < p.info.low
  }

  lemma PassReads(parse: Parser, s: State, n: State, p: Pass, a: int)
    requires IsPass(parse, s, n, p) && s.g.lastHigh >= 0 && s.g.lastHigh < a <= n.g.lastHigh
    ensures p.Forward?
    ensures ReadBy(p, a, n.t, s.g.id) || SkippedBy(s, p, a)
  {
    var from := ForwardStart(s.g, p.info);
    PrefixTiles(p.asks, from, p.size, p.kept);
    UpExact(p.asks[..p.kept], from, p.size);
    if a >= from {
      assert Hits(p.asks[..p.kept], a);
      var k :| 0 <= k < p.kept && p.asks[..p.kept][k].begin <= a <= p.asks[..p.kept][k].end;
      assert p.asks[k].begin <= a <= p.asks[k].end;
    }
  }

  lemma StaysRead(p: Pass, a: int, t: Table, u: Table, group: int)
    requires ReadBy(p, a, t, group) && Grows(t, u)
    ensures ReadBy(p, a, u, group)
  {
    var k :| 0 <= k < p.kept && k < |p.asks| && p.asks[k].begin <= a <= p.asks[k].end
      && p.asks[k].answer.Some? && Stored(t, group, p.asks[k].answer.value);
    assert Stored(u, group, p.asks[k].answer.value);
  }

  // Every article number the watermark passed was read and its answer stored,
  // or was below the server's low mark when a pass skipped it.
  lemma {:induction false} WatermarkAccounts(parse: Parser, ss: seq<State>, ps: seq<Pass>, j: nat, a: int)
    requires IsRun(parse, ss, ps) && ss[0].g.lastHigh >= 0 && j < |ss|
    requires ss[0].g.lastHigh < a <= ss[j].g.lastHigh
    ensures exists i :: 0 <= i < j && ps[i].Forward?
              && (ReadBy(ps[i], a, ss[j].t, ss[0].g.id) || SkippedBy(ss[i], ps[i], a))
    decreases j
  {
    hide IsPass, Grows, ReadBy, SkippedBy;
    WatermarkNeverDecreases(parse, ss, ps, 0, j - 1);
    PassFrame(parse, ss[j - 1], ss[j], ps[j - 1]);
    if a <= ss[j - 1].g.lastHigh {
      WatermarkAccounts(parse, ss, ps, j - 1, a);
      var i :| 0 <= i < j - 1 && ps[i].Forward?
               && (ReadBy(ps[i], a, ss[j - 1].t, ss[0].g.id) || SkippedBy(ss[i], ps[i], a));
      if !SkippedBy(ss[i], ps[i], a) {
        StaysRead(ps[i], a, ss[j - 1].t, ss[j].t, ss[0].g.id);
      }
    } else {
      PassReads(parse, ss[j - 1], ss[j], ps[j - 1], a);
    }
  }

  // ---- backfill over a run ----

  // The ranges backfill recorded, in the order it walked them.
  ghost function Backfilled(ps: seq<Pass>): (asks: seq<Ask>)
  {
    if ps == [] then []
    else
      var p := ps[|ps| - 1];
      Backfilled(ps[..|ps| - 1]) + if p.Backward? && p.kept <= |p.asks| then p.asks[..p.kept] else []
  }

  lemma {:induction false} TilesDownWider(asks: seq<Ask>, from: int, size: nat, wide: nat)
    requires TilesDown(asks, from, size) && size <= wide
    ensures TilesDown(asks, from, wide)
    decreases |asks|
  {
    if asks != [] {
      TilesDownWider(asks[..|asks| - 1], from, size, wide);
    }
  }

  // The recorded ranges are one downward tiling.
  ghost predicate IsTiling(asks: seq<Ask>, size: nat)
  {
    asks != [] ==> TilesDown(asks, asks[0].end, size)
  }

  // They are, and they end at the stored backfill position until the group is complete.
  ghost predicate Contiguous(asks: seq<Ask>, g: Group, size: nat)
  {
    && IsTiling(asks, size)
    && (!g.backDone ==> g.backLow == Bottom(asks, 0))
  }

  // Pass i starts over at the top although earlier passes have recorded
  // ranges, and records ranges itself: the stored position 0 read as "not started".
  ghost predicate Restarts(ss: seq<State>, ps: seq<Pass>, i: nat)
    requires |ss| == |ps| + 1 && i < |ps|
  {
    && ps[i].Backward? && ps[i].kept > 0
    && !ss[i].g.backDone && ss[i].g.backLow == 0 && Backfilled(ps[..i]) != []
  }

  // What a backfill pass recorded.
  lemma BackFacts(g: Group, h: Group, p: Pass)
    requires p.Backward? && BackwardMoves(g, h, p)
    ensures p.kept <= |p.asks| && TilesDown(p.asks[..p.kept], BackStart(g, p.info), p.size)
    ensures g.backDone ==> h == g && p.asks[..p.kept] == []
    ensures p.asks[..p.kept] == [] ==> h.backDone || h.backLow == g.backLow
    ensures p.asks[..p.kept] != [] ==> h.backLow == Bottom(p.asks[..p.kept], 0) >= p.info.low
  {
    var from, more := BackStart(g, p.info), p.asks[..p.kept];
    PrefixTilesDown(p.asks, from, p.size, p.kept);
    DownExact(p.asks, from, p.size);
    if more != [] {
      assert more[|more| - 1] == p.asks[p.kept - 1];
      assert from >= p.info.low;
    }
  }

  lemma ContiguousStep(s: State, n: State, p: Pass, asks: seq<Ask>, size: nat)
    requires Contiguous(asks, s.g, size) && p.Backward? && BackwardMoves(s.g, n.g, p) && p.size <= size
    requires p.kept > 0 && !s.g.backDone && asks != [] ==> s.g.backLow != 0
    ensures p.kept <= |p.asks| && Contiguous(asks + p.asks[..p.kept], n.g, size)
  {
    hide BackwardMoves, TilesDown;
    BackFacts(s.g, n.g, p);
    var from, more := BackStart(s.g, p.info), p.asks[..p.kept];
    TilesDownWider(more, from, p.size, size);
    if more == [] {
      assert asks + more == asks;
    } else if asks == [] {
      assert asks + more == more;
      FirstEnd(more, from, size);
    } else {
      DownJoin(asks, asks[0].end, more, size);
    }
  }

  // A pass that starts over breaks the tiling for good.
  lemma RestartBreaks(s: State, n: State, p: Pass, asks: seq<Ask>, size: nat)
    requires Contiguous(asks, s.g, size) && p.Backward? && BackwardMoves(s.g, n.g, p)
    requires p.kept > 0 && !s.g.backDone && asks != [] && s.g.backLow == 0
    ensures p.kept <= |p.asks| && !IsTiling(asks + p.asks[..p.kept], size)
  {
    hide BackwardMoves, TilesDown;
    BackFacts(s.g, n.g, p);
    var more := p.asks[..p.kept];
    FirstEnd(more, BackStart(s.g, p.info), p.size);
    assert (asks + more)[0] == asks[0];
    if IsTiling(asks + more, size) {
      JoinForces(asks, asks[0].end, more, size);
    }
  }

  lemma {:induction false} JoinForces(asks: seq<Ask>, from: int, more: seq<Ask>, size: nat)
    requires TilesDown(asks + more, from, size) && more != []
    ensures more[0].end == Bottom(asks, from + 1) - 1
    decreases |more|
  {
    var all := asks + more;
    assert all[..|all| - 1] == asks + more[..|more| - 1];
    if |more| == 1 {
      assert asks + more[..0] == asks;
    } else {
      JoinForces(asks, from, more[..|more| - 1], size);
    }
  }

  lemma StaysBroken(asks: seq<Ask>, more: seq<Ask>, size: nat)
    requires !IsTiling(asks, size)
    ensures !IsTiling(asks + more, size)
  {
    assert (asks + more)[..|asks|] == asks;
    if IsTiling(asks + more, size) {
      PrefixTilesDown(asks + more, (asks + more)[0].end, size, |asks|);
    }
  }

  lemma {:induction false} FirstEnd(asks: seq<Ask>, from: int, size: nat)
    requires TilesDown(asks, from, size) && asks != []
    ensures asks[0].end == from
    decreases |asks|
  {
    if |asks| > 1 {
      FirstEnd(asks[..|asks| - 1], from, size);
    } else {
      assert asks[..0] == [];
    }
  }

  ghost predicate NoRestart(ss: seq<State>, ps: seq<Pass>, j: nat)
    requires |ss| == |ps| + 1 && j <= |ps|
  {
    forall i :: 0 <= i < j ==> !Restarts(ss, ps, i)
  }

  // Over all passes, failures and restarts, for any server bounds: everything
  // backfill recorded is one downward tiling if and only if no pass started over.
  lemma {:induction false} BackfillTilesIff(parse: Parser, ss: seq<State>, ps: seq<Pass>, size: nat, j: nat)
    requires IsRun(parse, ss, ps) && j <= |ps|
    requires ss[0].g.backLow == 0 && !ss[0].g.backDone
    requires forall i :: 0 <= i < |ps| && ps[i].Backward? ==> ps[i].size <= size
    ensures IsTiling(Backfilled(ps[..j]), size) <==> NoRestart(ss, ps, j)
    ensures NoRestart(ss, ps, j) ==> Contiguous(Backfilled(ps[..j]), ss[j].g, size)
    decreases j
  {
    hide Contiguous, IsTiling, BackwardMoves, ForwardMoves, Saves, Restarts;
    if j == 0 {
      StartsContiguous(ss[0].g, size);
    } else {
      BackfillTilesIff(parse, ss, ps, size, j - 1);
      assert IsPass(parse, ss[j - 1], ss[j], ps[j - 1]);
      assert NoRestart(ss, ps, j) <==> NoRestart(ss, ps, j - 1) && !Restarts(ss, ps, j - 1);
      TilesStep(ss, ps, size, j);
    }
  }

  lemma TilesStep(ss: seq<State>, ps: seq<Pass>, size: nat, j: nat)
    requires |ss| == |ps| + 1 && 0 < j <= |ps| && (ps[j - 1].Forward? || ps[j - 1].size <= size)
    requires
      if ps[j - 1].Forward? then ForwardMoves(ss[j - 1].g, ss[j].g, ps[j - 1])
      else BackwardMoves(ss[j - 1].g, ss[j].g, ps[j - 1])
    requires IsTiling(Backfilled(ps[..j - 1]), size) ==> Contiguous(Backfilled(ps[..j - 1]), ss[j - 1].g, size)
    ensures var was, now := Backfilled(ps[..j - 1]), Backfilled(ps[..j]);
      && (IsTiling(now, size) <==> IsTiling(was, size) && !Restarts(ss, ps, j - 1))
      && (IsTiling(now, size) ==> Contiguous(now, ss[j].g, size))
  {
    hide BackwardMoves, ForwardMoves, TilesDown;
    var p, was := ps[j - 1], Backfilled(ps[..j - 1]);
    assert ps[..j][..j - 1] == ps[..j - 1] && ps[..j][j - 1] == p;
    if p.Forward? {
      assert was + [] == was;
      ForwardKeepsGroup(ss[j - 1].g, ss[j].g, p);
    } else {
      BackFacts(ss[j - 1].g, ss[j].g, p);
      if !IsTiling(was, size) {
        StaysBroken(was, p.asks[..p.kept], size);
      } else if Restarts(ss, ps, j - 1) {
        RestartBreaks(ss[j - 1], ss[j], p, was, size);
      } else {
        ContiguousStep(ss[j - 1], ss[j], p, was, size);
      }
    }
  }

  lemma StartsContiguous(g: Group, size: nat)
    requires g.backLow == 0
    ensures Contiguous([], g, size) && Backfilled([]) == []
  {
  }

  lemma ForwardKeepsGroup(g: Group, h: Group, p: Pass)
    requires p.Forward? && ForwardMoves(g, h, p)
    ensures h.backLow == g.backLow && h.backDone == g.backDone
  {
  }

  // With low marks of at least 1 no pass ever starts over.
  lemma {:induction false} LowMarksOfOneTile(parse: Parser, ss: seq<State>, ps: seq<Pass>, size: nat, j: nat)
    requires IsRun(parse, ss, ps) && j <= |ps|
    requires ss[0].g.backLow == 0 && !ss[0].g.backDone
    requires forall i :: 0 <= i < |ps| && ps[i].Backward? ==> ps[i].info.low >= 1 && ps[i].size <= size
    ensures NoRestart(ss, ps, j) && Contiguous(Backfilled(ps[..j]), ss[j].g, size)
    ensures Backfilled(ps[..j]) != [] && !ss[j].g.backDone ==> ss[j].g.backLow >= 1
    decreases j
  {
    hide Contiguous, BackwardMoves, ForwardMoves, Saves;
    if j > 0 {
      LowMarksOfOneTile(parse, ss, ps, size, j - 1);
      assert IsPass(parse, ss[j - 1], ss[j], ps[j - 1]);
      var p := ps[j - 1];
      assert ps[..j][..j - 1] == ps[..j - 1] && ps[..j][j - 1] == p;
      if p.Forward? {
        ForwardKeepsGroup(ss[j - 1].g, ss[j].g, p);
      } else {
        BackFacts(ss[j - 1].g, ss[j].g, p);
      }
    }
    BackfillTilesIff(parse, ss, ps, size, j);
  }

  // A group becomes complete only in a pass that reached the server's low mark
  // or whose last recorded batch held an article older than the cutoff.
  ghost predicate FinishedIn(h: Group, p: Pass)
  {
    p.Backward? && (h.backLow <= p.info.low || (0 < p.kept <= |p.asks| && TooOld(p.asks[p.kept - 1], p.cutoff)))
  }

  lemma {:induction false} CompleteOnlyWhenFinished(parse: Parser, ss: seq<State>, ps: seq<Pass>, j: nat)
    requires IsRun(parse, ss, ps) && j < |ss| && !ss[0].g.backDone && ss[j].g.backDone
    ensures exists i :: 0 <= i < j && !ss[i].g.backDone && ss[i + 1].g.backDone && FinishedIn(ss[i + 1].g, ps[i])
    decreases j
  {
    hide Saves, TooOld;
    assert IsPass(parse, ss[j - 1], ss[j], ps[j - 1]);
    if ss[j - 1].g.backDone {
      CompleteOnlyWhenFinished(parse, ss, ps, j - 1);
    } else {
      assert FinishedIn(ss[j - 1 + 1].g, ps[j - 1]);
    }
  }

  // A server low mark of 0 can break it: the walk reaches 0, the last write of
  // the pass fails, and the next pass records the same range again.
  lemma LowZeroRestarts(parse: Parser, size: nat) returns (ss: seq<State>, ps: seq<Pass>)
    requires size >= 6
    ensures IsRun(parse, ss, ps) && |ps| == 2 && ss[0].g.backLow == 0 && !ss[0].g.backDone
    ensures !IsTiling(Backfilled(ps), size)
  {
    var s := State(Group(1, 0, 0, false), map[]);
    var a := Ask(0, 5, Some([]));
    var p := Backward(Info(0, 5), size, 0, None, [a], 1);
    ss, ps := [s, s, s], [p, p];
    ReadsToZero(parse, s, p, a);
    hide IsPass;
    assert IsRun(parse, ss, ps);
    assert ps[..1] == [p] && [p][..0] == [] && p.asks[..1] == [a];
    assert Backfilled([p]) == [] + [a] == [a];
    assert Backfilled(ps) == [a, a];
    assert [a, a] == [a] + [a];
    if IsTiling([a, a], size) {
      JoinForces([a], 5, [a], size);
    }
  }

  lemma ReadsToZero(parse: Parser, s: State, p: Pass, a: Ask)
    requires s == State(Group(1, 0, 0, false), map[]) && a == Ask(0, 5, Some([])) && p.size >= 6
    requires p == Backward(Info(0, 5), p.size, 0, None, [a], 1)
    ensures IsPass(parse, s, s, p)
  {
    assert p.asks[..1] == [a] && p.asks[..0] == [];
    TilesDownNone(5, p.size);
    TilesDownNext([], 5, p.size, a);
    assert [] + [a] == [a];
  }
}
