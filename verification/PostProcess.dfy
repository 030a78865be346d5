// The post-processing retry machine of a release: claims, failures with
// backoff, permanence and requeueing.
module PostProcess {
  import opened Common
  import opened Tables

  const MAX_ATTEMPTS := 3
  const DEFAULT_LIMIT := 100

  // Durations in minutes.
  const BASE_BACKOFF := 5
  const MAX_BACKOFF := 360

  // The shift is capped so that it cannot overflow before the clamp.
  function PPBackoff(attempts: int): (d: int)
    ensures BASE_BACKOFF <= d <= MAX_BACKOFF
  {
    var shift := Min(Max(attempts, 1) - 1, 20);
    var d := BASE_BACKOFF * Pow2(shift);
    if d > MAX_BACKOFF then MAX_BACKOFF else d
  }

  // Doubling with each attempt, clamped; the cap on the shift never shows.
  lemma BackoffExact(attempts: int)
    ensures PPBackoff(attempts) == Min(5 * Pow2(Max(attempts, 1) - 1), 360)
  {
    assert Pow2(7) == 128;
    if attempts - 1 >= 7 {
      Pow2Grows(7, attempts - 1);
      Pow2Grows(7, Min(attempts - 1, 20));
    }
  }

  lemma BackoffGrows(a: int, b: int)
    requires a <= b
    ensures PPBackoff(a) <= PPBackoff(b)
  {
    Pow2Grows(Min(Max(a, 1) - 1, 20), Min(Max(b, 1) - 1, 20));
  }

  // ---- one release ----

  datatype Row = Row(status: Status, attempts: nat, permanent: bool, retryAt: Option<int>, createdAt: int)

  predicate IsDue(r: Row, now: int)
  {
    && !r.permanent
    && (|| r.status.Pending?
        || (r.status.Failed? && r.attempts < MAX_ATTEMPTS && (r.retryAt.None? || r.retryAt.value <= now)))
  }

  // A failure is recorded in two statements: `seen` is the attempt count the
  // first one read, which others may have changed since.
  datatype Event = Claim(now: int) | Fail(permanent: bool, seen: nat, now: int) | Succeed | Requeue

  predicate GivesUp(e: Event)
    requires e.Fail?
  {
    e.permanent || e.seen >= MAX_ATTEMPTS
  }

  predicate Enabled(r: Row, e: Event)
  {
    e.Claim? ==> IsDue(r, e.now)
  }

  function Step(r: Row, e: Event): (s: Row)
  {
    match e
    case Claim(_) => r.(attempts := r.attempts + 1)
    case Fail(_, seen, now) =>
      if GivesUp(e) then r.(status := Failed, permanent := true, retryAt := None)
      else r.(status := Failed, retryAt := Some(now + PPBackoff(seen)))
    case Succeed => r.(status := Done)
    case Requeue =>
      if r.status.Failed? then r.(status := Pending, attempts := 0, permanent := false, retryAt := None) else r
  }

  function Run(r: Row, es: seq<Event>): (s: Row)
    decreases |es|
  {
    if es == [] then r else Step(Run(r, es[..|es| - 1]), es[|es| - 1])
  }

  predicate IsRun(r: Row, es: seq<Event>)
  {
    forall i :: 0 <= i < |es| ==> Enabled(Run(r, es[..i]), es[i])
  }

  function New(createdAt: int): (r: Row)
  {
    Row(Pending, 0, false, None, createdAt)
  }

  // Does event e, at state s, start a new retry budget?
  predicate Resets(s: Row, e: Event)
  {
    e.Requeue? && s.status.Failed?
  }

  // Claims out of 'failed' since the last requeue.
  function Retries(r: Row, es: seq<Event>): (n: nat)
    decreases |es|
  {
    if es == [] then 0
    else
      var s, e := Run(r, es[..|es| - 1]), es[|es| - 1];
      var n := Retries(r, es[..|es| - 1]);
      if Resets(s, e) then 0 else if e.Claim? && s.status.Failed? then n + 1 else n
  }

  // Claims out of 'pending' since the last requeue.
  function FirstClaims(r: Row, es: seq<Event>): (n: nat)
    decreases |es|
  {
    if es == [] then 0
    else
      var s, e := Run(r, es[..|es| - 1]), es[|es| - 1];
      var n := FirstClaims(r, es[..|es| - 1]);
      if Resets(s, e) then 0 else if e.Claim? && s.status.Pending? then n + 1 else n
  }

  // Was the release claimed since the last requeue?
  function ClaimedSince(r: Row, es: seq<Event>): (b: bool)
    decreases |es|
  {
    es != [] &&
    var s, e := Run(r, es[..|es| - 1]), es[|es| - 1];
    !Resets(s, e) && (e.Claim? || ClaimedSince(r, es[..|es| - 1]))
  }

  ghost predicate FailuresFollowClaims(r: Row, es: seq<Event>)
  {
    forall i :: 0 <= i < |es| && es[i].Fail? ==> ClaimedSince(r, es[..i])
  }

  lemma PrefixRuns(r: Row, es: seq<Event>)
    requires es != [] && IsRun(r, es)
    ensures IsRun(r, es[..|es| - 1]) && Enabled(Run(r, es[..|es| - 1]), es[|es| - 1])
    ensures FailuresFollowClaims(r, es) ==> FailuresFollowClaims(r, es[..|es| - 1])
    ensures FailuresFollowClaims(r, es) && es[|es| - 1].Fail? ==> ClaimedSince(r, es[..|es| - 1])
  {
    var rest := es[..|es| - 1];
    assert forall i :: 0 <= i <= |rest| ==> rest[..i] == es[..i];
    assert forall i :: 0 <= i < |rest| ==> rest[i] == es[i];
  }

  // The counter is the number of claims since the last requeue; claims out of
  // 'failed' never exceed the budget, first claims included once there is one.
  lemma {:induction false} RetryBudget(createdAt: int, es: seq<Event>)
    requires IsRun(New(createdAt), es)
    ensures var r := New(createdAt); var s := Run(r, es);
      && s.attempts == Retries(r, es) + FirstClaims(r, es)
      && Retries(r, es) <= MAX_ATTEMPTS
      && (Retries(r, es) > 0 ==> !s.status.Pending? && s.attempts <= MAX_ATTEMPTS)
      && (ClaimedSince(r, es) <==> s.attempts > 0)
      && (s.status.Pending? ==> !s.permanent && s.retryAt.None?)
    decreases |es|
  {
    if es != [] {
      PrefixRuns(New(createdAt), es);
      RetryBudget(createdAt, es[..|es| - 1]);
    }
  }

  // When every failure follows a claim, fewer than MAX_ATTEMPTS claims come
  // out of 'failed' between requeues.
  lemma {:induction false} RetriesBelowBudget(createdAt: int, es: seq<Event>)
    requires IsRun(New(createdAt), es) && FailuresFollowClaims(New(createdAt), es)
    ensures Retries(New(createdAt), es) < MAX_ATTEMPTS
    ensures var r := New(createdAt); Run(r, es).status.Failed? || Retries(r, es) > 0 ==> FirstClaims(r, es) > 0
    decreases |es|
  {
    if es != [] {
      PrefixRuns(New(createdAt), es);
      RetriesBelowBudget(createdAt, es[..|es| - 1]);
      RetryBudget(createdAt, es);
      RetryBudget(createdAt, es[..|es| - 1]);
    }
  }

  function Claims(es: seq<Event>): (n: nat)
    decreases |es|
  {
    if es == [] then 0 else Claims(es[..|es| - 1]) + if es[|es| - 1].Claim? then 1 else 0
  }

  function Outcomes(es: seq<Event>): (n: nat)
    decreases |es|
  {
    if es == [] then 0
    else Outcomes(es[..|es| - 1]) + if es[|es| - 1].Fail? || es[|es| - 1].Succeed? then 1 else 0
  }

  // What workers can produce: each reports once for a claim it made, and the
  // counter it goes by is one it has read.
  ghost predicate ByWorkers(r: Row, es: seq<Event>)
  {
    && IsRun(r, es)
    && (forall i :: 0 <= i < |es| && (es[i].Fail? || es[i].Succeed?) ==> Outcomes(es[..i]) < Claims(es[..i]))
    && (forall i :: 0 <= i < |es| && es[i].Fail? ==> exists j :: 0 <= j <= i && Run(r, es[..j]).attempts == es[i].seen)
  }

  // Two workers hold the release, one fails it, it is requeued, and then the
  // other reports its failure: the full budget of claims out of 'failed' is left.
  lemma StragglerGetsThree() returns (es: seq<Event>)
    ensures ByWorkers(New(0), es) && Retries(New(0), es) == MAX_ATTEMPTS
  {
    hide Run, Retries, FirstClaims, IsRun, ByWorkers, Claims, Outcomes;
    var r := New(0);
    NoEvents(r);
    es := [];
    es := Report(r, es, Claim(0));
    es := Report(r, es, Claim(0));
    es := Report(r, es, Fail(false, 2, 0));
    es := Report(r, es, Requeue);
    es := Report(r, es, Fail(false, 0, 0));
    es := Report(r, es, Claim(100));
    es := Report(r, es, Claim(100));
    es := Report(r, es, Claim(100));
  }

  // One more event, with its effect on everything counted.
  lemma Report(r: Row, es: seq<Event>, e: Event) returns (all: seq<Event>)
    requires ByWorkers(r, es) && Enabled(Run(r, es), e)
    requires e.Fail? || e.Succeed? ==> Outcomes(es) < Claims(es)
    requires e.Fail? ==> e.seen == Run(r, es).attempts
    ensures all == es + [e] && ByWorkers(r, all) && Run(r, all) == Step(Run(r, es), e)
    ensures Retries(r, all) ==
      if Resets(Run(r, es), e) then 0
      else if e.Claim? && Run(r, es).status.Failed? then Retries(r, es) + 1 else Retries(r, es)
    ensures Claims(all) == Claims(es) + (if e.Claim? then 1 else 0)
    ensures Outcomes(all) == Outcomes(es) + if e.Fail? || e.Succeed? then 1 else 0
  {
    hide Retries, FirstClaims, Step, Enabled, Run, Claims, Outcomes, IsRun;
    Extend(r, es, e);
    all := es + [e];
    CountOne(es, e);
    assert all[..|es|] == es;
    assert forall i :: 0 <= i < |es| ==> all[..i] == es[..i] && all[i] == es[i];
    forall i | 0 <= i < |all| && all[i].Fail?
      ensures exists j :: 0 <= j <= i && Run(r, all[..j]).attempts == all[i].seen
    {
      if i < |es| {
        var j :| 0 <= j <= i && Run(r, es[..j]).attempts == es[i].seen;
        assert all[..j] == es[..j];
      } else {
        assert Run(r, all[..i]).attempts == all[i].seen;
      }
    }
  }

  lemma CountOne(es: seq<Event>, e: Event)
    ensures Claims(es + [e]) == Claims(es) + (if e.Claim? then 1 else 0)
    ensures Outcomes(es + [e]) == Outcomes(es) + if e.Fail? || e.Succeed? then 1 else 0
  {
    assert (es + [e])[..|es|] == es;
  }

  predicate OnlyClaims(es: seq<Event>)
  {
    forall i :: 0 <= i < |es| ==> es[i].Claim?
  }

  // Exactly when: a release that has failed, and not for good, can still be
  // claimed out of 'failed' up to the third time if and only if it was never
  // claimed while pending since the last requeue.
  lemma ThirdRetryIff(createdAt: int, es: seq<Event>)
    requires var r := New(createdAt); IsRun(r, es) && Run(r, es).status.Failed? && !Run(r, es).permanent
    ensures var r := New(createdAt);
      (exists cs :: OnlyClaims(cs) && IsRun(r, es + cs) && Retries(r, es + cs) == MAX_ATTEMPTS) <==>
        FirstClaims(r, es) == 0
  {
    hide Run, Retries, FirstClaims, IsRun;
    var r := New(createdAt);
    RetryBudget(createdAt, es);
    if FirstClaims(r, es) == 0 {
      var cs := ClaimOn(r, es, MAX_ATTEMPTS - Retries(r, es));
      assert OnlyClaims(cs) && IsRun(r, es + cs) && Retries(r, es + cs) == MAX_ATTEMPTS;
    } else {
      forall cs | OnlyClaims(cs) && IsRun(r, es + cs) ensures Retries(r, es + cs) < MAX_ATTEMPTS {
        ClaimsKeepFirst(r, es, cs);
        RetryBudget(createdAt, es + cs);
      }
    }
  }

  // n more claims out of 'failed', late enough, while the budget lasts.
  lemma {:induction false} ClaimOn(r: Row, es: seq<Event>, n: nat) returns (cs: seq<Event>)
    requires IsRun(r, es) && Run(r, es).status.Failed?
    requires !Run(r, es).permanent && Run(r, es).attempts + n <= MAX_ATTEMPTS
    ensures OnlyClaims(cs) && IsRun(r, es + cs) && Retries(r, es + cs) == Retries(r, es) + n
    decreases n
  {
    hide Run, Retries, FirstClaims, IsRun;
    cs := [];
    assert es + [] == es;
    if n > 0 {
      var s := Run(r, es);
      var e := Claim(if s.retryAt.Some? then s.retryAt.value else 0);
      Extend(r, es, e);
      var rest := ClaimOn(r, es + [e], n - 1);
      cs := [e] + rest;
      assert es + cs == es + [e] + rest;
    }
  }

  lemma {:induction false} ClaimsKeepFirst(r: Row, es: seq<Event>, cs: seq<Event>)
    requires Run(r, es).status.Failed? && OnlyClaims(cs)
    ensures FirstClaims(r, es + cs) == FirstClaims(r, es) && Run(r, es + cs).status.Failed?
    decreases |cs|
  {
    if cs == [] {
      assert es + cs == es;
    } else {
      ClaimsKeepFirst(r, es, cs[..|cs| - 1]);
      assert (es + cs)[..|es + cs| - 1] == es + cs[..|cs| - 1];
      assert (es + cs)[|es + cs| - 1] == cs[|cs| - 1];
    }
  }

  // The counter passes the budget exactly through claims while pending.
  lemma CounterOverrunsIff(createdAt: int, es: seq<Event>)
    requires IsRun(New(createdAt), es)
    ensures Run(New(createdAt), es).attempts > MAX_ATTEMPTS <==> FirstClaims(New(createdAt), es) > MAX_ATTEMPTS
  {
    RetryBudget(createdAt, es);
  }

  lemma NoEvents(r: Row)
    ensures IsRun(r, []) && Run(r, []) == r && Retries(r, []) == 0 && FirstClaims(r, []) == 0
    ensures ByWorkers(r, []) && Claims([]) == 0 == Outcomes([])
  {
  }

  lemma Extend(r: Row, es: seq<Event>, e: Event)
    requires IsRun(r, es) && Enabled(Run(r, es), e)
    ensures IsRun(r, es + [e]) && Run(r, es + [e]) == Step(Run(r, es), e)
    ensures Retries(r, es + [e]) ==
      if Resets(Run(r, es), e) then 0
      else if e.Claim? && Run(r, es).status.Failed? then Retries(r, es) + 1 else Retries(r, es)
    ensures FirstClaims(r, es + [e]) ==
      if Resets(Run(r, es), e) then 0
      else if e.Claim? && Run(r, es).status.Pending? then FirstClaims(r, es) + 1 else FirstClaims(r, es)
  {
    var all := es + [e];
    assert all[..|es|] == es;
    assert forall i :: 0 <= i < |es| ==> all[..i] == es[..i] && all[i] == es[i];
  }

  // A worker that crashes after each claim leaves the release 'pending', and
  // nothing bounds how often it is claimed.
  lemma {:induction false} CrashLoop(n: nat) returns (es: seq<Event>)
    ensures IsRun(New(0), es) && FirstClaims(New(0), es) == n && Run(New(0), es) == New(0).(attempts := n)
  {
    NoEvents(New(0));
    es := [];
    if n > 0 {
      var rest := CrashLoop(n - 1);
      Extend(New(0), rest, Claim(0));
      es := rest + [Claim(0)];
    }
  }

  // ---- success ----

  // A success with no failure after it.
  ghost predicate Stands(es: seq<Event>, i: nat)
    requires i < |es|
  {
    es[i].Succeed? && forall j :: i < j < |es| ==> !es[j].Fail?
  }

  lemma StandsNext(es: seq<Event>, i: nat)
    requires i < |es|
    ensures var n := |es| - 1;
      Stands(es, i) <==> if i == n then es[n].Succeed? else Stands(es[..n], i) && !es[n].Fail?
  {
    var n := |es| - 1;
    assert forall j :: 0 <= j < n ==> es[..n][j] == es[j];
  }

  // Recording a failure does not look at the status: a release ends 'done' if
  // and only if some success has no failure after it.
  lemma {:induction false} DoneIff(createdAt: int, es: seq<Event>)
    ensures Run(New(createdAt), es).status.Done? <==> exists i :: 0 <= i < |es| && Stands(es, i)
    decreases |es|
  {
    if es != [] {
      hide Stands;
      var n := |es| - 1;
      DoneIff(createdAt, es[..n]);
      forall i | 0 <= i < |es|
        ensures Stands(es, i) <==> if i == n then es[n].Succeed? else Stands(es[..n], i) && !es[n].Fail?
      {
        StandsNext(es, i);
      }
      assert es[n].Succeed? ==> Stands(es, n);
      if i :| 0 <= i < n && Stands(es[..n], i) {
        assert !es[n].Fail? ==> Stands(es, i);
      }
    }
  }

  // Two workers hold the release, one succeeds, and the other's late failure
  // takes 'done' away again.
  lemma LateFailureUndoesDone() returns (es: seq<Event>)
    ensures ByWorkers(New(0), es) && |es| == 4
    ensures Run(New(0), es[..3]).status.Done? && Run(New(0), es).status.Failed?
  {
    hide Run, Retries, FirstClaims, IsRun, ByWorkers, Claims, Outcomes;
    var r := New(0);
    NoEvents(r);
    var a := Report(r, [], Claim(0));
    a := Report(r, a, Claim(0));
    a := Report(r, a, Succeed);
    es := Report(r, a, Fail(false, 2, 0));
    assert es[..3] == a;
  }

  // ---- retry time and permanence ----

  ghost predicate Quiet(es: seq<Event>, i: nat, j: nat)
    requires i <= j <= |es|
  {
    forall k :: i <= k < j ==> !es[k].Fail? && !es[k].Requeue?
  }

  lemma {:induction false} RetryTimeStays(r: Row, es: seq<Event>, i: nat, j: nat)
    requires i < j <= |es| && es[i].Fail? && !GivesUp(es[i]) && Quiet(es, i + 1, j)
    ensures Run(r, es[..j]).retryAt == Some(es[i].now + PPBackoff(es[i].seen))
    decreases j
  {
    assert es[..j][..j - 1] == es[..j - 1];
    if j > i + 1 {
      RetryTimeStays(r, es, i, j - 1);
    }
  }

  // No claim out of 'failed' before the time the last failure set.
  lemma NeverEarly(r: Row, es: seq<Event>, i: nat, j: nat)
    requires IsRun(r, es) && i < j < |es| && es[j].Claim? && Run(r, es[..j]).status.Failed?
    requires es[i].Fail? && !es[i].permanent && es[i].seen < 3 && Quiet(es, i + 1, j)
    ensures es[j].now >= es[i].now + PPBackoff(es[i].seen)
  {
    RetryTimeStays(r, es, i, j);
  }

  lemma {:induction false} PermanentStays(r: Row, es: seq<Event>, i: nat, j: nat)
    requires i <= j <= |es| && Run(r, es[..i]).permanent && forall k :: i <= k < j ==> !es[k].Requeue?
    ensures Run(r, es[..j]).permanent
    decreases j
  {
    if i < j {
      assert es[..j][..j - 1] == es[..j - 1];
      PermanentStays(r, es, i, j - 1);
    }
  }

  // Once permanent, never claimed until a requeue, whatever late failures arrive.
  lemma NeverOncePermanent(r: Row, es: seq<Event>, i: nat, j: nat)
    requires IsRun(r, es) && i < j < |es| && es[i].Fail? && (es[i].permanent || es[i].seen >= 3)
    requires forall k :: i < k < j ==> !es[k].Requeue?
    ensures !es[j].Claim?
  {
    assert es[..i + 1][..i] == es[..i];
    PermanentStays(r, es, i + 1, j);
  }

  // ---- claiming a batch ----

  type Table = map<nat, Row>

  // Pending before failed, then newest first.
  predicate Better(a: Row, b: Row)
  {
    (a.status.Pending? && !b.status.Pending?) || (a.status == b.status && a.createdAt > b.createdAt)
  }

  // `top` is a first `limit` of the ids in that order; ties fall either way.
  ghost predicate IsTop(t: Table, ids: set<nat>, limit: nat, top: set<nat>)
    requires ids <= t.Keys
  {
    && top <= ids && |top| == Min(limit, |ids|)
    && forall x, y :: x in top && y in ids - top ==> !Better(t[y], t[x])
  }

  function DueIn(t: Table, status: Status, now: int): (s: set<nat>)
  {
    set i | i in t && t[i].status == status && IsDue(t[i], now)
  }

  // Limiting each branch first and then their union picks a first `limit` of
  // all due releases.
  lemma BranchesAgree(t: Table, ps: set<nat>, fs: set<nat>, limit: nat, p: set<nat>, f: set<nat>, top: set<nat>)
    requires ps + fs <= t.Keys
    requires forall i :: i in ps ==> t[i].status.Pending?
    requires forall i :: i in fs ==> t[i].status.Failed?
    requires IsTop(t, ps, limit, p) && IsTop(t, fs, limit, f) && IsTop(t, p + f, limit, top)
    ensures IsTop(t, ps + fs, limit, top)
  {
    assert ps !! fs by {
      assert forall i :: i in ps ==> i !in fs;
    }
    UnionSizes(ps, fs, p, f);
    forall x, y | x in top && y in ps + fs - top
      ensures !Better(t[y], t[x])
    {
      if y in ps && y !in p {
        LeftOutMeansFull(ps, limit, p, y);
        if x in f {
          SomeLeft(p, top, x);
          var z :| z in p && z !in top;
          assert Better(t[z], t[x]);
        }
      }
    }
    if p != ps {
      ProperSubset(p, ps);
    }
    if f != fs {
      ProperSubset(f, fs);
    }
  }

  lemma UnionSizes(ps: set<nat>, fs: set<nat>, p: set<nat>, f: set<nat>)
    requires ps !! fs && p <= ps && f <= fs
    ensures |ps + fs| == |ps| + |fs| && |p + f| == |p| + |f| && |p| <= |ps| && |f| <= |fs|
  {
    SubsetSize(p, ps);
    SubsetSize(f, fs);
  }

  lemma LeftOutMeansFull(ids: set<nat>, limit: nat, top: set<nat>, y: nat)
    requires top <= ids && |top| == Min(limit, |ids|) && y in ids && y !in top
    ensures |top| == limit
  {
    ProperSubset(top, ids);
  }

  lemma ProperSubset(a: set<nat>, b: set<nat>)
    requires a <= b && a != b
    ensures |a| < |b|
  {
    SubsetSize(a, b);
  }

  lemma SomeLeft(p: set<nat>, top: set<nat>, x: nat)
    requires x in top && x !in p && |top| <= |p|
    ensures exists z :: z in p && z !in top
  {
    if forall z :: z in p ==> z in top {
      ProperSubset(p, top);
    }
  }

  lemma {:induction false} BestExists(t: Table, ids: set<nat>) returns (b: nat)
    requires ids <= t.Keys && ids != {}
    requires forall i :: i in ids ==> !t[i].status.Done?
    ensures b in ids && forall i :: i in ids ==> !Better(t[i], t[b])
    decreases ids
  {
    b :| b in ids;
    assert forall i :: i in ids ==> i == b || i in ids - {b};
    if ids != {b} {
      var c := BestExists(t, ids - {b});
      if Better(t[c], t[b]) {
        b := c;
      }
    }
  }

  // ORDER BY is_pending DESC, created_at DESC LIMIT n
  method TopOf(t: Table, ids: set<nat>, limit: nat) returns (top: set<nat>)
    requires ids <= t.Keys && forall i :: i in ids ==> !t[i].status.Done?
    ensures IsTop(t, ids, limit, top)
  {
    top := {};
    while |top| < limit && top != ids
      invariant top <= ids && |top| <= limit
      invariant forall x, y :: x in top && y in ids - top ==> !Better(t[y], t[x])
      decreases limit - |top|
    {
      assert ids - top != {};
      ghost var _ := BestExists(t, ids - top);
      var b :| b in ids - top && forall i :: i in ids - top ==> !Better(t[i], t[b]);
      top := top + {b};
    }
    SubsetSize(top, ids);
  }

  function Claimed(t: Table, top: set<nat>, now: int): (u: Table)
  {
    map i | i in t :: if i in top then Step(t[i], Claim(now)) else t[i]
  }

  // A due release is a pending one, or a failed one with attempts and time left;
  // those left out of a full batch come after those taken.
  lemma TopMeans(t: Table, now: int, l: nat, top: set<nat>)
    requires IsTop(t, DueIn(t, Pending, now) + DueIn(t, Failed, now), l, top)
    ensures |top| <= l && forall i :: i in top ==> i in t && var r := t[i];
      && !r.permanent && !r.status.Done?
      && (r.status.Failed? ==> r.attempts < 3 && (r.retryAt.Some? ==> r.retryAt.value <= now))
    ensures forall y :: y in t && y !in top && !t[y].permanent ==>
      t[y].status.Pending?
      || (t[y].status.Failed? && t[y].attempts < 3 && (t[y].retryAt.Some? ==> t[y].retryAt.value <= now)) ==>
        && |top| == l
        && forall x :: x in top ==>
             (t[x].status.Pending? && t[y].status.Failed?)
             || (t[x].status == t[y].status && t[x].createdAt >= t[y].createdAt)
  {
    var due := DueIn(t, Pending, now) + DueIn(t, Failed, now);
    forall y | y in t && y in due && y !in top ensures |top| == l {
      LeftOutMeansFull(due, l, top, y);
    }
    forall x, y | x in top && y in due && y !in top
      ensures !Better(t[y], t[x])
    {
      assert y in due - top;
    }
  }

  class Releases {
    var rows: Table

    constructor (t: Table)
      ensures rows == t
    {
      rows := t;
    }

    // Claim a batch: every claim is of a due release, and no due release left
    // out comes before one taken.
    method ListPendingReleases(now: int, limit: int) returns (top: set<nat>)
      modifies this
      ensures rows == Claimed(old(rows), top, now)
      ensures IsTop(old(rows), DueIn(old(rows), Pending, now) + DueIn(old(rows), Failed, now),
                    if limit <= 0 then DEFAULT_LIMIT else limit, top)
      ensures forall i :: i in top ==> Enabled(old(rows)[i], Claim(now))
      ensures rows.Keys == old(rows).Keys && forall i :: i in rows ==>
        rows[i] == if i in top then old(rows)[i].(attempts := old(rows)[i].attempts + 1) else old(rows)[i]
      ensures forall i :: i in top ==> i in old(rows) && var r := old(rows)[i];
        && !r.permanent && !r.status.Done?
        && (r.status.Failed? ==> r.attempts < 3 && (r.retryAt.Some? ==> r.retryAt.value <= now))
      ensures |top| <= if limit <= 0 then 100 else limit
      ensures var t := old(rows);
        forall y :: y in t && y !in top && !t[y].permanent ==>
          t[y].status.Pending?
          || (t[y].status.Failed? && t[y].attempts < 3 && (t[y].retryAt.Some? ==> t[y].retryAt.value <= now)) ==>
            && |top| == (if limit <= 0 then 100 else limit)
            && forall x :: x in top ==>
                 (t[x].status.Pending? && t[y].status.Failed?)
                 || (t[x].status == t[y].status && t[x].createdAt >= t[y].createdAt)
    {
      var l := if limit <= 0 then DEFAULT_LIMIT else limit;
      var ps, fs := DueIn(rows, Pending, now), DueIn(rows, Failed, now);
      var p := TopOf(rows, ps, l);
      var f := TopOf(rows, fs, l);
      top := TopOf(rows, p + f, l);
      BranchesAgree(rows, ps, fs, l, p, f, top);
      TopMeans(rows, now, l, top);
      rows := Claimed(rows, top, now);
    }

    // None when there is no such release. `seen` is what the first statement read.
    method RecordPPFailure(id: nat, permanent: bool, now: int) returns (gaveUp: Option<bool>)
      modifies this
      ensures gaveUp.None? <==> id !in old(rows)
      ensures id !in old(rows) ==> rows == old(rows)
      ensures id in old(rows) ==> var e := Fail(permanent, old(rows)[id].attempts, now);
        rows == old(rows)[id := Step(old(rows)[id], e)] && gaveUp == Some(GivesUp(e)) && (GivesUp(e) ==>
          rows[id].permanent)
      ensures id in old(rows) ==> var r := old(rows)[id]; var last := permanent || r.attempts >= 3;
        && gaveUp == Some(last)
        && rows == old(rows)[id := r.(status := Failed, permanent := r.permanent || last,
                                      retryAt := if last then None else Some(now + PPBackoff(r.attempts)))]
    {
      if id !in rows {
        return None;
      }
      var attempts := rows[id].attempts;
      if permanent || attempts >= MAX_ATTEMPTS {
        rows := rows[id := rows[id].(status := Failed, permanent := true, retryAt := None)];
        return Some(true);
      }
      rows := rows[id := rows[id].(status := Failed, retryAt := Some(now + PPBackoff(attempts)))];
      return Some(false);
    }

    // The number of releases put back to 'pending'.
    method RequeueFailedReleases() returns (n: nat)
      modifies this
      ensures rows.Keys == old(rows).Keys && forall i :: i in rows ==> rows[i] == Step(old(rows)[i], Requeue)
      ensures forall i :: i in rows ==> !rows[i].status.Failed?
      ensures forall i :: i in rows ==> var r := old(rows)[i];
        rows[i] == if r.status.Failed? then Row(Pending, 0, false, None, r.createdAt) else r
      ensures n == |set i | i in old(rows) && old(rows)[i].status.Failed?|
    {
      n := |set i | i in rows && rows[i].status.Failed?|;
      rows := map i | i in rows :: Step(rows[i], Requeue);
    }
  }
}
