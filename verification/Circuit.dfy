// Circuit breaking and failover across NNTP providers.
module Circuit {
  import opened Common

  datatype State = Closed | Open | HalfOpen

  datatype ErrorKind = Connection | Auth | Protocol | Retention

  const SECOND := 1_000_000_000
  const MINUTE := 60 * SECOND

  // The breaker's fields; times and durations in nanoseconds.
  datatype Breaker = Breaker(
    threshold: int,
    cooldown: int,
    maxCooldown: int,
    currentCooldown: int,
    consecutiveFailures: int,
    state: State,
    openedAt: int,
    probing: bool,
    opens: int)

  function New(threshold: int, cooldown: int): (b: Breaker)
  {
    var t := if threshold < 1 then 3 else threshold;
    var c := if cooldown <= 0 then 30 * SECOND else cooldown;
    var m := if c * 16 > 30 * MINUTE then c * 16 else 30 * MINUTE;
    Breaker(t, c, m, c, 0, Closed, 0, false, 0)
  }

  // May a request be sent now? The second answer says it is the probe.
  function Allow(b: Breaker, now: int): (r: (Breaker, bool, bool))
  {
    match b.state
    case Closed => (b, true, false)
    case HalfOpen => if b.probing then (b, false, false) else (b.(probing := true), true, true)
    case Open =>
      if now - b.openedAt >= b.currentCooldown
      then (b.(state := HalfOpen, probing := true), true, true)
      else (b, false, false)
  }

  function RecordSuccess(b: Breaker): (r: Breaker)
  {
    b.(consecutiveFailures := 0, state := Closed, currentCooldown := b.cooldown, probing := false)
  }

  function Backoff(b: Breaker): (r: Breaker)
  {
    var shift := if b.opens - 1 > 10 || b.opens < 1 then 10 else b.opens - 1;
    b.(currentCooldown := Min(b.cooldown * Pow2(shift), b.maxCooldown))
  }

  function RecordFailure(b: Breaker, kind: ErrorKind, now: int): (r: Breaker)
  {
    var f := b.(probing := false, consecutiveFailures := b.consecutiveFailures + 1);
    if kind.Auth? || f.consecutiveFailures >= f.threshold then
      (if f.state.Open? then f else Backoff(f.(opens := f.opens + 1))).(state := Open, openedAt := now)
    else if f.state.HalfOpen? then
      Backoff(f.(state := Open, openedAt := now, opens := f.opens + 1))
    else
      f
  }

  class CircuitBreaker {
    const threshold: int
    const cooldown: int
    const maxCooldown: int
    var currentCooldown: int
    var consecutiveFailures: int
    var state: State
    var openedAt: int
    var probing: bool
    var opens: int

    function View(): Breaker
      reads this
    {
      Breaker(threshold, cooldown, maxCooldown, currentCooldown, consecutiveFailures, state, openedAt, probing, opens)
    }

    constructor (threshold: int, cooldown: int)
      ensures View() == New(threshold, cooldown)
      ensures this.threshold == (if threshold < 1 then 3 else threshold)
      ensures this.cooldown == (if cooldown <= 0 then 30_000_000_000 else cooldown)
      ensures maxCooldown == Max(16 * this.cooldown, 1_800_000_000_000)
      ensures state == Closed && !probing && consecutiveFailures == 0 == opens && currentCooldown == this.cooldown
    {
      var t, c := threshold, cooldown;
      if t < 1 {
        t := 3;
      }
      if c <= 0 {
        c := 30 * SECOND;
      }
      var m := 30 * MINUTE;
      if c * 16 > m {
        m := c * 16;
      }
      this.threshold, this.cooldown, this.maxCooldown := t, c, m;
      currentCooldown, consecutiveFailures := c, 0;
      state, openedAt, probing, opens := Closed, 0, false, 0;
    }

    method Ask(now: int) returns (ok: bool, probe: bool)
      modifies this
      ensures (View(), ok, probe) == Allow(old(View()), now)
      ensures ok <==> || old(state).Closed? || (old(state).HalfOpen? && !old(probing))
                      || (old(state).Open? && now - old(openedAt) >= old(currentCooldown))
      ensures probe <==> ok && !old(state).Closed?
      ensures probe ==> state.HalfOpen? && probing
      ensures !probe ==> state == old(state) && probing == old(probing)
      ensures openedAt == old(openedAt) && opens == old(opens)
      ensures currentCooldown == old(currentCooldown) && consecutiveFailures == old(consecutiveFailures)
    {
      match state {
        case Closed =>
          return true, false;
        case HalfOpen =>
          if probing {
            return false, false;
          }
          probing := true;
          return true, true;
        case Open =>
          if now - openedAt >= currentCooldown {
            state := HalfOpen;
            probing := true;
            return true, true;
          }
          return false, false;
      }
    }

    method Succeed()
      modifies this
      ensures View() == RecordSuccess(old(View()))
      ensures state.Closed? && !probing && consecutiveFailures == 0 && currentCooldown == cooldown
      ensures opens == old(opens) && openedAt == old(openedAt)
    {
      consecutiveFailures := 0;
      state := Closed;
      currentCooldown := cooldown;
      probing := false;
    }

    method Fail(kind: ErrorKind, now: int)
      modifies this
      ensures View() == RecordFailure(old(View()), kind, now)
      ensures consecutiveFailures == old(consecutiveFailures) + 1 && !probing
      ensures state.Open? <==>
        !old(state).Closed? || kind.Auth? || old(consecutiveFailures) + 1 >= threshold
      ensures !state.Open? ==> state.Closed?
      ensures openedAt == if kind.Auth? || old(consecutiveFailures) + 1 >= threshold || old(state).HalfOpen?
                          then now else old(openedAt)
      ensures opens == old(opens) + if state.Open? && !old(state).Open? then 1 else 0
      ensures opens == old(opens) ==> currentCooldown == old(currentCooldown)
      ensures opens > old(opens) >= 0 ==> currentCooldown == Min(cooldown * Pow2(Min(opens - 1, 10)), maxCooldown)
    {
      probing := false;
      consecutiveFailures := consecutiveFailures + 1;
      if kind.Auth? || consecutiveFailures >= threshold {
        if !state.Open? {
          opens := opens + 1;
          BackoffCooldown();
        }
        state := Open;
        openedAt := now;
      } else if state.HalfOpen? {
        state := Open;
        openedAt := now;
        opens := opens + 1;
        BackoffCooldown();
      }
    }

    method BackoffCooldown()
      modifies this`currentCooldown
      ensures View() == Backoff(old(View()))
      ensures opens >= 1 ==> currentCooldown == Min(cooldown * Pow2(Min(opens - 1, 10)), maxCooldown)
    {
      var shift := opens - 1;
      if shift > 10 || shift < 0 {
        shift := 10;
      }
      currentCooldown := cooldown * Pow2(shift);
      if currentCooldown > maxCooldown {
        currentCooldown := maxCooldown;
      }
    }
  }

  // ---- runs ----

  datatype Event =
    | Asked(now: int)
    | Succeeded
    | Failed(kind: ErrorKind, now: int)

  function Step(b: Breaker, e: Event): (r: Breaker)
  {
    match e
    case Asked(now) => Allow(b, now).0
    case Succeeded => RecordSuccess(b)
    case Failed(kind, now) => RecordFailure(b, kind, now)
  }

  function Run(b: Breaker, es: seq<Event>): (r: Breaker)
    decreases |es|
  {
    if |es| == 0 then b else Run(Step(b, es[0]), es[1..])
  }

  // How often the run enters Open from another state.
  function Openings(b: Breaker, es: seq<Event>): (n: nat)
    decreases |es|
  {
    if |es| == 0 then 0
    else
      var b' := Step(b, es[0]);
      (if b'.state.Open? && !b.state.Open? then 1 else 0) + Openings(b', es[1..])
  }

  // Failures since the last success (or the start).
  function Streak(n: nat, es: seq<Event>): (r: nat)
    decreases |es|
  {
    if |es| == 0 then n
    else Streak(match es[0]
                case Asked(_) => n
                case Succeeded => 0
                case Failed(_, _) => n + 1, es[1..])
  }

  // The cooldown the n-th opening is meant to apply.
  function CooldownAfter(base: int, cap: int, n: nat): (r: int)
    requires n >= 1
  {
    Min(base * Pow2(if n - 1 > 10 then 10 else n - 1), cap)
  }

  ghost predicate Inv(b: Breaker)
  {
    && b.threshold >= 1 && b.cooldown >= 1 && b.opens >= 0
    && b.maxCooldown >= 16 * b.cooldown
    && (b.state.HalfOpen? <==> b.probing)
    && (b.state.Closed? ==> b.consecutiveFailures < b.threshold && b.currentCooldown == b.cooldown)
    && (!b.state.Closed? ==> b.opens >= 1 && b.currentCooldown == CooldownAfter(b.cooldown, b.maxCooldown, b.opens))
  }

  lemma StepKeepsInv(b: Breaker, e: Event)
    requires Inv(b)
    ensures Inv(Step(b, e))
    ensures Step(b, e).threshold == b.threshold
    ensures Step(b, e).cooldown == b.cooldown && Step(b, e).maxCooldown == b.maxCooldown
    ensures Step(b, e).opens == b.opens + Openings(b, [e])
  {
    assert [e][1..] == [];
    assert Openings(Step(b, e), []) == 0;
  }

  lemma {:induction false} RunKeepsInv(b: Breaker, es: seq<Event>)
    requires Inv(b) && b.consecutiveFailures >= 0
    ensures var f := Run(b, es);
      && Inv(f) && f.threshold == b.threshold && f.cooldown == b.cooldown && f.maxCooldown == b.maxCooldown
      && f.opens == b.opens + Openings(b, es)
      && f.consecutiveFailures == Streak(b.consecutiveFailures, es)
    decreases |es|
  {
    if |es| > 0 {
      var e := es[0];
      StepKeepsInv(b, e);
      assert [e][1..] == [] && Openings(Step(b, e), []) == 0;
      RunKeepsInv(Step(b, e), es[1..]);
    }
  }

  // Over every history of a breaker: it is closed only below the failure
  // threshold, `opens` is the number of openings in the history, and while it
  // is not closed the cooldown in force is the one of the latest opening.
  lemma BreakerHistory(threshold: int, cooldown: int, es: seq<Event>)
    ensures var b0 := New(threshold, cooldown); var b := Run(b0, es);
      && (b.state.Closed? ==> Streak(0, es) < b0.threshold)
      && b.opens == Openings(b0, es)
      && (!b.state.Closed? ==>
            && Openings(b0, es) >= 1
            && b.currentCooldown == CooldownAfter(b0.cooldown, b0.maxCooldown, Openings(b0, es)))
  {
    RunKeepsInv(New(threshold, cooldown), es);
  }

  lemma {:induction false} RunSnoc(b: Breaker, es: seq<Event>, e: Event)
    ensures Run(b, es + [e]) == Step(Run(b, es), e)
    decreases |es|
  {
    if |es| == 0 {
      assert es + [e] == [e] && [e][1..] == [];
      assert Run(Step(b, e), []) == Step(b, e);
    } else {
      RunSnoc(Step(b, es[0]), es[1..], e);
      assert (es + [e])[1..] == es[1..] + [e];
    }
  }

  // After any history, a failure leaves the circuit closed if and only if it
  // was closed, the failure is not one of authentication, and the failures in
  // a row stay below the threshold, which is the configured one when positive.
  lemma StaysClosedIff(threshold: int, cooldown: int, es: seq<Event>, kind: ErrorKind, now: int)
    ensures var b0 := New(threshold, cooldown);
      && b0.threshold == (if threshold >= 1 then threshold else 3)
      && b0.cooldown == (if cooldown > 0 then cooldown else 30_000_000_000)
      && (Run(b0, es + [Failed(kind, now)]).state.Closed? <==>
            Run(b0, es).state.Closed? && !kind.Auth? && Streak(0, es) + 1 < b0.threshold)
  {
    RunKeepsInv(New(threshold, cooldown), es);
    RunSnoc(New(threshold, cooldown), es, Failed(kind, now));
  }

  // After any history, a success closes the circuit.
  lemma SuccessCloses(threshold: int, cooldown: int, es: seq<Event>)
    ensures var b0 := New(threshold, cooldown); var b := Run(b0, es + [Succeeded]);
      b.state.Closed? && b.consecutiveFailures == 0 && b.currentCooldown == b0.cooldown && b.opens == Run(b0, es).opens
  {
    RunKeepsInv(New(threshold, cooldown), es);
    RunSnoc(New(threshold, cooldown), es, Succeeded);
  }

  // The answers given to a series of requests with no outcome in between.
  function Answers(b: Breaker, times: seq<int>): (r: seq<bool>)
    ensures |r| == |times|
    decreases |times|
  {
    if |times| == 0 then []
    else [Allow(b, times[0]).1] + Answers(Allow(b, times[0]).0, times[1..])
  }

  predicate Due(b: Breaker, now: int)
  {
    now - b.openedAt >= b.currentCooldown
  }

  // Until an outcome is recorded: a closed breaker admits everything, an open
  // one admits exactly the first request made once its cooldown has run out,
  // a half-open one admits nothing.
  lemma {:induction false} AdmissionRule(b: Breaker, times: seq<int>, i: nat)
    requires Inv(b) && i < |times|
    ensures Answers(b, times)[i] <==>
            b.state.Closed? || (b.state.Open? && Due(b, times[i]) && forall j :: 0 <= j < i ==> !Due(b, times[j]))
    decreases |times|
  {
    var b' := Allow(b, times[0]).0;
    StepKeepsInv(b, Asked(times[0]));
    if i > 0 {
      AdmissionRule(b', times[1..], i - 1);
      assert forall j :: 0 <= j < i - 1 ==> times[1..][j] == times[j + 1];
      if b.state.Open? && !Due(b, times[0]) && Due(b, times[i]) && !Answers(b, times)[i] {
        var j :| 0 <= j < i - 1 && Due(b', times[1..][j]);
        assert Due(b, times[j + 1]);
      }
    }
  }

  // Whatever the history `es`, a failure at time t that opens the circuit keeps
  // every request out until the cooldown of that opening has passed, and lets
  // exactly the first one after that through, as long as no outcome comes first.
  lemma OpeningKeepsOut(threshold: int, cooldown: int, es: seq<Event>, kind: ErrorKind, t: int, times: seq<int>, i: nat)
    requires var b := Run(New(threshold, cooldown), es);
      !b.state.Open? && RecordFailure(b, kind, t).state.Open?
    requires i < |times|
    ensures var b0 := New(threshold, cooldown);
      var until := t + CooldownAfter(b0.cooldown, b0.maxCooldown, Openings(b0, es) + 1);
      Answers(RecordFailure(Run(b0, es), kind, t), times)[i] <==>
        times[i] >= until && forall j :: 0 <= j < i ==> times[j] < until
  {
    var b0 := New(threshold, cooldown);
    RunKeepsInv(b0, es);
    var b := Run(b0, es);
    StepKeepsInv(b, Failed(kind, t));
    AdmissionRule(RecordFailure(b, kind, t), times, i);
    assert forall j :: 0 <= j < i ==> (Due(RecordFailure(b, kind, t), times[j])
      <==> times[j] >= t + CooldownAfter(b0.cooldown, b0.maxCooldown, Openings(b0, es) + 1));
  }

  // A success does not wind the backoff back: whichever failure opens the
  // circuit next, at the threshold, by authentication or as a probe, it waits
  // the base cooldown only if the breaker had never opened before.
  lemma NextOpeningUsesBaseIff(b: Breaker, kind: ErrorKind, now: int)
    requires Inv(b) && !b.state.Open? && RecordFailure(b, kind, now).state.Open?
    ensures RecordFailure(b, kind, now).currentCooldown == b.cooldown <==> b.opens == 0
  {
    Doubles(b.opens);
  }

  // An opening, a success, and the next opening waits twice the base cooldown.
  lemma SuccessKeepsBackoff(threshold: int, cooldown: int, now: int)
    ensures var b := New(threshold, cooldown);
      && Run(b, [Failed(Auth, now), Succeeded]).currentCooldown == b.cooldown
      && Run(b, [Failed(Auth, now), Succeeded, Failed(Auth, now)]).currentCooldown == 2 * b.cooldown
  {
    var b := New(threshold, cooldown);
    var e, f := Failed(Auth, now), Succeeded;
    assert [e, f, e][1..] == [f, e] && [f, e][1..] == [e] && [e][1..] == [] && [e, f][1..] == [f] && [f][1..] == [];
    var b1 := Step(b, e);
    var b2 := Step(b1, f);
    assert Run(b2, []) == b2 && Run(b1, [f]) == b2;
    assert Run(b2, [e]) == Run(Step(b2, e), []) == Step(b2, e);
    assert Run(b1, [f, e]) == Run(b2, [e]);
    assert Pow2(1) == 2 * Pow2(0);
  }

  lemma {:induction false} Doubles(n: nat)
    ensures n >= 1 ==> Pow2(n) >= 2
    ensures n >= 10 ==> Pow2(10) == 1024
  {
    if n >= 10 {
      assert Pow2(10) == 2 * 2 * Pow2(8) && Pow2(8) == 4 * 4 * Pow2(4) && Pow2(4) == 4 * 4 * Pow2(0);
    }
  }

  // 64-bit durations do not overflow for any base cooldown below 2^53 ns (about 104 days).
  lemma CooldownFits(threshold: int, cooldown: int, shift: nat)
    requires cooldown < 0x20_0000_0000_0000 && shift <= 10
    ensures var b := New(threshold, cooldown);
      0 < b.cooldown * Pow2(shift) <= 0x7FFF_FFFF_FFFF_FFFF && 0 < b.maxCooldown <= 0x7FFF_FFFF_FFFF_FFFF
  {
    Pow2Grows(shift, 10);
    Doubles(10);
    var b := New(threshold, cooldown);
    assert b.cooldown * Pow2(shift) <= b.cooldown * 1024;
  }
}

module Failover {
  import opened Common
  import opened Circuit

  // What an operation against one provider comes to.
  datatype Outcome = Ok | Err(kind: ErrorKind)

  datatype RunResult =
    | Served              // nil error
    | Answered(kind: ErrorKind)   // the server answered with an error
    | AllFailed(kind: ErrorKind)  // the last connection or authentication error
    | NoHealthyServer
    | ContextDone

  // The provider answered, so the router stops there.
  predicate Settles(o: Outcome)
  {
    o.Ok? || o.kind.Protocol? || o.kind.Retention?
  }

  // What the world does during one operation, per provider: the outcome an
  // attempt would have and the clock readings; and whether the context is
  // done when the i-th provider is reached.
  datatype World = World(outcome: seq<Outcome>, askedAt: seq<int>, failedAt: seq<int>, cancelled: seq<bool>)

  predicate Covers(w: World, n: nat)
  {
    |w.outcome| == |w.askedAt| == |w.failedAt| == |w.cancelled| == n
  }

  // Visiting provider k: skipped when its circuit denies, otherwise exactly
  // one outcome is recorded.
  function Visited(b: Breaker, w: World, k: nat): (r: Breaker)
    requires k < |w.outcome| == |w.askedAt| == |w.failedAt|
  {
    var (b', ok, _) := Allow(b, w.askedAt[k]);
    if !ok then b'
    else if Settles(w.outcome[k]) then RecordSuccess(b')
    else RecordFailure(b', w.outcome[k].kind, w.failedAt[k])
  }

  // A completed visit never leaves a probe hanging.
  lemma VisitResolvesProbe(b: Breaker, w: World, k: nat)
    requires k < |w.outcome| == |w.askedAt| == |w.failedAt|
    requires Inv(b) && !b.state.HalfOpen?
    ensures Inv(Visited(b, w, k)) && !Visited(b, w, k).state.HalfOpen?
  {
    StepKeepsInv(b, Asked(w.askedAt[k]));
    var b' := Allow(b, w.askedAt[k]).0;
    StepKeepsInv(b', Succeeded);
    if w.outcome[k].Err? {
      StepKeepsInv(b', Failed(w.outcome[k].kind, w.failedAt[k]));
    }
  }

  // The provider tried i-th, and its inverse.
  function Rotated(start: nat, i: nat, n: nat): (k: nat)
    requires start < n && i < n
    ensures k < n && Position(start, k, n) == i
  {
    WrapsOnce(start + i, n);
    (start + i) % n
  }

  function Position(start: nat, k: nat, n: nat): (i: nat)
    requires start < n && k < n
  {
    if k >= start then k - start else k + n - start
  }

  lemma WrapsOnce(x: nat, n: nat)
    requires 0 < n && x < 2 * n
    ensures x % n == if x < n then x else x - n
  {
    var q, r := x / n, x % n;
    assert x == q * n + r;
    assert q >= 2 ==> (q - 2) * n >= 0;
    assert (q - 2) * n == q * n - 2 * n;
    if q == 1 {
      assert q * n == n;
    }
  }

  predicate Admits(v: seq<Breaker>, w: World, start: nat, i: nat)
    requires Covers(w, |v|) && start < |v| && i < |v|
  {
    var k := Rotated(start, i, |v|);
    Allow(v[k], w.askedAt[k]).1
  }

  function OutcomeAt(w: World, n: nat, start: nat, i: nat): Outcome
    requires Covers(w, n) && start < n && i < n
  {
    w.outcome[Rotated(start, i, n)]
  }

  // The breakers after the first `stop` providers have been visited once each.
  function After(v: seq<Breaker>, w: World, start: nat, stop: nat): (r: seq<Breaker>)
    requires Covers(w, |v|) && start < |v|
  {
    seq(|v|, k requires 0 <= k < |v| => if Position(start, k, |v|) < stop then Visited(v[k], w, k) else v[k])
  }

  lemma AfterNext(v: seq<Breaker>, w: World, start: nat, stop: nat)
    requires Covers(w, |v|) && start < |v| && stop < |v|
    ensures var k := Rotated(start, stop, |v|);
      && After(v, w, start, stop)[k] == v[k]
      && After(v, w, start, stop + 1) == After(v, w, start, stop)[k := Visited(v[k], w, k)]
  {
  }

  // The i-th provider was reached and passed over: skipped or failed over from.
  predicate Passed(v: seq<Breaker>, w: World, start: nat, i: nat)
    requires Covers(w, |v|) && start < |v| && i < |v|
  {
    !w.cancelled[i] && (Admits(v, w, start, i) ==> !Settles(OutcomeAt(w, |v|, start, i)))
  }

  // `r` is what a run that visited `stop` providers must report.
  ghost predicate Explains(v: seq<Breaker>, w: World, start: nat, stop: nat, r: RunResult)
    requires Covers(w, |v|) && start < |v|
  {
    && stop <= |v|
    && (forall i :: 0 <= i < stop && (i < stop - 1 || !(r.Served? || r.Answered?)) ==> Passed(v, w, start, i))
    && match r
       case Served =>
         && stop >= 1 && !w.cancelled[stop - 1] && Admits(v, w, start, stop - 1)
         && OutcomeAt(w, |v|, start, stop - 1) == Ok
       case Answered(kind) =>
         && stop >= 1 && !w.cancelled[stop - 1] && Admits(v, w, start, stop - 1)
         && OutcomeAt(w, |v|, start, stop - 1) == Err(kind) && Settles(Err(kind))
       case ContextDone => stop < |v| && w.cancelled[stop]
       case NoHealthyServer => stop == |v| && forall i :: 0 <= i < stop ==> !Admits(v, w, start, i)
       case AllFailed(kind) => stop == |v| && exists i :: 0 <= i < stop && LastTry(v, w, start, i, stop, kind)
  }

  ghost predicate LastTry(v: seq<Breaker>, w: World, start: nat, i: nat, stop: nat, kind: ErrorKind)
    requires Covers(w, |v|) && start < |v| && i < stop <= |v|
  {
    && Admits(v, w, start, i) && OutcomeAt(w, |v|, start, i) == Err(kind)
    && forall j :: i < j < stop ==> !Admits(v, w, start, j)
  }

  // The first `stop` providers were all passed over; lastErr is the last failure among them.
  ghost predicate SoFar(v: seq<Breaker>, w: World, start: nat, stop: nat, lastErr: Option<ErrorKind>)
    requires Covers(w, |v|) && start < |v|
  {
    && stop <= |v| && (forall i :: 0 <= i < stop ==> Passed(v, w, start, i))
    && (lastErr.None? ==> forall i :: 0 <= i < stop ==> !Admits(v, w, start, i))
    && (lastErr.Some? ==> exists i :: 0 <= i < stop && LastTry(v, w, start, i, stop, lastErr.value))
  }

  lemma NothingTried(v: seq<Breaker>, w: World, start: nat)
    requires Covers(w, |v|) && start < |v|
    ensures SoFar(v, w, start, 0, None) && After(v, w, start, 0) == v
  {
  }

  lemma StopsHere(v: seq<Breaker>, w: World, start: nat, stop: nat, lastErr: Option<ErrorKind>)
    requires Covers(w, |v|) && start < |v| && SoFar(v, w, start, stop, lastErr) && stop < |v| && w.cancelled[stop]
    ensures Explains(v, w, start, stop, ContextDone)
  {
  }

  lemma NoneSettled(v: seq<Breaker>, w: World, start: nat, lastErr: Option<ErrorKind>)
    requires Covers(w, |v|) && start < |v| && SoFar(v, w, start, |v|, lastErr)
    ensures Explains(v, w, start, |v|, if lastErr.None? then NoHealthyServer else AllFailed(lastErr.value))
  {
  }

  lemma TriedOne(v: seq<Breaker>, w: World, start: nat, stop: nat, lastErr: Option<ErrorKind>)
    requires Covers(w, |v|) && start < |v| && SoFar(v, w, start, stop, lastErr) && stop < |v| && !w.cancelled[stop]
    ensures var k := Rotated(start, stop, |v|); var ok := Allow(v[k], w.askedAt[k]).1;
      if ok && Settles(w.outcome[k])
      then Explains(v, w, start, stop + 1, if w.outcome[k].Ok? then Served else Answered(w.outcome[k].kind))
      else SoFar(v, w, start, stop + 1, if ok then Some(w.outcome[k].kind) else lastErr)
  {
    hide Rotated, Allow;
    var k := Rotated(start, stop, |v|);
    var ok := Allow(v[k], w.askedAt[k]).1;
    assert Admits(v, w, start, stop) == ok && OutcomeAt(w, |v|, start, stop) == w.outcome[k];
    if ok && !Settles(w.outcome[k]) {
      assert LastTry(v, w, start, stop, stop + 1, w.outcome[k].kind);
    } else if !ok && lastErr.Some? {
      var i :| 0 <= i < stop && LastTry(v, w, start, i, stop, lastErr.value);
      assert LastTry(v, w, start, i, stop + 1, lastErr.value);
    }
  }

  // A run succeeds exactly when some admitted provider succeeds and every
  // provider before it was skipped or failed by connection or authentication;
  // it reports no healthy server exactly when the context stays live and no
  // circuit admits.
  lemma ResultExactly(v: seq<Breaker>, w: World, start: nat, stop: nat, r: RunResult)
    requires Covers(w, |v|) && start < |v| && Explains(v, w, start, stop, r)
    ensures r.Served? <==> exists i :: 0 <= i < |v| && ServesAt(v, w, start, i)
    ensures r.NoHealthyServer? <==> forall i :: 0 <= i < |v| ==> !w.cancelled[i] && !Admits(v, w, start, i)
  {
    if i :| 0 <= i < |v| && ServesAt(v, w, start, i) {
      assert !Passed(v, w, start, i);
      forall j | 0 <= j < i ensures !w.cancelled[j] && Passed(v, w, start, j) {
        assert Passed(v, w, start, j);
      }
      assert r.Served?;
    }
    if r.Served? {
      assert ServesAt(v, w, start, stop - 1);
    }
    if r.NoHealthyServer? {
      forall i | 0 <= i < |v| ensures !w.cancelled[i] && !Admits(v, w, start, i) {
        assert Passed(v, w, start, i);
      }
    }
  }

  // Provider number (start + i) mod n is reached as the i-th, before the context
  // is done, and admitted.
  predicate Reached(v: seq<Breaker>, w: World, start: nat, i: nat)
    requires Covers(w, |v|) && start < |v| && i < |v|
  {
    !w.cancelled[i] && Allow(v[(start + i) % |v|], w.askedAt[(start + i) % |v|]).1
  }

  // Every provider before the i-th is skipped by its circuit, or fails by
  // connection or authentication.
  ghost predicate FailsOverTo(v: seq<Breaker>, w: World, start: nat, i: nat)
    requires Covers(w, |v|) && start < |v| && i <= |v|
  {
    forall j :: 0 <= j < i ==>
      && !w.cancelled[j]
      && (Reached(v, w, start, j) ==>
            var o := w.outcome[(start + j) % |v|]; o.Err? && (o.kind.Connection? || o.kind.Auth?))
  }

  // A run ends at the first provider that answers: with success, or with the
  // answer's error when that is one of protocol or retention, which neither
  // fails over nor lets a later provider be asked.
  lemma StopsAtFirstAnswer(v: seq<Breaker>, w: World, start: nat, stop: nat, r: RunResult)
    requires Covers(w, |v|) && start < |v| && Explains(v, w, start, stop, r)
    ensures r.Served? <==> exists i :: 0 <= i < |v| && Reached(v, w, start, i) && FailsOverTo(v, w, start, i)
                             && w.outcome[(start + i) % |v|] == Ok
    ensures forall kind :: r == Answered(kind) <==>
      exists i :: 0 <= i < |v| && Reached(v, w, start, i) && FailsOverTo(v, w, start, i)
        && w.outcome[(start + i) % |v|] == Err(kind) && (kind.Protocol? || kind.Retention?)
    ensures r.Served? || r.Answered? ==>
      stop >= 1 && Reached(v, w, start, stop - 1) && FailsOverTo(v, w, start, stop - 1)
  {
    hide Allow;
    forall i | 0 <= i < |v|
      ensures Reached(v, w, start, i) == (!w.cancelled[i] && Admits(v, w, start, i))
      ensures OutcomeAt(w, |v|, start, i) == w.outcome[(start + i) % |v|]
    {
    }
    hide Rotated;
    forall i | 0 <= i <= |v|
      ensures FailsOverTo(v, w, start, i) <==> forall j :: 0 <= j < i ==> Passed(v, w, start, j)
    {
      forall j | 0 <= j < i
        ensures Passed(v, w, start, j) <==>
          !w.cancelled[j] && (Reached(v, w, start, j) ==>
            var o := w.outcome[(start + j) % |v|]; o.Err? && (o.kind.Connection? || o.kind.Auth?))
      {
      }
    }
    ghost var last := stop - 1;
    assert forall i :: 0 <= i < |v| && Reached(v, w, start, i) && Settles(w.outcome[(start + i) % |v|]) ==>
      !Passed(v, w, start, i);
    if i :| 0 <= i < |v| && Reached(v, w, start, i) && FailsOverTo(v, w, start, i)
            && Settles(w.outcome[(start + i) % |v|]) {
      assert forall j :: 0 <= j < i ==> Passed(v, w, start, j);
      assert last == i;
    }
  }

  ghost predicate ServesAt(v: seq<Breaker>, w: World, start: nat, i: nat)
    requires Covers(w, |v|) && start < |v| && i < |v|
  {
    && !w.cancelled[i] && Admits(v, w, start, i) && OutcomeAt(w, |v|, start, i) == Ok
    && forall j :: 0 <= j < i ==> Passed(v, w, start, j)
  }

  ghost predicate Quiet(v: seq<Breaker>)
  {
    forall k :: 0 <= k < |v| ==> Inv(v[k]) && !v[k].state.HalfOpen?
  }

  // After any sequential operation no breaker is left half-open.
  lemma AfterIsQuiet(v: seq<Breaker>, w: World, start: nat, stop: nat)
    requires Covers(w, |v|) && start < |v| && Quiet(v)
    ensures Quiet(After(v, w, start, stop))
  {
    forall k | 0 <= k < |v| ensures Inv(After(v, w, start, stop)[k]) && !After(v, w, start, stop)[k].state.HalfOpen? {
      VisitResolvesProbe(v[k], w, k);
    }
  }

  class FailoverPool {
    var endpoints: seq<CircuitBreaker>  // in priority order
    const loadBalance: bool
    var rrIndex: nat

    ghost function Views(): (v: seq<Breaker>)
      reads this, endpoints
    {
      seq(|endpoints|, i requires 0 <= i < |endpoints| reads this, endpoints => endpoints[i].View())
    }

    // Between operations every breaker is sound and none waits for a probe.
    ghost predicate Valid()
      reads this, endpoints
    {
      Distinct() && Quiet(Views())
    }

    ghost predicate Distinct()
      reads this
    {
      forall i, j :: 0 <= i < j < |endpoints| ==> endpoints[i] != endpoints[j]
    }

    // Ask provider k's breaker, and record the outcome when it admits.
    method VisitOne(k: nat, w: World) returns (ok: bool)
      requires Distinct() && k < |endpoints| && Covers(w, |endpoints|)
      modifies endpoints[k]
      ensures Views() == old(Views())[k := Visited(old(Views())[k], w, k)]
      ensures ok == Allow(old(Views())[k], w.askedAt[k]).1
      ensures ok && (w.outcome[k].Ok? || w.outcome[k].kind.Protocol? || w.outcome[k].kind.Retention?) ==>
        endpoints[k].state.Closed? && endpoints[k].consecutiveFailures == 0
      ensures ok && w.outcome[k].Err? && (w.outcome[k].kind.Connection? || w.outcome[k].kind.Auth?) ==>
        endpoints[k].consecutiveFailures == old(endpoints[k].consecutiveFailures) + 1
      ensures !ok ==> endpoints[k].consecutiveFailures == old(endpoints[k].consecutiveFailures)
    {
      var probe;
      ok, probe := endpoints[k].Ask(w.askedAt[k]);
      if ok {
        if Settles(w.outcome[k]) {
          endpoints[k].Succeed();
        } else {
          endpoints[k].Fail(w.outcome[k].kind, w.failedAt[k]);
        }
      }
    }

    // The endpoint loop, from `start` on; `stop` is the number of providers visited.
    method Route(w: World, start: nat) returns (r: RunResult, stop: nat)
      requires Distinct() && Covers(w, |endpoints|) && start < |endpoints|
      modifies endpoints
      ensures Views() == After(old(Views()), w, start, stop)
      ensures Explains(old(Views()), w, start, stop, r)
    {
      hide SoFar, Explains, After, Rotated;
      var lastErr: Option<ErrorKind> := None;
      ghost var v := Views();
      stop := 0;
      NothingTried(v, w, start);
      while stop < |endpoints|
        invariant stop <= |endpoints| == |v| && Views() == After(v, w, start, stop) && SoFar(v, w, start, stop, lastErr)
      {
        if w.cancelled[stop] {
          StopsHere(v, w, start, stop, lastErr);
          return ContextDone, stop;
        }
        var k := Rotated(start, stop, |endpoints|);
        AfterNext(v, w, start, stop);
        TriedOne(v, w, start, stop, lastErr);
        var ok := VisitOne(k, w);
        stop := stop + 1;
        if ok && Settles(w.outcome[k]) {
          return if w.outcome[k].Ok? then Served else Answered(w.outcome[k].kind), stop;
        }
        if ok {
          lastErr := Some(w.outcome[k].kind);
        }
      }
      NoneSettled(v, w, start, lastErr);
      if lastErr.None? {
        return NoHealthyServer, stop;
      }
      return AllFailed(lastErr.value), stop;
    }

    method Run(w: World) returns (r: RunResult, start: nat, stop: nat)
      requires Valid() && Covers(w, |endpoints|)
      modifies this`rrIndex, endpoints
      ensures Valid()
      ensures rrIndex == old(rrIndex) + (if loadBalance && |endpoints| > 0 then 1 else 0)
      ensures |endpoints| == 0 ==> r.NoHealthyServer?
      ensures |endpoints| > 0 ==>
        && start == (if loadBalance then old(rrIndex) % |endpoints| else 0)
        && Views() == After(old(Views()), w, start, stop)
        && Explains(old(Views()), w, start, stop, r)
    {
      if |endpoints| == 0 {
        return NoHealthyServer, 0, 0;
      }
      ghost var v := Views();
      start := 0;
      if loadBalance {
        start := rrIndex % |endpoints|;
        rrIndex := rrIndex + 1;
      }
      assert Views() == v;
      r, stop := Route(w, start);
      AfterIsQuiet(v, w, start, stop);
    }
  }
}
