// The fixed-window rate limiter. Times and durations are nanoseconds.
module RateLimit {
  import opened Common

  const HOUR := 3_600_000_000_000

  datatype Window = Window(count: int, reset: int)

  type Windows = map<string, Window>

  datatype Answer = Answer(allowed: bool, remaining: int, resetAt: Option<int>)

  // The window a request at `now` counts against.
  function Current(m: Windows, span: int, key: string, now: int): (w: Window)
  {
    if key !in m || now > m[key].reset then Window(0, now + span) else m[key]
  }

  function Allow(m: Windows, span: int, key: string, limit: int, now: int): (r: (Windows, Answer))
  {
    if limit <= 0 then (m, Answer(true, -1, None))
    else
      var w := Current(m, span, key, now);
      if w.count >= limit then (m[key := w], Answer(false, 0, Some(w.reset)))
      else (m[key := Window(w.count + 1, w.reset)], Answer(true, limit - w.count - 1, Some(w.reset)))
  }

  function Cleaned(m: Windows, now: int): (n: Windows)
  {
    map k | k in m && now <= m[k].reset :: m[k]
  }

  class RateLimiter {
    const window: int
    var windows: Windows

    constructor (span: int)
      ensures window == (if span <= 0 then 3_600_000_000_000 else span) && windows == map[]
    {
      window := if span <= 0 then HOUR else span;
      windows := map[];
    }

    method Ask(key: string, limit: int, now: int) returns (a: Answer)
      modifies this
      ensures (windows, a) == Allow(old(windows), window, key, limit, now)
      ensures limit <= 0 ==> windows == old(windows) && a == Answer(true, -1, None)
      ensures limit > 0 ==>
        var open := key in old(windows) && now <= old(windows)[key].reset;
        var w := if open then old(windows)[key] else Window(0, now + window);
        && a.allowed == (w.count < limit) && a.resetAt == Some(w.reset)
        && a.remaining == (if a.allowed then limit - w.count - 1 else 0)
        && windows == old(windows)[key := Window(if a.allowed then w.count + 1 else w.count, w.reset)]
    {
      if limit <= 0 {
        return Answer(true, -1, None);
      }
      if key !in windows || now > windows[key].reset {
        windows := windows[key := Window(0, now + window)];
      }
      var w := windows[key];
      if w.count >= limit {
        assert windows[key := w] == windows;
        return Answer(false, 0, Some(w.reset));
      }
      windows := windows[key := Window(w.count + 1, w.reset)];
      assert windows == old(windows)[key := Window(w.count + 1, w.reset)];
      return Answer(true, limit - w.count - 1, Some(w.reset));
    }

    method Cleanup(now: int)
      modifies this
      ensures windows == Cleaned(old(windows), now)
      ensures forall k :: k in windows <==> k in old(windows) && now <= old(windows)[k].reset
      ensures forall k :: k in windows ==> windows[k] == old(windows)[k]
    {
      var keys := windows.Keys;
      ghost var all := windows;
      while keys != {}
        invariant keys <= all.Keys
        invariant forall k :: k in windows <==> k in all && (k in keys || now <= all[k].reset)
        invariant forall k :: k in windows ==> windows[k] == all[k]
        decreases keys
      {
        var k :| k in keys;
        if now > windows[k].reset {
          windows := windows - {k};
        }
        keys := keys - {k};
      }
      assert windows == Cleaned(all, now);
    }
  }

  // ---- runs ----

  datatype Event = Request(key: string, limit: int, now: int) | Clean(now: int)

  function Step(m: Windows, span: int, e: Event): (n: Windows)
  {
    match e
    case Request(key, limit, now) => Allow(m, span, key, limit, now).0
    case Clean(now) => Cleaned(m, now)
  }

  function Run(span: int, es: seq<Event>): (m: Windows)
    decreases |es|
  {
    if es == [] then map[] else Step(Run(span, es[..|es| - 1]), span, es[|es| - 1])
  }

  // The same run with every Cleanup ignored.
  function Kept(span: int, es: seq<Event>): (m: Windows)
    decreases |es|
  {
    if es == [] then map[]
    else
      var m, e := Kept(span, es[..|es| - 1]), es[|es| - 1];
      if e.Clean? then m else Step(m, span, e)
  }

  ghost predicate ClockForward(es: seq<Event>)
  {
    forall i, j :: 0 <= i < j < |es| ==> es[i].now <= es[j].now
  }

  // The tables agree on every window that is open at `now` or later.
  ghost predicate Alike(m: Windows, n: Windows, now: int)
  {
    && (forall k :: k in m && now <= m[k].reset ==> k in n && n[k] == m[k])
    && (forall k :: k in n && now <= n[k].reset ==> k in m && m[k] == n[k])
  }

  lemma AlikeAnswers(m: Windows, n: Windows, span: int, key: string, limit: int, now: int)
    requires Alike(m, n, now)
    ensures Allow(m, span, key, limit, now).1 == Allow(n, span, key, limit, now).1
    ensures Alike(Allow(m, span, key, limit, now).0, Allow(n, span, key, limit, now).0, now)
  {
  }

  lemma {:induction false} CleanupIsInvisible(span: int, es: seq<Event>)
    requires ClockForward(es)
    ensures es != [] ==> Alike(Run(span, es), Kept(span, es), es[|es| - 1].now)
    decreases |es|
  {
    if es != [] {
      var rest, e := es[..|es| - 1], es[|es| - 1];
      CleanupIsInvisible(span, rest);
      if rest != [] {
        assert rest[|rest| - 1].now <= e.now;
      }
      if e.Request? {
        AlikeAnswers(Run(span, rest), Kept(span, rest), span, e.key, e.limit, e.now);
      }
    }
  }

  // A Cleanup at any moment changes no later answer.
  lemma CleanupChangesNoAnswer(span: int, es: seq<Event>, key: string, limit: int, now: int)
    requires ClockForward(es) && (es != [] ==> es[|es| - 1].now <= now)
    ensures Allow(Run(span, es), span, key, limit, now).1 == Allow(Kept(span, es), span, key, limit, now).1
  {
    CleanupIsInvisible(span, es);
    AlikeAnswers(Run(span, es), Kept(span, es), span, key, limit, now);
  }

  // ---- counting grants ----

  // A limited request for the key that the limiter grants.
  predicate Granted(m: Windows, span: int, e: Event, key: string)
  {
    e.Request? && e.key == key && e.limit > 0 && Allow(m, span, key, e.limit, e.now).1.allowed
  }

  predicate LastGrants(span: int, es: seq<Event>, key: string)
    requires es != []
  {
    Granted(Run(span, es[..|es| - 1]), span, es[|es| - 1], key)
  }

  // Grants to the key at times in [from, to].
  function Grants(span: int, es: seq<Event>, key: string, from: int, to: int): (n: nat)
    decreases |es|
  {
    if es == [] then 0
    else
      Grants(span, es[..|es| - 1], key, from, to)
        + if LastGrants(span, es, key) && from <= es[|es| - 1].now <= to then 1 else 0
  }

  ghost predicate LimitsAtMost(es: seq<Event>, key: string, limit: int)
  {
    forall i :: 0 <= i < |es| && es[i].Request? && es[i].key == key ==> es[i].limit <= limit
  }

  // What the key's last window, open or not, says about its grants so far;
  // `last` is the time of the latest event.
  ghost predicate Tally(span: int, es: seq<Event>, key: string, limit: int, last: int)
  {
    var m := Kept(span, es);
    if key !in m then forall t :: Grants(span, es, key, t, last) == 0
    else
      var w := m[key];
      && w.reset - span <= last && 1 <= w.count <= limit
      && Grants(span, es, key, w.reset - span, last) == w.count
      && (forall t :: t > w.reset - span ==> Grants(span, es, key, t, last) < w.count)
      && (forall t :: t > w.reset ==> Grants(span, es, key, t, last) == 0)
      && (forall t :: t >= w.reset - 2 * span ==> Grants(span, es, key, t, last) < w.count + limit)
  }

  // Nothing is granted after the last event, so a later end counts the same.
  lemma {:induction false} EndIsFree(span: int, es: seq<Event>, key: string, from: int, a: int, b: int)
    requires forall i :: 0 <= i < |es| ==> es[i].now <= a
    requires a <= b
    ensures Grants(span, es, key, from, a) == Grants(span, es, key, from, b)
    decreases |es|
  {
    if es != [] {
      EndIsFree(span, es[..|es| - 1], key, from, a, b);
    }
  }

  lemma {:induction false} TallyHolds(span: int, es: seq<Event>, key: string, limit: int)
    requires span > 0 && limit > 0 && ClockForward(es) && LimitsAtMost(es, key, limit)
    ensures es != [] ==> Tally(span, es, key, limit, es[|es| - 1].now)
    decreases |es|
  {
    if es != [] {
      var rest, e := es[..|es| - 1], es[|es| - 1];
      TallyHolds(span, rest, key, limit);
      if rest != [] {
        var last := rest[|rest| - 1].now;
        assert last <= e.now;
        LaterTally(span, rest, key, limit, last, e.now);
      }
      assert e.Request? && e.key == key ==> e.limit <= limit;
      TallyStep(span, es, key, limit);
    }
  }

  lemma LaterTally(span: int, es: seq<Event>, key: string, limit: int, last: int, now: int)
    requires Tally(span, es, key, limit, last) && last <= now
    requires forall i :: 0 <= i < |es| ==> es[i].now <= last
    ensures Tally(span, es, key, limit, now)
  {
    hide Grants, Kept;
    forall t
      ensures Grants(span, es, key, t, now) == Grants(span, es, key, t, last)
    {
      EndIsFree(span, es, key, t, last, now);
    }
  }

  lemma TallyStep(span: int, es: seq<Event>, key: string, limit: int)
    requires span > 0 && limit > 0 && es != [] && ClockForward(es)
    requires Tally(span, es[..|es| - 1], key, limit, es[|es| - 1].now)
    requires es[|es| - 1].Request? && es[|es| - 1].key == key ==> es[|es| - 1].limit <= limit
    ensures Tally(span, es, key, limit, es[|es| - 1].now)
  {
    hide Run, Alike, Kept, Grants, ClockForward;
    var rest, e := es[..|es| - 1], es[|es| - 1];
    KeptNext(span, es);
    AnswerNext(span, es, key);
    forall t
      ensures Grants(span, es, key, t, e.now) ==
        Grants(span, rest, key, t, e.now) + if LastGrants(span, es, key) && t <= e.now then 1 else 0
    {
      GrantsNext(span, es, key, t);
    }
    if key in Kept(span, rest) {
      forall t
        ensures t >= e.now - span && e.now > Kept(span, rest)[key].reset ==>
          Grants(span, rest, key, t, e.now) < Kept(span, rest)[key].count
      {
      }
    }
  }

  lemma KeptNext(span: int, es: seq<Event>)
    requires es != []
    ensures var m, e := Kept(span, es[..|es| - 1]), es[|es| - 1];
      Kept(span, es) == if e.Clean? then m else Allow(m, span, e.key, e.limit, e.now).0
  {
  }

  lemma GrantsNext(span: int, es: seq<Event>, key: string, from: int)
    requires es != []
    ensures var e := es[|es| - 1];
      Grants(span, es, key, from, e.now) ==
      Grants(span, es[..|es| - 1], key, from, e.now) + if LastGrants(span, es, key) && from <= e.now then 1 else 0
  {
  }

  lemma AnswerNext(span: int, es: seq<Event>, key: string)
    requires es != [] && ClockForward(es)
    ensures var m, e := Kept(span, es[..|es| - 1]), es[|es| - 1];
      LastGrants(span, es, key) <==>
      e.Request? && e.key == key && e.limit > 0 && Current(m, span, key, e.now).count < e.limit
  {
    var rest, e := es[..|es| - 1], es[|es| - 1];
    if e.Request? {
      CleanupChangesNoAnswer(span, rest, key, e.limit, e.now);
    }
  }

  // At most `limit` grants in any one window, and at most 2 * limit - 1 in any
  // interval no longer than the window, wherever it lies.
  lemma {:induction false} GrantsInInterval(span: int, es: seq<Event>, key: string, limit: int, from: int, to: int)
    requires span > 0 && limit > 0 && ClockForward(es) && LimitsAtMost(es, key, limit)
    requires to - from <= span
    ensures Grants(span, es, key, from, to) <= 2 * limit - 1
    decreases |es|
  {
    if es != [] {
      var rest, e := es[..|es| - 1], es[|es| - 1];
      if e.now > to {
        GrantsInInterval(span, rest, key, limit, from, to);
      } else {
        TallyHolds(span, es, key, limit);
        EndIsFree(span, es, key, from, e.now, to);
      }
    }
  }

  // The open window of a key holds at most `limit` grants, the first of them
  // at its very start.
  lemma GrantsPerWindow(span: int, es: seq<Event>, key: string, limit: int)
    requires span > 0 && limit > 0 && ClockForward(es) && LimitsAtMost(es, key, limit)
    requires es != [] && key in Run(span, es) && es[|es| - 1].now <= Run(span, es)[key].reset
    ensures var w := Run(span, es)[key];
      Grants(span, es, key, w.reset - span, w.reset) == w.count <= limit
  {
    TallyHolds(span, es, key, limit);
    CleanupIsInvisible(span, es);
    var w := Run(span, es)[key];
    assert Kept(span, es)[key] == w;
    EndIsFree(span, es, key, w.reset - span, es[|es| - 1].now, w.reset);
  }

  // Inside an open window a request is allowed exactly while the window has
  // seen fewer grants than the limit; otherwise it opens a new one and is allowed.
  lemma AllowedIff(span: int, es: seq<Event>, key: string, limit: int, now: int)
    requires span > 0 && limit > 0 && ClockForward(es) && LimitsAtMost(es, key, limit)
    requires es != [] ==> es[|es| - 1].now <= now
    ensures var m := Run(span, es); var a := Allow(m, span, key, limit, now).1;
      if key in m && now <= m[key].reset
      then a.allowed <==> Grants(span, es, key, m[key].reset - span, m[key].reset) < limit
      else a.allowed && a.resetAt == Some(now + span)
  {
    if es != [] && key in Run(span, es) && now <= Run(span, es)[key].reset {
      GrantsPerWindow(span, es, key, limit);
    }
  }

  // The remaining count of a grant is what the window still has to give.
  lemma RemainingIsExact(span: int, es: seq<Event>, e: Event)
    requires span > 0 && e.Request? && e.limit > 0
    requires ClockForward(es + [e]) && LimitsAtMost(es + [e], e.key, e.limit)
    ensures var a := Allow(Run(span, es), span, e.key, e.limit, e.now).1;
      a.resetAt.Some? &&
      a.remaining == e.limit - Grants(span, es + [e], e.key, a.resetAt.value - span, a.resetAt.value)
  {
    hide ClockForward, LimitsAtMost, Grants, Run;
    var all := es + [e];
    assert all[|all| - 1] == e;
    RunNext(span, es, e);
    GrantsPerWindow(span, all, e.key, e.limit);
  }

  lemma RunNext(span: int, es: seq<Event>, e: Event)
    ensures Run(span, es + [e]) == Step(Run(span, es), span, e)
    ensures forall key, from, to ::
      Grants(span, es + [e], key, from, to) ==
      Grants(span, es, key, from, to) + if Granted(Run(span, es), span, e, key) && from <= e.now <= to then 1 else 0
  {
    assert (es + [e])[..|es|] == es;
  }

  // n more requests at one moment, all of them granted.
  lemma {:induction false} Burst(span: int, es: seq<Event>, key: string, limit: int, w: Window, now: int,
                                 n: nat) returns (all: seq<Event>)
    requires ClockForward(es) && LimitsAtMost(es, key, limit) && es != [] && es[|es| - 1].now <= now <= w.reset
    requires Run(span, es) == map[key := w] && 0 <= w.count && w.count + n <= limit
    ensures ClockForward(all) && LimitsAtMost(all, key, limit) && all != [] && all[|all| - 1].now <= now
    ensures Run(span, all) == map[key := Window(w.count + n, w.reset)]
    ensures forall from, to ::
      Grants(span, all, key, from, to) == Grants(span, es, key, from, to) + if from <= now <= to then n else 0
    decreases n
  {
    all := es;
    if n > 0 {
      hide Run, Grants;
      var rest := Burst(span, es, key, limit, w, now, n - 1);
      var e := Request(key, limit, now);
      RunNext(span, rest, e);
      all := rest + [e];
    }
  }

  // The bound is reached for every limit: a window opened at 0, filled up at
  // its very end, and the next one filled a moment later.
  lemma IntervalBoundIsTight(span: int, key: string, limit: int) returns (es: seq<Event>)
    requires span > 0 && limit > 0
    ensures ClockForward(es) && LimitsAtMost(es, key, limit)
    ensures Grants(span, es, key, span, span + 1) == 2 * limit - 1
  {
    hide Run, Grants;
    var first, next := Request(key, limit, 0), Request(key, limit, span + 1);
    NoEvents(span, key);
    RunNext(span, [], first);
    assert [] + [first] == [first];
    es := Burst(span, [first], key, limit, Window(1, span), span, limit - 1);
    RunNext(span, es, next);
    es := es + [next];
    es := Burst(span, es, key, limit, Window(1, span + 1 + span), span + 1, limit - 1);
  }

  lemma NoEvents(span: int, key: string)
    ensures Run(span, []) == map[] && forall from, to :: Grants(span, [], key, from, to) == 0
  {
  }

  // A limit of zero or less is no limit: always allowed, and not counted.
  lemma UnlimitedIsFree(span: int, es: seq<Event>, key: string, limit: int, now: int, from: int, to: int)
    requires limit <= 0
    ensures Allow(Run(span, es), span, key, limit, now) == (Run(span, es), Answer(true, -1, None))
    ensures Grants(span, es + [Request(key, limit, now)], key, from, to) == Grants(span, es, key, from, to)
  {
    RunNext(span, es, Request(key, limit, now));
  }

  // The requests of one key, in order.
  function Only(es: seq<Event>, key: string): (r: seq<Event>)
    decreases |es|
  {
    if es == [] then []
    else
      var e := es[|es| - 1];
      Only(es[..|es| - 1], key) + if e.Request? && e.key == key then [e] else []
  }

  // A key's window depends on its own requests alone.
  lemma {:induction false} KeysAreIndependent(span: int, es: seq<Event>, key: string)
    ensures key in Kept(span, es) <==> key in Kept(span, Only(es, key))
    ensures key in Kept(span, es) ==> Kept(span, es)[key] == Kept(span, Only(es, key))[key]
    decreases |es|
  {
    if es != [] {
      var rest, e := es[..|es| - 1], es[|es| - 1];
      KeysAreIndependent(span, rest, key);
      if e.Request? && e.key == key {
        var own := Only(rest, key);
        assert (own + [e])[..|own|] == own;
      } else {
        assert Only(es, key) == Only(rest, key);
      }
    }
  }
}
