// Requests with identities in front of one circuit breaker: when is a probe
// the only one in flight?
module Probes {
  import opened Circuit

  // A request is sent when it is admitted, as an ordinary one or as a probe,
  // and stays in flight until its own outcome is recorded.
  datatype Traffic = Traffic(b: Breaker, ordinary: set<nat>, probes: set<nat>)

  datatype Call = Send(id: nat, now: int) | Ok(id: nat) | Bad(id: nat, kind: ErrorKind, at: int)

  function EventOf(c: Call): (e: Event)
  {
    match c
    case Send(_, now) => Asked(now)
    case Ok(_) => Succeeded
    case Bad(_, kind, at) => Failed(kind, at)
  }

  predicate Possible(t: Traffic, c: Call)
  {
    c.Send? <==> c.id !in t.ordinary + t.probes
  }

  function Next(t: Traffic, c: Call): (r: Traffic)
  {
    var b := Step(t.b, EventOf(c));
    if !c.Send? then Traffic(b, t.ordinary - {c.id}, t.probes - {c.id})
    else if Allow(t.b, c.now).2 then Traffic(b, t.ordinary, t.probes + {c.id})
    else if Allow(t.b, c.now).1 then Traffic(b, t.ordinary + {c.id}, t.probes)
    else Traffic(b, t.ordinary, t.probes)
  }

  predicate IsTraffic(t: Traffic, cs: seq<Call>)
    decreases |cs|
  {
    |cs| == 0 || (Possible(t, cs[0]) && IsTraffic(Next(t, cs[0]), cs[1..]))
  }

  function After(t: Traffic, cs: seq<Call>): (r: Traffic)
    decreases |cs|
  {
    if |cs| == 0 then t else After(Next(t, cs[0]), cs[1..])
  }

  function Quiet(threshold: int, cooldown: int): (t: Traffic)
  {
    Traffic(New(threshold, cooldown), {}, {})
  }

  // No request is both, and while half-open the probe that made it so is out.
  ghost predicate TrafficInv(t: Traffic)
  {
    Inv(t.b) && t.ordinary !! t.probes && (t.b.state.HalfOpen? ==> t.probes != {})
  }

  // Half-open always has a probe in flight.
  lemma {:induction false} HalfOpenHasProbe(t: Traffic, cs: seq<Call>)
    requires TrafficInv(t) && IsTraffic(t, cs)
    ensures TrafficInv(After(t, cs))
    ensures After(t, cs).b.state.HalfOpen? ==> After(t, cs).probes != {}
    decreases |cs|
  {
    if |cs| > 0 {
      StepKeepsInv(t.b, EventOf(cs[0]));
      HalfOpenHasProbe(Next(t, cs[0]), cs[1..]);
    }
  }

  // One probe in flight while half-open, none otherwise.
  predicate ProbesMatch(t: Traffic)
  {
    |t.probes| == if t.b.state.HalfOpen? then 1 else 0
  }

  predicate AlwaysMatch(t: Traffic, cs: seq<Call>)
    decreases |cs|
  {
    ProbesMatch(t) && (|cs| > 0 ==> AlwaysMatch(Next(t, cs[0]), cs[1..]))
  }

  // No outcome of an ordinary request is recorded while a probe is out.
  predicate NoLateOutcome(t: Traffic, cs: seq<Call>)
    decreases |cs|
  {
    |cs| > 0 ==> (cs[0].id in t.ordinary ==> t.probes == {}) && NoLateOutcome(Next(t, cs[0]), cs[1..])
  }

  // Half-open means exactly one probe in flight, and a probe in flight means
  // half-open, throughout exactly the runs in which no request admitted before
  // the probe comes back while the probe is out.
  lemma {:induction false} HalfOpenIsProbingIff(t: Traffic, cs: seq<Call>)
    requires TrafficInv(t) && ProbesMatch(t) && IsTraffic(t, cs)
    ensures AlwaysMatch(t, cs) <==> NoLateOutcome(t, cs)
    decreases |cs|
  {
    if |cs| > 0 {
      var c, n := cs[0], Next(t, cs[0]);
      StepKeepsInv(t.b, EventOf(c));
      MatchKeptIff(t, c);
      if ProbesMatch(n) {
        HalfOpenIsProbingIff(n, cs[1..]);
      }
    }
  }

  lemma MatchKeptIff(t: Traffic, c: Call)
    requires TrafficInv(t) && ProbesMatch(t) && Possible(t, c)
    ensures ProbesMatch(Next(t, c)) <==> (c.id in t.ordinary ==> t.probes == {})
    ensures ProbesMatch(Next(t, c)) ==> TrafficInv(Next(t, c))
  {
    hide Inv, Step, Allow;
    StepKeepsInv(t.b, EventOf(c));
    StateAfter(t.b, EventOf(c));
    hide TrafficInv;
    ProbesAfter(t, c);
    if ProbesMatch(Next(t, c)) {
      StaysTraffic(t, c);
    }
  }

  lemma StaysTraffic(t: Traffic, c: Call)
    requires TrafficInv(t) && Possible(t, c) && ProbesMatch(Next(t, c))
    ensures TrafficInv(Next(t, c))
  {
    hide Inv, Step, Allow;
    StepKeepsInv(t.b, EventOf(c));
    hide Possible, Next;
    StaysApart(t, c);
  }

  lemma StaysApart(t: Traffic, c: Call)
    requires t.ordinary !! t.probes && Possible(t, c)
    ensures Next(t, c).b == Step(t.b, EventOf(c)) && Next(t, c).ordinary !! Next(t, c).probes
  {
    hide Step, Allow, EventOf;
    forall i | i in Next(t, c).ordinary ensures i !in Next(t, c).probes {
    }
  }

  lemma ProbesAfter(t: Traffic, c: Call)
    requires Possible(t, c)
    ensures |Next(t, c).probes| ==
      |t.probes| + (if c.Send? && Allow(t.b, c.now).2 then 1 else 0) - (if c.id in t.probes then 1 else 0)
  {
    hide Step, Allow;
    if c.id in t.probes {
      assert |t.probes - {c.id}| == |t.probes| - 1;
    } else {
      assert t.probes - {c.id} == t.probes;
    }
  }

  // A request leaves the state alone unless it is admitted as a probe, an
  // outcome always ends the half-open state.
  lemma StateAfter(b: Breaker, e: Event)
    requires Inv(b)
    ensures !e.Asked? ==> !Step(b, e).state.HalfOpen?
    ensures e.Asked? ==>
      if Allow(b, e.now).2 then b.state.Open? && Step(b, e).state.HalfOpen? else Step(b, e).state == b.state
  {
  }

  predicate OnlySends(cs: seq<Call>)
  {
    forall i :: 0 <= i < |cs| ==> cs[i].Send?
  }

  // Requests alone, before any further outcome, can put a second probe in
  // flight if and only if one is out and the circuit is open again.
  lemma SecondProbeIff(t: Traffic, id: nat)
    requires TrafficInv(t) && |t.probes| == 1 && id !in t.ordinary + t.probes
    ensures (exists cs :: OnlySends(cs) && IsTraffic(t, cs) && |After(t, cs).probes| >= 2) <==> t.b.state.Open?
  {
    if t.b.state.Open? {
      var c := Send(id, t.b.openedAt + t.b.currentCooldown);
      assert Allow(t.b, c.now).2 && Next(t, c).probes == t.probes + {id};
      assert [c][1..] == [] && After(Next(t, c), []) == Next(t, c);
      Unfold(t, [c]);
      assert OnlySends([c]) && IsTraffic(t, [c]) && |After(t, [c]).probes| == 2;
    } else {
      forall cs | OnlySends(cs) && IsTraffic(t, cs) ensures |After(t, cs).probes| < 2 {
        SendsKeepProbes(t, cs);
      }
    }
  }

  lemma {:induction false} SendsKeepProbes(t: Traffic, cs: seq<Call>)
    requires Inv(t.b) && !t.b.state.Open? && OnlySends(cs)
    ensures After(t, cs).probes == t.probes
    decreases |cs|
  {
    if |cs| > 0 {
      assert cs[0].Send?;
      SendsKeepProbes(Next(t, cs[0]), cs[1..]);
    }
  }

  // It does happen, for every threshold and cooldown: two requests go out, one
  // fails and opens the circuit, a probe is admitted, the other old request
  // fails, and a second probe is admitted while the first is still out.
  lemma TwoProbesInFlight(threshold: int, cooldown: int) returns (cs: seq<Call>)
    ensures IsTraffic(Quiet(threshold, cooldown), cs)
    ensures After(Quiet(threshold, cooldown), cs).probes == {2, 3}
  {
    var t := Quiet(threshold, cooldown);
    var c, m := t.b.cooldown, t.b.maxCooldown;
    cs := [Send(0, 0), Send(1, 0), Bad(0, Auth, 0), Send(2, m), Bad(1, Auth, m), Send(3, 2 * m)];
    var t2 := Next(Next(t, cs[0]), cs[1]);
    assert t2.b == t.b && t2.ordinary == {0, 1} && t2.probes == {};
    var t3 := Next(t2, cs[2]);
    assert t3.b.state.Open? && t3.b.openedAt == 0 && t3.b.currentCooldown <= m && t3.ordinary == {1};
    var t4 := Next(t3, cs[3]);
    assert t4.b.state.HalfOpen? && t4.ordinary == {1} && t4.probes == {2};
    var t5 := Next(t4, cs[4]);
    assert t5.b.state.Open? && t5.b.openedAt == m && t5.b.currentCooldown <= m && t5.ordinary == {} && t5.probes == {2};
    var t6 := Next(t5, cs[5]);
    assert t6.probes == {2, 3};
    Unfold(t5, [cs[5]]);
    Unfold(t4, [cs[4], cs[5]]);
    Unfold(t3, [cs[3], cs[4], cs[5]]);
    Unfold(t2, [cs[2], cs[3], cs[4], cs[5]]);
    Unfold(Next(t, cs[0]), [cs[1], cs[2], cs[3], cs[4], cs[5]]);
    Unfold(t, cs);
    assert cs[1..] == [cs[1], cs[2], cs[3], cs[4], cs[5]];
  }

  lemma Unfold(t: Traffic, cs: seq<Call>)
    requires |cs| > 0 && Possible(t, cs[0])
    ensures IsTraffic(t, cs) <==> IsTraffic(Next(t, cs[0]), cs[1..])
    ensures After(t, cs) == After(Next(t, cs[0]), cs[1..])
  {
  }

  // The breaker under this traffic is the breaker of the history it makes.
  lemma {:induction false} TrafficIsHistory(t: Traffic, cs: seq<Call>)
    ensures After(t, cs).b == Run(t.b, seq(|cs|, i requires 0 <= i < |cs| => EventOf(cs[i])))
    decreases |cs|
  {
    var es := seq(|cs|, i requires 0 <= i < |cs| => EventOf(cs[i]));
    if |cs| > 0 {
      TrafficIsHistory(Next(t, cs[0]), cs[1..]);
      assert es[1..] == seq(|cs[1..]|, i requires 0 <= i < |cs[1..]| => EventOf(cs[1..][i]));
    }
  }
}
