// The NNTP connection pool: a resizable counting semaphore, a lazily dialing
// pool that drops its lock to ping and to dial, and every interleaving of the
// two over any number of goroutines.
module Semaphore {
  // The two fields guarded by the semaphore's mutex.
  datatype Sem = Sem(limit: int, inUse: int)

  // What one pass through the wait loop finds.
  datatype Verdict = Blocked | Cancelled | Granted

  function AtLeastOne(n: int): (r: int)
    ensures r >= 1 && r >= n && (r == n || (r == 1 && n < 1))
  {
    if n < 1 then 1 else n
  }

  // One pass under the lock: wait while full, give up when the context is
  // done, otherwise take a slot.
  function Acquire(s: Sem, cancelled: bool): (r: (Sem, Verdict))
  {
    if s.inUse >= s.limit then (s, if cancelled then Cancelled else Blocked)
    else if cancelled then (s, Cancelled)
    else (s.(inUse := s.inUse + 1), Granted)
  }

  function Release(s: Sem): (r: Sem)
  {
    if s.inUse > 0 then s.(inUse := s.inUse - 1) else s
  }

  function Resize(s: Sem, n: int): (r: Sem)
  {
    s.(limit := AtLeastOne(n))
  }

  class ResizableSem {
    var limit: int
    var inUse: int

    function View(): Sem
      reads this
    {
      Sem(limit, inUse)
    }

    constructor (n: int)
      ensures limit == (if n < 1 then 1 else n) && inUse == 0
    {
      limit := if n < 1 then 1 else n;
      inUse := 0;
    }

    method TryAcquire(cancelled: bool) returns (v: Verdict)
      modifies this
      ensures (View(), v) == Acquire(old(View()), cancelled)
      ensures v.Granted? <==> old(inUse) < old(limit) && !cancelled
      ensures v.Cancelled? <==> cancelled
      ensures limit == old(limit) && inUse == if v.Granted? then old(inUse) + 1 else old(inUse)
    {
      if inUse >= limit {
        if cancelled {
          return Cancelled;
        }
        return Blocked;
      }
      if cancelled {
        return Cancelled;
      }
      inUse := inUse + 1;
      return Granted;
    }

    method ReleaseSlot()
      modifies this
      ensures View() == Release(old(View()))
      ensures limit == old(limit) && inUse == if old(inUse) > 0 then old(inUse) - 1 else old(inUse)
    {
      if inUse > 0 {
        inUse := inUse - 1;
      }
    }

    method ResizeTo(n: int)
      modifies this
      ensures View() == Resize(old(View()), n)
      ensures limit == (if n < 1 then 1 else n) && inUse == old(inUse)
    {
      limit := if n < 1 then 1 else n;
    }
  }
}

module Pool {
  import opened Common
  import Semaphore

  type Conn = nat
  type Tid = nat

  // The fields guarded by the pool's mutex.
  datatype Shared = Shared(idle: seq<Conn>, open: int, closed: bool)

  // Where a goroutine stands between two lock acquisitions.
  datatype Phase =
    | Outside              // in no pool call
    | Waiting              // inside the semaphore's wait loop
    | Granted              // holds a slot, has not looked at the pool yet
    | Pinging(c: Conn)     // popped c and is checking it without the lock
    | PingFailed(c: Conn)  // closed c, has not uncounted it yet
    | Dialing              // found no idle connection; dialing and authenticating
    | Dialed(c: Conn)      // c is up, not counted yet
    | Out(c: Conn)         // c is checked out
    | Closing(c: Conn)     // uncounted c on release, has not closed it yet
    | Returning            // about to give its slot back
    | Resizing(n: int)     // stored the new ceiling, about to resize the semaphore

  // ---- the critical sections of pool.go ----

  // Head of the reuse loop: pop the newest idle connection, or go and dial.
  function TakeOrDial(p: Shared): (r: (Shared, Phase))
  {
    if |p.idle| > 0
    then (p.(idle := p.idle[..|p.idle| - 1]), Pinging(p.idle[|p.idle| - 1]))
    else (p, Dialing)
  }

  function Look(p: Shared): (r: (Shared, Phase))
  {
    if p.closed then (p, Returning) else TakeOrDial(p)
  }

  function Discard(p: Shared): (r: (Shared, Phase))
  {
    TakeOrDial(p.(open := p.open - 1))
  }

  function GiveBack(p: Shared, c: Conn, broken: bool): (r: (Shared, Phase))
  {
    if p.closed || broken
    then (p.(open := p.open - 1), Closing(c))
    else (p.(idle := p.idle + [c]), Returning)
  }

  // Reconfigure and Close both take the whole idle list and uncount it.
  function DropIdle(p: Shared): (r: Shared)
  {
    p.(idle := [], open := p.open - |p.idle|)
  }

  function Shut(p: Shared): (r: Shared)
  {
    if p.closed then p else DropIdle(p).(closed := true)
  }

  // ---- the pool object ----

  // The critical sections as methods of the object whose fields they change,
  // and the sequential Acquire built from them.
  class ConnPool {
    var idle: seq<Conn>
    var open: int
    var closed: bool

    function View(): Shared
      reads this
    {
      Shared(idle, open, closed)
    }

    constructor ()
      ensures View() == Shared([], 0, false)
    {
      idle, open, closed := [], 0, false;
    }

    method LookIn() returns (p: Phase)
      modifies this
      ensures (View(), p) == Look(old(View()))
      ensures closed == old(closed) && open == old(open)
      ensures old(closed) ==> p == Returning && idle == old(idle)
      ensures !old(closed) && old(idle) == [] ==> p == Dialing && idle == []
      ensures !old(closed) && old(idle) != [] ==> p.Pinging? && idle + [p.c] == old(idle)
    {
      if closed {
        return Returning;
      }
      p := PopIdle();
    }

    method DropBad() returns (p: Phase)
      modifies this
      ensures (View(), p) == Discard(old(View()))
      ensures closed == old(closed) && open == old(open) - 1
      ensures old(idle) == [] ==> p == Dialing && idle == []
      ensures old(idle) != [] ==> p.Pinging? && idle + [p.c] == old(idle)
    {
      open := open - 1;
      p := PopIdle();
    }

    method PopIdle() returns (p: Phase)
      modifies this
      ensures (View(), p) == TakeOrDial(old(View()))
      ensures closed == old(closed) && open == old(open)
      ensures old(idle) == [] ==> p == Dialing && idle == []
      ensures old(idle) != [] ==> p.Pinging? && idle + [p.c] == old(idle)
    {
      if |idle| > 0 {
        p := Pinging(idle[|idle| - 1]);
        idle := idle[..|idle| - 1];
      } else {
        p := Dialing;
      }
    }

    // The pool side of acquire for a caller that holds a slot and meets no
    // interference: `healthy` says which connections answer a ping, `dialed`
    // what a dial yields.
    method AcquireWithSlot(healthy: set<Conn>, dialed: Option<Conn>) returns (r: Option<Conn>)
      modifies this
      ensures closed == old(closed)
      ensures old(closed) ==> r.None? && View() == old(View())
      // The newest healthy idle connection wins; the unhealthy ones above it are gone and uncounted.
      ensures !old(closed) && (exists c :: c in old(idle) && c in healthy) ==>
        && r.Some? && r.value in healthy
        && idle + [r.value] <= old(idle)
        && (forall i :: |idle| < i < |old(idle)| ==> old(idle)[i] !in healthy)
        && open == old(open) - (|old(idle)| - |idle| - 1)
      ensures !old(closed) && (forall c :: c in old(idle) ==> c !in healthy) ==>
        && idle == [] && r == dialed
        && open == old(open) - |old(idle)| + (if dialed.Some? then 1 else 0)
    {
      var p := LookIn();
      if p.Returning? {
        return None;
      }
      while p.Pinging?
        invariant !closed && !old(closed) && (p.Pinging? || p.Dialing?)
        invariant p.Pinging? ==> idle + [p.c] <= old(idle)
        invariant p.Dialing? ==> idle == []
        invariant open == old(open) - (|old(idle)| - |idle| - (if p.Pinging? then 1 else 0))
        invariant forall i :: |idle| + (if p.Pinging? then 1 else 0) <= i < |old(idle)| ==> old(idle)[i] !in healthy
        decreases |idle| + (if p.Pinging? then 1 else 0)
      {
        if p.c in healthy {
          assert old(idle)[|idle|] == p.c;
          return Some(p.c);
        }
        p := DropBad();
      }
      if dialed.Some? {
        open := open + 1;
      }
      return dialed;
    }

    // Closing tells the caller to close the connection itself.
    method ReleaseConn(c: Conn, broken: bool) returns (p: Phase)
      modifies this
      ensures (View(), p) == GiveBack(old(View()), c, broken)
      ensures closed == old(closed)
      ensures old(closed) || broken ==> idle == old(idle) && open == old(open) - 1 && p == Closing(c)
      ensures !old(closed) && !broken ==> idle == old(idle) + [c] && open == old(open) && p == Returning
    {
      if closed || broken {
        open := open - 1;
        return Closing(c);
      }
      idle := idle + [c];
      return Returning;
    }

    method TakeIdle() returns (stale: seq<Conn>)
      modifies this
      ensures View() == DropIdle(old(View())) && stale == old(idle)
      ensures idle == [] && open == old(open) - |old(idle)| && closed == old(closed)
    {
      stale := idle;
      idle := [];
      open := open - |stale|;
    }

    method Close() returns (stale: seq<Conn>)
      modifies this
      ensures View() == Shut(old(View()))
      ensures closed && (old(closed) ==> idle == old(idle) && open == old(open))
      ensures !old(closed) ==> idle == [] && open == old(open) - |old(idle)|
      ensures stale == if old(closed) then [] else old(idle)
    {
      if closed {
        return [];
      }
      closed := true;
      stale := TakeIdle();
    }
  }

  // ---- all interleavings ----

  // `maxLimit` is the largest ceiling the semaphore has had, `stale` the
  // connections Reconfigure and Close took out of the pool and have not closed yet.
  datatype Sys = Sys(sem: Semaphore.Sem, pool: Shared, threads: map<Tid, Phase>, stale: set<Conn>, maxLimit: int)

  datatype Event =
    | Call(t: Tid)
    | SemPass(t: Tid, cancelled: bool)
    | LookIn(t: Tid)
    | PingOk(t: Tid)
    | PingBad(t: Tid)
    | DropBad(t: Tid)
    | DialFailed(t: Tid)
    | DialOk(t: Tid, c: Conn)
    | CountNew(t: Tid)
    | Hand(t: Tid, broken: bool)
    | CloseOne(t: Tid)
    | FreeSlot(t: Tid)
    | Reconfigure(t: Tid, n: int)
    | ResizeOnly(t: Tid, n: int)
    | DoResize(t: Tid)
    | ClosePool
    | CloseStale(c: Conn)

  function PhaseOf(s: Sys, t: Tid): Phase
  {
    if t in s.threads then s.threads[t] else Outside
  }

  predicate OwnsConn(p: Phase)
  {
    p.Pinging? || p.PingFailed? || p.Dialed? || p.Out? || p.Closing?
  }

  // Every connection some part of the program still refers to.
  predicate Held(s: Sys, c: Conn)
  {
    || c in s.pool.idle
    || c in s.stale
    || exists t :: t in s.threads && OwnsConn(s.threads[t]) && s.threads[t].c == c
  }

  predicate Enabled(s: Sys, e: Event)
  {
    match e
    case Call(t) => PhaseOf(s, t).Outside?
    case SemPass(t, _) => PhaseOf(s, t).Waiting?
    case LookIn(t) => PhaseOf(s, t).Granted?
    case PingOk(t) => PhaseOf(s, t).Pinging?
    case PingBad(t) => PhaseOf(s, t).Pinging?
    case DropBad(t) => PhaseOf(s, t).PingFailed?
    case DialFailed(t) => PhaseOf(s, t).Dialing?
    case DialOk(t, c) => PhaseOf(s, t).Dialing? && !Held(s, c)
    case CountNew(t) => PhaseOf(s, t).Dialed?
    case Hand(t, _) => PhaseOf(s, t).Out?
    case CloseOne(t) => PhaseOf(s, t).Closing?
    case FreeSlot(t) => PhaseOf(s, t).Returning?
    case Reconfigure(t, _) => PhaseOf(s, t).Outside?
    case ResizeOnly(t, _) => PhaseOf(s, t).Outside?
    case DoResize(t) => PhaseOf(s, t).Resizing?
    case ClosePool => true
    case CloseStale(c) => c in s.stale
  }

  function Goto(s: Sys, t: Tid, p: Phase): (r: Sys)
  {
    s.(threads := s.threads[t := p])
  }

  function Locked(s: Sys, t: Tid, r: (Shared, Phase)): (s': Sys)
  {
    s.(pool := r.0, threads := s.threads[t := r.1])
  }

  function Elements(q: seq<Conn>): set<Conn>
  {
    set c | c in q
  }

  function Step(s: Sys, e: Event): (s': Sys)
    requires Enabled(s, e)
  {
    match e
    case Call(t) => Goto(s, t, Waiting)
    case SemPass(t, cancelled) =>
      var (sem, v) := Semaphore.Acquire(s.sem, cancelled);
      s.(sem := sem, threads := s.threads[t := match v
                                               case Blocked => Waiting
                                               case Cancelled => Outside
                                               case Granted => Granted])
    case LookIn(t) => Locked(s, t, Look(s.pool))
    case PingOk(t) => Goto(s, t, Out(PhaseOf(s, t).c))
    case PingBad(t) => Goto(s, t, PingFailed(PhaseOf(s, t).c))
    case DropBad(t) => Locked(s, t, Discard(s.pool))
    case DialFailed(t) => Goto(s, t, Returning)
    case DialOk(t, c) => Goto(s, t, Dialed(c))
    case CountNew(t) => Locked(s, t, (s.pool.(open := s.pool.open + 1), Out(PhaseOf(s, t).c)))
    case Hand(t, broken) => Locked(s, t, GiveBack(s.pool, PhaseOf(s, t).c, broken))
    case CloseOne(t) => Goto(s, t, Returning)
    case FreeSlot(t) => Goto(s, t, Outside).(sem := Semaphore.Release(s.sem))
    case Reconfigure(t, n) =>
      Locked(s, t, (DropIdle(s.pool), Resizing(Semaphore.AtLeastOne(n)))).(stale := s.stale + Elements(s.pool.idle))
    case ResizeOnly(t, n) => Goto(s, t, Resizing(Semaphore.AtLeastOne(n)))
    case DoResize(t) =>
      var n := PhaseOf(s, t).n;
      Goto(s, t, Outside).(sem := Semaphore.Resize(s.sem, n), maxLimit := Max(s.maxLimit, Semaphore.AtLeastOne(n)))
    case ClosePool =>
      s.(pool := Shut(s.pool), stale := if s.pool.closed then s.stale else s.stale + Elements(s.pool.idle))
    case CloseStale(c) => s.(stale := s.stale - {c})
  }

  function Init(n: int): (s: Sys)
  {
    var limit := Semaphore.AtLeastOne(n);
    Sys(Semaphore.Sem(limit, 0), Shared([], 0, false), map[], {}, limit)
  }

  predicate IsRun(s: Sys, es: seq<Event>)
    decreases |es|
  {
    |es| == 0 || (Enabled(s, es[0]) && IsRun(Step(s, es[0]), es[1..]))
  }

  function Final(s: Sys, es: seq<Event>): (s': Sys)
    requires IsRun(s, es)
    decreases |es|
  {
    if |es| == 0 then s else Final(Step(s, es[0]), es[1..])
  }

  // ---- what is counted ----

  predicate HoldsSlot(p: Phase)
  {
    !(p.Outside? || p.Waiting? || p.Resizing?)
  }

  // Connections `open` is meant to count besides the idle ones.
  predicate Counted(p: Phase)
  {
    p.Pinging? || p.PingFailed? || p.Out?
  }

  predicate InFlight(p: Phase)
  {
    p.Dialing? || p.Dialed?
  }

  // A goroutine that owns a connection or is bringing one up.
  predicate Uses(p: Phase)
  {
    OwnsConn(p) || p.Dialing?
  }

  ghost function Who(m: map<Tid, Phase>, f: Phase -> bool): (r: set<Tid>)
  {
    set t | t in m && f(m[t])
  }

  lemma WhoMoves(m: map<Tid, Phase>, t: Tid, p: Phase, f: Phase -> bool)
    ensures |Who(m[t := p], f)| ==
            |Who(m, f)| - (if t in m && f(m[t]) then 1 else 0) + (if f(p) then 1 else 0)
  {
    var rest := Who(m, f) - {t};
    assert Who(m[t := p], f) == if f(p) then rest + {t} else rest;
    assert Who(m, f) == if t in m && f(m[t]) then rest + {t} else rest;
  }

  lemma WhoSplits(m: map<Tid, Phase>, f: Phase -> bool, g: Phase -> bool, h: Phase -> bool)
    requires forall p :: !(f(p) && g(p)) && (f(p) || g(p) ==> h(p))
    ensures |Who(m, f)| + |Who(m, g)| <= |Who(m, h)|
  {
    assert Who(m, f) !! Who(m, g);
    SubsetSize(Who(m, f) + Who(m, g), Who(m, h));
  }

  // ---- the invariant ----

  ghost predicate CountsAgree(s: Sys)
  {
    && s.pool.open == |s.pool.idle| + |Who(s.threads, Counted)|
    && s.sem.inUse == |Who(s.threads, HoldsSlot)|
  }

  ghost predicate WithinBudget(s: Sys)
  {
    && 1 <= s.sem.limit <= s.maxLimit
    && s.sem.inUse <= s.maxLimit
    && |s.pool.idle| + |Who(s.threads, Uses)| <= s.maxLimit
  }

  // No connection is in two places at once.
  ghost predicate Exclusive(s: Sys)
  {
    && (forall i, j :: 0 <= i < j < |s.pool.idle| ==> s.pool.idle[i] != s.pool.idle[j])
    && (forall t :: t in s.threads && OwnsConn(s.threads[t]) ==>
          s.threads[t].c !in s.pool.idle && s.threads[t].c !in s.stale)
    && (forall t, u :: t in s.threads && u in s.threads && t != u ==>
          OwnsConn(s.threads[t]) && OwnsConn(s.threads[u]) ==> s.threads[t].c != s.threads[u].c)
    && (forall c :: c in s.pool.idle ==> c !in s.stale)
  }

  ghost predicate Inv(s: Sys)
  {
    CountsAgree(s) && WithinBudget(s) && Exclusive(s)
  }

  // Every event moves at most one goroutine.
  function Mover(e: Event): Option<Tid>
  {
    match e
    case ClosePool => None
    case CloseStale(_) => None
    case _ => Some(e.t)
  }

  lemma StepCounts(s: Sys, e: Event)
    requires Inv(s) && Enabled(s, e)
    ensures CountsAgree(Step(s, e))
  {
    hide Held, Exclusive, Who, Elements;
    if Mover(e).Some? {
      var t := Mover(e).value;
      var p := Step(s, e).threads[t];
      WhoMoves(s.threads, t, p, Counted);
      WhoMoves(s.threads, t, p, HoldsSlot);
    }
  }

  // A dial starts only when nothing is idle, so everything in use is then
  // covered by a slot; every other event keeps or lowers the total.
  lemma StepBudget(s: Sys, e: Event)
    requires Inv(s) && Enabled(s, e)
    ensures WithinBudget(Step(s, e))
  {
    StepCounts(s, e);
    var s' := Step(s, e);
    WhoSplits(s'.threads, Uses, (p: Phase) => false, HoldsSlot);
    assert |Who(s'.threads, Uses)| <= s'.sem.inUse;
    if Mover(e).Some? {
      var t := Mover(e).value;
      WhoMoves(s.threads, t, s'.threads[t], Uses);
      WhoMoves(s.threads, t, s'.threads[t], HoldsSlot);
    }
  }

  // The goroutine keeps its connection or lets go of it; the pool's lists stand.
  lemma KeepsExclusive(s: Sys, t: Tid, p: Phase)
    requires Exclusive(s)
    requires OwnsConn(p) ==> OwnsConn(PhaseOf(s, t)) && p.c == PhaseOf(s, t).c
    ensures Exclusive(Goto(s, t, p))
  {
  }

  lemma TakeExclusive(s: Sys, t: Tid, p: Shared)
    requires Exclusive(s) && p.idle == s.pool.idle
    ensures Exclusive(Locked(s, t, TakeOrDial(p)))
  {
    if |p.idle| > 0 {
      var s' := Locked(s, t, TakeOrDial(p));
      var k := |p.idle| - 1;
      assert forall c :: c in s'.pool.idle ==> c in p.idle;
      assert p.idle[k] !in s'.pool.idle;
    }
  }

  lemma GiveBackExclusive(s: Sys, t: Tid, broken: bool)
    requires Exclusive(s) && PhaseOf(s, t).Out?
    ensures Exclusive(Locked(s, t, GiveBack(s.pool, PhaseOf(s, t).c, broken)))
  {
  }

  lemma DropExclusive(s: Sys, stale: set<Conn>)
    requires Exclusive(s)
    requires stale == s.stale || stale == s.stale + Elements(s.pool.idle)
    ensures Exclusive(s.(pool := DropIdle(s.pool), stale := stale))
  {
  }

  lemma StepExclusive(s: Sys, e: Event)
    requires Exclusive(s) && Enabled(s, e)
    ensures Exclusive(Step(s, e))
  {
    match e
    case LookIn(t) =>
      if s.pool.closed {
        KeepsExclusive(s, t, Returning);
      } else {
        TakeExclusive(s, t, s.pool);
      }
    case DropBad(t) => TakeExclusive(s, t, s.pool.(open := s.pool.open - 1));
    case DialOk(t, c) =>
      assert forall u :: u in s.threads && OwnsConn(s.threads[u]) ==> s.threads[u].c != c;
    case CountNew(t) => KeepsExclusive(s, t, Out(PhaseOf(s, t).c));
    case Hand(t, broken) => GiveBackExclusive(s, t, broken);
    case Reconfigure(t, n) =>
      var dropped := s.(pool := DropIdle(s.pool), stale := s.stale + Elements(s.pool.idle));
      DropExclusive(s, dropped.stale);
      KeepsExclusive(dropped, t, Resizing(Semaphore.AtLeastOne(n)));
    case ClosePool => DropExclusive(s, s.stale + Elements(s.pool.idle));
    case CloseStale(_) =>
    case _ => KeepsExclusive(s, e.t, Step(s, e).threads[e.t]);
  }

  lemma {:induction false} RunKeepsInv(s: Sys, es: seq<Event>)
    requires Inv(s) && IsRun(s, es)
    ensures Inv(Final(s, es))
    decreases |es|
  {
    if |es| > 0 {
      StepCounts(s, es[0]);
      StepBudget(s, es[0]);
      StepExclusive(s, es[0]);
      RunKeepsInv(Step(s, es[0]), es[1..]);
    }
  }

  // ---- main results ----

  // In every reachable state: `open` is exactly the idle, pinged and
  // checked-out connections, `inUse` exactly the slots held, and the counted
  // connections plus the dials in flight fit the largest ceiling ever set.
  lemma PoolAccounting(n: int, es: seq<Event>)
    requires IsRun(Init(n), es)
    ensures var s := Final(Init(n), es);
      && s.pool.open == |s.pool.idle| + |Who(s.threads, Counted)|
      && s.sem.inUse == |Who(s.threads, HoldsSlot)|
      && s.pool.open + |Who(s.threads, InFlight)| <= s.maxLimit
  {
    InitHolds(n);
    RunKeepsInv(Init(n), es);
    WhoSplits(Final(Init(n), es).threads, Counted, InFlight, Uses);
  }

  // No connection is ever handed to two callers, or handed out while idle.
  lemma NeverShared(n: int, es: seq<Event>)
    requires IsRun(Init(n), es)
    ensures Exclusive(Final(Init(n), es))
  {
    InitHolds(n);
    RunKeepsInv(Init(n), es);
  }

  // A caller gets a connection only by a ping that succeeded or a dial of its own.
  lemma GetsConnIff(s: Sys, e: Event, t: Tid, c: Conn)
    requires Enabled(s, e) && PhaseOf(s, t) != Out(c)
    ensures PhaseOf(Step(s, e), t) == Out(c) <==>
            || (e == PingOk(t) && PhaseOf(s, t) == Pinging(c))
            || (e == CountNew(t) && PhaseOf(s, t) == Dialed(c))
  {
  }

  // A connection gets into the idle list only when its holder hands it back
  // unbroken to an open pool.
  lemma EntersIdleIff(s: Sys, e: Event, c: Conn)
    requires Enabled(s, e) && c !in s.pool.idle
    ensures c in Step(s, e).pool.idle <==>
            e.Hand? && !e.broken && !s.pool.closed && e.t in s.threads && s.threads[e.t] == Out(c)
  {
  }

  // A broken connection is uncounted and closed by its holder, and so is any
  // connection that comes back to a closed pool.
  lemma HandedBackIs(s: Sys, t: Tid, broken: bool)
    requires t in s.threads && s.threads[t].Out?
    ensures var c := s.threads[t].c; var n := Step(s, Hand(t, broken));
      if broken || s.pool.closed
      then n.pool == s.pool.(open := s.pool.open - 1) && n.threads == s.threads[t := Closing(c)]
      else n.pool == s.pool.(idle := s.pool.idle + [c]) && n.threads == s.threads[t := Returning]
  {
  }

  // A closed pool stays closed and keeps nothing idle.
  lemma {:induction false} ClosedKeepsNothing(s: Sys, es: seq<Event>)
    requires IsRun(s, es) && (s.pool.closed ==> s.pool.idle == [])
    ensures s.pool.closed ==> Final(s, es).pool.closed
    ensures Final(s, es).pool.closed ==> Final(s, es).pool.idle == []
    ensures (exists i :: 0 <= i < |es| && es[i].ClosePool?) ==> Final(s, es).pool.closed
    decreases |es|
  {
    if |es| > 0 {
      var rest := es[1..];
      ClosedKeepsNothing(Step(s, es[0]), rest);
      if i :| 0 <= i < |es| && es[i].ClosePool? {
        assert i > 0 ==> rest[i - 1] == es[i];
      }
    }
  }

  // Every state of the run, including the first, holds no more slots than its current ceiling.
  predicate AlwaysWithinLimit(s: Sys, es: seq<Event>)
    requires IsRun(s, es)
    decreases |es|
  {
    s.sem.inUse <= s.sem.limit && (|es| == 0 || AlwaysWithinLimit(Step(s, es[0]), es[1..]))
  }

  // No resize of the run goes below the number of slots held at that moment.
  predicate NeverShrinksBelowHolders(s: Sys, es: seq<Event>)
    requires IsRun(s, es)
    decreases |es|
  {
    |es| > 0 ==>
      && (es[0].DoResize? ==> s.sem.inUse <= Semaphore.AtLeastOne(PhaseOf(s, es[0].t).n))
      && NeverShrinksBelowHolders(Step(s, es[0]), es[1..])
  }

  // The semaphore keeps its holders within the current ceiling on exactly the
  // runs that never shrink below the current holders.
  lemma {:induction false} CurrentLimitHoldsIff(s: Sys, es: seq<Event>)
    requires IsRun(s, es) && s.sem.inUse <= s.sem.limit
    ensures AlwaysWithinLimit(s, es) <==> NeverShrinksBelowHolders(s, es)
    decreases |es|
  {
    if |es| > 0 {
      var s' := Step(s, es[0]);
      if s'.sem.inUse <= s'.sem.limit {
        CurrentLimitHoldsIff(s', es[1..]);
      }
    }
  }

  // Two callers hold the two slots when the ceiling is set to one.
  lemma ShrinkBelowHolders() returns (es: seq<Event>)
    ensures IsRun(Init(2), es)
    ensures var s := Final(Init(2), es); s.sem.limit == 1 && s.sem.inUse == 2
  {
    es := ShrinksNow();
    es := TakesSlot(1, map[0 := Granted], es);
    assert map[][0 := Granted] == map[0 := Granted];
    es := TakesSlot(0, map[], es);
  }

  // Caller t gets a slot.
  lemma TakesSlot(t: Tid, m: map<Tid, Phase>, rest: seq<Event>) returns (es: seq<Event>)
    requires t in {0, 1} && t !in m && IsRun(Slots(2, t + 1, m[t := Granted]), rest)
    ensures IsRun(Slots(2, t, m), es)
    ensures Final(Slots(2, t, m), es) == Final(Slots(2, t + 1, m[t := Granted]), rest)
  {
    hide IsRun, Final;
    assert m[t := Waiting][t := Granted] == m[t := Granted];
    es := Prepend(Slots(2, t, m[t := Waiting]), SemPass(t, false), Slots(2, t + 1, m[t := Granted]), rest);
    es := Prepend(Slots(2, t, m), Call(t), Slots(2, t, m[t := Waiting]), es);
  }

  // The ceiling is set to one while both slots are held.
  lemma ShrinksNow() returns (es: seq<Event>)
    ensures var s := Slots(2, 2, map[0 := Granted][1 := Granted]);
      IsRun(s, es) && Final(s, es).sem.limit == 1 && Final(s, es).sem.inUse == 2
  {
    var m := map[0 := Granted][1 := Granted];
    assert m[2 := Resizing(1)][2 := Outside] == m[2 := Outside];
    es := Prepend(Slots(2, 2, m[2 := Resizing(1)]), DoResize(2), Slots(1, 2, m[2 := Outside]), []);
    es := Prepend(Slots(2, 2, m), ResizeOnly(2, 1), Slots(2, 2, m[2 := Resizing(1)]), es);
  }

  function Slots(limit: int, inUse: int, threads: map<Tid, Phase>): (s: Sys)
  {
    Sys(Semaphore.Sem(limit, inUse), Shared([], 0, false), threads, {}, 2)
  }

  // A slot is granted only below the ceiling in force, and after a shrink the
  // surplus of holders can only go down.
  lemma {:induction false} HoldersConverge(s: Sys, es: seq<Event>)
    requires IsRun(s, es)
    requires forall e :: e in es ==> !e.DoResize?
    ensures Final(s, es).sem.limit == s.sem.limit
    ensures Final(s, es).sem.inUse <= Max(s.sem.inUse, s.sem.limit)
    decreases |es|
  {
    if |es| > 0 {
      HoldersConverge(Step(s, es[0]), es[1..]);
    }
  }

  // Sockets the provider can see: idle, owned or being dialed, and the ones
  // Reconfigure or Close removed from the pool but has not closed yet.
  predicate OnTheWire(p: Phase)
  {
    Uses(p) && !p.PingFailed?
  }

  ghost function Sockets(s: Sys): (r: int)
  {
    |s.pool.idle| + |Who(s.threads, OnTheWire)| + |s.stale|
  }

  // The steps that send a goroutine off to dial.
  predicate StartsDial(s: Sys, e: Event)
  {
    s.pool.idle == [] && (e.DropBad? || (e.LookIn? && !s.pool.closed))
  }

  lemma {:induction false} ElementsSize(q: seq<Conn>)
    ensures |Elements(q)| <= |q|
    decreases |q|
  {
    if q == [] {
      assert Elements(q) == {};
    } else {
      ElementsSize(q[1..]);
      assert Elements(q) == Elements(q[1..]) + {q[0]};
    }
  }

  // Taking idle connections out of the pool moves them to the stale ones.
  lemma StaleSize(stale: set<Conn>, idle: seq<Conn>)
    ensures |stale + Elements(idle)| <= |stale| + |idle|
  {
    ElementsSize(idle);
    assert stale + Elements(idle) == stale + (Elements(idle) - stale);
    SubsetSize(Elements(idle) - stale, Elements(idle));
  }

  // Only the start of a dial brings up a socket, and it brings up one.
  lemma StepSockets(s: Sys, e: Event)
    requires Enabled(s, e)
    ensures var n := Step(s, e);
      && s.maxLimit <= n.maxLimit
      && (if StartsDial(s, e)
          then Sockets(n) == Sockets(s) + 1 && n.maxLimit == s.maxLimit
          else Sockets(n) <= Sockets(s))
  {
    hide Elements, Held, Who;
    StaleSize(s.stale, s.pool.idle);
    if Mover(e).Some? {
      WhoMoves(s.threads, Mover(e).value, Step(s, e).threads[Mover(e).value], OnTheWire);
    }
  }

  // Every state of the run has no more sockets up than the largest ceiling so far.
  ghost predicate SocketsWithinLimit(s: Sys, es: seq<Event>)
    requires IsRun(s, es)
    decreases |es|
  {
    Sockets(s) <= s.maxLimit && (|es| > 0 ==> SocketsWithinLimit(Step(s, es[0]), es[1..]))
  }

  // Each dial of the run starts while a socket is to spare.
  ghost predicate DialsHaveRoom(s: Sys, es: seq<Event>)
    requires IsRun(s, es)
    decreases |es|
  {
    |es| > 0 ==> (StartsDial(s, es[0]) ==> Sockets(s) < s.maxLimit) && DialsHaveRoom(Step(s, es[0]), es[1..])
  }

  // The provider sees no more sockets than the largest ceiling ever set on
  // exactly the runs in which every dial starts with a socket to spare.
  lemma {:induction false} SocketsWithinLimitIff(s: Sys, es: seq<Event>)
    requires IsRun(s, es) && Sockets(s) <= s.maxLimit
    ensures SocketsWithinLimit(s, es) <==> DialsHaveRoom(s, es)
    decreases |es|
  {
    if |es| > 0 {
      hide Sockets, Step, Enabled, StartsDial;
      var n := Step(s, es[0]);
      StepSockets(s, es[0]);
      if Sockets(n) <= n.maxLimit {
        SocketsWithinLimitIff(n, es[1..]);
      }
    }
  }

  // Once nothing is stale any more, there is always room: the surplus lasts
  // only as long as the closing of the connections taken out of the pool.
  lemma RoomUnlessStale(n: int, es: seq<Event>)
    requires IsRun(Init(n), es) && Final(Init(n), es).stale == {}
    ensures var s := Final(Init(n), es); Sockets(s) <= s.maxLimit
    ensures var s := Final(Init(n), es); forall e :: Enabled(s, e) && StartsDial(s, e) ==> Sockets(s) < s.maxLimit
  {
    hide Exclusive, Final, IsRun, Who, Held;
    var s := Final(Init(n), es);
    InitHolds(n);
    RunKeepsInv(Init(n), es);
    WhoSplits(s.threads, OnTheWire, (p: Phase) => p.PingFailed?, Uses);
    forall e | Enabled(s, e) && StartsDial(s, e) ensures Sockets(s) < s.maxLimit {
      OneSlotFree(s.threads, e.t, s.maxLimit);
    }
  }

  lemma InitHolds(n: int)
    ensures Inv(Init(n))
  {
    assert Who(Init(n).threads, Counted) == {} == Who(Init(n).threads, HoldsSlot) == Who(Init(n).threads, Uses);
  }

  // A slot holder with nothing on the wire leaves one socket to spare.
  lemma OneSlotFree(m: map<Tid, Phase>, t: Tid, limit: int)
    requires t in m && HoldsSlot(m[t]) && !OnTheWire(m[t]) && |Who(m, HoldsSlot)| <= limit
    ensures |Who(m, OnTheWire)| < limit
  {
    assert t in Who(m, HoldsSlot);
    SubsetSize(Who(m, OnTheWire), Who(m, HoldsSlot) - {t});
  }

  // Room can be lacking: while Reconfigure is still closing an old idle
  // connection, a caller can dial its replacement, and two sockets are up
  // although no ceiling was ever above one.
  lemma StaleSocketsCanExceedLimit() returns (es: seq<Event>)
    ensures IsRun(Init(1), es)
    ensures var s := Final(Init(1), es); s.maxLimit == 1 && Sockets(s) == 2
  {
    var last := At(1, [], 0, map[0 := Dialed(8), 1 := Resizing(1)], {7});
    es := Prepend(At(1, [], 0, map[0 := Dialing, 1 := Resizing(1)], {7}), DialOk(0, 8), last, []);
    assert Who(last.threads, OnTheWire) == {0};
    var m := map[0 := Outside, 1 := Resizing(1)];
    assert m[0 := Dialing] == map[0 := Dialing, 1 := Resizing(1)];
    es := GoesDialing(m, {7}, es);
    es := OpensAndReturns(es);
    es := GoesDialing(map[], {}, es);
  }

  // A caller takes the only slot, finds nothing idle and starts to dial.
  lemma GoesDialing(m: map<Tid, Phase>, stale: set<Conn>, rest: seq<Event>) returns (es: seq<Event>)
    requires 0 !in m || m[0].Outside?
    requires IsRun(At(1, [], 0, m[0 := Dialing], stale), rest)
    ensures IsRun(At(0, [], 0, m, stale), es)
    ensures Final(At(0, [], 0, m, stale), es) == Final(At(1, [], 0, m[0 := Dialing], stale), rest)
  {
    assert m[0 := Granted][0 := Dialing] == m[0 := Dialing];
    es := Prepend(At(1, [], 0, m[0 := Granted], stale), LookIn(0), At(1, [], 0, m[0 := Dialing], stale), rest);
    assert m[0 := Waiting][0 := Granted] == m[0 := Granted];
    es := Prepend(At(0, [], 0, m[0 := Waiting], stale), SemPass(0, false), At(1, [], 0, m[0 := Granted], stale), es);
    es := Prepend(At(0, [], 0, m, stale), Call(0), At(0, [], 0, m[0 := Waiting], stale), es);
  }

  // The dial succeeds, the connection goes back idle, and Reconfigure takes it away.
  lemma OpensAndReturns(rest: seq<Event>) returns (es: seq<Event>)
    requires IsRun(At(0, [], 0, map[0 := Outside, 1 := Resizing(1)], {7}), rest)
    ensures IsRun(At(1, [], 0, map[0 := Dialing], {}), es)
    ensures Final(At(1, [], 0, map[0 := Dialing], {}), es)
         == Final(At(0, [], 0, map[0 := Outside, 1 := Resizing(1)], {7}), rest)
  {
    es := TakenAway(rest);
    es := Prepend(At(1, [], 0, map[0 := Dialed(7)], {}), CountNew(0), At(1, [], 1, map[0 := Out(7)], {}), es);
    es := Prepend(At(1, [], 0, map[0 := Dialing], {}), DialOk(0, 7), At(1, [], 0, map[0 := Dialed(7)], {}), es);
  }

  lemma TakenAway(rest: seq<Event>) returns (es: seq<Event>)
    requires IsRun(At(0, [], 0, map[0 := Outside, 1 := Resizing(1)], {7}), rest)
    ensures IsRun(At(1, [], 1, map[0 := Out(7)], {}), es)
    ensures Final(At(1, [], 1, map[0 := Out(7)], {}), es)
         == Final(At(0, [], 0, map[0 := Outside, 1 := Resizing(1)], {7}), rest)
  {
    es := Prepend(At(0, [7], 1, map[0 := Outside], {}), Reconfigure(1, 1),
                  At(0, [], 0, map[0 := Outside, 1 := Resizing(1)], {7}), rest);
    es := Prepend(At(1, [7], 1, map[0 := Returning], {}), FreeSlot(0), At(0, [7], 1, map[0 := Outside], {}), es);
    es := Prepend(At(1, [], 1, map[0 := Out(7)], {}), Hand(0, false), At(1, [7], 1, map[0 := Returning], {}), es);
  }

  function At(inUse: int, idle: seq<Conn>, open: int, threads: map<Tid, Phase>, stale: set<Conn>): (s: Sys)
  {
    Sys(Semaphore.Sem(1, inUse), Shared(idle, open, false), threads, stale, 1)
  }

  lemma Prepend(s: Sys, e: Event, s': Sys, rest: seq<Event>) returns (es: seq<Event>)
    requires Enabled(s, e) && Step(s, e) == s' && IsRun(s', rest)
    ensures es == [e] + rest && IsRun(s, es) && Final(s, es) == Final(s', rest)
  {
    es := [e] + rest;
    assert es[1..] == rest;
  }
}
