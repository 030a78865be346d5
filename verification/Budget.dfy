// Worker counts that respect the NNTP and the database connection pools.
module Budget {
  import opened Common

  datatype ResourceBudget = ResourceBudget(
    nntpMaxConns: int,
    dbMaxConns: int,
    reservedAPIConns: int,
    dbPipelineBudget: int,
    scanWorkers: int,
    postProcessWorkers: int,
    overcommit: bool)

  function Clamp(v: int, lo: int, hi: int): (r: int)
    requires lo <= hi
    ensures lo <= r <= hi && (lo <= v <= hi ==> r == v)
  {
    if v < lo then lo else if v > hi then hi else v
  }

  function DefaultReservedAPIConns(db: int): (n: int)
    ensures 0 <= n <= 4 && (db > 1 ==> 1 <= n < db) && (db <= 1 ==> n == 0)
  {
    if db <= 1 then 0
    else
      var n := Clamp(db / 4, 1, 4);
      if n >= db then db - 1 else n
  }

  function FitWithinBudget(scan: int, pp: int, budget: int): (r: (int, int))
  {
    var s, p := Max(scan, 1), Max(pp, 1);
    if s + p <= budget then (s, p)
    else if budget <= 2 then (1, 1)
    else
      var share := Max(Mul(budget, s) / (s + p), 1);
      if budget - share < 1 then (budget - 1, 1) else (share, budget - share)
  }

  function ComputeBudget(nntpConns: int, dbConns: int, reserved: int, scanOverride: int,
                         ppOverride: int): (b: ResourceBudget)
  {
    var nntp, db := Max(nntpConns, 1), Max(dbConns, 1);
    var wanted := if reserved < 0 then DefaultReservedAPIConns(db) else reserved;
    var held := Max(Min(wanted, db - 1), 0);
    var pipeline := Max(db - held, 1);
    var scan := if scanOverride <= 0 then Clamp(nntp / 2, 1, 8) else scanOverride;
    var pp := if ppOverride <= 0 then Clamp(nntp / 2, 1, 4) else ppOverride;
    if scanOverride > 0 || ppOverride > 0 then
      ResourceBudget(nntp, db, held, pipeline, scan, pp, scan + pp > pipeline)
    else
      var fit := FitWithinBudget(scan, pp, pipeline);
      ResourceBudget(nntp, db, held, pipeline, fit.0, fit.1, false)
  }

  // Products, kept out of sight where only their order matters.
  function Mul(a: int, b: int): (r: int)
  {
    a * b
  }

  lemma MulIs(a: int, b: int)
    ensures Mul(a, b) == a * b
  {
  }

  lemma Ordered(a: int, b: int, k: int)
    requires k > 0
    ensures Mul(a, k) <= Mul(b, k) <==> a <= b
  {
    if a > b {
      assert (a - b) * k > 0;
    } else {
      assert (b - a) * k >= 0;
    }
  }

  lemma Spread(budget: int, s: int, p: int)
    ensures Mul(budget, s + p) == Mul(budget, s) + Mul(budget, p)
    ensures Mul(budget - p, s + p) == Mul(budget, s + p) - Mul(s + p, p)
    ensures Mul(0, s + p) == 0 == Mul(0, p) == Mul(0, s)
  {
  }

  lemma Quotient(x: int, n: int)
    requires n > 0
    ensures Mul(x / n, n) <= x < Mul(x / n + 1, n)
  {
  }

  lemma Commutes(a: int, b: int)
    ensures Mul(a, b) == Mul(b, a)
  {
  }

  // The rounded-down proportional share of a budget smaller than the demand.
  lemma ShareBounds(s: int, p: int, budget: int)
    requires s >= 1 && p >= 1 && 0 < budget < s + p
    ensures var share := Mul(budget, s) / (s + p);
      && 0 <= share <= s && share < budget && budget - share <= p
      && Mul(share, s + p) <= Mul(budget, s) < Mul(share + 1, s + p)
  {
    hide Mul;
    var n, x := s + p, Mul(budget, s);
    Quotient(x, n);
    var share := x / n;
    Spread(budget, s, p);
    Ordered(0, budget, s);
    Ordered(budget, n, s);
    Ordered(budget, 0, p);
    Ordered(budget, n, p);
    Commutes(s, n);
    Ordered(share + 1, 0, n);
    Ordered(s + 1, share, n);
    Ordered(s + 1, s, n);
    Ordered(share + 1, budget - p, n);
    Ordered(budget, share, n);
  }

  // Shrinking uses exactly the budget, raises neither stage, leaves each at
  // least one worker and splits in proportion up to rounding.
  lemma FitUsesBudget(scan: int, pp: int, budget: int)
    ensures var s, p := Max(scan, 1), Max(pp, 1); var r := FitWithinBudget(scan, pp, budget);
      && 1 <= r.0 <= s && 1 <= r.1 <= p
      && (s + p <= budget ==> r == (s, p))
      && (s + p > budget && budget >= 2 ==> r.0 + r.1 == budget)
      && (s + p > budget && budget > 2 && r.0 > 1 ==> Mul(r.0, s + p) <= Mul(budget, s) < Mul(r.0 + 1, s + p))
  {
    hide Mul;
    var s, p := Max(scan, 1), Max(pp, 1);
    if s + p > budget && budget > 2 {
      ShareBounds(s, p, budget);
    }
  }

  // The combined count fits the budget exactly when the budget is at least two.
  lemma FitsIff(scan: int, pp: int, budget: int)
    ensures var r := FitWithinBudget(scan, pp, budget); r.0 + r.1 <= budget <==> budget >= 2
  {
    hide Mul;
    FitUsesBudget(scan, pp, budget);
  }

  // Auto mode, that is any non-positive overrides, for all integers.
  lemma AutoBudget(nntp: int, db: int, reserved: int, s: int, p: int)
    requires s <= 0 && p <= 0
    ensures var b := ComputeBudget(nntp, db, reserved, s, p);
      && b.scanWorkers >= 1 && b.postProcessWorkers >= 1 && !b.overcommit
      && 0 <= b.reservedAPIConns < b.dbMaxConns && b.dbPipelineBudget == b.dbMaxConns - b.reservedAPIConns >= 1
      && b.scanWorkers + b.postProcessWorkers <= Max(2, b.dbPipelineBudget)
      && b.scanWorkers + b.postProcessWorkers <= Max(2, nntp)
      && b.scanWorkers <= 8 && b.postProcessWorkers <= 4
  {
    hide Mul;
    var b := ComputeBudget(nntp, db, reserved, s, p);
    var n := Max(nntp, 1);
    FitUsesBudget(Clamp(n / 2, 1, 8), Clamp(n / 2, 1, 4), b.dbPipelineBudget);
  }

  // What the plan is in auto mode: half the NNTP connections for each stage,
  // from 1 to 8 and from 1 to 4, when the database has room for both, and
  // otherwise all it has room for. A quarter of the pool, from 1 to 4, is held
  // back unless the caller says how much.
  lemma AutoPlan(nntp: int, db: int, reserved: int, s: int, p: int)
    requires s <= 0 && p <= 0
    ensures var b := ComputeBudget(nntp, db, reserved, s, p); var half := Max(nntp, 1) / 2;
      var scan, pp := Max(1, Min(8, half)), Max(1, Min(4, half));
      && b.nntpMaxConns == Max(nntp, 1) && b.dbMaxConns == Max(db, 1)
      && (reserved >= 0 ==> b.reservedAPIConns == Min(reserved, b.dbMaxConns - 1))
      && (reserved < 0 ==> b.reservedAPIConns == if db <= 1 then 0 else Max(1, Min(4, db / 4)))
      && (scan + pp <= b.dbPipelineBudget ==> b.scanWorkers == scan && b.postProcessWorkers == pp)
      && (scan + pp > b.dbPipelineBudget ==>
            && b.scanWorkers <= scan && b.postProcessWorkers <= pp
            && b.scanWorkers + b.postProcessWorkers == Max(2, b.dbPipelineBudget))
  {
    hide Mul;
    var b := ComputeBudget(nntp, db, reserved, s, p);
    var n := Max(nntp, 1);
    FitUsesBudget(Clamp(n / 2, 1, 8), Clamp(n / 2, 1, 4), b.dbPipelineBudget);
  }

  // Overrides are honoured as given, and flagged exactly when they do not fit.
  lemma OverridesHonoured(nntp: int, db: int, reserved: int, s: int, p: int)
    requires s > 0 || p > 0
    ensures var b := ComputeBudget(nntp, db, reserved, s, p);
      && b.scanWorkers == (if s > 0 then s else Max(1, Min(8, Max(nntp, 1) / 2)))
      && b.postProcessWorkers == (if p > 0 then p else Max(1, Min(4, Max(nntp, 1) / 2)))
      && b.scanWorkers >= 1 && b.postProcessWorkers >= 1
      && (b.overcommit <==> b.scanWorkers + b.postProcessWorkers > b.dbMaxConns - b.reservedAPIConns)
      && 0 <= b.reservedAPIConns < b.dbMaxConns
  {
  }
}
