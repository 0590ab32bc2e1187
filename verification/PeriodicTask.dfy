/** The activation clock: src/periodic_task.c and the instants src/newstuff/rtask.cpp derives from it. */
module PeriodicTask {

  const NSEC_PER_SEC := 1_000_000_000
  const NSEC_PER_USEC := 1_000
  const USEC_PER_SEC := 1_000_000

  /** The wait added once before the first activation, 100 ms. */
  const ALIGN_NSEC := 100_000_000

  datatype Timespec = Timespec(sec: int, nsec: int)

  predicate Normal(ts: Timespec) {
    0 <= ts.nsec < NSEC_PER_SEC
  }

  function TotalNs(ts: Timespec): int {
    ts.sec * NSEC_PER_SEC + ts.nsec
  }

  /** The one normal timespec of a given instant. */
  function FromNs(ns: int): (ts: Timespec)
    ensures Normal(ts) && TotalNs(ts) == ns
  {
    Timespec(ns / NSEC_PER_SEC, ns % NSEC_PER_SEC)
  }

  function Advance(ts: Timespec, deltaNs: int): (r: Timespec)
    ensures Normal(r) && TotalNs(r) == TotalNs(ts) + deltaNs
  {
    FromNs(TotalNs(ts) + deltaNs)
  }

  lemma NormalIsUnique(a: Timespec, b: Timespec)
    requires Normal(a) && Normal(b) && TotalNs(a) == TotalNs(b)
    ensures a == b
  {
  }

  /** Whole microseconds of a nanosecond count, rounded down. */
  function FloorUs(ns: int): int {
    ns / NSEC_PER_USEC
  }

  /** What the originator pushes: seconds and nanoseconds converted separately and added. */
  function Microseconds(ts: Timespec): int {
    ts.sec * USEC_PER_SEC + ts.nsec / NSEC_PER_USEC
  }

  /** Converting the two fields separately loses nothing against the exact instant. */
  lemma MicrosecondsIsFloor(ts: Timespec)
    requires Normal(ts)
    ensures Microseconds(ts) == FloorUs(TotalNs(ts))
  {
  }

  lemma FloorUsShift(ns: int, us: int)
    ensures FloorUs(ns + us * NSEC_PER_USEC) == FloorUs(ns) + us
  {
  }

  /** The `next_period` field before activation `k`: align once, then one advance per period. */
  function NextPeriod(t0: Timespec, periodUs: nat, k: nat): Timespec {
    if k == 0 then Advance(t0, ALIGN_NSEC)
    else Advance(NextPeriod(t0, periodUs, k - 1), periodUs * NSEC_PER_USEC)
  }

  /** The theoretical start of activation `k`, in microseconds. */
  function Instant(t0: Timespec, periodUs: nat, k: nat): int {
    Microseconds(NextPeriod(t0, periodUs, k))
  }

  lemma {:induction false} NextPeriodTotal(t0: Timespec, periodUs: nat, k: nat)
    ensures Normal(NextPeriod(t0, periodUs, k))
    ensures TotalNs(NextPeriod(t0, periodUs, k)) == TotalNs(t0) + ALIGN_NSEC + k * periodUs * NSEC_PER_USEC
  {
    if k > 0 {
      NextPeriodTotal(t0, periodUs, k - 1);
      assert k * periodUs == (k - 1) * periodUs + periodUs;
    }
  }

  /** No drift: after any number of carries the k-th instant is exactly the first plus k periods. */
  lemma InstantsDoNotDrift(t0: Timespec, periodUs: nat, k: nat)
    requires Normal(t0)
    ensures Instant(t0, periodUs, k) == Microseconds(t0) + 100_000 + k * periodUs
  {
    NextPeriodTotal(t0, periodUs, k);
    MicrosecondsIsFloor(t0);
    MicrosecondsIsFloor(NextPeriod(t0, periodUs, k));
    FloorUsShift(TotalNs(t0), 100_000 + k * periodUs);
    assert TotalNs(NextPeriod(t0, periodUs, k)) == TotalNs(t0) + (100_000 + k * periodUs) * NSEC_PER_USEC;
  }

  /** `struct period_info`. */
  class PeriodInfo {
    var sec: int
    var nsec: int
    var periodNs: int

    function Next(): Timespec
      reads this
    {
      Timespec(sec, nsec)
    }

    constructor (now: Timespec, periodNs: int)
      ensures Next() == now && this.periodNs == periodNs
    {
      sec, nsec := now.sec, now.nsec;
      this.periodNs := periodNs;
    }

    method IncPeriod(deltaNs: int)
      requires Normal(Next()) && deltaNs >= 0
      modifies this
      ensures Next() == Advance(old(Next()), deltaNs) && periodNs == old(periodNs)
    {
      nsec := nsec + deltaNs;
      while nsec >= NSEC_PER_SEC
        invariant nsec >= 0 && periodNs == old(periodNs)
        invariant TotalNs(Next()) == old(TotalNs(Next())) + deltaNs
        decreases nsec
      {
        sec := sec + 1;
        nsec := nsec - NSEC_PER_SEC;
      }
      NormalIsUnique(Next(), Advance(old(Next()), deltaNs));
    }

    /** The originator's whole use of its period: align, then wait for `k` periods. */
    method AlignAndRepeat(k: nat, ghost periodUs: nat)
      requires Normal(Next()) && periodNs == periodUs * NSEC_PER_USEC
      modifies this
      ensures Next() == NextPeriod(old(Next()), periodUs, k)
    {
      IncPeriod(ALIGN_NSEC);
      for i := 0 to k
        invariant Next() == NextPeriod(old(Next()), periodUs, i)
        invariant periodNs == periodUs * NSEC_PER_USEC
        invariant Normal(Next())
      {
        IncPeriod(periodNs);
      }
    }
  }
}
