/** dbLimiter: counts each writer's mutations per period, in the same transaction as the mutations. */
module Limiter {
  import opened Wrappers
  import opened CtlDb

  const SECOND := 1_000_000_000
  const UNIX_EPOCH := 62135596800  // seconds from the zero time.Time to the Unix epoch
  const DELETE_USAGE_OLDER_THAN := 24 * 3600 * SECOND

  /** Time.Truncate, on nanoseconds since the zero time. */
  function Truncate(t: int, d: int): int {
    if d <= 0 then t else t - t % d
  }

  function Unix(t: int): int {
    t / SECOND - UNIX_EPOCH
  }

  function PeriodEpoch(now: int, period: int): int {
    Unix(Truncate(now, period))
  }

  /** Buckets below this are garbage. */
  function DeleteEpoch(now: int, period: int): int {
    Unix(Truncate(now - DELETE_USAGE_OLDER_THAN, period))
  }

  function Amount(u: Usage, writer: string, bucket: int): int {
    if (writer, bucket) in u then u[(writer, bucket)] else 0
  }

  /** The table after the limiter has recorded n more mutations. */
  function Charge(u: Usage, writer: string, bucket: int, n: nat): Usage {
    if n == 0 then u else u[(writer, bucket) := Amount(u, writer, bucket) + n]
  }

  /** Zero mutations are always allowed. */
  predicate Allowed(u: Usage, writer: string, bucket: int, n: nat, limit: int) {
    n == 0 || Amount(u, writer, bucket) + n <= limit
  }

  function Collect(u: Usage, epoch: int): Usage {
    map k | k in u && k.1 >= epoch :: u[k]
  }

  datatype LimiterFault = NoLimiterFault | SelectFails | WriteFails

  class DbLimiter {
    const period: int
    const defaultAmount: int
    var perWriterLimits: map<string, int>  // already adjusted to the period

    constructor (period: int, defaultAmount: int)
      ensures this.period == period && this.defaultAmount == defaultAmount && perWriterLimits == map[]
    {
      this.period, this.defaultAmount, perWriterLimits := period, defaultAmount, map[];
    }

    function LimitForWriter(writer: string): (limit: int)
      reads this
      ensures writer in perWriterLimits ==> limit == perWriterLimits[writer]
      ensures writer !in perWriterLimits ==> limit == defaultAmount
    {
      if writer in perWriterLimits then perWriterLimits[writer] else defaultAmount
    }

    /** None is an SQL error. The amount is recorded even when it turns out to be too much; the
        caller then rolls it back. */
    method CheckWriterRates(db: CtlDatabase, writer: string, n: nat, now: int, fault: LimiterFault)
      returns (allowed: Option<bool>)
      requires db.open.Some?
      modifies db`open
      ensures db.open.Some?
      ensures fault.NoLimiterFault? || n == 0 ==>
                && allowed == Some(Allowed(old(db.open).value.usage, writer, PeriodEpoch(now, period), n,
                                            LimitForWriter(writer)))
                && db.open.value == old(db.open).value.(
                     usage := Charge(old(db.open).value.usage, writer, PeriodEpoch(now, period), n))
      ensures !fault.NoLimiterFault? && n > 0 ==> allowed == None
    {
      if n == 0 {
        return Some(true);
      }
      var bucket := PeriodEpoch(now, period);
      if fault.SelectFails? {
        return None;
      }
      var usage := db.open.value.usage;
      var amount := 0;
      if (writer, bucket) in usage {
        amount := usage[(writer, bucket)];
      }
      amount := amount + n;
      if fault.WriteFails? {
        return None;
      }
      db.open := Some(db.open.value.(usage := usage[(writer, bucket) := amount]));
      return Some(amount <= LimitForWriter(writer));
    }

    /** Runs outside any transaction. */
    method DeleteOldUsageData(db: CtlDatabase, now: int, fails: bool) returns (ok: bool)
      modifies db`committed
      ensures ok == !fails
      ensures db.committed ==
              if ok then old(db.committed).(usage := Collect(old(db.committed).usage, DeleteEpoch(now, period)))
              else old(db.committed)
    {
      ok := !fails;
      if ok {
        db.committed := db.committed.(usage := Collect(db.committed.usage, DeleteEpoch(now, period)));
      }
    }
  }

  // ---------- rate accounting over runs ----------

  /** One Mutate, with its number of requests, the limit in force for its writer, and whether everything
      else about it succeeds; or one garbage collection. */
  datatype Event =
    | Mutated(writer: string, now: int, n: nat, limit: int, restOk: bool)
    | Collected(now: int)

  function After(u: Usage, period: int, e: Event): Usage {
    match e
    case Collected(now) => Collect(u, DeleteEpoch(now, period))
    case Mutated(writer, now, n, limit, restOk) =>
      var bucket := PeriodEpoch(now, period);
      if restOk && Allowed(u, writer, bucket, n, limit) then Charge(u, writer, bucket, n) else u
  }

  function RunUsage(period: int, es: seq<Event>): Usage {
    if es == [] then map[] else After(RunUsage(period, es[..|es| - 1]), period, es[|es| - 1])
  }

  /** Whether event i is a Mutate of this writer, in this bucket, that committed. */
  predicate CommitsIn(period: int, es: seq<Event>, i: nat, writer: string, bucket: int)
    requires i < |es|
  {
    && es[i].Mutated? && es[i].writer == writer && es[i].n > 0 && es[i].restOk
    && PeriodEpoch(es[i].now, period) == bucket
    && Allowed(RunUsage(period, es[..i]), writer, bucket, es[i].n, es[i].limit)
  }

  /** The requests of a writer's committed Mutates in a bucket. */
  function CommittedCount(period: int, es: seq<Event>, writer: string, bucket: int): nat {
    if es == [] then 0
    else
      var k := |es| - 1;
      CommittedCount(period, es[..k], writer, bucket) +
      (if CommitsIn(period, es, k, writer, bucket) then es[k].n else 0)
  }

  /** The limit in force at the last of them. */
  function LastLimit(period: int, es: seq<Event>, writer: string, bucket: int): Option<int> {
    if es == [] then None
    else
      var k := |es| - 1;
      if CommitsIn(period, es, k, writer, bucket) then Some(es[k].limit) else LastLimit(period, es[..k], writer, bucket)
  }

  /** Whether some collection has deleted this bucket. */
  predicate IsCollected(period: int, es: seq<Event>, bucket: int) {
    exists i :: 0 <= i < |es| && es[i].Collected? && bucket < DeleteEpoch(es[i].now, period)
  }

  ghost predicate ClockNeverGoesBack(es: seq<Event>) {
    forall i, j :: 0 <= i <= j < |es| ==> es[i].now <= es[j].now
  }

  lemma MulMonotone(x: int, y: int, d: int)
    requires x <= y && d > 0
    ensures x * d <= y * d
  {
  }

  lemma DivMonotone(a: int, b: int, d: int)
    requires a <= b && d > 0
    ensures a / d <= b / d
  {
    if a / d >= b / d + 1 {
      MulMonotone(b / d + 1, a / d, d);
    }
  }

  lemma TruncateMonotone(a: int, b: int, d: int)
    requires a <= b
    ensures Truncate(a, d) <= Truncate(b, d)
  {
    if d > 0 {
      DivMonotone(a, b, d);
      assert a - a % d == (a / d) * d && b - b % d == (b / d) * d;
      MulMonotone(a / d, b / d, d);
    }
  }

  lemma EpochMonotone(a: int, b: int, period: int)
    requires a <= b
    ensures PeriodEpoch(a, period) <= PeriodEpoch(b, period)
  {
    TruncateMonotone(a, b, period);
    DivMonotone(Truncate(a, period), Truncate(b, period), SECOND);
  }

  /** Truncation goes back to the start of the period: the last multiple of it that is not after t. */
  lemma TruncateIsPeriodStart(t: int, d: int)
    requires d > 0
    ensures Truncate(t, d) == d * (t / d) && Truncate(t, d) <= t < Truncate(t, d) + d
  {
  }

  /** Times at least a second apart are in different seconds. */
  lemma SecondsApart(x: int, y: int)
    requires x + SECOND <= y
    ensures Unix(x) < Unix(y)
  {
    DivMonotone(x + SECOND, y, SECOND);
  }

  lemma PeriodsApart(a: int, b: int, period: int)
    requires period >= SECOND && a / period < b / period
    ensures PeriodEpoch(a, period) < PeriodEpoch(b, period)
  {
    TruncateIsPeriodStart(a, period);
    TruncateIsPeriodStart(b, period);
    MulMonotone(a / period + 1, b / period, period);
    SecondsApart(Truncate(a, period), Truncate(b, period));
  }

  /** For a period of a second or more, one bucket is one period: buckets are the same exactly when the periods are,
      and in the same order. */
  lemma BucketsArePeriods(a: int, b: int, period: int)
    requires period >= SECOND
    ensures PeriodEpoch(a, period) == PeriodEpoch(b, period) <==> a / period == b / period
    ensures PeriodEpoch(a, period) < PeriodEpoch(b, period) <==> a / period < b / period
  {
    TruncateIsPeriodStart(a, period);
    TruncateIsPeriodStart(b, period);
    if a / period < b / period {
      PeriodsApart(a, b, period);
    } else if b / period < a / period {
      PeriodsApart(b, a, period);
    }
  }

  /** A shorter period does not get buckets of its own: they are numbered in seconds. */
  lemma BucketsArePeriodsExactlyWhen(period: int)
    requires period > 0
    ensures (forall a, b :: PeriodEpoch(a, period) == PeriodEpoch(b, period) <==> a / period == b / period) <==>
            period >= SECOND
  {
    hide PeriodEpoch;
    if period >= SECOND {
      forall a, b ensures PeriodEpoch(a, period) == PeriodEpoch(b, period) <==> a / period == b / period {
        BucketsArePeriods(a, b, period);
      }
    } else {
      ShortPeriodsShareABucket(period);
    }
  }

  lemma ShortPeriodsShareABucket(period: int)
    requires 0 < period < SECOND
    ensures PeriodEpoch(0, period) == PeriodEpoch(period, period) && 0 / period != period / period
  {
    TruncateIsPeriodStart(0, period);
    TruncateIsPeriodStart(period, period);
  }

  /** A collection deletes a bucket exactly when its period is before the one that was current a day ago. */
  lemma CollectedExactlyWhen(u: Usage, writer: string, time: int, now: int, period: int)
    requires period >= SECOND && (writer, PeriodEpoch(time, period)) in u
    ensures (writer, PeriodEpoch(time, period)) !in Collect(u, DeleteEpoch(now, period)) <==>
            time / period < (now - 24 * 3600 * 1_000_000_000) / period
  {
    hide PeriodEpoch;
    BucketsArePeriods(time, now - DELETE_USAGE_OLDER_THAN, period);
    DeleteEpochIsADayAgo(now, period);
  }

  lemma DeleteEpochIsADayAgo(now: int, period: int)
    ensures DeleteEpoch(now, period) == PeriodEpoch(now - DELETE_USAGE_OLDER_THAN, period)
  {
  }

  /** Collection never removes the current bucket, nor one that is still to come. */
  lemma CurrentBucketIsKept(now: int, later: int, period: int)
    requires now <= later
    ensures DeleteEpoch(now, period) <= PeriodEpoch(later, period)
  {
    EpochMonotone(now - DELETE_USAGE_OLDER_THAN, later, period);
  }

  lemma CommitsInPrefix(period: int, es: seq<Event>, writer: string, bucket: int)
    requires es != [] && ClockNeverGoesBack(es) && CommitsIn(period, es, |es| - 1, writer, bucket)
    ensures !IsCollected(period, es, bucket)
  {
    forall i | 0 <= i < |es| && es[i].Collected? ensures bucket >= DeleteEpoch(es[i].now, period) {
      CurrentBucketIsKept(es[i].now, es[|es| - 1].now, period);
    }
  }

  lemma IsCollectedGrows(period: int, es: seq<Event>, bucket: int)
    requires es != []
    ensures
      var e := es[|es| - 1];
      IsCollected(period, es, bucket) <==>
      IsCollected(period, es[..|es| - 1], bucket) || (e.Collected? && bucket < DeleteEpoch(e.now, period))
  {
    var front := es[..|es| - 1];
    if IsCollected(period, front, bucket) {
      var i :| 0 <= i < |front| && front[i].Collected? && bucket < DeleteEpoch(front[i].now, period);
      assert es[i] == front[i];
    }
    if IsCollected(period, es, bucket) {
      var i :| 0 <= i < |es| && es[i].Collected? && bucket < DeleteEpoch(es[i].now, period);
      assert i < |front| ==> front[i] == es[i];
    }
  }

  /** However Mutates succeed, are rejected or fail, and however often old data is collected, as long as the
      clock never goes back: the stored amount of every bucket not collected is the number of requests
      that its writer has committed in it, and is at most the limit in force at the last of those
      commits; a collected bucket is gone for good. */
  lemma {:induction false} UsageIsExact(period: int, es: seq<Event>, writer: string, bucket: int)
    requires ClockNeverGoesBack(es)
    ensures
      var u := RunUsage(period, es);
      if IsCollected(period, es, bucket) then (writer, bucket) !in u
      else
        && Amount(u, writer, bucket) == CommittedCount(period, es, writer, bucket)
        && (match LastLimit(period, es, writer, bucket)
            case None => Amount(u, writer, bucket) == 0
            case Some(limit) => Amount(u, writer, bucket) <= limit)
  {
    if es != [] {
      var k := |es| - 1;
      UsageIsExact(period, es[..k], writer, bucket);
      IsCollectedGrows(period, es, bucket);
      if CommitsIn(period, es, k, writer, bucket) {
        CommitsInPrefix(period, es, writer, bucket);
      }
    }
  }

  /** A Mutate with which everything else is in order commits exactly when the requests that its writer has committed in
      the current period, and its own, are within the limit. That is also how the count of committed
      requests goes on. */
  lemma AcceptedExactlyWhen(period: int, es: seq<Event>, e: Event)
    requires ClockNeverGoesBack(es + [e]) && e.Mutated? && e.restOk && e.n > 0
    ensures
      var bucket := PeriodEpoch(e.now, period);
      var before := CommittedCount(period, es, e.writer, bucket);
      && (RunUsage(period, es + [e]) != RunUsage(period, es) <==> before + e.n <= e.limit)
      && CommittedCount(period, es + [e], e.writer, bucket) == before + (if before + e.n <= e.limit then e.n else 0)
  {
    var all := es + [e];
    var bucket := PeriodEpoch(e.now, period);
    assert all[..|es|] == es;
    forall i, j | 0 <= i <= j < |es| ensures es[i].now <= es[j].now {
      assert all[i] == es[i] && all[j] == es[j];
    }
    forall i | 0 <= i < |es| && es[i].Collected? ensures bucket >= DeleteEpoch(es[i].now, period) {
      assert all[i] == es[i] && all[|es|] == e;
      CurrentBucketIsKept(es[i].now, e.now, period);
    }
    assert !IsCollected(period, es, bucket);
    UsageIsExact(period, es, e.writer, bucket);
    hide PeriodEpoch, CommittedCount, RunUsage;
    AcceptedStep(period, es, e);
  }

  lemma AcceptedStep(period: int, es: seq<Event>, e: Event)
    requires e.Mutated? && e.restOk && e.n > 0
    ensures
      var bucket := PeriodEpoch(e.now, period);
      var stored := Amount(RunUsage(period, es), e.writer, bucket);
      && (RunUsage(period, es + [e]) != RunUsage(period, es) <==> stored + e.n <= e.limit)
      && CommittedCount(period, es + [e], e.writer, bucket) ==
         CommittedCount(period, es, e.writer, bucket) + (if stored + e.n <= e.limit then e.n else 0)
  {
    hide PeriodEpoch;
    assert (es + [e])[..|es|] == es;
    var u, bucket := RunUsage(period, es), PeriodEpoch(e.now, period);
    assert Amount(Charge(u, e.writer, bucket, e.n), e.writer, bucket) == Amount(u, e.writer, bucket) + e.n;
  }
}
