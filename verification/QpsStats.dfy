// The counters of the load generator and their periodic report. Rates are reals, counts do not wrap.
module QpsStats {
  import opened Arithmetic

  /** One printed rate and the seconds it covers. */
  datatype Report = Report(rate: real, seconds: real)

  /** What the printed rates add up to: rate times seconds, summed. */
  function Accounted(reports: seq<Report>): real {
    if reports == [] then 0.0
    else
      var last := reports[|reports| - 1];
      Accounted(reports[..|reports| - 1]) + last.rate * last.seconds
  }

  /** The largest rate printed, zero if there is none above zero. */
  function Highest(reports: seq<Report>): real {
    if reports == [] then 0.0
    else
      var last := reports[|reports| - 1];
      var rest := Highest(reports[..|reports| - 1]);
      if rest < last.rate then last.rate else rest
  }

  lemma {:induction false} HighestIsMaximum(reports: seq<Report>)
    ensures forall k | 0 <= k < |reports| :: reports[k].rate <= Highest(reports)
    ensures Highest(reports) == 0.0 || exists k | 0 <= k < |reports| :: reports[k].rate == Highest(reports)
    ensures Highest(reports) >= 0.0
  {
    if reports != [] {
      var front := reports[..|reports| - 1];
      HighestIsMaximum(front);
      if Highest(reports) == Highest(front) != 0.0 {
        var k :| 0 <= k < |front| && front[k].rate == Highest(front);
        assert reports[k] == front[k];
      } else {
        assert Highest(reports) == 0.0 || reports[|reports| - 1].rate == Highest(reports);
      }
    }
  }

  lemma DivideTimes(a: real, b: real)
    requires b != 0.0
    ensures a / b * b == a
  {
  }

  class Counter {
    const name: string
    var value: nat
    var lastQueryCount: real
    var maxPerSec: real
    /** Every report printed so far. */
    ghost var reports: seq<Report>

    ghost predicate Valid()
      reads this
    {
      && lastQueryCount == Accounted(reports)
      && maxPerSec == Highest(reports)
    }

    constructor (name: string)
      ensures Valid() && this.name == name && value == 0 && reports == []
    {
      this.name := name;
      this.value := 0;
      this.lastQueryCount := 0.0;
      this.maxPerSec := 0.0;
      this.reports := [];
    }

    method Add(inc: nat)
      requires Valid()
      modifies this
      ensures Valid() && value == old(value) + inc && reports == old(reports)
    {
      value := value + inc;
    }

    /** After every print the rates printed so far account for the whole count, and the stored maximum is theirs. */
    method Print(secsSinceLastPrint: real) returns (lastSecAvg: real)
      requires Valid() && secsSinceLastPrint != 0.0
      modifies this
      ensures Valid() && value == old(value)
      ensures reports == old(reports) + [Report(lastSecAvg, secsSinceLastPrint)]
      ensures Accounted(reports) == value as real && lastQueryCount == value as real
      ensures lastSecAvg * secsSinceLastPrint == value as real - old(lastQueryCount)
    {
      var queryCount := value as real;
      lastSecAvg := (queryCount - lastQueryCount) / secsSinceLastPrint;
      ghost var r := Report(lastSecAvg, secsSinceLastPrint);
      DivideTimes(queryCount - lastQueryCount, secsSinceLastPrint);
      assert (reports + [r])[..|reports|] == reports;
      lastQueryCount := queryCount;
      maxPerSec := if maxPerSec < lastSecAvg then lastSecAvg else maxPerSec;
      reports := reports + [r];
    }
  }

  function RateOf(rates: map<string, real>, name: string): real {
    if name in rates then rates[name] else 0.0
  }

  function SumInOrder(rates: map<string, real>, order: seq<string>): real {
    if order == [] then 0.0 else SumInOrder(rates, order[..|order| - 1]) + RateOf(rates, order[|order| - 1])
  }

  /** All the rates added up, in some order of the names. */
  ghost predicate IsSum(rates: map<string, real>, total: real) {
    exists order :: multiset(order) == multiset(rates.Keys) && total == SumInOrder(rates, order)
  }

  lemma {:induction false} SumIgnoresOthers(rates: map<string, real>, order: seq<string>, name: string, rate: real)
    requires name !in order
    ensures SumInOrder(rates[name := rate], order) == SumInOrder(rates, order)
  {
    if order != [] { SumIgnoresOthers(rates, order[..|order| - 1], name, rate); }
  }

  lemma SumAppend(rates: map<string, real>, order: seq<string>, name: string, rate: real)
    requires name !in order
    ensures SumInOrder(rates[name := rate], order + [name]) == SumInOrder(rates, order) + rate
  {
    SumIgnoresOthers(rates, order, name, rate);
    assert (order + [name])[..|order|] == order;
  }

  lemma OneMoreRate(rates: map<string, real>, total: real, name: string, rate: real)
    requires IsSum(rates, total) && name !in rates
    ensures IsSum(rates[name := rate], total + rate)
  {
    var order :| multiset(order) == multiset(rates.Keys) && total == SumInOrder(rates, order);
    assert name !in multiset(order);
    SumAppend(rates, order, name, rate);
    assert rates[name := rate].Keys == rates.Keys + {name};
    assert multiset(order + [name]) == multiset(rates[name := rate].Keys);
  }

  lemma NothingIsSum()
    ensures IsSum(map[], 0.0)
  {
    var none: map<string, real>, order: seq<string> := map[], [];
    assert multiset(order) == multiset(none.Keys) && SumInOrder(none, order) == 0.0;
  }

  class QPSStats {
    var counters: map<string, Counter>

    ghost predicate Valid()
      reads this, counters.Values
    {
      && (forall n | n in counters :: counters[n].name == n && counters[n].Valid())
    }

    constructor ()
      ensures Valid() && counters == map[]
    {
      counters := map[];
    }

    /** The count of a name; zero while it is not registered. */
    ghost function Total(name: string): nat
      reads this, counters.Values
    {
      if name in counters then counters[name].value else 0
    }

    /** Registering again keeps the counter and its count. */
    method RegisterCounter(name: string)
      requires Valid()
      modifies this
      ensures Valid()
      ensures counters.Keys == old(counters.Keys) + {name}
      ensures forall n | n in old(counters) :: counters[n] == old(counters[n])
      ensures name !in old(counters) ==> fresh(counters[name]) && counters[name].value == 0
      ensures forall n :: Total(n) == old(Total(n))
    {
      if name !in counters {
        var c := new Counter(name);
        counters := counters[name := c];
      }
    }

    /** Only a registered name may be counted; only its count changes. */
    method Add(name: string, sz: nat := 1)
      requires Valid() && name in counters
      modifies counters[name]
      ensures Valid() && counters == old(counters)
      ensures forall n :: Total(n) == old(Total(n)) + if n == name then sz else 0
      ensures counters[name].reports == old(counters[name].reports)
    {
      counters[name].Add(sz);
    }

    /** The rates printed so far account for the whole count. */
    ghost predicate UpToDate(name: string)
      requires name in counters
      reads this, counters.Values
    {
      Accounted(counters[name].reports) == counters[name].value as real
    }

    method PrintCounter(name: string, secsSinceLastPrint: real) returns (lastSecAvg: real)
      requires Valid() && name in counters && secsSinceLastPrint != 0.0
      modifies counters[name]
      ensures Valid() && counters == old(counters) && UpToDate(name)
      ensures counters[name].reports == old(counters[name].reports) + [Report(lastSecAvg, secsSinceLastPrint)]
      ensures forall n | n in counters ::
        && counters[n].value == old(counters[n].value)
        && (n != name ==> counters[n].reports == old(counters[n].reports))
    {
      lastSecAvg := counters[name].Print(secsSinceLastPrint);
    }

    /** Every counter is printed once, for the same number of seconds, and the rates are summed up. */
    method PrintStats(secsSinceLastPrint: real) returns (totalQPS: real, ghost rates: map<string, real>)
      requires Valid() && secsSinceLastPrint != 0.0
      modifies counters.Values
      ensures Valid() && counters == old(counters)
      ensures rates.Keys == counters.Keys && IsSum(rates, totalQPS)
      ensures forall n | n in counters ::
        && UpToDate(n) && counters[n].value == old(counters[n].value)
        && counters[n].reports == old(counters[n].reports) + [Report(rates[n], secsSinceLastPrint)]
    {
      var names := counters.Keys;
      totalQPS := 0.0;
      rates := map[];
      NothingIsSum();
      while names != {}
        invariant names <= counters.Keys && counters == old(counters) && Valid()
        invariant forall n | n in counters :: counters[n].value == old(counters[n].value)
        invariant forall n :: n in rates <==> n in counters && n !in names
        invariant IsSum(rates, totalQPS)
        invariant forall n | n in names :: counters[n].reports == old(counters[n].reports)
        invariant forall n | n in rates ::
          UpToDate(n) && counters[n].reports == old(counters[n].reports) + [Report(rates[n], secsSinceLastPrint)]
        decreases |names|
      {
        var n :| n in names;
        var rate := PrintCounter(n, secsSinceLastPrint);
        OneMoreRate(rates, totalQPS, n, rate);
        totalQPS := totalQPS + rate;
        rates := rates[n := rate];
        names := names - {n};
      }
    }
  }

  // ----- the reporting loop -----

  function Sum(sleeps: seq<int>): int {
    if sleeps == [] then 0 else Sum(sleeps[..|sleeps| - 1]) + sleeps[|sleeps| - 1]
  }

  const FOREVER: int := 100000000

  /** The running time; zero stands for as good as forever. */
  function Limit(terminateSec: int): int {
    if terminateSec == 0 then FOREVER else terminateSec
  }

  function SleepTime(limit: int, intervalSec: int, elapsed: int): int {
    if limit - elapsed < intervalSec then limit - elapsed else intervalSec
  }

  /** The time after n rounds. */
  function Elapsed(limit: int, intervalSec: int, n: nat): int {
    if n == 0 then 0
    else
      var elapsed := Elapsed(limit, intervalSec, n - 1);
      elapsed + SleepTime(limit, intervalSec, elapsed)
  }

  lemma {:induction false} NeverElapses(limit: int, intervalSec: int, n: nat)
    requires intervalSec <= 0 && intervalSec < limit && n > 0
    ensures Elapsed(limit, intervalSec, n) <= intervalSec
  {
    if n > 1 {
      NeverElapses(limit, intervalSec, n - 1);
    } else {
      assert Elapsed(limit, intervalSec, 0) == 0;
    }
  }

  lemma {:induction false} ElapsesSecondBySecond(limit: int, intervalSec: int, n: nat)
    requires intervalSec > 0 && limit > 0
    ensures Elapsed(limit, intervalSec, n) == limit || limit > Elapsed(limit, intervalSec, n) >= n
  {
    if n > 0 { ElapsesSecondBySecond(limit, intervalSec, n - 1); }
  }

  /** The loop ends after some round exactly for a positive interval, or one not below the (negative) running time. */
  lemma ReportingEndsExactly(limit: int, intervalSec: int)
    ensures (exists n: nat :: n > 0 && Elapsed(limit, intervalSec, n) >= limit) <==> intervalSec > 0 || limit <= intervalSec
  {
    assert Elapsed(limit, intervalSec, 0) == 0;
    if intervalSec > 0 && limit > 0 {
      ElapsesSecondBySecond(limit, intervalSec, limit);
      assert Elapsed(limit, intervalSec, limit) >= limit;
    } else if limit <= intervalSec || intervalSec > 0 {
      assert Elapsed(limit, intervalSec, 1) >= limit;
    } else {
      forall n: nat | n > 0 ensures Elapsed(limit, intervalSec, n) < limit {
        NeverElapses(limit, intervalSec, n);
      }
    }
  }

  /** The sleeps of the first n rounds. */
  function Sleeps(limit: int, intervalSec: int, n: nat): seq<int> {
    if n == 0 then []
    else Sleeps(limit, intervalSec, n - 1) + [SleepTime(limit, intervalSec, Elapsed(limit, intervalSec, n - 1))]
  }

  lemma {:induction false} SleepsAddUp(limit: int, intervalSec: int, n: nat)
    ensures Sum(Sleeps(limit, intervalSec, n)) == Elapsed(limit, intervalSec, n) && |Sleeps(limit, intervalSec, n)| == n
  {
    if n > 0 {
      SleepsAddUp(limit, intervalSec, n - 1);
      var front := Sleeps(limit, intervalSec, n - 1);
      assert Sleeps(limit, intervalSec, n)[..n - 1] == front;
    }
  }

  /** Before the end every sleep is a whole interval. */
  lemma {:induction false} WholeIntervals(limit: int, intervalSec: int, n: nat)
    requires intervalSec > 0 && (n > 0 ==> Elapsed(limit, intervalSec, n) < limit)
    ensures Elapsed(limit, intervalSec, n) == n * intervalSec
    ensures forall k | 0 <= k < |Sleeps(limit, intervalSec, n)| :: Sleeps(limit, intervalSec, n)[k] == intervalSec
  {
    if n > 0 {
      WholeIntervals(limit, intervalSec, n - 1);
      assert n * intervalSec == (n - 1) * intervalSec + intervalSec;
    }
  }

  /** The running time was not over after any of the first n rounds. */
  predicate StillRunning(limit: int, intervalSec: int, n: nat) {
    forall k | 0 < k <= n :: Elapsed(limit, intervalSec, k) < limit
  }

  /** It is over after round n, and was not before. */
  predicate IsLastRound(limit: int, intervalSec: int, n: nat) {
    n > 0 && Elapsed(limit, intervalSec, n) >= limit && StillRunning(limit, intervalSec, n - 1)
  }

  /** The sleeps so far, and the time they took, while the loop is running. */
  predicate Paced(limit: int, intervalSec: int, sleeps: seq<int>, elapsed: int) {
    && elapsed == Elapsed(limit, intervalSec, |sleeps|)
    && sleeps == Sleeps(limit, intervalSec, |sleeps|)
    && StillRunning(limit, intervalSec, |sleeps|)
  }

  lemma OverAtOnce(limit: int, intervalSec: int)
    requires limit <= intervalSec <= 0
    ensures forall n | StillRunning(limit, intervalSec, n) :: n == 0
  {
    assert Elapsed(limit, intervalSec, 0) == 0;
    assert Elapsed(limit, intervalSec, 1) == limit;
  }

  /** One more round sleeps for some time, and unless it is the last one it makes progress. */
  lemma OneMoreRound(limit: int, intervalSec: int, sleeps: seq<int>, elapsed: int, sleep: int)
    requires limit != 0 && (intervalSec > 0 || limit <= intervalSec) && Paced(limit, intervalSec, sleeps, elapsed)
    requires sleep == SleepTime(limit, intervalSec, elapsed)
    ensures sleep != 0
    ensures var n, after := |sleeps| + 1, elapsed + sleep;
      && |sleeps + [sleep]| == n && sleeps + [sleep] == Sleeps(limit, intervalSec, n)
      && if after >= limit then IsLastRound(limit, intervalSec, n)
         else elapsed < after && Paced(limit, intervalSec, sleeps + [sleep], after)
  {
    assert sleeps != [] ==> elapsed < limit;
    if intervalSec <= 0 { OverAtOnce(limit, intervalSec); }
  }

  /** An interval that is not positive ends the loop in its first round, or never. */
  lemma OneRoundOnly(limit: int, intervalSec: int, n: nat)
    requires IsLastRound(limit, intervalSec, n) && intervalSec <= 0
    ensures n == 1 && limit <= intervalSec && Sleeps(limit, intervalSec, n) == [limit]
  {
    if intervalSec < limit { NeverElapses(limit, intervalSec, n); }
    assert Elapsed(limit, intervalSec, 0) == 0;
    assert Elapsed(limit, intervalSec, 1) == limit;
    assert Sleeps(limit, intervalSec, 0) == [];
  }

  /** The sleeps up to the last round sum up to the running time exactly. */
  lemma SleepsFillRunningTime(limit: int, intervalSec: int, n: nat)
    requires IsLastRound(limit, intervalSec, n)
    ensures var sleeps := Sleeps(limit, intervalSec, n);
      && Sum(sleeps) == limit && |sleeps| == n
      && (forall k | 0 <= k < n :: sleeps[k] <= intervalSec && (limit > 0 ==> sleeps[k] > 0))
  {
    SleepsAddUp(limit, intervalSec, n);
    SleepsAddUp(limit, intervalSec, n - 1);
    if intervalSec <= 0 {
      OneRoundOnly(limit, intervalSec, n);
    } else {
      WholeIntervals(limit, intervalSec, n - 1);
    }
  }

  /** And they do so in the least number of rounds. */
  lemma RoundsAreLeast(limit: int, intervalSec: int, n: nat)
    requires IsLastRound(limit, intervalSec, n)
    ensures if limit > 0 then intervalSec > 0 && n == CeilDiv(limit, intervalSec) else n == 1
  {
    if intervalSec <= 0 {
      OneRoundOnly(limit, intervalSec, n);
    } else {
      assert Elapsed(limit, intervalSec, 0) == 0;
      WholeIntervals(limit, intervalSec, n - 1);
      if limit > 0 {
        LastRound(limit, intervalSec, n - 1);
      } else {
        assert Elapsed(limit, intervalSec, 1) == limit;
      }
    }
  }

  lemma LastRound(limit: nat, intervalSec: int, before: nat)
    requires intervalSec > 0 && before * intervalSec < limit
    requires limit - before * intervalSec <= intervalSec
    ensures CeilDiv(limit, intervalSec) == before + 1
  {
    assert (before + 1) * intervalSec == before * intervalSec + intervalSec;
    CeilDivIsLeast(limit, intervalSec, before);
    CeilDivIsLeast(limit, intervalSec, before + 1);
  }

  /** What arrives for a name in one round, and in the first rounds. */
  function Arriving(arrivals: seq<map<string, nat>>, round: nat, name: string): nat {
    if round < |arrivals| && name in arrivals[round] then arrivals[round][name] else 0
  }

  function Arrived(arrivals: seq<map<string, nat>>, rounds: nat, name: string): nat {
    if rounds == 0 then 0 else Arrived(arrivals, rounds - 1, name) + Arriving(arrivals, rounds - 1, name)
  }

  /** The reports after the first ones cover the sleeps, one each. */
  predicate Cover(reports: seq<Report>, first: nat, sleeps: seq<int>) {
    && |reports| == first + |sleeps|
    && forall k | 0 <= k < |sleeps| :: reports[first + k].seconds == sleeps[k] as real
  }

  lemma CoverOneMore(reports: seq<Report>, first: nat, sleeps: seq<int>, r: Report, sleep: int)
    requires Cover(reports, first, sleeps) && r.seconds == sleep as real
    ensures Cover(reports + [r], first, sleeps + [sleep])
  {
  }

  /** Since the numbers of reports in base, every counter has reported once per sleep, for as long as that was. */
  ghost predicate AllCover(stats: QPSStats, base: map<string, nat>, sleeps: seq<int>)
    reads stats, stats.counters.Values
  {
    && base.Keys == stats.counters.Keys
    && forall n | n in base :: Cover(stats.counters[n].reports, base[n], sleeps)
  }

  /** The counters have grown from start by what arrived in the first rounds. */
  ghost predicate Grown(stats: QPSStats, start: map<string, nat>, arrivals: seq<map<string, nat>>, rounds: nat)
    reads stats, stats.counters.Values
  {
    && start.Keys == stats.counters.Keys
    && forall n | n in start :: stats.counters[n].value == start[n] + Arrived(arrivals, rounds, n)
  }

  /** Between two reports the load threads count; arrivals says how much, per round and name. */
  method ReportLoop(stats: QPSStats, terminateSec: int, intervalSec: int, arrivals: seq<map<string, nat>>)
    returns (sleeps: seq<int>)
    requires stats.Valid() && (intervalSec > 0 || Limit(terminateSec) <= intervalSec)
    modifies stats.counters.Values
    ensures stats.Valid() && stats.counters == old(stats.counters)
    ensures IsLastRound(if terminateSec == 0 then 100000000 else terminateSec, intervalSec, |sleeps|)
    ensures sleeps == Sleeps(if terminateSec == 0 then 100000000 else terminateSec, intervalSec, |sleeps|)
    ensures AllCover(stats, old(map n | n in stats.counters :: |stats.counters[n].reports|), sleeps)
    ensures forall n | n in stats.counters :: stats.UpToDate(n)
    ensures Grown(stats, old(map n | n in stats.counters :: stats.counters[n].value), arrivals, |sleeps|)
  {
    ghost var start := map n | n in stats.counters :: stats.counters[n].value;
    ghost var base := map n | n in stats.counters :: |stats.counters[n].reports|;
    var limit := Limit(terminateSec);
    var elapsed := 0;
    sleeps := [];
    while true
      invariant stats.Valid() && stats.counters == old(stats.counters)
      invariant Paced(limit, intervalSec, sleeps, elapsed)
      invariant Grown(stats, start, arrivals, |sleeps|) && AllCover(stats, base, sleeps)
      decreases limit - elapsed
    {
      var sleep := if limit - elapsed < intervalSec then limit - elapsed else intervalSec;
      OneMoreRound(limit, intervalSec, sleeps, elapsed, sleep);
      Round(stats, sleep, arrivals, sleeps, start, base);
      sleeps := sleeps + [sleep];
      elapsed := elapsed + sleep;
      if elapsed >= limit {
        break;
      }
    }
  }

  /** The load threads count, and all counters are printed. */
  method Round(stats: QPSStats, sleep: int, arrivals: seq<map<string, nat>>, sleeps: seq<int>,
               ghost start: map<string, nat>, ghost base: map<string, nat>)
    requires stats.Valid() && sleep != 0 && Grown(stats, start, arrivals, |sleeps|) && AllCover(stats, base, sleeps)
    modifies stats.counters.Values
    ensures stats.Valid() && stats.counters == old(stats.counters) && forall n | n in stats.counters :: stats.UpToDate(n)
    ensures Grown(stats, start, arrivals, |sleeps| + 1) && AllCover(stats, base, sleeps + [sleep])
  {
    ArriveInRound(stats, arrivals, |sleeps|, start);
    PrintAfterSleep(stats, sleep, sleeps, base);
  }

  method ArriveInRound(stats: QPSStats, arrivals: seq<map<string, nat>>, round: nat, ghost start: map<string, nat>)
    requires stats.Valid() && Grown(stats, start, arrivals, round)
    modifies stats.counters.Values
    ensures stats.Valid() && stats.counters == old(stats.counters) && Grown(stats, start, arrivals, round + 1)
    ensures forall n | n in stats.counters :: stats.counters[n].reports == old(stats.counters[n].reports)
  {
    if round < |arrivals| {
      Arrive(stats, arrivals[round]);
    }
  }

  method PrintAfterSleep(stats: QPSStats, sleep: int, ghost sleeps: seq<int>, ghost base: map<string, nat>)
    requires stats.Valid() && sleep != 0 && AllCover(stats, base, sleeps)
    modifies stats.counters.Values
    ensures stats.Valid() && stats.counters == old(stats.counters) && AllCover(stats, base, sleeps + [sleep])
    ensures forall n | n in stats.counters ::
      stats.UpToDate(n) && stats.counters[n].value == old(stats.counters[n].value)
  {
    var _, rates := stats.PrintStats(sleep as real);
    forall n | n in base ensures Cover(stats.counters[n].reports, base[n], sleeps + [sleep]) {
      CoverOneMore(old(stats.counters[n].reports), base[n], sleeps, Report(rates[n], sleep as real), sleep);
    }
  }

  /** What the load threads count during one sleep. */
  method Arrive(stats: QPSStats, counts: map<string, nat>)
    requires stats.Valid()
    modifies stats.counters.Values
    ensures stats.Valid() && stats.counters == old(stats.counters)
    ensures forall n | n in stats.counters ::
      && stats.Total(n) == old(stats.Total(n)) + (if n in counts then counts[n] else 0)
      && stats.counters[n].reports == old(stats.counters[n].reports)
  {
    var names := counts.Keys * stats.counters.Keys;
    while names != {}
      invariant names <= counts.Keys * stats.counters.Keys && stats.counters == old(stats.counters) && stats.Valid()
      invariant forall n | n in stats.counters ::
        && stats.Total(n) == old(stats.Total(n)) + (if n in counts && n !in names then counts[n] else 0)
        && stats.counters[n].reports == old(stats.counters[n].reports)
      decreases |names|
    {
      var n :| n in names;
      stats.Add(n, counts[n]);
      names := names - {n};
    }
  }
}
