// The windowed load generator: a runner keeps a number of operations outstanding, and the
// event loop reports how each one ends. One runner, its statistics to itself. Its fields move
// as module LoadWindow says, whatever is delivered.
module LoadRunner {
  import opened LoadEvents
  import opened LoadWindow
  import opened QpsStats
  import opened Wrappers

  /** The names the constructors register, in a build with or without the stream operations. */
  predicate Registered(streamPerf: bool, name: string) {
    name in NAMES && (streamPerf || (name != "download" && name != "upload" && name != "s_download"))
  }

  /** Every name that may be counted is registered. */
  ghost predicate Ready(stats: QPSStats, streamPerf: bool)
    reads stats, stats.counters.Values
  {
    stats.Valid() && forall n | Registered(streamPerf, n) :: n in stats.counters
  }

  /** Every counter shows the events that count for it. */
  ghost predicate Shows(stats: QPSStats, history: seq<Delivery>)
    reads stats, stats.counters.Values
  {
    forall n :: stats.Total(n) == CountOf(history, n)
  }

  class Operation {
    const streamPerf: bool
    const stats: QPSStats
    var outstandingOps: int
    /** Callbacks the channel or a future holds, by draw; each will be called once more. */
    ghost var live: map<nat, LoadCallback>
    /** Draws of the open streams. */
    ghost var streams: set<nat>
    /** Draws that are not part of this build: nothing ever ends them. */
    ghost var unserved: set<nat>
    /** Everything the event loop has delivered. */
    ghost var history: seq<Delivery>

    ghost predicate StatsReady()
      reads this, stats, stats.counters.Values
    {
      Ready(stats, streamPerf)
    }

    ghost predicate StatsMatch()
      reads this, stats, stats.counters.Values
    {
      Ready(stats, streamPerf) && Shows(stats, history)
    }

    constructor (streamPerf: bool, stats: QPSStats)
      requires stats.Valid()
      modifies stats
      ensures this.streamPerf == streamPerf && this.stats == stats
      ensures outstandingOps == 0 && live == map[] && streams == {} && unserved == {} && history == []
      ensures StatsReady()
      ensures forall n :: stats.Total(n) == old(stats.Total(n))
      ensures forall n | n in old(stats.counters) :: n in stats.counters && stats.counters[n] == old(stats.counters[n])
    {
      this.streamPerf := streamPerf;
      this.stats := stats;
      this.outstandingOps := 0;
      this.live := map[];
      this.streams := {};
      this.unserved := {};
      this.history := [];
      new;
      var i := 0;
      while i < |NAMES|
        invariant 0 <= i <= |NAMES|
        invariant outstandingOps == 0 && live == map[] && streams == {} && unserved == {} && history == []
        invariant stats.Valid()
        invariant forall n :: stats.Total(n) == old(stats.Total(n))
        invariant forall n | n in old(stats.counters) :: n in stats.counters && stats.counters[n] == old(stats.counters[n])
        invariant forall k | 0 <= k < i && Registered(streamPerf, NAMES[k]) :: NAMES[k] in stats.counters
      {
        if streamPerf || (NAMES[i] != "download" && NAMES[i] != "upload" && NAMES[i] != "s_download") {
          stats.RegisterCounter(NAMES[i]);
        }
        i := i + 1;
      }
    }

    /** Issue an operation. The stream operation drops its callback and keeps the slot by itself;
        an operation that is not in the build takes a slot and drops its callback. */
    method Async(op: OpType, cb: LoadCallback)
      requires cb.op == op && !cb.isOneway
      modifies this`outstandingOps, this`live, this`streams, this`unserved, cb
      ensures outstandingOps == old(outstandingOps) + 1 && (cb.isOneway <==> op.NoopOneway?)
      ensures
        if NeedsStreamBuild(op) && !streamPerf then
          live == old(live) && streams == old(streams) && unserved == old(unserved) + {cb.draw}
        else if op.Stream? then
          live == old(live) && streams == old(streams) + {cb.draw} && unserved == old(unserved)
        else
          live == old(live)[cb.draw := cb] && streams == old(streams) && unserved == old(unserved)
    {
      outstandingOps := outstandingOps + 1;
      match op {
        case NoopOneway =>
          cb.SetIsOneway();
          live := live[cb.draw := cb];
        case Stream =>
          if streamPerf { streams := streams + {cb.draw}; } else { unserved := unserved + {cb.draw}; }
        case Download =>
          if streamPerf { live := live[cb.draw := cb]; } else { unserved := unserved + {cb.draw}; }
        case Upload =>
          if streamPerf { live := live[cb.draw := cb]; } else { unserved := unserved + {cb.draw}; }
        case _ =>
          live := live[cb.draw := cb];
      }
    }

    method OnewaySent(op: OpType, ghost draw: nat)
      requires StatsMatch() && op.NoopOneway?
      modifies this`outstandingOps, stats.counters.Values
      ensures StatsReady() && Shows(stats, history + [Delivery(draw, LoadEvents.OnewaySent)])
      ensures outstandingOps == old(outstandingOps) - 1
    {
      assert NAMES[0] == "noop";
      CountAppend(history, Delivery(draw, LoadEvents.OnewaySent));
      stats.Add("noop");
      outstandingOps := outstandingOps - 1;
    }

    /** A reply is counted by its outcome, but for futures, which have counted, and oneway calls, which get none. */
    method AsyncReceived(op: OpType, answer: Answer, ghost before: seq<Delivery>, ghost draw: nat)
      requires StatsReady() && Shows(stats, before) && (NeedsStreamBuild(op) ==> streamPerf && !op.Stream?)
      modifies this`outstandingOps, stats.counters.Values
      ensures StatsReady() && outstandingOps == old(outstandingOps) - 1
      ensures Shows(stats, if IsFuture(op) then before else before + [Delivery(draw, Reply(op, answer))])
    {
      outstandingOps := outstandingOps - 1;
      CountAppend(before, Delivery(draw, Reply(op, answer)));
      if !IsFuture(op) && !op.NoopOneway? {
        OutcomeIsRegistered(streamPerf, op, answer);
        stats.Add(OutcomeName(op, answer));
      }
    }

    method AsyncErrorReceived(op: OpType, ghost before: seq<Delivery>, ghost draw: nat)
      requires StatsReady() && Shows(stats, before) && (NeedsStreamBuild(op) ==> streamPerf && !op.Stream?)
      modifies this`outstandingOps, stats.counters.Values
      ensures StatsReady() && outstandingOps == old(outstandingOps) - 1
      ensures Shows(stats, if IsFuture(op) then before else before + [Delivery(draw, Error(op))])
    {
      outstandingOps := outstandingOps - 1;
      CountAppend(before, Delivery(draw, Error(op)));
      if !IsFuture(op) && !op.NoopOneway? {
        assert NAMES[9] == "error";
        stats.Add("error");
      }
    }

    /** What the continuation of a future or coroutine counts, before it makes its callback. */
    method FutureCounted(op: OpType, answer: Answer, ghost draw: nat)
      requires StatsMatch() && IsFuture(op)
      modifies stats.counters.Values
      ensures StatsReady() && Shows(stats, history + [Delivery(draw, FutureReady(op, answer))])
    {
      CountAppend(history, Delivery(draw, FutureReady(op, answer)));
      OutcomeIsRegistered(streamPerf, op, answer);
      stats.Add(OutcomeName(op, answer));
    }

    /** What the callback of a future reports: an error after a standard exception, otherwise a reply. Neither counts. */
    method FutureReceived(op: OpType, answer: Answer, ghost counted: seq<Delivery>, ghost draw: nat)
      requires StatsReady() && Shows(stats, counted) && IsFuture(op)
      modifies this`outstandingOps, stats.counters.Values
      ensures StatsReady() && Shows(stats, counted) && outstandingOps == old(outstandingOps) - 1
    {
      if answer.StandardError? {
        AsyncErrorReceived(op, counted, draw);
      } else {
        AsyncReceived(op, answer, counted, draw);
      }
    }

    /** What an open stream delivers. An end gives the slot back, and nobody refills it. */
    method StreamEvent(ghost draw: nat, e: Event)
      requires StatsMatch() && streamPerf && draw in streams && OfStream(e)
      modifies this`outstandingOps, this`streams, this`history, stats.counters.Values
      ensures StatsMatch() && history == old(history) + [Delivery(draw, e)]
      ensures if e.StreamItem? then outstandingOps == old(outstandingOps) && streams == old(streams)
        else outstandingOps == old(outstandingOps) - 1 && streams == old(streams) - {draw}
    {
      StreamCounted(draw, e);
      if !e.StreamItem? {
        outstandingOps := outstandingOps - 1;
        streams := streams - {draw};
      }
      history := history + [Delivery(draw, e)];
    }

    /** An item and a failure are counted, the regular end of a stream is not. */
    method StreamCounted(ghost draw: nat, e: Event)
      requires StatsMatch() && streamPerf && OfStream(e)
      modifies stats.counters.Values
      ensures StatsReady() && Shows(stats, history + [Delivery(draw, e)])
    {
      assert NAMES[5] == "s_download" && NAMES[10] == "fatal";
      CountAppend(history, Delivery(draw, e));
      match e {
        case StreamItem => stats.Add("s_download");
        case StreamFailed => stats.Add("fatal");
        case StreamCompleted =>
      }
    }
  }

  lemma OutcomeIsRegistered(streamPerf: bool, op: OpType, answer: Answer)
    requires NeedsStreamBuild(op) ==> streamPerf
    ensures Registered(streamPerf, OutcomeName(op, answer))
  {
    CreditIsNamed(FutureReady(op, answer));
  }

  /** Each counter shows exactly the deliveries it stands for; no other name is counted. */
  lemma TotalsShowTheirEvents(r: Runner, name: string)
    requires r.Settled()
    ensures r.ops.stats.Total(name) == EventsFor(r.ops.history, name)
  {
    CountersShowTheirEvents(r.Config(), r.ops.history, name);
  }

  lemma TotalsNow(r: Runner)
    requires r.Settled()
    ensures forall n :: r.ops.stats.Total(n) == EventsFor(r.ops.history, n)
  {
    forall n ensures r.ops.stats.Total(n) == EventsFor(r.ops.history, n) { TotalsShowTheirEvents(r, n); }
  }

  lemma TotalsAfter(r: Runner, before: seq<Delivery>, d: Delivery)
    requires r.Settled() && r.ops.history == before + [d]
    ensures forall n :: r.ops.stats.Total(n) == EventsFor(before, n) + if CountsFor(n, d.event) then 1 else 0
  {
    TotalsNow(r);
    forall n ensures EventsFor(before + [d], n) == EventsFor(before, n) + if CountsFor(n, d.event) then 1 else 0 {
      EventsForAppend(before, d, n);
    }
  }

  class LoadCallback {
    const runner: Runner
    const ops: Operation
    const op: OpType
    /** Which draw the operation was. */
    ghost const draw: nat
    var isOneway: bool

    constructor (runner: Runner, ops: Operation, op: OpType, ghost draw: nat)
      ensures this.runner == runner && this.ops == ops && this.op == op && this.draw == draw && !isOneway
    {
      this.runner := runner;
      this.ops := ops;
      this.op := op;
      this.draw := draw;
      this.isOneway := false;
    }

    method SetIsOneway()
      modifies this
      ensures isOneway
    {
      isOneway := true;
    }

    ghost predicate IsLive()
      reads ops
    {
      draw in ops.live && ops.live[draw] == this
    }

    /** The request left. That is the end of a oneway call, and nothing to any other. */
    method RequestSent()
      requires runner.ops == ops && runner.Settled() && IsLive()
      modifies runner, ops, ops.stats.counters.Values
      ensures runner.Settled()
      ensures if op.NoopOneway? then ops.history == old(ops.history) + [Delivery(draw, OnewaySent)]
        else ops.history == old(ops.history) && runner.View() == old(runner.View())
      ensures forall n ::
        ops.stats.Total(n) == old(ops.stats.Total(n)) + if op.NoopOneway? && CountsFor(n, OnewaySent) then 1 else 0
    {
      TotalsNow(runner);
      if isOneway {
        ops.OnewaySent(op, draw);
        runner.Finish(this, OnewaySent);
        TotalsAfter(runner, old(ops.history), Delivery(draw, OnewaySent));
      }
    }

    /** A reply arrived and was decoded to answer. */
    method ReplyReceived(answer: Answer)
      requires runner.ops == ops && runner.Settled() && IsLive() && !IsFuture(op)
      modifies runner, ops, ops.stats.counters.Values
      ensures runner.Settled() && ops.history == old(ops.history) + [Delivery(draw, Reply(op, answer))]
      ensures forall n ::
        ops.stats.Total(n) == old(ops.stats.Total(n)) + if CountsFor(n, Reply(op, answer)) then 1 else 0
    {
      TotalsNow(runner);
      runner.LiveIsInBuild(this);
      ops.AsyncReceived(op, answer, ops.history, draw);
      runner.Finish(this, Reply(op, answer));
      TotalsAfter(runner, old(ops.history), Delivery(draw, Reply(op, answer)));
    }

    method RequestError()
      requires runner.ops == ops && runner.Settled() && IsLive() && !IsFuture(op)
      modifies runner, ops, ops.stats.counters.Values
      ensures runner.Settled() && ops.history == old(ops.history) + [Delivery(draw, Error(op))]
      ensures forall n ::
        ops.stats.Total(n) == old(ops.stats.Total(n)) + if CountsFor(n, Error(op)) then 1 else 0
    {
      TotalsNow(runner);
      runner.LiveIsInBuild(this);
      ops.AsyncErrorReceived(op, ops.history, draw);
      runner.Finish(this, Error(op));
      TotalsAfter(runner, old(ops.history), Delivery(draw, Error(op)));
    }

    /** The continuation of a future or coroutine counts first and then makes the callback. */
    method FutureReady(answer: Answer)
      requires runner.ops == ops && runner.Settled() && IsLive() && IsFuture(op)
      modifies runner, ops, ops.stats.counters.Values
      ensures runner.Settled() && ops.history == old(ops.history) + [Delivery(draw, LoadEvents.FutureReady(op, answer))]
      ensures forall n ::
        ops.stats.Total(n) == old(ops.stats.Total(n)) + if CountsFor(n, LoadEvents.FutureReady(op, answer)) then 1 else 0
    {
      TotalsNow(runner);
      ops.FutureCounted(op, answer, draw);
      FutureCallback(answer);
      TotalsAfter(runner, old(ops.history), Delivery(draw, LoadEvents.FutureReady(op, answer)));
    }

    /** The callback a future makes: for these operations it counts nothing. */
    method FutureCallback(answer: Answer)
      requires runner.ops == ops && runner.CallbacksMatch() && IsLive() && IsFuture(op) && ops.StatsReady()
      requires After(runner.Config(), ops.history) == Some(runner.View())
      requires Shows(ops.stats, ops.history + [Delivery(draw, LoadEvents.FutureReady(op, answer))])
      modifies runner, ops, ops.stats.counters.Values
      ensures runner.Settled() && ops.history == old(ops.history) + [Delivery(draw, LoadEvents.FutureReady(op, answer))]
    {
      ghost var counted := ops.history + [Delivery(draw, LoadEvents.FutureReady(op, answer))];
      ops.FutureReceived(op, answer, counted, draw);
      runner.Finish(this, LoadEvents.FutureReady(op, answer));
    }
  }

  class Runner {
    const ops: Operation
    const maxOutstandingOps: int
    /** What the random distribution yields, draw by draw. */
    const draws: nat -> OpType
    var drawn: nat

    constructor (ops: Operation, draws: nat -> OpType, maxOutstandingOps: int)
      ensures this.ops == ops && this.draws == draws && this.maxOutstandingOps == maxOutstandingOps && drawn == 0
    {
      this.ops := ops;
      this.draws := draws;
      this.maxOutstandingOps := maxOutstandingOps;
      this.drawn := 0;
    }

    ghost function Config(): Setup {
      Setup(draws, ops.streamPerf, maxOutstandingOps)
    }

    ghost function View(): Load
      reads this, ops
    {
      Load(drawn, ops.outstandingOps, ops.live.Keys, ops.streams, ops.unserved)
    }

    /** The live callbacks are those of the draws they stand for. */
    ghost predicate CallbacksMatch()
      reads this, ops, ops.live.Values
    {
      forall i | i in ops.live :: var cb := ops.live[i];
        cb.draw == i && cb.runner == this && cb.ops == ops && cb.op == draws(i) && (cb.isOneway <==> cb.op.NoopOneway?)
    }

    /** Between events the fields are where the deliveries so far lead, and the counters show those deliveries. */
    ghost predicate Settled()
      reads this, ops, ops.live.Values, ops.stats, ops.stats.counters.Values
    {
      CallbacksMatch() && ops.StatsMatch() && After(Config(), ops.history) == Some(View())
    }

    lemma LiveIsInBuild(cb: LoadCallback)
      requires Settled() && cb.ops == ops && cb.runner == this && cb.IsLive()
      ensures NeedsStreamBuild(cb.op) ==> ops.streamPerf && !cb.op.Stream?
    {
      WindowHolds(Config(), ops.history);
      assert cb.draw in View().live;
    }

    /** The window loop issues what the window lacks. */
    method Run()
      requires CallbacksMatch()
      modifies this, ops`outstandingOps, ops`live, ops`streams, ops`unserved
      ensures CallbacksMatch() && View() == Refill(Config(), old(View()))
      ensures ops.outstandingOps
        == if old(ops.outstandingOps) < maxOutstandingOps then maxOutstandingOps else old(ops.outstandingOps)
    {
      ghost var start := View();
      RefillCounts(Config(), start);
      while ops.outstandingOps < maxOutstandingOps
        invariant CallbacksMatch() && Refill(Config(), View()) == Refill(Config(), start)
        invariant forall i | i in ops.live && i !in old(ops.live) :: fresh(ops.live[i])
        decreases maxOutstandingOps - ops.outstandingOps
      {
        ghost var before := View();
        var op := draws(drawn);
        var cb := new LoadCallback(this, ops, op, drawn);
        drawn := drawn + 1;
        ops.Async(op, cb);
        assert View() == Issue(Config(), before);
      }
    }

    /** The rest of every terminal callback, which has counted: the callback is gone, and the window is refilled. */
    method Finish(ghost cb: LoadCallback, ghost e: Event)
      requires CallbacksMatch() && !OfStream(e)
      requires cb.ops == ops && cb.IsLive() && Fits(cb.op, e)
      requires After(Config(), ops.history) == Some(View().(outstanding := ops.outstandingOps + 1))
      modifies this, ops
      ensures CallbacksMatch() && ops.history == old(ops.history) + [Delivery(cb.draw, e)]
      ensures After(Config(), ops.history) == Some(View())
    {
      CallEndAppend(Config(), ops.history, View(), Delivery(cb.draw, e));
      ops.live := ops.live - {cb.draw};
      ops.history := ops.history + [Delivery(cb.draw, e)];
      Run();
    }

    /** A stream of this runner delivers something. */
    method OnStream(ghost draw: nat, e: Event)
      requires Settled() && draw in ops.streams && OfStream(e)
      modifies ops, ops.stats.counters.Values
      ensures Settled() && ops.history == old(ops.history) + [Delivery(draw, e)]
      ensures forall n :: ops.stats.Total(n) == old(ops.stats.Total(n)) + if CountsFor(n, e) then 1 else 0
    {
      TotalsNow(this);
      StreamEventAppend(Config(), ops.history, View(), Delivery(draw, e));
      ops.StreamEvent(draw, e);
      TotalsAfter(this, old(ops.history), Delivery(draw, e));
    }
  }

  /** How a client thread starts, before the event loop takes over. */
  method Start(stats: QPSStats, streamPerf: bool, draws: nat -> OpType, maxOutstandingOps: int) returns (r: Runner)
    requires stats.Valid() && forall n :: stats.Total(n) == 0
    modifies stats
    ensures fresh(r) && fresh(r.ops) && r.ops.stats == stats && r.Config() == Setup(draws, streamPerf, maxOutstandingOps)
    ensures r.Settled() && r.ops.history == [] && r.ops.outstandingOps == Window(r.Config())
  {
    var ops := new Operation(streamPerf, stats);
    r := new Runner(ops, draws, maxOutstandingOps);
    assert r.View() == EMPTY;
    r.Run();
  }

  // ----- what a runner shows between events -----

  ghost function SumOfTotals(stats: QPSStats, names: seq<string>): nat
    reads stats, stats.counters.Values
  {
    if names == [] then 0 else SumOfTotals(stats, names[..|names| - 1]) + stats.Total(names[|names| - 1])
  }

  lemma {:induction false} TotalsAreCounts(r: Runner, names: seq<string>)
    requires r.Settled()
    ensures SumOfTotals(r.ops.stats, names) == SumOfCounts(r.ops.history, names)
  {
    if names != [] { TotalsAreCounts(r, names[..|names| - 1]); }
  }

  /** The outstanding counter is the live callbacks, the open streams and the operations outside the build. It never
      exceeds the window, and lacks only the streams that ended since the last refill. */
  lemma CounterIsTrue(r: Runner)
    requires r.Settled()
    ensures r.ops.outstandingOps == |r.ops.live| + |r.ops.streams| + |r.ops.unserved| <= Window(r.Config())
    ensures r.ops.outstandingOps == Window(r.Config()) - |EndedSinceRefill(r.ops.history)|
  {
    WindowIsKept(r.Config(), r.ops.history);
    assert |r.ops.live| == |r.ops.live.Keys|;
  }

  /** The counters add up to what was drawn and is no longer outstanding, but for the ends nobody counts and the items
      of streams; exactly so while no oneway call and no stream was drawn. */
  lemma CountersAddUpToDraws(r: Runner)
    requires r.Settled()
    ensures SumOfTotals(r.ops.stats, NAMES) + Silent(r.ops.history) == r.drawn - r.ops.outstandingOps + Items(r.ops.history)
    ensures (forall i | 0 <= i < r.drawn :: !r.draws(i).NoopOneway? && !r.draws(i).Stream?)
      ==> SumOfTotals(r.ops.stats, NAMES) == r.drawn - r.ops.outstandingOps
  {
    TotalsAreCounts(r, NAMES);
    CountersAccountForDraws(r.Config(), r.ops.history);
    assert forall i | 0 <= i < r.drawn :: r.Config().draws(i) == r.draws(i);
  }

  /** A runner for which nothing is live has drawn a window full of operations that no refill follows. */
  lemma RestingRunnerDrewHolders(r: Runner)
    requires r.Settled() && r.ops.live == map[] && r.ops.streams == {}
    ensures |HoldingDraws(r.Config(), r.drawn)| >= Window(r.Config())
  {
    WindowHolds(r.Config(), r.ops.history);
    RestMeansNothingLive(r.Config(), r.View());
    RestNeedsHolders(r.Config(), r.ops.history);
  }
}
