// The load generator as a step system: the window of outstanding operations, and what every
// delivery of the event loop does to it. Operations go by their draw number. Module LoadRunner
// has the classes, which move exactly like this.
module LoadWindow {
  import opened Arithmetic
  import opened LoadEvents
  import opened Wrappers

  /** What the random distribution yields, draw by draw; whether the stream operations are built in; the limit. */
  datatype Setup = Setup(draws: nat -> OpType, streamPerf: bool, maxOutstandingOps: int)

  /** The counter of outstanding operations and what is behind it: callbacks that will still be called,
      open streams, and operations outside the build, which nothing ever ends. */
  datatype Load = Load(drawn: nat, outstanding: int, live: set<nat>, streams: set<nat>, unserved: set<nat>)

  const EMPTY: Load := Load(0, 0, {}, {}, {})

  function Window(c: Setup): nat {
    if c.maxOutstandingOps < 0 then 0 else c.maxOutstandingOps
  }

  predicate OutsideBuild(c: Setup, op: OpType) {
    NeedsStreamBuild(op) && !c.streamPerf
  }

  /** Draw the next operation and issue it. */
  function Issue(c: Setup, s: Load): Load {
    var op := c.draws(s.drawn);
    var issued := s.(drawn := s.drawn + 1, outstanding := s.outstanding + 1);
    if OutsideBuild(c, op) then issued.(unserved := s.unserved + {s.drawn})
    else if op.Stream? then issued.(streams := s.streams + {s.drawn})
    else issued.(live := s.live + {s.drawn})
  }

  function Refill(c: Setup, s: Load): Load
    decreases c.maxOutstandingOps - s.outstanding
  {
    if s.outstanding < c.maxOutstandingOps then Refill(c, Issue(c, s)) else s
  }

  /** How the call of an operation can end. */
  predicate Fits(op: OpType, e: Event) {
    match e
    case OnewaySent => op.NoopOneway?
    case Reply(of, _) => of == op && !IsFuture(op)
    case Error(of) => of == op && !IsFuture(op)
    case FutureReady(of, _) => of == op && IsFuture(op)
    case _ => false
  }

  predicate Possible(c: Setup, s: Load, d: Delivery) {
    if OfStream(d.event) then d.draw in s.streams else d.draw in s.live && Fits(c.draws(d.draw), d.event)
  }

  /** A call that ends makes room and refills; a stream that ends only makes room. */
  function Deliver(c: Setup, s: Load, d: Delivery): Load
    requires Possible(c, s, d)
  {
    if d.event.StreamItem? then s
    else if OfStream(d.event) then s.(outstanding := s.outstanding - 1, streams := s.streams - {d.draw})
    else Refill(c, s.(outstanding := s.outstanding - 1, live := s.live - {d.draw}))
  }

  /** The state after a list of deliveries, or None when one of them could not happen. */
  function After(c: Setup, history: seq<Delivery>): Option<Load> {
    if history == [] then Some(Refill(c, EMPTY))
    else match After(c, history[..|history| - 1])
      case None => None
      case Some(s) =>
        var d := history[|history| - 1];
        if Possible(c, s, d) then Some(Deliver(c, s, d)) else None
  }

  lemma AfterAppend(c: Setup, history: seq<Delivery>, d: Delivery)
    requires After(c, history).Some? && Possible(c, After(c, history).value, d)
    ensures After(c, history + [d]) == Some(Deliver(c, After(c, history).value, d))
  {
    assert (history + [d])[..|history|] == history;
  }

  /** The end of a call, seen from the moment when its slot is already free. */
  lemma CallEndAppend(c: Setup, history: seq<Delivery>, room: Load, d: Delivery)
    requires After(c, history) == Some(room.(outstanding := room.outstanding + 1))
    requires !OfStream(d.event) && d.draw in room.live && Fits(c.draws(d.draw), d.event)
    ensures After(c, history + [d]) == Some(Refill(c, room.(live := room.live - {d.draw})))
  {
    AfterAppend(c, history, d);
  }

  /** What a stream delivers. */
  lemma StreamEventAppend(c: Setup, history: seq<Delivery>, s: Load, d: Delivery)
    requires After(c, history) == Some(s) && OfStream(d.event) && d.draw in s.streams
    ensures After(c, history + [d]) == Some(
      if d.event.StreamItem? then s else s.(outstanding := s.outstanding - 1, streams := s.streams - {d.draw}))
    ensures c.streamPerf
  {
    AfterAppend(c, history, d);
    WindowHolds(c, history);
  }

  // ----- what every run keeps -----

  /** A draw whose slot no refill follows: a stream, or an operation outside the build. */
  predicate Holds(c: Setup, op: OpType) {
    op.Stream? || OutsideBuild(c, op)
  }

  /** The holding draws among the first n. */
  function HoldingDraws(c: Setup, n: nat): set<nat> {
    set i | 0 <= i < n && Holds(c, c.draws(i))
  }

  /** The draws behind the counter are of the right kind. */
  ghost predicate RightKinds(c: Setup, s: Load) {
    && (forall i | i in s.live :: i < s.drawn && !Holds(c, c.draws(i)))
    && (forall i | i in s.streams :: i < s.drawn && c.draws(i).Stream? && c.streamPerf)
    && (forall i | i in s.unserved :: i < s.drawn && OutsideBuild(c, c.draws(i)))
  }

  /** The counter is what is behind it. */
  predicate Counted(s: Load) {
    s.outstanding == |s.live| + |s.streams| + |s.unserved|
  }

  ghost predicate Sound(c: Setup, s: Load) {
    RightKinds(c, s) && Counted(s)
  }

  lemma OneMore(draws: set<nat>, i: nat)
    requires i !in draws
    ensures |draws + {i}| == |draws| + 1
  {
  }

  lemma OneLess(draws: set<nat>, i: nat)
    requires i in draws
    ensures |draws - {i}| == |draws| - 1
  {
  }

  lemma IssueKeepsKinds(c: Setup, s: Load)
    requires RightKinds(c, s)
    ensures RightKinds(c, Issue(c, s))
  {
  }

  lemma IssueKeepsSound(c: Setup, s: Load)
    requires Sound(c, s)
    ensures Sound(c, Issue(c, s))
  {
    IssueKeepsKinds(c, s);
    assert s.drawn !in s.live && s.drawn !in s.streams && s.drawn !in s.unserved;
    OneMore(s.live, s.drawn);
    OneMore(s.streams, s.drawn);
    OneMore(s.unserved, s.drawn);
  }

  /** No stream has ended yet: every holding draw still holds its slot. */
  ghost predicate NothingEnded(c: Setup, s: Load) {
    forall i | 0 <= i < s.drawn && Holds(c, c.draws(i)) :: i in s.streams || i in s.unserved
  }

  /** Refilling issues what the window lacks. */
  lemma {:induction false} RefillCounts(c: Setup, s: Load)
    ensures var s' := Refill(c, s);
      && s'.outstanding == (if s.outstanding < c.maxOutstandingOps then c.maxOutstandingOps else s.outstanding)
      && s'.drawn - s'.outstanding == s.drawn - s.outstanding
    decreases c.maxOutstandingOps - s.outstanding
  {
    if s.outstanding < c.maxOutstandingOps { RefillCounts(c, Issue(c, s)); }
  }

  lemma {:induction false} RefillKeepsSound(c: Setup, s: Load)
    requires Sound(c, s)
    ensures Sound(c, Refill(c, s))
    decreases c.maxOutstandingOps - s.outstanding
  {
    if s.outstanding < c.maxOutstandingOps {
      IssueKeepsSound(c, s);
      RefillKeepsSound(c, Issue(c, s));
    }
  }

  /** New streams have new numbers, and everything that holds its slot keeps it. */
  lemma {:induction false} RefillKeepsStreams(c: Setup, s: Load)
    ensures forall i | i in Refill(c, s).streams && i < s.drawn :: i in s.streams
    ensures NothingEnded(c, s) ==> NothingEnded(c, Refill(c, s))
    decreases c.maxOutstandingOps - s.outstanding
  {
    if s.outstanding < c.maxOutstandingOps { RefillKeepsStreams(c, Issue(c, s)); }
  }

  lemma RefillFills(c: Setup, s: Load)
    requires Sound(c, s)
    ensures var s' := Refill(c, s);
      && Sound(c, s')
      && s'.outstanding == (if s.outstanding < c.maxOutstandingOps then c.maxOutstandingOps else s.outstanding)
      && s'.drawn - s'.outstanding == s.drawn - s.outstanding
      && (forall i | i in s'.streams && i < s.drawn :: i in s.streams)
      && (NothingEnded(c, s) ==> NothingEnded(c, s'))
  {
    RefillCounts(c, s);
    RefillKeepsSound(c, s);
    RefillKeepsStreams(c, s);
  }

  /** The draws of the streams that ended after the last event that refilled the window. */
  function EndedSinceRefill(history: seq<Delivery>): set<nat> {
    if history == [] then {}
    else
      var d := history[|history| - 1];
      if !OfStream(d.event) then {}
      else EndedSinceRefill(history[..|history| - 1]) + if d.event.StreamItem? then {} else {d.draw}
  }

  ghost predicate WindowInv(c: Setup, history: seq<Delivery>, s: Load) {
    && Sound(c, s)
    && s.outstanding == Window(c) - |EndedSinceRefill(history)|
    && s.drawn == s.outstanding + Ends(history)
    && (forall i | i in EndedSinceRefill(history) :: i < s.drawn && c.draws(i).Stream? && c.streamPerf && i !in s.streams)
  }

  /** A call that ends: its slot is refilled, and so are those of the streams that ended before. */
  lemma CallEndKeepsWindow(c: Setup, history: seq<Delivery>, s: Load, d: Delivery)
    requires WindowInv(c, history, s) && Possible(c, s, d) && !OfStream(d.event)
    ensures WindowInv(c, history + [d], Deliver(c, s, d))
  {
    assert (history + [d])[..|history|] == history;
    var room := s.(outstanding := s.outstanding - 1, live := s.live - {d.draw});
    OneLess(s.live, d.draw);
    assert Sound(c, room);
    RefillFills(c, room);
  }

  lemma StreamEventKeepsWindow(c: Setup, history: seq<Delivery>, s: Load, d: Delivery)
    requires WindowInv(c, history, s) && Possible(c, s, d) && OfStream(d.event)
    ensures WindowInv(c, history + [d], Deliver(c, s, d))
  {
    assert (history + [d])[..|history|] == history;
    OneLess(s.streams, d.draw);
    if !d.event.StreamItem? { OneMore(EndedSinceRefill(history), d.draw); }
  }

  lemma {:induction false} WindowHolds(c: Setup, history: seq<Delivery>)
    requires After(c, history).Some?
    ensures WindowInv(c, history, After(c, history).value)
  {
    if history == [] {
      RefillFills(c, EMPTY);
    } else {
      var front, d := history[..|history| - 1], history[|history| - 1];
      WindowHolds(c, front);
      if OfStream(d.event) {
        StreamEventKeepsWindow(c, front, After(c, front).value, d);
      } else {
        CallEndKeepsWindow(c, front, After(c, front).value, d);
      }
      assert front + [d] == history;
    }
  }

  /** In every run: the counter is what is behind it, never more than the window, and less only by the streams
      that ended since the last refill; everything drawn is outstanding or was ended by one delivery. */
  lemma WindowIsKept(c: Setup, history: seq<Delivery>)
    requires After(c, history).Some?
    ensures var s := After(c, history).value;
      && s.outstanding == |s.live| + |s.streams| + |s.unserved| <= Window(c)
      && s.outstanding == Window(c) - |EndedSinceRefill(history)|
      && s.drawn == s.outstanding + Ends(history)
  {
    WindowHolds(c, history);
  }

  // ----- coming to rest -----

  /** The event loop has nothing left to deliver, so nothing ever happens again. */
  ghost predicate AtRest(c: Setup, s: Load) {
    forall d :: !Possible(c, s, d)
  }

  /** An event that a live call can end with. */
  function Ending(op: OpType): Event {
    if op.NoopOneway? then OnewaySent else if IsFuture(op) then FutureReady(op, Good) else Reply(op, Good)
  }

  lemma RestMeansNothingLive(c: Setup, s: Load)
    requires Sound(c, s)
    ensures AtRest(c, s) <==> s.live == {} && s.streams == {}
  {
    if AtRest(c, s) {
      if i :| i in s.live { assert Possible(c, s, Delivery(i, Ending(c.draws(i)))); }
      if i :| i in s.streams { assert Possible(c, s, Delivery(i, StreamCompleted)); }
    }
  }

  /** A state at rest was reached by drawing a window full of operations that no refill follows. */
  lemma RestNeedsHolders(c: Setup, history: seq<Delivery>)
    requires After(c, history).Some? && AtRest(c, After(c, history).value)
    ensures |HoldingDraws(c, After(c, history).value.drawn)| >= Window(c)
  {
    var s, ended := After(c, history).value, EndedSinceRefill(history);
    WindowHolds(c, history);
    RestMeansNothingLive(c, s);
    assert ended !! s.unserved;
    assert |ended + s.unserved| == |ended| + |s.unserved|;
    SubsetSize(ended + s.unserved, HoldingDraws(c, s.drawn));
  }

  /** While no stream has ended and a call is live, the window has not yet drawn its width in holders. */
  lemma LiveMeansFewHolders(c: Setup, s: Load, n: nat)
    requires Sound(c, s) && NothingEnded(c, s) && s.outstanding == Window(c) && s.live != {}
    requires |HoldingDraws(c, n)| >= Window(c)
    ensures s.drawn < n
  {
    if n <= s.drawn { SubsetSize(HoldingDraws(c, n), s.streams + s.unserved); }
  }

  /** The end of one call draws one more operation. */
  lemma EndOneCall(c: Setup, s: Load, i: nat)
    requires Sound(c, s) && NothingEnded(c, s) && s.outstanding == Window(c) && i in s.live
    ensures var d := Delivery(i, Ending(c.draws(i)));
      && Possible(c, s, d)
      && var s' := Deliver(c, s, d);
         NothingEnded(c, s') && s'.outstanding == Window(c) && s'.drawn == s.drawn + 1
  {
    var room := s.(outstanding := s.outstanding - 1, live := s.live - {i});
    RefillCounts(c, room);
    RefillKeepsStreams(c, room);
  }

  /** While no stream has ended, calls can be ended one by one until only holders are left in the window. */
  lemma {:induction false} EndCalls(c: Setup, history: seq<Delivery>, n: nat) returns (more: seq<Delivery>)
    requires After(c, history).Some?
    requires NothingEnded(c, After(c, history).value) && After(c, history).value.outstanding == Window(c)
    requires |HoldingDraws(c, n)| >= Window(c)
    ensures After(c, more).Some? && After(c, more).value.live == {}
    decreases n - After(c, history).value.drawn
  {
    var s := After(c, history).value;
    WindowHolds(c, history);
    if s.live == {} {
      more := history;
    } else {
      var i :| i in s.live;
      var d := Delivery(i, Ending(c.draws(i)));
      LiveMeansFewHolders(c, s, n);
      EndOneCall(c, s, i);
      AfterAppend(c, history, d);
      more := EndCalls(c, history + [d], n);
    }
  }

  /** Then the streams end one by one, and nothing refills the window. */
  lemma {:induction false} EndStreams(c: Setup, history: seq<Delivery>) returns (more: seq<Delivery>)
    requires After(c, history).Some? && After(c, history).value.live == {}
    ensures After(c, more).Some? && AtRest(c, After(c, more).value)
    decreases |After(c, history).value.streams|
  {
    var s := After(c, history).value;
    WindowHolds(c, history);
    RestMeansNothingLive(c, s);
    if s.streams == {} {
      more := history;
    } else {
      var i :| i in s.streams;
      AfterAppend(c, history, Delivery(i, StreamCompleted));
      more := EndStreams(c, history + [Delivery(i, StreamCompleted)]);
    }
  }

  /** The generator can come to rest exactly when the distribution yields, sooner or later, as many operations that
      no refill follows as the window is wide. With fewer, it never stops. */
  lemma RestsExactlyWhenHeld(c: Setup)
    ensures (exists history :: After(c, history).Some? && AtRest(c, After(c, history).value))
      <==> exists n: nat :: |HoldingDraws(c, n)| >= Window(c)
  {
    if history :| After(c, history).Some? && AtRest(c, After(c, history).value) {
      RestNeedsHolders(c, history);
    }
    if n: nat :| |HoldingDraws(c, n)| >= Window(c) {
      assert After(c, []).Some?;
      RefillFills(c, EMPTY);
      var calls := EndCalls(c, [], n);
      var _ := EndStreams(c, calls);
    }
  }

  function Completions(n: nat): seq<Delivery> {
    seq(n, i requires i >= 0 => Delivery(i, StreamCompleted))
  }

  /** The plainest case: only streams are drawn, and all those in the window complete. */
  lemma {:induction false} StreamsOnlyComeToRest(c: Setup, n: nat)
    requires c.streamPerf && (forall i: nat :: c.draws(i).Stream?) && n <= Window(c)
    ensures After(c, Completions(n)).Some?
    ensures forall i :: i in After(c, Completions(n)).value.streams <==> n <= i < Window(c)
    ensures n == Window(c) ==> AtRest(c, After(c, Completions(n)).value)
  {
    if n == 0 {
      RefillFills(c, EMPTY);
      assert forall i | 0 <= i < Refill(c, EMPTY).drawn :: Holds(c, c.draws(i));
    } else {
      StreamsOnlyComeToRest(c, n - 1);
      assert Completions(n) == Completions(n - 1) + [Delivery(n - 1, StreamCompleted)];
      AfterAppend(c, Completions(n - 1), Delivery(n - 1, StreamCompleted));
    }
    var s := After(c, Completions(n)).value;
    WindowHolds(c, Completions(n));
    RestMeansNothingLive(c, s);
    assert forall i | i in s.live :: Holds(c, c.draws(i));
  }

  // ----- what is counted -----

  predicate FitsDraw(c: Setup, drawn: nat, d: Delivery) {
    && d.draw < drawn
    && var op := c.draws(d.draw);
       if OfStream(d.event) then op.Stream? else !op.Stream? && Fits(op, d.event)
  }

  lemma PossibleFits(c: Setup, s: Load, d: Delivery)
    requires RightKinds(c, s) && Possible(c, s, d)
    ensures FitsDraw(c, s.drawn, d)
  {
  }

  lemma DrawnGrows(c: Setup, s: Load, d: Delivery)
    requires Possible(c, s, d)
    ensures s.drawn <= Deliver(c, s, d).drawn
  {
    RefillCounts(c, s.(outstanding := s.outstanding - 1, live := s.live - {d.draw}));
  }

  /** Whatever a run delivers was drawn, and is an event of its operation. */
  lemma {:induction false} DeliveriesFit(c: Setup, history: seq<Delivery>)
    requires After(c, history).Some?
    ensures forall k | 0 <= k < |history| :: FitsDraw(c, After(c, history).value.drawn, history[k])
  {
    if history != [] {
      var front, d := history[..|history| - 1], history[|history| - 1];
      var s := After(c, front).value;
      DeliveriesFit(c, front);
      WindowHolds(c, front);
      PossibleFits(c, s, d);
      DrawnGrows(c, s, d);
      forall k | 0 <= k < |front| ensures FitsDraw(c, s.drawn, history[k]) { assert history[k] == front[k]; }
    }
  }

  /** An event of a drawn operation is credited to the counter that stands for it, and to no other. */
  lemma CreditIsRight(c: Setup, drawn: nat, d: Delivery, name: string)
    requires FitsDraw(c, drawn, d)
    ensures Credit(d.event) == Some(name) <==> CountsFor(name, d.event)
  {
    assert "error"[0] != "fatal"[0] && "upload"[0] != "co_sum"[0];
  }

  /** In every run each counter shows the events it stands for. */
  lemma {:induction false} CountersShowTheirEvents(c: Setup, history: seq<Delivery>, name: string)
    requires After(c, history).Some?
    ensures CountOf(history, name) == EventsFor(history, name)
  {
    if history != [] {
      CountersShowTheirEvents(c, history[..|history| - 1], name);
      DeliveriesFit(c, history);
      CreditIsRight(c, After(c, history).value.drawn, history[|history| - 1], name);
    }
  }

  lemma {:induction false} NothingSilent(history: seq<Delivery>)
    requires forall k | 0 <= k < |history| :: var e := history[k].event;
      !OfStream(e) && (e.Reply? || e.Error? ==> !e.op.NoopOneway?)
    ensures Silent(history) == 0 && Items(history) == 0
  {
    if history != [] {
      var front := history[..|history| - 1];
      forall k | 0 <= k < |front| ensures history[k] == front[k] {}
      NothingSilent(front);
    }
  }

  /** Conservation: the counters together show each drawn operation that is no longer outstanding, except streams that
      completed and oneway calls that failed, and each item of a stream. Without oneway calls and streams
      they show exactly the finished operations. */
  lemma CountersAccountForDraws(c: Setup, history: seq<Delivery>)
    requires After(c, history).Some?
    ensures var s := After(c, history).value;
      && SumOfCounts(history, NAMES) + Silent(history) == s.drawn - s.outstanding + Items(history)
      && ((forall i | 0 <= i < s.drawn :: !c.draws(i).NoopOneway? && !c.draws(i).Stream?)
           ==> SumOfCounts(history, NAMES) == s.drawn - s.outstanding)
  {
    var s := After(c, history).value;
    CountersAddUp(history);
    WindowHolds(c, history);
    if forall i | 0 <= i < s.drawn :: !c.draws(i).NoopOneway? && !c.draws(i).Stream? {
      DeliveriesFit(c, history);
      forall k | 0 <= k < |history|
        ensures var e := history[k].event; !OfStream(e) && (e.Reply? || e.Error? ==> !e.op.NoopOneway?)
      {
        assert FitsDraw(c, s.drawn, history[k]);
      }
      NothingSilent(history);
    }
  }
}
