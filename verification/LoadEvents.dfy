// What the load generator counts: for every event the one counter it adds to, and
// what the counters add up to over any list of events.
module LoadEvents {
  import opened Wrappers

  datatype OpType = Noop | NoopOneway | Sum | Timeout | Download | Upload | Stream | SemifutureSum | CoSum

  /** What decoding a reply, or a future, comes to. */
  datatype Answer = Good | TimedOut | OtherApplicationError | StandardError

  /** The events the event loop delivers. FutureReady stands for the continuation of a future
      or coroutine together with the callback it then makes. */
  datatype Event =
    | OnewaySent
    | Reply(op: OpType, answer: Answer)
    | Error(op: OpType)
    | FutureReady(op: OpType, answer: Answer)
    | StreamItem
    | StreamFailed
    | StreamCompleted

  /** An event, and the operation it is for: operations are numbered in the order they were drawn. */
  datatype Delivery = Delivery(draw: nat, event: Event)

  predicate IsFuture(op: OpType) {
    op.SemifutureSum? || op.CoSum?
  }

  /** Operations left out of a build without STREAM_PERF_TEST. */
  predicate NeedsStreamBuild(op: OpType) {
    op.Download? || op.Upload? || op.Stream?
  }

  function OpName(op: OpType): string {
    match op
    case Noop => "noop"
    case NoopOneway => "noop"
    case Sum => "sum"
    case Timeout => "timeout_success"
    case Download => "download"
    case Upload => "upload"
    case Stream => "s_download"
    case SemifutureSum => "semifuture_sum"
    case CoSum => "co_sum"
  }

  function OutcomeName(op: OpType, answer: Answer): string {
    match answer
    case Good => OpName(op)
    case TimedOut => "timeout"
    case OtherApplicationError => "error"
    case StandardError => "fatal"
  }

  /** Every name that is ever counted. */
  const NAMES: seq<string> := ["noop", "sum", "timeout_success", "download", "upload", "s_download",
                               "semifuture_sum", "co_sum", "timeout", "error", "fatal"]

  /** The counter an event adds one to, if any. */
  function Credit(e: Event): Option<string> {
    match e
    case OnewaySent => Some("noop")
    case Reply(op, answer) => if op.NoopOneway? then None else Some(OutcomeName(op, answer))
    case Error(op) => if op.NoopOneway? then None else Some("error")
    case FutureReady(op, answer) => Some(OutcomeName(op, answer))
    case StreamItem => Some("s_download")
    case StreamFailed => Some("fatal")
    case StreamCompleted => None
  }

  /** Which events a counter stands for, name by name. */
  predicate CountsFor(name: string, e: Event) {
    if name == "noop" then e == Reply(Noop, Good) || e == OnewaySent
    else if name == "sum" then e == Reply(Sum, Good)
    else if name == "timeout_success" then e == Reply(Timeout, Good)
    else if name == "download" then e == Reply(Download, Good)
    else if name == "upload" then e == Reply(Upload, Good)
    else if name == "s_download" then e == StreamItem
    else if name == "semifuture_sum" then e == FutureReady(SemifutureSum, Good)
    else if name == "co_sum" then e == FutureReady(CoSum, Good)
    else if name == "timeout" then Decoded(e) && e.answer == TimedOut
    else if name == "error" then (Decoded(e) && e.answer == OtherApplicationError) || (e.Error? && e.op != NoopOneway)
    else if name == "fatal" then (Decoded(e) && e.answer == StandardError) || e == StreamFailed
    else false
  }

  /** A reply or a future was decoded to an answer; oneway calls get none. */
  predicate Decoded(e: Event) {
    (e.Reply? && e.op != NoopOneway) || e.FutureReady?
  }

  function EventsFor(history: seq<Delivery>, name: string): nat {
    if history == [] then 0
    else EventsFor(history[..|history| - 1], name) + if CountsFor(name, history[|history| - 1].event) then 1 else 0
  }

  lemma EventsForAppend(history: seq<Delivery>, d: Delivery, name: string)
    ensures EventsFor(history + [d], name) == EventsFor(history, name) + if CountsFor(name, d.event) then 1 else 0
  {
    assert (history + [d])[..|history|] == history;
  }

  predicate OfStream(e: Event) {
    e.StreamItem? || e.StreamFailed? || e.StreamCompleted?
  }

  function CountOf(history: seq<Delivery>, name: string): nat {
    if history == [] then 0
    else CountOf(history[..|history| - 1], name) + if Credit(history[|history| - 1].event) == Some(name) then 1 else 0
  }

  lemma CountAppend(history: seq<Delivery>, d: Delivery)
    ensures forall n :: CountOf(history + [d], n) == CountOf(history, n) + if Credit(d.event) == Some(n) then 1 else 0
  {
    assert (history + [d])[..|history|] == history;
  }

  /** The events that end an operation; a stream's items do not. */
  function Ends(history: seq<Delivery>): nat {
    if history == [] then 0
    else Ends(history[..|history| - 1]) + if history[|history| - 1].event.StreamItem? then 0 else 1
  }

  function Items(history: seq<Delivery>): nat {
    if history == [] then 0
    else Items(history[..|history| - 1]) + if history[|history| - 1].event.StreamItem? then 1 else 0
  }

  /** Ends that no counter shows: of a stream that completed, and of a oneway call that was not sent. */
  function Silent(history: seq<Delivery>): nat {
    if history == [] then 0
    else
      var e := history[|history| - 1].event;
      Silent(history[..|history| - 1])
      + if e.StreamCompleted? || ((e.Reply? || e.Error?) && e.op.NoopOneway?) then 1 else 0
  }

  /** The counters, added up. */
  function SumOfCounts(history: seq<Delivery>, names: seq<string>): nat {
    if names == [] then 0 else SumOfCounts(history, names[..|names| - 1]) + CountOf(history, names[|names| - 1])
  }

  predicate DistinctNames(names: seq<string>) {
    forall i, j | 0 <= i < j < |names| :: names[i] != names[j]
  }

  lemma {:induction false} OneMoreEvent(history: seq<Delivery>, d: Delivery, names: seq<string>)
    requires DistinctNames(names)
    ensures SumOfCounts(history + [d], names)
      == SumOfCounts(history, names) + if Credit(d.event).Some? && Credit(d.event).value in names then 1 else 0
  {
    if names != [] {
      var front := names[..|names| - 1];
      OneMoreEvent(history, d, front);
      assert (history + [d])[..|history|] == history;
    }
  }

  lemma CreditIsNamed(e: Event)
    ensures Credit(e).Some? ==> Credit(e).value in NAMES
  {
  }

  lemma NamesAreDistinct()
    ensures DistinctNames(NAMES)
  {
  }

  /** Over any events the counters together show each end once, but for the silent ones, and each item of a stream. */
  lemma {:induction false} CountersAddUp(history: seq<Delivery>)
    ensures SumOfCounts(history, NAMES) + Silent(history) == Ends(history) + Items(history)
  {
    NamesAreDistinct();
    if history == [] {
      NothingCounted(NAMES);
    } else {
      var front, d := history[..|history| - 1], history[|history| - 1];
      CountersAddUp(front);
      CreditIsNamed(d.event);
      OneMoreEvent(front, d, NAMES);
      assert front + [d] == history;
    }
  }

  lemma {:induction false} NothingCounted(names: seq<string>)
    ensures SumOfCounts([], names) == 0
  {
    if names != [] { NothingCounted(names[..|names| - 1]); }
  }
}
