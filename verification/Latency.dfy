// How long a request takes through a chain of services when nobody has to queue, in the
// two forms of the handlers: the call overlapping the fake task, or before it.
module Latency {
  import opened Arithmetic

  /** A handler: its fake task, and the handler it calls, or a refusal before either. */
  datatype Handler =
    | Leaf(waiting: nat)                     // the database: sleep, then answer
    | Caller(waiting: nat, callee: Handler)  // call below and sleep
    | Refuses                                // the sanitizer, for a message it rejects

  /** The statements of a handler that take time. */
  datatype Command = Issue | Sleep(duration: nat) | Await

  function Program(h: Handler, sync: bool): seq<Command> {
    match h
    case Refuses => []
    case Leaf(w) => [Sleep(w)]
    case Caller(w, _) => if sync then [Issue, Await, Sleep(w)] else [Issue, Sleep(w), Await]
  }

  /** The clock when a handler that starts at a given time returns. */
  function Returns(h: Handler, sync: bool, start: nat): nat
    decreases h, 4
  {
    Execute(h, sync, Program(h, sync), start, start)
  }

  /** The clock after the commands, begun at now; answered is when the outstanding call's answer comes. */
  function Execute(h: Handler, sync: bool, commands: seq<Command>, now: nat, answered: nat): nat
    decreases h, |commands|
  {
    if commands == [] then now
    else match commands[0]
      case Issue =>
        var answer := if h.Caller? then Returns(h.callee, sync, now) else now;
        Execute(h, sync, commands[1..], now, answer)
      case Sleep(duration) => Execute(h, sync, commands[1..], now + duration, answered)
      case Await => Execute(h, sync, commands[1..], if now < answered then answered else now, answered)
  }

  function Longest(h: Handler): nat {
    match h
    case Refuses => 0
    case Leaf(w) => w
    case Caller(w, callee) => if w < Longest(callee) then Longest(callee) else w
  }

  function Total(h: Handler): nat {
    match h
    case Refuses => 0
    case Leaf(w) => w
    case Caller(w, callee) => w + Total(callee)
  }

  function Services(h: Handler): nat {
    match h
    case Refuses => 0
    case Leaf(_) => 1
    case Caller(_, callee) => 1 + Services(callee)
  }

  lemma SleepAlone(h: Handler, sync: bool, start: nat)
    requires h.Leaf?
    ensures Returns(h, sync, start) == start + h.waiting
  {
    var p := Program(h, sync);
    assert p[1..] == [];
    assert Execute(h, sync, p, start, start) == Execute(h, sync, [], start + h.waiting, start);
  }

  /** Overlapping calls take as long as the slowest service of the chain. */
  lemma {:induction false} AsyncTakesLongest(h: Handler, start: nat)
    ensures Returns(h, false, start) == start + Longest(h)
  {
    if h.Caller? {
      AsyncTakesLongest(h.callee, start);
      var p := Program(h, false);
      var answer := start + Longest(h.callee);
      assert p[1..] == [Sleep(h.waiting), Await] && p[1..][1..] == [Await] && [Await][1..] == [];
      assert Execute(h, false, p, start, start) == Execute(h, false, p[1..], start, answer);
      assert Execute(h, false, p[1..], start, answer) == Execute(h, false, [Await], start + h.waiting, answer);
    } else if h.Leaf? {
      SleepAlone(h, false, start);
    }
  }

  /** Blocking calls take as long as all services of the chain together. */
  lemma {:induction false} SyncTakesTotal(h: Handler, start: nat)
    ensures Returns(h, true, start) == start + Total(h)
  {
    if h.Caller? {
      SyncTakesTotal(h.callee, start);
      var p := Program(h, true);
      var answer := start + Total(h.callee);
      assert p[1..] == [Await, Sleep(h.waiting)] && p[1..][1..] == [Sleep(h.waiting)] && [Sleep(h.waiting)][1..] == [];
      assert Execute(h, true, p, start, start) == Execute(h, true, p[1..], start, answer);
      assert Execute(h, true, p[1..], start, answer) == Execute(h, true, [Sleep(h.waiting)], answer, answer);
      assert Execute(h, true, [Sleep(h.waiting)], answer, answer) == Execute(h, true, [], answer + h.waiting, answer);
    } else if h.Leaf? {
      SleepAlone(h, true, start);
    }
  }

  lemma OneMoreService(n: nat, inner: nat, outer: nat, waiting: nat, total: nat)
    requires total <= n * inner && inner <= outer && waiting <= outer
    ensures waiting + total <= (1 + n) * outer
  {
    Scale(inner, outer, n);
    assert (1 + n) * outer == outer + outer * n;
  }

  lemma {:induction false} TotalIsAtMostServicesTimesLongest(h: Handler)
    ensures Longest(h) <= Total(h) <= Services(h) * Longest(h)
  {
    if h.Caller? {
      TotalIsAtMostServicesTimesLongest(h.callee);
      OneMoreService(Services(h.callee), Longest(h.callee), Longest(h), h.waiting, Total(h.callee));
    }
  }

  /** For any chain, the overlapping form is never slower, and at best as many times faster as there are services. */
  lemma AsyncAgainstSync(h: Handler, start: nat)
    ensures Returns(h, false, start) <= Returns(h, true, start)
    ensures Returns(h, true, start) - start <= Services(h) * (Returns(h, false, start) - start)
  {
    AsyncTakesLongest(h, start);
    SyncTakesTotal(h, start);
    TotalIsAtMostServicesTimesLongest(h);
  }

  function Max(a: nat, b: nat): nat {
    if a < b then b else a
  }

  /** The message board: an accepted send, a find, and a rejected send. */
  lemma MessageBoardLatencies(message: nat, sanitizer: nat, database: nat)
    ensures var send := Caller(message, Caller(sanitizer, Leaf(database)));
      && Returns(send, false, 0) == Max(message, Max(sanitizer, database))
      && Returns(send, true, 0) == message + sanitizer + database
      && Returns(send, false, 0) <= Returns(send, true, 0) <= 3 * Returns(send, false, 0)
    ensures var find := Caller(message, Leaf(database));
      && Returns(find, false, 0) == Max(message, database)
      && Returns(find, true, 0) == message + database
    ensures var rejected := Caller(message, Refuses);
      Returns(rejected, false, 0) == Returns(rejected, true, 0) == message
  {
    var send, find, rejected :=
      Caller(message, Caller(sanitizer, Leaf(database))), Caller(message, Leaf(database)), Caller(message, Refuses);
    AsyncTakesLongest(send, 0);
    AsyncTakesLongest(find, 0);
    AsyncTakesLongest(rejected, 0);
    SyncTakesTotal(send, 0);
    SyncTakesTotal(find, 0);
    SyncTakesTotal(rejected, 0);
    AsyncAgainstSync(send, 0);
    assert Services(Caller(sanitizer, Leaf(database))) == 2;
  }
}
