// What the four trace logs say about one query, in every run of the pipeline.
module Spans {
  import opened Board
  import opened Pipeline
  import opened Linearizability
  import opened Wrappers

  /** The times logged for a query, in the order of the log. */
  function Times(log: seq<Entry>, u: nat): seq<nat> {
    if log == [] then []
    else
      var e := log[|log| - 1];
      Times(log[..|log| - 1], u) + if e.query == u then [e.time] else []
  }

  function LogOf(s: State, service: Service): seq<Entry> {
    match service
    case MessageService => s.messageLog
    case Sanitizer => s.sanitizerLog
    case Database => s.databaseLog
  }

  /** A clock value that was read and is about to be logged. */
  function Pending(pc: Pc): seq<nat> {
    if pc.StartRead? || pc.EndRead? then [pc.time] else []
  }

  function ClientPending(pc: ClientPc): seq<nat> {
    if pc.SendRead? || pc.ReplyRead? then [pc.time] else []
  }

  /** The clock values a service has read for a query so far. */
  function Stamps(s: State, service: Service, u: nat): seq<nat>
    requires u < |s.requests|
  {
    Times(LogOf(s, service), u) + Pending(PcOf(s.requests[u], service))
  }

  function ClientStamps(s: State, u: nat): seq<nat>
    requires u < |s.requests|
  {
    Times(s.clientLog, u) + ClientPending(s.requests[u].client)
  }

  /** The stamps of the query, from the outermost span to the innermost, lie inside one another.
      A find has no sanitizer stamps; a rejected send has one, and none of the database. */
  predicate Nested(op: Op, client: seq<nat>, message: seq<nat>, sanitizer: seq<nat>, database: seq<nat>) {
    && Inside(client, message)
    && (if op.Find? then sanitizer == [] && Inside(message, database)
        else Inside(message, sanitizer)
             && if IsRejected(op) then database == [] && |sanitizer| <= 1 else Inside(sanitizer, database))
    && InOrder(client) && InOrder(message) && InOrder(sanitizer) && InOrder(database)
  }

  predicate InOrder(times: seq<nat>) {
    |times| == 2 ==> times[0] <= times[1]
  }

  /** An inner span starts after the outer one did and ends before the outer one does. */
  predicate Inside(outer: seq<nat>, inner: seq<nat>) {
    && |inner| <= 2 && |outer| <= 2
    && (|inner| > 0 ==> |outer| > 0 && outer[0] <= inner[0])
    && (|inner| > 0 && |outer| == 2 ==> inner[|inner| - 1] <= outer[1])
  }

  // ----- the invariant -----

  function Count(pc: Pc): nat {
    if pc.Absent? || pc.Queued? || pc.Entered? then 0 else if pc.EndRead? || pc.Done? then 2 else 1
  }

  function SanitizerCount(r: Request): nat {
    if IsRejected(r.op) && r.sanitizer.Done? then 1 else Count(r.sanitizer)
  }

  function ClientCount(pc: ClientPc): nat {
    if pc.Idle? then 0 else if pc.ReplyRead? || pc.Finished? then 2 else 1
  }

  predicate UpTo(times: seq<nat>, now: nat) {
    forall k | 0 <= k < |times| :: times[k] <= now
  }

  predicate SpanInv(r: Request, now: nat,
                    client: seq<nat>, message: seq<nat>, sanitizer: seq<nat>, database: seq<nat>)
  {
    && |client| == ClientCount(r.client) && |message| == Count(r.message)
    && |sanitizer| == SanitizerCount(r) && |database| == Count(r.database)
    && UpTo(client, now) && UpTo(message, now) && UpTo(sanitizer, now) && UpTo(database, now)
    && Nested(r.op, client, message, sanitizer, database)
  }

  predicate QueryInv(s: State, u: nat)
    requires u < |s.requests|
  {
    SpanInv(s.requests[u], s.now, ClientStamps(s, u),
            Stamps(s, MessageService, u), Stamps(s, Sanitizer, u), Stamps(s, Database, u))
  }

  ghost predicate SpansInv(c: Config, s: State) {
    && RequestsInv(c, s)
    && forall u | 0 <= u < |c.ops| :: QueryInv(s, u)
  }

  lemma TimesAppend(log: seq<Entry>, e: Entry, u: nat)
    ensures Times(log + [e], u) == Times(log, u) + if e.query == u then [e.time] else []
  {
    assert (log + [e])[..|log|] == log;
  }

  /** What one step does to a handler and to its log: it reads the clock, or logs what it
      read, or does neither. */
  predicate LogMove(u: nat, now: nat, pc: Pc, pc': Pc, log: seq<Entry>, log': seq<Entry>) {
    match pc
    case Entered => pc' == StartRead(now) && log' == log
    case StartRead(t) => pc' == Started && log' == log + [Entry(u, t)]
    case Answered(reply) => pc' == EndRead(now, reply) && log' == log
    case EndRead(t, reply) => pc' == Done(reply) && log' == log + [Entry(u, t)]
    case _ => log' == log && Pending(pc') == []
  }

  predicate ReadsClock(pc: Pc) {
    pc.Entered? || pc.Answered?
  }

  lemma HandlerLogMove(c: Config, s: State, service: Service, u: nat)
    requires HandlerReady(c, s, service, u)
    ensures var s' := StepHandler(c, s, service, u);
      && |s'.requests| == |s.requests| && s'.clientLog == s.clientLog && s'.now == s.now
      && LogMove(u, s.now, PcOf(s.requests[u], service), PcOf(s'.requests[u], service),
                 LogOf(s, service), LogOf(s', service))
  {
    match service
    case MessageService =>
    case Sanitizer =>
    case Database =>
  }

  /** The other services log nothing and read no clock, though one of them may be called. */
  lemma HandlerLeavesOthers(c: Config, s: State, service: Service, u: nat, at: Service)
    requires RequestsInv(c, s) && HandlerReady(c, s, service, u) && at != service
    ensures var s' := StepHandler(c, s, service, u);
      && |s'.requests| == |s.requests|
      && LogOf(s', at) == LogOf(s, at)
      && Pending(PcOf(s'.requests[u], at)) == Pending(PcOf(s.requests[u], at))
  {
    assert RequestInv(c.ops[u], s.requests[u]);
  }

  /** Reading the clock adds a stamp; logging what was read keeps the stamps. */
  lemma LogMoveStamps(u: nat, now: nat, pc: Pc, pc': Pc, log: seq<Entry>, log': seq<Entry>)
    requires LogMove(u, now, pc, pc', log, log')
    ensures Times(log', u) + Pending(pc') == Times(log, u) + Pending(pc) + if ReadsClock(pc) then [now] else []
    ensures forall v | v != u :: Times(log', v) == Times(log, v)
  {
    if pc.StartRead? || pc.EndRead? {
      forall v ensures Times(log', v) == Times(log, v) + if v == u then [pc.time] else [] {
        TimesAppend(log, Entry(u, pc.time), v);
      }
    }
  }

  /** A handler step stamps its own service and query on entry and at the end, and nothing else ever. */
  lemma HandlerStamps(c: Config, s: State, service: Service, u: nat, at: Service, v: nat)
    requires RequestsInv(c, s) && HandlerReady(c, s, service, u) && v < |c.ops|
    requires RequestsInv(c, StepHandler(c, s, service, u))
    ensures Stamps(StepHandler(c, s, service, u), at, v)
      == Stamps(s, at, v) + if at == service && v == u && ReadsClock(PcOf(s.requests[u], service)) then [s.now] else []
  {
    var s' := StepHandler(c, s, service, u);
    HandlerStepKeepsRequest(c, s, service, u);
    if at == service {
      HandlerLogMove(c, s, service, u);
      LogMoveStamps(u, s.now, PcOf(s.requests[u], service), PcOf(s'.requests[u], service), LogOf(s, service), LogOf(s', service));
    } else {
      HandlerLeavesOthers(c, s, service, u, at);
    }
  }

  /** The numbers of stamps due are the same. */
  predicate SameDue(r: Request, r': Request) {
    && r'.client == r.client && r'.op == r.op
    && Count(r'.message) == Count(r.message) && SanitizerCount(r') == SanitizerCount(r)
    && Count(r'.database) == Count(r.database)
  }

  lemma MessageStepKeepsCounts(c: Config, s: State, u: nat)
    requires HandlerReady(c, s, MessageService, u) && !ReadsClock(s.requests[u].message)
    requires RequestInv(s.requests[u].op, s.requests[u])
    ensures var s' := StepHandler(c, s, MessageService, u);
      |s'.requests| == |s.requests| && SameDue(s.requests[u], s'.requests[u])
  {
  }

  lemma SanitizerStepKeepsCounts(c: Config, s: State, u: nat)
    requires HandlerReady(c, s, Sanitizer, u) && !ReadsClock(s.requests[u].sanitizer)
    requires RequestInv(s.requests[u].op, s.requests[u])
    ensures var s' := StepHandler(c, s, Sanitizer, u);
      |s'.requests| == |s.requests| && SameDue(s.requests[u], s'.requests[u])
  {
  }

  lemma DatabaseStepKeepsCounts(c: Config, s: State, u: nat)
    requires HandlerReady(c, s, Database, u) && !ReadsClock(s.requests[u].database)
    requires RequestInv(s.requests[u].op, s.requests[u])
    ensures var s' := StepHandler(c, s, Database, u);
      |s'.requests| == |s.requests| && SameDue(s.requests[u], s'.requests[u])
  {
    DatabaseStepMoves(c, s, u);
  }

  /** A step that reads no clock leaves the number of stamps due as it is. */
  lemma OtherStepsKeepCounts(c: Config, s: State, service: Service, u: nat)
    requires HandlerReady(c, s, service, u) && !ReadsClock(PcOf(s.requests[u], service))
    requires RequestInv(s.requests[u].op, s.requests[u])
    ensures var s' := StepHandler(c, s, service, u);
      |s'.requests| == |s.requests| && SameDue(s.requests[u], s'.requests[u])
  {
    match service
    case MessageService => MessageStepKeepsCounts(c, s, u);
    case Sanitizer => SanitizerStepKeepsCounts(c, s, u);
    case Database => DatabaseStepKeepsCounts(c, s, u);
  }

  lemma ClockStepKeepsRest(c: Config, s: State, service: Service, u: nat)
    requires HandlerReady(c, s, service, u) && ReadsClock(PcOf(s.requests[u], service))
    ensures var s' := StepHandler(c, s, service, u);
      && |s'.requests| == |s.requests|
      && var pc := PcOf(s.requests[u], service);
         s'.requests[u] == SetPc(s.requests[u], service,
           if pc.Entered? then StartRead(s.now) else EndRead(s.now, pc.reply))
  {
  }

  /** A clock value read now fits the nesting: everything read before is earlier, and
      the spans inside are complete when a handler has its answer. */
  lemma ClockReadNests(op: Op, r: Request, service: Service, now: nat,
                       client: seq<nat>, message: seq<nat>, sanitizer: seq<nat>, database: seq<nat>)
    requires RequestInv(op, r) && ReadsClock(PcOf(r, service))
    requires SpanInv(r, now, client, message, sanitizer, database)
    ensures var pc := PcOf(r, service);
      SpanInv(SetPc(r, service, if pc.Entered? then StartRead(now) else EndRead(now, pc.reply)), now,
              client, if service == MessageService then message + [now] else message,
              if service == Sanitizer then sanitizer + [now] else sanitizer,
              if service == Database then database + [now] else database)
  {
    match service
    case MessageService =>
    case Sanitizer =>
    case Database =>
  }

  /** Seen from query v, nothing was stamped between s and s'. */
  ghost predicate SameStamps(s: State, s': State, v: nat) {
    && v < |s.requests| == |s'.requests| && s'.now == s.now
    && ClientStamps(s', v) == ClientStamps(s, v)
    && Stamps(s', MessageService, v) == Stamps(s, MessageService, v)
    && Stamps(s', Sanitizer, v) == Stamps(s, Sanitizer, v)
    && Stamps(s', Database, v) == Stamps(s, Database, v)
  }

  predicate SameCounts(r: Request, r': Request) {
    && r'.op == r.op
    && ClientCount(r'.client) == ClientCount(r.client) && Count(r'.message) == Count(r.message)
    && SanitizerCount(r') == SanitizerCount(r) && Count(r'.database) == Count(r.database)
  }

  lemma SameStampsKeepSpan(s: State, s': State, v: nat)
    requires SameStamps(s, s', v) && SameCounts(s.requests[v], s'.requests[v]) && QueryInv(s, v)
    ensures QueryInv(s', v)
  {
  }

  lemma HandlerKeepsClientStamps(c: Config, s: State, service: Service, u: nat, v: nat)
    requires HandlerReady(c, s, service, u) && v < |s.requests|
    ensures var s' := StepHandler(c, s, service, u);
      |s'.requests| == |s.requests| && s'.now == s.now && ClientStamps(s', v) == ClientStamps(s, v)
  {
    HandlerLogMove(c, s, service, u);
    HandlerStepShape(c, s, service, u);
  }

  lemma HandlerSameStamps(c: Config, s: State, service: Service, u: nat, v: nat)
    requires RequestsInv(c, s) && HandlerReady(c, s, service, u) && v < |c.ops|
    requires RequestsInv(c, StepHandler(c, s, service, u))
    requires v == u ==> !ReadsClock(PcOf(s.requests[u], service))
    ensures SameStamps(s, StepHandler(c, s, service, u), v)
  {
    HandlerStamps(c, s, service, u, MessageService, v);
    HandlerStamps(c, s, service, u, Sanitizer, v);
    HandlerStamps(c, s, service, u, Database, v);
    HandlerKeepsClientStamps(c, s, service, u, v);
  }

  lemma ClockStepKeepsSpan(c: Config, s: State, service: Service, u: nat)
    requires SpansInv(c, s) && HandlerReady(c, s, service, u) && ReadsClock(PcOf(s.requests[u], service))
    requires RequestsInv(c, StepHandler(c, s, service, u))
    ensures QueryInv(StepHandler(c, s, service, u), u)
  {
    HandlerStamps(c, s, service, u, MessageService, u);
    HandlerStamps(c, s, service, u, Sanitizer, u);
    HandlerStamps(c, s, service, u, Database, u);
    HandlerKeepsClientStamps(c, s, service, u, u);
    ClockStepKeepsRest(c, s, service, u);
    assert RequestInv(c.ops[u], s.requests[u]);
    assert QueryInv(s, u);
    ClockReadNests(c.ops[u], s.requests[u], service, s.now, ClientStamps(s, u),
                   Stamps(s, MessageService, u), Stamps(s, Sanitizer, u), Stamps(s, Database, u));
  }

  lemma HandlerKeepsSpan(c: Config, s: State, service: Service, u: nat, v: nat)
    requires SpansInv(c, s) && HandlerReady(c, s, service, u) && v < |c.ops|
    requires RequestsInv(c, StepHandler(c, s, service, u))
    ensures QueryInv(StepHandler(c, s, service, u), v)
  {
    if v == u && ReadsClock(PcOf(s.requests[u], service)) {
      ClockStepKeepsSpan(c, s, service, u);
    } else {
      HandlerSameStamps(c, s, service, u, v);
      if v == u {
        assert RequestInv(c.ops[u], s.requests[u]);
        OtherStepsKeepCounts(c, s, service, u);
      } else {
        HandlerStepKeepsRequest(c, s, service, u);
      }
      assert QueryInv(s, v);
      SameStampsKeepSpan(s, StepHandler(c, s, service, u), v);
    }
  }

  predicate ClientReadsClock(pc: ClientPc) {
    pc.Idle? || pc.Replied?
  }

  /** The services log nothing when a client moves, and read no clock, though one of them may be called. */
  lemma ClientLeavesServices(s: State, u: nat, at: Service)
    requires ClientReady(s, u) && (Unsent(s.requests[u].client) ==> s.requests[u].message.Absent?)
    ensures var s' := StepClient(s, u);
      && |s'.requests| == |s.requests| && LogOf(s', at) == LogOf(s, at)
      && Pending(PcOf(s'.requests[u], at)) == Pending(PcOf(s.requests[u], at))
  {
  }

  lemma ClientMovesOneRequest(s: State, u: nat, v: nat)
    requires ClientReady(s, u) && v < |s.requests| && v != u
    ensures var s' := StepClient(s, u);
      |s'.requests| == |s.requests| && s'.requests[v] == s.requests[v]
  {
  }

  lemma ClientStepStamps(c: Config, s: State, u: nat, at: Service, v: nat)
    requires RequestsInv(c, s) && ClientReady(s, u) && v < |c.ops|
    ensures var s' := StepClient(s, u); |s'.requests| == |c.ops| && Stamps(s', at, v) == Stamps(s, at, v)
  {
    assert RequestInv(c.ops[u], s.requests[u]);
    ClientLeavesServices(s, u, at);
    if v != u { ClientMovesOneRequest(s, u, v); }
  }

  lemma ClientStepOwnStamps(c: Config, s: State, u: nat, v: nat)
    requires RequestsInv(c, s) && ClientReady(s, u) && v < |c.ops|
    ensures var s' := StepClient(s, u);
      && |s'.requests| == |c.ops| && s'.now == s.now
      && ClientStamps(s', v)
        == ClientStamps(s, v) + if v == u && ClientReadsClock(s.requests[u].client) then [s.now] else []
  {
    var pc := s.requests[u].client;
    if pc.SendRead? || pc.ReplyRead? { TimesAppend(s.clientLog, Entry(u, pc.time), v); }
  }

  lemma ClientStepCounts(c: Config, s: State, u: nat)
    requires RequestsInv(c, s) && ClientReady(s, u)
    ensures var s' := StepClient(s, u);
      && |s'.requests| == |c.ops|
      && if ClientReadsClock(s.requests[u].client)
         then SameCounts(s.requests[u].(client := s'.requests[u].client), s'.requests[u])
              && ClientCount(s'.requests[u].client) == ClientCount(s.requests[u].client) + 1
         else SameCounts(s.requests[u], s'.requests[u])
  {
    assert RequestInv(c.ops[u], s.requests[u]);
  }

  lemma ClientSameStamps(c: Config, s: State, u: nat, v: nat)
    requires RequestsInv(c, s) && ClientReady(s, u) && v < |c.ops|
    requires v == u ==> !ClientReadsClock(s.requests[u].client)
    ensures SameStamps(s, StepClient(s, u), v)
  {
    ClientStepStamps(c, s, u, MessageService, v);
    ClientStepStamps(c, s, u, Sanitizer, v);
    ClientStepStamps(c, s, u, Database, v);
    ClientStepOwnStamps(c, s, u, v);
  }

  lemma ClientClockStepKeepsSpan(c: Config, s: State, u: nat)
    requires SpansInv(c, s) && ClientReady(s, u) && ClientReadsClock(s.requests[u].client)
    ensures u < |StepClient(s, u).requests| && QueryInv(StepClient(s, u), u)
  {
    ClientStepStamps(c, s, u, MessageService, u);
    ClientStepStamps(c, s, u, Sanitizer, u);
    ClientStepStamps(c, s, u, Database, u);
    ClientStepOwnStamps(c, s, u, u);
    ClientStepCounts(c, s, u);
    assert QueryInv(s, u) && RequestInv(c.ops[u], s.requests[u]);
    ClientClockReadNests(c.ops[u], s.requests[u], s.now, ClientStamps(s, u),
                         Stamps(s, MessageService, u), Stamps(s, Sanitizer, u), Stamps(s, Database, u));
  }

  lemma ClientKeepsSpan(c: Config, s: State, u: nat, v: nat)
    requires SpansInv(c, s) && ClientReady(s, u) && v < |c.ops| && RequestsInv(c, StepClient(s, u))
    ensures QueryInv(StepClient(s, u), v)
  {
    if v == u && ClientReadsClock(s.requests[u].client) {
      ClientClockStepKeepsSpan(c, s, u);
    } else {
      ClientSameStamps(c, s, u, v);
      if v == u { ClientStepCounts(c, s, u); } else { ClientMovesOneRequest(s, u, v); }
      assert QueryInv(s, v);
      SameStampsKeepSpan(s, StepClient(s, u), v);
    }
  }

  lemma ClientClockReadNests(op: Op, r: Request, now: nat,
                             client: seq<nat>, message: seq<nat>, sanitizer: seq<nat>, database: seq<nat>)
    requires RequestInv(op, r) && ClientReadsClock(r.client)
    requires SpanInv(r, now, client, message, sanitizer, database)
    ensures Nested(op, client + [now], message, sanitizer, database) && UpTo(client + [now], now)
  {
  }

  lemma SpanLater(r: Request, now: nat, elapsed: nat,
                  client: seq<nat>, message: seq<nat>, sanitizer: seq<nat>, database: seq<nat>)
    requires SpanInv(r, now, client, message, sanitizer, database)
    ensures SpanInv(r, now + elapsed, client, message, sanitizer, database)
  {
  }

  lemma TickKeepsSpan(s: State, elapsed: nat, v: nat)
    requires v < |s.requests| && QueryInv(s, v)
    ensures QueryInv(s.(now := s.now + elapsed), v)
  {
    SpanLater(s.requests[v], s.now, elapsed, ClientStamps(s, v),
              Stamps(s, MessageService, v), Stamps(s, Sanitizer, v), Stamps(s, Database, v));
  }

  lemma StepKeepsSpans(c: Config, s: State, a: Action)
    requires SpansInv(c, s) && Ready(c, s, a)
    ensures SpansInv(c, Next(c, s, a))
  {
    StepMovesOneRequest(c, s, a);
    var s' := Next(c, s, a);
    match a
    case Tick(elapsed) =>
      forall v | 0 <= v < |c.ops| ensures QueryInv(s', v) { TickKeepsSpan(s, elapsed, v); }
    case ClientStep(u) =>
      forall v | 0 <= v < |c.ops| ensures QueryInv(s', v) { ClientKeepsSpan(c, s, u, v); }
    case HandlerStep(service, u) =>
      forall v | 0 <= v < |c.ops| ensures QueryInv(s', v) { HandlerKeepsSpan(c, s, service, u, v); }
  }

  lemma {:induction false} ReachableSpans(c: Config, actions: seq<Action>)
    requires Run(c, actions).Some?
    ensures SpansInv(c, Run(c, actions).value)
  {
    if actions != [] {
      var before := actions[..|actions| - 1];
      ReachableSpans(c, before);
      StepKeepsSpans(c, Run(c, before).value, actions[|actions| - 1]);
    }
  }

  // ----- the stamps are true clock values -----

  /** The time that passes in a run. */
  function Passed(actions: seq<Action>): nat {
    if actions == [] then 0
    else
      var a := actions[|actions| - 1];
      Passed(actions[..|actions| - 1]) + if a.Tick? then a.elapsed else 0
  }

  /** The clock says how much time has passed: nothing else moves it. */
  lemma {:induction false} ClockCountsTicks(c: Config, actions: seq<Action>)
    requires Run(c, actions).Some?
    ensures Run(c, actions).value.now == Passed(actions)
  {
    if actions != [] { ClockCountsTicks(c, actions[..|actions| - 1]); }
  }

  predicate From(times: seq<nat>, since: nat) {
    forall k | 0 <= k < |times| :: since <= times[k]
  }

  /** Everything stamped for query u so far was stamped at this time or later. */
  predicate StampedSince(s: State, u: nat, since: nat) {
    && u < |s.requests| && since <= s.now && From(ClientStamps(s, u), since)
    && From(Stamps(s, MessageService, u), since) && From(Stamps(s, Sanitizer, u), since)
    && From(Stamps(s, Database, u), since)
  }

  /** The stamps are those of before, but for the clock's value now. */
  predicate AddsNow(times: seq<nat>, times': seq<nat>, now: nat) {
    times' == times || times' == times + [now]
  }

  lemma AddsNowKeepsFrom(times: seq<nat>, times': seq<nat>, now: nat, since: nat)
    requires AddsNow(times, times', now) && From(times, since) && since <= now
    ensures From(times', since)
  {
  }

  lemma ClientAddsNow(c: Config, s: State, v: nat, u: nat)
    requires RequestsInv(c, s) && ClientReady(s, v) && u < |c.ops|
    ensures var s' := StepClient(s, v);
      && |s'.requests| == |c.ops| && s'.now == s.now
      && AddsNow(ClientStamps(s, u), ClientStamps(s', u), s.now)
      && forall at :: Stamps(s', at, u) == Stamps(s, at, u)
  {
    ClientStepOwnStamps(c, s, v, u);
    forall at ensures Stamps(StepClient(s, v), at, u) == Stamps(s, at, u) { ClientStepStamps(c, s, v, at, u); }
  }

  lemma HandlerAddsNow(c: Config, s: State, service: Service, v: nat, u: nat)
    requires RequestsInv(c, s) && HandlerReady(c, s, service, v) && u < |c.ops|
    requires RequestsInv(c, StepHandler(c, s, service, v))
    ensures var s' := StepHandler(c, s, service, v);
      && s'.now == s.now && ClientStamps(s', u) == ClientStamps(s, u)
      && forall at :: AddsNow(Stamps(s, at, u), Stamps(s', at, u), s.now)
  {
    HandlerKeepsClientStamps(c, s, service, v, u);
    forall at ensures AddsNow(Stamps(s, at, u), Stamps(StepHandler(c, s, service, v), at, u), s.now) {
      HandlerStamps(c, s, service, v, at, u);
    }
  }

  lemma StepKeepsSince(c: Config, s: State, a: Action, u: nat, since: nat)
    requires RequestsInv(c, s) && Ready(c, s, a) && RequestsInv(c, Next(c, s, a)) && u < |c.ops|
    requires StampedSince(s, u, since)
    ensures StampedSince(Next(c, s, a), u, since)
  {
    var s' := Next(c, s, a);
    match a
    case Tick(_) =>
    case ClientStep(v) =>
      ClientAddsNow(c, s, v, u);
      AddsNowKeepsFrom(ClientStamps(s, u), ClientStamps(s', u), s.now, since);
    case HandlerStep(service, v) =>
      HandlerAddsNow(c, s, service, v, u);
      AddsNowKeepsFrom(Stamps(s, MessageService, u), Stamps(s', MessageService, u), s.now, since);
      AddsNowKeepsFrom(Stamps(s, Sanitizer, u), Stamps(s', Sanitizer, u), s.now, since);
      AddsNowKeepsFrom(Stamps(s, Database, u), Stamps(s', Database, u), s.now, since);
  }

  lemma NothingStampedYet(c: Config, s: State, u: nat)
    requires SpansInv(c, s) && u < |c.ops| && s.requests[u].client.Idle?
    ensures StampedSince(s, u, s.now)
  {
    assert RequestInv(c.ops[u], s.requests[u]);
    assert QueryInv(s, u);
  }

  lemma {:induction false} RunKeepsSince(c: Config, before: seq<Action>, actions: seq<Action>, u: nat)
    requires before <= actions && Run(c, before).Some? && Run(c, actions).Some? && u < |c.ops|
    requires |Run(c, before).value.requests| == |c.ops| && Run(c, before).value.requests[u].client.Idle?
    ensures StampedSince(Run(c, actions).value, u, Run(c, before).value.now)
    decreases |actions|
  {
    if actions == before {
      ReachableSpans(c, before);
      NothingStampedYet(c, Run(c, before).value, u);
    } else {
      var front, a := actions[..|actions| - 1], actions[|actions| - 1];
      assert before <= front;
      RunKeepsSince(c, before, front, u);
      ReachableSpans(c, front);
      ReachableSpans(c, actions);
      StepKeepsSince(c, Run(c, front).value, a, u, Run(c, before).value.now);
    }
  }

  /** The times logged for a query are clock values between the last moment at which the client had not
      begun it and now. */
  lemma LoggedTimesAreTrue(c: Config, before: seq<Action>, actions: seq<Action>, u: nat)
    requires before <= actions && Run(c, before).Some? && Run(c, actions).Some? && u < |c.ops|
    requires |Run(c, before).value.requests| == |c.ops| && Run(c, before).value.requests[u].client.Idle?
    ensures var from, s := Run(c, before).value.now, Run(c, actions).value;
      && (forall time | time in Times(s.clientLog, u) :: from <= time <= s.now)
      && (forall time | time in Times(s.messageLog, u) :: from <= time <= s.now)
      && (forall time | time in Times(s.sanitizerLog, u) :: from <= time <= s.now)
      && (forall time | time in Times(s.databaseLog, u) :: from <= time <= s.now)
  {
    RunKeepsSince(c, before, actions, u);
    ReachableSpans(c, actions);
    LoggedIsStamped(c, Run(c, actions).value, u, Run(c, before).value.now);
  }

  lemma LoggedIsStamped(c: Config, s: State, u: nat, from: nat)
    requires SpansInv(c, s) && u < |c.ops| && StampedSince(s, u, from)
    ensures forall time | time in Times(s.clientLog, u) :: from <= time <= s.now
    ensures forall time | time in Times(s.messageLog, u) :: from <= time <= s.now
    ensures forall time | time in Times(s.sanitizerLog, u) :: from <= time <= s.now
    ensures forall time | time in Times(s.databaseLog, u) :: from <= time <= s.now
  {
    assert QueryInv(s, u);
    LoggedAreStamps(Times(s.clientLog, u), ClientPending(s.requests[u].client), from, s.now);
    LoggedAreStamps(Times(s.messageLog, u), Pending(s.requests[u].message), from, s.now);
    LoggedAreStamps(Times(s.sanitizerLog, u), Pending(s.requests[u].sanitizer), from, s.now);
    LoggedAreStamps(Times(s.databaseLog, u), Pending(s.requests[u].database), from, s.now);
  }

  lemma LoggedAreStamps(times: seq<nat>, pending: seq<nat>, from: nat, to: nat)
    requires From(times + pending, from) && UpTo(times + pending, to)
    ensures forall time | time in times :: from <= time <= to
  {
    assert forall k | 0 <= k < |times| :: (times + pending)[k] == times[k];
  }

  /** Main result: in every run, the times in the four logs of every query are nested. Once the
      query is finished the client and the message service have logged it twice, an accepted send and
      its database access twice each, a find nothing in the sanitizer, and a rejected send
      one sanitizer entry and no database entry. */
  lemma LoggedSpansAreNested(c: Config, actions: seq<Action>, u: nat)
    requires Run(c, actions).Some? && u < |c.ops|
    ensures var s := Run(c, actions).value;
      Nested(c.ops[u], Times(s.clientLog, u), Times(s.messageLog, u), Times(s.sanitizerLog, u), Times(s.databaseLog, u))
    ensures var s := Run(c, actions).value;
      |s.requests| == |c.ops| && (s.requests[u].client.Finished? ==>
        && |Times(s.clientLog, u)| == |Times(s.messageLog, u)| == 2
        && |Times(s.sanitizerLog, u)| == (if c.ops[u].Find? then 0 else if IsRejected(c.ops[u]) then 1 else 2)
        && |Times(s.databaseLog, u)| == (if IsRejected(c.ops[u]) then 0 else 2))
  {
    ReachableSpans(c, actions);
    var s := Run(c, actions).value;
    LoggedIsNested(c, s, u);
    if s.requests[u].client.Finished? { FinishedHasLogged(c, s, u); }
  }

  lemma LoggedIsNested(c: Config, s: State, u: nat)
    requires SpansInv(c, s) && u < |c.ops|
    ensures Nested(c.ops[u], Times(s.clientLog, u), Times(s.messageLog, u), Times(s.sanitizerLog, u), Times(s.databaseLog, u))
  {
    assert RequestInv(c.ops[u], s.requests[u]);
    assert QueryInv(s, u);
    NestedPrefix(c.ops[u], s.requests[u], s.now, Times(s.clientLog, u), Times(s.messageLog, u),
                 Times(s.sanitizerLog, u), Times(s.databaseLog, u));
  }

  lemma FinishedHasLogged(c: Config, s: State, u: nat)
    requires SpansInv(c, s) && u < |c.ops| && s.requests[u].client.Finished?
    ensures |Times(s.clientLog, u)| == |Times(s.messageLog, u)| == 2
    ensures |Times(s.sanitizerLog, u)| == (if c.ops[u].Find? then 0 else if IsRejected(c.ops[u]) then 1 else 2)
    ensures |Times(s.databaseLog, u)| == (if IsRejected(c.ops[u]) then 0 else 2)
  {
    assert RequestInv(c.ops[u], s.requests[u]);
    assert QueryInv(s, u);
  }

  /** Dropping the stamps that are read but not yet logged. */
  lemma NestedPrefix(op: Op, r: Request, now: nat, client: seq<nat>, message: seq<nat>, sanitizer: seq<nat>, database: seq<nat>)
    requires RequestInv(op, r)
    requires SpanInv(r, now, client + ClientPending(r.client), message + Pending(r.message),
                     sanitizer + Pending(r.sanitizer), database + Pending(r.database))
    ensures Nested(op, client, message, sanitizer, database)
  {
    LoggedOutsideIn(op, r, |client|, |message|, |sanitizer|, |database|);
    InsidePrefix(client, ClientPending(r.client), message, Pending(r.message));
    if op.Find? {
      InsidePrefix(message, Pending(r.message), database, Pending(r.database));
    } else {
      InsidePrefix(message, Pending(r.message), sanitizer, Pending(r.sanitizer));
      if !IsRejected(op) { InsidePrefix(sanitizer, Pending(r.sanitizer), database, Pending(r.database)); }
    }
  }

  /** What has logged anything was called by something that has. */
  lemma LoggedOutsideIn(op: Op, r: Request, client: nat, message: nat, sanitizer: nat, database: nat)
    requires RequestInv(op, r)
    requires client + |ClientPending(r.client)| == ClientCount(r.client) && message + |Pending(r.message)| == Count(r.message)
    requires sanitizer + |Pending(r.sanitizer)| == SanitizerCount(r) && database + |Pending(r.database)| == Count(r.database)
    ensures message > 0 ==> client > 0
    ensures if op.Find? then database > 0 ==> message > 0
      else (sanitizer > 0 ==> message > 0) && (!IsRejected(op) && database > 0 ==> sanitizer > 0)
  {
  }

  lemma InsidePrefix(outer: seq<nat>, outerPending: seq<nat>, inner: seq<nat>, innerPending: seq<nat>)
    requires Inside(outer + outerPending, inner + innerPending)
    requires InOrder(outer + outerPending) && InOrder(inner + innerPending)
    requires |inner| > 0 ==> |outer| > 0
    ensures Inside(outer, inner) && InOrder(outer) && InOrder(inner)
  {
    var o, i := outer + outerPending, inner + innerPending;
    assert forall k | 0 <= k < |outer| :: o[k] == outer[k];
    assert forall k | 0 <= k < |inner| :: i[k] == inner[k];
  }
}
