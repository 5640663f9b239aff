// Every interleaving of the pipeline behaves like the plain board of module Board.
module Linearizability {
  import opened Board
  import opened Pipeline
  import opened Wrappers
  import Filter

  // ----- what linearizability means, for any history -----

  predicate Precedes(order: seq<nat>, a: nat, b: nat) {
    exists p, q | 0 <= p < q < |order| :: order[p] == a && order[q] == b
  }

  predicate Distinct(order: seq<nat>) {
    forall i, j | 0 <= i < j < |order| :: order[i] != order[j]
  }

  /** Each query is invoked once, answered at most once, and answered only after it was invoked. */
  ghost predicate WellFormed(ops: seq<Op>, history: seq<Event>) {
    && (forall k | 0 <= k < |history| :: history[k].query < |ops|)
    && (forall i, j | 0 <= i < j < |history| :: history[i].query == history[j].query ==>
         history[i].Invoke? && history[j].Respond?)
    && InvokedFirst(history)
  }

  ghost predicate InvokedFirst(history: seq<Event>) {
    forall j | 0 <= j < |history| && history[j].Respond? :: InvokedBefore(history, j)
  }

  ghost predicate InvokedBefore(history: seq<Event>, j: nat)
    requires j < |history|
  {
    exists i | 0 <= i < j :: history[i] == Invoke(history[j].query)
  }

  /** order explains history: it is a sequential execution of invoked queries, among them all
      answered ones, that gives the same answers and respects real time. */
  ghost predicate Explains(ops: seq<Op>, order: seq<nat>, history: seq<Event>) {
    && Names(order, ops)
    && Distinct(order)
    && (forall u | u in order :: Invoke(u) in history)
    && (forall e | e in history && e.Respond? :: e.query in order && ReplyIn(ops, order, e.query) == e.reply)
    && RealTime(order, history)
  }

  /** A query invoked after another was answered takes effect after it. */
  ghost predicate RealTime(order: seq<nat>, history: seq<Event>) {
    forall i, j | 0 <= i < j < |history| ::
      history[i].Respond? && history[j].Invoke? && history[j].query in order ==>
        Precedes(order, history[i].query, history[j].query)
  }

  ghost predicate Linearizable(ops: seq<Op>, history: seq<Event>) {
    WellFormed(ops, history) && exists order :: Explains(ops, order, history)
  }

  // ----- invariants of one request -----

  predicate NotCalled(pc: Pc) {
    pc.Absent? || pc.Queued? || pc.Entered? || pc.StartRead? || pc.Started?
  }

  predicate HasReply(pc: Pc) {
    pc.Got? || pc.Answered? || pc.EndRead? || pc.Done?
  }

  /** A caller and its callee: called means started below, an answer means finished below. */
  predicate Joined(up: Pc, down: Pc) {
    && (NotCalled(up) <==> down.Absent?)
    && (HasReply(up) ==> down == Done(up.reply))
  }

  predicate Unsent(pc: ClientPc) {
    pc.Idle? || pc.SendRead? || pc.Logged?
  }

  predicate HasAnswer(pc: ClientPc) {
    pc.Replied? || pc.ReplyRead? || pc.Finished?
  }

  predicate IsRejected(op: Op) {
    op.Send? && Filter.RegexMatch(op.message)
  }

  predicate RequestInv(op: Op, r: Request) {
    && r.op == op
    && (Unsent(r.client) <==> r.message.Absent?)
    && (HasAnswer(r.client) ==> r.message == Done(r.client.reply))
    && !r.database.Called? && !r.database.Got? && !r.message.Found? && !r.sanitizer.Found?
    && (r.database.Found? ==> op.Find?)
    && (if op.Find? then r.sanitizer.Absent? && Joined(r.message, r.database)
        else
          && Joined(r.message, r.sanitizer)
          && if IsRejected(op) then r.database.Absent? && (NotCalled(r.sanitizer) || r.sanitizer == Done(Status(false)))
             else Joined(r.sanitizer, r.database))
  }

  predicate TookEffect(r: Request) {
    if IsRejected(r.op) then r.sanitizer.Done? else HasReply(r.database)
  }

  function EffectReply(r: Request): Reply
    requires TookEffect(r)
  {
    if IsRejected(r.op) then r.sanitizer.reply else r.database.reply
  }

  ghost predicate RequestsInv(c: Config, s: State) {
    && |s.requests| == |c.ops|
    && forall u | 0 <= u < |c.ops| :: RequestInv(c.ops[u], s.requests[u])
  }

  /** The query an action is about. */
  predicate About(a: Action, u: nat) {
    !a.Tick? && a.query == u
  }

  lemma ClientStepKeepsRequest(c: Config, s: State, u: nat)
    requires RequestsInv(c, s) && ClientReady(s, u)
    ensures var s' := StepClient(s, u);
      && |s'.requests| == |s.requests| && RequestInv(c.ops[u], s'.requests[u])
      && forall v | 0 <= v < |c.ops| && v != u :: s'.requests[v] == s.requests[v]
  {
    assert RequestInv(c.ops[u], s.requests[u]);
  }

  /** A handler step is about one request and leaves its client alone. */
  lemma HandlerMovesOneRequest(c: Config, s: State, service: Service, u: nat)
    requires HandlerReady(c, s, service, u)
    ensures var s' := StepHandler(c, s, service, u);
      && |s'.requests| == |s.requests|
      && s'.requests[u].client == s.requests[u].client
      && (forall v | 0 <= v < |s.requests| && v != u :: s'.requests[v] == s.requests[v])
  {
  }

  /** It records no client event, and at most its own effect. The board forgets nobody. */
  lemma HandlerRecordsAtMostItself(c: Config, s: State, service: Service, u: nat)
    requires HandlerReady(c, s, service, u)
    ensures var s' := StepHandler(c, s, service, u);
      && s'.history == s.history
      && (s'.order == s.order || s'.order == s.order + [u])
      && s.board.Keys <= s'.board.Keys
  {
  }

  lemma HandlerStepShape(c: Config, s: State, service: Service, u: nat)
    requires HandlerReady(c, s, service, u)
    ensures var s' := StepHandler(c, s, service, u);
      && s'.history == s.history
      && (s'.order == s.order || s'.order == s.order + [u])
      && |s'.requests| == |s.requests|
      && (forall v | 0 <= v < |s.requests| :: s'.requests[v].client == s.requests[v].client)
      && (forall v | 0 <= v < |s.requests| && v != u :: s'.requests[v] == s.requests[v])
      && s.board.Keys <= s'.board.Keys
  {
    HandlerMovesOneRequest(c, s, service, u);
    HandlerRecordsAtMostItself(c, s, service, u);
  }

  lemma MessageStepKeepsOwn(c: Config, s: State, u: nat)
    requires HandlerReady(c, s, MessageService, u) && RequestInv(s.requests[u].op, s.requests[u])
    ensures var s' := StepHandler(c, s, MessageService, u);
      u < |s'.requests| && RequestInv(s.requests[u].op, s'.requests[u])
  {
  }

  lemma SanitizerStepKeepsOwn(c: Config, s: State, u: nat)
    requires HandlerReady(c, s, Sanitizer, u) && RequestInv(s.requests[u].op, s.requests[u])
    ensures var s' := StepHandler(c, s, Sanitizer, u);
      u < |s'.requests| && RequestInv(s.requests[u].op, s'.requests[u])
  {
  }

  /** What a step makes of the database's program counter. */
  predicate DatabaseMove(op: Op, pc: Pc, pc': Pc) {
    && !pc.Absent? && !pc.Done?
    && !pc'.Absent? && !pc'.Called? && !pc'.Got? && (pc'.Found? ==> op.Find?)
  }

  lemma DatabaseMoveKeepsOwn(op: Op, r: Request, pc': Pc)
    requires RequestInv(op, r) && DatabaseMove(op, r.database, pc')
    ensures RequestInv(op, r.(database := pc'))
  {
  }

  lemma DatabaseStepMoves(c: Config, s: State, u: nat)
    requires HandlerReady(c, s, Database, u) && !s.requests[u].database.Called? && !s.requests[u].database.Got?
    requires s.requests[u].database.Found? ==> s.requests[u].op.Find?
    ensures var s' := StepHandler(c, s, Database, u);
      && u < |s'.requests| && s'.requests[u] == s.requests[u].(database := s'.requests[u].database)
      && DatabaseMove(s.requests[u].op, s.requests[u].database, s'.requests[u].database)
  {
  }

  lemma DatabaseStepKeepsOwn(c: Config, s: State, u: nat)
    requires HandlerReady(c, s, Database, u) && RequestInv(s.requests[u].op, s.requests[u])
    ensures var s' := StepHandler(c, s, Database, u);
      u < |s'.requests| && RequestInv(s.requests[u].op, s'.requests[u])
  {
    DatabaseStepMoves(c, s, u);
    DatabaseMoveKeepsOwn(s.requests[u].op, s.requests[u], StepHandler(c, s, Database, u).requests[u].database);
  }

  lemma HandlerStepKeepsOwn(c: Config, s: State, service: Service, u: nat)
    requires HandlerReady(c, s, service, u) && RequestInv(s.requests[u].op, s.requests[u])
    ensures var s' := StepHandler(c, s, service, u);
      u < |s'.requests| && RequestInv(s.requests[u].op, s'.requests[u])
  {
    match service
    case MessageService => MessageStepKeepsOwn(c, s, u);
    case Sanitizer => SanitizerStepKeepsOwn(c, s, u);
    case Database => DatabaseStepKeepsOwn(c, s, u);
  }

  lemma HandlerStepKeepsRequest(c: Config, s: State, service: Service, u: nat)
    requires RequestsInv(c, s) && HandlerReady(c, s, service, u)
    ensures var s' := StepHandler(c, s, service, u);
      && |s'.requests| == |s.requests| && RequestInv(c.ops[u], s'.requests[u])
      && forall v | 0 <= v < |c.ops| && v != u :: s'.requests[v] == s.requests[v]
  {
    assert RequestInv(c.ops[u], s.requests[u]);
    HandlerStepKeepsOwn(c, s, service, u);
    HandlerStepShape(c, s, service, u);
  }

  lemma StepMovesOneRequest(c: Config, s: State, a: Action)
    requires RequestsInv(c, s) && Ready(c, s, a)
    ensures RequestsInv(c, Next(c, s, a))
    ensures forall u | 0 <= u < |c.ops| && !About(a, u) :: Next(c, s, a).requests[u] == s.requests[u]
  {
    match a
    case Tick(_) =>
    case ClientStep(u) => ClientStepKeepsRequest(c, s, u);
    case HandlerStep(service, u) => HandlerStepKeepsRequest(c, s, service, u);
  }

  // ----- the order of effects -----

  /** A find that saw the user will find the message: the board forgets nobody. */
  predicate FoundInv(s: State) {
    forall u | 0 <= u < |s.requests| && s.requests[u].database.Found? :: FoundUser(s, u)
  }

  predicate FoundUser(s: State, u: nat)
    requires u < |s.requests|
  {
    s.requests[u].op.user in s.board
  }

  lemma StepKeepsFound(c: Config, s: State, a: Action)
    requires RequestsInv(c, s) && FoundInv(s) && Ready(c, s, a)
    ensures FoundInv(Next(c, s, a))
  {
    var s' := Next(c, s, a);
    StepMovesOneRequest(c, s, a);
    if a.HandlerStep? { HandlerStepShape(c, s, a.service, a.query); }
    forall u | 0 <= u < |s'.requests| && s'.requests[u].database.Found? ensures FoundUser(s', u) {
      assert RequestInv(c.ops[u], s.requests[u]);
      if s.requests[u].database.Found? { assert FoundUser(s, u); }
    }
  }

  ghost predicate OrderInv(c: Config, s: State) {
    && RequestsInv(c, s) && FoundInv(s)
    && Names(s.order, c.ops)
    && Distinct(s.order)
    && (forall u | 0 <= u < |c.ops| :: u in s.order <==> TookEffect(s.requests[u]))
    && (forall u | u in s.order :: EffectReply(s.requests[u]) == ReplyIn(c.ops, s.order, u))
    && s.board == Replay(c.ops, s.order)
  }

  /** Between s and s' no query took effect. */
  ghost predicate Quiet(c: Config, s: State, s': State)
    requires RequestsInv(c, s) && RequestsInv(c, s')
  {
    && s'.order == s.order && s'.board == s.board
    && forall u | 0 <= u < |c.ops| :: TookEffect(s'.requests[u]) == TookEffect(s.requests[u])
         && (TookEffect(s.requests[u]) ==> EffectReply(s'.requests[u]) == EffectReply(s.requests[u]))
  }

  /** Between s and s' query u, and only u, took effect, on the board as it stood. */
  ghost predicate Applied(c: Config, s: State, s': State, u: nat)
    requires RequestsInv(c, s) && RequestsInv(c, s')
  {
    && u < |c.ops|
    && !TookEffect(s.requests[u]) && TookEffect(s'.requests[u])
    && s'.order == s.order + [u]
    && (s'.board, EffectReply(s'.requests[u])) == Apply(s.board, c.ops[u])
    && forall v | 0 <= v < |c.ops| && v != u :: s'.requests[v] == s.requests[v]
  }

  lemma ClientStepIsQuiet(c: Config, s: State, u: nat)
    requires RequestsInv(c, s) && ClientReady(s, u) && RequestsInv(c, StepClient(s, u))
    ensures Quiet(c, s, StepClient(s, u))
  {
    assert RequestInv(c.ops[u], s.requests[u]);
  }

  /** The move of one handler: its query had no effect yet and has one now, or nothing of the kind changes. */
  lemma HandlerStepEffect(c: Config, s: State, service: Service, u: nat)
    requires HandlerReady(c, s, service, u) && RequestInv(s.requests[u].op, s.requests[u])
    requires s.requests[u].database.Found? ==> FoundUser(s, u)
    ensures var s' := StepHandler(c, s, service, u);
      && u < |s'.requests|
      && var r, r' := s.requests[u], s'.requests[u];
         if s'.order == s.order then
           s'.board == s.board && TookEffect(r') == TookEffect(r) && (TookEffect(r) ==> EffectReply(r') == EffectReply(r))
         else
           && !TookEffect(r) && TookEffect(r') && s'.order == s.order + [u]
           && (s'.board, EffectReply(r')) == Apply(s.board, r.op)
  {
    match service
    case MessageService =>
    case Sanitizer =>
    case Database =>
  }

  lemma HandlerStepAppliesAtMostOne(c: Config, s: State, service: Service, u: nat)
    requires RequestsInv(c, s) && FoundInv(s) && HandlerReady(c, s, service, u)
    requires RequestsInv(c, StepHandler(c, s, service, u))
    ensures var s' := StepHandler(c, s, service, u); Quiet(c, s, s') || Applied(c, s, s', u)
  {
    assert RequestInv(c.ops[u], s.requests[u]);
    HandlerStepShape(c, s, service, u);
    HandlerStepEffect(c, s, service, u);
  }

  /** An action either lets no query take effect, or it applies its query to the board as it stands. */
  lemma StepAppliesAtMostOne(c: Config, s: State, a: Action)
    requires RequestsInv(c, s) && FoundInv(s) && Ready(c, s, a) && RequestsInv(c, Next(c, s, a))
    ensures var s' := Next(c, s, a); Quiet(c, s, s') || (a.HandlerStep? && Applied(c, s, s', a.query))
  {
    match a
    case Tick(_) =>
    case ClientStep(u) => ClientStepIsQuiet(c, s, u);
    case HandlerStep(service, u) => HandlerStepAppliesAtMostOne(c, s, service, u);
  }

  lemma AppliedKeepsOrder(c: Config, s: State, s': State, u: nat)
    requires OrderInv(c, s) && RequestsInv(c, s') && FoundInv(s') && Applied(c, s, s', u)
    ensures OrderInv(c, s')
  {
    assert u !in s.order;
    ReplayExtend(c.ops, s.order, u);
    assert forall v :: v in s'.order <==> v == u || v in s.order;
    assert s.board == Replay(c.ops, s.order);
    forall v | v in s'.order
      ensures TookEffect(s'.requests[v]) && EffectReply(s'.requests[v]) == ReplyIn(c.ops, s'.order, v)
    {
      if v != u { assert v in s.order && s'.requests[v] == s.requests[v]; }
    }
  }

  lemma StepKeepsOrder(c: Config, s: State, a: Action)
    requires OrderInv(c, s) && Ready(c, s, a)
    ensures OrderInv(c, Next(c, s, a))
  {
    StepMovesOneRequest(c, s, a);
    StepKeepsFound(c, s, a);
    StepAppliesAtMostOne(c, s, a);
    if !Quiet(c, s, Next(c, s, a)) { AppliedKeepsOrder(c, s, Next(c, s, a), a.query); }
  }

  // ----- the history -----

  ghost predicate HistoryInv(c: Config, s: State) {
    && OrderInv(c, s)
    && WellFormed(c.ops, s.history)
    && ClientsMatch(s)
    && RealTime(s.order, s.history)
  }

  /** The history holds what the clients' program counters say happened to them. */
  ghost predicate ClientsMatch(s: State) {
    && (forall e | e in s.history :: e.query < |s.requests|)
    && (forall u | 0 <= u < |s.requests| :: Invoke(u) in s.history <==> !Unsent(s.requests[u].client))
    && (forall e | e in s.history && e.Respond? ::
         HasAnswer(s.requests[e.query].client) && s.requests[e.query].client.reply == e.reply)
  }

  /** An answered query has taken effect, and with that answer. */
  lemma AnsweredTookEffect(c: Config, s: State, u: nat)
    requires OrderInv(c, s) && u < |c.ops| && HasAnswer(s.requests[u].client)
    ensures u in s.order && ReplyIn(c.ops, s.order, u) == s.requests[u].client.reply
  {
    assert RequestInv(c.ops[u], s.requests[u]);
  }

  lemma UnsentHasNoEffect(c: Config, s: State, u: nat)
    requires OrderInv(c, s) && u < |c.ops| && Unsent(s.requests[u].client)
    ensures u !in s.order
  {
    assert RequestInv(c.ops[u], s.requests[u]);
  }

  lemma PrecedesExtend(order: seq<nat>, u: nat)
    ensures forall a, b | Precedes(order, a, b) :: Precedes(order + [u], a, b)
    ensures forall a | a in order :: Precedes(order + [u], a, u)
  {
    var extended := order + [u];
    forall a, b | Precedes(order, a, b) ensures Precedes(extended, a, b) {
      var p, q :| 0 <= p < q < |order| && order[p] == a && order[q] == b;
      assert extended[p] == a && extended[q] == b;
    }
    forall a | a in order ensures Precedes(extended, a, u) {
      var p :| 0 <= p < |order| && order[p] == a;
      assert extended[p] == a && extended[|order|] == u;
    }
  }

  /** A handler or clock step: the history stays, and a query that takes effect now
      does so after every query already answered. */
  lemma SilentStepKeepsHistory(c: Config, s: State, s': State)
    requires HistoryInv(c, s) && OrderInv(c, s') && s'.history == s.history
    requires forall u | 0 <= u < |c.ops| :: s'.requests[u].client == s.requests[u].client
    requires s'.order == s.order || exists u :: s'.order == s.order + [u]
    ensures HistoryInv(c, s')
  {
    if s'.order != s.order {
      var u :| s'.order == s.order + [u];
      PrecedesExtend(s.order, u);
      forall i, j | 0 <= i < j < |s.history| && s.history[i].Respond? && s.history[j].Invoke?
          && s.history[j].query in s'.order
        ensures Precedes(s'.order, s.history[i].query, s.history[j].query)
      {
        var a := s.history[i];
        assert a in s.history;
        AnsweredTookEffect(c, s, a.query);
      }
    }
  }

  lemma WellFormedExtend(ops: seq<Op>, history: seq<Event>, e: Event)
    requires WellFormed(ops, history) && e.query < |ops|
    requires e.Invoke? ==> forall f | f in history :: f.query != e.query
    requires e.Respond? ==> Invoke(e.query) in history && forall f | f in history && f.Respond? :: f.query != e.query
    ensures WellFormed(ops, history + [e])
  {
    var h := history + [e];
    assert forall k | 0 <= k < |history| :: h[k] == history[k] && history[k] in history;
    InvokedFirstExtend(history, e);
  }

  lemma InvokedFirstExtend(history: seq<Event>, e: Event)
    requires InvokedFirst(history)
    requires e.Respond? ==> Invoke(e.query) in history
    ensures InvokedFirst(history + [e])
  {
    var h := history + [e];
    forall j | 0 <= j < |h| && h[j].Respond? ensures InvokedBefore(h, j) {
      if j < |history| {
        assert InvokedBefore(history, j);
        var i :| 0 <= i < j && history[i] == Invoke(history[j].query);
        assert h[i] == Invoke(h[j].query);
      } else {
        var i :| 0 <= i < |history| && history[i] == Invoke(e.query);
        assert h[i] == Invoke(h[j].query);
      }
    }
  }

  lemma RealTimeExtend(order: seq<nat>, history: seq<Event>, e: Event)
    requires RealTime(order, history)
    requires e.Invoke? ==> e.query !in order
    ensures RealTime(order, history + [e])
  {
  }

  /** How one client step shows in the history. */
  predicate ClientMove(u: nat, pc: ClientPc, pc': ClientPc, h: seq<Event>, h': seq<Event>) {
    || (pc.Logged? && pc'.Waiting? && h' == h + [Invoke(u)])
    || (pc.Waiting? && pc'.Replied? && h' == h + [Respond(u, pc'.reply)])
    || (&& h' == h && (Unsent(pc) <==> Unsent(pc')) && (HasAnswer(pc) <==> HasAnswer(pc'))
        && (HasAnswer(pc) ==> pc'.reply == pc.reply))
  }

  /** A client step: at most one event, and no effect. */
  lemma ClientStepShape(c: Config, s: State, u: nat)
    requires RequestsInv(c, s) && ClientReady(s, u)
    ensures var s' := StepClient(s, u);
      && s'.order == s.order
      && |s'.requests| == |s.requests|
      && (forall v | 0 <= v < |s.requests| && v != u :: s'.requests[v] == s.requests[v])
      && ClientMove(u, s.requests[u].client, s'.requests[u].client, s.history, s'.history)
  {
    assert RequestInv(c.ops[u], s.requests[u]);
  }

  lemma EventKeepsClientsMatch(s: State, s': State, e: Event)
    requires ClientsMatch(s) && s'.history == s.history + [e]
    requires e.query < |s.requests| == |s'.requests|
    requires forall v | 0 <= v < |s.requests| && v != e.query :: s'.requests[v] == s.requests[v]
    requires e.Invoke? ==> Unsent(s.requests[e.query].client) && s'.requests[e.query].client.Waiting?
    requires e.Respond? ==> s.requests[e.query].client.Waiting? && s'.requests[e.query].client == Replied(e.reply)
    ensures ClientsMatch(s')
  {
    assert forall f :: f in s'.history <==> f in s.history || f == e;
  }

  lemma ClientMoveKeepsHistory(c: Config, s: State, s': State, u: nat)
    requires HistoryInv(c, s) && OrderInv(c, s') && s'.order == s.order && u < |s.requests|
    requires forall v | 0 <= v < |s.requests| && v != u :: s'.requests[v] == s.requests[v]
    requires ClientMove(u, s.requests[u].client, s'.requests[u].client, s.history, s'.history)
    ensures HistoryInv(c, s')
  {
    if s'.history != s.history {
      var e := s'.history[|s.history|];
      if e.Invoke? { UnsentHasNoEffect(c, s, u); }
      WellFormedExtend(c.ops, s.history, e);
      RealTimeExtend(s.order, s.history, e);
      EventKeepsClientsMatch(s, s', e);
    }
  }

  lemma StepKeepsHistory(c: Config, s: State, a: Action)
    requires HistoryInv(c, s) && Ready(c, s, a)
    ensures HistoryInv(c, Next(c, s, a))
  {
    StepKeepsOrder(c, s, a);
    match a
    case Tick(_) => SilentStepKeepsHistory(c, s, Next(c, s, a));
    case ClientStep(u) =>
      ClientStepShape(c, s, u);
      ClientMoveKeepsHistory(c, s, Next(c, s, a), u);
    case HandlerStep(service, u) =>
      HandlerStepShape(c, s, service, u);
      SilentStepKeepsHistory(c, s, Next(c, s, a));
  }

  lemma InitIsFine(c: Config)
    ensures HistoryInv(c, Init(c))
  {
  }

  lemma {:induction false} ReachableInv(c: Config, actions: seq<Action>)
    requires Run(c, actions).Some?
    ensures HistoryInv(c, Run(c, actions).value)
  {
    if actions == [] {
      InitIsFine(c);
    } else {
      var before := actions[..|actions| - 1];
      ReachableInv(c, before);
      StepKeepsHistory(c, Run(c, before).value, actions[|actions| - 1]);
    }
  }

  // ----- what linearizability means for finds -----

  /** Query v was answered before query w was invoked. */
  ghost predicate AnsweredBefore(history: seq<Event>, v: nat, w: nat) {
    exists i, j | 0 <= i < j < |history| :: history[i].Respond? && history[i].query == v && history[j] == Invoke(w)
  }

  /** Nothing the clients saw speaks against send v being the last one of its user when find f is carried out: it was
      not invoked after f was answered, and no other accepted send of the user came between it and f. */
  ghost predicate Current(ops: seq<Op>, history: seq<Event>, v: nat, f: nat, user: string) {
    && v < |ops| && AcceptedBy(ops[v], user)
    && Invoke(v) in history && !AnsweredBefore(history, f, v)
    && forall w | 0 <= w < |ops| && AcceptedBy(ops[w], user) ::
         !(AnsweredBefore(history, v, w) && AnsweredBefore(history, w, f))
  }

  lemma OrderFollowsHistory(order: seq<nat>, history: seq<Event>, p: nat, q: nat)
    requires Distinct(order) && RealTime(order, history) && p < |order| && q < |order|
    ensures AnsweredBefore(history, order[p], order[q]) ==> p < q
  {
    if AnsweredBefore(history, order[p], order[q]) {
      var i, j :| 0 <= i < j < |history| && history[i].Respond? && history[i].query == order[p]
        && history[j] == Invoke(order[q]);
      assert history[j].query in order;
      assert Precedes(order, order[p], order[q]);
    }
  }

  lemma AnsweredIsInOrder(ops: seq<Op>, order: seq<nat>, history: seq<Event>, w: nat, f: nat)
    requires Explains(ops, order, history)
    ensures AnsweredBefore(history, w, f) ==> w in order
  {
    if AnsweredBefore(history, w, f) {
      var i, j :| 0 <= i < j < |history| && history[i].Respond? && history[i].query == w && history[j] == Invoke(f);
      assert history[i] in history;
    }
  }

  /** A send that a find could have read is current. */
  lemma LastSendIsCurrent(ops: seq<Op>, order: seq<nat>, history: seq<Event>, p: nat, q: nat, user: string)
    requires Explains(ops, order, history) && q < |order| && LastSend(ops, order[..q], p, user)
    ensures Current(ops, history, order[p], order[q], user)
  {
    assert order[p] in order;
    assert forall k | 0 <= k < q :: order[..q][k] == order[k];
    OrderFollowsHistory(order, history, q, p);
    forall w | 0 <= w < |ops| && AcceptedBy(ops[w], user)
      ensures !(AnsweredBefore(history, order[p], w) && AnsweredBefore(history, w, order[q]))
    {
      AnsweredIsInOrder(ops, order, history, w, order[q]);
      if m :| 0 <= m < |order| && order[m] == w {
        OrderFollowsHistory(order, history, p, m);
        OrderFollowsHistory(order, history, m, q);
      }
    }
  }

  lemma NoSendAnswered(ops: seq<Op>, order: seq<nat>, history: seq<Event>, q: nat, user: string, w: nat)
    requires Explains(ops, order, history) && q < |order| && NoSend(ops, order[..q], user)
    requires w < |ops| && AcceptedBy(ops[w], user)
    ensures !AnsweredBefore(history, w, order[q])
  {
    AnsweredIsInOrder(ops, order, history, w, order[q]);
    assert forall k | 0 <= k < q :: order[..q][k] == order[k];
    if m :| 0 <= m < |order| && order[m] == w { OrderFollowsHistory(order, history, m, q); }
  }

  /** In any linearizable history a find is answered with a current message of its user, or else with the
      warning, and then no accepted send of the user was answered before the find was invoked. */
  lemma FindsReadCurrentMessages(ops: seq<Op>, order: seq<nat>, history: seq<Event>, f: nat, reply: Reply)
    requires Explains(ops, order, history) && f < |ops| && ops[f].Find? && Respond(f, reply) in history
    ensures var user := ops[f].user;
      || (exists v: nat :: Current(ops, history, v, f, user) && reply == Text(ops[v].message))
      || (&& reply == Text("WARNING: This user " + user + " didn't post any message or doesn't exist...")
          && forall w | 0 <= w < |ops| && AcceptedBy(ops[w], user) :: !AnsweredBefore(history, w, f))
  {
    var user := ops[f].user;
    var e := Respond(f, reply);
    assert e in history && e.query in order;
    var q :| 0 <= q < |order| && order[q] == f;
    FindReadsLastSend(ops, order, q);
    if p: nat :| LastSend(ops, order[..q], p, user) && reply == Text(ops[order[p]].message) {
      LastSendIsCurrent(ops, order, history, p, q, user);
    } else {
      forall w | 0 <= w < |ops| && AcceptedBy(ops[w], user) ensures !AnsweredBefore(history, w, f) {
        NoSendAnswered(ops, order, history, q, user, w);
      }
    }
  }

  // ----- the theorems -----

  /** Main result: whatever the interleaving, the pool sizes and the build, what the clients
      observe is explained by running the queries one at a time on the plain board. */
  lemma EveryRunIsLinearizable(c: Config, actions: seq<Action>)
    requires Run(c, actions).Some?
    ensures Linearizable(c.ops, Run(c, actions).value.history)
  {
    var s := Run(c, actions).value;
    ReachableInv(c, actions);
    forall u | u in s.order ensures Invoke(u) in s.history {
      if Unsent(s.requests[u].client) { UnsentHasNoEffect(c, s, u); }
    }
    forall e | e in s.history && e.Respond?
      ensures e.query in s.order && ReplyIn(c.ops, s.order, e.query) == e.reply
    {
      AnsweredTookEffect(c, s, e.query);
    }
    assert Explains(c.ops, s.order, s.history);
  }

  /** At every moment of every run, what the database holds for a user was sent by that user and
      is not a single line containing a slash, star, dollar or caret. */
  lemma DatabaseHoldsAcceptedMessages(c: Config, actions: seq<Action>, user: string)
    requires Run(c, actions).Some? && user in Run(c, actions).value.board
    ensures exists op <- c.ops :: AcceptedSend(op, user, Run(c, actions).value.board[user])
  {
    ReachableInv(c, actions);
    var s := Run(c, actions).value;
    BoardHoldsAcceptedSends(c.ops, s.order, user);
    var u :| u in s.order && AcceptedSend(c.ops[u], user, s.board[user]);
    assert c.ops[u] in c.ops;
  }

  /** Every answer a client gets: a find gets the warning or an accepted message of that user,
      a send gets the verdict of the filter. */
  lemma AnswersAreSound(c: Config, actions: seq<Action>, u: nat, reply: Reply)
    requires Run(c, actions).Some? && Respond(u, reply) in Run(c, actions).value.history
    ensures u < |c.ops|
    ensures match c.ops[u]
      case Send(_, message) => reply == Status(!Filter.Rejected(message))
      case Find(user) => reply.Text? && (reply.message == Warning(user)
                           || exists op <- c.ops :: AcceptedSend(op, user, reply.message))
  {
    ReachableInv(c, actions);
    var s := Run(c, actions).value;
    assert Respond(u, reply) in s.history;
    AnsweredTookEffect(c, s, u);
    SendRepliesAreVerdicts(c.ops, s.order, u);
    if c.ops[u].Find? {
      FindRepliesAreAcceptedSends(c.ops, s.order, u);
      if reply.message != Warning(c.ops[u].user) {
        var v :| v in s.order && AcceptedSend(c.ops[v], c.ops[u].user, reply.message);
        assert c.ops[v] in c.ops;
      }
    }
  }

  /** In every run a find is answered with a message that may be the last accepted one of its user, as far as
      clients can tell; with the warning only if no accepted send of the user was answered before it began. */
  lemma FindsAreAnsweredRight(c: Config, actions: seq<Action>, f: nat, reply: Reply)
    requires Run(c, actions).Some? && Respond(f, reply) in Run(c, actions).value.history
    requires f < |c.ops| && c.ops[f].Find?
    ensures var history, user := Run(c, actions).value.history, c.ops[f].user;
      || (exists v: nat :: Current(c.ops, history, v, f, user) && reply == Text(c.ops[v].message))
      || (&& reply == Text("WARNING: This user " + user + " didn't post any message or doesn't exist...")
          && forall w | 0 <= w < |c.ops| && AcceptedBy(c.ops[w], user) :: !AnsweredBefore(history, w, f))
  {
    EveryRunIsLinearizable(c, actions);
    var history := Run(c, actions).value.history;
    var order :| Explains(c.ops, order, history);
    FindsReadCurrentMessages(c.ops, order, history, f, reply);
  }

  /** At every moment the database holds for a user the message of an accepted send that no other answered one
      came after; and nothing only if no accepted send of the user was answered yet. */
  lemma DatabaseKeepsUp(c: Config, actions: seq<Action>, user: string)
    requires Run(c, actions).Some?
    ensures var s := Run(c, actions).value;
      if user in s.board then
        exists v: nat :: v < |c.ops| && AcceptedBy(c.ops[v], user) && s.board[user] == c.ops[v].message
          && forall w: nat | w < |c.ops| && AcceptedBy(c.ops[w], user) && Answered(s.history, w) :: !AnsweredBefore(s.history, v, w)
      else
        forall w | 0 <= w < |c.ops| && AcceptedBy(c.ops[w], user) :: !Answered(s.history, w)
  {
    ReachableInv(c, actions);
    var s := Run(c, actions).value;
    BoardHoldsLastSend(c.ops, s.order, user);
    if user in s.board {
      var p: nat :| LastSend(c.ops, s.order, p, user) && s.board[user] == c.ops[s.order[p]].message;
      forall w: nat | w < |c.ops| && AcceptedBy(c.ops[w], user) && Answered(s.history, w)
        ensures !AnsweredBefore(s.history, s.order[p], w)
      {
        AnsweredHasPlace(c, s, w);
        var m :| 0 <= m < |s.order| && s.order[m] == w;
        OrderFollowsHistory(s.order, s.history, p, m);
      }
    } else {
      forall w | 0 <= w < |c.ops| && Answered(s.history, w) ensures !AcceptedBy(c.ops[w], user) {
        AnsweredHasPlace(c, s, w);
      }
    }
  }

  ghost predicate Answered(history: seq<Event>, w: nat) {
    exists e | e in history :: e.Respond? && e.query == w
  }

  lemma AnsweredHasPlace(c: Config, s: State, w: nat)
    requires HistoryInv(c, s) && w < |c.ops| && Answered(s.history, w)
    ensures w in s.order
  {
    AnsweredTookEffect(c, s, w);
  }
}
