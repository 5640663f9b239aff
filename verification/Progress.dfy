// No interleaving of the pipeline gets stuck, runs forever, or overruns a worker pool,
// although every handler keeps its worker while it waits for the service below.
module Progress {
  import opened Arithmetic
  import opened Board
  import opened Pipeline
  import opened Wrappers
  import opened Linearizability

  predicate AllFinished(s: State) {
    forall u | 0 <= u < |s.requests| :: s.requests[u].client.Finished?
  }

  /** Some action other than the passing of time can happen. */
  ghost predicate CanMove(c: Config, s: State) {
    exists a: Action :: !a.Tick? && Ready(c, s, a)
  }

  predicate HasWorkers(c: Config) {
    c.messageWorkers >= 1 && c.sanitizerWorkers >= 1 && c.databaseWorkers >= 1
  }

  // ----- pools -----

  ghost predicate PoolsInv(c: Config, s: State) {
    forall service :: |Holders(s, service)| <= Workers(c, service)
  }

  /** A query that enters takes one more worker; any other move takes none. */
  lemma StepKeepsPools(c: Config, s: State, a: Action)
    requires RequestsInv(c, s) && PoolsInv(c, s) && Ready(c, s, a)
    ensures PoolsInv(c, Next(c, s, a))
  {
    StepMovesOneRequest(c, s, a);
    forall service ensures |Holders(Next(c, s, a), service)| <= Workers(c, service) {
      StepKeepsPool(c, s, a, service);
    }
  }

  lemma StepKeepsPool(c: Config, s: State, a: Action, service: Service)
    requires RequestsInv(c, s) && PoolsInv(c, s) && Ready(c, s, a) && RequestsInv(c, Next(c, s, a))
    ensures |Holders(Next(c, s, a), service)| <= Workers(c, service)
  {
    var s' := Next(c, s, a);
    var before, after := Holders(s, service), Holders(s', service);
    HoldersOnlyGrowOnEntry(c, s, a, service);
    if a.HandlerStep? && a.service == service && PcOf(s.requests[a.query], service).Queued? {
      SubsetSize(after, before + {a.query});
    } else {
      SubsetSize(after, before);
    }
  }

  /** A request that holds a worker held it before, or was let in by this very step. */
  lemma HeldBeforeOrLetIn(c: Config, s: State, a: Action, service: Service, v: nat)
    requires RequestsInv(c, s) && Ready(c, s, a) && RequestsInv(c, Next(c, s, a)) && v < |c.ops|
    requires Holding(PcOf(Next(c, s, a).requests[v], service)) && !Holding(PcOf(s.requests[v], service))
    ensures a.HandlerStep? && a.service == service && v == a.query && PcOf(s.requests[v], service).Queued?
  {
    assert RequestInv(c.ops[v], s.requests[v]);
    match a
    case Tick(_) =>
    case ClientStep(u) => ClientStepShape(c, s, u);
    case HandlerStep(at, u) => HandlerMovesOneRequest(c, s, at, u);
  }

  lemma HoldersOnlyGrowOnEntry(c: Config, s: State, a: Action, service: Service)
    requires RequestsInv(c, s) && Ready(c, s, a) && RequestsInv(c, Next(c, s, a))
    ensures
      if a.HandlerStep? && a.service == service && PcOf(s.requests[a.query], service).Queued?
      then Holders(Next(c, s, a), service) <= Holders(s, service) + {a.query}
      else Holders(Next(c, s, a), service) <= Holders(s, service)
  {
    forall v | v in Holders(Next(c, s, a), service) && v !in Holders(s, service)
      ensures a.HandlerStep? && a.service == service && v == a.query && PcOf(s.requests[v], service).Queued?
    {
      HeldBeforeOrLetIn(c, s, a, service, v);
    }
  }

  // ----- deadlock freedom -----

  /** A service with an unfinished call either has a handler running, or a free worker for a queued call. */
  lemma SomeCallMoves(c: Config, s: State, service: Service, u: nat)
    requires RequestsInv(c, s) && HasWorkers(c) && u < |c.ops|
    requires !PcOf(s.requests[u], service).Absent? && !PcOf(s.requests[u], service).Done?
    requires forall v | 0 <= v < |c.ops| && Holding(PcOf(s.requests[v], service)) :: HandlerReady(c, s, service, v)
    ensures CanMove(c, s)
  {
    if v :| v in Holders(s, service) {
      assert Ready(c, s, HandlerStep(service, v));
    } else {
      assert Holders(s, service) == {};
      assert Ready(c, s, HandlerStep(service, u));
    }
  }

  predicate Open(pc: Pc) {
    !pc.Absent? && !pc.Done?
  }

  /** Nothing is left to do in a service. */
  ghost predicate Quiescent(s: State, service: Service) {
    forall u | 0 <= u < |s.requests| :: !Open(PcOf(s.requests[u], service))
  }

  /** Running database handlers never wait. */
  lemma DatabaseMovesOrIsQuiescent(c: Config, s: State)
    requires RequestsInv(c, s) && HasWorkers(c)
    ensures CanMove(c, s) || Quiescent(s, Database)
  {
    forall v | 0 <= v < |c.ops| && Holding(s.requests[v].database) ensures HandlerReady(c, s, Database, v) {
      assert RequestInv(c.ops[v], s.requests[v]);
    }
    if u :| 0 <= u < |s.requests| && Open(PcOf(s.requests[u], Database)) { SomeCallMoves(c, s, Database, u); }
  }

  /** Handlers only wait for calls one level down, so a quiet level below lets this level move. */
  lemma CallerMovesOrIsQuiescent(c: Config, s: State, service: Service)
    requires RequestsInv(c, s) && HasWorkers(c) && service != Database
    requires Quiescent(s, Database) && (service == MessageService ==> Quiescent(s, Sanitizer))
    ensures CanMove(c, s) || Quiescent(s, service)
  {
    forall v | 0 <= v < |c.ops| && Holding(PcOf(s.requests[v], service)) ensures HandlerReady(c, s, service, v) {
      assert RequestInv(c.ops[v], s.requests[v]);
      assert !Open(PcOf(s.requests[v], Database));
      if service == MessageService { assert !Open(PcOf(s.requests[v], Sanitizer)); }
    }
    if u :| 0 <= u < |s.requests| && Open(PcOf(s.requests[u], service)) { SomeCallMoves(c, s, service, u); }
  }

  lemma UnfinishedMoves(c: Config, s: State)
    requires RequestsInv(c, s) && HasWorkers(c) && !AllFinished(s)
    ensures CanMove(c, s)
  {
    DatabaseMovesOrIsQuiescent(c, s);
    if Quiescent(s, Database) {
      CallerMovesOrIsQuiescent(c, s, Sanitizer);
      if Quiescent(s, Sanitizer) {
        CallerMovesOrIsQuiescent(c, s, MessageService);
        if Quiescent(s, MessageService) {
          var u :| 0 <= u < |s.requests| && !s.requests[u].client.Finished?;
          assert RequestInv(c.ops[u], s.requests[u]);
          assert !Open(PcOf(s.requests[u], MessageService));
          assert Ready(c, s, ClientStep(u));
        }
      }
    }
  }

  // ----- termination -----

  function Rank(pc: Pc): nat {
    match pc
    case Absent => 10
    case Queued => 9
    case Entered => 8
    case StartRead(_) => 7
    case Started => 6
    case Called => 5
    case Slept => 4
    case Found => 3
    case Got(_) => 3
    case Answered(_) => 2
    case EndRead(_, _) => 1
    case Done(_) => 0
  }

  function ClientRank(pc: ClientPc): nat {
    match pc
    case Idle => 6
    case SendRead(_) => 5
    case Logged => 4
    case Waiting => 3
    case Replied(_) => 2
    case ReplyRead(_, _) => 1
    case Finished(_) => 0
  }

  const STEPS_PER_REQUEST: nat := 36

  function RequestRank(r: Request): nat {
    ClientRank(r.client) + Rank(r.message) + Rank(r.sanitizer) + Rank(r.database)
  }

  function TotalRank(requests: seq<Request>): nat {
    if requests == [] then 0 else TotalRank(requests[..|requests| - 1]) + RequestRank(requests[|requests| - 1])
  }

  lemma {:induction false} TotalRankUpdate(requests: seq<Request>, u: nat, r: Request)
    requires u < |requests|
    ensures TotalRank(requests[u := r]) == TotalRank(requests) - RequestRank(requests[u]) + RequestRank(r)
  {
    var last := |requests| - 1;
    if u == last {
      assert requests[u := r][..last] == requests[..last];
    } else {
      TotalRankUpdate(requests[..last], u, r);
      assert requests[u := r][..last] == requests[..last][u := r];
    }
  }

  lemma HandlerStepLowersRank(c: Config, s: State, service: Service, u: nat)
    requires HandlerReady(c, s, service, u) && RequestInv(s.requests[u].op, s.requests[u])
    ensures RequestRank(StepHandler(c, s, service, u).requests[u]) < RequestRank(s.requests[u])
  {
    match service
    case MessageService =>
    case Sanitizer =>
    case Database =>
  }

  lemma ClientStepLowersRank(c: Config, s: State, u: nat)
    requires RequestsInv(c, s) && ClientReady(s, u)
    ensures RequestRank(StepClient(s, u).requests[u]) < RequestRank(s.requests[u])
  {
    assert RequestInv(c.ops[u], s.requests[u]);
  }

  /** Every action but the passing of time uses up rank. */
  lemma StepLowersRank(c: Config, s: State, a: Action)
    requires RequestsInv(c, s) && Ready(c, s, a)
    ensures if a.Tick? then TotalRank(Next(c, s, a).requests) == TotalRank(s.requests)
      else TotalRank(Next(c, s, a).requests) < TotalRank(s.requests)
  {
    if !a.Tick? {
      var s' := Next(c, s, a);
      StepMovesOneRequest(c, s, a);
      assert RequestInv(c.ops[a.query], s.requests[a.query]);
      if a.ClientStep? { ClientStepLowersRank(c, s, a.query); }
      else { HandlerStepLowersRank(c, s, a.service, a.query); }
      assert s'.requests == s.requests[a.query := s'.requests[a.query]];
      TotalRankUpdate(s.requests, a.query, s'.requests[a.query]);
    }
  }

  lemma {:induction false} InitialRank(requests: seq<Request>)
    requires forall u | 0 <= u < |requests| :: RequestRank(requests[u]) == STEPS_PER_REQUEST
    ensures TotalRank(requests) == STEPS_PER_REQUEST * |requests|
  {
    if requests != [] { InitialRank(requests[..|requests| - 1]); }
  }

  /** How many of the actions are moves rather than the passing of time. */
  function Moves(actions: seq<Action>): nat {
    if actions == [] then 0
    else Moves(actions[..|actions| - 1]) + if actions[|actions| - 1].Tick? then 0 else 1
  }

  lemma {:induction false} MovesAreBounded(c: Config, actions: seq<Action>)
    requires Run(c, actions).Some?
    ensures Moves(actions) + TotalRank(Run(c, actions).value.requests) <= STEPS_PER_REQUEST * |c.ops|
  {
    if actions == [] {
      InitialRank(Init(c).requests);
    } else {
      var before := actions[..|actions| - 1];
      MovesAreBounded(c, before);
      ReachableInv(c, before);
      StepLowersRank(c, Run(c, before).value, actions[|actions| - 1]);
    }
  }

  // ----- the theorems -----

  lemma {:induction false} PoolsHold(c: Config, actions: seq<Action>)
    requires Run(c, actions).Some?
    ensures PoolsInv(c, Run(c, actions).value)
  {
    if actions == [] {
      forall service ensures |Holders(Init(c), service)| <= Workers(c, service) {
        assert Holders(Init(c), service) == {};
      }
    } else {
      var before := actions[..|actions| - 1];
      PoolsHold(c, before);
      ReachableInv(c, before);
      StepKeepsPools(c, Run(c, before).value, actions[|actions| - 1]);
    }
  }

  /** In no run are more handlers of a service between entry and return than it has workers, the blocked ones included. */
  lemma PoolsAreRespected(c: Config, actions: seq<Action>)
    requires Run(c, actions).Some?
    ensures var rs := Run(c, actions).value.requests;
      && |set u | 0 <= u < |rs| && !rs[u].message.Absent? && !rs[u].message.Queued? && !rs[u].message.Done?|
        <= c.messageWorkers
      && |set u | 0 <= u < |rs| && !rs[u].sanitizer.Absent? && !rs[u].sanitizer.Queued? && !rs[u].sanitizer.Done?|
        <= c.sanitizerWorkers
      && |set u | 0 <= u < |rs| && !rs[u].database.Absent? && !rs[u].database.Queued? && !rs[u].database.Done?|
        <= c.databaseWorkers
  {
    PoolsHold(c, actions);
    var s := Run(c, actions).value;
    var rs := s.requests;
    assert |Holders(s, MessageService)| <= c.messageWorkers;
    assert |Holders(s, Sanitizer)| <= c.sanitizerWorkers;
    assert |Holders(s, Database)| <= c.databaseWorkers;
    assert Holders(s, MessageService)
      == set u | 0 <= u < |rs| && !rs[u].message.Absent? && !rs[u].message.Queued? && !rs[u].message.Done?;
    assert Holders(s, Sanitizer)
      == set u | 0 <= u < |rs| && !rs[u].sanitizer.Absent? && !rs[u].sanitizer.Queued? && !rs[u].sanitizer.Done?;
    assert Holders(s, Database)
      == set u | 0 <= u < |rs| && !rs[u].database.Absent? && !rs[u].database.Queued? && !rs[u].database.Done?;
  }

  // ----- the two builds -----

  /** In the blocking build the fake task comes after the answer, in the other one before it. */
  predicate InBuildOrder(c: Config, r: Request) {
    && (c.sync ==> !r.message.Slept? && !r.sanitizer.Slept?)
    && (!c.sync ==> !r.message.Got? && !r.sanitizer.Got?)
  }

  lemma HandlerKeepsBuildOrder(c: Config, s: State, service: Service, u: nat)
    requires HandlerReady(c, s, service, u) && InBuildOrder(c, s.requests[u])
    ensures InBuildOrder(c, StepHandler(c, s, service, u).requests[u])
  {
  }

  /** In every run: a handler of the blocking build never does its fake task while its call is open. In the other build
      a handler that has called is free to go on, whatever the service below is doing. */
  lemma {:induction false} BuildsDiffer(c: Config, actions: seq<Action>, u: nat)
    requires Run(c, actions).Some? && u < |c.ops|
    ensures var s := Run(c, actions).value;
      && |s.requests| == |c.ops| && InBuildOrder(c, s.requests[u])
      && (!c.sync && s.requests[u].message.Called? ==> Ready(c, s, HandlerStep(MessageService, u)))
      && (!c.sync && s.requests[u].sanitizer.Called? ==> Ready(c, s, HandlerStep(Sanitizer, u)))
  {
    ReachableInv(c, actions);
    if actions != [] {
      var before, a := actions[..|actions| - 1], actions[|actions| - 1];
      var s := Run(c, before).value;
      BuildsDiffer(c, before, u);
      ReachableInv(c, before);
      match a
      case Tick(_) =>
      case ClientStep(v) => ClientKeepsBuildOrder(c, s, v, u);
      case HandlerStep(service, v) =>
        HandlerMovesOneRequest(c, s, service, v);
        if v == u { HandlerKeepsBuildOrder(c, s, service, u); }
    }
  }

  lemma ClientKeepsBuildOrder(c: Config, s: State, v: nat, u: nat)
    requires ClientReady(s, v) && u < |s.requests| && InBuildOrder(c, s.requests[u])
    ensures u < |StepClient(s, v).requests| && InBuildOrder(c, StepClient(s, v).requests[u])
  {
  }

  /** Every client past its reply has that reply in the history. */
  predicate Delivered(s: State) {
    forall u | 0 <= u < |s.requests| && HasAnswer(s.requests[u].client) ::
      Respond(u, s.requests[u].client.reply) in s.history
  }

  lemma StepKeepsDelivered(c: Config, s: State, a: Action)
    requires RequestsInv(c, s) && Ready(c, s, a) && Delivered(s)
    ensures Delivered(Next(c, s, a))
  {
    StepMovesOneRequest(c, s, a);
    if a.ClientStep? { ClientStepShape(c, s, a.query); }
    if a.HandlerStep? { HandlerStepShape(c, s, a.service, a.query); }
  }

  lemma {:induction false} AnswersAreDelivered(c: Config, actions: seq<Action>)
    requires Run(c, actions).Some?
    ensures Delivered(Run(c, actions).value)
  {
    if actions != [] {
      var before := actions[..|actions| - 1];
      AnswersAreDelivered(c, before);
      ReachableInv(c, before);
      StepKeepsDelivered(c, Run(c, before).value, actions[|actions| - 1]);
    }
  }

  /** With at least one worker per service, a run that can go no further has answered every
      request, and no run makes more than 36 moves per request: each one ends, answered. */
  lemma EveryRunEndsAnswered(c: Config, actions: seq<Action>)
    requires HasWorkers(c) && Run(c, actions).Some?
    ensures Moves(actions) <= STEPS_PER_REQUEST * |c.ops|
    ensures |Run(c, actions).value.requests| == |c.ops|
    ensures CanMove(c, Run(c, actions).value)
      || (AllFinished(Run(c, actions).value) && Delivered(Run(c, actions).value))
  {
    MovesAreBounded(c, actions);
    ReachableInv(c, actions);
    AnswersAreDelivered(c, actions);
    var s := Run(c, actions).value;
    if !AllFinished(s) { UnfinishedMoves(c, s); }
  }

  lemma RunAppend(c: Config, actions: seq<Action>, a: Action)
    requires Run(c, actions).Some? && Ready(c, Run(c, actions).value, a)
    ensures Run(c, actions + [a]) == Some(Next(c, Run(c, actions).value, a))
  {
    assert (actions + [a])[..|actions|] == actions;
  }

  function RankAfter(c: Config, actions: seq<Action>): nat
    requires Run(c, actions).Some?
  {
    TotalRank(Run(c, actions).value.requests)
  }

  predicate Completed(c: Config, actions: seq<Action>) {
    Run(c, actions).Some? && AllFinished(Run(c, actions).value)
  }

  lemma UnfinishedRunGoesOn(c: Config, actions: seq<Action>) returns (a: Action)
    requires HasWorkers(c) && Run(c, actions).Some? && !Completed(c, actions)
    ensures Run(c, actions + [a]).Some? && RankAfter(c, actions + [a]) < RankAfter(c, actions)
  {
    var s := Run(c, actions).value;
    ReachableInv(c, actions);
    UnfinishedMoves(c, s);
    a :| !a.Tick? && Ready(c, s, a);
    RunAppend(c, actions, a);
    StepLowersRank(c, s, a);
  }

  /** From wherever a run stands, it can be continued until every request is answered. */
  lemma {:induction false} EveryRunCanBeCompleted(c: Config, actions: seq<Action>) returns (all: seq<Action>)
    requires HasWorkers(c) && Run(c, actions).Some?
    ensures actions <= all && Completed(c, all)
    decreases RankAfter(c, actions)
  {
    if Completed(c, actions) {
      all := actions;
    } else {
      var a := UnfinishedRunGoesOn(c, actions);
      all := EveryRunCanBeCompleted(c, actions + [a]);
      assert actions <= actions + [a];
    }
  }
}
