// The message board as a step system: a client, three services with bounded
// worker pools, and the trace logs they keep. One action moves one request by
// one statement of one handler, so a list of actions is one interleaving.
module Pipeline {
  import opened Board
  import opened Wrappers
  import Filter

  datatype Service = MessageService | Sanitizer | Database

  /** Where the handler of one service stands with one request. */
  datatype Pc =
    | Absent                          // the call was not made
    | Queued                          // waiting for a worker
    | Entered                         // a worker runs the handler
    | StartRead(time: nat)            // clock read for the first log entry
    | Started                         // first entry logged
    | Called                          // downstream call issued
    | Slept                           // fake task done
    | Found                           // database: the user has a message, not yet read
    | Got(reply: Reply)               // blocking form: downstream answer in hand, fake task to do
    | Answered(reply: Reply)          // result known
    | EndRead(time: nat, reply: Reply)  // clock read for the second log entry
    | Done(reply: Reply)              // worker released, caller answered

  datatype ClientPc =
    | Idle
    | SendRead(time: nat)
    | Logged
    | Waiting
    | Replied(reply: Reply)
    | ReplyRead(time: nat, reply: Reply)
    | Finished(reply: Reply)

  datatype Request = Request(op: Op, client: ClientPc, message: Pc, sanitizer: Pc, database: Pc)

  datatype Entry = Entry(query: nat, time: nat)

  /** What clients observe. */
  datatype Event = Invoke(query: nat) | Respond(query: nat, reply: Reply)

  /** sync selects the blocking build; pool sizes are per service. */
  datatype Config = Config(ops: seq<Op>, sync: bool, messageWorkers: nat, sanitizerWorkers: nat, databaseWorkers: nat)

  /** history and order only record what happened: the client-visible events and
      the queries in the order in which they took effect. */
  datatype State = State(
    requests: seq<Request>,
    now: nat,
    board: Messages,
    clientLog: seq<Entry>, messageLog: seq<Entry>, sanitizerLog: seq<Entry>, databaseLog: seq<Entry>,
    history: seq<Event>,
    order: seq<nat>)

  datatype Action = Tick(elapsed: nat) | ClientStep(query: nat) | HandlerStep(service: Service, query: nat)

  function Workers(c: Config, service: Service): nat {
    match service
    case MessageService => c.messageWorkers
    case Sanitizer => c.sanitizerWorkers
    case Database => c.databaseWorkers
  }

  function PcOf(r: Request, service: Service): Pc {
    match service
    case MessageService => r.message
    case Sanitizer => r.sanitizer
    case Database => r.database
  }

  function SetPc(r: Request, service: Service, pc: Pc): Request {
    match service
    case MessageService => r.(message := pc)
    case Sanitizer => r.(sanitizer := pc)
    case Database => r.(database := pc)
  }

  /** The service that a handler calls for this operation. */
  function CalledBy(service: Service, op: Op): Service {
    if service == MessageService && op.Send? then Sanitizer else Database
  }

  function Downstream(r: Request, service: Service): Pc {
    PcOf(r, CalledBy(service, r.op))
  }

  /** A handler keeps its worker from entry to return, also while it blocks on a reply. */
  predicate Holding(pc: Pc) {
    !pc.Absent? && !pc.Queued? && !pc.Done?
  }

  function Holders(s: State, service: Service): set<nat> {
    set u | 0 <= u < |s.requests| && Holding(PcOf(s.requests[u], service))
  }

  function Init(c: Config): State {
    State(seq(|c.ops|, i requires 0 <= i < |c.ops| => Request(c.ops[i], Idle, Absent, Absent, Absent)),
          0, map[], [], [], [], [], [], [])
  }

  predicate HandlerReady(c: Config, s: State, service: Service, u: nat) {
    && u < |s.requests|
    && var r := s.requests[u];
       match PcOf(r, service)
       case Absent => false
       case Done(_) => false
       case Queued => |Holders(s, service)| < Workers(c, service)
       case Called => c.sync ==> Downstream(r, service).Done?
       case Slept => service == Database || Downstream(r, service).Done?
       case _ => true
  }

  predicate ClientReady(s: State, u: nat) {
    && u < |s.requests|
    && !s.requests[u].client.Finished?
    && (s.requests[u].client.Waiting? ==> s.requests[u].message.Done?)
  }

  predicate Ready(c: Config, s: State, a: Action) {
    match a
    case Tick(_) => true
    case ClientStep(u) => ClientReady(s, u)
    case HandlerStep(service, u) => HandlerReady(c, s, service, u)
  }

  function Put(s: State, u: nat, r: Request): State
    requires u < |s.requests|
  {
    s.(requests := s.requests[u := r])
  }

  function Log(s: State, service: Service, e: Entry): State {
    match service
    case MessageService => s.(messageLog := s.messageLog + [e])
    case Sanitizer => s.(sanitizerLog := s.sanitizerLog + [e])
    case Database => s.(databaseLog := s.databaseLog + [e])
  }

  /** The first statement after the start entry: the database sleeps, the sanitizer
      filters before it calls, the message service calls. */
  function Begin(s: State, service: Service, u: nat): State
    requires u < |s.requests|
  {
    var r := s.requests[u];
    if service == Database then Put(s, u, r.(database := Slept))
    else if service == Sanitizer && r.op.Send? && Filter.RegexMatch(r.op.message) then
      Put(s, u, r.(sanitizer := Done(Status(false)))).(order := s.order + [u])
    else
      Put(s, u, SetPc(SetPc(r, service, Called), CalledBy(service, r.op), Queued))
  }

  /** The database's first access to its map: a send assigns; a find looks whether the user is there. */
  function Access(s: State, u: nat): State
    requires u < |s.requests|
  {
    var r := s.requests[u];
    match r.op
    case Find(user) =>
      if user in s.board then Put(s, u, r.(database := Found))
      else Put(s, u, r.(database := Answered(Text(Warning(user))))).(order := s.order + [u])
    case Send(user, message) =>
      Put(s, u, r.(database := Answered(Status(true)))).(board := s.board[user := message], order := s.order + [u])
  }

  /** The second access of a find. The map's index operator would insert an empty message for an absent user. */
  function ReadFound(s: State, u: nat): State
    requires u < |s.requests|
  {
    var r := s.requests[u];
    var user := r.op.user;
    var board := if user in s.board then s.board else s.board[user := ""];
    Put(s, u, r.(database := Answered(Text(board[user])))).(board := board, order := s.order + [u])
  }

  function StepHandler(c: Config, s: State, service: Service, u: nat): State
    requires HandlerReady(c, s, service, u)
  {
    var r := s.requests[u];
    match PcOf(r, service)
    case Queued => Put(s, u, SetPc(r, service, Entered))
    case Entered => Put(s, u, SetPc(r, service, StartRead(s.now)))
    case StartRead(t) => Log(Put(s, u, SetPc(r, service, Started)), service, Entry(u, t))
    case Started => Begin(s, service, u)
    case Called =>
      Put(s, u, SetPc(r, service, if c.sync then Got(Downstream(r, service).reply) else Slept))
    case Slept =>
      if service == Database then Access(s, u)
      else Put(s, u, SetPc(r, service, Answered(Downstream(r, service).reply)))
    case Found => if service == Database then ReadFound(s, u) else s
    case Got(reply) => Put(s, u, SetPc(r, service, Answered(reply)))
    case Answered(reply) => Put(s, u, SetPc(r, service, EndRead(s.now, reply)))
    case EndRead(t, reply) => Log(Put(s, u, SetPc(r, service, Done(reply))), service, Entry(u, t))
  }

  function StepClient(s: State, u: nat): State
    requires ClientReady(s, u)
  {
    var r := s.requests[u];
    match r.client
    case Idle => Put(s, u, r.(client := SendRead(s.now)))
    case SendRead(t) => Put(s, u, r.(client := Logged)).(clientLog := s.clientLog + [Entry(u, t)])
    case Logged => Put(s, u, r.(client := Waiting, message := Queued)).(history := s.history + [Invoke(u)])
    case Waiting =>
      Put(s, u, r.(client := Replied(r.message.reply))).(history := s.history + [Respond(u, r.message.reply)])
    case Replied(reply) => Put(s, u, r.(client := ReplyRead(s.now, reply)))
    case ReplyRead(t, reply) => Put(s, u, r.(client := Finished(reply))).(clientLog := s.clientLog + [Entry(u, t)])
  }

  function Next(c: Config, s: State, a: Action): State
    requires Ready(c, s, a)
  {
    match a
    case Tick(elapsed) => s.(now := s.now + elapsed)
    case ClientStep(u) => StepClient(s, u)
    case HandlerStep(service, u) => StepHandler(c, s, service, u)
  }

  /** The state an interleaving leads to, or None when one of its actions could not happen. */
  function Run(c: Config, actions: seq<Action>): Option<State> {
    if actions == [] then Some(Init(c))
    else match Run(c, actions[..|actions| - 1])
      case None => None
      case Some(s) =>
        var a := actions[|actions| - 1];
        if Ready(c, s, a) then Some(Next(c, s, a)) else None
  }
}
