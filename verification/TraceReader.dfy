// The offline reader of the trace logs (treat_data), and what it makes of the pipeline's logs.
module TraceReader {
  import opened Board
  import opened Pipeline
  import opened Wrappers
  import opened Linearizability
  import opened Spans
  import opened QueryUid
  import Csv
  import Ring = ServerStats

  /** One line of the table: the trace of one query in one log; times in milliseconds. */
  datatype Trace = Trace(client: bv64, index: bv64, start: real, end: Option<real>)

  /** The times of a query, in file order. Sorting the table is without effect in the original: its result is dropped. */
  function Occurrences(rows: seq<Ring.Row>, uid: nat): seq<nat> {
    if rows == [] then []
    else
      var row := rows[|rows| - 1];
      Occurrences(rows[..|rows| - 1], uid) + if row.query == uid then [row.time] else []
  }

  function Earliest(rows: seq<Ring.Row>): nat
    requires rows != []
  {
    var last := rows[|rows| - 1].time;
    if |rows| == 1 then last
    else
      var rest := Earliest(rows[..|rows| - 1]);
      if last < rest then last else rest
  }

  function Scaled(time: nat, timeStart: nat): real {
    (time as real - timeStart as real) / 1000.0
  }

  /** The group of one query: first occurrence and, if there is one, second occurrence. */
  function TraceOf(rows: seq<Ring.Row>, uid: nat, timeStart: nat): Trace
    requires Occurrences(rows, uid) != []
  {
    var times := Occurrences(rows, uid);
    Trace(ClientPart(Word(uid)), QueryIndex(Word(uid)), Scaled(times[0], timeStart),
          if |times| < 2 then None else Some(Scaled(times[1], timeStart)))
  }

  lemma {:induction false} QueriesOccur(rows: seq<Ring.Row>, uid: nat)
    ensures Occurrences(rows, uid) != [] <==> exists k | 0 <= k < |rows| :: rows[k].query == uid
  {
    if rows != [] {
      var front := rows[..|rows| - 1];
      QueriesOccur(front, uid);
      if k :| 0 <= k < |rows| && rows[k].query == uid {
        if k < |front| { assert front[k].query == uid; }
      }
    }
  }

  function Queries(rows: seq<Ring.Row>): set<nat> {
    set k | 0 <= k < |rows| :: rows[k].query
  }

  /** The table of one log, relative to a start time. */
  function TreatData(rows: seq<Ring.Row>, timeStart: nat): (table: map<nat, Trace>)
    ensures table.Keys == Queries(rows)
  {
    map uid | uid in Queries(rows) :: (QueriesOccur(rows, uid); TraceOf(rows, uid, timeStart))
  }

  /** A file of the manager read back as rows. */
  function ReadRows(text: string): seq<Ring.Row> {
    var matrix := Csv.Parse(text);
    seq(|matrix|, i requires 0 <= i < |matrix| =>
      if |matrix[i]| == 2 then Ring.Row(matrix[i][0], matrix[i][1]) else Ring.Row(0, 0))
  }

  // ----- the logs of a run, as files -----

  /** The rows that the entries of a log became, under the identifiers of the queries. */
  function Identified(log: seq<Entry>, ids: seq<bv64>): seq<Ring.Row> {
    seq(|log|, i requires 0 <= i < |log| => Ring.Row(IdOf(ids, log[i].query), log[i].time))
  }

  function IdOf(ids: seq<bv64>, u: nat): nat {
    if u < |ids| then ids[u] as nat else 0
  }

  /** What the manager's destructor leaves in the file it erased at the start. */
  function FileOf(rows: seq<Ring.Row>, pageSize: nat): string
    requires rows != [] ==> pageSize > 0
  {
    Csv.Print(Ring.Rows(Ring.CurrentEntries(rows, pageSize)))
  }

  lemma FileReadsBack(rows: seq<Ring.Row>, pageSize: nat)
    requires |rows| <= pageSize
    ensures ReadRows(FileOf(rows, pageSize)) == rows
  {
    Ring.DumpedFileReadsAsLog(rows, pageSize);
  }

  /** The life of one service's log, from an erased file to the end of the process. */
  method LeaveFile(files: Csv.Files, filename: string, rows: seq<Ring.Row>, pageSize: nat, buffers: nat, overwrite: bool)
    requires 0 < pageSize <= Ring.UINT32_MAX && 0 < buffers <= Ring.UINT32_MAX && filename != ""
    modifies files
    ensures files.content.Keys == old(files.content).Keys + {filename}
    ensures forall other | other in old(files.content) && other != filename ::
      files.content[other] == old(files.content)[other]
    ensures files.content[filename] == FileOf(rows, pageSize)
    ensures |rows| <= pageSize ==> ReadRows(files.content[filename]) == rows
  {
    Ring.Lifetime(files, filename, rows, pageSize, buffers, overwrite);
    if |rows| <= pageSize { FileReadsBack(rows, pageSize); }
  }

  lemma SameNumberSameWord(x: bv64, y: bv64)
    ensures x as nat == y as nat <==> x == y
  {
    WordOfNumber(x);
    WordOfNumber(y);
  }

  predicate Injective(ids: seq<bv64>) {
    forall u, v | 0 <= u < v < |ids| :: ids[u] != ids[v]
  }

  /** Identifiers issued by clients that number their queries below 2^28 are distinct as long as no
      client gives a number twice. */
  lemma IssuedIdsAreInjective(clients: seq<bv64>, numbers: seq<bv64>, ids: seq<bv64>)
    requires |clients| == |numbers| == |ids|
    requires forall u | 0 <= u < |ids| ::
      LowBitsFree(clients[u]) && numbers[u] <= INDEX_MASK && ids[u] == GetQueryUid(clients[u], numbers[u])
    requires forall u, v | 0 <= u < v < |ids| :: clients[u] != clients[v] || numbers[u] != numbers[v]
    ensures Injective(ids)
  {
    forall u, v | 0 <= u < v < |ids| ensures ids[u] != ids[v] {
      FirstQueriesAreUnique(clients[u], numbers[u], clients[v], numbers[v]);
    }
  }

  /** Under distinct identifiers a query is found exactly where it was logged. */
  lemma {:induction false} OccurrencesAreTimes(log: seq<Entry>, ids: seq<bv64>, u: nat)
    requires forall k | 0 <= k < |log| :: log[k].query < |ids|
    requires Injective(ids) && u < |ids|
    ensures Occurrences(Identified(log, ids), IdOf(ids, u)) == Times(log, u)
  {
    if log != [] {
      var front, e := log[..|log| - 1], log[|log| - 1];
      OccurrencesAreTimes(front, ids, u);
      var rows := Identified(log, ids);
      assert rows[..|rows| - 1] == Identified(front, ids);
      SameNumberSameWord(ids[u], ids[e.query]);
    }
  }

  /** Log entries name queries of the run. */
  ghost predicate LogsInv(c: Config, s: State) {
    && (forall k | 0 <= k < |s.clientLog| :: s.clientLog[k].query < |c.ops|)
    && (forall k | 0 <= k < |s.messageLog| :: s.messageLog[k].query < |c.ops|)
    && (forall k | 0 <= k < |s.sanitizerLog| :: s.sanitizerLog[k].query < |c.ops|)
    && (forall k | 0 <= k < |s.databaseLog| :: s.databaseLog[k].query < |c.ops|)
  }

  lemma StepKeepsLogs(c: Config, s: State, a: Action)
    requires RequestsInv(c, s) && LogsInv(c, s) && Ready(c, s, a)
    ensures LogsInv(c, Next(c, s, a))
  {
    match a
    case Tick(_) =>
    case ClientStep(u) => ClientLogsGrow(s, u);
    case HandlerStep(service, u) =>
      HandlerLogMove(c, s, service, u);
      HandlerLeavesOtherLogs(c, s, service, u);
  }

  lemma ClientLogsGrow(s: State, u: nat)
    requires ClientReady(s, u)
    ensures var s' := StepClient(s, u);
      && s'.messageLog == s.messageLog && s'.sanitizerLog == s.sanitizerLog && s'.databaseLog == s.databaseLog
      && (s'.clientLog == s.clientLog || exists t :: s'.clientLog == s.clientLog + [Entry(u, t)])
  {
  }

  lemma HandlerLeavesOtherLogs(c: Config, s: State, service: Service, u: nat)
    requires RequestsInv(c, s) && HandlerReady(c, s, service, u)
    ensures forall at | at != service :: LogOf(StepHandler(c, s, service, u), at) == LogOf(s, at)
  {
    forall at | at != service ensures LogOf(StepHandler(c, s, service, u), at) == LogOf(s, at) {
      HandlerLeavesOthers(c, s, service, u, at);
    }
  }

  lemma {:induction false} ReachableLogs(c: Config, actions: seq<Action>)
    requires Run(c, actions).Some?
    ensures LogsInv(c, Run(c, actions).value)
  {
    if actions != [] {
      var before := actions[..|actions| - 1];
      ReachableLogs(c, before);
      ReachableInv(c, before);
      StepKeepsLogs(c, Run(c, before).value, actions[|actions| - 1]);
    }
  }

  // ----- reconstruction -----

  /** The table the reader makes of the file a service left. */
  function Table(log: seq<Entry>, ids: seq<bv64>, pageSize: nat, timeStart: nat): map<nat, Trace>
    requires |log| <= pageSize
  {
    TreatData(ReadRows(FileOf(Identified(log, ids), pageSize)), timeStart)
  }

  /** A table shows exactly these times for a query: in milliseconds after the start, the first one as the start of its
      trace and the second one, if there is one, as its end; under the client part and the number of its identifier. */
  predicate Shows(table: map<nat, Trace>, id: nat, uid: bv64, times: seq<nat>, timeStart: nat) {
    && (id in table <==> times != [])
    && (id in table ==>
         && table[id].client == uid >> 28 && table[id].index == uid & 0xFFFFFFF
         && 1000.0 * table[id].start + timeStart as real == times[0] as real
         && (table[id].end.Some? <==> |times| >= 2)
         && (table[id].end.Some? ==> 1000.0 * table[id].end.value + timeStart as real == times[1] as real))
  }

  /** Through ring, file, reader and grouping, a query's logged times arrive as its start and end;
      a query that was not logged has no line. */
  lemma TableRecoversTimes(log: seq<Entry>, ids: seq<bv64>, pageSize: nat, timeStart: nat, u: nat)
    requires forall k | 0 <= k < |log| :: log[k].query < |ids|
    requires |log| <= pageSize && Injective(ids) && u < |ids|
    ensures Shows(Table(log, ids, pageSize, timeStart), IdOf(ids, u), ids[u], Times(log, u), timeStart)
  {
    var rows := Identified(log, ids);
    FileReadsBack(rows, pageSize);
    OccurrencesAreTimes(log, ids, u);
    QueriesOccur(rows, IdOf(ids, u));
    WordOfNumber(ids[u]);
  }

  /** The zero of the time axis: the earliest time in the client's log. */
  function ClientStart(rows: seq<Ring.Row>): nat {
    if rows == [] then 0 else Earliest(rows)
  }

  /** It is the time of some entry, and none is earlier. */
  lemma {:induction false} EarliestIsEarliest(rows: seq<Ring.Row>)
    requires rows != []
    ensures exists k | 0 <= k < |rows| :: rows[k].time == ClientStart(rows)
    ensures forall k | 0 <= k < |rows| :: ClientStart(rows) <= rows[k].time
  {
    var last := |rows| - 1;
    if last > 0 {
      var front := rows[..last];
      EarliestIsEarliest(front);
      var k :| 0 <= k < |front| && front[k].time == ClientStart(front);
      assert rows[k].time == ClientStart(front);
      assert forall m | 0 <= m < last :: rows[m] == front[m];
    }
    assert rows[last].time == rows[|rows| - 1].time;
  }

  /** The times of a query are the times of its rows. */
  lemma {:induction false} OccursExactly(rows: seq<Ring.Row>, uid: nat, time: nat)
    ensures time in Occurrences(rows, uid) <==> Ring.Row(uid, time) in rows
  {
    if rows != [] {
      var last := |rows| - 1;
      OccursExactly(rows[..last], uid, time);
      assert rows == rows[..last] + [rows[last]];
    }
  }

  lemma StartIsAtMost(rows: seq<Ring.Row>, uid: nat)
    ensures forall time | time in Occurrences(rows, uid) :: ClientStart(rows) <= time
  {
    forall time | time in Occurrences(rows, uid) ensures ClientStart(rows) <= time {
      OccursExactly(rows, uid, time);
      EarliestIsEarliest(rows);
    }
  }

  /** The inner trace lies inside the outer one. */
  predicate Within(outer: Trace, inner: Trace) {
    && outer.start <= inner.start
    && outer.end.Some?
    && (if inner.end.Some? then inner.start <= inner.end.value <= outer.end.value else inner.start <= outer.end.value)
  }

  lemma ShownWithin(outer: map<nat, Trace>, inner: map<nat, Trace>, id: nat, uid: bv64, timeStart: nat,
                    outerTimes: seq<nat>, innerTimes: seq<nat>)
    requires Shows(outer, id, uid, outerTimes, timeStart) && Shows(inner, id, uid, innerTimes, timeStart)
    requires |outerTimes| == 2 && 1 <= |innerTimes| <= 2 && Inside(outerTimes, innerTimes) && InOrder(innerTimes)
    ensures id in outer && id in inner && Within(outer[id], inner[id])
  {
  }

  ghost predicate FitOnePage(s: State, pageSize: nat) {
    |s.clientLog| <= pageSize && |s.messageLog| <= pageSize && |s.sanitizerLog| <= pageSize && |s.databaseLog| <= pageSize
  }

  predicate IsFinished(s: State, u: nat) {
    u < |s.requests| && s.requests[u].client.Finished?
  }

  /** The tables of the four logs, and the times the logs hold for one query. */
  datatype FourTables = FourTables(client: map<nat, Trace>, message: map<nat, Trace>,
                                   sanitizer: map<nat, Trace>, database: map<nat, Trace>)

  datatype FourTimes = FourTimes(client: seq<nat>, message: seq<nat>, sanitizer: seq<nat>, database: seq<nat>)

  function Tables(s: State, ids: seq<bv64>, pageSize: nat): FourTables
    requires FitOnePage(s, pageSize)
  {
    var timeStart := ClientStart(Identified(s.clientLog, ids));
    FourTables(Table(s.clientLog, ids, pageSize, timeStart), Table(s.messageLog, ids, pageSize, timeStart),
               Table(s.sanitizerLog, ids, pageSize, timeStart), Table(s.databaseLog, ids, pageSize, timeStart))
  }

  function Logged(s: State, u: nat): FourTimes {
    FourTimes(Times(s.clientLog, u), Times(s.messageLog, u), Times(s.sanitizerLog, u), Times(s.databaseLog, u))
  }

  /** So do all four, on an axis that starts no later than the client's times. */
  predicate AllShow(tables: FourTables, id: nat, uid: bv64, times: FourTimes, timeStart: nat) {
    && Shows(tables.client, id, uid, times.client, timeStart) && Shows(tables.message, id, uid, times.message, timeStart)
    && Shows(tables.sanitizer, id, uid, times.sanitizer, timeStart)
    && Shows(tables.database, id, uid, times.database, timeStart)
    && (forall k | 0 <= k < |times.client| :: timeStart <= times.client[k])
  }

  predicate AllNested(op: Op, times: FourTimes) {
    Nested(op, times.client, times.message, times.sanitizer, times.database)
  }

  /** The axis starts no later than any client time. */
  lemma AxisIsNotLate(log: seq<Entry>, ids: seq<bv64>, u: nat)
    requires Injective(ids) && u < |ids| && forall k | 0 <= k < |log| :: log[k].query < |ids|
    ensures forall k | 0 <= k < |Times(log, u)| :: ClientStart(Identified(log, ids)) <= Times(log, u)[k]
  {
    StartIsAtMost(Identified(log, ids), IdOf(ids, u));
    OccurrencesAreTimes(log, ids, u);
    assert forall k | 0 <= k < |Times(log, u)| :: Times(log, u)[k] in Times(log, u);
  }

  /** Every log of a run, read back, shows the times of a query. */
  lemma LogsAreShown(c: Config, s: State, ids: seq<bv64>, pageSize: nat, u: nat, timeStart: nat)
    requires LogsInv(c, s) && FitOnePage(s, pageSize) && |ids| == |c.ops| && Injective(ids) && u < |c.ops|
    ensures var id, times := IdOf(ids, u), Logged(s, u);
      && Shows(Table(s.clientLog, ids, pageSize, timeStart), id, ids[u], times.client, timeStart)
      && Shows(Table(s.messageLog, ids, pageSize, timeStart), id, ids[u], times.message, timeStart)
      && Shows(Table(s.sanitizerLog, ids, pageSize, timeStart), id, ids[u], times.sanitizer, timeStart)
      && Shows(Table(s.databaseLog, ids, pageSize, timeStart), id, ids[u], times.database, timeStart)
  {
    TableRecoversTimes(s.clientLog, ids, pageSize, timeStart, u);
    TableRecoversTimes(s.messageLog, ids, pageSize, timeStart, u);
    TableRecoversTimes(s.sanitizerLog, ids, pageSize, timeStart, u);
    TableRecoversTimes(s.databaseLog, ids, pageSize, timeStart, u);
  }

  /** The tables show what the logs hold, on an axis that starts at the first client time. */
  lemma TablesShowTimes(c: Config, actions: seq<Action>, ids: seq<bv64>, pageSize: nat, u: nat)
    requires Run(c, actions).Some? && FitOnePage(Run(c, actions).value, pageSize)
    requires |ids| == |c.ops| && Injective(ids) && u < |c.ops|
    ensures var s := Run(c, actions).value;
      AllShow(Tables(s, ids, pageSize), IdOf(ids, u), ids[u], Logged(s, u), ClientStart(Identified(s.clientLog, ids)))
  {
    var s := Run(c, actions).value;
    ReachableLogs(c, actions);
    LogsAreShown(c, s, ids, pageSize, u, ClientStart(Identified(s.clientLog, ids)));
    AxisIsNotLate(s.clientLog, ids, u);
  }

  /** The lines of one query in the four tables: exactly the services it went through, one span inside the
      other. A rejected send has a sanitizer line without an end and no database line. */
  predicate Reconstructed(op: Op, id: nat, tables: FourTables) {
    var FourTables(client, message, sanitizer, database) := tables;
    && id in client && id in message && 0.0 <= client[id].start && Within(client[id], message[id])
    && (id in sanitizer <==> op.Send?) && (id in database <==> !IsRejected(op))
    && (id in sanitizer ==> (sanitizer[id].end == None <==> IsRejected(op)) && Within(message[id], sanitizer[id]))
    && (id in database ==> database[id].end.Some? && Within(if op.Send? then sanitizer[id] else message[id], database[id]))
  }

  /** Main result: when no log outgrows a page and identifiers are not reused, the reader's tables show, for
      every finished query of every run, the nested spans of what happened, and no time is negative. */
  lemma FinishedQueriesAreReconstructed(c: Config, actions: seq<Action>, ids: seq<bv64>, pageSize: nat, u: nat)
    requires Run(c, actions).Some? && FitOnePage(Run(c, actions).value, pageSize)
    requires |ids| == |c.ops| && Injective(ids) && u < |c.ops|
    requires IsFinished(Run(c, actions).value, u)
    ensures Reconstructed(c.ops[u], IdOf(ids, u), Tables(Run(c, actions).value, ids, pageSize))
  {
    var s := Run(c, actions).value;
    LoggedSpansAreNested(c, actions, u);
    TablesShowTimes(c, actions, ids, pageSize, u);
    NestedTimesReconstruct(c.ops[u], ids[u], IdOf(ids, u), ClientStart(Identified(s.clientLog, ids)),
                           Logged(s, u), Tables(s, ids, pageSize));
  }

  lemma NestedTimesReconstruct(op: Op, uid: bv64, id: nat, timeStart: nat, times: FourTimes, tables: FourTables)
    requires AllNested(op, times) && AllShow(tables, id, uid, times, timeStart)
    requires |times.client| == |times.message| == 2
    requires |times.sanitizer| == (if op.Find? then 0 else if IsRejected(op) then 1 else 2)
    requires |times.database| == (if IsRejected(op) then 0 else 2)
    ensures Reconstructed(op, id, tables)
  {
    ShownWithin(tables.client, tables.message, id, uid, timeStart, times.client, times.message);
    if op.Find? {
      ShownWithin(tables.message, tables.database, id, uid, timeStart, times.message, times.database);
    } else {
      ShownWithin(tables.message, tables.sanitizer, id, uid, timeStart, times.message, times.sanitizer);
      if !IsRejected(op) {
        ShownWithin(tables.sanitizer, tables.database, id, uid, timeStart, times.sanitizer, times.database);
      }
    }
  }

  /** What a table shows of a query does not run backwards, nor before the zero of the axis. */
  predicate Forward(table: map<nat, Trace>, id: nat) {
    id in table ==> 0.0 <= table[id].start && (table[id].end.Some? ==> table[id].start <= table[id].end.value)
  }

  /** The inner trace, as far as there is one, lies inside the outer one as far as that goes. */
  predicate Encloses(outer: map<nat, Trace>, inner: map<nat, Trace>, id: nat) {
    id in inner ==>
      && id in outer && outer[id].start <= inner[id].start
      && (outer[id].end.Some? ==> inner[id].start <= outer[id].end.value)
      && (outer[id].end.Some? && inner[id].end.Some? ==> inner[id].end.value <= outer[id].end.value)
  }

  /** The lines of one query, at any moment of its way through the services. */
  predicate PartlyReconstructed(op: Op, id: nat, tables: FourTables) {
    && Forward(tables.client, id) && Forward(tables.message, id)
    && Forward(tables.sanitizer, id) && Forward(tables.database, id)
    && Encloses(tables.client, tables.message, id)
    && (if op.Find? then id !in tables.sanitizer && Encloses(tables.message, tables.database, id)
        else
          && Encloses(tables.message, tables.sanitizer, id)
          && if IsRejected(op) then id !in tables.database && (id in tables.sanitizer ==> tables.sanitizer[id].end == None)
             else Encloses(tables.sanitizer, tables.database, id))
  }

  lemma ShownEncloses(outer: map<nat, Trace>, inner: map<nat, Trace>, id: nat, uid: bv64, timeStart: nat,
                      outerTimes: seq<nat>, innerTimes: seq<nat>)
    requires Shows(outer, id, uid, outerTimes, timeStart) && Shows(inner, id, uid, innerTimes, timeStart)
    requires Inside(outerTimes, innerTimes) && InOrder(innerTimes) && Forward(outer, id)
    ensures Encloses(outer, inner, id) && Forward(inner, id)
  {
  }

  lemma NestedTimesPartly(op: Op, uid: bv64, id: nat, timeStart: nat, times: FourTimes, tables: FourTables)
    requires AllNested(op, times) && AllShow(tables, id, uid, times, timeStart)
    ensures PartlyReconstructed(op, id, tables)
  {
    assert Forward(tables.client, id);
    ShownEncloses(tables.client, tables.message, id, uid, timeStart, times.client, times.message);
    if op.Find? {
      ShownEncloses(tables.message, tables.database, id, uid, timeStart, times.message, times.database);
    } else {
      ShownEncloses(tables.message, tables.sanitizer, id, uid, timeStart, times.message, times.sanitizer);
      if !IsRejected(op) {
        ShownEncloses(tables.sanitizer, tables.database, id, uid, timeStart, times.sanitizer, times.database);
      }
    }
  }

  /** Finished or not: whatever the tables show of a query is nested and not negative. */
  lemma AllQueriesArePartlyReconstructed(c: Config, actions: seq<Action>, ids: seq<bv64>, pageSize: nat, u: nat)
    requires Run(c, actions).Some? && FitOnePage(Run(c, actions).value, pageSize)
    requires |ids| == |c.ops| && Injective(ids) && u < |c.ops|
    ensures PartlyReconstructed(c.ops[u], IdOf(ids, u), Tables(Run(c, actions).value, ids, pageSize))
  {
    var s := Run(c, actions).value;
    LoggedSpansAreNested(c, actions, u);
    TablesShowTimes(c, actions, ids, pageSize, u);
    NestedTimesPartly(c.ops[u], ids[u], IdOf(ids, u), ClientStart(Identified(s.clientLog, ids)),
                      Logged(s, u), Tables(s, ids, pageSize));
  }

  /** The query of the earliest entry starts at it. */
  lemma EarliestEntryIsAStart(table: map<nat, Trace>, id: nat, uid: bv64, times: seq<nat>, timeStart: nat)
    requires Shows(table, id, uid, times, timeStart) && timeStart in times
    requires InOrder(times) && |times| <= 2 && forall k | 0 <= k < |times| :: timeStart <= times[k]
    ensures id in table && table[id].start == 0.0
  {
    assert times[0] == timeStart;
  }

  lemma ClientTimesInOrder(c: Config, actions: seq<Action>, u: nat)
    requires Run(c, actions).Some? && u < |c.ops|
    ensures var times := Times(Run(c, actions).value.clientLog, u); InOrder(times) && |times| <= 2
  {
    LoggedSpansAreNested(c, actions, u);
  }

  lemma EarliestIsLogged(log: seq<Entry>, ids: seq<bv64>) returns (u: nat)
    requires log != [] && Injective(ids) && forall k | 0 <= k < |log| :: log[k].query < |ids|
    ensures u < |ids| && ClientStart(Identified(log, ids)) in Times(log, u)
  {
    var rows := Identified(log, ids);
    EarliestIsEarliest(rows);
    var k :| 0 <= k < |rows| && rows[k].time == ClientStart(rows);
    u := log[k].query;
    OccursExactly(rows, IdOf(ids, u), rows[k].time);
    OccurrencesAreTimes(log, ids, u);
  }

  /** Some client trace starts at exactly zero. */
  lemma AxisStartsAtFirstTrace(c: Config, actions: seq<Action>, ids: seq<bv64>, pageSize: nat)
    requires Run(c, actions).Some? && FitOnePage(Run(c, actions).value, pageSize)
    requires |ids| == |c.ops| && Injective(ids) && Run(c, actions).value.clientLog != []
    ensures var table := Tables(Run(c, actions).value, ids, pageSize).client;
      exists u | 0 <= u < |c.ops| :: IdOf(ids, u) in table && table[IdOf(ids, u)].start == 0.0
  {
    var s := Run(c, actions).value;
    ReachableLogs(c, actions);
    var u := EarliestIsLogged(s.clientLog, ids);
    TablesShowTimes(c, actions, ids, pageSize, u);
    ClientTimesInOrder(c, actions, u);
    EarliestEntryIsAStart(Tables(s, ids, pageSize).client, IdOf(ids, u), ids[u], Times(s.clientLog, u),
                          ClientStart(Identified(s.clientLog, ids)));
  }
}
