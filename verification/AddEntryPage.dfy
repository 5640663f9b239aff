// What concurrent add_entry calls leave in memory while they fit one page: the same as calls
// made one after the other, in the order in which they got the lock. This is what lets the
// pipeline and the reader of the logs take an append as one step.
module AddEntryPage {
  import opened AddEntryRace
  import opened Wrappers
  import opened Arithmetic
  import Ring = ServerStats

  /** The number-th call of a thread. */
  datatype Call = Call(thread: nat, number: nat)

  datatype Slot = Slot(buffer: nat, row: nat)

  /** The state of the race, the calls each thread has begun and all together, the two columns of the
      buffers as far as they were written, who has the lock, and the calls in the order in which they got it. */
  datatype Memory = Memory(state: State, calls: seq<nat>, begun: nat, ids: map<Slot, nat>, times: map<Slot, nat>,
                           holder: Option<nat>, order: seq<Call>)

  /** The call a thread is in. */
  function Current(m: Memory, t: nat): Call
    requires t < |m.calls|
  {
    Call(t, if m.calls[t] == 0 then 0 else m.calls[t] - 1)
  }

  function Here(s: State): Slot {
    Slot(s.active, s.cursor)
  }

  /** One step of thread t, with the data it carries. */
  function Move(c: Config, entry: Call -> Ring.Row, m: Memory, t: nat): Memory
    requires Sensible(c) && |m.calls| == |m.state.pcs|
  {
    var s' := Step(c, m.state, t);
    if t >= |m.calls| then m
    else match m.state.pcs[t]
      case Idle => m.(state := s', calls := m.calls[t := m.calls[t] + 1], begun := m.begun + 1)
      case Past => if m.state.locked then m else m.(state := s', holder := Some(t), order := m.order + [Current(m, t)])
      case Locked => m.(state := s', ids := m.ids[Here(m.state) := entry(Current(m, t)).query])
      case WroteId => m.(state := s', times := m.times[Here(m.state) := entry(Current(m, t)).time])
      case Incremented => m.(state := s', holder := None)
      case _ => m.(state := s')
  }

  function Execution(c: Config, entry: Call -> Ring.Row, schedule: seq<nat>): (m: Memory)
    requires Sensible(c)
    ensures m.state == Execute(c, schedule) && |m.calls| == |m.state.pcs| == c.threads
  {
    if schedule == [] then Memory(Init(c), seq(c.threads, i => 0), 0, map[], map[], None, [])
    else Move(c, entry, Execution(c, entry, schedule[..|schedule| - 1]), schedule[|schedule| - 1])
  }

  function Get(column: map<Slot, nat>, slot: Slot): nat {
    if slot in column then column[slot] else 0
  }

  function Stored(m: Memory, slot: Slot): Ring.Row {
    Ring.Row(Get(m.ids, slot), Get(m.times, slot))
  }

  // ----- the invariant while the calls fit the page -----

  predicate InLock(pc: Pc) {
    pc.Locked? || pc.WroteId? || pc.Wrote? || pc.Loaded? || pc.Incremented?
  }

  /** The thread that has the lock is the one that is inside. */
  ghost predicate LockInv(m: Memory) {
    && m.state.locked == m.holder.Some?
    && (m.holder.Some? ==> m.holder.value < |m.state.pcs|)
    && forall t | 0 <= t < |m.state.pcs| :: InLock(m.state.pcs[t]) <==> m.holder == Some(t)
  }

  /** Every call is before the cursor or on its way. */
  predicate CountInv(m: Memory) {
    m.state.cursor + Writers(m.state.pcs) == m.begun
  }

  /** Nobody sees a full page. */
  ghost predicate PageInv(c: Config, s: State) {
    && s.active == 0
    && (forall t | 0 <= t < |s.pcs| :: !s.pcs[t].Resetting? && !s.pcs[t].Advancing?)
    && (forall t | 0 <= t < |s.pcs| && s.pcs[t].Loaded? :: s.pcs[t].cursor == s.cursor)
    && (forall k | 0 <= k < |s.touched| :: s.touched[k] < c.entryCount)
  }

  ghost predicate RaceInv(c: Config, m: Memory) {
    |m.calls| == |m.state.pcs| == c.threads && LockInv(m) && CountInv(m) && PageInv(c, m.state)
  }

  /** Calls of one thread that got the lock. */
  function Taken(m: Memory, t: nat): nat
    requires t < |m.calls| == |m.state.pcs|
  {
    if m.state.pcs[t].Past? && m.calls[t] > 0 then m.calls[t] - 1 else m.calls[t]
  }

  /** The order lists the calls that got the lock, those of one thread in turn. */
  ghost predicate OrderInv(m: Memory)
    requires |m.calls| == |m.state.pcs|
  {
    && (forall t | 0 <= t < |m.calls| && !m.state.pcs[t].Idle? :: m.calls[t] > 0)
    && (forall call :: call in m.order <==> call.thread < |m.calls| && call.number < Taken(m, call.thread))
    && InTurn(m.order)
  }

  predicate InTurn(order: seq<Call>) {
    forall p, q | 0 <= p < q < |order| && order[p].thread == order[q].thread :: order[p].number < order[q].number
  }

  /** What the thread with the lock has done so far. */
  ghost predicate HolderInv(entry: Call -> Ring.Row, m: Memory)
    requires |m.calls| == |m.state.pcs|
  {
    match m.holder
    case None => |m.order| == m.state.cursor
    case Some(t) =>
      && t < |m.calls|
      && var pc := m.state.pcs[t];
         if pc.Incremented? then |m.order| == m.state.cursor
         else
           && |m.order| == m.state.cursor + 1 && m.order[m.state.cursor] == Current(m, t)
           && (!pc.Locked? ==> Get(m.ids, Slot(0, m.state.cursor)) == entry(Current(m, t)).query)
           && (!pc.Locked? && !pc.WroteId? ==> Get(m.times, Slot(0, m.state.cursor)) == entry(Current(m, t)).time)
  }

  /** The rows before the cursor hold the entries in lock order, and rows that nobody came to are untouched. */
  ghost predicate DataInv(entry: Call -> Ring.Row, m: Memory)
  {
    && |m.calls| == |m.state.pcs|
    && HolderInv(entry, m) && m.state.cursor <= |m.order|
    && (forall i | 0 <= i < m.state.cursor :: Stored(m, Slot(0, i)) == entry(m.order[i]))
    && (forall slot | slot in m.ids || slot in m.times :: slot.buffer == 0 && slot.row < |m.order|)
  }

  lemma MoveKeepsLock(c: Config, entry: Call -> Ring.Row, m: Memory, t: nat)
    requires Sensible(c) && |m.calls| == |m.state.pcs| && LockInv(m)
    ensures LockInv(Move(c, entry, m, t))
  {
  }

  /** A thread on its way finds room in the page. */
  lemma RoomInPage(c: Config, m: Memory, t: nat)
    requires CountInv(m) && m.begun <= c.entryCount && t < |m.state.pcs| && WillWrite(m.state.pcs[t])
    ensures m.state.cursor < c.entryCount
  {
    WritersUpdate(m.state.pcs, t, Idle);
  }

  /** A call that begins is one more on its way; an increment moves one from there to the rows before the cursor. */
  lemma StepCounts(c: Config, s: State, t: nat)
    requires Sensible(c) && PageInv(c, s) && t < |s.pcs|
    requires s.pcs[t].Idle? || WillWrite(s.pcs[t]) ==> s.cursor < c.entryCount
    ensures var s' := Step(c, s, t);
      s'.cursor + Writers(s'.pcs) == s.cursor + Writers(s.pcs) + if s.pcs[t].Idle? then 1 else 0
  {
    var pc := Step(c, s, t).pcs[t];
    WritersUpdate(s.pcs, t, pc);
    assert Step(c, s, t).pcs == s.pcs[t := pc];
  }

  lemma MoveKeepsCount(c: Config, entry: Call -> Ring.Row, m: Memory, t: nat)
    requires Sensible(c) && |m.calls| == |m.state.pcs| && CountInv(m) && PageInv(c, m.state)
    requires Move(c, entry, m, t).begun <= c.entryCount
    ensures CountInv(Move(c, entry, m, t))
  {
    if t < |m.calls| {
      if WillWrite(m.state.pcs[t]) { RoomInPage(c, m, t); }
      StepCounts(c, m.state, t);
    }
  }

  lemma StepKeepsPage(c: Config, s: State, t: nat)
    requires Sensible(c) && PageInv(c, s) && t < |s.pcs|
    requires s.pcs[t].Idle? || WillWrite(s.pcs[t]) ==> s.cursor < c.entryCount
    requires s.pcs[t].Wrote? || s.pcs[t].Loaded? ==> forall u | 0 <= u < |s.pcs| && u != t :: !s.pcs[u].Loaded?
    ensures PageInv(c, Step(c, s, t))
  {
  }

  lemma MoveKeepsRace(c: Config, entry: Call -> Ring.Row, m: Memory, t: nat)
    requires Sensible(c) && RaceInv(c, m) && Move(c, entry, m, t).begun <= c.entryCount
    ensures RaceInv(c, Move(c, entry, m, t))
  {
    MoveKeepsLock(c, entry, m, t);
    MoveKeepsCount(c, entry, m, t);
    if t < c.threads {
      if WillWrite(m.state.pcs[t]) { RoomInPage(c, m, t); }
      if InLock(m.state.pcs[t]) { OnlyHolderIsInside(m, t); }
      StepKeepsPage(c, m.state, t);
    }
  }

  lemma OnlyHolderIsInside(m: Memory, t: nat)
    requires LockInv(m) && t < |m.state.pcs| && InLock(m.state.pcs[t])
    ensures forall u | 0 <= u < |m.state.pcs| && u != t :: !InLock(m.state.pcs[u])
  {
  }

  /** Taking the lock appends to the order. */
  lemma TakingKeepsOrder(c: Config, entry: Call -> Ring.Row, m: Memory, t: nat)
    requires Sensible(c) && |m.calls| == |m.state.pcs| && OrderInv(m)
    requires t < |m.calls| && m.state.pcs[t].Past? && !m.state.locked
    ensures OrderInv(Move(c, entry, m, t))
  {
    var m' := Move(c, entry, m, t);
    forall call ensures call in m'.order <==> call.thread < |m'.calls| && call.number < Taken(m', call.thread) {
      assert call in m'.order <==> call in m.order || call == Current(m, t);
    }
    assert forall p | 0 <= p < |m.order| :: m.order[p] in m.order;
  }

  lemma OthersTakeNothing(c: Config, entry: Call -> Ring.Row, m: Memory, t: nat, u: nat)
    requires Sensible(c) && |m.calls| == |m.state.pcs| && PageInv(c, m.state) && u < |m.calls|
    requires forall v | 0 <= v < |m.calls| && !m.state.pcs[v].Idle? :: m.calls[v] > 0
    requires t < |m.calls| ==> !m.state.pcs[t].Past? || m.state.locked
    requires t < |m.calls| && m.state.pcs[t].Idle? ==> m.state.cursor < c.entryCount
    ensures var m' := Move(c, entry, m, t);
      && m'.order == m.order && Taken(m', u) == Taken(m, u) && (!m'.state.pcs[u].Idle? ==> m'.calls[u] > 0)
  {
  }

  /** No other step changes the order, nor which calls got the lock. */
  lemma OthersKeepOrder(c: Config, entry: Call -> Ring.Row, m: Memory, t: nat)
    requires Sensible(c) && RaceInv(c, m) && OrderInv(m) && Move(c, entry, m, t).begun <= c.entryCount
    requires t < |m.calls| ==> !m.state.pcs[t].Past? || m.state.locked
    ensures OrderInv(Move(c, entry, m, t))
  {
    if m.calls != [] { OthersTakeNothing(c, entry, m, t, 0); }
    var m' := Move(c, entry, m, t);
    forall u | 0 <= u < |m.calls| ensures Taken(m', u) == Taken(m, u) && (!m'.state.pcs[u].Idle? ==> m'.calls[u] > 0) {
      OthersTakeNothing(c, entry, m, t, u);
    }
  }

  lemma MoveKeepsOrder(c: Config, entry: Call -> Ring.Row, m: Memory, t: nat)
    requires Sensible(c) && RaceInv(c, m) && OrderInv(m) && Move(c, entry, m, t).begun <= c.entryCount
    ensures OrderInv(Move(c, entry, m, t))
  {
    if t < |m.calls| && m.state.pcs[t].Past? && !m.state.locked {
      TakingKeepsOrder(c, entry, m, t);
    } else {
      OthersKeepOrder(c, entry, m, t);
    }
  }

  /** The thread with the lock writes the row at the cursor, which then counts it. */
  lemma HolderKeepsData(c: Config, entry: Call -> Ring.Row, m: Memory, t: nat)
    requires Sensible(c) && RaceInv(c, m) && DataInv(entry, m) && m.begun <= c.entryCount && m.holder == Some(t)
    ensures DataInv(entry, Move(c, entry, m, t))
  {
    assert InLock(m.state.pcs[t]);
    if WillWrite(m.state.pcs[t]) { RoomInPage(c, m, t); }
  }

  lemma OthersKeepData(c: Config, entry: Call -> Ring.Row, m: Memory, t: nat)
    requires Sensible(c) && RaceInv(c, m) && DataInv(entry, m) && m.holder != Some(t)
    ensures DataInv(entry, Move(c, entry, m, t))
  {
    if t < |m.calls| { assert !InLock(m.state.pcs[t]); }
  }

  lemma MoveKeepsData(c: Config, entry: Call -> Ring.Row, m: Memory, t: nat)
    requires Sensible(c) && RaceInv(c, m) && DataInv(entry, m) && Move(c, entry, m, t).begun <= c.entryCount
    ensures DataInv(entry, Move(c, entry, m, t))
  {
    if m.holder == Some(t) { HolderKeepsData(c, entry, m, t); } else { OthersKeepData(c, entry, m, t); }
  }

  ghost predicate MemoryInv(c: Config, entry: Call -> Ring.Row, m: Memory) {
    RaceInv(c, m) && OrderInv(m) && DataInv(entry, m)
  }

  lemma MoveKeepsMemory(c: Config, entry: Call -> Ring.Row, m: Memory, t: nat)
    requires Sensible(c) && MemoryInv(c, entry, m) && Move(c, entry, m, t).begun <= c.entryCount
    ensures MemoryInv(c, entry, Move(c, entry, m, t))
  {
    MoveKeepsRace(c, entry, m, t);
    MoveKeepsOrder(c, entry, m, t);
    MoveKeepsData(c, entry, m, t);
  }

  lemma {:induction false} MemoryHolds(c: Config, entry: Call -> Ring.Row, schedule: seq<nat>)
    requires Sensible(c) && Execution(c, entry, schedule).begun <= c.entryCount
    ensures MemoryInv(c, entry, Execution(c, entry, schedule))
  {
    if schedule == [] {
      NobodyWrites(Init(c).pcs);
    } else {
      MemoryHolds(c, entry, schedule[..|schedule| - 1]);
      MoveKeepsMemory(c, entry, Execution(c, entry, schedule[..|schedule| - 1]), schedule[|schedule| - 1]);
    }
  }

  // ----- the theorem -----

  /** The entries in the order in which their calls got the lock. */
  function Log(entry: Call -> Ring.Row, order: seq<Call>): seq<Ring.Row> {
    seq(|order|, i requires 0 <= i < |order| => entry(order[i]))
  }

  /** A log that fits the first page lies there from the first row on. */
  lemma {:induction false} LatestOnOnePage(log: seq<Ring.Row>, pageSize: nat, buffers: nat, b: nat, i: nat)
    requires 0 < pageSize && 0 < buffers && |log| <= pageSize && i < pageSize
    ensures Ring.Latest(log, pageSize, buffers, b, i) == if b == 0 && i < |log| then log[i] else Ring.Row(0, 0)
  {
    if log != [] {
      var n := |log| - 1;
      LatestOnOnePage(log[..n], pageSize, buffers, b, i);
      Divide(0, n, pageSize);
      Divide(0, 0, buffers);
    }
  }

  /** What the manager holds is what calls made one after the other, in the order of the lock, would have left. */
  ghost predicate HoldsLog(c: Config, m: Memory, log: seq<Ring.Row>)
    requires Sensible(c)
  {
    && m.state.cursor == Ring.Cursor(|log|, c.entryCount)
    && m.state.active == Ring.ActiveBuffer(|log|, c.entryCount, c.bufferCount)
    && forall b, i | 0 <= b < c.bufferCount && 0 <= i < c.entryCount ::
         Stored(m, Slot(b, i)) == Ring.Latest(log, c.entryCount, c.bufferCount, b, i)
  }

  lemma FirstPage(n: nat, pageSize: nat, buffers: nat)
    requires n <= pageSize && 0 < pageSize && 0 < buffers
    ensures Ring.Cursor(n, pageSize) == n && Ring.ActiveBuffer(n, pageSize, buffers) == 0
  {
    if n > 0 {
      Divide(0, n - 1, pageSize);
      Divide(0, 0, buffers);
    }
  }

  /** With all threads outside, every call is in the order and before the cursor. */
  lemma EveryCallIsIn(c: Config, entry: Call -> Ring.Row, m: Memory)
    requires MemoryInv(c, entry, m) && AllIdle(m.state)
    ensures |m.order| == m.state.cursor == m.begun
    ensures forall call :: call in m.order <==> call.thread < c.threads && call.number < m.calls[call.thread]
  {
    NobodyWrites(m.state.pcs);
  }

  lemma PageHoldsLog(c: Config, entry: Call -> Ring.Row, m: Memory)
    requires Sensible(c) && m.state.active == 0 && |m.order| == m.state.cursor <= c.entryCount && DataInv(entry, m)
    ensures HoldsLog(c, m, Log(entry, m.order))
  {
    var log := Log(entry, m.order);
    FirstPage(|log|, c.entryCount, c.bufferCount);
    forall b, i | 0 <= b < c.bufferCount && 0 <= i < c.entryCount
      ensures Stored(m, Slot(b, i)) == Ring.Latest(log, c.entryCount, c.bufferCount, b, i)
    {
      LatestOnOnePage(log, c.entryCount, c.bufferCount, b, i);
    }
  }

  /** When the calls of all threads together fit one page then, whatever the schedule and the build, no write leaves
      the page and no thread resets it. Once the threads are outside again, the calls appear once each, those of a thread
      in turn, and the ring is in the state that the same calls leave one after the other. */
  lemma CallsOnOnePage(c: Config, entry: Call -> Ring.Row, schedule: seq<nat>)
    requires Sensible(c) && Execution(c, entry, schedule).begun <= c.entryCount
    ensures var m := Execution(c, entry, schedule);
      && (forall k | 0 <= k < |m.state.touched| :: m.state.touched[k] < c.entryCount)
      && (AllIdle(m.state) ==>
           && |m.order| == m.begun && InTurn(m.order)
           && (forall call :: call in m.order <==> call.thread < c.threads && call.number < m.calls[call.thread])
           && HoldsLog(c, m, Log(entry, m.order)))
  {
    var m := Execution(c, entry, schedule);
    MemoryHolds(c, entry, schedule);
    if AllIdle(m.state) {
      EveryCallIsIn(c, entry, m);
      PageHoldsLog(c, entry, m);
    }
  }

  // ----- one caller, any number of pages -----

  /** Every row of every buffer is what the log says. */
  ghost predicate RowsHold(c: Config, m: Memory, log: seq<Ring.Row>)
    requires Sensible(c)
  {
    forall b, i | 0 <= b < c.bufferCount && 0 <= i < c.entryCount ::
      Stored(m, Slot(b, i)) == Ring.Latest(log, c.entryCount, c.bufferCount, b, i)
  }

  ghost predicate CursorsAfter(c: Config, s: State, n: nat)
    requires Sensible(c)
  {
    s.cursor == Ring.Cursor(n, c.entryCount) && s.active == Ring.ActiveBuffer(n, c.entryCount, c.bufferCount)
  }

  /** Cursor and active buffer say where entry n goes. */
  ghost predicate CursorsAt(c: Config, s: State, n: nat)
    requires Sensible(c)
  {
    && s.cursor < c.entryCount && s.active < c.bufferCount
    && s.cursor + 1 == Ring.Cursor(n + 1, c.entryCount)
    && s.active == Ring.ActiveBuffer(n + 1, c.entryCount, c.bufferCount)
    && forall b, i :: Ring.BelongsAt(n, c.entryCount, c.bufferCount, b, i) <==> b == s.active && i == s.cursor
  }

  /** All rows but the one being written. */
  ghost predicate OtherRowsHold(c: Config, m: Memory, log: seq<Ring.Row>)
    requires Sensible(c)
  {
    forall b, i | 0 <= b < c.bufferCount && 0 <= i < c.entryCount && Slot(b, i) != Here(m.state) ::
      Stored(m, Slot(b, i)) == Ring.Latest(log, c.entryCount, c.bufferCount, b, i)
  }

  predicate CallsInTurn(order: seq<Call>) {
    forall k | 0 <= k < |order| :: order[k] == Call(0, k)
  }

  /** Where the only caller stands, and what is in memory then. */
  ghost predicate AloneInv(c: Config, entry: Call -> Ring.Row, m: Memory)
    requires Sensible(c)
  {
    && |m.calls| == |m.state.pcs| == 1 && CallsInTurn(m.order)
    && var s, log := m.state, Log(entry, m.order);
       && m.calls[0] == |m.order| + (if s.pcs[0].Resetting? || s.pcs[0].Advancing? || s.pcs[0].Past? then 1 else 0)
       && (s.locked <==> InLock(s.pcs[0]))
       && (InLock(s.pcs[0]) ==> log != [])
       && match s.pcs[0]
          case Idle => CursorsAfter(c, s, |log|) && RowsHold(c, m, log)
          case Resetting => CursorsAfter(c, s, |log|) && s.cursor >= c.entryCount && RowsHold(c, m, log)
          case Advancing => CursorsAfter(c, s.(cursor := c.entryCount), |log|) && s.cursor == 0 && RowsHold(c, m, log)
          case Past => CursorsAt(c, s, |log|) && RowsHold(c, m, log)
          case Locked => CursorsAt(c, s, |log| - 1) && RowsHold(c, m, log[..|log| - 1])
          case WroteId =>
            && CursorsAt(c, s, |log| - 1) && OtherRowsHold(c, m, log[..|log| - 1])
            && Get(m.ids, Here(s)) == log[|log| - 1].query
          case Wrote => CursorsAt(c, s, |log| - 1) && RowsHold(c, m, log)
          case Loaded(cursor) => cursor == s.cursor && CursorsAt(c, s, |log| - 1) && RowsHold(c, m, log)
          case Incremented => CursorsAfter(c, s, |log|) && RowsHold(c, m, log)
  }

  /** The bound check leads straight to the place of the next entry, or by way of the reset. */
  lemma CheckLeadsToPlace(c: Config, s: State, n: nat)
    requires Sensible(c) && CursorsAfter(c, s, n)
    ensures s.cursor <= c.entryCount
    ensures if s.cursor >= c.entryCount
      then CursorsAt(c, s.(cursor := 0, active := (s.active + 1) % c.bufferCount), n) else CursorsAt(c, s, n)
  {
    Ring.WrapLeadsToNextPlace(n, c.entryCount, c.bufferCount);
    Ring.CursorAtMost(n, c.entryCount);
  }

  /** Writing the second number of the new row completes it. */
  lemma RowIsComplete(c: Config, m: Memory, m': Memory, log: seq<Ring.Row>, row: Ring.Row)
    requires Sensible(c) && CursorsAt(c, m.state, |log|) && OtherRowsHold(c, m, log)
    requires Get(m.ids, Here(m.state)) == row.query && m'.ids == m.ids
    requires m'.times == m.times[Here(m.state) := row.time]
    ensures RowsHold(c, m', log + [row])
  {
    Ring.LatestAppend(log, row, c.entryCount, c.bufferCount, m.state.active, m.state.cursor);
  }

  lemma CheckKeepsAlone(c: Config, entry: Call -> Ring.Row, m: Memory)
    requires Sensible(c) && AloneInv(c, entry, m) && !InLock(m.state.pcs[0])
    ensures AloneInv(c, entry, Move(c, entry, m, 0))
  {
    var log, log' := Log(entry, m.order), Log(entry, Move(c, entry, m, 0).order);
    match m.state.pcs[0]
    case Idle => CheckLeadsToPlace(c, m.state, |log|);
    case Advancing => CheckLeadsToPlace(c, m.state.(cursor := c.entryCount), |log|);
    case Past => assert log'[..|log|] == log;
    case _ =>
  }

  lemma WriteKeepsAlone(c: Config, entry: Call -> Ring.Row, m: Memory)
    requires Sensible(c) && AloneInv(c, entry, m) && InLock(m.state.pcs[0])
    ensures AloneInv(c, entry, Move(c, entry, m, 0))
  {
    var m', log := Move(c, entry, m, 0), Log(entry, m.order);
    if m.state.pcs[0].WroteId? {
      RowIsComplete(c, m, m', log[..|log| - 1], log[|log| - 1]);
      assert log[..|log| - 1] + [log[|log| - 1]] == log;
    }
  }

  lemma MoveKeepsAlone(c: Config, entry: Call -> Ring.Row, m: Memory, t: nat)
    requires Sensible(c) && AloneInv(c, entry, m)
    ensures AloneInv(c, entry, Move(c, entry, m, t))
  {
    if t == 0 {
      if InLock(m.state.pcs[0]) { WriteKeepsAlone(c, entry, m); } else { CheckKeepsAlone(c, entry, m); }
    }
  }

  lemma {:induction false} AloneHolds(c: Config, entry: Call -> Ring.Row, schedule: seq<nat>)
    requires Sensible(c) && c.threads == 1
    ensures AloneInv(c, entry, Execution(c, entry, schedule))
  {
    if schedule != [] {
      AloneHolds(c, entry, schedule[..|schedule| - 1]);
      MoveKeepsAlone(c, entry, Execution(c, entry, schedule[..|schedule| - 1]), schedule[|schedule| - 1]);
    }
  }

  /** A single caller leaves the ring, page after page, as its calls in turn would one after the other. */
  lemma OneCallerKeepsTheRing(c: Config, entry: Call -> Ring.Row, schedule: seq<nat>)
    requires Sensible(c) && c.threads == 1 && AllIdle(Execution(c, entry, schedule).state)
    ensures var m := Execution(c, entry, schedule);
      |m.order| == m.calls[0] && CallsInTurn(m.order) && HoldsLog(c, m, Log(entry, m.order))
  {
    AloneHolds(c, entry, schedule);
  }
}
