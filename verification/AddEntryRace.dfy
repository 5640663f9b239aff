// Several threads in ServerStatsManager::add_entry at once. The bound check and the
// reset run outside the lock, the two writes and the increment inside it. Each read or
// write of the shared cursor is one step; a schedule says which thread moves next.
module AddEntryRace {
  import Ring = ServerStats

  const UINT32_MAX: nat := Ring.UINT32_MAX

  /** The cursor is a 32-bit number and wraps around. */
  function Successor(cursor: nat): nat {
    if cursor < UINT32_MAX then cursor + 1 else 0
  }

  /** Whether "entry_cursor += 1" is one step, or a load and a store. */
  datatype Increment = OneStep | LoadThenStore

  datatype Config = Config(entryCount: nat, bufferCount: nat, threads: nat, increment: Increment)

  datatype Pc =
    | Idle                  // outside add_entry; the next step calls it and makes the bound check
    | Resetting             // saw a full page
    | Advancing             // cursor reset, buffer not yet advanced
    | Past                  // wants the lock
    | Locked                // writes the identifier next
    | WroteId               // writes the time next
    | Wrote                 // increments next
    | Loaded(cursor: nat)   // stores the increment next
    | Incremented           // releases the lock next

  /** touched lists the row index of every write. */
  datatype State = State(pcs: seq<Pc>, cursor: nat, active: nat, locked: bool, touched: seq<nat>)

  predicate Sensible(c: Config) {
    1 <= c.entryCount <= UINT32_MAX && 1 <= c.bufferCount <= UINT32_MAX && c.threads >= 1
  }

  function Init(c: Config): State {
    State(seq(c.threads, i => Idle), 0, 0, false, [])
  }

  function Put(s: State, t: nat, pc: Pc): State
    requires t < |s.pcs|
  {
    s.(pcs := s.pcs[t := pc])
  }

  /** The next step of thread t; a thread that wants a lock that is taken stays where it is. */
  function Step(c: Config, s: State, t: nat): State
    requires Sensible(c)
  {
    if t >= |s.pcs| then s
    else match s.pcs[t]
      case Idle => Put(s, t, if s.cursor >= c.entryCount then Resetting else Past)
      case Resetting => Put(s, t, Advancing).(cursor := 0)
      case Advancing => Put(s, t, Past).(active := (s.active + 1) % c.bufferCount)
      case Past => if s.locked then s else Put(s, t, Locked).(locked := true)
      case Locked => Put(s, t, WroteId).(touched := s.touched + [s.cursor])
      case WroteId => Put(s, t, Wrote).(touched := s.touched + [s.cursor])
      case Wrote =>
        if c.increment.OneStep? then Put(s, t, Incremented).(cursor := Successor(s.cursor))
        else Put(s, t, Loaded(s.cursor))
      case Loaded(cursor) => Put(s, t, Incremented).(cursor := Successor(cursor))
      case Incremented => Put(s, t, Idle).(locked := false)
  }

  function Execute(c: Config, schedule: seq<nat>): State
    requires Sensible(c)
  {
    if schedule == [] then Init(c)
    else Step(c, Execute(c, schedule[..|schedule| - 1]), schedule[|schedule| - 1])
  }

  ghost predicate Touches(c: Config, schedule: seq<nat>, row: nat)
    requires Sensible(c)
  {
    row in Execute(c, schedule).touched
  }

  /** No schedule writes beyond the given row. */
  ghost predicate NeverBeyond(c: Config, row: int)
    requires Sensible(c)
  {
    forall schedule: seq<nat>, k: nat | Touches(c, schedule, k) :: k <= row
  }

  // ----- the bound -----

  /** The thread has passed the check, or reset the cursor, and has not incremented yet. */
  predicate WillWrite(pc: Pc) {
    pc.Advancing? || pc.Past? || pc.Locked? || pc.WroteId? || pc.Wrote? || pc.Loaded?
  }

  function Writers(pcs: seq<Pc>): nat {
    if pcs == [] then 0
    else Writers(pcs[..|pcs| - 1]) + if WillWrite(pcs[|pcs| - 1]) then 1 else 0
  }

  lemma {:induction false} WritersUpdate(pcs: seq<Pc>, t: nat, pc: Pc)
    requires t < |pcs|
    ensures Writers(pcs[t := pc])
      == Writers(pcs) - (if WillWrite(pcs[t]) then 1 else 0) + (if WillWrite(pc) then 1 else 0)
    ensures Writers(pcs) <= |pcs|
    ensures WillWrite(pcs[t]) ==> Writers(pcs) >= 1
    ensures !WillWrite(pcs[t]) ==> Writers(pcs) < |pcs|
  {
    var last := |pcs| - 1;
    if t == last {
      assert pcs[t := pc][..last] == pcs[..last];
      if last > 0 { WritersUpdate(pcs[..last], 0, pcs[0]); }
    } else {
      WritersUpdate(pcs[..last], t, pc);
      assert pcs[t := pc][..last] == pcs[..last][t := pc];
    }
  }

  /** Cursor plus writers under way stay within a page plus the other threads. */
  predicate BoundInv(c: Config, s: State) {
    && |s.pcs| == c.threads
    && s.cursor + Writers(s.pcs) <= c.entryCount - 1 + c.threads
    && (forall t | 0 <= t < |s.pcs| && s.pcs[t].Loaded? :: c.threads == 1 && s.pcs[t].cursor == s.cursor)
    && (forall k | 0 <= k < |s.touched| :: s.touched[k] <= c.entryCount + c.threads - 2)
  }

  lemma StepKeepsBound(c: Config, s: State, t: nat)
    requires Sensible(c) && (c.increment.OneStep? || c.threads == 1) && BoundInv(c, s)
    ensures BoundInv(c, Step(c, s, t))
  {
    if t < |s.pcs| {
      WritersUpdate(s.pcs, t, Step(c, s, t).pcs[t]);
    }
  }

  lemma {:induction false} NobodyWrites(pcs: seq<Pc>)
    requires forall t | 0 <= t < |pcs| :: pcs[t].Idle?
    ensures Writers(pcs) == 0
  {
    if pcs != [] { NobodyWrites(pcs[..|pcs| - 1]); }
  }

  lemma {:induction false} BoundHolds(c: Config, schedule: seq<nat>)
    requires Sensible(c) && (c.increment.OneStep? || c.threads == 1)
    ensures BoundInv(c, Execute(c, schedule))
  {
    if schedule == [] {
      NobodyWrites(Init(c).pcs);
    } else {
      BoundHolds(c, schedule[..|schedule| - 1]);
      StepKeepsBound(c, Execute(c, schedule[..|schedule| - 1]), schedule[|schedule| - 1]);
    }
  }

  // ----- schedules that go beyond -----

  ghost predicate Reachable(c: Config, s: State)
    requires Sensible(c)
  {
    exists schedule :: Execute(c, schedule) == s
  }

  lemma ReachStep(c: Config, s: State, t: nat)
    requires Sensible(c) && Reachable(c, s)
    ensures Reachable(c, Step(c, s, t))
  {
    var schedule :| Execute(c, schedule) == s;
    assert (schedule + [t])[..|schedule|] == schedule;
    assert Execute(c, schedule + [t]) == Step(c, s, t);
  }

  /** A thread past the check takes the free lock and writes its row. */
  lemma WriteRow(c: Config, s: State, t: nat) returns (s': State)
    requires Sensible(c) && Reachable(c, s) && t < |s.pcs| && s.pcs[t].Past? && !s.locked
    ensures Reachable(c, s')
    ensures s' == State(s.pcs[t := Wrote], s.cursor, s.active, true, s.touched + [s.cursor, s.cursor])
  {
    var s1 := Step(c, s, t);
    var s2 := Step(c, s1, t);
    s' := Step(c, s2, t);
    ReachStep(c, s, t);
    ReachStep(c, s1, t);
    ReachStep(c, s2, t);
    assert s'.pcs == s.pcs[t := Wrote];
    assert s'.touched == s.touched + [s.cursor, s.cursor];
  }

  /** It then increments undisturbed and leaves. */
  lemma FinishAdd(c: Config, s: State, t: nat) returns (s': State)
    requires Sensible(c) && Reachable(c, s) && t < |s.pcs| && s.pcs[t].Wrote? && s.locked && s.cursor < UINT32_MAX
    ensures Reachable(c, s')
    ensures s' == State(s.pcs[t := Idle], s.cursor + 1, s.active, false, s.touched)
  {
    var s1 := Step(c, s, t);
    ReachStep(c, s, t);
    var s2 := s1;
    if c.increment.LoadThenStore? {
      s2 := Step(c, s1, t);
      ReachStep(c, s1, t);
    }
    s' := Step(c, s2, t);
    ReachStep(c, s2, t);
    assert s'.pcs == s.pcs[t := Idle];
  }

  predicate AllIdle(s: State) {
    !s.locked && forall t | 0 <= t < |s.pcs| :: s.pcs[t].Idle?
  }

  /** One thread alone fills the page. */
  lemma {:induction false} FillUpTo(c: Config, n: nat) returns (s: State)
    requires Sensible(c) && n < c.entryCount
    ensures Reachable(c, s) && |s.pcs| == c.threads && AllIdle(s) && s.cursor == n
  {
    if n == 0 {
      s := Init(c);
      assert Execute(c, []) == s;
    } else {
      var s0 := FillUpTo(c, n - 1);
      ReachStep(c, s0, 0);
      var s1 := WriteRow(c, Step(c, s0, 0), 0);
      s := FinishAdd(c, s1, 0);
    }
  }

  /** Two threads pass the check for the last row of the page; the second one writes past the end. */
  lemma TwoThreadsPassTheEnd(c: Config) returns (s: State)
    requires Sensible(c) && c.threads >= 2
    ensures Reachable(c, s) && |s.pcs| == c.threads && c.entryCount in s.touched
    ensures s.cursor == c.entryCount && s.locked && s.pcs[0].Idle? && s.pcs[1].Wrote?
  {
    var s0 := FillUpTo(c, c.entryCount - 1);
    var s1 := Step(c, s0, 0);
    var s2 := Step(c, s1, 1);
    ReachStep(c, s0, 0);
    ReachStep(c, s1, 1);
    var s3 := WriteRow(c, s2, 0);
    var s4 := FinishAdd(c, s3, 0);
    s := WriteRow(c, s4, 1);
    assert s.touched[|s4.touched|] == c.entryCount;
  }

  /** With a torn increment: while thread a holds a loaded value, thread b resets the full page,
      a stores the old value plus one, and b writes there. The roles then swap. */
  lemma Pump(c: Config, s: State, a: nat, b: nat) returns (s': State)
    requires Sensible(c) && c.increment.LoadThenStore? && Reachable(c, s)
    requires a < |s.pcs| && b < |s.pcs| && a != b
    requires s.locked && s.pcs[a] == Loaded(s.cursor) && s.pcs[b].Idle? && c.entryCount <= s.cursor < UINT32_MAX
    ensures Reachable(c, s') && |s'.pcs| == |s.pcs|
    ensures s'.locked && s'.pcs[b] == Loaded(s'.cursor) && s'.pcs[a].Idle?
    ensures s'.cursor == s.cursor + 1 && s'.cursor in s'.touched
  {
    var s1 := Step(c, s, b);
    var s2 := Step(c, s1, b);
    var s3 := Step(c, s2, b);
    ReachStep(c, s, b);
    ReachStep(c, s1, b);
    ReachStep(c, s2, b);
    assert s3.pcs[b].Past? && s3.pcs[a] == Loaded(s.cursor) && s3.cursor == 0 && s3.locked;
    var s4 := Step(c, s3, a);
    var s5 := Step(c, s4, a);
    ReachStep(c, s3, a);
    ReachStep(c, s4, a);
    assert s5.pcs[b].Past? && s5.pcs[a].Idle? && s5.cursor == s.cursor + 1 && !s5.locked;
    var s6 := WriteRow(c, s5, b);
    s' := Step(c, s6, b);
    ReachStep(c, s6, b);
    assert s'.touched[|s5.touched|] == s'.cursor;
  }

  /** With a torn increment and two threads, every 32-bit row number past the page is written in some schedule. */
  lemma {:induction false} TornIncrementReachesAnyRow(c: Config, extra: nat) returns (s: State, a: nat, b: nat)
    requires Sensible(c) && c.increment.LoadThenStore? && c.threads >= 2 && c.entryCount + extra <= UINT32_MAX
    ensures Reachable(c, s) && |s.pcs| == c.threads && a < c.threads && b < c.threads && a != b
    ensures s.locked && s.pcs[a] == Loaded(s.cursor) && s.pcs[b].Idle?
    ensures s.cursor == c.entryCount + extra && s.cursor in s.touched
  {
    if extra == 0 {
      var s0 := TwoThreadsPassTheEnd(c);
      a, b := 1, 0;
      s := Step(c, s0, 1);
      ReachStep(c, s0, 1);
    } else {
      var s0, a0, b0 := TornIncrementReachesAnyRow(c, extra - 1);
      s := Pump(c, s0, a0, b0);
      a, b := b0, a0;
    }
  }

  /** One row is left, and k threads have made the check. */
  lemma {:induction false} PassTogether(c: Config, k: nat) returns (s: State)
    requires Sensible(c) && k <= c.threads
    ensures Reachable(c, s) && |s.pcs| == c.threads && !s.locked && s.cursor == c.entryCount - 1
    ensures forall t | 0 <= t < c.threads :: s.pcs[t] == if t < k then Past else Idle
  {
    if k == 0 {
      s := FillUpTo(c, c.entryCount - 1);
    } else {
      var s0 := PassTogether(c, k - 1);
      s := Step(c, s0, k - 1);
      ReachStep(c, s0, k - 1);
    }
  }

  /** After all have passed, the first k of them write, one after the other. */
  lemma {:induction false} WriteInTurn(c: Config, k: nat) returns (s: State)
    requires Sensible(c) && k < c.threads && c.entryCount + k - 1 <= UINT32_MAX
    ensures Reachable(c, s) && |s.pcs| == c.threads && !s.locked && s.cursor == c.entryCount - 1 + k
    ensures forall t | k <= t < c.threads :: s.pcs[t].Past?
  {
    if k == 0 {
      s := PassTogether(c, c.threads);
    } else {
      var s0 := WriteInTurn(c, k - 1);
      var s1 := WriteRow(c, s0, k - 1);
      s := FinishAdd(c, s1, k - 1);
    }
  }

  lemma ReachableTouches(c: Config, s: State, row: nat)
    requires Sensible(c) && Reachable(c, s) && row in s.touched
    ensures exists schedule :: Touches(c, schedule, row)
  {
    var schedule :| Execute(c, schedule) == s;
    assert Touches(c, schedule, row);
  }

  lemma {:induction false} RowsAre32Bit(c: Config, schedule: seq<nat>)
    requires Sensible(c)
    ensures Execute(c, schedule).cursor <= UINT32_MAX
    ensures forall k | k in Execute(c, schedule).touched :: k <= UINT32_MAX
  {
    if schedule != [] { RowsAre32Bit(c, schedule[..|schedule| - 1]); }
  }

  // ----- the theorems on rows -----

  /** The rows written stay below entryCount + threads - 1 exactly when the increment is one step, or there is a
      single caller, or no 32-bit number is beyond anyway. */
  lemma SlotBoundHoldsExactly(c: Config)
    requires Sensible(c)
    ensures NeverBeyond(c, c.entryCount + c.threads - 2)
      <==> c.increment.OneStep? || c.threads == 1 || c.entryCount + c.threads - 2 >= UINT32_MAX
  {
    if c.increment.OneStep? || c.threads == 1 {
      forall schedule: seq<nat>, k: nat | Touches(c, schedule, k) ensures k <= c.entryCount + c.threads - 2 {
        BoundHolds(c, schedule);
      }
    } else if c.entryCount + c.threads - 2 >= UINT32_MAX {
      forall schedule: seq<nat>, k: nat | Touches(c, schedule, k) ensures k <= c.entryCount + c.threads - 2 {
        RowsAre32Bit(c, schedule);
      }
    } else {
      NoBoundForTornIncrement(c, c.entryCount + c.threads - 2);
    }
  }

  /** And the bound is the least one: in either build some schedule writes that last row. */
  lemma SlotBoundIsReached(c: Config)
    requires Sensible(c) && c.entryCount + c.threads - 2 <= UINT32_MAX
    ensures !NeverBeyond(c, c.entryCount + c.threads - 3)
  {
    var s0 := WriteInTurn(c, c.threads - 1);
    var s := WriteRow(c, s0, c.threads - 1);
    assert s.touched[|s0.touched|] == s0.cursor;
    ReachableTouches(c, s, c.entryCount + c.threads - 2);
  }

  /** Every write lands in the page, under every schedule, exactly when there is a single caller. */
  lemma InBoundsExactlyForOneCaller(c: Config)
    requires Sensible(c)
    ensures NeverBeyond(c, c.entryCount - 1) <==> c.threads == 1
  {
    if c.threads == 1 {
      SlotBoundHoldsExactly(c);
    } else {
      var s := TwoThreadsPassTheEnd(c);
      ReachableTouches(c, s, c.entryCount);
    }
  }

  /** With a torn increment and a second caller, nothing but the width of the cursor bounds the writes. */
  lemma NoBoundForTornIncrement(c: Config, row: nat)
    requires Sensible(c) && c.increment.LoadThenStore? && c.threads >= 2
    ensures NeverBeyond(c, row) <==> row >= UINT32_MAX
  {
    if row < UINT32_MAX {
      var s, _, _ := TornIncrementReachesAnyRow(c, if row < c.entryCount then 0 else row + 1 - c.entryCount);
      ReachableTouches(c, s, s.cursor);
    } else {
      forall schedule: seq<nat>, k: nat | Touches(c, schedule, k) ensures k <= row { RowsAre32Bit(c, schedule); }
    }
  }
}
