// The handlers of the three services as they are written, one request at a time: what a
// request does to the database, to the answer and to the trace logs, in the blocking build
// (call, then sleep) and in the other (sleep while the call is under way). Module Pipeline
// interleaves them; both are measured against module Board.
module Handlers {
  import opened Board
  import opened ServerStats
  import Filter

  /** The shared clock; it never runs backwards. */
  class Clock {
    var now: nat

    constructor ()
    {
      now := 0;
    }

    method Read() returns (t: nat)
      modifies this
      ensures old(now) <= t == now
    {
      t :| t >= now;
      now := t;
    }

    method Sleep(duration: nat)
      modifies this
      ensures now >= old(now) + duration
    {
      WaitUntil(now + duration);
    }

    method WaitUntil(time: nat)
      modifies this
      ensures now >= old(now) && now >= time
    {
      if now < time {
        now := time;
      }
      var _ := Read();
    }

    /** The fake task of a handler whose call was issued at a given time and has been answered. */
    method FakeTask(sync: bool, issued: nat, duration: nat)
      requires issued <= now
      modifies this
      ensures now >= old(now) && now >= issued + duration
      ensures sync ==> now >= old(now) + duration
    {
      if sync {
        Sleep(duration);
      } else {
        WaitUntil(issued + duration);
      }
    }
  }

  /** The log grew by one entry for the query, stamped between lo and hi. */
  predicate LoggedOnce(before: seq<Row>, after: seq<Row>, uid: nat, lo: nat, hi: nat) {
    && |after| == |before| + 1 && after[..|before|] == before
    && after[|before|].query == uid && lo <= after[|before|].time <= hi
  }

  /** The log grew by a start and, at least so much later, an end for the query, stamped between lo and hi. */
  predicate LoggedTwice(before: seq<Row>, after: seq<Row>, uid: nat, lo: nat, hi: nat, atLeast: nat) {
    && |after| == |before| + 2 && after[..|before|] == before
    && after[|before|].query == uid == after[|before| + 1].query
    && lo <= after[|before|].time && after[|before|].time + atLeast <= after[|before| + 1].time <= hi
  }

  /** The time of the last entry. In the blocking build a handler ends at least its fake task later than the one it called. */
  function LastTime(log: seq<Row>): nat {
    if log == [] then 0 else log[|log| - 1].time
  }

  class MockDatabase {
    const manager: ServerStatsManager
    const waitingTime: nat
    var lastMessages: Messages

    ghost predicate Valid()
      reads this, manager, manager.dataBuffers
    {
      manager.Valid() && manager.entryCount > 0 && manager.bufferCount > 0
    }

    constructor (manager: ServerStatsManager, waitingTime: nat := 5000)
      requires manager.Valid() && manager.entryCount > 0 && manager.bufferCount > 0
      ensures Valid() && lastMessages == map[] && this.manager == manager && this.waitingTime == waitingTime
    {
      this.manager := manager;
      this.waitingTime := waitingTime;
      this.lastMessages := map[];
    }

    method FindLastMessage(clock: Clock, user: string, uid: nat) returns (result: string)
      requires Valid()
      modifies this, manager, manager.dataBuffers, clock
      ensures Valid() && manager.dataBuffers == old(manager.dataBuffers) && clock.now >= old(clock.now)
      ensures (lastMessages, Text(result)) == Apply(old(lastMessages), Find(user))
      ensures lastMessages == old(lastMessages)
      ensures result == if user in lastMessages then lastMessages[user]
        else "WARNING: This user " + user + " didn't post any message or doesn't exist..."
      ensures LoggedTwice(old(manager.log), manager.log, uid, old(clock.now), clock.now, waitingTime)
    {
      var t := clock.Read();
      manager.AddEntry(uid, t);
      clock.Sleep(waitingTime);
      if user !in lastMessages {
        result := "WARNING: This user " + user + " didn't post any message or doesn't exist...";
      } else {
        result := lastMessages[user];
      }
      t := clock.Read();
      manager.AddEntry(uid, t);
    }

    method StoreMessage(clock: Clock, user: string, message: string, uid: nat) returns (ok: bool)
      requires Valid()
      modifies this, manager, manager.dataBuffers, clock
      ensures Valid() && manager.dataBuffers == old(manager.dataBuffers) && clock.now >= old(clock.now)
      ensures ok && lastMessages == old(lastMessages)[user := message]
      ensures LoggedTwice(old(manager.log), manager.log, uid, old(clock.now), clock.now, waitingTime)
    {
      var t := clock.Read();
      manager.AddEntry(uid, t);
      clock.Sleep(waitingTime);
      lastMessages := lastMessages[user := message];
      t := clock.Read();
      manager.AddEntry(uid, t);
      ok := true;
    }
  }

  class Sanitizer {
    const manager: ServerStatsManager
    const database: MockDatabase
    const waitingTime: nat
    const sync: bool

    ghost predicate Valid()
      reads this, manager, manager.dataBuffers, database, database.manager, database.manager.dataBuffers
    {
      && manager.Valid() && manager.entryCount > 0 && manager.bufferCount > 0
      && database.Valid() && manager != database.manager && manager.dataBuffers != database.manager.dataBuffers
    }

    constructor (manager: ServerStatsManager, database: MockDatabase, waitingTime: nat := 1000, sync: bool := false)
      requires manager.Valid() && manager.entryCount > 0 && manager.bufferCount > 0
      requires database.Valid() && manager != database.manager && manager.dataBuffers != database.manager.dataBuffers
      ensures Valid() && this.manager == manager && this.database == database
      ensures this.waitingTime == waitingTime && this.sync == sync
    {
      this.manager := manager;
      this.database := database;
      this.waitingTime := waitingTime;
      this.sync := sync;
    }

    /** A rejected message is logged once and goes no further. */
    method SanitizeMessage(clock: Clock, user: string, message: string, uid: nat) returns (ok: bool)
      requires Valid()
      modifies manager, manager.dataBuffers, database, database.manager, database.manager.dataBuffers, clock
      ensures Valid() && clock.now >= old(clock.now)
      ensures manager.dataBuffers == old(manager.dataBuffers)
      ensures database.manager.dataBuffers == old(database.manager.dataBuffers)
      ensures (database.lastMessages, Status(ok)) == Apply(old(database.lastMessages), Send(user, message))
      ensures ok <==> !Filter.Rejected(message)
      ensures database.lastMessages == if ok then old(database.lastMessages)[user := message] else old(database.lastMessages)
      ensures if ok then LoggedTwice(old(manager.log), manager.log, uid, old(clock.now), clock.now, waitingTime)
                         && LoggedTwice(old(database.manager.log), database.manager.log, uid,
                                        manager.log[|manager.log| - 2].time, manager.log[|manager.log| - 1].time,
                                        database.waitingTime)
        else LoggedOnce(old(manager.log), manager.log, uid, old(clock.now), clock.now)
             && database.manager.log == old(database.manager.log)
      ensures ok && sync ==> LastTime(database.manager.log) + waitingTime <= LastTime(manager.log)
    {
      Filter.RegexMatchMeaning(message);
      var t := clock.Read();
      manager.AddEntry(uid, t);
      if Filter.RegexMatch(message) {
        return false;
      }
      var issued := clock.now;
      ok := database.StoreMessage(clock, user, message, uid);
      clock.FakeTask(sync, issued, waitingTime);
      t := clock.Read();
      manager.AddEntry(uid, t);
    }
  }

  class MessageService {
    const manager: ServerStatsManager
    const sanitizer: Sanitizer
    const database: MockDatabase
    const waitingTime: nat
    const sync: bool

    ghost predicate Valid()
      reads this, manager, manager.dataBuffers, database, database.manager, database.manager.dataBuffers
      reads sanitizer, sanitizer.manager, sanitizer.manager.dataBuffers
    {
      && manager.Valid() && manager.entryCount > 0 && manager.bufferCount > 0
      && sanitizer.database == database && sanitizer.Valid()
      && manager != database.manager && manager.dataBuffers != database.manager.dataBuffers
      && manager != sanitizer.manager && manager.dataBuffers != sanitizer.manager.dataBuffers
    }

    constructor (manager: ServerStatsManager, sanitizer: Sanitizer, database: MockDatabase,
                 waitingTime: nat := 1000, sync: bool := false)
      requires manager.Valid() && manager.entryCount > 0 && manager.bufferCount > 0
      requires sanitizer.database == database && sanitizer.Valid()
      requires manager != database.manager && manager.dataBuffers != database.manager.dataBuffers
      requires manager != sanitizer.manager && manager.dataBuffers != sanitizer.manager.dataBuffers
      ensures Valid() && this.manager == manager && this.sanitizer == sanitizer && this.database == database
      ensures this.waitingTime == waitingTime && this.sync == sync
    {
      this.manager := manager;
      this.sanitizer := sanitizer;
      this.database := database;
      this.waitingTime := waitingTime;
      this.sync := sync;
    }

    method FindLastMessage(clock: Clock, user: string, uid: nat) returns (message: string, queryUid: nat)
      requires Valid()
      modifies manager, manager.dataBuffers, database, database.manager, database.manager.dataBuffers, clock
      ensures Valid() && clock.now >= old(clock.now) && queryUid == uid
      ensures (database.lastMessages, Text(message)) == Apply(old(database.lastMessages), Find(user))
      ensures database.lastMessages == old(database.lastMessages)
      ensures message == if user in database.lastMessages then database.lastMessages[user]
        else "WARNING: This user " + user + " didn't post any message or doesn't exist..."
      ensures LoggedTwice(old(manager.log), manager.log, uid, old(clock.now), clock.now, waitingTime)
      ensures LoggedTwice(old(database.manager.log), database.manager.log, uid,
                          manager.log[|manager.log| - 2].time, manager.log[|manager.log| - 1].time, database.waitingTime)
      ensures sync ==> LastTime(database.manager.log) + waitingTime <= LastTime(manager.log)
    {
      var t := clock.Read();
      manager.AddEntry(uid, t);
      var issued := clock.now;
      message := database.FindLastMessage(clock, user, uid);
      clock.FakeTask(sync, issued, waitingTime);
      queryUid := uid;
      t := clock.Read();
      manager.AddEntry(uid, t);
    }

    method SendMessage(clock: Clock, user: string, message: string, uid: nat) returns (ok: bool, queryUid: nat)
      requires Valid()
      modifies manager, manager.dataBuffers, sanitizer.manager, sanitizer.manager.dataBuffers
      modifies database, database.manager, database.manager.dataBuffers, clock
      ensures Valid() && clock.now >= old(clock.now) && queryUid == uid
      ensures (database.lastMessages, Status(ok)) == Apply(old(database.lastMessages), Send(user, message))
      ensures ok <==> !Filter.Rejected(message)
      ensures database.lastMessages == if ok then old(database.lastMessages)[user := message] else old(database.lastMessages)
      ensures LoggedTwice(old(manager.log), manager.log, uid, old(clock.now), clock.now, waitingTime)
      ensures
        var (from, to) := (manager.log[|manager.log| - 2].time, manager.log[|manager.log| - 1].time);
        if ok then LoggedTwice(old(sanitizer.manager.log), sanitizer.manager.log, uid, from, to, sanitizer.waitingTime)
                   && LoggedTwice(old(database.manager.log), database.manager.log, uid,
                                  sanitizer.manager.log[|sanitizer.manager.log| - 2].time,
                                  sanitizer.manager.log[|sanitizer.manager.log| - 1].time, database.waitingTime)
        else LoggedOnce(old(sanitizer.manager.log), sanitizer.manager.log, uid, from, to)
             && database.manager.log == old(database.manager.log)
      ensures sync ==> LastTime(sanitizer.manager.log) + waitingTime <= LastTime(manager.log)
    {
      var t := clock.Read();
      manager.AddEntry(uid, t);
      var issued := clock.now;
      ok := sanitizer.SanitizeMessage(clock, user, message, uid);
      clock.FakeTask(sync, issued, waitingTime);
      queryUid := uid;
      t := clock.Read();
      manager.AddEntry(uid, t);
    }
  }
}
