// The trace log of a service: a ring of fixed pages, dumped to a file at the end.
module ServerStats {
  import opened Arithmetic
  import opened Csv

  const UINT32_MAX: nat := 0xFFFF_FFFF

  /** A query identifier and a clock value. */
  datatype Row = Row(query: nat, time: nat)

  // ----- the ring as a function of the plain log -----

  /** Entries on the page being filled; a full page stays current until the next entry. */
  function Cursor(n: nat, pageSize: nat): nat
    requires n > 0 ==> pageSize > 0
  {
    if n == 0 then 0 else (n - 1) % pageSize + 1
  }

  /** Pages started before the current one. */
  function CurrentPage(n: nat, pageSize: nat): nat
    requires n > 0 ==> pageSize > 0
  {
    if n == 0 then 0 else (n - 1) / pageSize
  }

  /** Entry j of the log belongs in row i of buffer b. */
  predicate BelongsAt(j: nat, pageSize: nat, buffers: nat, b: nat, i: nat)
    requires pageSize > 0 && buffers > 0
  {
    j % pageSize == i && (j / pageSize) % buffers == b
  }

  /** The last entry of the log that belongs in row i of buffer b, or zeros. */
  function Latest(log: seq<Row>, pageSize: nat, buffers: nat, b: nat, i: nat): Row
    requires log != [] ==> pageSize > 0 && buffers > 0
  {
    if log == [] then Row(0, 0)
    else if BelongsAt(|log| - 1, pageSize, buffers, b, i) then log[|log| - 1]
    else Latest(log[..|log| - 1], pageSize, buffers, b, i)
  }

  lemma SameRemainder(a: nat, d: nat, m: nat)
    requires m > 0 && d < m && (a + d) % m == a % m
    ensures d == 0
  {
    var q, r := a / m, a % m;
    assert a == q * m + r;
    if r + d < m {
      Divide(q, r + d, m);
    } else {
      assert a + d == (q + 1) * m + (r + d - m);
      Divide(q + 1, r + d - m, m);
    }
  }

  /** Of two entries with the same place, the later one is at least a full ring of pages later. */
  lemma SamePlaceIsFarApart(j: nat, k: nat, pageSize: nat, buffers: nat)
    requires pageSize > 0 && buffers > 0 && j < k
    requires BelongsAt(k, pageSize, buffers, (j / pageSize) % buffers, j % pageSize)
    ensures j / pageSize + buffers <= k / pageSize
  {
    var p, q := j / pageSize, k / pageSize;
    assert j == p * pageSize + j % pageSize && k == q * pageSize + k % pageSize;
    Monotone(j, k, pageSize);
    if q < p + buffers { SameRemainder(p, q - p, buffers); }
  }

  /** One more entry replaces the row of its place and leaves the other rows alone. */
  lemma LatestAppend(log: seq<Row>, row: Row, pageSize: nat, buffers: nat, b': nat, i': nat)
    requires pageSize > 0 && buffers > 0
    requires forall b, i :: BelongsAt(|log|, pageSize, buffers, b, i) <==> b == b' && i == i'
    ensures forall b, i ::
      Latest(log + [row], pageSize, buffers, b, i) == (if b == b' && i == i' then row else Latest(log, pageSize, buffers, b, i))
  {
    assert (log + [row])[..|log|] == log;
  }

  /** The ring holds the current page and the buffers - 1 pages before it, entry by entry. */
  lemma {:induction false} LastPagesAreKept(log: seq<Row>, pageSize: nat, buffers: nat, j: nat)
    requires pageSize > 0 && buffers > 0 && j < |log|
    requires CurrentPage(|log|, pageSize) < j / pageSize + buffers
    ensures Latest(log, pageSize, buffers, (j / pageSize) % buffers, j % pageSize) == log[j]
  {
    var last := |log| - 1;
    if j < last {
      if BelongsAt(last, pageSize, buffers, (j / pageSize) % buffers, j % pageSize) {
        SamePlaceIsFarApart(j, last, pageSize, buffers);
      }
      Monotone(last - 1, last, pageSize);
      LastPagesAreKept(log[..last], pageSize, buffers, j);
    }
  }

  lemma Monotone(a: nat, b: nat, m: nat)
    requires m > 0 && a <= b
    ensures a / m <= b / m
  {
    var d := b / m - a / m;
    assert a == a / m * m + a % m && b == b / m * m + b % m;
    assert d * m == (b - a) + (a % m - b % m);
  }

  /** Counting on by one stays in the page, or starts the next one. */
  lemma CountOn(k: nat, pageSize: nat)
    requires pageSize > 0
    ensures k % pageSize + 1 < pageSize ==> (k + 1) % pageSize == k % pageSize + 1 && (k + 1) / pageSize == k / pageSize
    ensures k % pageSize + 1 == pageSize ==> (k + 1) % pageSize == 0 && (k + 1) / pageSize == k / pageSize + 1
  {
    var q, r := k / pageSize, k % pageSize;
    assert k == q * pageSize + r;
    if r + 1 < pageSize {
      Divide(q, r + 1, pageSize);
    } else {
      assert k + 1 == (q + 1) * pageSize + 0;
      Divide(q + 1, 0, pageSize);
    }
  }

  /** Where the next entry goes. */
  lemma NextPlace(n: nat, pageSize: nat)
    requires pageSize > 0
    ensures Cursor(n + 1, pageSize) == n % pageSize + 1 && CurrentPage(n + 1, pageSize) == n / pageSize
    ensures Cursor(n, pageSize) <= pageSize
    ensures n % pageSize == if Cursor(n, pageSize) >= pageSize then 0 else Cursor(n, pageSize)
    ensures n / pageSize
      == if Cursor(n, pageSize) >= pageSize then CurrentPage(n, pageSize) + 1 else CurrentPage(n, pageSize)
  {
    if n > 0 {
      CountOn(n - 1, pageSize);
    } else {
      Divide(0, 0, pageSize);
    }
  }

  lemma NextBuffer(page: nat, buffers: nat)
    requires buffers > 0
    ensures (page % buffers + 1) % buffers == (page + 1) % buffers
  {
    var q, r := page / buffers, page % buffers;
    assert page + 1 == q * buffers + (r + 1);
    if r + 1 < buffers {
      Divide(q, r + 1, buffers);
      Divide(0, r + 1, buffers);
    } else {
      assert page + 1 == (q + 1) * buffers + 0;
      Divide(q + 1, 0, buffers);
      Divide(1, 0, buffers);
    }
  }

  function ActiveBuffer(n: nat, pageSize: nat, buffers: nat): nat
    requires n > 0 ==> pageSize > 0 && buffers > 0
  {
    if n == 0 then 0 else CurrentPage(n, pageSize) % buffers
  }

  /** The wrap test of AddEntry leads to the place of the next entry. */
  lemma WrapLeadsToNextPlace(n: nat, pageSize: nat, buffers: nat)
    requires pageSize > 0 && buffers > 0
    ensures var wrap := Cursor(n, pageSize) >= pageSize;
      var cursor := if wrap then 0 else Cursor(n, pageSize);
      var buffer := if wrap then (ActiveBuffer(n, pageSize, buffers) + 1) % buffers else ActiveBuffer(n, pageSize, buffers);
      && cursor < pageSize && buffer < buffers
      && Cursor(n + 1, pageSize) == cursor + 1 && ActiveBuffer(n + 1, pageSize, buffers) == buffer
      && (forall b, i :: BelongsAt(n, pageSize, buffers, b, i) <==> b == buffer && i == cursor)
  {
    NextPlace(n, pageSize);
    NextBuffer(CurrentPage(n, pageSize), buffers);
    if n == 0 { Divide(0, 0, buffers); }
  }

  /** The part of the log on the current page. */
  function CurrentEntries(log: seq<Row>, pageSize: nat): seq<Row>
    requires log != [] ==> pageSize > 0
  {
    CursorAtMost(|log|, pageSize);
    log[|log| - Cursor(|log|, pageSize)..]
  }

  lemma CursorAtMost(n: nat, pageSize: nat)
    requires n > 0 ==> pageSize > 0
    ensures Cursor(n, pageSize) <= n && Cursor(n, pageSize) <= pageSize
    ensures n > 0 ==> n - Cursor(n, pageSize) == CurrentPage(n, pageSize) * pageSize
    ensures n <= pageSize ==> Cursor(n, pageSize) == n
  {
    if n > 0 {
      assert n - 1 == (n - 1) / pageSize * pageSize + (n - 1) % pageSize;
      if n <= pageSize { Divide(0, n - 1, pageSize); }
    }
  }

  /** The first rows of the active buffer are the current page of the log. */
  lemma ActivePageIsCurrent(log: seq<Row>, pageSize: nat, buffers: nat, i: nat)
    requires pageSize > 0 && buffers > 0 && i < Cursor(|log|, pageSize)
    ensures |CurrentEntries(log, pageSize)| == Cursor(|log|, pageSize)
    ensures Latest(log, pageSize, buffers, CurrentPage(|log|, pageSize) % buffers, i) == CurrentEntries(log, pageSize)[i]
  {
    CursorAtMost(|log|, pageSize);
    var page := CurrentPage(|log|, pageSize);
    var j := page * pageSize + i;
    Divide(page, i, pageSize);
    LastPagesAreKept(log, pageSize, buffers, j);
  }

  function Rows(log: seq<Row>): Matrix {
    seq(|log|, i requires 0 <= i < |log| => [log[i].query, log[i].time])
  }

  // ----- the manager -----

  class ServerStatsManager {
    var dataBuffers: array3<nat>
    const filename: string
    const overwrite: bool
    const asyncDumping: bool
    var activeBuffer: nat
    var entryCursor: nat
    const entryCount: nat
    const bufferCount: nat
    /** Every entry ever added. */
    ghost var log: seq<Row>

    ghost predicate Valid()
      reads this, dataBuffers
    {
      && entryCount <= UINT32_MAX && bufferCount <= UINT32_MAX
      && dataBuffers.Length0 == bufferCount && dataBuffers.Length1 == entryCount && dataBuffers.Length2 == 2
      && (log != [] ==> entryCount > 0 && bufferCount > 0)
      && entryCursor == Cursor(|log|, entryCount)
      && activeBuffer == ActiveBuffer(|log|, entryCount, bufferCount)
      && (forall b, i | 0 <= b < bufferCount && 0 <= i < entryCount :: Stored(b, i) == Latest(log, entryCount, bufferCount, b, i))
    }

    ghost function Stored(b: nat, i: nat): Row
      requires b < dataBuffers.Length0 && i < dataBuffers.Length1 && dataBuffers.Length2 == 2
      reads this, dataBuffers
    {
      Row(dataBuffers[b, i, 0], dataBuffers[b, i, 1])
    }

    constructor (files: Files, filename: string, asyncDumping: bool := false, entryCount: nat := 32768,
                 bufferCount: nat := 2, overwrite: bool := false, erasePreviousFile: bool := true)
      requires entryCount <= UINT32_MAX && bufferCount <= UINT32_MAX
      modifies files
      ensures Valid() && log == [] && fresh(dataBuffers)
      ensures this.filename == filename && this.entryCount == entryCount && this.bufferCount == bufferCount
      ensures this.overwrite == overwrite && this.asyncDumping == asyncDumping
      ensures files.content == if erasePreviousFile then Saved(old(files.content), filename, "", true) else old(files.content)
    {
      this.dataBuffers := new nat[bufferCount, entryCount, 2]((b, i, k) => 0);
      this.filename := filename;
      this.overwrite := overwrite;
      this.asyncDumping := asyncDumping;
      this.activeBuffer := 0;
      this.entryCursor := 0;
      this.entryCount := entryCount;
      this.bufferCount := bufferCount;
      this.log := [];
      new;
      if erasePreviousFile && filename != "" {
        files.content := files.content[filename := ""];
      }
    }

    /** One caller at a time: the entry joins the log, whatever pages have been reused. */
    method AddEntry(queryId: nat, time: nat)
      requires Valid() && entryCount > 0 && bufferCount > 0
      modifies this, dataBuffers
      ensures Valid() && dataBuffers == old(dataBuffers)
      ensures log == old(log) + [Row(queryId, time)]
    {
      WrapLeadsToNextPlace(|log|, entryCount, bufferCount);
      if entryCursor >= entryCount {
        entryCursor := 0;
        activeBuffer := (activeBuffer + 1) % bufferCount;
      }
      ghost var b', i' := activeBuffer, entryCursor;
      dataBuffers[activeBuffer, entryCursor, 0] := queryId;
      dataBuffers[activeBuffer, entryCursor, 1] := time;
      entryCursor := entryCursor + 1;
      log := log + [Row(queryId, time)];
      LatestAppend(old(log), Row(queryId, time), entryCount, bufferCount, b', i');
    }

    /** The active buffer goes to a file. An asynchronous dump does not fall back to the manager's own file name,
        so without a name it writes nothing. */
    method DumpServerStats(files: Files, filename: string := "", until: nat := UINT32_MAX)
      requires Valid() && bufferCount > 0 && until <= UINT32_MAX
      modifies files
      ensures var name := if !asyncDumping && filename == "" then this.filename else filename;
        files.content == if entryCount == 0 then old(files.content)
          else Saved(old(files.content), name, Print(FirstRows(Active(), until)), overwrite)
    {
      var page := seq(entryCount, i requires 0 <= i < entryCount && Valid() && bufferCount > 0 reads this, dataBuffers =>
        ActiveIsBuffer(); [dataBuffers[activeBuffer, i, 0], dataBuffers[activeBuffer, i, 1]]);
      assert page == Active() && |page| % UINT32 == entryCount;
      RectangularIsWritten(page, 2, until);
      var name := filename;
      if !asyncDumping && filename == "" {
        name := this.filename;
      }
      DumpMatrix(files, name, page, until, overwrite);
    }

    lemma ActiveIsBuffer()
      requires Valid() && bufferCount > 0
      ensures activeBuffer < bufferCount
    {
    }

    ghost function Active(): Matrix
      requires Valid() && bufferCount > 0
      reads this, dataBuffers
    {
      ActiveIsBuffer();
      seq(entryCount, i requires 0 <= i < entryCount && Valid() && bufferCount > 0 && activeBuffer < bufferCount
                        reads this, dataBuffers =>
        [dataBuffers[activeBuffer, i, 0], dataBuffers[activeBuffer, i, 1]])
    }

    /** The destructor: what is on the current page goes to the manager's file. */
    method Close(files: Files)
      requires Valid() && bufferCount > 0
      modifies files
      ensures entryCount > 0 ==>
        files.content == Saved(old(files.content), filename, Print(Rows(CurrentEntries(log, entryCount))), overwrite)
      ensures entryCount == 0 ==> files.content == old(files.content)
    {
      if entryCount > 0 { ActiveIsCurrent(); }
      DumpServerStats(files, filename, entryCursor);
    }

    lemma ActiveIsCurrent()
      requires Valid() && bufferCount > 0 && entryCount > 0
      ensures FirstRows(Active(), entryCursor) == Rows(CurrentEntries(log, entryCount))
    {
      CursorAtMost(|log|, entryCount);
      forall i | 0 <= i < entryCursor ensures Active()[i] == Rows(CurrentEntries(log, entryCount))[i] {
        ActivePageIsCurrent(log, entryCount, bufferCount, i);
        assert Stored(activeBuffer, i) == Latest(log, entryCount, bufferCount, activeBuffer, i);
      }
    }
  }

  /** A file that was erased at the start and holds one dump reads as the current page of the log:
      the whole log when it never exceeded a page. */
  lemma DumpedFileReadsAsLog(log: seq<Row>, pageSize: nat)
    requires log != [] ==> pageSize > 0
    ensures Parse(Print(Rows(CurrentEntries(log, pageSize)))) == Rows(CurrentEntries(log, pageSize))
    ensures |log| <= pageSize ==> CurrentEntries(log, pageSize) == log
  {
    RoundTrip(Rows(CurrentEntries(log, pageSize)));
    CursorAtMost(|log|, pageSize);
  }

  /** Add the entries one after the other. */
  method AddAll(manager: ServerStatsManager, entries: seq<Row>)
    requires manager.Valid() && manager.entryCount > 0 && manager.bufferCount > 0
    modifies manager, manager.dataBuffers
    ensures manager.Valid() && manager.dataBuffers == old(manager.dataBuffers)
    ensures manager.log == old(manager.log) + entries
  {
    for i := 0 to |entries|
      invariant manager.Valid() && manager.dataBuffers == old(manager.dataBuffers)
      invariant manager.log == old(manager.log) + entries[..i]
    {
      manager.AddEntry(entries[i].query, entries[i].time);
      assert entries[..i + 1] == entries[..i] + [entries[i]];
    }
    assert entries[..|entries|] == entries;
  }

  /** Where the page of the last of n entries starts. */
  function PageStart(n: nat, pageSize: nat): nat
    requires pageSize > 0
  {
    if n == 0 then 0 else (n - 1) / pageSize * pageSize
  }

  /** The rows are the entries from one on, each as its query and its time. */
  predicate ReadsAs(rows: Matrix, entries: seq<Row>, first: nat) {
    && first <= |entries| && |rows| == |entries| - first
    && forall k | 0 <= k < |rows| :: rows[k] == [entries[first + k].query, entries[first + k].time]
  }

  lemma CurrentPageReadsAs(log: seq<Row>, pageSize: nat)
    requires pageSize > 0
    ensures ReadsAs(Rows(CurrentEntries(log, pageSize)), log, PageStart(|log|, pageSize))
  {
    CursorAtMost(|log|, pageSize);
  }

  /** A manager that erased its file and was given the entries. */
  method Filled(files: Files, filename: string, entries: seq<Row>, entryCount: nat, bufferCount: nat, overwrite: bool)
    returns (manager: ServerStatsManager)
    requires 0 < entryCount <= UINT32_MAX && 0 < bufferCount <= UINT32_MAX
    modifies files
    ensures fresh(manager) && fresh(manager.dataBuffers) && manager.Valid() && manager.log == entries
    ensures manager.filename == filename && manager.overwrite == overwrite
    ensures manager.entryCount == entryCount && manager.bufferCount == bufferCount
    ensures files.content == Saved(old(files.content), filename, "", true)
  {
    manager := new ServerStatsManager(files, filename, false, entryCount, bufferCount, overwrite, true);
    AddAll(manager, entries);
  }

  /** A text saved to a file that was erased before is all there is in it. */
  lemma SavedAfterErasing(content: map<string, string>, filename: string, text: string, overwrite: bool)
    requires filename != ""
    ensures var after := Saved(Saved(content, filename, "", true), filename, text, overwrite);
      && after.Keys == content.Keys + {filename} && after[filename] == text
      && forall other | other in content && other != filename :: after[other] == content[other]
  {
  }

  /** From construction, with the old file erased, to destruction: the file then reads as the entries from the start of
      the last page begun, one line for each, and no other file has changed. */
  method Lifetime(files: Files, filename: string, entries: seq<Row>, entryCount: nat, bufferCount: nat, overwrite: bool)
    requires 0 < entryCount <= UINT32_MAX && 0 < bufferCount <= UINT32_MAX && filename != ""
    modifies files
    ensures files.content.Keys == old(files.content).Keys + {filename}
    ensures forall other | other in old(files.content) && other != filename ::
      files.content[other] == old(files.content)[other]
    ensures ReadsAs(Parse(files.content[filename]), entries, PageStart(|entries|, entryCount))
    ensures files.content[filename] == Print(Rows(CurrentEntries(entries, entryCount)))
  {
    var manager := Filled(files, filename, entries, entryCount, bufferCount, overwrite);
    manager.Close(files);
    SavedAfterErasing(old(files.content), filename, Print(Rows(CurrentEntries(entries, entryCount))), overwrite);
    DumpedFileReadsAsLog(entries, entryCount);
    CurrentPageReadsAs(entries, entryCount);
  }
}
