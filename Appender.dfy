/**
 * The instrumented append path of CustomAppender and its background worker.
 *
 * Every append times the delegated write and, in a finally block, files the
 * duration into the current window (log_event_time). A window holding
 * EventArraySize durations is handed off, as a copy, to a single-thread
 * executor; the executor's worker turns each handed-off window into one row
 * of the latency report. The executor is modelled as the FIFO sequence of
 * windows it has been given and not yet run.
 */
module Appender {
  import opened Basics
  import opened Aggregator
  import opened ReportSink

  /** Window size used when no EventArraySize system property is set. */
  const DefaultEventArraySize: int := 100

  /** A handed-off window: a copy of its durations, its start stamp, and the stamp taken at hand-off. */
  datatype Snapshot = Snapshot(durations: seq<int>, start: int, end: int)

  /** The open window: the durations buffered so far and the stamp it carries as its start. */
  datatype Window = Window(times: seq<int>, start: int)

  /** The result of one append's bookkeeping: the new window, and the snapshot handed off, if any. */
  datatype Step = Step(window: Window, handoff: Option<Snapshot>)

  /** Every duration in the handed-off windows, in hand-off order. */
  function Flatten(ds: seq<Snapshot>): seq<int>
  {
    if ds == [] then [] else Flatten(ds[..|ds| - 1]) + ds[|ds| - 1].durations
  }

  function Handoffs(h: Option<Snapshot>): seq<Snapshot>
  {
    if h.Some? then [h.value] else []
  }

  /**
   * The finally block of append, for a measured duration d and a clock reading
   * now. The size test is made before d is added: a full window is handed off,
   * with its start stamp and now as its end, and d opens the next window;
   * otherwise an empty window is stamped with now; then d is added.
   */
  function Bookkeep(w: Window, size: int, d: int, now: int): Step
  {
    if |w.times| == size then
      Step(Window([d], w.start), Some(Snapshot(w.times, w.start, now)))
    else if w.times == [] then
      Step(Window([d], now), None)
    else
      Step(Window(w.times + [d], w.start), None)
  }

  /**
   * One append's bookkeeping loses and duplicates nothing: the handed-off
   * window, if any, followed by the new open window, is the old open window
   * with d added. The new duration is always the last one buffered; a window
   * is handed off exactly when it held size durations, as a copy of them with
   * its own start stamp; and the start changes only when the window was empty.
   */
  lemma BookkeepNoLoss(w: Window, size: int, d: int, now: int)
    ensures var r := Bookkeep(w, size, d, now);
      && Flatten(Handoffs(r.handoff)) + r.window.times == w.times + [d]
      && r.window.times != [] && r.window.times[|r.window.times| - 1] == d
      && (r.handoff.Some? <==> |w.times| == size)
      && (r.handoff.Some? ==> r.handoff.value == Snapshot(w.times, w.start, now))
      && r.window.start == if w.times == [] && |w.times| != size then now else w.start
  {
    var r := Bookkeep(w, size, d, now);
    if r.handoff.Some? {
      var h := [r.handoff.value];
      assert h[..0] == [];
      assert Flatten(h) == w.times;
    }
  }

  /**
   * What holds between appends. For every window size: the handed-off windows,
   * in order, followed by the open window, are exactly the measured durations,
   * and nothing is handed off before the first append.
   * For a size of at least one, also: the open window holds at most size
   * durations and, once anything was measured, at least one; every handed-off
   * window holds exactly size durations; and the open window and every
   * handed-off one carry the start stamped on the first append.
   */
  ghost predicate WindowInvariant(size: int, measured: seq<int>, dispatched: seq<Snapshot>, w: Window, first: int)
  {
    && Flatten(dispatched) + w.times == measured
    && (measured == [] ==> dispatched == [])
    && (size >= 1 ==>
          && |w.times| <= size
          && (measured != [] ==> 1 <= |w.times| && w.start == first)
          && FullWindows(dispatched, size, first))
  }

  /** Every snapshot holds exactly size durations and carries the start stamp first. */
  ghost predicate FullWindows(ds: seq<Snapshot>, size: int, first: int)
  {
    ds != [] ==>
      && FullWindows(ds[..|ds| - 1], size, first)
      && |ds[|ds| - 1].durations| == size && ds[|ds| - 1].start == first
  }

  /** FullWindows read element by element. */
  lemma {:induction false} FullWindowsEach(ds: seq<Snapshot>, size: int, first: int)
    requires FullWindows(ds, size, first)
    ensures forall i :: 0 <= i < |ds| ==> |ds[i].durations| == size && ds[i].start == first
  {
    if ds != [] {
      FullWindowsEach(ds[..|ds| - 1], size, first);
    }
  }

  lemma FlattenAppend(ds: seq<Snapshot>, more: seq<Snapshot>)
    requires |more| <= 1
    ensures Flatten(ds + more) == Flatten(ds) + Flatten(more)
  {
    if more != [] {
      var x := more[0];
      assert more == [x];
      assert (ds + [x])[..|ds|] == ds;
      assert Flatten(ds + [x]) == Flatten(ds) + x.durations;
      assert [x][..0] == [];
      assert Flatten([x]) == x.durations;
    } else {
      assert ds + more == ds;
    }
  }

  /**
   * Each append's bookkeeping keeps the window invariant; the first append
   * fixes the start stamp that all later windows carry.
   */
  lemma BookkeepKeepsInvariant(size: int, measured: seq<int>, dispatched: seq<Snapshot>, w: Window,
                               oldFirst: int, first: int, d: int, now: int)
    requires WindowInvariant(size, measured, dispatched, w, oldFirst)
    requires first == if measured == [] then now else oldFirst
    ensures var r := Bookkeep(w, size, d, now);
      WindowInvariant(size, measured + [d], dispatched + Handoffs(r.handoff), r.window, first)
  {
    var r := Bookkeep(w, size, d, now);
    BookkeepNoLoss(w, size, d, now);
    BookkeepFlatten(measured, dispatched, w, size, d, now);
    var ds := dispatched + Handoffs(r.handoff);
    if size >= 1 && |w.times| == size {
      assert |measured| >= |w.times| >= 1;
      FullWindowsSnoc(dispatched, Snapshot(w.times, w.start, now), size, first);
    } else if size >= 1 {
      assert ds == dispatched;
    }
  }

  lemma BookkeepFlatten(measured: seq<int>, dispatched: seq<Snapshot>, w: Window, size: int, d: int, now: int)
    requires Flatten(dispatched) + w.times == measured
    ensures var r := Bookkeep(w, size, d, now);
      Flatten(dispatched + Handoffs(r.handoff)) + r.window.times == measured + [d]
  {
    var r := Bookkeep(w, size, d, now);
    BookkeepNoLoss(w, size, d, now);
    var handed := Handoffs(r.handoff);
    FlattenAppend(dispatched, handed);
    ConcatAssociates(Flatten(dispatched), Flatten(handed), r.window.times);
    ConcatAssociates(Flatten(dispatched), w.times, [d]);
  }

  lemma FullWindowsSnoc(ds: seq<Snapshot>, x: Snapshot, size: int, first: int)
    requires FullWindows(ds, size, first)
    requires |x.durations| == size && x.start == first
    ensures FullWindows(ds + [x], size, first)
  {
    assert (ds + [x])[..|ds|] == ds;
  }

  // Associativity of concatenation, stated once so that callers can name the regrouping they need.
  lemma ConcatAssociates<T>(a: seq<T>, b: seq<T>, c: seq<T>)
    ensures (a + b) + c == a + (b + c)
  {
  }

  lemma {:induction false} FlattenLength(ds: seq<Snapshot>, size: int, first: int)
    requires FullWindows(ds, size, first)
    ensures |Flatten(ds)| == |ds| * size
  {
    if ds != [] {
      var init, n := ds[..|ds| - 1], |ds| - 1;
      FlattenLength(init, size, first);
      assert |Flatten(ds)| == |Flatten(init)| + |ds[n].durations|;
      MulSucc(n, size);
    }
  }

  // A distributivity step, kept apart so the solver meets the nonlinear term in isolation.
  lemma MulSucc(n: int, size: int)
    ensures (n + 1) * size == n * size + size
  {
  }

  lemma DivisionOfCount(n: int, size: int, k: int, b: int)
    requires size >= 1 && k >= 0 && 1 <= b <= size && n == k * size + b
    ensures (n - 1) / size == k
  {
    DivUnique(n - 1, size, k, b - 1);
  }

  lemma DivUnique(x: int, d: int, q: int, r: int)
    requires d >= 1 && 0 <= r < d && x == q * d + r
    ensures x / d == q
  {
    var q', r' := x / d, x % d;
    assert q' * d + r' == q * d + r;
    assert (q' - q) * d == r - r';
    MultipleInOpenRange(q' - q, d, r - r');
  }

  /** The only multiple of d strictly between -d and d is zero. */
  lemma MultipleInOpenRange(e: int, d: int, p: int)
    requires d >= 1 && e * d == p && -d < p < d
    ensures e == 0
  {
    if e >= 1 {
      MultipleAtLeast(e, d);
    } else if e <= -1 {
      MultipleAtLeast(-e, d);
    }
  }

  lemma {:induction false} MultipleAtLeast(e: int, d: int)
    requires e >= 1 && d >= 1
    ensures e * d >= d
    decreases e
  {
    if e > 1 {
      MultipleAtLeast(e - 1, d);
      assert e * d == (e - 1) * d + d;
    }
  }

  /**
   * After N >= 1 appends with window size W >= 1, (N - 1) div W windows have
   * been handed off and N - W * ((N - 1) div W) durations are still buffered.
   */
  lemma DispatchCount(size: int, measured: seq<int>, dispatched: seq<Snapshot>, w: Window, first: int)
    requires WindowInvariant(size, measured, dispatched, w, first)
    requires size >= 1 && measured != []
    ensures |dispatched| == (|measured| - 1) / size
    ensures |w.times| == |measured| - size * ((|measured| - 1) / size)
  {
    FlattenLength(dispatched, size, first);
    DivisionOfCount(|measured|, size, |dispatched|, |w.times|);
  }

  /** Whether a LogEventLatency task ran to its end or threw out of run. */
  datatype RunResult = RunResult(file: FileState, outcome: Outcome)

  /**
   * What running one handed-off window does to the report: an empty window
   * throws NoSuchElement out of run and writes nothing; an I/O failure is
   * caught in run and drops the row; otherwise the row is appended.
   */
  function Report(task: Snapshot, file: FileState, fmt: Formats, ioFails: bool): (r: RunResult)
    ensures task.durations == [] ==> r == RunResult(file, Threw(NoSuchElement))
    ensures task.durations != [] ==> r.outcome == Completed
    ensures task.durations != [] && ioFails ==> r.file == file
  {
    match Summarize(task.durations, task.start, task.end)
    case Err(e) => RunResult(file, Threw(e))
    case Ok(s) => RunResult(if ioFails then file else AfterWrite(file, Fields(s, fmt)), Completed)
  }

  /** LogEventLatency.run: summarise the window's own list, then write the row, catching IOException. */
  method Run(task: Snapshot, file: FileState, fmt: Formats, ioFails: bool) returns (r: RunResult)
    ensures r == Report(task, file, fmt, ioFails)
  {
    var copyList := new int[|task.durations|](i requires 0 <= i < |task.durations| => task.durations[i]);
    assert copyList[..] == task.durations;
    var fields := LogEventTime(copyList, task.start, task.end, fmt);
    if fields.Err? {
      return RunResult(file, Threw(fields.error));
    }
    var written, outcome := WriteToCsv(file, fields.value, ioFails);
    // the IOException is caught and logged; the row is dropped
    return RunResult(written, Completed);
  }

  /** Running handed-off windows in order, with no I/O failure, from a report that is absent. */
  function ReportAll(file: FileState, tasks: seq<Snapshot>, fmt: Formats): FileState
  {
    if tasks == [] then file
    else Report(tasks[|tasks| - 1], ReportAll(file, tasks[..|tasks| - 1], fmt), fmt, false).file
  }

  function RowsOf(tasks: seq<Snapshot>, fmt: Formats): seq<seq<string>>
    requires forall i :: 0 <= i < |tasks| ==> tasks[i].durations != []
  {
    seq(|tasks|, i requires 0 <= i < |tasks| =>
      Fields(Summarize(tasks[i].durations, tasks[i].start, tasks[i].end).value, fmt))
  }

  /**
   * Windows run in hand-off order append their rows to the report in that
   * same order: after one header when the report was absent, after its old
   * content when it already existed.
   */
  lemma {:induction false} ReportInHandoffOrder(file: FileState, tasks: seq<Snapshot>, fmt: Formats)
    requires forall i :: 0 <= i < |tasks| ==> tasks[i].durations != []
    ensures ReportAll(file, tasks, fmt) == WriteAll(file, RowsOf(tasks, fmt))
    ensures file.Absent? && tasks != [] ==> ReportAll(file, tasks, fmt) == Present(Header + Rows(RowsOf(tasks, fmt)))
    ensures file.Present? ==> ReportAll(file, tasks, fmt) == Present(file.content + Rows(RowsOf(tasks, fmt)))
  {
    if tasks != [] {
      var init := tasks[..|tasks| - 1];
      assert RowsOf(tasks, fmt)[..|tasks| - 1] == RowsOf(init, fmt);
      ReportInHandoffOrder(file, init, fmt);
      if file.Absent? {
        HeaderOnce(RowsOf(tasks, fmt));
      }
    }
    if file.Present? {
      AppendOnly(file.content, RowsOf(tasks, fmt));
    }
  }

  /** One append as the bookkeeping sees it: the measured duration and the clock reading in the finally block. */
  datatype Arrival = Arrival(duration: int, now: int)

  /** What the bookkeeping has produced: the open window and every window handed off, in order. */
  datatype History = History(window: Window, handedOff: seq<Snapshot>)

  /**
   * The bookkeeping state after a sequence of appends on an appender created
   * at clock reading created: the constructor's empty window, then one
   * Bookkeep step per append.
   */
  function Replay(size: int, created: int, trace: seq<Arrival>): History
  {
    if trace == [] then History(Window([], created), [])
    else
      var h := Replay(size, created, trace[..|trace| - 1]);
      var a := trace[|trace| - 1];
      var r := Bookkeep(h.window, size, a.duration, a.now);
      History(r.window, h.handedOff + Handoffs(r.handoff))
  }

  function Durations(trace: seq<Arrival>): (r: seq<int>)
    ensures |r| == |trace|
    ensures forall i :: 0 <= i < |trace| ==> r[i] == trace[i].duration
  {
    seq(|trace|, i requires 0 <= i < |trace| => trace[i].duration)
  }

  /** The stamp the first append puts on the window; the constructor's stamp before any append. */
  function FirstStamp(created: int, trace: seq<Arrival>): int
  {
    if trace == [] then created else trace[0].now
  }

  /**
   * Any run of appends keeps the window invariant: the handed-off windows
   * followed by the open window are every measured duration, in order, and
   * for a size of at least one every handed-off window is full and all of
   * them carry the first append's stamp.
   */
  lemma {:induction false} ReplayKeepsInvariant(size: int, created: int, trace: seq<Arrival>)
    ensures var h := Replay(size, created, trace);
      WindowInvariant(size, Durations(trace), h.handedOff, h.window, FirstStamp(created, trace))
  {
    if trace != [] {
      var init, a := trace[..|trace| - 1], trace[|trace| - 1];
      ReplayKeepsInvariant(size, created, init);
      var h := Replay(size, created, init);
      assert Durations(trace) == Durations(init) + [a.duration];
      assert init != [] ==> init[0] == trace[0];
      BookkeepKeepsInvariant(size, Durations(init), h.handedOff, h.window,
                             FirstStamp(created, init), FirstStamp(created, trace), a.duration, a.now);
    }
  }

  /** For a window size of at least one, the open window never holds more than size durations. */
  lemma {:induction false} ReplayWindowBound(size: int, created: int, trace: seq<Arrival>)
    requires size >= 1
    ensures |Replay(size, created, trace).window.times| <= size
  {
    if trace != [] {
      ReplayWindowBound(size, created, trace[..|trace| - 1]);
    }
  }

  /**
   * With EventArraySize set to 0 the first append hands off the constructor's
   * empty window (whose summary throws NoSuchElement in the worker); after
   * that the open window is never full again and keeps every duration.
   */
  lemma {:induction false} ZeroSizeWindow(created: int, trace: seq<Arrival>)
    requires trace != []
    ensures Replay(0, created, trace) == History(Window(Durations(trace), created), [Snapshot([], created, trace[0].now)])
  {
    var init := trace[..|trace| - 1];
    if init != [] {
      ZeroSizeWindow(created, init);
      assert init[0] == trace[0];
      assert Durations(trace) == Durations(init) + [trace[|trace| - 1].duration];
    }
  }

  /** With a negative EventArraySize nothing is ever handed off and the open window keeps every duration. */
  lemma {:induction false} NegativeSizeWindow(size: int, created: int, trace: seq<Arrival>)
    requires size < 0
    ensures Replay(size, created, trace).handedOff == []
    ensures Replay(size, created, trace).window.times == Durations(trace)
  {
    if trace != [] {
      var init := trace[..|trace| - 1];
      NegativeSizeWindow(size, created, init);
      assert Durations(trace) == Durations(init) + [trace[|trace| - 1].duration];
    }
  }

  /** The appender's telemetry state (the fields of CustomAppender that append and the executor use). */
  class CustomAppender {
    var logEventTime: seq<int>       // log_event_time
    const eventArraySize: int        // EventArraySize
    var logEventStart: int           // logEventStart
    var pending: seq<Snapshot>       // tasks given to threadExecutor and not yet run

    ghost const created: int         // the clock reading in the constructor
    ghost var trace: seq<Arrival>    // every append so far
    ghost var processed: seq<Snapshot>  // the handed-off windows the worker has run

    /**
     * The fields are what the bookkeeping produces from the appends so far,
     * and the worker has run a prefix of the handed-off windows, in order.
     */
    ghost predicate Valid()
      reads this
    {
      Replay(eventArraySize, created, trace) == History(Window(logEventTime, logEventStart), processed + pending)
    }

    /** The telemetry part of the constructor: window size from the property or 100, start stamped now. */
    constructor (configuredSize: Option<int>, now: int)
      ensures Valid()
      ensures eventArraySize == if configuredSize.Some? then configuredSize.value else DefaultEventArraySize
      ensures logEventTime == [] && logEventStart == now && pending == []
      ensures created == now && trace == [] && processed == []
    {
      logEventTime := [];
      eventArraySize := if configuredSize.Some? then configuredSize.value else DefaultEventArraySize;
      pending := [];
      logEventStart := now;
      created, trace, processed := now, [], [];
    }

    /**
     * append: t1 is read before the delegated checkRollover and super.append,
     * which fail when delegateFails; t2 is read in the finally block and now
     * by the Timestamp constructor there. The bookkeeping runs on both exits,
     * and a failure still reaches the caller.
     */
    method Append(t1: int, delegateFails: bool, t2: int, now: int) returns (outcome: Outcome)
      requires Valid()
      modifies this
      ensures Valid()
      ensures outcome == if delegateFails then Threw(DelegateFailure) else Completed
      ensures var r := Bookkeep(old(Window(logEventTime, logEventStart)), eventArraySize, t2 - t1, now);
        && Window(logEventTime, logEventStart) == r.window
        && pending == old(pending) + Handoffs(r.handoff)
      ensures trace == old(trace) + [Arrival(t2 - t1, now)] && processed == old(processed)
      ensures eventArraySize >= 1 ==> 1 <= |logEventTime| <= eventArraySize
      ensures logEventTime[|logEventTime| - 1] == t2 - t1
    {
      var t3 := t2 - t1;
      ghost var r := Bookkeep(Window(logEventTime, logEventStart), eventArraySize, t3, now);
      if eventArraySize >= 1 {
        ReplayWindowBound(eventArraySize, created, trace);
      }
      assert (trace + [Arrival(t3, now)])[..|trace|] == trace;
      ConcatAssociates(processed, pending, Handoffs(r.handoff));

      if |logEventTime| == eventArraySize {
        pending := pending + [Snapshot(logEventTime, logEventStart, now)];
        logEventTime := [];
      } else if logEventTime == [] {
        logEventStart := now;
      }
      logEventTime := logEventTime + [t3];
      trace := trace + [Arrival(t3, now)];
      outcome := if delegateFails then Threw(DelegateFailure) else Completed;
    }

    /** Every duration measured so far, in append order. */
    ghost function Measured(): seq<int>
      reads this
    {
      Durations(trace)
    }

    /**
     * Nothing is lost or duplicated: the windows handed off so far (run or
     * still queued), followed by the open window, are every measured duration.
     */
    lemma NoLoss()
      requires Valid()
      ensures Flatten(processed + pending) + logEventTime == Measured()
    {
      ReplayKeepsInvariant(eventArraySize, created, trace);
    }

    /**
     * With a window size W >= 1, once anything was appended: the open window
     * holds 1 to W durations, every handed-off window holds exactly W, and
     * all of them carry the stamp of the very first append, because clearing
     * the buffer at hand-off does not re-stamp the start.
     */
    lemma WindowShape()
      requires Valid() && eventArraySize >= 1 && trace != []
      ensures 1 <= |logEventTime| <= eventArraySize && logEventStart == trace[0].now
      ensures forall i :: 0 <= i < |processed + pending| ==>
        |(processed + pending)[i].durations| == eventArraySize && (processed + pending)[i].start == trace[0].now
    {
      ReplayKeepsInvariant(eventArraySize, created, trace);
      FullWindowsEach(processed + pending, eventArraySize, trace[0].now);
    }

    /**
     * After N >= 1 appends with a window size W >= 1, (N - 1) div W windows
     * have been handed off and N - W * ((N - 1) div W) durations are buffered.
     */
    lemma HandoffCount()
      requires Valid() && eventArraySize >= 1 && trace != []
      ensures |processed + pending| == (|trace| - 1) / eventArraySize
      ensures |logEventTime| == |trace| - eventArraySize * ((|trace| - 1) / eventArraySize)
    {
      ReplayKeepsInvariant(eventArraySize, created, trace);
      DispatchCount(eventArraySize, Durations(trace), processed + pending,
                    Window(logEventTime, logEventStart), FirstStamp(created, trace));
    }

    /**
     * The executor's worker takes the oldest pending window, if any, and runs
     * it; ioFails says whether the file system refuses this write.
     */
    method RunNext(file: FileState, fmt: Formats, ioFails: bool) returns (written: FileState, ran: Option<Outcome>)
      requires Valid()
      modifies this
      ensures Valid()
      ensures logEventTime == old(logEventTime) && logEventStart == old(logEventStart) && trace == old(trace)
      ensures old(pending) == [] ==> written == file && ran == None && pending == []
      ensures old(pending) != [] ==>
        && var r := Report(old(pending)[0], file, fmt, ioFails);
        && written == r.file && ran == Some(r.outcome)
        && pending == old(pending)[1..] && processed == old(processed) + [old(pending)[0]]
    {
      if pending == [] {
        return file, None;
      }
      var task := pending[0];
      assert processed + pending == (processed + [task]) + pending[1..];
      pending := pending[1..];
      processed := processed + [task];
      var r := Run(task, file, fmt, ioFails);
      return r.file, Some(r.outcome);
    }
  }

  /**
   * Window size 3: durations 10, 20, 30 fill the first window, stamped by the
   * first append; it is handed off by the fourth append (duration 5), and 5
   * opens the next window, which keeps the first start stamp.
   */
  lemma WindowOfThreeHandoff(start: int, s1: int, s2: int, s3: int, s4: int)
    ensures var w1 := Bookkeep(Window([], start), 3, 10, s1).window;
      var w2 := Bookkeep(w1, 3, 20, s2).window;
      var w3 := Bookkeep(w2, 3, 30, s3).window;
      var r4 := Bookkeep(w3, 3, 5, s4);
      && w3 == Window([10, 20, 30], s1)
      && r4.handoff == Some(Snapshot([10, 20, 30], s1, s4))
      && r4.window == Window([5], s1)
  {
    var w1 := Bookkeep(Window([], start), 3, 10, s1).window;
    assert w1 == Window([10], s1);
    var w2 := Bookkeep(w1, 3, 20, s2).window;
    assert w2 == Window([10, 20], s1);
    var w3 := Bookkeep(w2, 3, 30, s3).window;
    assert w3 == Window([10, 20, 30], s1);
  }

  /** The summary of that window: max 30, min 10, average 20, median 20. */
  lemma WindowOfThreeSummary(start: int, end: int)
    ensures Summarize([10, 20, 30], start, end) == Ok(Summary(start, end, 30, 10, 20.0, 20))
  {
    WindowOfThreeExtremes();
    WindowOfThreeMean();
    WindowOfThreeMedian();
  }

  lemma WindowOfThreeExtremes()
    ensures MaxOf([10, 20, 30]) == 30 && MinOf([10, 20, 30]) == 10
  {
    var s := [10, 20, 30];
    assert s[1..] == [20, 30] && s[1..][1..] == [30];
  }

  lemma WindowOfThreeMean()
    ensures Mean([10, 20, 30]) == 20.0
  {
    var s := [10, 20, 30];
    assert s[..2] == [10, 20] && s[..2][..1] == [10] && [10][..0] == [];
    assert Sum(s) == 60;
  }

  lemma WindowOfThreeMedian()
    ensures Median([10, 20, 30]) == Ok(20)
  {
    var s := [10, 20, 30];
    assert s[1..] == [20, 30] && s[1..][1..] == [30];
    assert SortSeq([30]) == [30];
    assert SortSeq([20, 30]) == [20, 30];
    assert SortSeq(s) == [10, 20, 30];
  }
}
