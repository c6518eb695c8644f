# Latency telemetry of CustomAppender, modelled in Dafny

`com.custom.appender.CustomAppender` is a rolling-file log appender. On every
`append`, it times the delegated write (`checkRollover` plus `super.append`).
In a `finally` block, it files the duration into a window buffer
(`log_event_time`) of `EventArraySize` entries (default 100).

A full window is handed off, as a copy with its start and end stamps, to a
single-thread executor. Its worker (`LogEventLatency.run`) summarises each
window: maximum, minimum, average and median. It then appends the summary as
one `|`-separated row to a report file. The file gets a fixed header line
when the worker first creates it.

The model has five modules:

- `Basics`: `Option`, `Result`, and the Java exceptions of the core as values.
- `Text`: `Long.toString` with its inverse `ParseLong`, and `Join`/`Split` on the `|` separator.
- `Aggregator`: `Collections.max`/`min`, `calculateAverage`, `Collections.sort`, `getMedian` and `logEventtime`.
  - The list's in-place sort is an `array` method, specified by the pure `SortSeq`.
  - The summary is the pure `Summarize`.
- `ReportSink`: `writeToCSV` over a file-system value `FileState` (`Absent` or `Present(content)`).
- `Appender`:
  - The `finally` block of `append` as the pure step `Bookkeep`.
  - `Replay`, the state after any run of appends, which is a fold of `Bookkeep` over the arrival history.
  - The invariant every run keeps.
  - `LogEventLatency.run` as `Run`.
  - The class `CustomAppender`, whose fields are those the source updates in place:
    - `logEventTime`, the buffer;
    - `logEventStart`;
    - `pending`, the executor's queue.

    Its invariant `Valid()` says that these fields are the replay of the appends seen so far. It also says that the worker has run a prefix of the handed-off windows, in order.

Clock readings are parameters: `t1`, `t2` and the `Timestamp` taken in the `finally` block (`now`). A failing delegate and a failing file system are boolean inputs.

Two behaviours of the code differ from a plain reading of the design. The model follows the code in both:

- **Handoff is lazy.** The full-window test runs *before* the new duration is added. A window that reaches `EventArraySize` entries is therefore handed off by the *next* append, which also opens the next window. After N ≥ 1 appends with size W ≥ 1:
  - `(N - 1) div W` windows have been handed off, not `N div W`;
  - the buffer holds 1 to W durations, not `N mod W`.

  `CustomAppender.HandoffCount` states this.
- **The start is stamped only on the first append.** It is written only when the buffer is empty before the add. The buffer is never empty at that point after the first append, because clearing at handoff is immediately followed by the add. For a window size of at least 1, every handed-off window therefore carries the stamp of the very first append. `CustomAppender.WindowShape` and `WindowOfThreeHandoff` state this.

  With a window size of 0 the first append takes the handoff branch instead and never stamps. The only window ever handed off is then the empty initial one, carrying the constructor's stamp (`ZeroSizeWindow`).

## Model

| member | source | states |
|---|---|---|
| Aggregator.MaxOf | src/main/java/com/custom/appender/CustomAppender.java:356 | the maximum of a non-empty list is one of its elements and no element exceeds it |
| Aggregator.MinOf | src/main/java/com/custom/appender/CustomAppender.java:357 | the minimum of a non-empty list is one of its elements and no element is below it |
| Aggregator.CalculateAverage | src/main/java/com/custom/appender/CustomAppender.java:369-378 | the running-sum loop returns the sum divided by the size, and 0 for an empty list |
| Aggregator.MeanBounds | src/main/java/com/custom/appender/CustomAppender.java:369-378 | the average of a non-empty list lies between its minimum and maximum |
| Aggregator.SortInPlace | src/main/java/com/custom/appender/CustomAppender.java:385 | sorting the list in place leaves it ascending and a permutation of what it held |
| Aggregator.SortSeqSorts | src/main/java/com/custom/appender/CustomAppender.java:385 | the reference sort yields an ascending permutation of its input |
| Aggregator.SortedUnique | src/main/java/com/custom/appender/CustomAppender.java:385 | two ascending lists with the same elements are equal, so the in-place sort agrees with the reference sort |
| Aggregator.TruncHalf | src/main/java/com/custom/appender/CustomAppender.java:388 | Java's long `/ 2` truncates toward zero, for negative sums too |
| Aggregator.GetMedian | src/main/java/com/custom/appender/CustomAppender.java:384-393 | sorts the list in place into the reference order; odd size gives the middle element, even size the truncated average of the two middle ones, empty list fails with IndexOutOfBounds |
| Aggregator.MedianBounds | src/main/java/com/custom/appender/CustomAppender.java:384-393 | the median of a non-empty list exists and lies between its minimum and maximum |
| Aggregator.MedianIgnoresOrder | src/main/java/com/custom/appender/CustomAppender.java:385-391 | the median depends only on the list's elements, not their order |
| Aggregator.EvenMedianExamples | src/main/java/com/custom/appender/CustomAppender.java:387-388 | the even-size tie-break: [4, 1, 3, 2] has median 2, and [0, -3] has median -1 because Java's division truncates toward zero |
| Aggregator.SortedEnds | src/main/java/com/custom/appender/CustomAppender.java:385 | the sorted list starts with the minimum and ends with the maximum |
| Aggregator.SummaryBounds | src/main/java/com/custom/appender/CustomAppender.java:355-360 | a non-empty window summarises successfully, with min ≤ median ≤ max and min ≤ average ≤ max |
| Aggregator.LogEventTime | src/main/java/com/custom/appender/CustomAppender.java:355-363 | an empty list fails with NoSuchElement; otherwise the six row fields of the window's summary, with the list left sorted |
| Text.LongToString | src/main/java/com/custom/appender/CustomAppender.java:360 | a rendered Long is non-empty and holds neither the separator nor a newline |
| Text.ParseLongOfLongToString | src/main/java/com/custom/appender/CustomAppender.java:360 | parsing a rendered Long gives back the number |
| Text.JoinPrefixStep | src/main/java/com/custom/appender/CustomAppender.java:403-407 | each field written adds a separator before it, except the first |
| Text.SplitJoin | src/main/java/com/custom/appender/CustomAppender.java:403-407 | splitting the joined fields at the separator gives back the fields when none of them holds one |
| ReportSink.Row | src/main/java/com/custom/appender/CustomAppender.java:403-408 | a row ends in a newline |
| ReportSink.AfterWrite | src/main/java/com/custom/appender/CustomAppender.java:397-423 | a successful write leaves the file present: header then row when it was absent, old content then row otherwise |
| ReportSink.WriteToCsv | src/main/java/com/custom/appender/CustomAppender.java:397-423 | the write loop produces exactly the header-if-absent plus the separator-joined row and newline; an I/O failure throws IoError and leaves the file as it was |
| ReportSink.AppendOnly | src/main/java/com/custom/appender/CustomAppender.java:412-420 | writes to an existing file keep its content as a prefix and add the rows in order |
| ReportSink.HeaderOnce | src/main/java/com/custom/appender/CustomAppender.java:399-401 | from an absent file, any run of writes yields one header followed by all rows in write order |
| ReportSink.TwoWritesOnAbsentFile | src/main/java/com/custom/appender/CustomAppender.java:399-420 | two writes on an absent file give the header and the two rows in call order |
| ReportSink.RowReadsBack | src/main/java/com/custom/appender/CustomAppender.java:403-408 | a row without its newline splits back into its fields |
| Appender.BookkeepNoLoss | src/main/java/com/custom/appender/CustomAppender.java:322-328 | one append's handed-off window plus the new buffer is the old buffer plus the duration; handoff happens exactly when the buffer held size entries, as a copy with its own start and `now` as end; the new duration is last; the start changes only when the buffer was empty |
| Appender.BookkeepFlatten | src/main/java/com/custom/appender/CustomAppender.java:322-328 | one append keeps "handed-off windows followed by the buffer equal every measured duration" |
| Appender.BookkeepKeepsInvariant | src/main/java/com/custom/appender/CustomAppender.java:319-329 | one append keeps the whole window invariant: no loss, buffer size within 1..size, full handed-off windows, first-append start stamp |
| Appender.ReplayKeepsInvariant | src/main/java/com/custom/appender/CustomAppender.java:322-328 | any run of appends from the constructor's state satisfies the window invariant |
| Appender.ReplayWindowBound | src/main/java/com/custom/appender/CustomAppender.java:322-328 | with size ≥ 1 the buffer never holds more than size durations |
| Appender.DispatchCount | src/main/java/com/custom/appender/CustomAppender.java:322-328 | under the invariant, N ≥ 1 measured durations mean (N-1) div W windows handed off and N − W·((N-1) div W) buffered |
| Appender.ZeroSizeWindow | src/main/java/com/custom/appender/CustomAppender.java:322-328 | with size 0, the first append hands off the empty initial window and every later duration stays in the buffer |
| Appender.NegativeSizeWindow | src/main/java/com/custom/appender/CustomAppender.java:322-328 | with a negative size, nothing is ever handed off and the buffer keeps every duration |
| Appender.Report | src/main/java/com/custom/appender/CustomAppender.java:344-350 | running an empty window throws NoSuchElement and writes nothing; otherwise run completes, and an I/O failure leaves the file unchanged |
| Appender.Run | src/main/java/com/custom/appender/CustomAppender.java:344-350 | summarising the window's own list and writing its row has exactly the effect Report describes |
| Appender.ReportInHandoffOrder | src/main/java/com/custom/appender/CustomAppender.java:344-350 | windows run in handoff order append their rows in that order: after one header when the report was absent, after its old content when it existed |
| Appender.CustomAppender.constructor | src/main/java/com/custom/appender/CustomAppender.java:287-295 | the window size is the configured value or 100, the buffer and queue are empty, the start is stamped now, and the invariant holds |
| Appender.CustomAppender.Append | src/main/java/com/custom/appender/CustomAppender.java:314-330 | the bookkeeping runs whether or not the delegate throws and the exception still reaches the caller; buffer, start and queue follow one Bookkeep step; the duration is the last buffered; with size ≥ 1 the buffer holds 1..size; the invariant is kept |
| Appender.CustomAppender.NoLoss | src/main/java/com/custom/appender/CustomAppender.java:322-328 | the windows handed off (run or queued) followed by the buffer are every measured duration, in order |
| Appender.CustomAppender.WindowShape | src/main/java/com/custom/appender/CustomAppender.java:322-327 | with size ≥ 1, the buffer holds 1..size, every handed-off window holds exactly size, and all carry the first append's stamp |
| Appender.CustomAppender.HandoffCount | src/main/java/com/custom/appender/CustomAppender.java:322-328 | after N ≥ 1 appends with size W ≥ 1, (N-1) div W windows were handed off and N − W·((N-1) div W) are buffered |
| Appender.CustomAppender.RunNext | src/main/java/com/custom/appender/CustomAppender.java:344-350 | the worker runs the oldest queued window, if any, leaving the appender's window untouched and keeping the run-in-order invariant |
| Appender.WindowOfThreeHandoff | src/main/java/com/custom/appender/CustomAppender.java:322-328 | size 3, durations 10, 20, 30, 5: the fourth append hands off [10, 20, 30] and the next window keeps the first stamp |
| Appender.WindowOfThreeSummary | src/main/java/com/custom/appender/CustomAppender.java:355-360 | the window [10, 20, 30] summarises to max 30, min 10, average 20, median 20 |

## Left out

- `src/main/java/org/wso2/custom/appender/CustomAppender.java` is not part of this model. Its `append` only starts and stops a metrics timer around the same delegate.
- The builder, plugin factory, `stop`, advertiser and file-manager glue of the appender are not modelled. So is everything the delegate does: `checkRollover` and `super.append` are reduced to "succeeds or throws".
- Thread and executor lifecycle:
  - The executor is modelled as a FIFO queue.
  - Thread creation, concurrent callers of `append`, shutdown, and `RejectedExecutionException` are left out.
  - Work lost at process exit is left out.
- The report path (`carbon.home`, `File.separator`) is left out. So is the existence check of `createNewFile`, which is the `FileState` value.
- `Timestamp.toString` and `Double.toString` are not modelled: the rendering of timestamps and doubles is a function parameter (`Formats`).
- `Integer.parseInt` of the `EventArraySize` property is left out: the configured size arrives already parsed, and a malformed value's `NumberFormatException` is not modelled.
- Append: durations and clock readings are unbounded integers. A `Long` subtraction that wraps is not modelled.
- GetMedian: the sum of the two middle elements is not wrapped at 64 bits before the truncating division.
- CalculateAverage: the average is an exact real. The rounding of the `double` accumulator and of the division is not modelled.
- WriteToCsv: an I/O failure leaves the file as it was. Two cases are not modelled:
  - a failure after `createNewFile` succeeded, which leaves an empty file;
  - a failure partway through the buffered writes, which leaves a partial row.
- Run: the `LOGGER.error` call that reports a caught `IOException` is left out, since logging has no effect on the report or the appender's state.
- Report: a `NoSuchElementException` escaping `run` is returned as an outcome. What the executor then does with its worker thread is not modelled.
