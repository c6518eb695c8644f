/**
 * The latency report (LogEventLatency.writeToCSV): a `|`-separated text file
 * that gets a fixed header line when it is first created and one row per
 * summarised window after that, and is only ever appended to.
 */
module ReportSink {
  import opened Basics
  import opened Text

  /** The header line written when the file did not exist. */
  const Header: string := "LogEventStartTimeStamp|LogEventEndTimeStamp|Maxtime|Mintime|Avgtime|Median\n"

  /** The report file as the file system holds it. */
  datatype FileState = Absent | Present(content: string)

  /** One row: the fields joined by the separator, ending in a newline. */
  function Row(fields: seq<string>): (r: string)
    ensures |r| >= 1 && r[|r| - 1] == '\n'
  {
    Join(fields) + "\n"
  }

  /** The text a successful write leaves in the file: header first if the file was absent. */
  function AfterWrite(file: FileState, fields: seq<string>): (r: FileState)
    ensures r.Present?
    ensures file.Absent? ==> r.content == Header + Row(fields)
    ensures file.Present? ==> r.content == file.content + Row(fields)
  {
    match file
    case Absent => Present(Header + Row(fields))
    case Present(content) => Present(content + Row(fields))
  }

  /**
   * writeToCSV: creates the file with the header when it is absent, then writes
   * the fields with the separator between neighbours and a final newline.
   * When the file system refuses (ioFails), an IOException leaves the file as it was.
   */
  method WriteToCsv(file: FileState, eventLatency: seq<string>, ioFails: bool)
    returns (written: FileState, outcome: Outcome)
    ensures ioFails ==> written == file && outcome == Threw(IoError)
    ensures !ioFails ==> written == AfterWrite(file, eventLatency) && outcome == Completed
  {
    if ioFails {
      return file, Threw(IoError);
    }
    var content: string;
    if file.Absent? {
      // createNewFile succeeded: the new, empty file gets the header first
      content := Header;
    } else {
      content := file.content;
    }
    ghost var base := content;
    var appender := "";
    for i := 0 to |eventLatency|
      invariant content == base + Join(eventLatency[..i])
      invariant appender == if i == 0 then "" else [Separator]
    {
      JoinPrefixStep(eventLatency, i);
      content := content + appender + eventLatency[i];
      assert content == base + (Join(eventLatency[..i]) + appender + eventLatency[i]);
      appender := [Separator];
    }
    assert eventLatency[..|eventLatency|] == eventLatency;
    content := content + "\n";
    return Present(content), Completed;
  }

  /** The file after a run of successful writes, one per row, in order. */
  function WriteAll(file: FileState, rows: seq<seq<string>>): FileState
  {
    if rows == [] then file else AfterWrite(WriteAll(file, rows[..|rows| - 1]), rows[|rows| - 1])
  }

  /** The rows' text, one after another. */
  function Rows(rows: seq<seq<string>>): string
  {
    if rows == [] then "" else Rows(rows[..|rows| - 1]) + Row(rows[|rows| - 1])
  }

  /** Writing to a file that exists keeps everything it held as a prefix. */
  lemma {:induction false} AppendOnly(content: string, rows: seq<seq<string>>)
    ensures WriteAll(Present(content), rows) == Present(content + Rows(rows))
  {
    if rows != [] {
      AppendOnly(content, rows[..|rows| - 1]);
    }
  }

  /** Starting from an absent file, the header appears once, followed by every row in write order. */
  lemma {:induction false} HeaderOnce(rows: seq<seq<string>>)
    requires rows != []
    ensures WriteAll(Absent, rows) == Present(Header + Rows(rows))
  {
    var init, last := rows[..|rows| - 1], rows[|rows| - 1];
    if init == [] {
      assert WriteAll(Absent, rows) == AfterWrite(Absent, last);
      assert Rows(rows) == Row(last);
    } else {
      HeaderOnce(init);
      var h, r := Header, Rows(init);
      assert WriteAll(Absent, rows) == AfterWrite(Present(h + r), last);
      assert (h + r) + Row(last) == h + (r + Row(last));
    }
  }

  /** Two writes on an absent file: one header, then the two rows in call order. */
  lemma TwoWritesOnAbsentFile(first: seq<string>, second: seq<string>)
    ensures AfterWrite(AfterWrite(Absent, first), second) == Present(Header + Row(first) + Row(second))
  {
  }

  /** A row reads back as its fields when none of them holds the separator. */
  lemma RowReadsBack(fields: seq<string>)
    requires |fields| >= 1
    requires forall i :: 0 <= i < |fields| ==> Separator !in fields[i]
    ensures Split(Row(fields)[..|Row(fields)| - 1]) == fields
  {
    assert Row(fields)[..|Row(fields)| - 1] == Join(fields);
    SplitJoin(fields);
  }
}
