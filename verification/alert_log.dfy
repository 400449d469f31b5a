/** The dashboard's alert log (`alert_log.csv`): each non-empty alert table
    is stamped with one shared capture time and appended with
    `to_csv(mode='a', header=not os.path.exists(...), index=False)`. The
    file is modelled as whether it exists and its lines in order. */
module AlertLog {
  import opened Common
  import opened Seqs
  import opened Frames

  /** The column the capture time is written under (line 87 of the page). */
  const StampColumn: string := "Timestamp"

  datatype Line = Header(names: seq<string>) | Row(cells: seq<Cell>)

  datatype LogFile = LogFile(present: bool, lines: seq<Line>)

  function HeaderCount(lines: seq<Line>): nat {
    if |lines| == 0 then 0 else (if lines[0].Header? then 1 else 0) + HeaderCount(lines[1..])
  }

  function DataLines(lines: seq<Line>): nat {
    if |lines| == 0 then 0 else (if lines[0].Row? then 1 else 0) + DataLines(lines[1..])
  }

  lemma {:induction false} CountsConcat(a: seq<Line>, b: seq<Line>)
    ensures HeaderCount(a + b) == HeaderCount(a) + HeaderCount(b)
    ensures DataLines(a + b) == DataLines(a) + DataLines(b)
  {
    if |a| == 0 {
      assert a + b == b;
    } else {
      assert (a + b)[1..] == a[1..] + b;
      CountsConcat(a[1..], b);
    }
  }

  /** The data lines `to_csv(index=False)` writes for some rows: one per
      row, the row's cells in column order. */
  function CsvRows(rs: seq<Record>): (ls: seq<Line>)
    ensures |ls| == |rs|
    ensures forall i :: 0 <= i < |rs| ==> ls[i] == Row(rs[i].cells)
    ensures HeaderCount(ls) == 0 && DataLines(ls) == |rs|
  {
    if |rs| == 0 then []
    else
      var rest := CsvRows(rs[1..]);
      assert ([Row(rs[0].cells)] + rest)[1..] == rest;
      [Row(rs[0].cells)] + rest
  }

  /** A log only this program has written: absent and empty, or one header
      line followed by data lines only. */
  ghost predicate OwnLog(log: LogFile) {
    if log.present then |log.lines| > 0 && log.lines[0].Header? && forall i :: 0 < i < |log.lines| ==> log.lines[i].Row?
    else log.lines == []
  }

  /** `to_csv(path, mode='a', header=not os.path.exists(path), index=False)`:
      afterwards the file exists, its old lines are untouched, a header line
      is written first exactly when the file did not exist, and then one
      data line per row. */
  function AppendCsv(log: LogFile, f: Frame): (r: LogFile)
    ensures r.present
    ensures |log.lines| <= |r.lines| && r.lines[..|log.lines|] == log.lines
    ensures HeaderCount(r.lines) == HeaderCount(log.lines) + (if log.present then 0 else 1)
    ensures DataLines(r.lines) == DataLines(log.lines) + |f.records|
    ensures |r.lines| == |log.lines| + (if log.present then 0 else 1) + |f.records|
    ensures !log.present ==> r.lines[|log.lines|] == Header(f.columns)
    ensures forall i :: 0 <= i < |f.records| ==> r.lines[|r.lines| - |f.records| + i] == Row(f.records[i].cells)
    ensures OwnLog(log) ==> OwnLog(r)
  {
    var header := if log.present then [] else [Header(f.columns)];
    var rows := CsvRows(f.records);
    var r := LogFile(true, log.lines + header + rows);
    CountsConcat(log.lines, header);
    CountsConcat(log.lines + header, rows);
    assert r.lines[..|log.lines|] == log.lines;
    r
  }

  /** The alert table with the capture time in its `Timestamp` column. */
  function Stamp(alerts: Frame, now: string): (g: Frame)
    requires WellFormed(alerts)
    ensures WellFormed(g) && |g.records| == |alerts.records|
    ensures g.columns == StampedColumns(alerts)
    ensures forall i, t :: 0 <= i < |g.records| && 0 <= t < |g.columns| && g.columns[t] == StampColumn ==>
      g.records[i].cells[t] == Str(now)
    ensures forall i, t :: 0 <= i < |alerts.records| && 0 <= t < |alerts.columns| && alerts.columns[t] != StampColumn ==>
      g.records[i].cells[t] == alerts.records[i].cells[t]
  {
    SetColumn(alerts, StampColumn, seq(|alerts.records|, _ => Str(now)))
  }

  /** The columns a stamped alert table has. */
  function StampedColumns(alerts: Frame): seq<string> {
    if StampColumn in alerts.columns then alerts.columns else alerts.columns + [StampColumn]
  }

  /** Lines 84-90: nothing is written when there are no alerts; otherwise
      the alerts are appended, one data line each, with a header line
      exactly when the log did not exist yet. */
  function LogAlerts(log: LogFile, alerts: Frame, now: string): (r: LogFile)
    requires WellFormed(alerts)
    ensures |alerts.records| == 0 ==> r == log
    ensures |alerts.records| > 0 ==> r.present
    ensures |log.lines| <= |r.lines| && r.lines[..|log.lines|] == log.lines
    ensures HeaderCount(r.lines) == HeaderCount(log.lines) + (if log.present || |alerts.records| == 0 then 0 else 1)
    ensures DataLines(r.lines) == DataLines(log.lines) + |alerts.records|
    ensures |log.lines| + |alerts.records| <= |r.lines|
    ensures OwnLog(log) ==> OwnLog(r)
  {
    if |alerts.records| == 0 then log else AppendCsv(log, Stamp(alerts, now))
  }

  /** The data lines one logging step appends are the stamped alerts in
      order: the last `|alerts|` lines of the log, line `i` holding the
      cells of stamped alert `i` (`Stamp` says what those are). */
  lemma LoggedRowsStamped(log: LogFile, alerts: Frame, now: string, i: nat)
    requires WellFormed(alerts) && i < |alerts.records|
    ensures var r := LogAlerts(log, alerts, now);
      |alerts.records| <= |r.lines| &&
      r.lines[|r.lines| - |alerts.records| + i] == Row(Stamp(alerts, now).records[i].cells)
  {
    var g := Stamp(alerts, now);
    assert LogAlerts(log, alerts, now) == AppendCsv(log, g);
  }

  /** Logging a non-empty alert table without a `Timestamp` column writes
      lines one cell wider than the table: the header (when the log did not
      exist) and every data line. */
  lemma LoggedWidth(log: LogFile, alerts: Frame, now: string)
    requires WellFormed(alerts) && |alerts.records| > 0 && StampColumn !in alerts.columns
    ensures var r := LogAlerts(log, alerts, now);
      && |log.lines| < |r.lines|
      && r.lines[|r.lines| - 1].Row? && |r.lines[|r.lines| - 1].cells| == |alerts.columns| + 1
      && (!log.present ==> r.lines[|log.lines|] == Header(alerts.columns + [StampColumn]))
      && (|log.lines| > 0 ==> r.lines[0] == log.lines[0])
  {
    var g := Stamp(alerts, now);
    var r := AppendCsv(log, g);
    assert LogAlerts(log, alerts, now) == r;
    assert g.columns == alerts.columns + [StampColumn];
    var last := |g.records| - 1;
    assert r.lines[|r.lines| - 1] == Row(g.records[last].cells) by {
      assert r.lines[|r.lines| - |g.records| + last] == Row(g.records[last].cells);
    }
    assert g.records[last] in g.records;
    if |log.lines| > 0 {
      assert r.lines[0] == r.lines[..|log.lines|][0];
    }
  }

  /** Two logging steps into a fresh log, the second with a wider table:
      the header comes from the first table, so the second's data lines
      have more cells than the header has names. */
  lemma WiderTableOutgrowsHeader(alerts1: Frame, alerts2: Frame, now1: string, now2: string, log1: LogFile, log2: LogFile)
    requires WellFormed(alerts1) && |alerts1.records| > 0 && StampColumn !in alerts1.columns
    requires WellFormed(alerts2) && |alerts2.records| > 0 && StampColumn !in alerts2.columns
    requires |alerts1.columns| < |alerts2.columns|
    requires log1 == LogAlerts(LogFile(false, []), alerts1, now1) && log2 == LogAlerts(log1, alerts2, now2)
    ensures |log2.lines| > 0 && log2.lines[0].Header? && log2.lines[|log2.lines| - 1].Row?
    ensures |log2.lines[0].names| < |log2.lines[|log2.lines| - 1].cells|
  {
    LoggedWidth(LogFile(false, []), alerts1, now1);
    LoggedWidth(log1, alerts2, now2);
  }

  /** In a log of our own, the header count is 1 once the file exists. */
  lemma OwnLogHeaders(log: LogFile)
    requires OwnLog(log)
    ensures HeaderCount(log.lines) == if log.present then 1 else 0
  {
    if log.present {
      NoHeaders(log.lines[1..]);
    }
  }

  lemma {:induction false} NoHeaders(ls: seq<Line>)
    requires forall i :: 0 <= i < |ls| ==> ls[i].Row?
    ensures HeaderCount(ls) == 0
  {
    if |ls| > 0 {
      assert forall i :: 0 <= i < |ls[1..]| ==> ls[1..][i] == ls[i + 1];
      NoHeaders(ls[1..]);
    }
  }

  /** Successive cycles: each batch of alerts logged with its own capture
      time. */
  function LogAll(log: LogFile, batches: seq<(Frame, string)>): LogFile
    requires forall i :: 0 <= i < |batches| ==> WellFormed(batches[i].0)
    decreases |batches|
  {
    if |batches| == 0 then log
    else
      assert forall i :: 1 <= i < |batches| ==> batches[i] == batches[1..][i - 1];
      LogAll(LogAlerts(log, batches[0].0, batches[0].1), batches[1..])
  }

  /** Whatever the sequence of cycles, a log that starts absent ends as one
      header line followed by data lines: the header is written exactly once,
      as soon as the first non-empty batch is logged, and the data lines are
      one per logged alert. */
  lemma LogAllSingleHeader(log: LogFile, batches: seq<(Frame, string)>)
    requires forall i :: 0 <= i < |batches| ==> WellFormed(batches[i].0)
    requires OwnLog(log)
    ensures var r := LogAll(log, batches);
      && OwnLog(r)
      && (r.present <==> log.present || exists i :: 0 <= i < |batches| && |batches[i].0.records| > 0)
      && HeaderCount(r.lines) == (if r.present then 1 else 0)
      && |log.lines| <= |r.lines| && r.lines[..|log.lines|] == log.lines
      && DataLines(r.lines) == DataLines(log.lines) + AlertCount(batches)
  {
    LogAllGrows(log, batches);
    LogAllPresent(log, batches);
    OwnLogHeaders(LogAll(log, batches));
  }

  lemma {:induction false} LogAllGrows(log: LogFile, batches: seq<(Frame, string)>)
    requires forall i :: 0 <= i < |batches| ==> WellFormed(batches[i].0)
    ensures var r := LogAll(log, batches);
      && (OwnLog(log) ==> OwnLog(r))
      && |log.lines| <= |r.lines| && r.lines[..|log.lines|] == log.lines
      && DataLines(r.lines) == DataLines(log.lines) + AlertCount(batches)
    decreases |batches|
  {
    if |batches| > 0 {
      var r := LogAll(log, batches);
      var next := LogAlerts(log, batches[0].0, batches[0].1);
      assert forall i :: 1 <= i < |batches| ==> batches[i] == batches[1..][i - 1];
      LogAllGrows(next, batches[1..]);
      assert r.lines[..|log.lines|] == r.lines[..|next.lines|][..|log.lines|];
    }
  }

  lemma {:induction false} LogAllPresent(log: LogFile, batches: seq<(Frame, string)>)
    requires forall i :: 0 <= i < |batches| ==> WellFormed(batches[i].0)
    ensures LogAll(log, batches).present <==> log.present || exists i :: 0 <= i < |batches| && |batches[i].0.records| > 0
    decreases |batches|
  {
    if |batches| > 0 {
      var next := LogAlerts(log, batches[0].0, batches[0].1);
      assert forall i :: 1 <= i < |batches| ==> batches[i] == batches[1..][i - 1];
      LogAllPresent(next, batches[1..]);
      if exists i :: 0 <= i < |batches| && |batches[i].0.records| > 0 {
        var i :| 0 <= i < |batches| && |batches[i].0.records| > 0;
        if i > 0 {
          assert |batches[1..][i - 1].0.records| > 0;
        }
      }
    }
  }

  /** The number of alerts over all batches. */
  function AlertCount(batches: seq<(Frame, string)>): nat {
    if |batches| == 0 then 0 else |batches[0].0.records| + AlertCount(batches[1..])
  }
}
