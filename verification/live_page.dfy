/** The hybrid dashboard page (`pages/2_Live_Analysis.py`): while sniffing,
    each rerun captures up to 15 packets into the session's buffer, scores
    the whole buffer with the classifier (known attacks) and the isolation
    forest (anomalies), keeps the rows either model flags, and appends them
    to the alert log. */
module LivePage {
  import opened Common
  import opened Seqs
  import opened Frames
  import opened Packets
  import opened Features
  import Labels
  import Models
  import AlertLog

  const KnownColumn: string := "Known Attack Type"
  const AnomalyColumn: string := "Anomaly Detected"

  /** `sniff(count=15, timeout=5)` delivers at most this many packets. */
  const PacketsPerCycle: nat := 15

  /** What `load_assets` returns on the page. */
  datatype LiveAssets = LiveAssets(
    classifier: Models.Predictor,
    detector: Models.Predictor,
    scaler: Models.Scaler,
    classes: seq<string>,
    schema: seq<string>)

  /** `st.session_state`: whether sniffing is on and the captured rows. */
  datatype Session = Session(sniffing: bool, buffer: seq<Dict>)

  datatype Button = NoClick | StartClicked | StopClicked

  /** Lines 54-58. Start turns sniffing on with an empty buffer; Stop turns
      it off; the buffer is emptied on Start and on nothing else. */
  function Press(s: Session, b: Button): (r: Session)
    ensures b == StartClicked ==> r == Session(true, [])
    ensures b == StopClicked ==> !r.sniffing
    ensures b == NoClick ==> r == s
    ensures r.buffer != s.buffer ==> b == StartClicked && r.buffer == []
  {
    match b
    case StartClicked => Session(true, [])
    case StopClicked => s.(sniffing := false)
    case NoClick => s
  }

  /** Every buffered row has distinct keys covering the schema. */
  ghost predicate BufferCovers(buf: seq<Dict>, schema: seq<string>) {
    forall i :: 0 <= i < |buf| ==> CoversSchema(buf[i], schema)
  }

  /** Appending extraction results to the buffer in order, up to the first
      one that raised: the rows before it are kept, the exception ends the
      capture. */
  function Collect(buf: seq<Dict>, rows: seq<Result<Dict>>): (r: (seq<Dict>, Option<Error>))
    ensures |buf| <= |r.0| <= |buf| + |rows| && r.0[..|buf|] == buf
    ensures forall k :: |buf| <= k < |r.0| ==> rows[k - |buf|] == Ok(r.0[k])
    ensures r.1.None? <==> forall k :: 0 <= k < |rows| ==> rows[k].Ok?
    ensures r.1.None? ==> |r.0| == |buf| + |rows|
    ensures r.1.Some? ==> |r.0| < |buf| + |rows| && rows[|r.0| - |buf|] == Err(r.1.value)
    decreases |rows|
  {
    if |rows| == 0 then (buf, None)
    else match rows[0]
      case Err(e) => (buf, Some(e))
      case Ok(d) =>
        var r := Collect(buf + [d], rows[1..]);
        assert r.0[..|buf|] == r.0[..|buf| + 1][..|buf|];
        assert r.0[|buf|] == (buf + [d])[|buf|];
        assert forall k :: 1 <= k < |rows| ==> rows[k] == rows[1..][k - 1];
        r
  }

  /** Lines 41-50 and 63: every captured packet appends its extracted row to
      the buffer, in capture order. The page's `process_packet` has no
      `try`, so the first packet with an IP layer but no ports raises
      `AttributeError` out of `sniff`: capture stops there, keeping the rows
      appended before it. */
  function Capture(buf: seq<Dict>, packets: seq<Packet>, schema: seq<string>): (r: (seq<Dict>, Option<Error>))
    ensures |buf| <= |r.0| <= |buf| + |packets| && r.0[..|buf|] == buf
    ensures r.1.None? <==> forall k :: 0 <= k < |packets| ==> BaseRow(packets[k], schema).Ok?
    ensures r.1.None? ==> |r.0| == |buf| + |packets|
  {
    Collect(buf, Extracted(packets, schema))
  }

  /** The extraction result of every packet, in capture order. */
  function Extracted(packets: seq<Packet>, schema: seq<string>): (rows: seq<Result<Dict>>)
    ensures |rows| == |packets|
    ensures forall k {:trigger BaseRow(packets[k], schema)} :: 0 <= k < |packets| ==> rows[k] == BaseRow(packets[k], schema)
    ensures forall k :: 0 <= k < |packets| && rows[k].Err? ==> rows[k].error == MissingAttribute("sport")
  {
    seq(|packets|, k requires 0 <= k < |packets| => BaseRow(packets[k], schema))
  }

  /** Row `k` appended by a capture is the extracted row of the `k`-th
      captured packet: rows go in capture order. */
  lemma CaptureRowAt(buf: seq<Dict>, packets: seq<Packet>, schema: seq<string>, k: nat)
    requires |buf| <= k < |Capture(buf, packets, schema).0|
    ensures BaseRow(packets[k - |buf|], schema) == Ok(Capture(buf, packets, schema).0[k])
  {
    var rows := Extracted(packets, schema);
    assert rows[k - |buf|] == BaseRow(packets[k - |buf|], schema);
  }

  /** A capture that stops early stops at a packet whose extraction raised
      `AttributeError`, and that is the exception it reports. */
  lemma CaptureStop(buf: seq<Dict>, packets: seq<Packet>, schema: seq<string>)
    requires Capture(buf, packets, schema).1.Some?
    ensures var r := Capture(buf, packets, schema);
      && r.1 == Some(MissingAttribute("sport"))
      && |r.0| < |buf| + |packets|
      && Extracted(packets, schema)[|r.0| - |buf|].Err?
  {
  }

  /** Capturing keeps every buffered row covering the schema. */
  lemma CaptureCovers(buf: seq<Dict>, packets: seq<Packet>, schema: seq<string>)
    requires BufferCovers(buf, schema)
    ensures BufferCovers(Capture(buf, packets, schema).0, schema)
  {
    var r := Capture(buf, packets, schema).0;
    forall k | 0 <= k < |r| ensures CoversSchema(r[k], schema) {
      if k < |buf| {
        assert r[k] == r[..|buf|][k];
      } else {
        var p := packets[k - |buf|];
        CaptureRowAt(buf, packets, schema, k);
        BaseRowCoversSchema(p, schema);
      }
    }
  }

  /** The buffer reindexed onto the schema (line 67). The table built from
      the buffer has distinct column names, so this never fails: a schema
      column some buffered row has holds each row's value, or NaN where a
      row lacks it; a schema column no row has is the 0 fill. */
  function AlignBuffer(buf: seq<Dict>, schema: seq<string>): (res: Result<Frame>)
    requires forall i :: 0 <= i < |buf| ==> KeysDistinct(buf[i])
    ensures res.Ok? && res.value.columns == schema && WellFormed(res.value)
    ensures |res.value.records| == |buf| && RangeIndexed(res.value)
    ensures forall i, j :: 0 <= i < |buf| && 0 <= j < |schema| ==>
      res.value.records[i].cells[j] ==
        if schema[j] in FrameOfDicts(buf).columns then
          (match Get(buf[i], schema[j]) case Some(v) => Num(v) case None => NaN)
        else Num(0)
  {
    var f := FrameOfDicts(buf);
    var res := ReindexColumns(f, schema);
    forall i, j | 0 <= i < |buf| && 0 <= j < |schema| && schema[j] in f.columns
      ensures res.value.records[i].cells[j] == match Get(buf[i], schema[j]) case Some(v) => Num(v) case None => NaN
    {
      var k :| 0 <= k < |f.columns| && f.columns[k] == schema[j];
    }
    res
  }

  /** Reindexing the buffer never fails on the page, and gives exactly the
      schema's columns, one row per buffered row in order, each cell the
      row's value for that column: the extraction's entries outside the
      schema are dropped, and no cell is missing, so the batch is numeric. */
  lemma AlignBufferCells(buf: seq<Dict>, schema: seq<string>)
    requires BufferCovers(buf, schema)
    ensures AlignBuffer(buf, schema).Ok?
    ensures var g := AlignBuffer(buf, schema).value;
      && g.columns == schema && |g.records| == |buf| && RangeIndexed(g)
      && (forall i, j :: 0 <= i < |buf| && 0 <= j < |schema| ==> g.records[i].cells[j] == Num(Get(buf[i], schema[j]).value))
      && Models.AllNumeric(g)
  {
    var f := FrameOfDicts(buf);
    var g := AlignBuffer(buf, schema).value;
    forall i, j | 0 <= i < |buf| && 0 <= j < |schema| ensures g.records[i].cells[j] == Num(Get(buf[i], schema[j]).value) {
      assert schema[j] in Keys(buf[i]);
      assert schema[j] in f.columns;
      var k :| 0 <= k < |f.columns| && f.columns[k] == schema[j];
      assert g.records[i].cells[j] == f.records[i].cells[k];
    }
    forall i, j | 0 <= i < |g.records| && 0 <= j < |g.records[i].cells| ensures g.records[i].cells[j].Num? {
      assert g.records[i] in g.records;
    }
  }

  /** The scored buffer: the captured table with the two verdict columns,
      and the verdicts themselves. */
  datatype Scored = Scored(table: Frame, known: seq<string>, flags: seq<string>)

  /** The verdict columns of `sc.table` hold `sc.known` and `sc.flags`. */
  ghost predicate Valid(sc: Scored) {
    && WellFormed(sc.table)
    && |sc.known| == |sc.flags| == |sc.table.records|
    && KnownColumn in sc.table.columns && AnomalyColumn in sc.table.columns
    && (forall i, j :: 0 <= i < |sc.known| && 0 <= j < |sc.table.columns| && sc.table.columns[j] == KnownColumn ==>
          sc.table.records[i].cells[j] == Str(sc.known[i]))
    && (forall i, j :: 0 <= i < |sc.flags| && 0 <= j < |sc.table.columns| && sc.table.columns[j] == AnomalyColumn ==>
          sc.table.records[i].cells[j] == Str(sc.flags[i]))
  }

  /** The features one aligned row is scored on. */
  function RowInput(a: LiveAssets, aligned: Frame, i: nat): seq<int>
    requires i < |aligned.records|
  {
    a.scaler.transform(Models.NumbersOf(aligned.records[i].cells))
  }

  /** Lines 68-72 and 75: scale the aligned rows, classify and decode each
      one, and run the detector on each one. Row `i` gets the decoded
      classifier output and the anomaly flag ("Yes" exactly for a detector
      output of -1) of its own aligned features. */
  function Verdicts(aligned: Frame, a: LiveAssets): (res: Result<(seq<string>, seq<string>)>)
    ensures res.Ok? ==> |res.value.0| == |res.value.1| == |aligned.records|
    ensures res.Ok? ==> forall i :: 0 <= i < |aligned.records| ==>
      && Labels.Decode(a.classes, a.classifier(RowInput(a, aligned, i))) == Ok(res.value.0[i])
      && (res.value.1[i] == "Yes" <==> a.detector(RowInput(a, aligned, i)) == -1)
      && (res.value.1[i] == "Yes" || res.value.1[i] == "No")
    ensures res.Ok? <==> (Models.Scale(a.scaler, aligned).Ok? &&
      forall i :: 0 <= i < |aligned.records| ==> 0 <= a.classifier(RowInput(a, aligned, i)) < |a.classes|)
  {
    match Models.Scale(a.scaler, aligned)
    case Err(e) => Err(e)
    case Ok(scaled) =>
      var codes := Models.Predict(a.classifier, scaled);
      assert forall i :: 0 <= i < |aligned.records| ==> codes[i] == a.classifier(RowInput(a, aligned, i));
      match Labels.DecodeAll(a.classes, codes)
      case Err(e) => Err(e)
      case Ok(known) =>
        var outliers := Models.Predict(a.detector, scaled);
        assert forall i :: 0 <= i < |aligned.records| ==> outliers[i] == a.detector(RowInput(a, aligned, i));
        Ok((known, Map(outliers, Models.AnomalyFlag)))
  }

  /** `t` is `captured` with columns added behind its own: the captured
      columns stay first and in order, every row keeps its label, and every
      captured cell outside the two verdict columns keeps its value. */
  ghost predicate Extends(captured: Frame, t: Frame) {
    && WellFormed(captured) && WellFormed(t)
    && |t.records| == |captured.records|
    && |captured.columns| <= |t.columns| && t.columns[..|captured.columns|] == captured.columns
    && (forall i :: 0 <= i < |captured.records| ==> t.records[i].id == captured.records[i].id)
    && forall i, j ::
         (0 <= i < |captured.records| && 0 <= j < |captured.columns| &&
          captured.columns[j] != KnownColumn && captured.columns[j] != AnomalyColumn) ==>
         t.records[i].cells[j] == captured.records[i].cells[j]
  }

  /** Lines 74-75: the two verdict columns added to the captured table;
      they are appended last unless the table already had them. */
  function AddVerdicts(captured: Frame, known: seq<string>, flags: seq<string>): (sc: Scored)
    requires WellFormed(captured) && |known| == |flags| == |captured.records|
    ensures Valid(sc) && sc.known == known && sc.flags == flags
    ensures Extends(captured, sc.table)
    ensures KnownColumn !in captured.columns && AnomalyColumn !in captured.columns ==>
      sc.table.columns == captured.columns + [KnownColumn, AnomalyColumn]
    ensures KnownColumn in captured.columns && AnomalyColumn in captured.columns ==>
      sc.table.columns == captured.columns
  {
    var withKnown := SetColumn(captured, KnownColumn, StrCells(known));
    var table := SetColumn(withKnown, AnomalyColumn, StrCells(flags));
    assert KnownColumn in withKnown.columns;
    forall i, j | 0 <= i < |known| && 0 <= j < |table.columns| && table.columns[j] == KnownColumn
      ensures table.records[i].cells[j] == Str(known[i])
    {
      assert j < |withKnown.columns| && withKnown.columns[j] == KnownColumn;
    }
    assert table.columns[..|captured.columns|] == captured.columns;
    Scored(table, known, flags)
  }

  /** Lines 65-75: build the captured table from the buffer, align it,
      score it, and add the verdicts to the captured table (not to the
      aligned one), which is what gets shown and logged. */
  function ScoreBuffer(buf: seq<Dict>, a: LiveAssets): (res: Result<Scored>)
    requires forall i :: 0 <= i < |buf| ==> KeysDistinct(buf[i])
    ensures res.Ok? ==> Valid(res.value) && Extends(FrameOfDicts(buf), res.value.table)
    ensures res.Ok? <==> Verdicts(AlignBuffer(buf, a.schema).value, a).Ok?
    ensures res.Ok? ==> (res.value.known, res.value.flags) == Verdicts(AlignBuffer(buf, a.schema).value, a).value
    ensures res.Err? ==> res == Err(Verdicts(AlignBuffer(buf, a.schema).value, a).error)
  {
    var aligned := AlignBuffer(buf, a.schema).value;
    match Verdicts(aligned, a)
    case Err(e) => Err(e)
    case Ok(v) => Ok(AddVerdicts(FrameOfDicts(buf), v.0, v.1))
  }

  /** The scored table of a buffer has one row per buffered row, labelled
      0, 1, 2, …; each captured column other than the verdict ones holds
      that row's value, or NaN where the row lacks the key; when no buffered
      row has a verdict key, the two verdict columns follow the captured
      ones. */
  lemma ScoredRows(buf: seq<Dict>, a: LiveAssets)
    requires forall i :: 0 <= i < |buf| ==> KeysDistinct(buf[i])
    requires ScoreBuffer(buf, a).Ok?
    ensures var t := ScoreBuffer(buf, a).value.table;
      var cols := FrameOfDicts(buf).columns;
      && |t.records| == |buf|
      && (KnownColumn !in cols && AnomalyColumn !in cols ==> t.columns == cols + [KnownColumn, AnomalyColumn])
      && (forall i :: 0 <= i < |buf| ==> t.records[i].id == i)
      && |t.columns| >= |cols| && (forall i :: 0 <= i < |buf| ==> |t.records[i].cells| == |t.columns|)
      && forall i, j :: 0 <= i < |buf| && 0 <= j < |cols| && cols[j] != KnownColumn && cols[j] != AnomalyColumn ==>
           t.records[i].cells[j] == match Get(buf[i], cols[j]) case Some(v) => Num(v) case None => NaN
  {
    ScoredShape(buf, a);
    ScoredCells(buf, a);
  }

  lemma ScoredShape(buf: seq<Dict>, a: LiveAssets)
    requires forall i :: 0 <= i < |buf| ==> KeysDistinct(buf[i])
    requires ScoreBuffer(buf, a).Ok?
    ensures var t := ScoreBuffer(buf, a).value.table;
      var cols := FrameOfDicts(buf).columns;
      && |t.records| == |buf|
      && (KnownColumn !in cols && AnomalyColumn !in cols ==> t.columns == cols + [KnownColumn, AnomalyColumn])
      && (forall i :: 0 <= i < |buf| ==> t.records[i].id == i)
  {
  }

  lemma ScoredCells(buf: seq<Dict>, a: LiveAssets)
    requires forall i :: 0 <= i < |buf| ==> KeysDistinct(buf[i])
    requires ScoreBuffer(buf, a).Ok?
    ensures var t := ScoreBuffer(buf, a).value.table;
      var cols := FrameOfDicts(buf).columns;
      && |t.records| == |buf| && |t.columns| >= |cols|
      && (forall i :: 0 <= i < |buf| ==> |t.records[i].cells| == |t.columns|)
      && forall i, j :: 0 <= i < |buf| && 0 <= j < |cols| && cols[j] != KnownColumn && cols[j] != AnomalyColumn ==>
           t.records[i].cells[j] == match Get(buf[i], cols[j]) case Some(v) => Num(v) case None => NaN
  {
    var f := FrameOfDicts(buf);
    var t := ScoreBuffer(buf, a).value.table;
    forall i | 0 <= i < |buf| ensures |t.records[i].cells| == |t.columns| {
      assert t.records[i] in t.records;
    }
    forall i, j | 0 <= i < |buf| && 0 <= j < |f.columns| && f.columns[j] != KnownColumn && f.columns[j] != AnomalyColumn
      ensures t.records[i].cells[j] == match Get(buf[i], f.columns[j]) case Some(v) => Num(v) case None => NaN
    {
    }
  }

  /** With the schema the scaler was fitted on and a classifier that only
      emits codes of known classes, scoring a non-empty buffer of extracted
      rows always succeeds. */
  lemma ScoreBufferSucceeds(buf: seq<Dict>, a: LiveAssets)
    requires BufferCovers(buf, a.schema) && |buf| > 0
    requires a.scaler.featureNames == a.schema && |a.schema| > 0
    requires forall v :: 0 <= a.classifier(v) < |a.classes|
    ensures ScoreBuffer(buf, a).Ok?
  {
    AlignBufferCells(buf, a.schema);
  }

  /** The hybrid verdict of each row (lines 77-80). */
  function AlertMask(known: seq<string>, flags: seq<string>): (m: seq<bool>)
    requires |known| == |flags|
    ensures |m| == |known|
    ensures forall i :: 0 <= i < |known| ==> (m[i] <==> known[i] != Labels.Benign || flags[i] == "Yes")
  {
    seq(|known|, i requires 0 <= i < |known| => Models.IsAlert(known[i], flags[i]))
  }

  /** The row predicate of lines 77-80 on the scored table, whose columns
      `k` and `n` hold the two verdicts. */
  function IsAlertRow(k: nat, n: nat): Record -> bool {
    (r: Record) => k < |r.cells| && n < |r.cells| && r.cells[k].Str? && r.cells[n].Str? &&
      Models.IsAlert(r.cells[k].s, r.cells[n].s)
  }

  /** Lines 77-80: the alert table has the scored table's columns and is
      exactly the scored rows the classifier calls an attack or the detector
      an anomaly, in their order. */
  function AlertFrame(sc: Scored): (g: Frame)
    requires Valid(sc)
    ensures WellFormed(g) && g.columns == sc.table.columns
    ensures g.records == Mask(sc.table.records, AlertMask(sc.known, sc.flags))
    ensures |g.records| <= |sc.table.records|
  {
    var k := IndexOf(sc.table.columns, KnownColumn).value;
    var n := IndexOf(sc.table.columns, AnomalyColumn).value;
    var g := SelectRows(sc.table, IsAlertRow(k, n));
    var m := AlertMask(sc.known, sc.flags);
    assert g.records == Mask(sc.table.records, m) by {
      forall i | 0 <= i < |sc.table.records| ensures IsAlertRow(k, n)(sc.table.records[i]) == m[i] {
        assert sc.table.records[i] in sc.table.records;
      }
      FilterIsMask(sc.table.records, IsAlertRow(k, n), m);
    }
    assert WellFormed(g) by {
      forall r | r in g.records ensures |r.cells| == |g.columns| {
        FilterMember(sc.table.records, IsAlertRow(k, n), r);
      }
    }
    g
  }

  /** The hybrid verdict in terms of the two models' raw outputs on each
      row's aligned features: a scored row is kept as an alert exactly when
      the classifier's code does not decode to `BENIGN` or the detector
      returns -1, and the alert table is empty exactly when, on every row,
      the code decodes to `BENIGN` and the detector does not return -1. */
  lemma HybridVerdict(buf: seq<Dict>, a: LiveAssets)
    requires forall i :: 0 <= i < |buf| ==> KeysDistinct(buf[i])
    requires ScoreBuffer(buf, a).Ok?
    ensures var sc := ScoreBuffer(buf, a).value;
      var aligned := AlignBuffer(buf, a.schema).value;
      var m := AlertMask(sc.known, sc.flags);
      && |m| == |buf| == |aligned.records|
      && (forall i :: 0 <= i < |buf| ==>
            (m[i] <==> Labels.Decode(a.classes, a.classifier(RowInput(a, aligned, i))) != Ok(Labels.Benign)
                       || a.detector(RowInput(a, aligned, i)) == -1))
      && (|AlertFrame(sc).records| == 0 <==> forall i :: 0 <= i < |buf| ==>
            Labels.Decode(a.classes, a.classifier(RowInput(a, aligned, i))) == Ok(Labels.Benign)
            && a.detector(RowInput(a, aligned, i)) != -1)
  {
    var sc := ScoreBuffer(buf, a).value;
    var aligned := AlignBuffer(buf, a.schema).value;
    var m := AlertMask(sc.known, sc.flags);
    assert forall i :: 0 <= i < |buf| ==>
      (m[i] <==> Labels.Decode(a.classes, a.classifier(RowInput(a, aligned, i))) != Ok(Labels.Benign)
                 || a.detector(RowInput(a, aligned, i)) == -1) by {
      assert (sc.known, sc.flags) == Verdicts(aligned, a).value;
    }
    NoAlertsIffQuiet(sc);
  }

  /** The alert table is empty exactly when no row's hybrid verdict holds. */
  lemma NoAlertsIffQuiet(sc: Scored)
    requires Valid(sc)
    ensures var m := AlertMask(sc.known, sc.flags);
      |AlertFrame(sc).records| == 0 <==> forall i :: 0 <= i < |m| ==> !m[i]
  {
    var m := AlertMask(sc.known, sc.flags);
    assert |AlertFrame(sc).records| == Count(m, true);
    assert true in m <==> exists i :: 0 <= i < |m| && m[i];
  }

  /** The result of one rerun while sniffing: the session afterwards, the
      log afterwards, and the exception that ended the run, if any. */
  datatype CycleResult = CycleResult(session: Session, log: AlertLog.LogFile, crash: Option<Error>)

  /** Lines 64-90 on the captured buffer: nothing happens while it is
      empty; otherwise it is scored and its alerts are logged. An exception
      while scoring ends the rerun with the log as it was. The log only
      ever grows, by at most one data line per buffered row. */
  function ScoreAndLog(buf: seq<Dict>, a: LiveAssets, now: string, log: AlertLog.LogFile): (r: (AlertLog.LogFile, Option<Error>))
    requires forall i :: 0 <= i < |buf| ==> KeysDistinct(buf[i])
    ensures |buf| == 0 ==> r == (log, None)
    ensures |buf| > 0 && ScoreBuffer(buf, a).Err? ==> r == (log, Some(ScoreBuffer(buf, a).error))
    ensures |buf| > 0 && ScoreBuffer(buf, a).Ok? ==>
      r == (AlertLog.LogAlerts(log, AlertFrame(ScoreBuffer(buf, a).value), now), None)
    ensures |log.lines| <= |r.0.lines| && r.0.lines[..|log.lines|] == log.lines
    ensures AlertLog.DataLines(r.0.lines) <= AlertLog.DataLines(log.lines) + |buf|
  {
    if |buf| == 0 then (log, None)
    else match ScoreBuffer(buf, a)
      case Err(e) => (log, Some(e))
      case Ok(sc) => (AlertLog.LogAlerts(log, AlertFrame(sc), now), None)
  }

  /** Lines 61-92 for one rerun, capturing into `start`: capture, then score
      and log. An exception during capture ends the rerun before anything
      is scored. */
  function RunCycle(start: seq<Dict>, a: LiveAssets, packets: seq<Packet>, now: string, log: AlertLog.LogFile): (r: CycleResult)
    requires BufferCovers(start, a.schema)
    ensures r.session.sniffing && BufferCovers(r.session.buffer, a.schema)
    ensures |start| <= |r.session.buffer| <= |start| + |packets| && r.session.buffer[..|start|] == start
    ensures r.crash.None? ==> |r.session.buffer| == |start| + |packets|
    ensures Capture(start, packets, a.schema).1.None? ==>
      (r.log, r.crash) == ScoreAndLog(r.session.buffer, a, now, log)
    ensures Capture(start, packets, a.schema).1.Some? ==>
      r.log == log && r.crash == Capture(start, packets, a.schema).1
    ensures |log.lines| <= |r.log.lines| && r.log.lines[..|log.lines|] == log.lines
    ensures AlertLog.DataLines(r.log.lines) <= AlertLog.DataLines(log.lines) + |r.session.buffer|
  {
    var (buf, failure) := Capture(start, packets, a.schema);
    CaptureCovers(start, packets, a.schema);
    if failure.Some? then CycleResult(Session(true, buf), log, failure)
    else
      var (logged, crash) := ScoreAndLog(buf, a, now, log);
      CycleResult(Session(true, buf), logged, crash)
  }

  /** The page as written: the buffer is carried over from the previous
      rerun, so every rerun rescores and relogs every row captured since
      Start, and the buffer grows by a whole window each rerun. */
  function CycleAsWritten(s: Session, a: LiveAssets, packets: seq<Packet>, now: string, log: AlertLog.LogFile): (r: CycleResult)
    requires BufferCovers(s.buffer, a.schema) && |packets| <= PacketsPerCycle
    ensures |s.buffer| <= |r.session.buffer| && r.session.buffer[..|s.buffer|] == s.buffer
    ensures r.crash.None? ==> |r.session.buffer| == |s.buffer| + |packets|
  {
    RunCycle(s.buffer, a, packets, now, log)
  }

  /** The evident intent: each rerun scores and logs only the packets it
      captured itself, so its buffer never holds more than one capture
      window and it adds at most one data line per packet. */
  function Cycle(s: Session, a: LiveAssets, packets: seq<Packet>, now: string, log: AlertLog.LogFile): (r: CycleResult)
    requires |packets| <= PacketsPerCycle
    ensures |r.session.buffer| <= |packets| <= PacketsPerCycle
    ensures |log.lines| <= |r.log.lines| && r.log.lines[..|log.lines|] == log.lines
    ensures AlertLog.DataLines(r.log.lines) <= AlertLog.DataLines(log.lines) + |packets|
  {
    RunCycle([], a, packets, now, log)
  }

  /** With every row scored as an anomaly (a detector that returns -1
      throughout), a rerun of the page as written logs one line for every
      row captured since Start, not just for this rerun's packets: a rerun
      that follows one with a packet, and captures one packet itself, logs
      two data lines. */
  lemma AsWrittenRelogs(s: Session, a: LiveAssets, packets: seq<Packet>, now: string, log: AlertLog.LogFile)
    requires BufferCovers(s.buffer, a.schema) && |packets| <= PacketsPerCycle
    requires forall v :: a.detector(v) == -1
    requires CycleAsWritten(s, a, packets, now, log).crash.None?
    ensures var r := CycleAsWritten(s, a, packets, now, log);
      AlertLog.DataLines(r.log.lines) == AlertLog.DataLines(log.lines) + |s.buffer| + |packets|
  {
    var r := RunCycle(s.buffer, a, packets, now, log);
    assert Capture(s.buffer, packets, a.schema).1.None?;
    ScoreAndLogEveryRow(r.session.buffer, a, now, log);
  }

  /** The corrected rerun under the same detector logs exactly one data
      line per packet it captured itself. */
  lemma CycleLogsEachPacketOnce(s: Session, a: LiveAssets, packets: seq<Packet>, now: string, log: AlertLog.LogFile)
    requires |packets| <= PacketsPerCycle
    requires forall v :: a.detector(v) == -1
    requires Cycle(s, a, packets, now, log).crash.None?
    ensures var r := Cycle(s, a, packets, now, log);
      AlertLog.DataLines(r.log.lines) == AlertLog.DataLines(log.lines) + |packets|
  {
    var r := RunCycle([], a, packets, now, log);
    assert Capture([], packets, a.schema).1.None?;
    ScoreAndLogEveryRow(r.session.buffer, a, now, log);
  }

  /** With a detector that flags everything, scoring and logging a buffer
      without an exception logs one data line per buffered row. */
  lemma ScoreAndLogEveryRow(buf: seq<Dict>, a: LiveAssets, now: string, log: AlertLog.LogFile)
    requires forall i :: 0 <= i < |buf| ==> KeysDistinct(buf[i])
    requires forall v :: a.detector(v) == -1
    requires ScoreAndLog(buf, a, now, log).1.None?
    ensures AlertLog.DataLines(ScoreAndLog(buf, a, now, log).0.lines) == AlertLog.DataLines(log.lines) + |buf|
  {
    if |buf| > 0 {
      var sc := ScoreBuffer(buf, a).value;
      AllFlagged(buf, a);
      AllAlerts(sc);
    }
  }

  /** With a detector that flags everything, every scored row is flagged. */
  lemma AllFlagged(buf: seq<Dict>, a: LiveAssets)
    requires forall i :: 0 <= i < |buf| ==> KeysDistinct(buf[i])
    requires forall v :: a.detector(v) == -1
    requires ScoreBuffer(buf, a).Ok?
    ensures var sc := ScoreBuffer(buf, a).value;
      forall i :: 0 <= i < |sc.flags| ==> sc.flags[i] == "Yes"
  {
    var sc := ScoreBuffer(buf, a).value;
    var v := Verdicts(AlignBuffer(buf, a.schema).value, a).value;
    assert sc.flags == v.1;
  }

  /** When every flag is "Yes", every scored row is an alert. */
  lemma AllAlerts(sc: Scored)
    requires Valid(sc)
    requires forall i :: 0 <= i < |sc.flags| ==> sc.flags[i] == "Yes"
    ensures |AlertFrame(sc).records| == |sc.table.records|
  {
    var m := AlertMask(sc.known, sc.flags);
    assert forall i :: 0 <= i < |m| ==> m[i];
    FilterIsMask(sc.table.records, (_: Record) => true, m);
    FilterKeepsAll(sc.table.records, (_: Record) => true);
  }

  /** The timestamp column is neither verdict column. */
  lemma StampIsNotAVerdict()
    ensures AlertLog.StampColumn != KnownColumn && AlertLog.StampColumn != AnomalyColumn
  {
    assert |AlertLog.StampColumn| == 9 && |KnownColumn| == 17 && |AnomalyColumn| == 16;
  }

  /** A captured row with none of the keys the page adds before logging. */
  predicate NoLogKeys(d: Dict) {
    KnownColumn !in Keys(d) && AnomalyColumn !in Keys(d) && AlertLog.StampColumn !in Keys(d)
  }

  /** When the detector flags everything and no buffered row has a verdict
      key, the alert table is the whole captured table with the two verdict
      columns behind its own. */
  lemma AlertsCoverBuffer(buf: seq<Dict>, a: LiveAssets)
    requires forall i :: 0 <= i < |buf| ==> KeysDistinct(buf[i])
    requires forall i :: 0 <= i < |buf| ==> NoLogKeys(buf[i])
    requires forall v :: a.detector(v) == -1
    requires ScoreBuffer(buf, a).Ok?
    ensures var alerts := AlertFrame(ScoreBuffer(buf, a).value);
      && alerts.columns == FrameOfDicts(buf).columns + [KnownColumn, AnomalyColumn] && |alerts.records| == |buf|
      && AlertLog.StampColumn !in alerts.columns
  {
    var c := FrameOfDicts(buf).columns;
    assert KnownColumn !in c && AnomalyColumn !in c && AlertLog.StampColumn !in c;
    ScoredShape(buf, a);
    AllFlagged(buf, a);
    AllScoredAlerts(ScoreBuffer(buf, a).value, c);
  }

  /** A scored table whose rows are all flagged, with the verdict columns
      behind columns `c`, is its own alert table. */
  lemma AllScoredAlerts(sc: Scored, c: seq<string>)
    requires Valid(sc) && sc.table.columns == c + [KnownColumn, AnomalyColumn] && AlertLog.StampColumn !in c
    requires forall i :: 0 <= i < |sc.flags| ==> sc.flags[i] == "Yes"
    ensures var alerts := AlertFrame(sc);
      && alerts.columns == c + [KnownColumn, AnomalyColumn] && |alerts.records| == |sc.table.records|
      && AlertLog.StampColumn !in alerts.columns
  {
    AllAlerts(sc);
    StampIsNotAVerdict();
  }

  /** The log's header is written once, from the first logged alert table,
      but the captured table's columns are the buffer's keys in order of
      first appearance, so they can differ from rerun to rerun. Here the
      page as written logs a buffer and then, on a later rerun, a buffer
      that carries it over and adds rows, one of which has a key (for
      instance `Protocol`, set only for TCP and UDP packets, when the schema
      lacks it) that no earlier row had. Every row is flagged, so both
      reruns log, and the later data lines have more cells than the header
      has names. */
  lemma LogOutgrowsHeader(buf: seq<Dict>, later: seq<Dict>, a: LiveAssets, now1: string, now2: string, j: nat, k: string)
    requires BufferCovers(buf, a.schema) && BufferCovers(later, a.schema)
    requires 0 < |buf| <= |later| && later[..|buf|] == buf
    requires a.scaler.featureNames == a.schema && |a.schema| > 0
    requires forall v :: 0 <= a.classifier(v) < |a.classes|
    requires forall v :: a.detector(v) == -1
    requires forall i :: 0 <= i < |later| ==> NoLogKeys(later[i])
    requires |buf| <= j < |later| && k in Keys(later[j])
    requires forall i :: 0 <= i < |buf| ==> k !in Keys(buf[i])
    ensures var log1 := ScoreAndLog(buf, a, now1, AlertLog.LogFile(false, [])).0;
      var log2 := ScoreAndLog(later, a, now2, log1).0;
      && |log2.lines| > 0 && log2.lines[0].Header? && log2.lines[|log2.lines| - 1].Row?
      && |log2.lines[0].names| < |log2.lines[|log2.lines| - 1].cells|
  {
    RerunTablesGrow(buf, later, a, j, k);
    var alerts1 := AlertFrame(ScoreBuffer(buf, a).value);
    var alerts2 := AlertFrame(ScoreBuffer(later, a).value);
    var empty := AlertLog.LogFile(false, []);
    var log1 := ScoreAndLog(buf, a, now1, empty).0;
    assert log1 == AlertLog.LogAlerts(empty, alerts1, now1);
    var log2 := ScoreAndLog(later, a, now2, log1).0;
    assert log2 == AlertLog.LogAlerts(log1, alerts2, now2);
    AlertLog.WiderTableOutgrowsHeader(alerts1, alerts2, now1, now2, log1, log2);
  }

  /** Under the conditions of `LogOutgrowsHeader`, both reruns score, both
      alert tables hold every row and no `Timestamp` column, and the later
      one is strictly wider. */
  lemma RerunTablesGrow(buf: seq<Dict>, later: seq<Dict>, a: LiveAssets, j: nat, k: string)
    requires BufferCovers(buf, a.schema) && BufferCovers(later, a.schema)
    requires 0 < |buf| <= |later| && later[..|buf|] == buf
    requires a.scaler.featureNames == a.schema && |a.schema| > 0
    requires forall v :: 0 <= a.classifier(v) < |a.classes|
    requires forall v :: a.detector(v) == -1
    requires forall i :: 0 <= i < |later| ==> NoLogKeys(later[i])
    requires |buf| <= j < |later| && k in Keys(later[j])
    requires forall i :: 0 <= i < |buf| ==> k !in Keys(buf[i])
    ensures ScoreBuffer(buf, a).Ok? && ScoreBuffer(later, a).Ok?
    ensures var alerts1 := AlertFrame(ScoreBuffer(buf, a).value);
      var alerts2 := AlertFrame(ScoreBuffer(later, a).value);
      && |alerts1.records| == |buf| && AlertLog.StampColumn !in alerts1.columns
      && |alerts2.records| == |later| && AlertLog.StampColumn !in alerts2.columns
      && |alerts1.columns| < |alerts2.columns|
  {
    assert forall i :: 0 <= i < |buf| ==> NoLogKeys(buf[i]) by {
      assert forall i :: 0 <= i < |buf| ==> buf[i] == later[i];
    }
    FlaggedBufferAlerts(buf, a);
    FlaggedBufferAlerts(later, a);
    ColumnsGrow(buf, later, j, k);
  }

  /** A buffer that scores, with every row flagged and no log keys, is its
      own alert table with the verdict columns behind the captured ones. */
  lemma FlaggedBufferAlerts(buf: seq<Dict>, a: LiveAssets)
    requires BufferCovers(buf, a.schema) && |buf| > 0
    requires a.scaler.featureNames == a.schema && |a.schema| > 0
    requires forall v :: 0 <= a.classifier(v) < |a.classes|
    requires forall v :: a.detector(v) == -1
    requires forall i :: 0 <= i < |buf| ==> NoLogKeys(buf[i])
    ensures ScoreBuffer(buf, a).Ok?
    ensures var alerts := AlertFrame(ScoreBuffer(buf, a).value);
      && alerts.columns == FrameOfDicts(buf).columns + [KnownColumn, AnomalyColumn]
      && |alerts.records| == |buf| && AlertLog.StampColumn !in alerts.columns
  {
    ScoreBufferSucceeds(buf, a);
    AlertsCoverBuffer(buf, a);
  }
}
