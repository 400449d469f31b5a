/** The upload page (`app.py`): a CSV of flow records is cleaned exactly as
    the training data was, projected onto the trained feature schema,
    scaled, classified and decoded; the original rows that survived the
    cleaning are shown next to their predicted category, the attack rows are
    singled out, and the categories are tallied. */
module Upload {
  import opened Common
  import opened Seqs
  import opened Frames
  import Text
  import Labels
  import Models

  const PredictedColumn: string := "Predicted Attack"

  /** What `load_assets` returns: the classifier, the fitted scaler, the
      label classes and the saved schema (`model_columns.pkl`). */
  datatype BatchAssets = BatchAssets(
    classifier: Models.Predictor,
    scaler: Models.Scaler,
    classes: seq<string>,
    schema: seq<string>)

  /** The banner above the results: either the all-clear, or how many of the
      records were predicted as attacks. */
  datatype Banner = NoIntrusions | Intrusions(found: nat, total: nat)

  /** What the page shows for a processed file. */
  datatype Report = Report(
    display: Frame,
    labels: seq<string>,
    attacks: Frame,
    banner: Banner,
    counts: seq<(string, nat)>)

  /** One run of the page: nothing to do, the error message of the `except`
      branch, or the results. */
  datatype Outcome = Idle | Failed(error: Error) | Shown(report: Report)

  /** The rows the cleaning keeps, as they were read. */
  function ValidRows(raw: Frame): seq<Record> {
    Filter(raw.records, IsValidRecord)
  }

  /** Lines 40-45: strip the column names, drop every row holding ±infinity
      or NaN in any column, then reindex onto the schema with 0 as the fill.
      The result has exactly the schema's columns, in order, and one row per
      valid input row, with the same index label. Repeated names after
      stripping make pandas refuse the reindex. */
  function Align(raw: Frame, schema: seq<string>): (res: Result<Frame>)
    requires WellFormed(raw)
    ensures var names := StripColumnNames(raw).columns;
      res.Ok? <==> names == schema || AllDistinct(names)
    ensures res.Err? ==> res.error == DuplicateColumnLabels
    ensures res.Ok? ==> res.value.columns == schema && WellFormed(res.value)
    ensures res.Ok? ==> |res.value.records| == |ValidRows(raw)|
    ensures res.Ok? ==> forall i :: 0 <= i < |ValidRows(raw)| ==> res.value.records[i].id == ValidRows(raw)[i].id
  {
    var stripped := StripColumnNames(raw);
    var cleaned := DropInvalidRows(stripped);
    assert cleaned == Frame(stripped.columns, ValidRows(raw));
    ReindexColumns(cleaned, schema)
  }

  /** The values of the aligned frame: a schema column matched by a stripped
      input name takes that column's value in the same valid row, any other
      schema column is 0 in every row, and input columns outside the schema
      are gone; a file whose stripped names already are the schema is only
      cleaned. */
  lemma AlignCells(raw: Frame, schema: seq<string>)
    requires WellFormed(raw)
    requires Align(raw, schema).Ok?
    ensures var g := Align(raw, schema).value;
      && (StripColumnNames(raw).columns == schema ==> g == Frame(schema, ValidRows(raw)))
      && (AllDistinct(StripColumnNames(raw).columns) ==>
            forall i, j, k ::
              0 <= i < |ValidRows(raw)| && 0 <= j < |schema| && 0 <= k < |raw.columns| && Text.Strip(raw.columns[k]) == schema[j]
              ==> g.records[i].cells[j] == ValidRows(raw)[i].cells[k])
      && forall i, j :: 0 <= i < |ValidRows(raw)| && 0 <= j < |schema| && schema[j] !in StripColumnNames(raw).columns ==>
           g.records[i].cells[j] == Num(0)
  {
    var stripped := StripColumnNames(raw);
    assert forall k :: 0 <= k < |raw.columns| ==> stripped.columns[k] == Text.Strip(raw.columns[k]);
    var cleaned := DropInvalidRows(stripped);
    assert cleaned == Frame(stripped.columns, ValidRows(raw));
  }

  /** The aligned frame keeps at most the input's rows: all of them exactly
      when every input row was valid. Row labels that increased down the
      input still increase, so the survivors keep their relative order. */
  lemma AlignKeepsValidRows(raw: Frame, schema: seq<string>)
    requires WellFormed(raw)
    requires Align(raw, schema).Ok?
    ensures var g := Align(raw, schema).value;
      && |g.records| <= |raw.records|
      && (|g.records| == |raw.records| <==> forall i :: 0 <= i < |raw.records| ==> IsValidRecord(raw.records[i]))
      && (IncreasingIds(raw.records) ==> IncreasingIds(g.records))
  {
    FilterKeepsAll(raw.records, IsValidRecord);
    if IncreasingIds(raw.records) {
      FilterIncreasing(raw.records, IsValidRecord);
    }
  }

  /** No aligned cell is ±infinity or NaN: each is either carried over from
      a valid input row or the 0 fill. */
  lemma AlignedCellsValid(raw: Frame, schema: seq<string>, i: nat, j: nat)
    requires WellFormed(raw)
    requires Align(raw, schema).Ok?
    requires i < |Align(raw, schema).value.records| && j < |schema|
    ensures !IsInvalid(Align(raw, schema).value.records[i].cells[j])
  {
    var g := Align(raw, schema).value;
    var kept := ValidRows(raw);
    var names := StripColumnNames(raw).columns;
    assert kept[i] in raw.records && IsValidRecord(kept[i]);
    if names == schema {
      assert g.records[i] == kept[i];
    } else if schema[j] in names {
      var k :| 0 <= k < |names| && names[k] == schema[j];
      assert g.records[i].cells[j] == kept[i].cells[k];
    }
  }

  /** The trained schema is what the scaler was fitted on, so an aligned
      batch always passes the scaler's name check: scaling fails only on a
      non-numeric cell, an empty batch or an empty schema. */
  lemma AlignedBatchScales(raw: Frame, a: BatchAssets)
    requires WellFormed(raw)
    requires a.scaler.featureNames == a.schema
    requires Align(raw, a.schema).Ok?
    ensures var g := Align(raw, a.schema).value;
      && Models.Scale(a.scaler, g) != Err(FeatureNamesMismatch)
      && (Models.Scale(a.scaler, g).Ok? <==> Models.AllNumeric(g) && |g.records| > 0 && |a.schema| > 0)
  {
  }

  /** The row predicate of line 60 on the display table, where column `k`
      holds the predicted category. */
  function IsAttackRow(k: nat): Record -> bool {
    CellDiffers(k, Str(Labels.Benign))
  }

  /** The features row `i` of the aligned batch is classified on. */
  function RowInput(aligned: Frame, a: BatchAssets, i: nat): seq<int>
    requires i < |aligned.records|
  {
    a.scaler.transform(Models.NumbersOf(aligned.records[i].cells))
  }

  /** Lines 47-51: scale the aligned batch, classify every row and decode
      the codes. It succeeds exactly when scaling does and every code is a
      known class; then there is one category per aligned row, each the
      decoded classifier output for that row's features. A scaling error is
      passed on, and otherwise a failure names a code outside the classes. */
  function Predictions(aligned: Frame, a: BatchAssets): (res: Result<seq<string>>)
    ensures res.Ok? <==> (Models.Scale(a.scaler, aligned).Ok? &&
      forall i :: 0 <= i < |aligned.records| ==> 0 <= a.classifier(RowInput(aligned, a, i)) < |a.classes|)
    ensures res.Ok? ==> |res.value| == |aligned.records|
    ensures res.Ok? ==> forall i :: 0 <= i < |aligned.records| ==>
      Labels.Decode(a.classes, a.classifier(RowInput(aligned, a, i))) == Ok(res.value[i])
    ensures Models.Scale(a.scaler, aligned).Err? ==> res == Err(Models.Scale(a.scaler, aligned).error)
    ensures Models.Scale(a.scaler, aligned).Ok? && res.Err? ==>
      exists i :: 0 <= i < |aligned.records| && res.error == UnseenLabelCode(a.classifier(RowInput(aligned, a, i))) &&
        !(0 <= a.classifier(RowInput(aligned, a, i)) < |a.classes|)
  {
    var scaled :- Models.Scale(a.scaler, aligned);
    var codes := Models.Predict(a.classifier, scaled);
    assert forall i :: 0 <= i < |aligned.records| ==> codes[i] == a.classifier(RowInput(aligned, a, i));
    Labels.DecodeAll(a.classes, codes)
  }

  /** Lines 53-54: the input rows at the aligned rows' labels, as read, with
      the predicted category appended (or overwriting a column of that name). */
  function DisplayTable(raw: Frame, aligned: Frame, labels: seq<string>): (res: Result<Frame>)
    requires WellFormed(raw)
    requires |labels| == |aligned.records|
    ensures res.Ok? ==> WellFormed(res.value) && |res.value.records| == |labels|
    ensures res.Ok? ==> PredictedColumn in res.value.columns
    ensures res.Ok? ==> forall i, j :: 0 <= i < |labels| && 0 <= j < |res.value.columns| && res.value.columns[j] == PredictedColumn ==>
      res.value.records[i].cells[j] == Str(labels[i])
  {
    var shown :- Loc(raw, Ids(aligned));
    assert WellFormed(shown) by {
      forall r | r in shown.records ensures |r.cells| == |shown.columns| {
        var k :| 0 <= k < |shown.records| && shown.records[k] == r;
      }
    }
    Ok(SetColumn(shown, PredictedColumn, StrCells(labels)))
  }

  /** Lines 60-70 on a display table whose predicted-category column holds
      `labels`: the attacks table is exactly the display rows not predicted
      benign, in order (the reference walk); the all-clear is shown exactly
      when every prediction is benign, otherwise the number of attack rows
      out of the total; the tallies add up to the number of display rows. */
  function Summarise(display: Frame, labels: seq<string>): (rep: Report)
    requires WellFormed(display) && |labels| == |display.records|
    requires PredictedColumn in display.columns
    requires forall i, j :: 0 <= i < |labels| && 0 <= j < |display.columns| && display.columns[j] == PredictedColumn ==>
      display.records[i].cells[j] == Str(labels[i])
    ensures rep.display == display && rep.labels == labels
    ensures rep.attacks.columns == display.columns
    ensures rep.attacks.records == Mask(display.records, AttackMask(labels))
    ensures rep.banner == NoIntrusions <==> forall i :: 0 <= i < |labels| ==> labels[i] == Labels.Benign
    ensures rep.banner.Intrusions? ==> rep.banner.found == Count(AttackMask(labels), true) && rep.banner.total == |labels|
    ensures rep.counts == Labels.ValueCounts(labels)
    ensures Labels.TallySum(rep.counts) == |display.records|
  {
    var k := IndexOf(display.columns, PredictedColumn).value;
    var attacks := SelectRows(display, IsAttackRow(k));
    var mask := AttackMask(labels);
    assert attacks.records == Mask(display.records, mask) by {
      forall i | 0 <= i < |display.records| ensures IsAttackRow(k)(display.records[i]) == mask[i] {
        assert display.records[i] in display.records;
      }
      FilterIsMask(display.records, IsAttackRow(k), mask);
    }
    assert Count(mask, true) == 0 <==> forall i :: 0 <= i < |labels| ==> labels[i] == Labels.Benign by {
      if Count(mask, true) != 0 {
        var i :| 0 <= i < |mask| && mask[i];
      }
    }
    var banner := if |attacks.records| == 0 then NoIntrusions else Intrusions(|attacks.records|, |display.records|);
    Report(display, labels, attacks, banner, Labels.ValueCounts(labels))
  }

  /** Lines 40-70: the whole computation behind the page. The first failing
      stage's error is the result; the report's categories are the
      predictions, its table the display table, and its attack table,
      banner and tallies the summary of the two. */
  function Analyse(raw: Frame, a: BatchAssets): (res: Result<Report>)
    requires WellFormed(raw)
    ensures Align(raw, a.schema).Err? ==> res == Err(Align(raw, a.schema).error)
    ensures Align(raw, a.schema).Ok? && Predictions(Align(raw, a.schema).value, a).Err? ==>
      res == Err(Predictions(Align(raw, a.schema).value, a).error)
    ensures res.Ok? ==>
      && Align(raw, a.schema).Ok?
      && Predictions(Align(raw, a.schema).value, a) == Ok(res.value.labels)
      && DisplayTable(raw, Align(raw, a.schema).value, res.value.labels) == Ok(res.value.display)
    ensures res.Ok? ==> res.value == Summarise(res.value.display, res.value.labels)
  {
    var aligned :- Align(raw, a.schema);
    var labels :- Predictions(aligned, a);
    var display :- DisplayTable(raw, aligned, labels);
    Ok(Summarise(display, labels))
  }

  /** On a freshly read file (index 0, 1, 2, …) the `.loc` lookup of line
      53 cannot fail, so the page shows results exactly when aligning and
      predicting succeed. */
  lemma AnalyseFreshFile(raw: Frame, a: BatchAssets)
    requires WellFormed(raw) && RangeIndexed(raw)
    ensures Analyse(raw, a).Ok? <==> Align(raw, a.schema).Ok? && Predictions(Align(raw, a.schema).value, a).Ok?
  {
    if Align(raw, a.schema).Ok? && Predictions(Align(raw, a.schema).value, a).Ok? {
      var aligned := Align(raw, a.schema).value;
      DisplayRows(raw, aligned, Predictions(aligned, a).value, a.schema);
    }
  }

  /** The attack flag of each predicted category (line 60). */
  function AttackMask(labels: seq<string>): (m: seq<bool>)
    ensures |m| == |labels|
    ensures forall i :: 0 <= i < |labels| ==> (m[i] <==> labels[i] != Labels.Benign)
  {
    Map(labels, (l: string) => l != Labels.Benign)
  }

  /** The display table of a freshly read file (index 0, 1, 2, ...): the
      valid input rows, as read (names unstripped), in input order, each
      extended by its predicted category; columns other than the predicted
      one keep their input values. */
  lemma DisplayRows(raw: Frame, aligned: Frame, labels: seq<string>, schema: seq<string>)
    requires WellFormed(raw) && RangeIndexed(raw)
    requires Align(raw, schema) == Ok(aligned)
    requires |labels| == |aligned.records|
    ensures var d := DisplayTable(raw, aligned, labels);
      var kept := ValidRows(raw);
      && d.Ok?
      && |d.value.records| == |kept|
      && (PredictedColumn !in raw.columns ==> d.value.columns == raw.columns + [PredictedColumn])
      && (PredictedColumn in raw.columns ==> d.value.columns == raw.columns)
      && (forall i :: 0 <= i < |kept| ==> d.value.records[i].id == kept[i].id)
      && (forall i, j :: 0 <= i < |kept| && 0 <= j < |raw.columns| && raw.columns[j] != PredictedColumn ==>
            d.value.records[i].cells[j] == kept[i].cells[j])
  {
    var kept := ValidRows(raw);
    assert Ids(aligned) == Map(kept, RecordId);
    forall r | r in kept ensures r in raw.records {
      FilterMember(raw.records, IsValidRecord, r);
    }
    LocOfOwnRows(raw, kept);
  }

  /** Lines 33-75: the page runs only when a file was uploaded and the
      assets loaded; anything the processing raises, reading the file
      included, turns into the error message instead of results. */
  function HandleUpload(upload: Option<Result<Frame>>, assets: Option<BatchAssets>): (out: Outcome)
    requires upload.Some? && upload.value.Ok? ==> WellFormed(upload.value.value)
    ensures out.Idle? <==> upload.None? || assets.None?
    ensures upload.Some? && upload.value.Err? && assets.Some? ==> out == Failed(upload.value.error)
    ensures out.Shown? ==> (upload.Some? && upload.value.Ok? && assets.Some? &&
      Analyse(upload.value.value, assets.value) == Ok(out.report))
    ensures out.Failed? && upload.value.Ok? ==> Analyse(upload.value.value, assets.value) == Err(out.error)
  {
    if upload.None? || assets.None? then Idle
    else match upload.value
      case Err(e) => Failed(e)
      case Ok(raw) =>
        match Analyse(raw, assets.value)
        case Ok(rep) => Shown(rep)
        case Err(e) => Failed(e)
  }
}
