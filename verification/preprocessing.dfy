/** Training-time preparation of the dataset (`preprocess_data`): clean the
    column names, drop the flow identifier and timestamp when both are
    there, remove rows with infinite or missing values, encode the labels,
    derive the feature schema and fit the scaler on it. */
module Preprocessing {
  import opened Common
  import opened Seqs
  import opened Frames
  import Text
  import Labels
  import Models

  const FlowIdColumn: string := "Flow ID"
  const TimestampColumn: string := "Timestamp"
  const LabelColumn: string := "Label"

  /** What training leaves behind for inference: the label classes, the
      feature schema (ordered column names) and the fitted scaler. */
  datatype Artifacts = Artifacts(classes: seq<string>, schema: seq<string>, scaler: Models.Scaler)

  /** `preprocess_data`'s result: the scaled feature rows, the encoded
      labels, and the artifacts it saves to disk. */
  datatype Prepared = Prepared(features: seq<seq<int>>, codes: seq<int>, artifacts: Artifacts)

  /** Fitting a scaler: from the training rows to the learned row transform. */
  type ScalerFit = seq<seq<int>> -> (seq<int> -> seq<int>)

  /** The identifier/timestamp drop: both columns go when both are present;
      otherwise the frame is left alone. Rows, their labels and every kept
      cell under its column name are carried over. */
  function DropIdColumns(s: Frame): (r: Frame)
    requires WellFormed(s)
    ensures WellFormed(r)
    ensures FlowIdColumn in s.columns && TimestampColumn in s.columns ==>
      && r.columns == Filter(s.columns, NotIn({FlowIdColumn, TimestampColumn}))
      && FlowIdColumn !in r.columns && TimestampColumn !in r.columns
      && CellsCarried(s, r)
    ensures !(FlowIdColumn in s.columns && TimestampColumn in s.columns) ==> r == s
    ensures |r.records| == |s.records|
    ensures forall i :: 0 <= i < |s.records| ==> r.records[i].id == s.records[i].id
  {
    if FlowIdColumn in s.columns && TimestampColumn in s.columns then
      FilterMember(s.columns, NotIn({FlowIdColumn, TimestampColumn}), FlowIdColumn);
      FilterMember(s.columns, NotIn({FlowIdColumn, TimestampColumn}), TimestampColumn);
      DropColumns(s, {FlowIdColumn, TimestampColumn})
    else s
  }

  /** The cleaning half of `preprocess_data`, in its order: names first,
      then the identifier/timestamp drop, then invalid-row removal. Only the
      cells left after the drop decide whether a row survives, so a missing
      `Flow ID` or `Timestamp` never costs a row; the survivors keep their
      labels, their cells and their order. */
  function CleanForTraining(df: Frame): (g: Frame)
    requires WellFormed(df)
    ensures WellFormed(g)
    ensures var reduced := DropIdColumns(StripColumnNames(df));
      && g.columns == reduced.columns
      && g.records == Filter(reduced.records, IsValidRecord)
      && (forall r :: r in g.records <==> r in reduced.records && IsValidRecord(r))
    ensures |g.records| <= |df.records|
    ensures forall r <- g.records :: IsValidRecord(r)
  {
    var reduced := DropIdColumns(StripColumnNames(df));
    var g := DropInvalidRows(reduced);
    DropInvalidRowsSelects(reduced);
    g
  }

  /** A row whose only missing values sit under `Flow ID` or `Timestamp`
      survives training cleaning when both columns are present: they are
      dropped before the invalid rows are. */
  lemma IdColumnGapsKeepRow(df: Frame, i: nat)
    requires WellFormed(df) && i < |df.records|
    requires var names := StripColumnNames(df).columns; FlowIdColumn in names && TimestampColumn in names
    requires forall j :: 0 <= j < |df.columns| && Text.Strip(df.columns[j]) != FlowIdColumn && Text.Strip(df.columns[j]) != TimestampColumn ==>
      !IsInvalid(df.records[i].cells[j])
    ensures DropIdColumns(StripColumnNames(df)).records[i] in CleanForTraining(df).records
  {
    var s := StripColumnNames(df);
    var reduced := DropIdColumns(s);
    forall k | 0 <= k < |reduced.records[i].cells| ensures !IsInvalid(reduced.records[i].cells[k]) {
      KeptCellValid(s, reduced, i, k);
    }
    assert reduced.records[i] in reduced.records;
  }

  /** A cell left after the drop sits under a column that is neither
      `Flow ID` nor `Timestamp`, and is a cell of the same row under a
      column of the same name. */
  lemma KeptCellValid(s: Frame, reduced: Frame, i: nat, k: nat)
    requires WellFormed(s) && FlowIdColumn in s.columns && TimestampColumn in s.columns
    requires reduced == DropIdColumns(s)
    requires i < |reduced.records| && k < |reduced.columns|
    requires forall j :: 0 <= j < |s.columns| && s.columns[j] != FlowIdColumn && s.columns[j] != TimestampColumn ==>
      !IsInvalid(s.records[i].cells[j])
    ensures !IsInvalid(reduced.records[i].cells[k])
  {
    assert CarriedAt(s, reduced, i, k);
    var j :| 0 <= j < |s.columns| && s.columns[j] == reduced.columns[k] && reduced.records[i].cells[k] == s.records[i].cells[j];
    FilterMember(s.columns, NotIn({FlowIdColumn, TimestampColumn}), reduced.columns[k]);
  }

  /** `df[name]`: the cells of the first column called `name`, or `KeyError`. */
  function ColumnCells(f: Frame, name: string): (res: Result<seq<Cell>>)
    requires WellFormed(f)
    ensures res.Ok? <==> name in f.columns
    ensures res.Err? ==> res.error == MissingColumn(name)
    ensures res.Ok? ==> |res.value| == |f.records|
    ensures res.Ok? ==> forall i :: 0 <= i < |f.records| ==> CellOf(f.columns, f.records[i], name) == Some(res.value[i])
  {
    match IndexOf(f.columns, name)
    case None => Err(MissingColumn(name))
    case Some(k) =>
      Ok(seq(|f.records|, i requires 0 <= i < |f.records| =>
        assert f.records[i] in f.records;
        f.records[i].cells[k]))
  }

  /** The label names of a `Label` column; a cell that is not a name is an
      error. */
  function LabelNames(cells: seq<Cell>): (res: Result<seq<string>>)
    ensures res.Ok? <==> forall i :: 0 <= i < |cells| ==> cells[i].Str?
    ensures res.Ok? ==> |res.value| == |cells| && forall i :: 0 <= i < |cells| ==> cells[i] == Str(res.value[i])
    ensures res.Err? ==> res.error == NonStringLabel
  {
    if forall i | 0 <= i < |cells| :: cells[i].Str?
    then Ok(seq(|cells|, i requires 0 <= i < |cells| => cells[i].s))
    else Err(NonStringLabel)
  }

  /** `label_encoder.fit_transform(df['Label'])`: the classes fitted on the
      label column and one code per row (missing column: `KeyError`; a cell
      that is not a name: the encoder's type error). Every code decodes back
      to its row's label. */
  function EncodeLabelColumn(cleaned: Frame): (res: Result<(seq<string>, seq<int>)>)
    requires WellFormed(cleaned)
    ensures res.Ok? <==> (LabelColumn in cleaned.columns &&
      forall i :: 0 <= i < |cleaned.records| ==> CellOf(cleaned.columns, cleaned.records[i], LabelColumn).value.Str?)
    ensures LabelColumn !in cleaned.columns ==> res == Err(MissingColumn(LabelColumn))
    ensures res.Err? ==> res.error in {MissingColumn(LabelColumn), NonStringLabel}
    ensures res.Ok? ==> Labels.StrictlySorted(res.value.0) && |res.value.1| == |cleaned.records|
    ensures res.Ok? ==> forall i :: 0 <= i < |cleaned.records| ==>
      && Labels.Decode(res.value.0, res.value.1[i]).Ok?
      && CellOf(cleaned.columns, cleaned.records[i], LabelColumn) == Some(Str(Labels.Decode(res.value.0, res.value.1[i]).value))
  {
    var labelCells :- ColumnCells(cleaned, LabelColumn);
    var names :- LabelNames(labelCells);
    var encoded := Labels.FitTransform(names);
    assert forall i :: 0 <= i < |cleaned.records| ==> labelCells[i] == Str(names[i]);
    Ok(encoded)
  }

  /** `scaler.fit_transform(X)`: fitting needs numbers, at least one row and
      at least one column; the scaler remembers `X`'s column names and the
      features are the fitted transform applied to every row. */
  function FitFeatures(x: Frame, fit: ScalerFit): (res: Result<(seq<seq<int>>, Models.Scaler)>)
    ensures res.Ok? <==> Models.AllNumeric(x) && |x.records| > 0 && |x.columns| > 0
    ensures !Models.AllNumeric(x) ==> res == Err(NonNumericFeature)
    ensures Models.AllNumeric(x) && |x.records| > 0 && |x.columns| == 0 ==> res == Err(NoFeatures)
    ensures res.Ok? ==> res.value.1.featureNames == x.columns
    ensures res.Ok? ==> Models.Scale(res.value.1, x) == Ok(res.value.0)
  {
    if !Models.AllNumeric(x) then Err(NonNumericFeature)
    else if |x.records| == 0 then Err(EmptyBatch)
    else if |x.columns| == 0 then Err(NoFeatures)
    else
      var rows := seq(|x.records|, i requires 0 <= i < |x.records| => Models.NumbersOf(x.records[i].cells));
      var scaler := Models.Scaler(x.columns, fit(rows));
      var features := Models.Scale(scaler, x).value;
      Ok((features, scaler))
  }

  /** `preprocess_data`: clean, encode the labels, take every other column as
      the features (their names become the schema), fit the scaler on them. */
  function PreprocessData(df: Frame, fit: ScalerFit): (res: Result<Prepared>)
    requires WellFormed(df)
    ensures var cleaned := CleanForTraining(df);
      res.Ok? <==> EncodeLabelColumn(cleaned).Ok? && FitFeatures(DropColumns(cleaned, {LabelColumn}), fit).Ok?
    ensures LabelColumn !in CleanForTraining(df).columns ==> res == Err(MissingColumn(LabelColumn))
    ensures var cleaned := CleanForTraining(df);
      EncodeLabelColumn(cleaned).Ok? && FitFeatures(DropColumns(cleaned, {LabelColumn}), fit).Err? ==>
        res == Err(FitFeatures(DropColumns(cleaned, {LabelColumn}), fit).error)
    ensures res.Ok? ==> var cleaned := CleanForTraining(df);
      && res.value.artifacts.classes == EncodeLabelColumn(cleaned).value.0
      && res.value.codes == EncodeLabelColumn(cleaned).value.1
      && res.value.artifacts.schema == DropColumns(cleaned, {LabelColumn}).columns
  {
    var cleaned := CleanForTraining(df);
    var encoded :- EncodeLabelColumn(cleaned);
    var x := DropColumns(cleaned, {LabelColumn});
    var fitted :- FitFeatures(x, fit);
    Ok(Prepared(fitted.0, encoded.1, Artifacts(encoded.0, x.columns, fitted.1)))
  }

  /** What a successful preparation guarantees: the schema is the cleaned
      column list without `Label`, in order, so it never contains `Label`;
      the scaler was fitted on exactly those columns and reproduces the
      features on the schema columns; there is one encoded label per
      surviving row and one feature row per label; every code decodes back
      to the row's label through the saved classes, which are sorted and
      distinct. */
  lemma PreprocessContract(df: Frame, fit: ScalerFit)
    requires WellFormed(df)
    requires PreprocessData(df, fit).Ok?
    ensures var p := PreprocessData(df, fit).value;
      var cleaned := CleanForTraining(df);
      && p.artifacts.schema == Filter(cleaned.columns, NotIn({LabelColumn}))
      && LabelColumn !in p.artifacts.schema
      && p.artifacts.scaler.featureNames == p.artifacts.schema
      && Models.Scale(p.artifacts.scaler, DropColumns(cleaned, {LabelColumn})) == Ok(p.features)
      && |p.codes| == |p.features| == |cleaned.records| > 0
      && |p.artifacts.schema| > 0
      && Labels.StrictlySorted(p.artifacts.classes)
      && forall i :: 0 <= i < |cleaned.records| ==>
           && Labels.Decode(p.artifacts.classes, p.codes[i]).Ok?
           && CellOf(cleaned.columns, cleaned.records[i], LabelColumn) == Some(Str(Labels.Decode(p.artifacts.classes, p.codes[i]).value))
  {
    var cleaned := CleanForTraining(df);
    FilterMember(cleaned.columns, NotIn({LabelColumn}), LabelColumn);
  }
}
