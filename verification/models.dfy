/** The trained assets as the pipeline sees them: a fitted standard scaler,
    a multi-class classifier emitting label codes and an isolation-forest
    anomaly detector emitting -1 (outlier) or +1 (inlier). Their numerics
    are opaque functions of one row; what the model fixes is how they are
    called and how their outputs are combined. */
module Models {
  import opened Common
  import opened Seqs
  import opened Frames
  import Labels

  /** A fitted `StandardScaler`: the column names it saw during `fit`, in
      order, and the row transform it learned. */
  datatype Scaler = Scaler(featureNames: seq<string>, transform: seq<int> -> seq<int>)

  /** A per-row model output: label code for the classifier, ±1 for the
      anomaly detector. */
  type Predictor = seq<int> -> int

  predicate AllNumeric(f: Frame) {
    forall i, j | 0 <= i < |f.records| && 0 <= j < |f.records[i].cells| :: f.records[i].cells[j].Num?
  }

  function NumbersOf(cells: seq<Cell>): (v: seq<int>)
    ensures |v| == |cells|
    ensures forall j :: 0 <= j < |cells| && cells[j].Num? ==> v[j] == cells[j].n
  {
    seq(|cells|, j requires 0 <= j < |cells| => if cells[j].Num? then cells[j].n else 0)
  }

  /** `scaler.transform(frame)`. scikit-learn refuses a frame whose column
      names (and hence width) differ from the fit-time ones, a cell that is
      not a number, a frame without rows and a frame without columns, in
      that order; otherwise every row is transformed on its own. */
  function Scale(s: Scaler, f: Frame): (res: Result<seq<seq<int>>>)
    ensures res.Ok? <==> f.columns == s.featureNames && AllNumeric(f) && |f.records| > 0 && |f.columns| > 0
    ensures f.columns != s.featureNames ==> res == Err(FeatureNamesMismatch)
    ensures f.columns == s.featureNames && AllNumeric(f) && |f.records| > 0 && |f.columns| == 0 ==> res == Err(NoFeatures)
    ensures res.Ok? ==> |res.value| == |f.records|
    ensures res.Ok? ==> forall i :: 0 <= i < |f.records| ==> res.value[i] == s.transform(NumbersOf(f.records[i].cells))
  {
    if f.columns != s.featureNames then Err(FeatureNamesMismatch)
    else if !AllNumeric(f) then Err(NonNumericFeature)
    else if |f.records| == 0 then Err(EmptyBatch)
    else if |f.columns| == 0 then Err(NoFeatures)
    else Ok(seq(|f.records|, i requires 0 <= i < |f.records| => s.transform(NumbersOf(f.records[i].cells))))
  }

  /** `model.predict(batch)`: one output per row, each computed from that
      row alone. */
  function Predict(model: Predictor, batch: seq<seq<int>>): (out: seq<int>)
    ensures |out| == |batch|
    ensures forall i :: 0 <= i < |batch| ==> out[i] == model(batch[i])
  {
    Map(batch, model)
  }

  /** `np.where(pred == -1, 'Yes', 'No')` for one detector output. */
  function AnomalyFlag(v: int): (flag: string)
    ensures flag == "Yes" <==> v == -1
    ensures flag == "Yes" || flag == "No"
  {
    if v == -1 then "Yes" else "No"
  }

  /** The hybrid verdict: a row is an alert when the classifier names a
      known attack or the detector calls it an outlier. */
  predicate IsAlert(category: string, anomaly: string) {
    category != Labels.Benign || anomaly == "Yes"
  }
}
