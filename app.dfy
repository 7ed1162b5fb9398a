/** The batch prediction pipeline of the student dropout predictor page:
    schema check, feature extraction with zero for missing cells, prediction
    by the fitted scaler and classifier, label mapping, the in-place label
    column, the summary metrics and the 100-row preview. */
module App {
  import opened Frames
  import opened Schema

  /** The column the predicted status is written to. */
  const LABEL_COLUMN: string := "Hasil_Prediksi"

  /** Class code to status. */
  const LABEL_MAP: map<int, string> := map[0 := "Dropout", 1 := "Enrolled", 2 := "Graduate"]

  const UNKNOWN: string := "Unknown"

  /** How many rows the on-page preview shows. */
  const PREVIEW_ROWS: nat := 100

  // ---------------------------------------------------------------------
  // Feature extraction

  /** `df[features].fillna(0)`: the ten feature columns in their fixed
      order, one row per input row, missing cells replaced by 0. */
  function ExtractFeatures(t: Table): (x: Table)
    requires Wf(t) && HasFeatures(t.columns)
    ensures x.columns == FEATURES && |x.rows| == |t.rows| && Wf(x)
    ensures forall i, f :: 0 <= i < |t.rows| && f in FEATURES ==>
      && f in t.rows[i] && f in x.rows[i]
      && x.rows[i][f] == (if t.rows[i][f] == Missing then Num(0.0) else t.rows[i][f])
  {
    SchemaGuardsProjection(t);
    FeaturesDistinct();
    FilledProjection(t, FEATURES, Num(0.0));
    FillNa(Project(t, FEATURES).value, Num(0.0))
  }

  /** Selecting present, distinct columns and then filling: each selected
      cell of each row, with missing ones replaced. */
  lemma FilledProjection(t: Table, cols: seq<string>, fill: Cell)
    requires Wf(t) && Distinct(cols) && forall c :: c in cols ==> c in t.columns
    ensures Project(t, cols).Some?
    ensures var x := FillNa(Project(t, cols).value, fill);
      && x.columns == cols && |x.rows| == |t.rows| && Wf(x)
      && forall i, c :: 0 <= i < |t.rows| && c in cols ==>
           && c in t.rows[i] && c in x.rows[i]
           && x.rows[i][c] == (if t.rows[i][c] == Missing then fill else t.rows[i][c])
  {
  }

  /** The feature table handed to the scaler never holds a missing cell. */
  lemma ExtractedHasNoMissing(t: Table)
    requires Wf(t) && HasFeatures(t.columns)
    ensures var x := ExtractFeatures(t);
      forall i, f :: 0 <= i < |x.rows| && f in x.rows[i] ==> x.rows[i][f] != Missing
  {
    var x := ExtractFeatures(t);
    forall i, f | 0 <= i < |x.rows| && f in x.rows[i]
      ensures x.rows[i][f] != Missing
    {
      assert f in x.columns;
    }
  }

  // ---------------------------------------------------------------------
  // Label mapping

  /** `label_map.get(code, 'Unknown')`: total, never fails. */
  function MapLabel(code: int): (status: string)
    ensures status == UNKNOWN <==> code !in LABEL_MAP
    ensures code in LABEL_MAP ==> status == LABEL_MAP[code]
  {
    if code in LABEL_MAP then LABEL_MAP[code] else UNKNOWN
  }

  /** The four statuses, code by code. */
  lemma MapLabelCases(code: int)
    ensures MapLabel(0) == "Dropout" && MapLabel(1) == "Enrolled" && MapLabel(2) == "Graduate"
    ensures code !in {0, 1, 2} ==> MapLabel(code) == "Unknown"
    ensures MapLabel(-1) == MapLabel(3) == MapLabel(99) == "Unknown"
    ensures MapLabel(code) in {"Dropout", "Enrolled", "Graduate", "Unknown"}
  {
  }

  /** Only code 0 is a dropout. */
  lemma MapLabelDropoutIff(code: int)
    ensures MapLabel(code) == "Dropout" <==> code == 0
  {
  }

  /** `[label_map.get(p, 'Unknown') for p in preds]`, as cells of the new
      column: one label per prediction, in the same order. */
  function Labels(preds: seq<int>): (labels: seq<Cell>)
    ensures |labels| == |preds|
    ensures forall i :: 0 <= i < |preds| ==> labels[i] == Text(MapLabel(preds[i]))
  {
    seq(|preds|, i requires 0 <= i < |preds| => Text(MapLabel(preds[i])))
  }

  // ---------------------------------------------------------------------
  // Summary

  /** The number of rows whose cell in `col` equals `v`. */
  function CountMatches(rows: seq<map<string, Cell>>, col: string, v: Cell): (n: nat)
    ensures n <= |rows|
  {
    if rows == [] then 0
    else (if col in rows[0] && rows[0][col] == v then 1 else 0) + CountMatches(rows[1..], col, v)
  }

  /** `len(df[df['Hasil_Prediksi'] == 'Dropout'])`. */
  function DropoutCount(t: Table): nat {
    CountMatches(t.rows, LABEL_COLUMN, Text("Dropout"))
  }

  datatype Summary = Summary(total: nat, dropouts: nat)

  /** The two metrics: `len(df)` and the dropout count. */
  function Summarize(t: Table): (s: Summary)
    ensures s.total == |t.rows|
    ensures s.dropouts <= s.total
  {
    Summary(|t.rows|, DropoutCount(t))
  }

  /** Rows labelled from `preds` hold as many dropouts as `preds` holds 0s. */
  lemma {:induction false} CountLabelled(rows: seq<map<string, Cell>>, preds: seq<int>)
    requires |rows| == |preds|
    requires forall i :: 0 <= i < |rows| ==>
      LABEL_COLUMN in rows[i] && rows[i][LABEL_COLUMN] == Text(MapLabel(preds[i]))
    ensures CountMatches(rows, LABEL_COLUMN, Text("Dropout")) == multiset(preds)[0]
  {
    if rows != [] {
      CountLabelled(rows[1..], preds[1..]);
      assert preds == [preds[0]] + preds[1..];
      MapLabelDropoutIff(preds[0]);
    }
  }

  /** After the label column is set, the dropout metric is the number of
      predictions equal to class code 0. */
  lemma DropoutCountOfPredictions(t: Table, preds: seq<int>)
    requires Assignable(t, Labels(preds))
    ensures DropoutCount(WithColumn(t, LABEL_COLUMN, Labels(preds))) == multiset(preds)[0]
  {
    CountLabelled(WithColumn(t, LABEL_COLUMN, Labels(preds)).rows, preds);
  }

  // ---------------------------------------------------------------------
  // Preview

  /** `df[['Hasil_Prediksi'] + features].head(100)`. */
  function Preview(t: Table): (p: Table)
    requires Wf(t) && LABEL_COLUMN in t.columns && HasFeatures(t.columns)
    ensures p.columns == [LABEL_COLUMN] + FEATURES && Wf(p)
    ensures |p.rows| == Min(PREVIEW_ROWS, |t.rows|)
    ensures forall i, c :: 0 <= i < |p.rows| && c in p.columns ==>
      c in t.rows[i] && c in p.rows[i] && p.rows[i][c] == t.rows[i][c]
  {
    HasFeaturesIff(t.columns);
    var cols := [LABEL_COLUMN] + FEATURES;
    assert Distinct(cols);
    Head(Project(t, cols).value, PREVIEW_ROWS)
  }

  // ---------------------------------------------------------------------
  // The pipeline

  /** How one run ends: the warning for a table without the features, the
      error message for an exception, or the metrics and the preview. */
  datatype Outcome = Rejected | Failed | Done(summary: Summary, preview: Table)

  /** The schema check on an uploaded table and, for an accepted table, one
      press of the analysis button. `predict` stands for
      `model.predict(scaler.transform(features))`; None is either of them
      raising. */
  method Run(df: DataFrame, predict: Table -> Option<seq<int>>) returns (outcome: Outcome)
    requires df.Valid()
    modifies df
    ensures df.Valid()
    ensures outcome.Rejected? <==> !HasFeatures(old(df.columns))
    ensures !outcome.Done? ==> df.Value() == old(df.Value())
    ensures outcome.Done? ==> LABEL_COLUMN in df.columns && HasFeatures(df.columns)
    ensures !outcome.Rejected? ==>
      var preds := predict(ExtractFeatures(old(df.Value())));
      && (outcome.Failed? <==> preds.None? || !Assignable(old(df.Value()), Labels(preds.value)))
      && (outcome.Done? ==>
            && df.Value() == WithColumn(old(df.Value()), LABEL_COLUMN, Labels(preds.value))
            && outcome.summary == Summary(|preds.value|, multiset(preds.value)[0])
            && outcome.preview == Preview(df.Value()))
  {
    if !HasFeatures(df.columns) {
      return Rejected;
    }
    var features := ExtractFeatures(df.Value());
    var preds := predict(features);
    if preds.None? {
      return Failed;
    }
    ghost var before := df.Value();
    var ok := df.SetColumn(LABEL_COLUMN, Labels(preds.value));
    if !ok {
      return Failed;
    }
    SchemaMonotone(before.columns, df.columns);
    DropoutCountOfPredictions(before, preds.value);
    outcome := Done(Summarize(df.Value()), Preview(df.Value()));
  }
}
