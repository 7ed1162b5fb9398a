/** Three end-to-end uses of the pipeline: a three-row upload classified as
    [0, 1, 2], an upload without the GDP column, and a row whose age is
    missing. */
module Scenarios {
  import opened Frames
  import opened Schema
  import opened App

  method ThreeStudentsClassified(t: Table)
    requires Wf(t) && HasFeatures(t.columns) && |t.rows| == 3
  {
    var df := new DataFrame(t);
    var outcome := Run(df, x => Some([0, 1, 2]));
    assert multiset([0, 1, 2])[0] == 1;
    assert outcome.Done? && outcome.summary == Summary(3, 1);
    assert df.rows[0][LABEL_COLUMN] == Text("Dropout");
    assert df.rows[1][LABEL_COLUMN] == Text("Enrolled");
    assert df.rows[2][LABEL_COLUMN] == Text("Graduate");
    assert |outcome.preview.rows| == 3;
  }

  method MissingGdpRejected(t: Table)
    requires Wf(t) && "GDP" !in t.columns
  {
    MissingFeatureRejects(t.columns, "GDP");
    var df := new DataFrame(t);
    var outcome := Run(df, x => Some([0]));
    assert outcome == Rejected;
    assert df.Value() == t;
  }

  lemma MissingAgeBecomesZero(t: Table, i: nat)
    requires Wf(t) && HasFeatures(t.columns) && i < |t.rows|
    requires "Age_at_enrollment" in t.rows[i] && t.rows[i]["Age_at_enrollment"] == Missing
    ensures ExtractFeatures(t).rows[i]["Age_at_enrollment"] == Num(0.0)
  {
  }
}
