/** The input schema of the dropout predictor: the ten feature columns
    and the check that an uploaded table carries all of them. */
module Schema {
  import opened Frames

  /** The ten columns the scaler and the classifier were fitted on, in order. */
  const FEATURES: seq<string> := [
    "Tuition_fees_up_to_date", "Scholarship_holder", "Age_at_enrollment",
    "Curricular_units_1st_sem_approved", "Curricular_units_2nd_sem_approved",
    "Curricular_units_2nd_sem_grade", "Debtor", "Gender", "Academic_Trend", "GDP"
  ]

  lemma FeaturesDistinct()
    ensures Distinct(FEATURES)
  {
  }

  /** `all(col in columns for col in names)`, walking `names` in order. */
  function AllIn(names: seq<string>, columns: seq<string>): bool {
    if names == [] then true else names[0] in columns && AllIn(names[1..], columns)
  }

  lemma {:induction false} AllInIff(names: seq<string>, columns: seq<string>)
    ensures AllIn(names, columns) <==> forall n :: n in names ==> n in columns
  {
    if names != [] {
      AllInIff(names[1..], columns);
      assert forall n :: n in names <==> n == names[0] || n in names[1..];
    }
  }

  /** The schema check: the table is accepted when all ten features are
      among its columns. */
  predicate HasFeatures(columns: seq<string>) {
    AllIn(FEATURES, columns)
  }

  /** Accepted exactly when every feature name is a column name (exact,
      case-sensitive string membership). */
  lemma HasFeaturesIff(columns: seq<string>)
    ensures HasFeatures(columns) <==> forall f :: f in FEATURES ==> f in columns
  {
    AllInIff(FEATURES, columns);
  }

  /** Column order and extra columns do not change the verdict: only the
      set of column names matters, and adding columns never rejects. */
  lemma SchemaMonotone(columns: seq<string>, wider: seq<string>)
    requires forall c :: c in columns ==> c in wider
    ensures HasFeatures(columns) ==> HasFeatures(wider)
  {
    HasFeaturesIff(columns);
    HasFeaturesIff(wider);
  }

  lemma SchemaIgnoresOrder(columns: seq<string>, reordered: seq<string>)
    requires forall c :: c in columns <==> c in reordered
    ensures HasFeatures(columns) <==> HasFeatures(reordered)
  {
    SchemaMonotone(columns, reordered);
    SchemaMonotone(reordered, columns);
  }

  /** One missing feature (for instance "GDP") rejects the table. */
  lemma MissingFeatureRejects(columns: seq<string>, f: string)
    requires f in FEATURES && f !in columns
    ensures !HasFeatures(columns)
  {
    HasFeaturesIff(columns);
  }

  /** The schema check is exactly the condition under which selecting the
      feature columns cannot raise a KeyError. */
  lemma SchemaGuardsProjection(t: Table)
    requires Wf(t)
    ensures HasFeatures(t.columns) <==> Project(t, FEATURES).Some?
  {
    HasFeaturesIff(t.columns);
  }
}
