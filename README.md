# Student dropout predictor: the batch prediction pipeline in Dafny

This project models the batch prediction pipeline of the Jaya Jaya Institut
student dropout page (`main()` in `app.py`). An uploaded table of student
records is accepted only when it carries the ten feature columns the model
was fitted on. The ten features are then selected in their fixed order, with
every missing cell set to 0. Those features go to the fitted scaler and
classifier. Each class code is mapped to a status (`Dropout`, `Enrolled`,
`Graduate`, or `Unknown` for any other code). The statuses are written into
the table as the `Hasil_Prediksi` column. The page then shows two metrics
(the row count and the number of `Dropout` rows) and a preview of the first
100 rows, with the status column first.

Files:

- `frames.dfy` (module `Frames`) holds the DataFrame behaviour the page
  relies on. A `Table` is a list of column names plus rows, and each row maps
  every column to a `Cell`: `Missing` (NaN), `Num` or `Text`. The module
  defines column selection `df[cols]` (`Project`, which fails like pandas'
  KeyError), `fillna` (`FillNa`), `head` (`Head`) and the result of a column
  assignment (`WithColumn`). The in-place assignment itself is the class
  `DataFrame` with its method `SetColumn`.
- `schema.dfy` (module `Schema`) holds the ten feature names and the schema
  check. The check is written as the short-circuiting walk of
  `all(col in df.columns for col in features)`.
- `app.dfy` (module `App`) holds feature extraction, the label map, the
  label column, the summary, the preview and `Run`. `Run` is the schema
  check on an uploaded table and, for an accepted table, one press of the
  analysis button.
- `scenarios.dfy` (module `Scenarios`) holds three callers of `Run` and
  `ExtractFeatures`: three rows
  classified as `[0, 1, 2]`, a table without `GDP`, and a row whose age is
  missing.

The fitted scaler and classifier are opaque. `Run` receives them as one
function `predict` from the extracted feature table to `Option<seq<int>>`.
`None` stands for `scaler.transform` or `model.predict` raising.

The pipeline has three outcomes:

- `Rejected`: the schema warning at app.py:75-76, shown right after the
  upload; the analysis button is never offered. The table is left
  untouched and nothing is predicted.
- `Failed`: the error message of the `except` at app.py:78-79. The table is
  left untouched.
- `Done`: the two metrics and the preview. The frame has gained (or
  overwritten) the `Hasil_Prediksi` column.

Facts about the code that the model follows:

- Unknown class codes get the `'Unknown'` string from `label_map.get`. No
  missing value is produced.
- The status column comes first only in the preview (app.py:70). The frame
  that is exported at app.py:73 has it in its original position if it was
  already a column, and last otherwise. `Run`'s postcondition states that
  frame through `WithColumn`.
- The code does not check that the classifier returned one code per row.
  On a frame with rows, pandas rejects a column of the wrong length with a
  ValueError, which the `except` at app.py:78 catches, so the model has
  that case end in `Failed`.
- On a frame without rows, pandas accepts a column of any length: it first
  grows the frame to one row per value, with every other cell missing.
  `WithColumn` models that growth. On the page this case needs the scaler
  to accept an empty feature table; since `predict` is opaque, the model
  keeps the case rather than assuming the scaler refuses it.

## Model

| member | source | states |
|---|---|---|
| Frames.Project | app.py:54 | `df[cols]` succeeds exactly when every requested name is a column; the result has the requested columns in the requested order, the same row count and each selected cell unchanged; with distinct names it is again a well-formed table |
| Frames.FillNa | app.py:54 | `fillna(v)` turns every missing cell into `v` and keeps every present cell; columns, row count and each row's keys are unchanged; well-formedness is kept |
| Frames.Head | app.py:70 | `head(n)` keeps the columns and the first min(n, row count) rows in their original order |
| Frames.WithColumn | app.py:60 | after `df[name] = values` there is one row per value and row i holds `values[i]` under `name`; on a frame with rows every other column and cell is unchanged; a frame without rows grows to one row per value with every other cell missing; an existing column keeps its position and a new one is appended last; well-formedness is kept |
| Frames.DataFrame.SetColumn | app.py:60 | the in-place assignment succeeds exactly when there is one value per row or the frame has no rows, and then the frame becomes `WithColumn` of its old value; otherwise (pandas' ValueError) the frame is unchanged |
| Schema.FeaturesDistinct | app.py:44-48 | the ten feature names are pairwise distinct |
| Schema.AllIn | app.py:50 | the short-circuiting walk of `all(col in df.columns for col in features)`; its meaning is proved in `Schema.AllInIff` |
| Schema.HasFeatures | app.py:50 | the schema check on the ten features; its meaning is proved in `Schema.HasFeaturesIff` |
| Schema.AllInIff | app.py:50 | the short-circuiting `all(...)` walk is true exactly when every listed name is among the columns |
| Schema.HasFeaturesIff | app.py:44-50 | the schema check accepts exactly when each of the ten feature names is a column name (exact string membership) |
| Schema.SchemaMonotone | app.py:50 | adding columns never turns an accepted table into a rejected one |
| Schema.SchemaIgnoresOrder | app.py:50 | two column lists with the same names get the same verdict, whatever their order |
| Schema.MissingFeatureRejects | app.py:50 | a table that lacks any one feature name (for example `GDP`) is rejected |
| Schema.SchemaGuardsProjection | app.py:50-54 | the schema check accepts exactly when selecting the feature columns cannot raise a KeyError |
| App.FilledProjection | app.py:54 | selecting present, distinct columns and then filling gives those columns in order, one row per input row, each cell either the input cell or the fill value for a missing one |
| App.ExtractFeatures | app.py:54 | `df[features].fillna(0)` has exactly the ten features in their fixed order and one row per input row; a missing cell becomes 0 and a present cell keeps its value |
| App.ExtractedHasNoMissing | app.py:54 | no cell of the extracted feature table is missing |
| App.MapLabel | app.py:59-60 | `label_map.get(code, 'Unknown')` gives `'Unknown'` exactly for codes outside the map, and the mapped status otherwise |
| App.MapLabelCases | app.py:59-60 | 0, 1 and 2 give `Dropout`, `Enrolled` and `Graduate`; every other code (for example -1, 3, 99) gives `Unknown`; the result is always one of the four |
| App.MapLabelDropoutIff | app.py:59-60 | a code maps to `Dropout` exactly when it is 0 |
| App.Labels | app.py:60 | the list comprehension gives one status per prediction, in prediction order: entry i is the status of `preds[i]` |
| App.CountMatches | app.py:66 | the number of rows whose cell equals a value never exceeds the row count |
| App.DropoutCount | app.py:66 | `len(df[df['Hasil_Prediksi'] == 'Dropout'])`; its value on the labelled frame is proved in `App.DropoutCountOfPredictions` |
| App.Summarize | app.py:65-66 | the total is the row count `len(df)` and the dropout count is at most the total |
| App.CountLabelled | app.py:60-66 | rows labelled from a prediction list have as many `Dropout` cells as the list has zeros |
| App.DropoutCountOfPredictions | app.py:60-66 | after the status column is set from the predictions, the dropout metric equals the number of predictions equal to 0 |
| App.Preview | app.py:70 | the preview has the columns `Hasil_Prediksi` then the ten features, holds min(100, n) rows, and each of its cells equals the cell in the same row of the labelled table |
| App.Run | app.py:50-79 | the table is rejected exactly when a feature is missing, and then it is unchanged; otherwise the run fails exactly when prediction raises or the status column cannot be assigned (a code count different from a non-zero row count), again leaving the table unchanged; on success the frame is the old one with the status column set from the predictions, the total is the new row count (one per code), the dropout count is the number of zero codes, and the preview is that of the labelled frame |

## Left out

- The Streamlit page (title, info, upload widget, button, spinner, metric
  columns, dataframe view, download button, warning and error display) is
  presentation. For an accepted table, `Run` is the path taken after the
  analysis button is pressed; not pressing it does nothing.
- Reading the upload with `pd.read_csv` / `pd.read_excel` is file parsing by
  a library. The model starts from an already parsed table whose column
  names are unique (the reader makes duplicate headers unique).
- `load_assets` and the early return when the model could not be loaded
  are filesystem access, `joblib` and caching. The model assumes both
  artifacts are loaded.
- `scaler.transform` and `model.predict` are opaque fitted artifacts doing
  floating-point arithmetic. They are the parameter `predict` of `Run`, and
  nothing is assumed about the length or range of their output.
- The CSV serialisation and UTF-8 encoding of the export at app.py:73 are
  pandas and encoding plumbing. The exported frame is `Run`'s final frame.
- Numbers are modelled as unbounded reals, not as floating point. A
  non-numeric text cell in a feature column would make the scaler raise;
  that is covered only through `predict` returning `None`.
- The `except` at app.py:78 catches every exception, so the page cannot
  tell a scaler failure from a classifier failure or a length mismatch. The
  model reports all three as the same `Failed` outcome.
