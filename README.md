# Network-flow attack detector: feature reconciliation and verdict

This project models the part of the dashboard in `app.py` that makes decisions.
The rest of the file is presentation around a pre-trained gradient-boosting
pipeline. Two pieces are modelled:

* **Feature reconciliation** (`user_input_features`). The five sidebar values
  (origin port, destination port, flow duration, forward and backward packet
  counts) are written key by key into a Python dict. The dict becomes a one-row
  pandas DataFrame. Every feature the pipeline expects but the row lacks is
  added with the value `0.0`. The row is then projected onto the expected
  features, in the order the pipeline declares them.
* **Benign/attack verdict.** A predicted label counts as secure exactly when it
  is `"Normal"` or `"Thing_Speak"`. Any other label is reported as an attack.

Files and modules:

* `numbers.dfy`, module `Numbers`: cell values. `Num` is `Int` or `Float`, because
  `st.number_input` returns an int or a float depending on its default's type.
  Also the fill value `0.0`, columns, and a `Distinct` predicate.
* `dict.dfy`, module `PyDict`: the dict `data`, with its insertion order, and the
  assignment `data[k] = v` (`Put`).
* `dataframe.dfy`, module `DataFrames`: class `Frame`, a DataFrame holding a single
  row. Its constructor is `pd.DataFrame([data])`. `SetColumn` is `df[col] = v`.
  `Select` is `df[names]`, with pandas' `KeyError` when a column is missing.
* `features.dfy`, module `FeatureSchema`: the reference function `Resolved`, the
  lemmas about it, and the imperative `Reconcile` (lines 57-64) and
  `UserInputFeatures` (lines 47-64). Both methods are proved equal to `Resolved`.
* `verdict.dfy`, module `Verdicts`: `Verdict` and `Classify`.

The resolver requires nothing of the expected feature list. pandas adds and
selects columns the same way when a name is repeated, so duplicates need no
special case. The one place where unique names matter is the statement that
every expected name labels exactly one column. That statement is
`ResolvedUniqueColumns`, and it takes `Distinct(features)` as its hypothesis.
The pipeline's `feature_names_in_` are unique in practice.

The two methods allocate their frame locally and modify nothing else.
`Reconcile` is proved equal to `Resolved`, so the same expected names and the
same supplied values always give the same row.

## Model

| member | source | states |
|---|---|---|
| `PyDict.Put` | app.py:48-55 | `data[k] = v` maps `k` to `v` and keeps every other entry. A new key goes to the end of the order. An existing key keeps its position. The existing key order is never changed. |
| `DataFrames.Frame.constructor` | app.py:57 | `pd.DataFrame([data])` has exactly the dict's keys as columns, in dict order, and its values as the single row. |
| `DataFrames.Frame.SetColumn` | app.py:62 | `df[col] = v` overwrites an existing column in place, or appends a new one last. The frame stays well-formed: each column once, and every column has a cell. |
| `DataFrames.Frame.Select` | app.py:64 | `df[names]` succeeds exactly when every requested name is a column. On success it gives one column per requested name, in request order, with the frame's values. Otherwise the `KeyError` lists exactly the missing names. |
| `FeatureSchema.Resolved` | app.py:59-64 | The resolved row has exactly one column per expected feature name. |
| `FeatureSchema.ResolvedAt` | app.py:59-64 | Column i is named `FEATURES[i]`. It holds the supplied value, unmodified, when that name was supplied, and `0.0` otherwise. |
| `FeatureSchema.ResolvedNames` | app.py:64 | The row's column names are exactly the expected names, in the declared order. |
| `FeatureSchema.ResolvedDropsExtra` | app.py:64 | A supplied key that is not an expected feature does not appear in the row. |
| `FeatureSchema.ResolvedDependsOnExpectedOnly` | app.py:57-64 | Two inputs that agree on the expected names give the same row. Whatever is supplied under other names has no effect. |
| `FeatureSchema.ResolvedUniqueColumns` | app.py:59-64 | When the expected names are distinct, no two columns of the row share a name. |
| `FeatureSchema.SelectedIsResolved` | app.py:64 | Projecting a frame that holds the supplied-or-`0.0` value under every expected name gives the resolved row. |
| `FeatureSchema.Reconcile` | app.py:57-64 | The fill loop followed by the projection returns the reference row for the dict's entries. The loop invariant says that the frame's columns are the dict's keys followed by the appended columns. Each appended column is an expected name that was not supplied, and it holds `0.0`. Every supplied value is kept. |
| `FeatureSchema.UserInputFeatures` | app.py:47-64 | Filling the dict from the five fields and reconciling it gives the reference row for those five values. The ports and packet counts stay ints and the duration stays a float. |
| `FeatureSchema.DefaultRow` | app.py:51-62 | With the widget defaults (38667, 1883, 32.0, 9, 5), each column holds its field's default when it is one of the five fields, and `0.0` otherwise. |
| `Verdicts.Classify` | app.py:82-85 | The verdict is secure if and only if the label is exactly `"Normal"` or `"Thing_Speak"`, and it carries the label unchanged. |
| `Verdicts.AttackUnlessBenign` | app.py:82-85 | Fail-closed: every label outside the benign pair, unknown or empty ones included, yields the attack verdict. |
| `Verdicts.ClassifyExamples` | app.py:82-85 | Matching is exact and case-sensitive: `"normal"`, `""` and `"DoS"` are attacks, and the two benign labels are secure. |

## Left out

- Page setup, title, sidebar header, the preview of the first eight columns, the success/error banners' text and the probability bar chart (app.py:9-18, 45, 71-72, 83-85, 93-94): UI rendering. `Classify` models only which banner is chosen.
- The sidebar widgets themselves (app.py:51-55): their current values become the parameters of `UserInputFeatures`.
- Loading the pipeline with `joblib` under `st.cache_resource`, and the load-error and missing-`feature_names_in_` paths that call `st.stop()` (app.py:23-31, 36-40): file I/O and process control around an opaque artifact. The expected feature list is a parameter.
- `pipeline.predict` and `pipeline.predict_proba` (app.py:78, 87-92): calls into an unseen model with floating-point output. The predicted label is an arbitrary input string to `Classify`. No claim is made about the probability distribution.
- `Numbers.Num`: floats are modelled as exact reals, and Python ints as unbounded integers. pandas' int64/float64 storage, with its overflow and rounding, is not modelled.
- `DataFrames.Frame.Select`: the text of pandas' `KeyError` message is not modelled, only the list of missing names. `Reconcile` proves this error never happens after the fill loop.
- The button press and the reactive re-run of the script on every widget change (app.py:66, 77): control flow of the hosting framework.
