# House-price feature aligner, modelled in Dafny

The house-price app turns a user's choices about a property into a single-row
record and hands it to a pickled classifier. The classifier predicts a price
per square metre bucket. Two pieces of code decide what that row looks like:

- The Streamlit prediction page (`web_app/dash/streamlit/ml_app.py`) offers
  fixed sidebar domains. It builds a 12-column record with a fixed default
  ward, an upper-cased weekday, a parsed month and a derived Region flag. It
  looks for the pipeline file at the repository root first and next to the
  page second. It turns the raw prediction into a bucket label, following
  Python's list indexing with an `except` fallback to `str`.
- The offline script (`get_features.py`) rebuilds the layout a training
  notebook used. It drops the target, size and street columns (absent
  ones are ignored) and adds Region with its own urban list. It reorders the columns
  to the categorical ones followed by the passed-through ones, then one-hot
  encodes them.

The model is pure functions over immutable datatypes:

- `Domains`: the sidebar widgets.
- `Region`: both urban rules.
- `Record`: the serving record.
- `Labels`: the prediction-to-label mapping.
- `ModelPath`: the pipeline-path fallback.
- `MlApp`: one run of the page, plus the unused reference-data loader it defines.
- `Frame`: the few pandas operations used, on a column-major frame.
- `Features`: the offline script.
- `PyText`: Python's `str(int)`, `int(str)` and `str.upper()`.
- `Cells`: the cell values and the distinct-names predicate that `Record`
  and `Frame` share.
- `Wrappers`: `Option` and `Result`.

The classifier and the file system are parameters. `infer` stands for the
pipeline's `predict`/`predict_proba`. `pathExists` stands for `os.path.exists`.

Both Region rules compare strings exactly.

- The page's list spells the district "CẦU GIẤY" correctly. Its extra
  `or dist == 'CẦU GIẤY'` test is redundant, so exactly its 8 listed names
  give 1.
- The offline list spells it "CẦU GIÂY". That spelling is not a selectable
  district. So the offline rule flags only 7 of the 29 selectable districts,
  and Cầu Giấy gets 0 offline but 1 when serving.
- The script marks this as a copy of the notebook's typo ("with notebook
  typo"), so the model keeps both rules as written. `RegionRulesDisagree`
  pins down exactly where they differ.

The page also writes its record columns in a different order from the
offline layout, and it keeps Length, Width and Area, which the offline drop
removes. `ServingVersusOfflineColumns` states both facts.

Three facts about the page's code shape the model:

- There is no ward widget. Every record carries the fixed ward "NGHĨA ĐÔ"
  (`Record.BuildRecord`).
- `pickle.load` runs inside `load_model` (ml_app.py:25-27, called at line
  56), outside the `try` at line 86. A corrupt pipeline file is therefore not
  turned into a message, and that path is not modelled (see below).
- Nothing checks the record's columns against what the pipeline expects. The
  record always has its 12 columns. Only the offline script can miss a
  column, and then it raises a `KeyError` (`Features.PrepareFeatures`).

The page also defines a reference-data loader, `get_reference_processed`
(ml_app.py:17-22), but never calls it, and `app.py` imports only `run_ml_app`. Its
drop is modelled as `MlApp.ReferenceProcessed`, but nothing the page shows
depends on it.

## Model

| member | source | states |
|---|---|---|
| `Domains.InitialInput` | web_app/dash/streamlit/ml_app.py:34-46 | The untouched sidebar is a valid choice: floors "4" (index 3), bedrooms "3" (index 2), month "8" (index 7), district Cầu Giấy, slider initial values inside their ranges |
| `Domains.MonthChoicesArePrinted` | web_app/dash/streamlit/ml_app.py:38 | The month box's twelve choices are `str(i)` for `i` in 1..12, in order |
| `Domains.MonthChoiceParses` | web_app/dash/streamlit/ml_app.py:80 | `int(month)` never raises on a choice the box offers; it yields the month number 1..12 whose printed form is the choice itself |
| `Domains.WeekdaysUpperCased` | web_app/dash/streamlit/ml_app.py:79 | Upper-casing the seven weekday choices gives MONDAY..SUNDAY, position by position |
| `PyText.NatRoundTrip` | web_app/dash/streamlit/ml_app.py:38 | Parsing what `str` printed for a natural number gives that number back |
| `PyText.IntRoundTrip` | web_app/dash/streamlit/ml_app.py:105 | Parsing `str(i)` for any integer, negative included, gives `i` back |
| `PyText.IntToStringInjective` | web_app/dash/streamlit/ml_app.py:105 | Two different integers never print to the same text |
| `PyText.ParseNat` | web_app/dash/streamlit/ml_app.py:80 | `int(s)` succeeds exactly on non-empty all-digit strings; otherwise the error path |
| `PyText.Upper` | web_app/dash/streamlit/ml_app.py:79 | `upper()` keeps the length, leaves no lower-case letter, changes only lower-case letters and maps each to its capital |
| `PyText.UpperIdempotent` | web_app/dash/streamlit/ml_app.py:79 | Upper-casing twice gives the same text as upper-casing once |
| `Region.GetRegion` | web_app/dash/streamlit/ml_app.py:65-67 | The serving flag is 0 or 1, and 1 exactly for the 8 urban names; the extra Cầu Giấy test adds nothing |
| `Region.OfflineRegion` | get_features.py:19-21 | The offline flag is 0 or 1, and 1 exactly for the 8 names of the offline list, with no extra Cầu Giấy test |
| `Region.UrbanListsDifferOnlyInFirst` | get_features.py:20 | The offline list equals the serving list except its first name, the misspelt "CẦU GIÂY" |
| `Region.RegionRulesDisagree` | get_features.py:18-21 | The offline and serving rules differ on exactly two strings: correct Cầu Giấy (1 serving, 0 offline) and the typo (0 serving, 1 offline) |
| `Region.ServingUrbanSelectable` | web_app/dash/streamlit/ml_app.py:41-42 | Every serving urban name is a selectable district, and exactly 8 selectable districts get Region 1, in select-box order |
| `Region.OfflineUrbanSelectable` | get_features.py:19-21 | The misspelt name is not selectable, so offline exactly 7 selectable districts get Region 1 and Cầu Giấy is not one of them |
| `Record.BuildRecord` | web_app/dash/streamlit/ml_app.py:70-83 | The record has exactly the 12 columns District, Ward, House_type, Legal_documents, No_floor, No_bedroom, Length, Width, Day_Of_Week, Month, Area, Region, in this order |
| `Record.RecordColumnsDistinct` | web_app/dash/streamlit/ml_app.py:70-83 | No column name repeats, so each name addresses one cell |
| `Record.RecordCells` | web_app/dash/streamlit/ml_app.py:71-82 | Each named cell holds its source: the chosen strings, Ward "NGHĨA ĐÔ", the sizes, the upper-cased weekday, the parsed month, Region from the district |
| `Record.RecordInDomain` | web_app/dash/streamlit/ml_app.py:75-82 | For every widget choice: counts are among "1".."10"/"GREATER_THAN_10", weekday is upper-case, month is in 1..12, sizes are in [1,500], [1,20], [1,50], Region is 1 iff the district is urban |
| `Record.RegionDependsOnlyOnDistrict` | web_app/dash/streamlit/ml_app.py:82 | Two choices with the same district get the same Region (and Ward), whatever else differs |
| `Record.FridayExample` | web_app/dash/streamlit/ml_app.py:79-82 | Cầu Giấy on a Friday in August gives Region 1, Month 8, Day_Of_Week "FRIDAY" |
| `Labels.PyIndex` | web_app/dash/streamlit/ml_app.py:103 | Python indexing succeeds exactly for `-len <= i < len` and then reads the element `i mod len`; otherwise IndexError |
| `Labels.FinalLabel` | web_app/dash/streamlit/ml_app.py:99-107 | A text prediction is shown verbatim; an integer is shown as a bucket name exactly when `-8 <= i < 8` (bucket `i mod 8`), otherwise as exactly `str(i)`, which reads back as `i` |
| `Labels.NumberIsNoClassName` | web_app/dash/streamlit/ml_app.py:102-105 | The `str` fallback can never be mistaken for a bucket name |
| `Labels.ClassNamesDistinct` | web_app/dash/streamlit/ml_app.py:97 | The eight bucket names are distinct |
| `Labels.NegativeIndexAliases` | web_app/dash/streamlit/ml_app.py:103 | Index `i - 8` shows the same bucket as `i`; -1 shows "301-1000" |
| `Labels.LabelIdentifiesIndex` | web_app/dash/streamlit/ml_app.py:97-103 | A shown bucket label determines the integer up to the negative alias |
| `Labels.IntLabelsEqual` | web_app/dash/streamlit/ml_app.py:99-105 | Two integer predictions show the same label iff they name the same bucket, or are the same out-of-range integer |
| `ModelPath.ResolvePipelinePath` | web_app/dash/streamlit/ml_app.py:49-59 | The root path is used whenever it exists, otherwise the local path if it exists; the load fails exactly when neither exists |
| `ModelPath.CandidatesShareFile` | web_app/dash/streamlit/ml_app.py:49-53 | Both candidates end in `models/randomForest_with_area_pipeline.pkl`; the root one sits three directories above the page |
| `MlApp.ReferenceProcessed` | web_app/dash/streamlit/ml_app.py:18-22 | The defined but uncalled loader's frame loses exactly the six dropped names (absent ones ignored), keeps every other column unchanged and keeps the rows |
| `MlApp.ReferenceProcessedTwice` | web_app/dash/streamlit/ml_app.py:21 | Dropping the reference columns again changes nothing |
| `MlApp.RunMlApp` | web_app/dash/streamlit/ml_app.py:49-107 | A run stops before predicting exactly when no pipeline file is found; a raised prediction error is reported with its message; otherwise the record shown is the built record and the label is `FinalLabel` of the prediction |
| `MlApp.ShownRecordFacts` | web_app/dash/streamlit/ml_app.py:70-83 | Whatever the classifier answers, a shown record carries Region from the serving rule, the default ward and a month in 1..12 |
| `MlApp.ShownBucket` | web_app/dash/streamlit/ml_app.py:99-107 | With the file found and an integer prediction, the page shows a bucket name exactly for a valid Python index |
| `Frame.WithoutMembers` | get_features.py:16 | A name survives the drop exactly when it was present and is not dropped |
| `Frame.WithoutTwice` | get_features.py:16 | Dropping the same names twice is dropping them once |
| `Frame.DropSeriesTwice` | get_features.py:16 | Dropping the same columns twice leaves the same columns, values included |
| `Frame.Drop` | get_features.py:16 | `drop(errors='ignore')` never fails; rows are kept; no dropped name remains; the surviving columns keep their values and relative order |
| `Frame.Derive` | get_features.py:23 | Adding a derived column fails with KeyError exactly when the source is missing; it keeps rows and other columns, and each row's value is the function of that row's source cell |
| `Frame.Select` | get_features.py:30 | `df[names]` fails with KeyError exactly when a name is missing; otherwise it has exactly those columns in that order, each as read |
| `Features.RegionCell` | get_features.py:19-21 | The offline flag is 0 or 1, and 1 exactly for a text district in the offline urban list |
| `Features.ColumnGroups` | get_features.py:26-30 | The categorical and passed-through groups are disjoint, their concatenation is the nine distinct reordered columns, and none of them is dropped |
| `Features.NeededColumnsSurviveDrop` | get_features.py:16 | The drop never removes a column the later steps read |
| `Features.PrepareFeatures` | get_features.py:16-30 | The script's first three steps fail exactly when a needed input column is missing; on success they give the columns `cat_cols + rem_cols` with rows kept, each non-Region column copied from the input and each row's Region computed from its District |
| `Features.SelectSucceeds` | get_features.py:30 | The reordering fails exactly when an input column other than Region was missing |
| `Features.SelectRegion` | get_features.py:23 | After reordering, each row's Region is the offline flag of that row's District |
| `Features.PassThroughColumns` | get_features.py:35-38 | Of the reordered columns, exactly `rem_cols` are left undummied, in their order |
| `Features.GroupInPlace` | get_features.py:37-38 | Each categorical column's dummies form one contiguous block, after the blocks of the columns before it |
| `Features.PreparedLayout` | get_features.py:35-38 | The encoded layout is `rem_cols` first, then the five dummy groups in `cat_cols` order |
| `Features.ServingVersusOfflineColumns` | get_features.py:16 | The offline drop turns the serving record's columns into the same nine columns as the offline layout, but in a different order |

## Left out

- Streamlit rendering, which is UI only: headers, the record table, the success and error messages, the probability table and chart, and the diagnostic expander.
- Loading the pickle and `st.cache_data`/`st.cache_resource`, which are file I/O and caching. An exception raised by `pickle.load` is outside the page's `try`, so it is not modelled either.
- `predict_proba`, `classes_` and the probabilities. The classifier is the opaque parameter `infer`, so its failures merge into one error path.
- Reading `cleaned_data.csv`, the script's prints, its model-shape probe and its writing of `feature_list.txt`. These are I/O.
- The order of categories inside one dummy group, which the code does not show. It comes in as a parameter, and only the grouping the script's comment claims is modelled.
- Slider values are Dafny `real`, not binary floats. `float(x)` of a slider value is the identity there.
- The other pages (`app.py`, `eda_app.py`, the Dash app) and the developer scripts (`inspect_pipeline.py`, `check_features.py`, `debug_model.py`). None of them assembles features.
- PyText.Upper: models `str.upper()` on ASCII letters only. Every string it is applied to is an ASCII weekday name; full Unicode case mapping is not modelled.
- PyText.ParseNat: models `int()` on plain decimal digits only. Surrounding whitespace, a `+` sign and `_` separators are not accepted, and the month strings never contain them.
- PyText.ParseInt: accepts only an optional `-` before plain decimal digits, for the same reason.
- MlApp.RunMlApp: takes only choices the widgets can produce (`ValidInput`). A month string that `int` rejects would raise outside the page's `try`, and the month box never offers one.
- Labels.FinalLabel: a prediction is either an integer or text. Python `bool` predictions (an `int` subclass) and other non-text values (whose `str` form would be shown) are not modelled.
- Frame.Drop: frames have distinct column labels (`WellFormed`). Duplicate labels, which `read_csv` renames anyway, are not modelled.
- Features.RegionCell: a missing or non-text District cell is one case that yields 0. The forms pandas gives such cells are not distinguished.
