# SOC log anomaly detector — a Dafny model of its record-level logic

The SOC log anomaly detector turns web-server access logs and Windows
Security events into numeric feature tables, scores them with an isolation
forest, and shows the flagged rows on a dashboard with a reason for each.
This project models the deterministic part of that pipeline as pure Dafny
functions over immutable rows, and proves what each step promises:

- **access-log parsing** (`AccessLog`): the Common Log Format pattern as a
  field-by-field matcher, `search` over all start positions, line skipping,
  the bytes placeholder and the integer conversions;
- **web features** (`WebFeatures`): the twelve-column feature vector,
  including the batch-wide `requests_per_ip` group count and the
  regex-dot quirk of the `.exe` test;
- **legacy cleaner** (`PreparedLogs`): fill blanks with 0, drop unparseable
  timestamps, coerce bytes, and derive the five output columns;
- **Windows authentication events** (`WindowsAuth`): the logon-code filter,
  user and dotted-quad address detection, the derived features and the
  empty-batch path;
- **heuristic labels** (`Heuristics`): the basic and strict labellings;
- **scoring glue** (`Scoring`, `Training`): -1 means anomalous, flagged-row
  selection, the label counts, the accuracy, the training sample sizes and
  the scaler-on-sample order;
- **explanations and the dashboard** (`Explanation`, `Frames`, `Dashboard`):
  the five ordered rules, the column check, the anomaly rate, the
  ground-truth accuracy and the reason filter;
- **synthetic attacks** (`AttackTest`): the rewritten rows, the appended
  test set and its ground truth, and how both labellings and the dashboard
  treat those rows.

Shared vocabulary lives in `Wrappers` (Option/Result), `Text` (character
classes, case-insensitive search, split/join, Python `int()` on text),
`Seqs` (counting, filtering, group counts, agreement rate) and `Schema`
(numeric cells with NaN, timestamps, the feature vector and its column
order, failures).

Collaborators the code calls but does not define are parameters:
- the timestamp parser is `string -> Option<Timestamp>`, where `None` is NaT;
- the scaler and the forest are records of functions;
- a random sample is a sequence of distinct row positions;
- random draws are values within their stated ranges.

A pandas number is `Value = Num(real) | NaN`, and every comparison with NaN
is false. A step that raises an exception on a whole batch returns a
`Failure`. Examples are a bytes field that is not an integer, a table with
no rows handed to the scaler, a scaler handed other columns than it was
fitted on, and a sample larger than the table.

## Model

| member | source | states |
|---|---|---|
| Text.ContainsIgnoreCase | prepare_features.py:28-29 | `str.contains(pattern, case=False)`: true exactly when the compiled pattern occurs at some position of the text. `.` is any character except a newline, and letters compare ignoring case. |
| Text.Split | windows_log_analyzer.py:46 | `s.split(".")`: there is always at least one part, no part holds the separator, and joining the parts with the separator gives back the text. |
| Text.SplitJoin | windows_log_analyzer.py:46 | Splitting a join of separator-free parts gives back exactly those parts. |
| Text.DigitsValueBound | parse_to_csv.py:10 | A run of n digits is worth less than 10^n, so a three-digit status is at most 999. |
| Text.ParseShowInt | parse_to_csv.py:24 | `int()` reads the decimal text of every integer back as that integer, negative ones included. |
| Seqs.GroupCounts | prepare_features.py:20-21 | `groupby(key).transform("count")`: each row's count is the number of rows with its key. Every count lies between 1 and the batch size, and rows with equal keys get equal counts. |
| Seqs.CountEqIsCardinality | prepare_features.py:20-21 | The count of a key is the size of the set of positions holding that key. |
| Seqs.GroupCountsExample | prepare_features.py:20-21 | Keys A, A, B give counts 2, 2, 1. |
| Seqs.GroupCountsAppend | prepare_features.py:20-21 | Group counts depend on the whole batch: in a merged batch a row's count is its key's count in both parts together. |
| Seqs.Filter | train_models.py:81 | Boolean-mask selection keeps exactly the rows at the satisfying positions, in increasing position order, so each selected row appears once. |
| Seqs.CountBinaryPartition | train_models.py:29-30 | For a 0/1 column, the number of zeros plus the number of ones is the number of rows. |
| Seqs.AgreementRate | train_models.py:72 | `accuracy_score`: the number of agreeing rows divided by the row count. It lies in [0, 1], is 1 exactly when the two columns are equal, and is 0 exactly when they differ at every row. |
| Seqs.AgreementsIsCardinality | train_models.py:72 | The number of agreeing rows is the size of the set of positions where the two columns agree. |
| Schema.Flag | prepare_features.py:12-13 | `(condition).astype(int)` is 0 or 1, and it equals 1 exactly when the condition holds. |
| Schema.FromValues | prepare_features.py:31-40 | Reading a row back from its twelve cells in column order gives a row that writes out to the same cells. |
| Schema.FromValuesValues | prepare_features.py:31-40 | Writing a feature row out to its twelve cells and reading it back gives the same row. |
| Schema.ValuesFollowFeatureNames | prepare_features.py:31-40 | The written cell at position i is the cell named by the i-th output column. Exactly the twelve column names address a cell. |
| Schema.FeatureNamesDistinct | prepare_features.py:31-40 | The output has twelve columns with pairwise distinct names. |
| AccessLog.MatchPrefix | parse_to_csv.py:7-11 | A match gives groups of the pattern's shape. ip, method, url and bytes have no whitespace, time has no `]`, protocol has no `"` and is non-empty, and status is three digits. |
| AccessLog.Search | parse_to_csv.py:17 | `pattern.search`: there is a match exactly when the pattern matches from some start position, and the result is the match from the first such position. |
| AccessLog.MatchRender | parse_to_csv.py:7-11 | A log line rendered from well-shaped fields is matched back to exactly those fields. |
| AccessLog.MatchedLineIsRendered | parse_to_csv.py:7-11 | Conversely, a line matched at its start is the rendering of its groups, with some identity fields and a trailer that is empty or starts with whitespace. |
| AccessLog.MatchAllAppend | parse_to_csv.py:15-19 | The matches of two line lists joined are the matches of each, joined, so row order follows line order. |
| AccessLog.UnmatchedLineIgnored | parse_to_csv.py:15-19 | A line the pattern is not found in changes neither the rows nor the outcome, wherever it stands. |
| AccessLog.BytesValueOf | parse_to_csv.py:24 | A bytes field of `-` reads as 0, and the decimal text of any integer reads as that integer. The cast accepts that text exactly when the integer fits in 64 bits. |
| AccessLog.Convert | parse_to_csv.py:23-30 | Converting one match fails when its bytes field is neither `-` nor an integer, and overflows when that integer does not fit in 64 bits. Each failure names the field. On success, status and bytes are the integers of their text, the other groups are kept, and the time is replaced by its parsed timestamp (None for NaT). |
| AccessLog.ConvertAll | parse_to_csv.py:23-24 | The column conversion succeeds exactly when every bytes field converts, and then gives the conversion of each match, in order. A failure is the failure of the first field that does not convert. |
| AccessLog.ParseLog | parse_to_csv.py:15-30 | The script fails on the missing `status` column exactly when no line matches. Otherwise it is the conversion of the matches in line order, at most one row per line. Every row's ip, method and url have no whitespace, and its status is 0 to 999. |
| WebFeatures.Featurize | prepare_features.py:8-29 | Hour and day come from the timestamp (NaN for NaT). is_error is 1 iff status >= 400, is_server_error is 1 iff status >= 500 (and then is_error is 1), and large_transfer is 1 iff bytes > 10000. url_length is the URL's length. is_post and is_get are 1 iff the method is POST / GET, never both. is_exe is 1 iff a case-insensitive `exe` follows some non-newline character, and is_admin is 1 iff `admin` occurs in any case. |
| WebFeatures.Extract | prepare_features.py:19-40 | One feature row per parsed row, in order. requests_per_ip is the number of rows in the batch with that IP: between 1 and the batch size, and equal for equal IPs. |
| WebFeatures.RequestsPerIpIsGroupSize | prepare_features.py:20-21 | requests_per_ip equals the size of the set of row positions sharing the IP. |
| WebFeatures.RequestsPerIpExample | prepare_features.py:20-21 | A batch with IPs A, A, B gives request counts 2, 2, 1. |
| WebFeatures.ExeSearch | prepare_features.py:28 | The `.exe` test holds exactly when some position has a non-newline character followed by e, x, e in any case. |
| WebFeatures.AdminSearch | prepare_features.py:29 | The `admin` test holds exactly when `admin` occurs at some position in any case. |
| WebFeatures.ExeNotAtStart | prepare_features.py:28 | The URL `exe` alone is not flagged, because the regex dot needs a character before it. |
| WebFeatures.ExeAfterAnyCharacter | prepare_features.py:28 | Any non-newline character followed by `EXE` is flagged, not only a dot. |
| PreparedLogs.FillRow | load_real_logs.py:20 | `fillna(0)` turns each blank cell into 0 and leaves the other cells as they are, so no cell is blank. |
| PreparedLogs.FillRowIdempotent | load_real_logs.py:20 | Filling leaves a row unchanged exactly when it has no blank, and filling twice is filling once. |
| PreparedLogs.Trunc | load_real_logs.py:39 | `int()` on a float truncates toward zero. |
| PreparedLogs.ToNumeric | load_real_logs.py:36 | A number stays itself, integer text reads as its value, and a blank or text that is not a number reads as 0. |
| PreparedLogs.ToNumericShowInt | load_real_logs.py:36 | The decimal text of any integer reads back as that integer. |
| PreparedLogs.PrepareRow | load_real_logs.py:32-40 | A row fails exactly when `int(status)` fails. Hour and day_of_week come from the timestamp, and bytes is the coerced number. is_failed is 1 iff int(status) >= 400, and is_large_transfer is 1 iff bytes > 500000. Both are 0 or 1. |
| PreparedLogs.Kept | load_real_logs.py:20-26 | The k-th kept row is the filled form of the k-th input row whose filled timestamp parses. So the kept rows keep their order, each appears once, and each is filled with a timestamp that parses. |
| PreparedLogs.Prepare | load_real_logs.py:20-46 | The script succeeds exactly when every kept row's status converts. It then gives one five-column row per kept row, each the conversion of that row. |
| PreparedLogs.BlanksReadAsZero | load_real_logs.py:20 | A blank cell is filled with 0 before anything reads it. A blank timestamp reaches the parser as 0, a blank status is not failed, and blank bytes are 0. |
| PreparedLogs.NumericStatusThreshold | load_real_logs.py:39 | For a numeric status, truncation does not move the threshold: failed exactly when the number is at least 400. |
| WindowsAuth.FirstCandidate | windows_log_analyzer.py:38-41 | Gives the position of the first string entry meeting the test, and no earlier string entry meets it. There is no result exactly when no string entry meets the test. |
| WindowsAuth.DetectUser | windows_log_analyzer.py:36-41 | The user is the first insertion string holding `\` or `@`. It is `Unknown` exactly when there is none. |
| WindowsAuth.DetectIp | windows_log_analyzer.py:44-49 | The address is the first insertion string made of four non-empty digit parts separated by dots. It is `Local` exactly when there is none. |
| WindowsAuth.DottedQuadLooksLikeIp | windows_log_analyzer.py:46-47 | Any four non-empty digit strings joined by dots count as an address, so parts are not range-checked. |
| WindowsAuth.IpIsDottedQuad | windows_log_analyzer.py:46-47 | Every accepted address is four non-empty digit strings joined by dots. |
| WindowsAuth.BeforeFirstDot | windows_log_analyzer.py:28 | `split('.')[0]` has no dot. It is the whole text, or a prefix of it followed by a dot. |
| WindowsAuth.Record | windows_log_analyzer.py:27-52 | The timestamp is the parse of the text before the first dot. login_success is 1 iff the code is 4624, else 0. |
| WindowsAuth.Collect | windows_log_analyzer.py:24-25 | One row per event with code 4624 or 4625. The k-th row is the record of the k-th such event, in query order. |
| WindowsAuth.Featurize | windows_log_analyzer.py:84-88 | login_attempts counts the rows sharing the address: at least 1 and equal for equal addresses. hour and day come from the timestamp. failed_login is 1 iff login_success is 0, and high_attempts is 1 iff login_attempts > 5. |
| WindowsAuth.Features | windows_log_analyzer.py:90 | The model input has four cells: hour, day, failed_login and high_attempts, in that order, each holding the row's value. |
| WindowsAuth.Analyze | windows_log_analyzer.py:65-100 | With no logon events the result is an empty table and no flags. Otherwise a scaler fitted on columns other than hour, day, failed_login and high_attempts rejects the batch. With a scaler fitted on those, the flags are 1 exactly where the model predicts -1 on the scaled feature matrix, and scoring fails exactly when the predictions are not one per row. |
| WindowsAuth.SavedDetectorRefusesLogons | windows_log_analyzer.py:90-96 | The scaler the training script saves, loaded here, is fitted on the twelve web feature columns. Any batch with a logon event is therefore rejected for handing it the four authentication columns. |
| WindowsAuth.AuthFittedDetectorScores | windows_log_analyzer.py:90-98 | A detector fitted on the four authentication columns that gives one prediction per row scores every logon event, and flags exactly the rows it predicts -1 on. |
| WindowsAuth.Anomalies | windows_log_analyzer.py:106 | The anomalies export is the rows whose flag is 1, in table order. |
| WindowsAuth.NoLogonsNeverScored | windows_log_analyzer.py:95-100 | Without logon events the outcome is the same whatever the detector: nothing is scored. |
| Scoring.Predict | soc_dashboard.py:44-49 | A scaler handed columns other than those it was fitted on fails, whatever the table. Otherwise scoring an empty table fails, and in all other cases the result is the model's prediction on the scaled table, failing exactly when that prediction is not one per row. |
| Scoring.Flags | soc_dashboard.py:50 | `(preds == -1).astype(int)`: one 0/1 flag per prediction, 1 exactly where the prediction is -1. |
| Scoring.FlaggedCount | train_models.py:61-64 | The number of flagged rows is the number of -1 predictions, so at most the number of rows. |
| Scoring.AnomalyIndices | soc_dashboard.py:51 | The flagged positions, strictly increasing, containing every flagged position and no other. |
| Scoring.Flagged | train_models.py:80-81 | `X[X["anomaly"] == 1]`: exactly the flagged rows, in table order. |
| Heuristics.Labels | train_models.py:23-27 | The label column is 0/1 and equals 1 exactly where the rule holds. |
| Heuristics.LabelCounts | train_models.py:29-30 | The suspicious count is the number of rows the rule holds for, and normal plus suspicious is the number of rows. |
| Heuristics.LargeTransferAloneDisagrees | train_models_fast_high_accuracy.py:22 | A large transfer with at most 1000 requests and nothing else notable is normal under the strict labelling but suspicious under the basic one. |
| Heuristics.StrictWithoutEndpointsIsBasic | train_models_fast_high_accuracy.py:20-25 | Without the admin and executable rules, the strict labelling implies the basic one. |
| Heuristics.EndpointsOnlyStrict | train_models_fast_high_accuracy.py:23-24 | An admin or executable request with nothing else notable is suspicious only under the strict labelling. |
| Explanation.LabelsDistinct | soc_dashboard.py:59-67 | The five reason labels are distinct. |
| Explanation.MatchedUpTo | soc_dashboard.py:57-67 | The reasons collected from the first n rules, without repeats. A rule's label is present exactly when the rule holds, and the list is empty exactly when none of those rules holds. |
| Explanation.MatchedUpToSelects | soc_dashboard.py:57-67 | The collected reasons are the labels at the positions of the rules that hold, in rule order. |
| Explanation.Matched | soc_dashboard.py:57-67 | The reasons list of a row holds a rule's label exactly when the rule holds, without repeats. |
| Explanation.JoinedLabelsAreNotFallback | soc_dashboard.py:68 | No joined list of labels equals `Statistical anomaly`. |
| Explanation.Explain | soc_dashboard.py:56-68 | `explain(row)` is never empty. It is `Statistical anomaly` exactly when none of the five rules holds. |
| Explanation.ExplainIsStepwise | soc_dashboard.py:56-68 | The explanation equals the five tests run one after another, each appending its label, then joined by `, ` or replaced by the fallback. |
| Explanation.SingleRuleExplained | soc_dashboard.py:56-68 | A row meeting exactly one rule is explained by that rule's label alone; for example, only is_admin gives `Admin endpoint access`. |
| Training.TrainSize | train_models.py:38 | `min(100000, total)`: at most both bounds and equal to one of them. |
| Training.FullSampleCoversAllRows | train_models.py:42 | A sample of distinct positions as large as the table contains every row position. |
| Training.BasicTrainsOnAllRowsOfSmallTables | train_models.py:38-42 | On a table of at most 100000 rows, every row is in the training sample. |
| Training.Evaluate | train_models.py:61-81 | normal plus suspicious is the total. The detected count is the number of -1 predictions. Accuracy is the agreement rate of labels and flags, and is 1 exactly when they are equal. The anomalies export is the flagged rows in table order. |
| Training.TrainBasic | train_models.py:23-62 | An empty table fails. Otherwise the forest is fitted on the sampled rows, the suspicious count is the basic rule's, and a row is flagged exactly when the model predicts -1 for it. The report evaluates those predictions against the basic labels. |
| Training.TrainStrict | train_models_fast_high_accuracy.py:20-64 | A table under 100000 rows fails the sample. Otherwise the scaler is fitted on the sampled rows only. The forest is fitted on the sample as that scaler transforms it, and the suspicious count is the strict rule's. The report evaluates the model's predictions on the whole scaled table against the strict labels. |
| Training.SavedDetectorReproducesFlags | train_models_fast_high_accuracy.py:103-104 | Scoring the training table with the saved scaler and model reproduces the evaluation's flags. |
| Training.StrictFitSeesOnlySample | train_models_fast_high_accuracy.py:39-41 | Two tables that agree on the sampled rows give the same scaler state and model: unsampled rows do not leak into fitting. |
| Frames.IndexOf | soc_dashboard.py:43 | Gives the position of the first column with the name. There is none exactly when the name is absent. |
| Frames.MissingColumns | soc_dashboard.py:38 | The missing list is the wanted names at the positions of those that are not columns, in wanted order. It is empty exactly when every wanted name is a column. |
| Frames.Column | soc_dashboard.py:83 | `df[name]` is the named column's cells top to bottom. There is none exactly when the name is absent. |
| Frames.Project | soc_dashboard.py:43 | `df[names]` fails, listing the missing names, exactly when some name is absent. Otherwise each row's cells are read by name, in the order of `names`, whatever the table's column order. |
| Frames.ProjectReadsOnlyNamedColumns | soc_dashboard.py:43 | Tables that agree on the named columns give the same model input. |
| Dashboard.ModelFeaturesAreFeatureNames | soc_dashboard.py:19-23 | The dashboard's feature list is the feature step's output columns, in the same order. |
| Dashboard.Accuracy | soc_dashboard.py:82-84 | The accuracy exists exactly when there is a ground_truth column. It is the agreement rate of ground truth and flags, is 1 exactly when they are equal on every row, and is 0 exactly when they differ on every row. |
| Dashboard.Explained | soc_dashboard.py:51-71 | One entry per flagged row, in table order, and every flagged row appears. Each entry carries the row's cells and the explanation of its model features, so only flagged rows get a reason. |
| Dashboard.SavedDetectorFitsDashboard | soc_dashboard.py:43-44 | The scaler and model the training script saves never make the dashboard fail for a column mismatch, since the dashboard's model columns are the feature columns, in order. |
| Dashboard.Run | soc_dashboard.py:38-84 | A missing model column stops the run with exactly the missing names. Otherwise a scaler fitted on other columns than the twelve model columns rejects the table, and an empty table fails scoring, and scoring fails exactly when the predictions are not one per row. On success a row's flag is 1 exactly when the model predicts -1 on the scaled model columns, and the flagged rows are explained. The rate is the flagged count over the row count, in [0, 1]. The accuracy is present exactly when there is ground truth. |
| Dashboard.FilterByReason | soc_dashboard.py:96-98 | An empty selection shows every flagged row. Otherwise it shows the flagged rows at the positions whose reason was selected, in their order. |
| Dashboard.StatisticalOnlyWithoutRules | soc_dashboard.py:68-71 | A flagged row is reported as `Statistical anomaly` exactly when it meets none of the five rules. |
| AttackTest.AttackRow | generate_attack_test.py:16-40 | An attack row keeps the sampled row's hour and day. is_admin, is_exe, is_post and large_transfer are 1, and is_get is 0. requests_per_ip, bytes and url_length are the drawn values. is_error equals is_server_error, which is 1 exactly when drawn so. Within the draw ranges, the request count exceeds 1000 and the bytes exceed 10000. |
| AttackTest.Generate | generate_attack_test.py:14-50 | A table under 5000 rows fails the sample. Otherwise the output is the original rows unchanged with ground truth 0, followed by the 5000 rewritten sampled rows with ground truth 1. |
| AttackTest.GroundTruthCounts | generate_attack_test.py:49-50 | The test set holds exactly 5000 attacks, and as many normal rows as the original table. |
| AttackTest.AttackRowsSuspicious | generate_attack_test.py:19-33 | Every attack row is suspicious under both the basic and the strict labelling. |
| AttackTest.AttackRowReasons | generate_attack_test.py:19-40 | An attack row meets every rule, except the server-error rule when no server error was drawn. |
| AttackTest.AttackRowExplanation | generate_attack_test.py:19-40 | An attack row is explained as `High request volume, Large data transfer, Admin endpoint access, Executable file access`. `Server error response` is inserted second when a server error was drawn. |
| AttackTest.ToFrame | generate_attack_test.py:46-52 | The test file has one row per test row under the feature columns followed by ground_truth, every row one cell per column. |
| AttackTest.AttackFrameFeatures | generate_attack_test.py:46-52 | The dashboard finds every model column in the test file and reads each row's features back unchanged. |
| AttackTest.AttackFrameGroundTruth | generate_attack_test.py:49-50 | The dashboard reads the ground truth column back unchanged. |
| AttackTest.PerfectAccuracyMeansExactDetection | generate_attack_test.py:49-50 | On the test file the dashboard reports an accuracy. It is 100% exactly when the model flags the attack rows and nothing else. |

## Left out

- The isolation forest and the standard scaler are opaque. They sit in the training scripts, soc_dashboard.py:44-49 and windows_log_analyzer.py:96-97. They are function-valued parameters plus the list of columns the scaler was fitted on. That list is checked against the columns handed over, as scikit-learn does, and the only thing assumed of a prediction is that there is one per row. The column-count check that follows the name check is not modelled separately, since equal names imply equal counts. Their floating-point numerics, `contamination` and the `float32` cast of train_models.py:13 are not modelled.
- A detector is assumed to score every row it is given. In particular, the forest's refusal of NaN inputs is not modelled. Such inputs arise when a timestamp is NaT (hour and day are NaN), and the refusal would stop the Windows analyzer or the dashboard with an error.
- `classification_report` is not modelled. Neither are the report and console text, the percentages, `time` measurements or `print`: they are output formatting.
- No CSV is written or read (joblib files included). Each script's input is modelled as typed rows.
  - pandas' type inference on reading is not modelled.
  - Neither are strings that read as NaN, such as `NA` or `null`, in ip or url columns.
- `joblib.dump` at train_models.py:126-127 is left out. It uses the names `joblib`, `model` and `scaler`, which that script never defines. The script therefore stops with a `NameError` after its report files are written.
- The Streamlit page, widgets, previews and plotly charts are left out: they are user interface. This covers soc_dashboard.py:9-16, 25-33, 76-80, 90-94 and 103-133. The reason filter takes any selection, not only the reasons on offer. Saving the report is I/O.
- The WMI connection and query (windows_log_analyzer.py:16-24) are left out. Events are an input sequence of code, time text and insertion strings. A missing insertion list behaves as an empty one, and the time is always text.
- Timestamp parsing, time zones and the calendar arithmetic of `.dt.hour` / `.dt.dayofweek` are a parser parameter. Its result carries the hour and the weekday.
- Random sampling and `np.random` draws are parameters. A sample is assumed to be distinct in-range positions of the requested size. Draws are assumed to lie in their ranges, but only the lemmas that need the ranges assume them.
- Python `re` is modelled only for the fixed patterns of this code: the log pattern and the `.exe` and `admin` searches.
  - `\d`, `str.isdigit` and `int()` accept only ASCII digits here. Python also accepts other Unicode decimal digits, and `int()` also accepts underscores between digits.
  - Case-insensitive matching covers ASCII letters plus the few non-ASCII characters that fold onto `i`, `k` and `s`. Full Unicode case folding is not modelled.
- PreparedLogs.ToNumeric: text holding a decimal fraction or an exponent reads as 0 here, while `pd.to_numeric` would read its value. Only integer text is read.
- PreparedLogs rows carry only the three columns the cleaner reads. The other columns only pass through `fillna`.
- Dashboard.Run: cells of an uploaded table are numeric or NaN. A text cell in a model column, which would make the scaler fail, is not modelled.

## Findings

| source | as written | input that shows it | evidently intended | confidence | as-written member | corrected member |
|---|---|---|---|---|---|---|
| windows_log_analyzer.py:96 (scaler loaded at line 10, fitted and saved at train_models_fast_high_accuracy.py:39-41, 104) | The analyzer loads the scaler the training script fitted on the twelve web feature columns of features.csv, and hands it the four columns hour, day, failed_login and high_attempts; scikit-learn rejects the mismatch. | Any event batch holding a 4624 or 4625 logon event. | A scaler and model fitted on the four authentication columns, so that every logon row is scored. | high (not executed) | WindowsAuth.SavedDetectorRefusesLogons | WindowsAuth.AuthFittedDetectorScores |
