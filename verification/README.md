# ML-Based-IDS: a Dafny model of the table and verdict logic

ML-Based-IDS classifies network traffic as `BENIGN` or one of several known
attack categories. A secondary anomaly detector, an isolation forest, flags
traffic that looks like neither. The program consists of Python scripts over
pandas, scikit-learn and Scapy. This project models, in Dafny, the logic
between the raw input and the trained models, with the models as opaque
per-row functions:

- **Upload page** (`app.py`):
  - strips the column names of an uploaded CSV;
  - drops every row holding ±infinity or NaN in any column;
  - reindexes the rest onto the trained feature schema, with 0 for missing columns;
  - scales, classifies and decodes;
  - shows the surviving original rows with their predicted category;
  - singles out the attack rows and tallies the categories.
- **Training preparation** (`preprocess_data` in `data_preprocessing.py`):
  - performs the same cleaning;
  - drops `Flow ID` and `Timestamp` when both are present;
  - encodes the labels with a `LabelEncoder`;
  - takes every column except `Label` as the feature schema and fits the scaler on it.
- **Hybrid dashboard** (`pages/2_Live_Analysis.py`):
  - turns each sniffed packet into a feature row in the session buffer;
  - each rerun reindexes and scales the whole buffer;
  - classifies and decodes every row, and runs the anomaly detector on it;
  - keeps the rows that either model flags;
  - appends them, stamped with one capture time, to `alert_log.csv`.
- **Console tool** (`live_capture.py`): builds one feature row per packet, including three payload-length features. It projects the row onto the schema, scales, classifies and decodes it, and prints an alert for every category other than `BENIGN`. `AttributeError` and `IndexError` make it skip the packet.

Modules, each in its own file:

| module | file | what it models |
|---|---|---|
| `Common` | common.dfy | `Option`, `Result` and the exceptions the code raises |
| `Seqs` | seqs.dfy | order-preserving filter, boolean masks, first-occurrence lookup, counting |
| `Text` | text.dfy | `str.strip()` and Python's string order |
| `Frames` | frames.dfy | the pandas operations used: `columns.str.strip()`, `replace`, `dropna`, `reindex`, `.loc`, column assignment, `drop(columns=…)`, boolean selection |
| `Labels` | labels.dfy | `LabelEncoder` (fit, transform, inverse transform) and `value_counts` |
| `Models` | models.dfy | scaler, classifier and detector as opaque row functions; the anomaly flag; the hybrid verdict |
| `Packets` | packets.dfy | a packet as its layer stack, with Scapy's field and layer lookup |
| `Features` | features.dfy | the per-packet feature dict and the two ways dicts become tables |
| `Upload` | upload.dfy | the upload page |
| `Preprocessing` | preprocessing.dfy | training preparation |
| `AlertLog` | alert_log.dfy | the alert log file and appends to it |
| `LivePage` | live_page.dfy | the dashboard's capture, scoring, filter and logging cycle |
| `LiveCapture` | live_capture.dfy | the console tool |

Behaviour of the code that the model keeps, although it is easy to miss:

- **Reindexing can fail.** pandas refuses to reindex a frame whose stripped column names repeat, unless they already equal the schema. This is `DuplicateColumnLabels`.
- **The scaler checks names, not just the count.** scikit-learn checks the column names it was fitted on. It also rejects non-numeric cells and empty batches.
- **Ports are not only TCP's and UDP's.** `packet.sport` resolves on the first layer that defines the field. Besides TCP and UDP, Scapy's default layers include others that do (SCTP, for one). Such a packet gets its ports, leaves `Protocol` as the schema set it (0 when the schema has the column, absent otherwise), and is scored like any other.
- **Missing layers are not always skipped.**
  - The dashboard's `process_packet` has no `try`. An IP packet without any port-carrying layer raises `AttributeError` out of `sniff` and ends the rerun.
  - The console tool skips a packet only on `AttributeError` or `IndexError`.
- **The log header is written once.** The header comes from the first rerun that logs. Later reruns append rows whose columns follow that rerun's buffer keys, in order of first appearance. A key that earlier rows lacked (`Protocol`, set only for TCP and UDP packets, or the port keys, set only with IP) widens later rows past the header (`LivePage.LogOutgrowsHeader`).
- **The buffer is emptied only by Start.** Nothing else on the dashboard clears it, so every rerun rescores all rows captured since Start (see Findings).
- **All three assets are needed.** The dashboard's sniffing block runs only when the classifier, the detector and the scaler all loaded.

## Model

| member | source | states |
|---|---|---|
| Text.Strip | app.py:41 | the stripped name has no whitespace at either end, and comes from the input by removing a whitespace-only prefix and a whitespace-only suffix and nothing else |
| Text.StripUnique | app.py:41 | every core that the input leaves after removing only whitespace at both ends, and that has no whitespace at either end itself, is the stripped name; the contract of `Strip` pins `str.strip()` down uniquely |
| Text.StripFixpoint | data_preprocessing.py:30 | stripping an already stripped name changes nothing, and a name is left unchanged exactly when neither of its ends is whitespace |
| Frames.StripColumnNames | app.py:41 | the rows are untouched; column `j` is the stripped input name `j`, so no column name starts or ends with whitespace |
| Frames.ReplaceInfinities | app.py:42 | a cell is NaN afterwards exactly when it was ±infinity or NaN before; every other cell, the row labels and the columns are unchanged |
| Frames.DropInvalidRows | app.py:42-43 | the replace-then-dropna pair keeps exactly the input rows with no ±infinity or NaN in any column, unchanged and in input order (the filter reference) |
| Frames.DropInvalidRowsSelects | app.py:42-43 | a row survives exactly when it is an input row with no invalid cell; the row count never grows, and it stays equal exactly when every row is valid; increasing row labels stay increasing |
| Seqs.FilterConcat | app.py:43 | row selection distributes over concatenation: the survivors of earlier rows stay ahead of those of later rows |
| Seqs.FilterKeepsAll | app.py:43 | selection returns the whole sequence (equivalently, loses no row) exactly when every element passes |
| Frames.FilterIncreasing | app.py:43 | selecting rows keeps strictly increasing row labels strictly increasing |
| Frames.ReindexColumns | app.py:45 | succeeds exactly when the source columns equal the target or are distinct, otherwise `DuplicateColumnLabels`; the result has exactly the target columns in order; a target column takes the same-named source column's value, or 0 when the source lacks it; row count and labels are kept |
| Frames.ReindexIdempotent | app.py:45 | reindexing an already reindexed frame onto the same distinct schema gives the same frame |
| Frames.ReindexOrderInvariant | app.py:45 | two frames holding the same values under the same distinct names, in any column order, reindex to the same frame |
| Upload.Align | app.py:40-45 | alignment fails exactly when the stripped names repeat and differ from the schema; otherwise the columns are exactly the schema, with one row per valid input row, in order and with that row's label |
| Upload.AlignCells | app.py:41-45 | an aligned cell is the value of the same valid row under the input column whose stripped name is that schema column, or 0 when no input column strips to it; a file already named like the schema is only cleaned |
| Upload.AlignKeepsValidRows | app.py:43-45 | the aligned batch has at most the input's rows, all of them exactly when every input row was valid, and increasing labels stay increasing |
| Upload.AlignedCellsValid | app.py:42-45 | no aligned cell is ±infinity or NaN |
| Upload.AlignedBatchScales | app.py:45-47 | an aligned batch never fails the scaler's name check; scaling it succeeds exactly when it is numeric, has a row and the schema is not empty |
| Models.Scale | app.py:47 | scaling succeeds exactly when the columns are the fitted names, every cell is a number, there is a row and there is a column; a name mismatch is `FeatureNamesMismatch`, and a well-named numeric frame with rows but no column is `NoFeatures`; each output row is the fitted transform of its own input row |
| Models.Predict | app.py:50 | one output per row, each the model applied to that row alone |
| Labels.Decode | app.py:51 | decoding succeeds exactly for a code within the classes and yields one of them; any other code is `UnseenLabelCode` with that code |
| Labels.DecodeAll | app.py:51 | decoding a prediction vector succeeds exactly when every code is in range, and then gives one label per code, each that code's decoding; a failure names an out-of-range code |
| Labels.CodecRoundTrip | app.py:51 | over distinct classes, decoding a code gives a name exactly when encoding that name gives the code |
| Labels.Encode | data_preprocessing.py:41 | a label has a code exactly when it is one of the classes, and the code is its position among them |
| Labels.FitClasses | data_preprocessing.py:40-41 | the fitted classes are strictly ascending in Python's string order and are exactly the labels seen |
| Labels.FitTransform | data_preprocessing.py:41 | every label is encoded to a code that decodes back to it through the fitted classes |
| Upload.Predictions | app.py:47-51 | prediction succeeds exactly when scaling succeeds and the classifier gives every row a code within the classes; then there is one category per aligned row, each the decoded classifier output for that row's scaled features; a scaling error is passed on unchanged, and otherwise the failure names an out-of-range code |
| Frames.Loc | app.py:53 | `.loc` succeeds exactly when every label is found, a failure naming a missing label; the result has the requested labels in the requested order, each row one of the frame's |
| Frames.LocOfOwnRows | app.py:53 | in a frame indexed 0, 1, 2, … looking up the labels of some of its rows gives back exactly those rows |
| Frames.SetColumn | app.py:54 | column assignment overwrites the column in place or appends it last; that column then holds the given values, and every other cell and every row label is unchanged |
| Upload.DisplayTable | app.py:53-54 | in the display table, row `i`'s predicted-category cell holds label `i`, one row per label |
| Upload.DisplayRows | app.py:53-54 | for a freshly read file, the display table is the valid input rows as read (unstripped names), in input order, extended by the predicted category; other cells keep their input values |
| Upload.AttackMask | app.py:60 | a row's attack flag is set exactly when its category is not `BENIGN` |
| Frames.SelectRows | app.py:60 | every selected row is an input row that passes, and every passing input row is selected |
| Seqs.FilterIsMask | app.py:60 | selecting with a row predicate is masking with the predicate's values, row by row |
| Upload.Summarise | app.py:60-70 | the attack table is exactly the display rows not predicted benign, in order; the all-clear is shown exactly when every prediction is benign, otherwise the number of attack rows out of the total; the tallies are the `value_counts` of the predictions, so one entry per distinct category with its number of rows, adding up to the number of display rows |
| Labels.ValueCounts | app.py:70 | one entry per distinct label, whose tally is its positive number of occurrences; the tallies add up to the number of labels |
| Upload.HandleUpload | app.py:33-75 | the page does nothing exactly when no file was uploaded or the assets did not load; a read error becomes the error message; results appear exactly when the whole computation succeeds, and otherwise its error is shown |
| Upload.Analyse | app.py:40-70 | the first failing stage's error is the result: an alignment error, then a prediction error; a shown report carries the predictions and the display table built from them, and its attack table, banner and tallies are their summary (`Upload.Summarise`) |
| Upload.AnalyseFreshFile | app.py:35-53 | on a freshly read file, indexed 0, 1, 2, …, the `.loc` lookup cannot fail, so the page shows results exactly when aligning and predicting succeed |
| Preprocessing.CleanForTraining | data_preprocessing.py:30-36 | after stripping, `Flow ID` and `Timestamp` are dropped only when both are present; the survivors are exactly the rows of the reduced table with no ±infinity or NaN, unchanged and in order, so only the cells left after the drop decide whether a row survives |
| Preprocessing.DropIdColumns | data_preprocessing.py:32-33 | both `Flow ID` and `Timestamp` are dropped when both are present, leaving the other columns in order with their cells, row labels and row count; otherwise the table is unchanged |
| Preprocessing.IdColumnGapsKeepRow | data_preprocessing.py:32-36 | a row whose only missing values sit under `Flow ID` or `Timestamp` survives cleaning when both columns are present |
| Frames.DropColumns | data_preprocessing.py:33 | dropping removes every column with one of the names and keeps the others in order; every remaining cell is the same row's cell under the same name; row labels are kept |
| Preprocessing.ColumnCells | data_preprocessing.py:41 | a column lookup fails with `KeyError` exactly when the column is missing; otherwise it gives each row's cell under that name |
| Preprocessing.LabelNames | data_preprocessing.py:41 | label cells convert to names exactly when every one is a string, in order |
| Preprocessing.EncodeLabelColumn | data_preprocessing.py:40-41 | encoding succeeds exactly when there is a `Label` column holding strings only, and fails with `KeyError` without it; the classes are sorted, and each row's code decodes back to its label |
| Preprocessing.FitFeatures | data_preprocessing.py:52-53 | fitting succeeds exactly on a numeric table with at least one row and at least one column; a numeric table with rows but no feature column is `NoFeatures`; the scaler remembers the table's column names, and scaling the table with it reproduces the features |
| Preprocessing.PreprocessData | data_preprocessing.py:25-57 | preparation succeeds exactly when the labels encode and the scaler fits on the feature table; without a `Label` column it fails with `KeyError`; a fitting error is passed on; the saved classes and codes are the encoder's and the schema is the feature table's columns |
| Preprocessing.PreprocessContract | data_preprocessing.py:25-57 | the schema is the cleaned column list without `Label`, in order, so never containing `Label`; the scaler was fitted on exactly the schema and reproduces the features; there is one code and one feature row per surviving row and at least one, and at least one feature column; the classes are sorted and every code decodes to its row's label |
| Features.Set | pages/2_Live_Analysis.py:44-49 | dict assignment keeps keys distinct, adds the key last if new, reads back the new value, and changes no other key |
| Features.FromKeys | pages/2_Live_Analysis.py:42 | the comprehension has one entry per distinct schema column, in order of first appearance, each holding the given value, and no other key |
| Packets.Ports | pages/2_Live_Analysis.py:44-45 | `packet.sport`/`dport` succeed exactly when some layer defines ports (TCP, UDP or another transport such as SCTP), reading the first such layer; otherwise `AttributeError` |
| Features.BaseRow | pages/2_Live_Analysis.py:42-49 | extraction succeeds exactly when the packet has no IP layer or has ports; otherwise it raises `AttributeError` on `sport` |
| Features.BaseRowContents | pages/2_Live_Analysis.py:42-49 | every schema column starts at 0 and only the port and protocol entries change; with IP the ports are the packet's; `Protocol` is 6 with TCP (TCP taking precedence), else 17 with UDP, else as the schema left it; no other key appears |
| Features.BaseRowCoversSchema | pages/2_Live_Analysis.py:42 | an extracted row has a value for every schema column |
| Features.FrameOfDicts | pages/2_Live_Analysis.py:66 | the table of a list of dicts has one column per key, in order of first appearance, one row per dict holding its value or NaN, and index 0, 1, 2, … |
| Features.SingleRowFrame | live_capture.py:47 | the one-row table has exactly the schema's columns in order; a key outside the schema is dropped and a missing schema key is NaN |
| LivePage.Press | pages/2_Live_Analysis.py:54-58 | Start turns sniffing on with an empty buffer, Stop turns it off, and nothing else ever changes the buffer |
| LivePage.Collect | pages/2_Live_Analysis.py:50 | rows are appended in order behind the old buffer until the first extraction that raises; the capture completes exactly when none raises |
| LivePage.Capture | pages/2_Live_Analysis.py:41-50 | each captured packet appends one row and the old buffer stays as a prefix; the capture completes, with one row per packet, exactly when every packet extracts |
| LivePage.CaptureRowAt | pages/2_Live_Analysis.py:50 | the `k`-th appended row is the extraction of the `k`-th captured packet |
| LivePage.CaptureStop | pages/2_Live_Analysis.py:63 | a capture that stops early reports `AttributeError` on `sport`, raised by the extraction of the packet it stopped at |
| LivePage.CaptureCovers | pages/2_Live_Analysis.py:42 | capturing keeps every buffered row covering the schema |
| LivePage.AlignBuffer | pages/2_Live_Analysis.py:66-67 | reindexing the buffer never fails; it has exactly the schema's columns and one row per buffered row, labelled 0, 1, 2, …; a schema column some row has holds each row's value, or NaN where the row lacks it, and a schema column no row has is 0 |
| LivePage.AlignBufferCells | pages/2_Live_Analysis.py:66-67 | reindexing the buffer succeeds with exactly the schema's columns, one row per buffered row, each cell that row's value under the column; extraction keys outside the schema are dropped and the batch is numeric |
| LivePage.Verdicts | pages/2_Live_Analysis.py:68-75 | row `i` gets the decoded classifier output for its own features and the flag "Yes" exactly when the detector returns -1 for it ("No" otherwise); scoring succeeds exactly when scaling does and every code is in range |
| Models.AnomalyFlag | pages/2_Live_Analysis.py:75 | the flag is "Yes" exactly for the detector output -1 and "No" for any other value |
| LivePage.AddVerdicts | pages/2_Live_Analysis.py:74-75 | the two verdict columns of the captured table hold the categories and flags row by row; they are appended behind the captured columns unless already present; every row keeps its label, and every other captured cell keeps its value |
| LivePage.ScoreBuffer | pages/2_Live_Analysis.py:65-75 | scoring succeeds exactly when the verdicts of the aligned buffer do, and carries those verdicts; otherwise it reports their error; the scored table is the table built from the buffer, with its labels and cells, extended by the two verdict columns |
| LivePage.ScoredRows | pages/2_Live_Analysis.py:66-75 | each scored row is labelled by its buffer position, and each captured column holds that buffered row's value or NaN; with no verdict key in the buffer, the two verdict columns come last |
| LivePage.ScoreBufferSucceeds | pages/2_Live_Analysis.py:66-72 | with a non-empty schema the scaler was fitted on and a classifier emitting known codes, a non-empty buffer of extracted rows always scores |
| LivePage.AlertMask | pages/2_Live_Analysis.py:77-80 | a row alerts exactly when its category is not `BENIGN` or its anomaly flag is "Yes" |
| LivePage.AlertFrame | pages/2_Live_Analysis.py:77-80 | the alert table keeps the scored table's columns and is exactly the scored rows that alert, in order |
| LivePage.HybridVerdict | pages/2_Live_Analysis.py:66-80 | the alert mask of a scored buffer has one entry per buffered row, and row `i` alerts exactly when the classifier's decoded category for that aligned row is not `BENIGN` or the detector returns -1 for it; the alert table is empty exactly when every row is benign by the classifier and normal by the detector |
| LivePage.NoAlertsIffQuiet | pages/2_Live_Analysis.py:77-84 | the alert table is empty, so nothing is logged, exactly when no row's mask entry is set |
| LivePage.AllAlerts | pages/2_Live_Analysis.py:77-80 | when every flag is "Yes", every scored row is an alert |
| AlertLog.CsvRows | pages/2_Live_Analysis.py:90 | `to_csv(index=False)` writes one data line per row, holding the row's cells, and no header |
| AlertLog.AppendCsv | pages/2_Live_Analysis.py:89-90 | an append creates the file and keeps its old lines as a prefix; it writes a header line exactly when the file did not exist, then one data line per row in order; a log of one header and data lines stays so |
| AlertLog.Stamp | pages/2_Live_Analysis.py:87 | every alert row gets the same capture time in `Timestamp`, added last unless already present; every other cell is unchanged |
| AlertLog.LogAlerts | pages/2_Live_Analysis.py:84-90 | nothing is written when there are no alerts; otherwise the log grows by one data line per alert behind its old lines, with a header exactly when the file did not exist |
| AlertLog.LoggedWidth | pages/2_Live_Analysis.py:87-90 | logging a non-empty alert table adds lines, the last a data line one cell wider than the alert table (the stamp); a fresh file gets the alert columns plus `Timestamp` as its header, and an existing file keeps its first line |
| AlertLog.WiderTableOutgrowsHeader | pages/2_Live_Analysis.py:84-90 | when a later alert table has more columns than the one that created the log, the log's header names fewer columns than its last data line has cells |
| AlertLog.LoggedRowsStamped | pages/2_Live_Analysis.py:87-90 | the last lines of the log after a logging step are the stamped alerts, in order |
| AlertLog.OwnLogHeaders | pages/2_Live_Analysis.py:89 | a log this program wrote has exactly one header line once it exists |
| AlertLog.LogAllSingleHeader | pages/2_Live_Analysis.py:84-90 | over any sequence of cycles, a log of our own stays one header followed by data lines; it exists exactly when some cycle had alerts; old lines are kept and there is one data line per alert logged |
| LivePage.ScoreAndLog | pages/2_Live_Analysis.py:65-90 | an empty buffer does nothing; a scoring error leaves the log as it was; otherwise the buffer's alerts are logged; the log only grows, by at most one data line per buffered row |
| LivePage.RunCycle | pages/2_Live_Analysis.py:61-90 | a rerun keeps sniffing on and the old buffer as a prefix, captures, and then scores and logs only when the capture completed; the log only grows, by at most one data line per buffered row |
| LivePage.CycleAsWritten | pages/2_Live_Analysis.py:63-66 | as written, the buffer carried over from earlier reruns stays in the buffer and a whole window is added to it |
| LivePage.AsWrittenRelogs | pages/2_Live_Analysis.py:65-90 | as written, with a detector that flags everything, a rerun logs one data line per row captured since Start, not just per packet of this rerun |
| Features.ColumnsGrow | pages/2_Live_Analysis.py:66 | a buffer that extends another and adds a row with a key no earlier row had builds a table with strictly more columns, the old columns first |
| LivePage.AlertsCoverBuffer | pages/2_Live_Analysis.py:66-80 | with a detector that flags everything and no buffer key clashing with the verdict or stamp columns, the alert table has every buffered row and the buffer's columns followed by the two verdict columns |
| LivePage.FlaggedBufferAlerts | pages/2_Live_Analysis.py:66-80 | a non-empty buffer of extracted rows scores, under those conditions, to an alert table with one row per buffered row and no `Timestamp` column |
| LivePage.RerunTablesGrow | pages/2_Live_Analysis.py:66-80 | when a later rerun's buffer extends the earlier one with a row carrying a new key, its alert table has strictly more columns than the earlier one |
| LivePage.LogOutgrowsHeader | pages/2_Live_Analysis.py:42-90 | as written, the log created by one rerun keeps that rerun's header; after a later rerun whose buffer gained a key no earlier row had (`Protocol` from a TCP or UDP packet after SCTP-only rows, or the port keys after non-IP rows, when the schema lacks them), with every row flagged, the last data line has more cells than the header names |
| LivePage.ScoreAndLogEveryRow | pages/2_Live_Analysis.py:75-90 | with a detector that flags everything, scoring and logging a buffer logs one data line per buffered row |
| LivePage.Cycle | pages/2_Live_Analysis.py:63-66 | corrected: the buffer holds only this rerun's packets, at most one window, and the log grows by at most one data line per packet |
| LivePage.CycleLogsEachPacketOnce | pages/2_Live_Analysis.py:65-90 | corrected, with a detector that flags everything: a rerun logs exactly one data line per packet it captured |
| Packets.PayloadLength | live_capture.py:37-44 | the payload length is defined exactly when the packet has a layer of that kind, and is the first such layer's |
| LiveCapture.ExtractAsWritten | live_capture.py:29-44 | as written, extraction yields a row only for a packet with neither TCP nor UDP; TCP raises `NameError` for `TCP`, and UDP without TCP raises it for `UDP` |
| LiveCapture.WithLengths | live_capture.py:37-39 | the three length features are set to the same value and nothing else changes |
| LiveCapture.WithPayload | live_capture.py:35-44 | the length features take the first TCP layer's payload length, else the first UDP layer's; a packet with neither keeps its row |
| LiveCapture.Extract | live_capture.py:29-44 | corrected extraction succeeds exactly when the shared extraction does; only the three length features differ from it, and they hold the TCP payload length, else the UDP one |
| LiveCapture.ExtractCoversSchema | live_capture.py:29 | a corrected extracted row has a value for every schema column |
| LiveCapture.Verdict | live_capture.py:47-59 | a scaler or decoder error escapes exactly when classification fails, carrying its error; a `BENIGN` category prints nothing; any other category is an alert with that category and the first IP layer's addresses when the packet has IPv4, and is skipped with `IndexError` when it has not |
| LiveCapture.Classify | live_capture.py:47-55 | classification succeeds exactly when the one-row table scales and the classifier's code for it is within the classes, and then gives that code's decoding; a scaling error is passed on, and otherwise the error is the unseen code |
| Packets.IPLayer | live_capture.py:59 | `packet['IP']` succeeds exactly when the packet has an IPv4 layer and gives the first one; otherwise `IndexError` |
| LiveCapture.Handle | live_capture.py:23-63 | a packet alerts exactly when its row extracts, it has IP and its category is not `BENIGN`, printing that category with the first IP layer's addresses; an extraction error skips the packet exactly when it is an `AttributeError`/`IndexError` and otherwise escapes, carrying that error; an extracted row gets its `Verdict` |
| LiveCapture.ProcessAsWritten | live_capture.py:35-44 | as written, every TCP packet ends the capture with `NameError` for `TCP`, and every UDP packet without TCP with `NameError` for `UDP` |
| LiveCapture.AsWrittenAlertsOnlyOffTcpUdp | live_capture.py:35-63 | as written, only a packet with neither TCP nor UDP can be reported, and on such a packet the tool behaves exactly as the corrected one |
| LiveCapture.TcpPacketCrashes | live_capture.py:37 | the IPv4/TCP packet 10.0.0.1:40000 → 10.0.0.2:80 ends the capture with `NameError` |
| LiveCapture.SctpPacketAlerts | live_capture.py:31-59 | as written, the IPv4 SCTP packet 10.0.0.1:5000 → 10.0.0.2:5001 gets its ports, reaches the classifier and, when called an attack, is reported with its addresses |
| LiveCapture.Process | live_capture.py:19-63 | corrected: a packet alerts exactly when its corrected row extracts, it has IP and its category is not `BENIGN`, with the first IP layer's addresses; a packet whose extraction raises `AttributeError` on `sport` is skipped; the capture ends exactly when an extracted row fails to classify, with the scaler's or decoder's error; nothing is printed exactly for an extracted row classified `BENIGN` |
| LiveCapture.IcmpPacketSkipped | live_capture.py:31-63 | the IPv4 ICMP packet 10.0.0.1 → 10.0.0.2 has no ports; its `AttributeError` is swallowed and the packet skipped, as written and corrected |
| LiveCapture.TransportHasPorts | live_capture.py:31-33 | a packet with TCP or UDP has ports, so its port lookup cannot raise |
| LiveCapture.RowScales | live_capture.py:47-51 | a row covering the schema scales when the scaler was fitted on that schema and it is not empty |
| LiveCapture.ClassifiedAsAttack | live_capture.py:51-55 | under a classifier that only names attacks, such a row gets an attack category |
| LiveCapture.ProcessAlertsOnAttack | live_capture.py:58-59 | corrected: an IPv4 TCP/UDP packet the classifier calls an attack is reported with its own addresses |
| LiveCapture.Sniff | live_capture.py:69 | packets are handled in arrival order; the run ends right after the first escaping exception, and it handles every packet exactly when none escapes |
| LiveCapture.Alerts | live_capture.py:58-59 | the alert lines of a run are its alert outcomes, in order and with repeats: the outcomes masked by their alert flags |
| LiveCapture.AsWrittenRun | live_capture.py:69 | as written, a run ends at its first TCP or UDP packet and every alert line comes from a packet with neither, so a run whose packets all carry TCP or UDP prints nothing |
| LiveCapture.RunAlertsEveryAttack | live_capture.py:69 | corrected: a run over IPv4 TCP/UDP packets the classifier calls attacks handles every packet and reports each one |

## Left out

- Rendering, widgets and reruns. Streamlit rendering, the upload widget, the buttons' rendering, `st.rerun()` and `time.sleep(1)` are UI plumbing. The effects of the buttons on the session are modelled (`LivePage.Press`). One rerun while sniffing is modelled as one call (`LivePage.RunCycle`).
- Packet capture itself. Scapy's `sniff` and its `count=15, timeout=5` window are external I/O. The captured packets are a parameter, bounded by `LivePage.PacketsPerCycle` where the page sets that bound.
- Exceptions raised from a `sniff` callback. The model assumes that Scapy lets such an exception end `sniff` and propagate to the caller.
- File and pickle I/O. Reading the CSV (`pd.read_csv`) and loading or saving the `.pkl` assets are I/O. The read result and the loaded assets are parameters. The alert log is a value: whether the file exists, and its lines.
- The capture time. `datetime.now()` is a clock; the formatted time is a parameter.
- Floating point and scikit-learn numerics. Cells hold integers, and the numerics of the scaler, classifier and detector are opaque row functions. So the standard-scaling identity (a row at the fitted means scales to zeros) is not stated.
- Model fitting. Classifier and detector training, the train/test split and the metrics are library code and randomness.
- `Models.Scale`: scikit-learn's `transform` lets NaN through, and the classifier's `predict` is what rejects it. The model rejects a NaN cell already in scaling, as `NonNumericFeature`. Neither page can pass NaN to the scaler: the upload page drops such rows, and the dashboard's aligned buffer holds only numbers once every buffered row covers the schema.
- `Labels.ValueCounts`: pandas orders the tallies by count, most frequent first. The model orders them by first appearance. The entries and their counts are the same.
- `LiveCapture.Verdict`: the printed alert shows the category in upper case (`.upper()`). The model carries the decoded category as is.
- `Upload.HandleUpload`: reading the file is a parameter that is either a table or a read error (`UnreadableCsv`). pandas' parsing rules are not modelled.
- `Preprocessing.EncodeLabelColumn`: `LabelEncoder` also accepts non-string labels. A `Label` cell that is not a string is modelled as an error (`NonStringLabel`).
- `load_data` and the dataset directory walk in `data_preprocessing.py`. These are file I/O; training preparation starts from the combined table.
- The guard of the dashboard's sniffing block. It requires all three assets to be loaded. A cycle is modelled only with loaded assets.
- `Frames.Loc`: pandas `.loc` returns every row carrying a requested label, so a repeated label yields several rows. The model returns the first such row only, which is the same on a unique index. The upload page looks labels up in the frame `read_csv` produced, whose index is 0, 1, 2, …
- `Packets.PayloadLength`: only TCP and UDP layers carry a payload length. The console tool reads no other layer's payload.
- A schema without columns on the dashboard and in the console tool. The lemmas that show a buffer or a row scores require a non-empty schema, which training preparation guarantees (`Preprocessing.PreprocessContract`); with an empty one scaling fails with `NoFeatures`.
- pandas' behaviour when a column name repeats after stripping. Lookups take the first column of that name, and reindexing such a frame is the `DuplicateColumnLabels` error.

## Findings

| source | as written | input that shows it | evidently intended | confidence | as-written member | corrected member |
|---|---|---|---|---|---|---|
| live_capture.py:37-44 | `packet[TCP]` and `packet[UDP]` use names the script never imports: only `sniff` is imported from Scapy. Every TCP or UDP packet raises `NameError`, which the `except (AttributeError, IndexError)` does not catch, so it ends `sniff`. No TCP or UDP packet is ever classified or reported. Other packets are classified, and only IPv4 packets with another port-carrying layer, such as SCTP, can be reported | an IPv4 packet 10.0.0.1:40000 → 10.0.0.2:80 over TCP | the three length features hold the TCP payload length, else the UDP one, and such packets are classified and reported | not executed; high | LiveCapture.ProcessAsWritten, LiveCapture.TcpPacketCrashes, LiveCapture.AsWrittenAlertsOnlyOffTcpUdp, LiveCapture.AsWrittenRun | LiveCapture.Process, LiveCapture.ProcessAlertsOnAttack, LiveCapture.RunAlertsEveryAttack |
| pages/2_Live_Analysis.py:63-90 | the buffer is emptied only by Start, so every rerun rescores the whole buffer captured since Start and appends its alerts to the log again | a rerun after one that captured a packet, itself capturing one packet, with a detector that flags every row: two data lines are logged, one a repeat | each rerun scores and logs only the packets it captured itself | not executed; medium | LivePage.CycleAsWritten, LivePage.AsWrittenRelogs | LivePage.Cycle, LivePage.CycleLogsEachPacketOnce |
