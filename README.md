# Biscayne Bay water-quality service: a verified model

The project models the logic in the water-quality service. A Flask API
reads the sensor readings (temperature, pH, dissolved oxygen) from a CSV
file, cleans them of Z-score outliers, and serves the rows or uploads the
cleaned ones to a document store. A Streamlit dashboard shows readings and
cleans its own tables the same way. `query` is a store-side function that
no route calls. The modelled parts are:

- **The document-store layer** (`api/mongoDB.py`).
  - `helper` turns a range parameter such as `min_temp` into a one-field comparison.
  - `query` pops `skip` and `limit` from the parameter mapping, then builds an empty, a single or an `$and` filter. Every value except a time bound is converted with `float`.
  - `upload_MONGO` issues one replace-with-upsert per document, keyed on `Time`.
  - The store is modelled as a map from `Time` value to document. A batch of upserts is applied to it in order, with counts of documents upserted and modified.
- **The Flask routes** (`api/flaskWebApp.py`).
  - `/clean` returns the first ten rows.
  - `/cleandataset/load` removes the rows with a Z-score outlier in Temperature, pH or ODO, and upserts and returns the rest.
  - `/outliers` returns the flagged rows and their number.
- **The dashboard helpers** (`client/streamlit_app.py`).
  - `find_existing_col` resolves a column by alias priority.
  - `numeric_series` coerces a column, and `global_min_max` gives a column's range across tables.
  - `clean` flags outliers over every numeric column, drops those rows, and moves `Time` to the front with `pop` and `insert`.

Modules:

| file | module | contents |
|---|---|---|
| wrappers.dfy | Wrappers | `Option`, `Result` |
| frames.dfy | Frames | cells, rows and tables; boolean row selection (`df[mask]`, `df[~mask]`) and its inverse `Interleave`; row counts; `head` |
| numbers.dfy | Numbers | decimal text to real, standing in for `float()` and `to_numeric` |
| zscore.dfy | ZScore | mean, population variance and the Z-score outlier mask, shared by both cleaning paths |
| mongo.dfy | MongoDB | `helper`, `query` (a `Params` class popped in place), `upload_MONGO` and the store |
| flask.dfy | FlaskWebApp | the three routes |
| dashboard.dfy | StreamlitApp | alias resolution, numeric coercion, global range, `clean` over a `DataFrame` class |

**The Z-score rule without square roots.**
- A value is an outlier when (x − mean)² > 9 · variance, using the population variance (ddof = 0).
- `ExceedsIsZScore` proves that this is |x − mean| / σ > 3 whenever σ > 0 and σ² is the variance.
- When the variance is 0, pandas computes 0/0 = NaN, and NaN > 3 is false. The squared form does not flag such values either.
- Missing cells are left out of the mean and the variance, and are never flagged (pandas' `skipna`).

**Behaviour worth knowing.**
- `query` has no allow-list of parameter names, and no default or ceiling for `limit` or `skip`.
  - Missing `skip` or `limit` is a `KeyError`.
  - An unknown prefix gives the empty selector, and an unknown suffix gives the empty field name.
  - `count_documents` receives the same `skip` and `limit` as `find`. The count is therefore the size of the page, not of the filtered population.
- There is no IQR method. `/outliers` takes no `field`, `method` or `k` parameters.
- Only the dashboard's `clean` moves `Time` to the front. The Flask load route does not.
- Ten rows with ODO values 1, …, 9, 1000 flag nothing under the code's rule, not even 1000:
  - With n values, no value can lie more than √(n − 1) population standard deviations from the mean (Samuelson's inequality, lemma `Samuelson`).
  - So, in exact arithmetic, a table of at most ten rows never has a Z-score outlier. This is proved as `SmallTableHasNoOutliers`, and for the example itself as `TenValuesWithOneFarOff`.
  - At ten rows the bound √9 = 3 can be met exactly (nine equal values and one other), and then floating-point rounding decides the `> 3` test: the program may flag that extreme value. At most nine rows keep a margin below 3. The example's exact |z| is about 2.9999, so it flags nothing in floating point too.

## Model

| member | source | states |
|---|---|---|
| MongoDB.Helper | api/mongoDB.py:39-56 | the result is the single comparison `{field_name: {selector: value}}` and carries the value unchanged |
| MongoDB.HelperOnRangeParameters | api/mongoDB.py:42-54 | `min_`/`max_` with suffix time, temp, sal or odo become `$gte`/`$lte` on "Time hh:mm:ss", "Temperature (c)", "pH" or "ODO mg/L" |
| MongoDB.HelperOnMin | api/mongoDB.py:42-43 | a name starting with `min_` gets `$gte` and the field of the text after the first four characters |
| MongoDB.HelperOnMax | api/mongoDB.py:42-44 | a name starting with `max_` whose suffix has no "n" (so it does not contain "min") gets `$lte` |
| MongoDB.HelperFallbacks | api/mongoDB.py:40-56 | "min" wins over "max"; a name with neither gets the empty selector; an unknown suffix gets the empty field name; nothing fails |
| MongoDB.AbsentLetter | api/mongoDB.py:43 | a name lacking a letter of "min" does not contain "min" (Python's `in` on strings) |
| MongoDB.Lookup | api/mongoDB.py:62-63 | the value is found exactly when some entry has the key, and it is that entry's value |
| MongoDB.Remove | api/mongoDB.py:62-63 | `pop` leaves exactly the other entries; without the key nothing changes |
| MongoDB.RemoveAt | api/mongoDB.py:62-63 | with distinct keys, popping the key held at position k leaves the entries before and after it, in order |
| MongoDB.RemoveKeepsDistinct | api/mongoDB.py:62-63 | after a `pop` the remaining keys are still distinct |
| MongoDB.Params.Pop | api/mongoDB.py:62-63 | the returned value is the key's value, or a missing-key error; the mapping loses only that key |
| MongoDB.Params.PopItem | api/mongoDB.py:68 | removes and returns the last inserted entry |
| MongoDB.Convert | api/mongoDB.py:69-70 | a key containing "time" passes its value through; any other key is parsed as a float, failing exactly when the text is not one |
| MongoDB.ComparisonFor | api/mongoDB.py:73-78 | a parameter contributes a comparison exactly when its value converts, and that comparison is `helper` of its key and converted value; otherwise its conversion error |
| MongoDB.CollectOk | api/mongoDB.py:73-78 | a loop that appends one result per element and returns on the first error succeeds exactly when every element succeeds |
| MongoDB.CollectValues | api/mongoDB.py:73-78 | a successful such loop returns one result per element, in order |
| MongoDB.CollectFirstError | api/mongoDB.py:75-78 | a failing such loop returns the error of the first failing element |
| MongoDB.CollectErrorPersists | api/mongoDB.py:75-78 | once a prefix fails, the loop's result is that error whatever follows |
| MongoDB.ComparisonsOk | api/mongoDB.py:73-78 | the `$and` list exists exactly when every remaining value converts |
| MongoDB.ComparisonsValues | api/mongoDB.py:73-78 | the `$and` list has one comparison per remaining parameter, in iteration order |
| MongoDB.ComparisonsExact | api/mongoDB.py:73-78 | the `$and` list has one comparison per remaining parameter, in iteration order, and exists exactly when every value converts |
| MongoDB.ComparisonsFirstError | api/mongoDB.py:75-78 | a failing loop reports the first parameter whose value does not convert |
| MongoDB.FilterFor | api/mongoDB.py:65-78 | a built filter is `{}` exactly for no remaining parameter and a bare comparison exactly for one; the rest is in `FilterShape` |
| MongoDB.FilterShape | api/mongoDB.py:65-78 | no remaining parameter gives `{}`, one gives the bare comparison, two or more give `$and` over all of them in order; failure exactly when some value does not convert |
| MongoDB.AndClauses | api/mongoDB.py:73-78 | the loop that appends one comparison per parameter returns the comparison list, or the first conversion error |
| MongoDB.BuildFilter | api/mongoDB.py:65-78 | builds the filter of the parameters left; a single parameter is popped, otherwise the mapping is unchanged |
| MongoDB.Query | api/mongoDB.py:58-83 | missing `skip` or missing `limit` fails with that key; otherwise both are removed before the filter is built, and the filter, skip and limit go unchanged to both store calls |
| MongoDB.SkipLimitNeverFiltered | api/mongoDB.py:62-78 | the filter is built from exactly the entries other than `skip` and `limit` |
| MongoDB.LookupRemoveOther | api/mongoDB.py:62-63 | popping `skip` does not change the lookup of `limit` |
| MongoDB.Operations | api/mongoDB.py:30-33 | one operation per document; a failure names a document without `Time`; the rest is in `OperationsExact` |
| MongoDB.OperationsExact | api/mongoDB.py:30-33 | one replace-upsert per document, in order, filtered on that document's own `Time`; a document without `Time` fails the batch at the first such index |
| MongoDB.BulkWrite | api/mongoDB.py:35 | each operation counts as at most one of upserted and modified; the resulting store is in `BulkWriteIsOverride` |
| MongoDB.UploadMongo | api/mongoDB.py:23-36 | an upload counts at most one upsert or modification per document, and fails only on a document without `Time`; its effect on the store is in `UploadFrame` and `UploadLastWins` |
| MongoDB.BulkWriteIsOverride | api/mongoDB.py:27-35 | applying the batch in order stores, for each batch time, the last document with that time, and keeps every other key |
| MongoDB.LastWinsAt | api/mongoDB.py:27-29 | for each batch time, the document kept is that of the last operation with that time |
| MongoDB.TimesOfOperations | api/mongoDB.py:30-33 | the operations' times are exactly the batch documents' `Time` values |
| MongoDB.UploadFrame | api/mongoDB.py:23-35 | the upload adds exactly the batch times to the store's keys and leaves documents under other keys unchanged |
| MongoDB.UploadLastWins | api/mongoDB.py:27-35 | after the upload each batch time holds the last batch document with that time |
| MongoDB.UploadIdempotent | api/mongoDB.py:27-35 | uploading the same batch twice leaves the store as uploading it once |
| MongoDB.UpsertedCount | api/mongoDB.py:35-36 | the upserted count is the number of batch times the store did not hold |
| MongoDB.ReuploadInsertsNothing | api/mongoDB.py:35-36 | a second upload of the same batch upserts nothing |
| MongoDB.BulkWriteOfStored | api/mongoDB.py:35-36 | operations whose documents are already stored change nothing and count as neither upserted nor modified |
| MongoDB.ReuploadChangesNothing | api/mongoDB.py:35-36 | with distinct times in the batch, a second upload reports nothing upserted and nothing modified |
| MongoDB.UploadKeepsKeyed | api/mongoDB.py:30-35 | every stored document stays under its own `Time`, so no time is stored twice |
| MongoDB.BulkWriteKeepsKeyed | api/mongoDB.py:30-35 | operations filtered on their document's own time keep the store keyed by `Time` |
| ZScore.ColumnValuesMembers | api/flaskWebApp.py:38 | the values entering mean and std are exactly the column's numeric cells |
| ZScore.ColumnValuesAt | api/flaskWebApp.py:38 | the values entering mean and std are the column's numeric cells, each once, in row order, as pandas counts them |
| ZScore.Mean | api/flaskWebApp.py:38 | `.mean()` over the column's values: n times the mean is their sum; the deviations from it cancel (`DeviationFromMean`) |
| ZScore.Variance | api/flaskWebApp.py:38 | the square of `.std(ddof=0)`: n times the variance is the sum of squared deviations from the mean; it is never negative (`VarianceNonNegative`) |
| ZScore.Exceeds | api/flaskWebApp.py:38-41 | the `abs() > 3` test of one value, true only over a non-empty column; its meaning as a z-score is `ExceedsIsZScore` |
| ZScore.DeviationFromMean | api/flaskWebApp.py:38 | deviations from the mean sum to zero |
| ZScore.VarianceNonNegative | api/flaskWebApp.py:38 | the population variance is never negative |
| ZScore.Samuelson | api/flaskWebApp.py:38-41 | no value's squared deviation exceeds (n − 1) times the population variance |
| ZScore.SamuelsonAround | api/flaskWebApp.py:38-41 | around any centre the deviations cancel at, n times a squared deviation is at most (n − 1) times the sum of squared deviations |
| ZScore.OthersBound | api/flaskWebApp.py:38-41 | the other values' squared deviation sum, times n − 1, bounds the squared deviation of the one left out |
| ZScore.CauchySchwarz | api/flaskWebApp.py:38 | the squared sum of deviations is at most the count times the sum of squared deviations |
| ZScore.ExceedsIsZScore | api/flaskWebApp.py:38-41 | the squared test is abs(x − mean) / σ > 3 for σ > 0 with σ² the variance |
| ZScore.ZeroVarianceFlagsNothing | api/flaskWebApp.py:38-41 | with zero variance no value is flagged (0/0 is NaN, and NaN > 3 is false) |
| ZScore.ConstantColumnFlagsNothing | api/flaskWebApp.py:38-41 | a column whose values are all equal flags no row |
| ZScore.SmallColumnFlagsNothing | api/flaskWebApp.py:38-41 | a column with at most ten values flags no row |
| ZScore.DegenerateColumnFlagsNothing | api/flaskWebApp.py:38-41 | an empty column or one with zero variance flags no row |
| ZScore.MaskDependsOnlyOnColumns | api/flaskWebApp.py:38-41 | the mask depends only on the numeric cells of the tested columns |
| ZScore.OutlierMask | api/flaskWebApp.py:38-41 | one flag per row; what a flag means is in `MaskMeaning` |
| ZScore.CellFlaggedIsZScore | api/flaskWebApp.py:38-41 | with σ the column's population standard deviation, a cell is flagged exactly when it is a number, σ > 0 and abs(x − mean) / σ > 3 |
| ZScore.MaskMeaning | api/flaskWebApp.py:38-41 | with σ(c) each column's population standard deviation, a row is flagged exactly when some tested column holds a number with σ(c) > 0 and abs(x − mean) / σ(c) > 3 (σ = 0 gives NaN, which flags nothing) |
| Frames.CountSplit | api/flaskWebApp.py:43-45 | flagged plus unflagged rows is the row count |
| Frames.CountRows | api/flaskWebApp.py:43-45 | `removedrows + remainingrows == totalrows`, with removed the number of flagged rows |
| Frames.PositionsInRange | api/flaskWebApp.py:48 | every selected position is an index of the mask holding the selected value |
| Frames.PositionsExact | api/flaskWebApp.py:48 | the selected positions are exactly those whose mask entry matches, each once, in increasing order |
| Frames.Select | api/flaskWebApp.py:48 | `df[mask]` and `df[~mask]`: as many rows as the mask has matching entries; which rows is `SelectAt`, and the two halves partition the table by `SelectMultiset` and `InterleaveSelect` |
| Frames.SelectAt | api/flaskWebApp.py:48 | the j-th selected row is the row at the j-th matching position |
| Frames.InterleaveSelect | api/flaskWebApp.py:48 | merging the kept and the dropped rows back by the mask gives the table |
| Frames.SelectMultiset | api/flaskWebApp.py:48 | as multisets, the kept and the dropped rows add up to the table |
| Frames.SelectNothingFlagged | api/flaskWebApp.py:48 | a mask with no flag keeps every row and drops none |
| Frames.Head | api/flaskWebApp.py:25 | `head(k)` is the first min(k, n) rows, in order |
| FlaskWebApp.OutlierColumns | api/flaskWebApp.py:35 | the three tested columns, Temperature (C), pH and ODO (mg/L), in the source's order; the same list at api/flaskWebApp.py:63 |
| FlaskWebApp.FirstUnusable | api/flaskWebApp.py:35-38 | an absent column is reported whenever one exists, as `df[outlier_columns]` fails first; only with all three present is a column holding text reported; none exactly when all three are numeric columns of the table |
| FlaskWebApp.MissingBeforeText | api/flaskWebApp.py:35-38 | with Temperature holding text and pH absent, the error is the missing pH |
| FlaskWebApp.Outliers | api/flaskWebApp.py:35-41 | the mask has one entry per row |
| FlaskWebApp.CleanRoute | api/flaskWebApp.py:25 | `/clean` returns the first min(10, n) rows, in order |
| FlaskWebApp.OutliersMeaning | api/flaskWebApp.py:35-41 | with σ(c) each column's population standard deviation, a row is flagged exactly when Temperature (C), pH or ODO (mg/L) holds a number with σ(c) > 0 and abs(x − mean) / σ(c) > 3 |
| FlaskWebApp.RoutesFailOnUnusableColumns | api/flaskWebApp.py:35-66 | `/outliers` fails exactly when one of the three columns is absent or not numeric; the load route fails with that column error exactly then, and otherwise can fail only in the upload, at a kept row without `Time` |
| FlaskWebApp.OnlyOutlierColumnsMatter | api/flaskWebApp.py:35-69 | only the three outlier columns influence which rows are flagged |
| FlaskWebApp.CleaningDataset | api/flaskWebApp.py:28-54 | the counts cover the whole table and the records returned are the remaining rows; which rows they are is in `LoadReturnsUnflagged` |
| FlaskWebApp.PullOutliers | api/flaskWebApp.py:57-80 | `total_outliers` is the number of rows returned, at most the table's; which rows is in `OutliersReturnsFlagged` |
| FlaskWebApp.LoadReturnsUnflagged | api/flaskWebApp.py:48-54 | the load route returns exactly the unflagged rows, in input order |
| FlaskWebApp.OutliersReturnsFlagged | api/flaskWebApp.py:72-79 | `/outliers` returns exactly the flagged rows, in input order, and `total_outliers` is their number |
| FlaskWebApp.RoutesPartition | api/flaskWebApp.py:41-72 | the two routes' rows merge back by the mask into the table, add up to it as multisets, and agree with the counts |
| FlaskWebApp.LoadUpsertsCleaned | api/flaskWebApp.py:48-51 | the load route's upload adds the kept rows' times to the store and leaves other keys unchanged |
| FlaskWebApp.SmallTableHasNoOutliers | api/flaskWebApp.py:38-48 | a table of at most ten rows has no outliers, and the load route returns it whole |
| FlaskWebApp.DegenerateColumnsFlagNothing | api/flaskWebApp.py:38-41 | when all three columns are constant or empty, nothing is an outlier |
| FlaskWebApp.TenValuesWithOneFarOff | api/flaskWebApp.py:38-41 | among 1, …, 9, 1000 the value 1000 is not flagged |
| FlaskWebApp.FirstUnusableAgree | api/flaskWebApp.py:35-38 | tables that agree on which outlier columns exist and are numeric fail in the same way |
| Numbers.ParseFloat | api/mongoDB.py:70 | neither the empty text nor a lone sign is a float; the rest is in `ParseFloatNeedsDigit` and `ParseFloatOfDigits` |
| Numbers.ParseFloatNeedsDigit | api/mongoDB.py:70 | a successful parse comes from text with at least one digit, and one without a leading minus is non-negative |
| Numbers.ParseUnsignedMeaning | api/mongoDB.py:70 | a successful unsigned parse is non-negative and comes from text with a digit |
| Numbers.Digits | api/mongoDB.py:70 | the decimal writing of n is a non-empty string of digits |
| Numbers.DigitsRoundTrip | api/mongoDB.py:70 | reading back the decimal digits of n gives n |
| Numbers.ParseFloatOfDigits | api/mongoDB.py:70 | `float(str(n))` is n, and `float("-" + str(n))` is −n |
| Numbers.ParseFloatOfDecimal | api/mongoDB.py:70 | `float` of digits, a point and digits is the whole part plus the fraction digits over 10 to their count, negated under a leading minus; either part may be empty, not both |
| Numbers.ParseFloatFractionExamples | api/mongoDB.py:70 | `float("20.5")` is 20.5 and `float("-.25")` is −0.25 |
| Numbers.NoDigitNoNumber | client/streamlit_app.py:122 | text without digits does not convert, so coercion gives NaN |
| StreamlitApp.FindExistingCol | client/streamlit_app.py:110-116 | `None` exactly when no alias is a column of any table; otherwise the first alias, in alias order, that some table has |
| StreamlitApp.FindExistingColIgnoresTableOrder | client/streamlit_app.py:112-115 | alias priority dominates: the order of the tables does not change the result |
| StreamlitApp.PreferredAliasWins | client/streamlit_app.py:170-176 | "Temperature (C)", "ODO (mg/L)" and "pH" win whenever any table has them; "PH" is used only when no table has "pH" |
| StreamlitApp.ToNumeric | client/streamlit_app.py:122 | a number stays, a missing value is NaN, text is parsed and becomes NaN when it is not a number |
| StreamlitApp.NumericSeries | client/streamlit_app.py:118-122 | empty when the column is absent; otherwise the coerced cell of every row, in order |
| StreamlitApp.Dropna | client/streamlit_app.py:129 | keeps exactly the present values |
| StreamlitApp.CollectedMembers | client/streamlit_app.py:126-131 | the collected values are exactly the values some table has in the column; tables without it contribute none |
| StreamlitApp.MinOf | client/streamlit_app.py:134 | the minimum is one of the values and below all of them |
| StreamlitApp.MaxOf | client/streamlit_app.py:134 | the maximum is one of the values and above all of them |
| StreamlitApp.GlobalMinMax | client/streamlit_app.py:124-134 | `(None, None)` exactly when no table observes a value; otherwise both bounds are observed values and every observed value lies between them |
| StreamlitApp.NumericColumns | client/streamlit_app.py:141 | the columns kept are exactly those holding no text |
| StreamlitApp.CleanMask | client/streamlit_app.py:141-147 | one flag per row; what a flag means is in `CleanMaskMeaning` |
| StreamlitApp.CleanMaskMeaning | client/streamlit_app.py:141-147 | with σ(c) each numeric column's population standard deviation, a row is removed exactly when some numeric column holds a number with σ(c) > 0 and abs(x − mean) / σ(c) > 3 |
| StreamlitApp.CleanedRows | client/streamlit_app.py:154 | as many rows as the table has unflagged; which rows is in `CleanedRowsExact` |
| StreamlitApp.CleanedRowsExact | client/streamlit_app.py:154 | the cleaned table keeps exactly the unflagged rows, in their original order |
| StreamlitApp.RemoveAll | client/streamlit_app.py:157 | removing a column keeps exactly the other names |
| StreamlitApp.RemoveAllMultiset | client/streamlit_app.py:157 | removing a column keeps the count of every other name |
| StreamlitApp.TimeFirstOrder | client/streamlit_app.py:157-158 | after the move, `Time` is first and the other columns follow in their original order; the names stay distinct and the same |
| StreamlitApp.RemoveDistinctAt | client/streamlit_app.py:157 | with distinct names, removing the one at position k leaves the names before and after it, in order |
| StreamlitApp.MoveTimeFirst | client/streamlit_app.py:157-158 | the pop and insert of `Time` happen exactly when the table has `Time`; then `Time` is first, the other columns follow in order, and the rows are unchanged |
| StreamlitApp.DataFrame.Pop | client/streamlit_app.py:157 | `pop` returns the column's cells and removes the column from the names and from every row; a missing column is a `KeyError` that changes nothing |
| StreamlitApp.DataFrame.Insert | client/streamlit_app.py:158 | `insert` succeeds exactly for a position within the columns, a new name and a value per row; it then places the name at the position and the value in every row |
| StreamlitApp.PopThenInsertRestoresRows | client/streamlit_app.py:157-158 | putting back a popped column restores every row |
| StreamlitApp.Clean | client/streamlit_app.py:136-167 | fails exactly when the table has no `Time`; otherwise returns a fresh table of the unflagged rows with `Time` first, the row counts (total the table's, remaining the cleaned table's) and the report as printed, whose "Removed" figure is `totalrows - removedrows` |
| StreamlitApp.Report | client/streamlit_app.py:162 | the three figures the f-string prints: removed, total and remaining; filled as printed by `ReportAsWritten` and as intended by `CleanReport` |
| StreamlitApp.ReportAsWritten | client/streamlit_app.py:162 | the printed "Removed" figure is `totalrows - removedrows` |
| StreamlitApp.ReportAsWrittenShowsRemaining | client/streamlit_app.py:149-162 | that figure is the remaining count, and equals the removed count only when exactly half the rows are removed |
| StreamlitApp.ReportAsWrittenCounterexample | client/streamlit_app.py:162 | ten rows with one outlier are reported as nine removed |
| StreamlitApp.CleanReport | client/streamlit_app.py:149-162 | the corrected report states removed, total and remaining as counted |
| StreamlitApp.CleanReportMatchesTable | client/streamlit_app.py:149-154 | the corrected figures are the number of rows dropped, the number kept and the number in the table |

## Left out

- CSV reading and writing, the HTTP calls, Flask routing and `jsonify`, the Streamlit widgets and charts, and `print`. These are I/O or UI. Tables enter the model as values.
- The store connection setup and `time.sleep(1)`. These are I/O and timing.
- The driver's `bulk_write`, `count_documents` and `find` beyond their effect on a map keyed by `Time`. Pymongo's refusal of an empty batch is not modelled.
- The cursor contents of `query`. `Request` records only what both store calls receive.
- The import of `upload` at api/flaskWebApp.py:2 names no function. The load route is modelled as calling `upload_MONGO`.
- How `jsonify` serialises NaN cells is not modelled. A load whose kept rows lack `Time` fails, as `doc["Time"]` would.
- Floating point: the model uses exact reals, with no rounding, no infinities and no NaN arithmetic. NaN appears only as a missing cell, or as the false comparison that zero variance produces.
- Numbers.ParseFloat: accepts plain decimal notation only, with an optional sign, digits and an optional fraction part. Exponents, `inf`, `nan`, surrounding whitespace and underscores, which Python's `float` also accepts, are rejected. The time bounds of `query` remain text, as the code passes them through.
- Pandas dtype inference is reduced to one rule: a column is numeric exactly when none of its cells is text. Boolean and date columns are not distinguished.
- `clean`'s CSV file path, the report's string formatting and the posting of the cleaned rows to the API are not modelled. The report is kept as its three figures as printed, `totalrows - removedrows` included.
- `check_exceptions`, the dataset dictionaries, the cleaning loop over the four CSV files at client/streamlit_app.py:199-206, and the root `streamlit_app.py`. These are file I/O and UI glue.
- MongoDB.HelperOnMax: stated for suffixes without the letter "n". A `max_` name whose suffix contains "min" gets `$gte`, and `HelperFallbacks` covers that case.

## Findings

| source | as written | input that shows it | evidently intended | confidence | as-written member | corrected member |
|---|---|---|---|---|---|---|
| client/streamlit_app.py:162 | the report's "Removed" figure is `totalrows - removedrows`, the number of rows kept | 10 rows of which 1 is an outlier: reported as "Removed 9 outliers" | print `removedrows`, so that removed + remaining = total | high; derived by proof, not executed | StreamlitApp.ReportAsWritten (counterexample StreamlitApp.ReportAsWrittenCounterexample) | StreamlitApp.CleanReport (property StreamlitApp.CleanReportMatchesTable) |
