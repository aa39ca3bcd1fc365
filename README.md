# insight254 analysis scripts, modelled in Dafny

insight254 collects incident reports: a location, a time and an analysis that
assigns a category and a severity. Three batch scripts derive tables from
those reports:

- `temporal_analysis.py` buckets the reports of the last 90 days by day of
  week, hour of day and category. Each bucket gets a report count, a mean
  severity and a fixed-threshold risk level. The buckets replace the
  `temporal_patterns` table.
- `hotspot_detection.py` clusters the located reports of the last 30 days
  with DBSCAN and drops the noise. Each cluster gets its centre, count,
  mean and maximum severity, most common category and a constant radius.
  The clusters replace the `hotspot_analysis` table.
- `crime_correlation.py` looks at the located reports of the last 60 days.
  It runs DBSCAN once per category that has at least five reports. Each
  cluster of at least three reports becomes a correlation with a
  `cluster_id`, a time span in whole days, the most common day and hour, an
  "organized" flag and a confidence score. The correlations replace the
  `crime_correlations` table.

The model covers what happens between the SQL read and the database write:
grouping, counting, means, maxima, modes, thresholds and the score formula.
The write is an abstract table. Every early return leaves the table as it
was; otherwise it is truncated and refilled with exactly the computed rows.

Modules:

- `Order` defines strict total orders and Python's string order (code
  points, a prefix first).
- `Seqs` holds the pandas building blocks: `Series.unique`, the sorted
  keys of a `groupby`, the rows of one group, `Series.mode()[0]`.
- `Stats` holds sums, means, minima and maxima.
- `Decimal` renders an integer in decimal and parses it back.
- `Reports` holds the input row, the DBSCAN label attached to it, and the
  column projections.
- `Tables` holds the output table.
- `Temporal`, `Hotspots` and `Correlation` are the three scripts.

Modelling choices:

- Each script's inputs are parameters: the rows its query returns, in query
  order, and one clock value standing for `datetime.now()`. The temporal
  and hotspot scripts read the clock once per run. The correlation script
  reads it once per row; the model gives every row the same value.
- DBSCAN's output is a parameter too: one label per report. For the
  correlation script, `labels[i]` is the label report `i` received when its
  own category was clustered. Clusters are always looked up inside one
  category, so one aligned sequence captures every per-category run.
- Timestamps are integer microseconds, the resolution of a PostgreSQL
  timestamp. This makes `Timedelta.days` an exact floor division.
- Means and the confidence score are exact reals.
- `groupby` sorts its keys. Ties in `mode()` go to the smallest value, in
  Python's order.

Facts about the code that the model keeps as written:

- Risk levels use fixed thresholds on the bucket's own mean and count.
- `radius_km` is the constant 1.0 for every hotspot.
- `hotspot_id` is the DBSCAN label itself.
- A tie for the most common value goes to the smallest value, because
  `mode()` returns its values sorted.
- `is_likely_organized` asks only for at least four incidents, a span of at
  most 45 days and a mean severity of at least 2.5.
- The table is not replaced atomically: `TRUNCATE` commits before the
  append starts.

## Model

| member | source | states |
|---|---|---|
| Order.StrLtIsStrictTotalOrder | temporal_analysis.py:56 | Python's string comparison, used to sort category keys and to break mode ties, is irreflexive, transitive and total |
| Seqs.SortedDistinct | temporal_analysis.py:56 | the group keys of a `groupby`: strictly increasing in the key order, and exactly the values that occur |
| Seqs.Unique | crime_correlation.py:64 | `Series.unique()`: each value that occurs exactly once, in order of first appearance |
| Seqs.Group | crime_correlation.py:68 | a boolean-mask selection: exactly the rows whose key equals the given one, each as many times as it occurs in the input, and never more rows than the input |
| Seqs.GroupSingleton | crime_correlation.py:68 | a one-row input keeps its row exactly when the row's key matches |
| Seqs.GroupAppend | crime_correlation.py:68 | selecting from a concatenation is the selection from the first part followed by the selection from the second, so the kept rows stay in input order |
| Seqs.GroupSizesCover | temporal_analysis.py:57 | when every row's key is among distinct keys, the group sizes add up to the number of rows |
| Seqs.Mode | hotspot_detection.py:99 | `mode()[0]`: a value that occurs, of maximal frequency, and the least such value on ties |
| Stats.MeanWithinRange | hotspot_detection.py:78-79 | a mean lies between the minimum and the maximum of what it averages |
| Decimal.IntToDecimalRoundTrip | crime_correlation.py:97 | the decimal rendering of a label parses back to that label |
| Decimal.IntToDecimalInjective | crime_correlation.py:97 | different labels render differently |
| Reports.Zip | hotspot_detection.py:64 | assigning `labels_` as a column gives the i-th row the i-th label |
| Tables.Table.Truncate | temporal_analysis.py:104 | `TRUNCATE TABLE` leaves no rows |
| Tables.Table.Append | temporal_analysis.py:107 | `to_sql(..., if_exists="append")` puts the batch after the existing rows |
| Temporal.RiskLevel | temporal_analysis.py:70-76 | "high" exactly when the mean is at least 4 and the count at least 3; "medium" exactly when not high and the mean is at least 3 or the count at least 5; "low" exactly when the mean is under 3 and the count under 5 |
| Temporal.RiskLevelMonotone | temporal_analysis.py:70-76 | a higher count or mean never lowers the level in the order low < medium < high |
| Temporal.BucketLtIsStrictTotalOrder | temporal_analysis.py:56 | the (day, hour, category) key order pandas sorts by is a strict total order |
| Temporal.PatternOf | temporal_analysis.py:55-79 | a bucket's row: its key, the number of its reports (at least one), their mean severity, which lies between their least and greatest severity, the risk level of that mean and count, the run's time |
| Temporal.TotalCountOfPatterns | temporal_analysis.py:57 | the counts of the rows for some keys add up to the sizes of those keys' groups |
| Temporal.TemporalPatterns | temporal_analysis.py:55-59 | one row per (day, hour, category) that occurs and for no other key, keys strictly ascending, no empty row, counts adding up to the number of reports |
| Temporal.Run | temporal_analysis.py:48-107 | with no reports the table is unchanged; otherwise it becomes exactly the computed patterns |
| Hotspots.NonNoise | hotspot_detection.py:66-67 | keeps exactly the rows not labelled -1, each as many times as it occurs in the input, as many rows as there are labels other than -1 |
| Hotspots.NonNoiseSingleton | hotspot_detection.py:66-67 | a one-row input keeps its row exactly when it is not labelled -1 |
| Hotspots.NonNoiseAppend | hotspot_detection.py:66-67 | dropping noise from a concatenation drops it from each part in turn, so the clustered rows stay in input order |
| Hotspots.NonNoiseLabels | hotspot_detection.py:64-67 | the clustered rows carry exactly the labels other than -1, one row per such label occurrence |
| Hotspots.PrimaryCategory | hotspot_detection.py:97-101 | for a non-empty group: a member's category of maximal frequency, the least on ties, so the "other" fallback never applies to it |
| Hotspots.Summarise | hotspot_detection.py:74-108 | a cluster's row: its label, its size, centre coordinates that are the member means and lie within the members' range, a maximum severity that is a member's and bounds every member's, a mean severity no greater than it, the category mode, radius 1.0 |
| Hotspots.SummariesFor | hotspot_detection.py:74-104 | one summary per requested label, each of a non-empty cluster, in the order of the labels |
| Hotspots.SummariesCoverClusters | hotspot_detection.py:81 | with each label once, the summaries' counts add up to the number of clustered rows |
| Hotspots.HotspotRows | hotspot_detection.py:74-107 | one row per label other than -1 that occurs, labels strictly ascending, each row the summary of exactly that label's reports, counts adding up to the number of reports that are not noise |
| Hotspots.ClusteredIffSomeLabelNotNoise | hotspot_detection.py:66-71 | some row survives the noise filter exactly when some label is not -1 |
| Hotspots.Run | hotspot_detection.py:52-138 | with no reports, or every report labelled -1, the table is unchanged; otherwise it becomes exactly the computed rows |
| Correlation.ClusterIdInjective | crime_correlation.py:97 | two cluster ids are equal only for the same category and the same label |
| Correlation.ClusterIdsDiffer | crime_correlation.py:97 | a different category or label gives a different cluster id |
| Correlation.TimeSpanDays | crime_correlation.py:103-105 | a non-negative whole number of days: every pair of members is less than one more day apart, and some pair is at least that many days apart |
| Correlation.MostCommon | crime_correlation.py:106-115 | a value of maximal frequency, the least on ties, for a non-empty column; nothing for an empty one |
| Correlation.Confidence | crime_correlation.py:128-133 | the score never exceeds 1.0 |
| Correlation.ConfidenceNonNegative | crime_correlation.py:128-133 | the score is not negative for a span of at most 60 days and non-negative counts and severities |
| Correlation.ConfidenceMonotone | crime_correlation.py:128-133 | more incidents or a higher mean never lower the score; a longer span never raises it |
| Correlation.ClusterStats | crime_correlation.py:96-133 | a cluster's row: id from category and label, size, member means for centre and severity (the latter within the severity range), whole-day span, day and hour modes, organized exactly when size is at least 4, span at most 45 and mean at least 2.5, and the score of those values |
| Correlation.LabelsRowsSound | crime_correlation.py:86-135 | every row a category's labels yield is the row of a label among them that is not -1 and has at least three members |
| Correlation.LabelsRowsDistinct | crime_correlation.py:86-97 | distinct labels yield rows with distinct cluster ids |
| Correlation.CategoriesRowsSound | crime_correlation.py:64-135 | every row the categories yield belongs to one of them and is the row of a cluster passing every gate |
| Correlation.CategoriesRowsDistinct | crime_correlation.py:64-97 | distinct categories yield rows with distinct cluster ids |
| Correlation.ClusterCorrelations | crime_correlation.py:86-135 | the inner loop appends exactly the rows its category's labels yield |
| Correlation.FindCorrelations | crime_correlation.py:61-135 | the nested loops build exactly the specified correlations, with no cluster id repeated |
| Correlation.CorrelationsSound | crime_correlation.py:64-93 | every correlation is the row of a non-noise cluster of at least three reports in a category of at least five |
| Correlation.ClusterMembersShareCategory | crime_correlation.py:68-90 | every member of a cluster has the cluster's category |
| Correlation.SmallCategoryContributesNothing | crime_correlation.py:68-71 | a category of fewer than five reports yields no correlation |
| Correlation.CorrelationsComplete | crime_correlation.py:64-135 | every non-noise cluster of at least three reports in a category of at least five yields its row |
| Correlation.SpanWithinWindow | crime_correlation.py:45 | members that all lie in the 60-day window span at most 60 days |
| Correlation.ClusterConfidenceInRange | crime_correlation.py:128-133 | a cluster in the 60-day window whose severities are not negative gets a score between 0 and 1 |
| Correlation.ConfidenceWithinWindow | crime_correlation.py:45 | when every report lies in the 60-day window and has a non-negative severity, every score is between 0 and 1 |
| Correlation.Run | crime_correlation.py:55-176 | with fewer than ten reports, or no surviving correlation, the table is unchanged; otherwise it becomes exactly the correlations |

## Left out

- Environment and connection handling (`load_dotenv`, `DB_CONNECTION`, `create_engine`, `read_sql`): I/O. The query results are parameters.
- The SQL filters (time windows, report status, non-null coordinates and category) and the `COALESCE` defaults: the input rows are taken as the query returns them. The 60-day window appears only as the `InWindow` precondition of `Correlation.SpanWithinWindow`, `Correlation.ClusterConfidenceInRange` and `Correlation.ConfidenceWithinWindow`.
- DBSCAN itself and the feature scaling that feeds it: a floating-point library call. Its labels are parameters, and nothing is claimed about cluster geometry, `eps` or `min_samples`.
- `CREATE TABLE`, the rounding of `NUMERIC` columns and the column mapping of `to_sql`: the table is the sequence of computed rows.
- Atomicity of the replacement: the truncation commits before the append, and a failure in between is not modelled.
- Console output and the top-N listings after each write.
- `datetime.now()`: the clock value is a parameter.
- Floating point: means and scores are exact reals.
- Correlation.ClusterStats: `last_updated` is one clock value for every row, while the source calls `datetime.now()` again for each cluster, so its rows can carry slightly different times.
- Correlation.FindCorrelations: the `pd.isna(category)` skip is not modelled, because the query excludes null categories.
- Correlation.FindCorrelations: the `correlation_cluster` column written into `category_df` is not modelled; the labels are read from the parameter instead.
- Correlation.ConfidenceWithinWindow: assumes no report is dated after the query time. The query bounds `created_at` only from below.
