# Student outcome dashboard: a verified model of its data layer

The Streamlit script `app.py` loads a table of student records. It then does
three things:

- It relabels the seven binary-coded columns in place.
- It shows a dashboard with four overview metrics and a stacked bar chart per
  demographic feature. The dashboard can be filtered by course and also has
  an outcome pie chart.
- It offers a prediction form whose answers become a twelve-column input for
  a pre-trained classifier.

This project models that data layer in Dafny and proves what the script
relies on.

- `outcomes.dfy` (module `Outcomes`): `Option` and `Result`. They model a
  Python exception (IndexError or KeyError) as a value.
- `catalogs.dfy` (module `Catalogs`): the course table and the father's
  occupation table, which map codes to labels.
  - Each table is modelled as its (code, label) items in insertion order.
  - The reverse lookup `[k for k, v in m.items() if v == name][0]` is
    modelled as a first-match search that fails on an absent name.
  - It is proved that both literal tables are injective. So a lookup of a
    label gives back its one code, and a lookup of a code's label gives back
    the code.
- `table.dfy` (module `Table`): records as maps from column to cell.
  - `Series.map(dict)` is modelled with NaN for unmatched values. An integral
    float counts as equal to an integer key.
  - The class `Frame` holds the loaded table that the script changes in
    place. Its methods are the relabelling loop over `mapping_dict` and the
    temporary `Status_Num` column, which is added and later dropped.
- `dashboard.dfy` (module `Dashboard`):
  - the course filter;
  - the `groupby(...).size()` and `value_counts()` tallies;
  - the four overview metrics;
  - the splitting of the seven demographic features into layout rows of
    three.

  A column that the table lacks gives a `MissingColumn` error, where pandas
  raises KeyError. A course name outside the catalog gives `UnknownCourse`.
- `prediction.dfy` (module `Prediction`):
  - encoding the form into the feature vector, with the failures raised in
    the script's evaluation order;
  - reading the vector back, which proves the encoding loses nothing;
  - decoding the classifier's 0/1 label. The classifier is a function
    parameter.

Where the code and its intended behaviour could be read two ways, the model
follows the code. Two points are worth knowing:

- **Dropout rate.** The dropout rate uses `value_counts(normalize=True)`. It
  therefore divides by the number of records whose `Status` is not missing,
  not by the number of records. `Dashboard.DropoutRateExact` proves that the
  two agree whenever no record lacks an outcome.
- **Course table.** The course table appears twice (`app.py:83-101` and
  `app.py:247-265`). Both copies are identical, so it is modelled once as
  `Catalogs.CourseCatalog`.

## Model

| member | source | states |
|---|---|---|
| Catalogs.Labels | app.py:104 | `list(m.values())`: the labels of the items in insertion order. What the select box offers is stated by `Catalogs.CourseLabelResolves`. |
| Catalogs.AsMap | app.py:83-101 | The dictionary a literal denotes, a later item overriding an earlier one with the same code. Its meaning is stated by `Catalogs.AsMapAt` and `Catalogs.AsMapKeys`. |
| Catalogs.ReverseLookup | app.py:111 | The lookup succeeds exactly when the name is a label of the table. It then gives the code of the first item carrying that name. |
| Catalogs.CodesLabelled | app.py:111 | The list comprehension: it is empty exactly when no item carries the name, and its head is the code of the first item that does. |
| Catalogs.AsMapAt | app.py:83-101 | In a table with distinct codes, the dictionary built from the items maps each item's code to that item's label. |
| Catalogs.AsMapKeys | app.py:83-101 | The dictionary's keys are exactly the codes of the items. |
| Catalogs.LookupFindsItem | app.py:111 | In a table with distinct labels, looking up an item's label gives that item's code. |
| Catalogs.CodeRoundTrip | app.py:111 | In an injective table, looking up the label of any code gives back that code. |
| Catalogs.LabelRoundTrip | app.py:342-344 | In a table with distinct codes, looking up any label succeeds and gives a code that the dictionary maps back to that label. |
| Catalogs.CourseCatalogWellFormed | app.py:83-101 | The course table has 17 items, and its codes and its labels are both distinct. |
| Catalogs.CourseCodeRoundTrip | app.py:247-265 | Looking up the course label of any course code gives back that code. |
| Catalogs.CourseLabelResolves | app.py:104-111 | Every label the course select box offers resolves to a code whose label it is, so the `[0]` never fails. |
| Catalogs.OccupationGroupsAscending | app.py:267-279 | The 13 group entries (codes 0 to 99) have strictly ascending codes. |
| Catalogs.OccupationCodes0To3Ascending | app.py:280-292 | The 13 detailed codes 101 to 135 are strictly ascending. |
| Catalogs.OccupationCodes4To6Ascending | app.py:293-301 | The 9 detailed codes 141 to 163 are strictly ascending. |
| Catalogs.OccupationCodes7To9Ascending | app.py:302-312 | The 11 detailed codes 171 to 195 are strictly ascending. |
| Catalogs.OccupationCatalogAscending | app.py:266-313 | The 46 occupation codes ascend across the four blocks, so they are distinct. |
| Catalogs.OccupationCatalogLabelsDistinct | app.py:266-313 | No two occupation labels coincide, within a block or across blocks. |
| Catalogs.OccupationCatalogWellFormed | app.py:266-313 | The occupation table has 46 items with ascending (hence distinct) codes and distinct labels. |
| Catalogs.OccupationCodeRoundTrip | app.py:266-313 | Looking up the occupation label of any occupation code gives back that code. |
| Catalogs.OccupationLabelResolves | app.py:344 | Every occupation label the form offers resolves to a code that the table maps back to it. |
| Table.IntValue | app.py:25 | The integer a cell equals under Python `==`, an integral float matching its integer. Stated through `Table.BinaryLabelsMeaning`, which sends every value other than 0 or 1 to NaN, and through `Dashboard.HasCourse` for the course mask at app.py:112. |
| Table.LabelCell | app.py:25 | `series.map(labels)` on one cell: the label of its integer value, NaN otherwise. Stated for the seven mappings by `Table.BinaryLabelsMeaning`. |
| Table.RelabelColumn | app.py:25 | One column relabelled in every record. Stated by `Table.RelabelAllAt` and used by `Table.Frame.MapColumn`. |
| Table.RelabelAll | app.py:24-25 | The columns of the mapping list relabelled one after the other. Stated per record and column by `Table.RelabelAllAt`. |
| Table.RelabelAllLength | app.py:24-25 | Relabelling keeps the number of records. |
| Table.RelabelAllAt | app.py:24-25 | Relabelling keeps the record count and each record's columns. A listed column holds the label of its old value, or NaN where there is none. Every other column keeps its value. |
| Table.BinaryLabelsMeaning | app.py:13-21 | There are seven distinct columns, each with labels for exactly 1 and 0. Five of them are Yes/No. Any other value becomes NaN. It also gives two sample labels. |
| Table.EncodeStatus | app.py:178-179 | `data['Status'].map(status_mapping)` on one cell. Stated by `Table.EncodeStatusMeaning`. |
| Table.WithStatusNum | app.py:179 | Every record gains `Status_Num`, holding its encoded outcome. Stated by `Table.AddThenDropRestores` and used by `Table.Frame.AddStatusNum`. |
| Table.WithoutColumn | app.py:203 | The column removed from every record. Stated by `Table.AddThenDropRestores` and used by `Table.Frame.DropColumn`. |
| Table.RemoveName | app.py:203 | The column list without the name. Stated by `Table.RemoveNameMembers`, `Table.RemoveNameAppended` and `Table.RemoveNameDistinct`. |
| Table.RemoveNameMembers | app.py:203 | A name is left in the list exactly when it was there and is not the dropped one. |
| Table.EncodeStatusMeaning | app.py:178-179 | Graduate, Dropout and Enrolled encode to 1, 0 and 2, and nothing else has a code. |
| Table.AddThenDropRestores | app.py:179-203 | Adding `Status_Num` to records that lack it and then dropping it gives back the records exactly. |
| Table.RemoveNameAppended | app.py:203 | Dropping a column name that was appended to a list without it gives back the list. |
| Table.RemoveNameDistinct | app.py:203 | Dropping a name from distinct column names leaves them distinct. |
| Table.Frame.MapColumn | app.py:25 | The column is relabelled in every record when it exists. Otherwise nothing changes (KeyError). The frame stays well formed. |
| Table.RelabelAllStep | app.py:24-25 | One more loop iteration relabels the table so far by the next mapping. |
| Table.Frame.ApplyLabels | app.py:24-25 | The loop succeeds exactly when every listed column exists. The table then equals the relabelling by all mappings in order, and the column list is unchanged. |
| Table.Frame.ApplyBinaryLabels | app.py:24-25 | The loop succeeds exactly when all seven columns exist. The table then equals the relabelling by all seven mappings, and the column list is unchanged. |
| Table.Frame.AddStatusNum | app.py:179 | When `Status` exists, every record gains the encoded outcome in `Status_Num` and the column is appended. Otherwise nothing changes. |
| Table.Frame.DropColumn | app.py:203 | When the column exists, it is removed from every record and from the column list. Otherwise nothing changes. |
| Table.Frame.WithTemporaryStatusNum | app.py:178-203 | After add-then-drop, the records and the columns are exactly what they were before. |
| Dashboard.CourseOptions | app.py:104 | `["All Students"] + list(course_mapping.values())`. Stated by `Dashboard.FilterByCourseMeaning`, which shows the filter succeeds exactly on these options. |
| Dashboard.FirstMissing | app.py:67-77 | No name is reported exactly when every needed column exists. Otherwise the report is the first needed name that the table lacks. |
| Dashboard.HasCourse | app.py:112 | `data['Course'] == course_id` for one record. Stated by `Dashboard.RowsOfCourseIsSubsequence`. |
| Dashboard.RowsOfCourse | app.py:112 | The boolean-mask result is no longer than the table, and each kept record is a record of the table with that course. |
| Dashboard.CoursePositionsInRange | app.py:112 | The kept records are, one for one, the records at the listed positions. |
| Dashboard.CoursePositionsExact | app.py:112 | A position is listed exactly when its record has the course. |
| Dashboard.RowsOfCourseIsSubsequence | app.py:112 | The filter result is the order-preserving subsequence of the table made of exactly the records with that course. |
| Dashboard.AllStudentsIsNoCourse | app.py:104 | "All Students" is not a course label, so the extra option cannot be confused with a course. |
| Dashboard.FilterByCourse | app.py:108-112 | The course filter on a table with the given columns. Stated by `Dashboard.FilterByCourseMeaning`. |
| Dashboard.FilterByCourseMeaning | app.py:104-112 | The filter succeeds exactly on the offered options, when the table has a `Course` column or the option is "All Students". Another name is an IndexError, and a course without the column is a KeyError for `Course`. "All Students" gives the table unchanged. Any other option gives the records of the code that the option names. |
| Dashboard.NursingCode | app.py:95-111 | "Nursing" resolves to course code 9500. |
| Dashboard.NursingFilter | app.py:108-112 | Choosing "Nursing" keeps exactly the records with course 9500 when the table has a `Course` column, and is a KeyError for `Course` otherwise. |
| Dashboard.KeyOf | app.py:138 | A record's key over the grouping columns, none when a key cell is NaN. Stated by `Dashboard.KeyOfSingle` and `Dashboard.GroupSizesMeaning`. |
| Dashboard.KeyOfSingle | app.py:210 | A one-column key is the cell itself. There is none when the record lacks the column or the cell is NaN. |
| Dashboard.GroupSizes | app.py:138 | The group sizes over records that have the columns. Stated by `Dashboard.GroupSizesMeaning` and `Dashboard.GroupSizeIsCount`. |
| Dashboard.GroupBy | app.py:138 | `groupby(cols).size()` succeeds exactly when the table has every key column. Otherwise it is a KeyError naming a key column the table lacks. On success it gives the group sizes. |
| Dashboard.DemographicGroups | app.py:138 | The stacked bar counts of one feature. Stated by `Dashboard.GroupBy` and `Dashboard.DemographicGroupsSum`. |
| Dashboard.ValueCounts | app.py:210 | `value_counts()` of one column on a table. Stated by `Dashboard.GroupBy` and `Dashboard.StatusCountsSum`. |
| Dashboard.ColumnCounts | app.py:67-77 | `value_counts()` over records that have the column. Stated by `Dashboard.StatusTally` and `Dashboard.OverviewCounts`. |
| Dashboard.SizeOf | app.py:67-77 | `.get(key, 0)` on the counts. Stated by `Dashboard.GroupSizeIsCount`: the number of records with the key, 0 when there are none. |
| Dashboard.GroupSizesMeaning | app.py:138 | Group keys are distinct and sizes are positive. The sizes add up to the number of records whose key has no missing part. |
| Dashboard.GroupSizeIsCount | app.py:138 | The size reported for a key is the number of records with that key. It is 0 when the key is absent, as `.get(k, 0)` gives. |
| Dashboard.GroupEntriesAreCounts | app.py:138 | Every group's size is the positive number of records with its key. |
| Dashboard.CountKeyedAll | app.py:138 | When no record has a missing key, every record is counted. |
| Dashboard.CountKeySingle | app.py:210 | Counting a one-column key is counting the records whose cell in that column is the value. |
| Dashboard.DemographicGroupsSum | app.py:138 | The stacked bar counts exist exactly when the table has the feature and `Status` columns. When no record has a NaN feature or outcome, the groups are then positive and add up to the records shown. |
| Dashboard.StatusTally | app.py:210 | When each record has an outcome, the outcome counts add up to the records, and each counts the records with that outcome. |
| Dashboard.StatusCountsSum | app.py:210 | The pie counts exist exactly when the table has a `Status` column. When each record has an outcome, the slices then add up to the records shown, and each slice counts the records with that outcome. |
| Dashboard.Percent | app.py:67 | The `normalize=True` share times 100. Stated by `Dashboard.PercentMeaning`. |
| Dashboard.PercentMeaning | app.py:67 | A percentage lies in [0, 100], is 0 exactly for a part of 0, and times the whole gives 100 times the part. |
| Dashboard.OverviewOf | app.py:62-77 | The four tiles over records that have the columns. Stated by `Dashboard.OverviewCounts` and the `Dashboard.DropoutRate` lemmas. |
| Dashboard.OverviewMetrics | app.py:62-77 | The tiles exist exactly when the table has `Status` and `Educational_special_needs`. A table without `Status` fails at the dropout tile, and one with `Status` but without the special-needs column fails at the third tile. On success the tiles are the ones computed over the records. |
| Dashboard.OverviewCounts | app.py:62-77 | The total is the record count. Graduates is the number of Graduate records. Special needs is the number of records relabelled Yes. |
| Dashboard.CountCellOfCoded | app.py:72 | Two tables that agree record by record on which records qualify give equal counts. |
| Dashboard.SpecialNeedsFromRaw | app.py:72 | The special-needs tile over the relabelled table is the number of loaded records whose raw flag equals 1. |
| Dashboard.DropoutRateIsPercent | app.py:67 | The dropout rate is the percentage of Dropout records among the records with an outcome. |
| Dashboard.DropoutRateBounds | app.py:67 | The dropout rate lies in [0, 100] and is 0 exactly when no record is a Dropout. |
| Dashboard.DropoutRateExact | app.py:67 | When every record has an outcome, the dropout rate is the percentage of Dropouts among all records. |
| Dashboard.DropoutRateExample | app.py:62-77 | For 100 records with 40 Dropouts and 50 Graduates, the tiles show a rate of 40 and 50 graduates. |
| Dashboard.ChunksFrom | app.py:128 | The list comprehension of slices from a start position. Stated by `Dashboard.ChunksFromMeaning`. |
| Dashboard.Chunks | app.py:128 | The layout rows. Stated by `Dashboard.ChunksMeaning`. |
| Dashboard.ChunksFromMeaning | app.py:128 | The slices from a start position concatenate to the rest of the list. Each holds between 1 and `width` items, and all but the last hold exactly `width`. |
| Dashboard.ChunksMeaning | app.py:128 | The layout rows concatenate to the feature list, each holds 1 to 3 features, and only the last may hold fewer than 3. |
| Dashboard.DemographicRows | app.py:117-128 | The seven demographic features give rows of 3, 3 and 1 charts. |
| Prediction.YesNo | app.py:338-339 | Yes gives 1, No gives 0, and any other answer is a KeyError. |
| Prediction.EncodeForm | app.py:342-360 | Encoding succeeds exactly when both names are catalog labels and both flags are Yes or No. The failures come in the script's order: course, occupation, tuition, scholarship. On success the vector has the 12 column names in order. |
| Prediction.FromWidgets | app.py:317-328 | The submissions the widgets can produce: offered names, Yes/No flags, and numbers in the widget ranges. Stated by `Prediction.EncodeDecodeRoundTrip`, which shows every such submission encodes. |
| Prediction.EncodeDecodeRoundTrip | app.py:347-360 | For any submission the widgets can produce, the encoding succeeds and reading the vector back gives that exact submission. |
| Prediction.DashboardEncodeDecodeRoundTrip | app.py:317-360 | The round trip holds for the script's own course and occupation tables. |
| Prediction.EncodedCodes | app.py:342-360 | The Course and Fathers_occupation columns hold codes that the tables map back to the chosen names. |
| Prediction.EncodedValues | app.py:347-360 | The flags hold 1 for Yes and 0 for No, and the other eight columns hold the entered values verbatim. |
| Prediction.YesNoUndoesRelabel | app.py:339 | The Yes/No dictionary is the inverse of the Yes/No relabelling of the binary columns. |
| Prediction.DefaultScenarioEncodes | app.py:317-360 | Tuition Yes, Scholarship No, age 20 and the other defaults give course 33, tuition 1, scholarship 0, age 20, occupation 0 and the entered values. |
| Prediction.DefaultCodes | app.py:317-328 | The first course option and the first occupation option resolve to codes 33 and 0. |
| Prediction.DecodeLabel | app.py:369-370 | Labels 0 and 1 decode to Dropout and Graduate. Any other label is a KeyError. |
| Prediction.DecodeLabelInvertsStatusCodes | app.py:369-370 | Decoding is the inverse of the outcome encoding for Dropout and Graduate, and no label decodes to Enrolled. |
| Prediction.StatusCodesInvertDecodeLabel | app.py:369-370 | A decoded outcome encodes back to the label it came from. |
| Prediction.Predict | app.py:342-370 | A prediction exists exactly when the encoding succeeds and the classifier answers 0 or 1. It is then the outcome whose code is that answer. An encoding failure is passed through. |
| Prediction.PredictFromWidgets | app.py:317-370 | For a submission from the widgets and a classifier answering 0 or 1, the prediction is Dropout for 0 and Graduate for 1. |

## Left out

- Page layout, sidebar, form rendering, metric tiles and every other Streamlit call: these are presentation. The form's widgets are modelled only as the set of submissions they can produce (`Prediction.FromWidgets`).
- Plotly chart construction, colours and layouts: presentation over an external library.
- Reading the CSV file and loading the pickled classifier: I/O. The table is a parameter, and the classifier is a function parameter `classify`.
- `predict_proba`, the probability pie and the confidence percentages: floating-point output of the opaque classifier and its formatting.
- The Pearson correlation chart (`DataFrame.corr`): floating-point numerics inside pandas. Only the temporary `Status_Num` column is modelled around it.
- The selection of numerical and categorical columns for the correlation chart: it only chooses plot inputs.
- Dashboard.GroupSizes: groups are listed in order of first appearance. `groupby(...).size()` sorts the group keys, and `value_counts()` orders by count, highest first. Sizes and membership are modelled, the output order is not.
- Dashboard.KeyOf: key cells are compared as values, so an integer and an equal float would form two groups where pandas merges them. A loaded column holds one kind of cell and the relabelled keys are text or NaN, so this case does not arise in the script.
- Dashboard.OverviewMetrics: formatting the rate to two decimals is not modelled. The rate is an exact rational, not a binary float.
- Dashboard.FilterByCourse: for "All Students" the script makes `filtered_data` the same object as `data`. The model returns the same value, but aliasing is not modelled.
- Prediction.FromWidgets: the widget step sizes (0.1) are not modelled. Grades are any reals in range.
- Prediction.Predict: calling the classifier exactly once per submission is stated only in the comment, because a function parameter cannot count its calls.
