# Hydrologic statistics dataset assembly, in Dafny

This project models the preprocessing core of a hydrologic-statistics
pipeline and proves properties of it. The pipeline has six parts:

- **The assembly engine** turns per-scenario CSV files of streamflow
  statistics into one 5-D dataset, with axes landcover × model × scenario ×
  era × stream id. It filters the file list, reads coordinates from the
  positional file names, and builds sorted, deduplicated axes. It encodes the
  categorical axes as integers, allocates an all-NaN array per statistic, and
  writes each file's columns into one stream-id slice. It then attaches
  metadata, sorts the model axis, crosswalks HRU ids and clips to a
  shapefile's ids. Two versions are modelled:
  - the current one (`data/preprocess/functions.py` with
    `data/preprocess/luts.py`);
  - the older one (`functions.py` with `luts.py`, at the repository root).

  The two differ in the filter markers, the dimension names, the tables,
  and how strictly `populate_dataset` checks a file.
- **The lookup tables** are the statistic set with its descriptions and
  units, the label-to-code encodings and their reverse tables.
- **The rasdaman string conversion** replaces string coordinates by their
  positions in the sorted distinct values. It keeps the table so the
  values can be recovered, and a check verifies that round trip.
- **The ingest manifest builder** inverts each dimension's encoding table,
  lists one band per statistic and orders the axes with `geom_id` last. It
  then unquotes `"true"` and `"false"` in the JSON text.
- **The streamflow climatology** covers reading landcover, model and
  scenario from a file name, and the chunked stream-id collection. It also
  covers the era windows with their labels and the chunked per-era loop.
- **The test helpers** flatten the nested test-stream table and provide
  placeholder data and scores.

The model is laid out as follows:

- `Datasets.Dataset` is a class. Each statistic has one flat row-major
  buffer (`array<Row>`) that `.loc` writes update in place.
- A `Frame` value, returned by `Value()`, states what the buffers hold.
- The loops of the source are methods proved against recursive
  specification functions. The properties are lemmas about those functions.
- Python's `str.split`, `in`, `replace`, `int()`/`str()` and the string
  order are modelled in `Text` and `Ordering`, and so is `lower` on ASCII
  letters.

| module | models |
|---|---|
| `Wrappers` | Option / Result |
| `Text`, `Ordering` | Python string builtins, `sorted(set(...))`, `sorted` on ints |
| `Luts`, `LegacyLuts` | `data/preprocess/luts.py`, `luts.py` |
| `Datasets` | the xarray dataset the engine builds and writes into |
| `Engine`, `Variants` | `filter_files`, `get_unique_coords`, `encode`, `create_empty_dataset` for both versions |
| `Populate`, `LegacyPopulate` | `populate_dataset` of the current and older engine |
| `Metadata` | `populate_encodings_metadata` |
| `Transforms` | `sort_by_model_dimension`, `crosswalk_hrus`, `clip_dataset` |
| `RasdamanStrings` | `data/hydrograph_preprocessing/convert_strings_for_rasdaman.py` |
| `IngestManifest` | `data/rasdaman/build_ingest_json.py` |
| `Climatology` | `data/hydrograph_preprocessing/process_streamflow_climatology.py` |
| `TestStreams` | `data/tests/test_functions.py` |

Points where the code's behaviour is easy to mistake:

- `encode` does not raise a dedicated error. An unknown dimension name falls
  off its `if/elif` chain and returns None. An unknown label raises
  KeyError.
- A file whose encoded labels are not coordinates of the dataset is not
  rejected as a whole. Each `.loc` write fails alone and is caught, and the
  global attributes are still assigned.
- The older engine does not skip a bad file. A missing statistic column
  (`usecols`) or an unknown label raises and ends the run. It has no
  row-count check.
- No run summary or "no valid files" failure exists. Only the excluded
  count of `filter_files` is computed.

## Model

| member | source | states |
|---|---|---|
| Text.FirstIndex | data/rasdaman/build_ingest_json.py:71 | `index` gives the first position holding the element; used also for the value positions of data/hydrograph_preprocessing/convert_strings_for_rasdaman.py:58 |
| Text.Split | data/preprocess/functions.py:44 | `split("_")` gives at least one piece, no piece holds the separator, and joining the pieces back gives the name |
| Text.SplitCount | data/preprocess/functions.py:44 | the number of pieces is one more than the number of separators |
| Text.SplitPartContains | functions.py:17-28 | a substring of a piece of a split is a substring of the whole name |
| Text.ToLower | data/hydrograph_preprocessing/process_streamflow_climatology.py:108 | lower-casing ASCII letters keeps the length and folds each character |
| Text.ReplaceAbsent | data/rasdaman/build_ingest_json.py:126-127 | `replace` of a pattern that does not occur leaves the text unchanged |
| Text.ReplaceSkipsPrefix | data/rasdaman/build_ingest_json.py:126-127 | text without the pattern's first character passes through `replace` untouched |
| Text.ReplaceNoMatchPrefix | data/rasdaman/build_ingest_json.py:126-127 | a prefix at none of whose positions the pattern starts passes through `replace` untouched |
| Text.ReplaceAtFront | data/rasdaman/build_ingest_json.py:126-127 | an occurrence at the front is replaced and the scan resumes after it |
| Text.IntToString | data/hydrograph_preprocessing/convert_strings_for_rasdaman.py:138-140 | `int(str(x)) == x` for every integer |
| Text.NatToString | data/hydrograph_preprocessing/convert_strings_for_rasdaman.py:138 | `str(n)` is a non-empty digit string whose decimal value is `n` |
| Text.ParseIntOfNatToString | data/hydrograph_preprocessing/convert_strings_for_rasdaman.py:138-140 | parsing the decimal rendering of a natural number gives it back |
| Ordering.StrLtIsStrictOrder | data/preprocess/functions.py:63-67 | Python's string `<` is irreflexive and transitive |
| Ordering.StrLtTotal | data/preprocess/functions.py:63-67 | any two strings are equal or ordered one way |
| Ordering.Insert | data/preprocess/functions.py:63-67 | adding a label to a strictly sorted list keeps it strictly sorted and adds exactly that element |
| Ordering.SortUnique | data/preprocess/functions.py:63-67 | `sorted(list(set(xs)))` is strictly increasing and has exactly the elements of `xs` |
| Ordering.StrictlySortedUnique | data/preprocess/functions.py:63-67 | two strictly sorted lists with the same elements are equal |
| Ordering.SortUniqueDependsOnlyOnElements | data/preprocess/functions.py:63-67 | the sorted distinct list depends only on the set of inputs, not their order or repeats |
| Ordering.SortUniqueIdempotent | data/preprocess/functions.py:63-67 | sorting and deduplicating twice is the same as once |
| Ordering.InsertInt | data/preprocess/functions.py:226 | inserting an int keeps the list ascending and adds exactly that element to the multiset |
| Ordering.SortInts | data/preprocess/functions.py:226 | `sorted` on model codes returns an ascending permutation of its input |
| Luts.LandcoverIsBijective | data/preprocess/luts.py:374-446 | the landcover reverse table is the exact inverse of the landcover codes |
| Luts.ModelDecodesEncoded | data/preprocess/luts.py:380-395 | decoding every encoded model gives the model back |
| Luts.ModelEncodesDecoded | data/preprocess/luts.py:380-395 | encoding every decoded model code gives the code back |
| Luts.ModelIsBijective | data/preprocess/luts.py:380-395 | the model reverse table is the exact inverse of the model codes |
| Luts.ScenarioDecodesEncoded | data/preprocess/luts.py:396-402 | decoding every encoded scenario gives it back |
| Luts.ScenarioEncodesDecoded | data/preprocess/luts.py:396-402 | encoding every decoded scenario code gives it back |
| Luts.ScenarioIsBijective | data/preprocess/luts.py:396-402 | the scenario reverse table is the exact inverse of the scenario codes |
| Luts.EraIsBijective | data/preprocess/luts.py:403-408 | the era reverse table is the exact inverse of the era codes |
| Luts.TablesCoverCategoricalDims | data/preprocess/luts.py:374-446 | both tables have exactly the four dimensions landcover, model, scenario, era |
| Luts.EncodingsAreBijective | data/preprocess/luts.py:374-446 | for every dimension, the reverse table undoes the encoding and the encoding undoes it |
| Luts.EncodingsAreInjective | data/preprocess/luts.py:374-408 | no two labels of a dimension share a code |
| Luts.RangeFromReverse | data/preprocess/luts.py:374-446 | a table whose inverse is keyed 0..n-1 uses exactly the codes 0..n-1 |
| Luts.Find | data/preprocess/luts.py:5-370 | a dictionary lookup finds a value exactly when some entry has the key, and the value found is that entry's |
| Luts.StatInfoCoversKeys | data/preprocess/luts.py:5-370 | every statistic of `list(stat_vars_dict.keys())` has an entry, so its description and units can be read |
| Luts.CodeRanges | data/preprocess/luts.py:374-408 | the codes are 0..1, 0..13 with Maurer at 8, 0..4 and 0..3 |
| Luts.EraKeysAreYearPairs | data/preprocess/luts.py:403-408 | every era label is two four-digit years joined by an underscore, the form file names carry |
| LegacyLuts.ModelDecodesEncoded | luts.py:152-166 | the legacy model codes decode back through a reference decoding |
| LegacyLuts.ModelEncodesDecoded | luts.py:152-166 | the reference decoding encodes back to the legacy codes |
| LegacyLuts.ModelCodesAreRange | luts.py:152-166 | the legacy model codes are one-to-one and exactly 0..12 |
| LegacyLuts.TablesCoverCategoricalDims | luts.py:147-180 | the legacy table has exactly the dimensions lc, model, scenario, era |
| LegacyLuts.ModelCodesShiftedByMaurer | luts.py:152-166 | the legacy table has no Maurer; the current one inserts it at 8 and shifts every later model up by one |
| Datasets.Offset | data/preprocess/functions.py:98 | the row-major position of an index inside the axes is inside the buffer |
| Datasets.OffsetInjective | data/preprocess/functions.py:98 | distinct categorical positions occupy distinct buffer cells |
| Datasets.MissingRow | data/preprocess/functions.py:98-99 | the NaN slice has one missing cell per stream id |
| Datasets.EmptyCube | data/preprocess/functions.py:98-99 | `np.zeros(shape) * np.nan` has a row at exactly the positions inside the axes, all missing |
| Datasets.EmptyFrame | data/preprocess/functions.py:94-111 | the allocated dataset is well shaped, has exactly the given statistics, all missing, and no attributes |
| Datasets.EmptyFrameAdd | data/preprocess/functions.py:95-100 | allocating one more statistic adds one all-missing array and changes nothing else |
| Datasets.WriteSliceEffect | data/preprocess/functions.py:181-188 | a `.loc` write replaces one statistic's slice at one position; all other slices, axes and attributes stay as they were |
| Datasets.WriteSliceAt | data/preprocess/functions.py:181-188 | cell-wise: the written position holds the new row, any other keeps its row |
| Datasets.WriteSliceKeepsShape | data/preprocess/functions.py:181-188 | writing a row of the stream axis' length inside the axes keeps the dataset well shaped |
| Datasets.Dataset.ValidIsWellShaped | data/preprocess/functions.py:94-111 | the buffers of a valid dataset hold one full-length row per categorical position |
| Datasets.Dataset.constructor | data/preprocess/functions.py:102-111 | a new dataset has the given axes, no variables and no attributes |
| Datasets.Dataset.AddVariable | data/preprocess/functions.py:95-100 | adds an all-missing buffer for a statistic, in place, and changes nothing else |
| Datasets.Dataset.WriteRow | data/preprocess/functions.py:181-188 | an in-place `.loc` write; the new value is the slice write applied to the old one |
| Datasets.Dataset.SetAttr | data/preprocess/functions.py:200-205 | sets one global attribute and nothing else |
| Datasets.Dataset.SetCoordAttr | data/preprocess/functions.py:216 | sets one attribute of one coordinate and nothing else |
| Datasets.Dataset.SetVarAttr | data/preprocess/functions.py:220-221 | sets one attribute of one variable and nothing else |
| Engine.KeptMembers | data/preprocess/functions.py:15-26 | a name is kept exactly when it is an input and carries none of the markers |
| Engine.KeptAppend | data/preprocess/functions.py:15-26 | filtering commutes with concatenation, so kept names stay in input order |
| Engine.FilterFiles | data/preprocess/functions.py:7-31 | the loop keeps exactly the filter's names, and the excluded count plus the kept length is the input length |
| Engine.Stem | data/preprocess/functions.py:51 | `s.split(".")[0]` is the dot-free prefix before the first dot |
| Engine.ParseName | data/preprocess/functions.py:44-55 | a name parses exactly when it has at least seven `_`-fields; the coordinates are fields 0-3 and field 5 joined to the stem of field 6 |
| Engine.ParsedFieldsHaveNoSeparator | data/preprocess/functions.py:44-52 | no parsed coordinate contains `_` except the joined era |
| Engine.Parsed | data/preprocess/functions.py:43-61 | the coordinates of the parseable names, no more than the names |
| Engine.ParsedMembers | data/preprocess/functions.py:43-61 | a tuple is parsed exactly when some name parses to it |
| Engine.Project | data/preprocess/functions.py:57-61 | the per-field lists hold field `k` of each parsed tuple, in order |
| Engine.ProjectMembers | data/preprocess/functions.py:57-61 | a value is listed exactly when some parsed tuple carries it |
| Engine.Axis | data/preprocess/functions.py:63-67 | each axis is strictly increasing and holds exactly the values some parseable name carries in that field |
| Engine.GetUniqueCoords | data/preprocess/functions.py:34-77 | the loop with its `continue` on a parse failure gives the five axes of the specification |
| Engine.AxisDependsOnlyOnNames | data/preprocess/functions.py:63-67 | reordering or repeating file names leaves an axis unchanged |
| Engine.UniqueCoordsDependsOnlyOnNames | data/preprocess/functions.py:34-77 | running `get_unique_coords` on the same names in any order or multiplicity gives identical axes |
| Engine.UnparseableNameContributesNothing | data/preprocess/functions.py:53-55 | a name with fewer than seven fields changes no axis |
| Engine.Encode | data/preprocess/functions.py:116-127 | an unknown dimension gives None; otherwise the codes are the table's, in order, and the first unknown label is reported |
| Engine.EncodeAxes | data/preprocess/functions.py:105-108 | the four coordinates are encoded, or the first failing axis is reported |
| Engine.EncodeFromReportsFirst | data/preprocess/functions.py:105-108 | the reported error is that of the first axis that fails to encode, every earlier axis encoding |
| Engine.EncodeFrom | data/preprocess/functions.py:105-108 | encoding from axis `k` on succeeds exactly when every later axis encodes |
| Engine.CreateEmptyDataset | data/preprocess/functions.py:80-113 | fails exactly when an axis does not encode; else returns a fresh valid dataset equal to the empty dataset over the encoded axes |
| Engine.Allocate | data/preprocess/functions.py:94-100 | the allocation loop makes one all-missing buffer per statistic key |
| Variants.Current | data/preprocess/functions.py:16-26 | the current engine's categorical names are the current table's dimensions |
| Variants.Legacy | functions.py:18-28 | the older engine's categorical names are the older table's dimensions |
| Variants.FilterPolicies | data/preprocess/functions.py:16-26 | current: excluded exactly for "diff", "1952_2005" or "1952_2010"; older: for "Maurer", "diff" or "1952_2005" |
| Variants.LegacyFilterLeavesNoMaurer | functions.py:17-28 | after the older filter no model label mentions Maurer, and the older table has no Maurer entry |
| Variants.EncodeRoundTrip | data/preprocess/functions.py:116-127 | with the current tables, each code decodes to its label, and distinct labels get distinct codes |
| Variants.EncodedAxesAreDistinct | data/preprocess/functions.py:102-111 | the encoded coordinates built from `get_unique_coords` are duplicate-free |
| Variants.AnnotateCreatedDataset | data/preprocess/functions.py:210-222 | `populate_encodings_metadata` never raises on the dataset `create_empty_dataset` builds with the current tables |
| Populate.ColumnNamed | data/preprocess/functions.py:156-157 | a column is found exactly when its name is one of the table's |
| Populate.Clean | data/preprocess/functions.py:152 | `replace(-99999, nan)` turns the sentinel into missing and keeps every other value |
| Populate.CleanColumn | data/preprocess/functions.py:152 | cleaning a column is cell-wise and keeps its length |
| Populate.SelectedColumn | data/preprocess/functions.py:151-152 | a statistic column of the file comes through cleaned; any other column is dropped |
| Populate.SelectedLength | data/preprocess/functions.py:151-152 | selection and cleaning keep column lengths |
| Populate.FillMissing | data/preprocess/functions.py:155-157 | the missing-column loop keeps every column as long as the table |
| Populate.FillMissingColumn | data/preprocess/functions.py:155-157 | filling adds exactly the missing statistics as all-NaN columns and keeps the rest |
| Populate.DataFrameColumns | data/preprocess/functions.py:151-157 | the table has a column for every statistic and no other: the cleaned file column, or all NaN |
| Populate.EncodeLabel | data/preprocess/functions.py:170-173 | a guarded lookup is found exactly when the dimension and label are in the table |
| Populate.IndexOf | data/preprocess/functions.py:181-188 | `.loc` selects the first position holding the code, none when the code is absent |
| Populate.Locate | data/preprocess/functions.py:181-188 | the position is inside the axes and holds the four codes; it is missing exactly when a code is not a coordinate |
| Populate.WriteColumns | data/preprocess/functions.py:179-197 | the write loop keeps the set of statistics |
| Populate.WriteColumnsShape | data/preprocess/functions.py:179-197 | the write loop keeps the dataset well shaped and changes only statistics |
| Populate.WriteColumnsAt | data/preprocess/functions.py:179-197 | slice `p` of each statistic holds its column if the table has one; every other slice is unchanged |
| Populate.ApplyFileSkips | data/preprocess/functions.py:136-177 | a file failing a check writes nothing; an admitted one whose codes are not coordinates sets only the global attributes |
| Populate.ApplyFileFrame | data/preprocess/functions.py:179-205 | an admitted, located file keeps the shape and changes only statistics and the two global attributes |
| Populate.ApplyFileSlices | data/preprocess/functions.py:151-197 | an admitted file replaces each statistic's slice at its position with its cleaned column, or NaN where it lacks it; other slices are unchanged |
| Populate.ApplyFileKeepsShape | data/preprocess/functions.py:134-205 | any file keeps the dataset well shaped |
| Populate.AddMissingColumns | data/preprocess/functions.py:155-157 | the loop computes the filled table |
| Populate.WriteDataFrame | data/preprocess/functions.py:179-197 | the in-place write loop computes the write-loop specification; with no position nothing changes |
| Populate.JudgeFile | data/preprocess/functions.py:136-177 | the parse, read, row-count and lookup checks give the verdict, and the admitted table has the statistics at the right length |
| Populate.PopulateFile | data/preprocess/functions.py:134-205 | one iteration changes the dataset as the specification of one file says |
| Populate.WriteAdmitted | data/preprocess/functions.py:179-205 | the writes and the attribute assignment of an admitted file |
| Populate.PopulateDataset | data/preprocess/functions.py:130-207 | the whole loop leaves the specified dataset, file after file |
| LegacyPopulate.Broadcast | functions.py:145-148 | a write succeeds exactly for a full-length or one-cell column; one cell is repeated |
| LegacyPopulate.LegacyWriteColumns | functions.py:143-152 | the write loop keeps the set of statistics |
| LegacyPopulate.LegacyEncode | functions.py:138-141 | the unguarded lookups succeed exactly when all four labels are in the table, else the first unknown one raises |
| LegacyPopulate.UnknownLabelAborts | functions.py:138-141 | a parseable file with an unknown label ends the older run, where the current engine skips it |
| LegacyPopulate.UnparseableSkipped | functions.py:125-131 | a file whose name does not parse is skipped |
| LegacyPopulate.LegacyWriteColumnsAt | functions.py:143-152 | each statistic's slice takes the last fitting column of that name; a failing write keeps the old slice |
| LegacyPopulate.LastFitting | functions.py:143-152 | the broadcast cells of the last column of that name whose length fits, or none if no column fits |
| LegacyPopulate.LegacyWritesAreClean | functions.py:134-148 | no written cell is the -99999 sentinel |
| LegacyPopulate.SelectedClean | functions.py:134-135 | every column read is free of the sentinel |
| LegacyPopulate.LegacyWriteDataFrame | functions.py:143-152 | the in-place write loop computes the write-loop specification |
| LegacyPopulate.LegacyPopulateFile | functions.py:123-152 | one iteration writes the file or returns the error that ends the run, before any write of that file |
| LegacyPopulate.LegacyPopulateDataset | functions.py:115-154 | the loop leaves the specified dataset and the first error, if any |
| LegacyPopulate.LegacyPopulateStuck | functions.py:123-152 | once a file has raised, later files change nothing |
| Metadata.SetEncodingsStuck | data/preprocess/functions.py:215-216 | once the coordinate loop raises, it stays raised |
| Metadata.SetDescriptionsStuck | data/preprocess/functions.py:219-221 | once the variable loop raises, it stays raised |
| Metadata.SetEncodingsSucceeds | data/preprocess/functions.py:215-216 | the coordinate loop succeeds exactly when every dimension is a coordinate with a reverse table |
| Metadata.SetEncodingsEffect | data/preprocess/functions.py:215-216 | each dimension's "encoding" is its reverse table; other attributes and coordinates are kept |
| Metadata.SetDescriptionsSucceeds | data/preprocess/functions.py:219-221 | the variable loop succeeds exactly when every key is a variable with a table entry |
| Metadata.SetDescriptionsEffect | data/preprocess/functions.py:219-221 | each statistic's description and units come from its entry; other attributes and variables are kept |
| Metadata.AnnotateCurrent | data/preprocess/functions.py:210-222 | with the current tables it succeeds exactly when the four dimensions are coordinates and every statistic is a variable, and changes only attributes |
| Metadata.WriteEncodings | data/preprocess/functions.py:215-216 | the in-place coordinate loop computes the coordinate-loop specification or reports the failing dimension |
| Metadata.WriteDescriptions | data/preprocess/functions.py:219-221 | the in-place variable loop computes the variable-loop specification or reports the failing variable |
| Metadata.PopulateEncodingsMetadata | data/preprocess/functions.py:210-222 | the whole function computes its specification on the dataset object |
| Transforms.SourceModel | data/preprocess/functions.py:226-227 | each sorted model label is found at a position of the old axis holding it |
| Transforms.SortByModelAxes | data/preprocess/functions.py:224-228 | the model axis becomes an ascending permutation of itself; nothing but it and the rows changes |
| Transforms.ReorderModelShape | data/preprocess/functions.py:227 | re-reading a full array along a permutation of the model axis gives a full array |
| Transforms.ReorderModelAt | data/preprocess/functions.py:227 | a re-read row is the old row of the label's position |
| Transforms.SortByModelKeepsShape | data/preprocess/functions.py:224-228 | sorting keeps the dataset well shaped |
| Transforms.SortByModelAt | data/preprocess/functions.py:224-228 | every row moves together with its model label |
| Transforms.CrosswalkTable | data/preprocess/functions.py:242 | the dict's keys are exactly the paired keys |
| Transforms.ZipLength | data/preprocess/functions.py:242 | `zip` stops at the shorter column |
| Transforms.CrosswalkTableLastWins | data/preprocess/functions.py:242 | a repeated key maps to its last pair's value |
| Transforms.CrosswalkEffect | data/preprocess/functions.py:241-245 | the id axis keeps its length; unmapped ids become None, mapped ids their last pair's value; nothing else changes |
| Transforms.Positions | data/preprocess/functions.py:252 | the selected positions are exactly the true ones, ascending |
| Transforms.Keep | data/preprocess/functions.py:252 | `sel` with a mask keeps the selected elements in order |
| Transforms.Mask | data/preprocess/functions.py:252 | the `isin` mask marks exactly the ids in the shapefile's list |
| Transforms.KeepRowsShape | data/preprocess/functions.py:252 | cutting every row of a full array keeps it full and cell-wise taken from the old rows |
| Transforms.SelectIds | data/preprocess/functions.py:248-256 | the clip keeps exactly the listed ids, in original order; nothing but the id axis and the rows changes |
| Transforms.SelectKeepsShape | data/preprocess/functions.py:248-256 | the clip keeps the dataset well shaped and cuts every row at the kept positions |
| Transforms.ClipKinds | data/preprocess/functions.py:248-256 | "seg" reads seg_id_nat, "hru" reads hru_id_nat, and any other type falls through to None |
| RasdamanStrings.Strs | data/hydrograph_preprocessing/convert_strings_for_rasdaman.py:138 | `str` of each value keeps the count |
| RasdamanStrings.CreateEncodingMapping | data/hydrograph_preprocessing/convert_strings_for_rasdaman.py:49-60 | the distinct values are strictly sorted and exactly those of the input |
| RasdamanStrings.EncodingMappingInverse | data/hydrograph_preprocessing/convert_strings_for_rasdaman.py:49-60 | the encoding and reverse maps are exact inverses over 0..k-1 and the input's values |
| RasdamanStrings.ConvertStringDimensions | data/hydrograph_preprocessing/convert_strings_for_rasdaman.py:63-103 | the loop computes the conversion specification, skipping missing dimensions |
| RasdamanStrings.ConvertOneEffect | data/hydrograph_preprocessing/convert_strings_for_rasdaman.py:77-99 | a converted coordinate holds integer positions that decode to the original values, with encoding, dtype and description attributes; others are untouched |
| RasdamanStrings.ConvertAllEffect | data/hydrograph_preprocessing/convert_strings_for_rasdaman.py:63-103 | every requested dimension is converted, others unchanged, none added or removed |
| RasdamanStrings.Recover | data/hydrograph_preprocessing/convert_strings_for_rasdaman.py:139-140 | recovery keeps the count, and fails where `int()` or the lookup raises |
| RasdamanStrings.VerifyConversion | data/hydrograph_preprocessing/convert_strings_for_rasdaman.py:106-150 | the loop reports each dimension's check, stopping at an exception |
| RasdamanStrings.CheckAllStuck | data/hydrograph_preprocessing/convert_strings_for_rasdaman.py:110-150 | once a check raised, later dimensions add nothing |
| RasdamanStrings.RoundTrip | data/hydrograph_preprocessing/convert_strings_for_rasdaman.py:63-150 | verifying a conversion reports every converted present dimension as recoverable and every absent one as skipped |
| IngestManifest.Put | data/rasdaman/build_ingest_json.py:52 | dict assignment keeps an existing key's place and appends a new one |
| IngestManifest.AsMap | data/rasdaman/build_ingest_json.py:50-57 | the dict read as a map has its keys |
| IngestManifest.PutEffect | data/rasdaman/build_ingest_json.py:52 | assignment changes one key's value and nothing else |
| IngestManifest.PutFresh | data/rasdaman/build_ingest_json.py:74 | assigning a new key appends one pair |
| IngestManifest.AsMapAt | data/rasdaman/build_ingest_json.py:50-57 | with distinct keys the map holds every pair |
| IngestManifest.InvertedIsInverse | data/rasdaman/build_ingest_json.py:56-57 | with distinct codes, the reversed table sends every code back to its label, and its keys are exactly the codes |
| IngestManifest.InvertedAt | data/rasdaman/build_ingest_json.py:56-57 | a code no other label shares maps back to its label |
| IngestManifest.InvertedKeys | data/rasdaman/build_ingest_json.py:56-57 | the reversed table's keys are the codes |
| IngestManifest.Invert | data/rasdaman/build_ingest_json.py:54-57 | the inner loop computes the reversed table |
| IngestManifest.BuildEncodingDict | data/rasdaman/build_ingest_json.py:50-57 | the two loops compute the encodings part or the missing-units error |
| IngestManifest.UnitsPartStuck | data/rasdaman/build_ingest_json.py:51-52 | once a statistic lacks units, the loop has raised |
| IngestManifest.UnitsPartSucceeds | data/rasdaman/build_ingest_json.py:51-52 | the units loop succeeds exactly when every statistic has units |
| IngestManifest.UnitsPartContents | data/rasdaman/build_ingest_json.py:51-52 | one entry per statistic, its units |
| IngestManifest.DimsPartContents | data/rasdaman/build_ingest_json.py:53-57 | each dimension holds its own reversed table; other keys are kept |
| IngestManifest.EncodingDictContents | data/rasdaman/build_ingest_json.py:50-57 | statistics map to units and dimensions to the exact inverse of their tables; a dimension overrides a same-named statistic |
| IngestManifest.BuildBands | data/rasdaman/build_ingest_json.py:61-64 | one band per statistic, in key order, nil value -9999.0 |
| IngestManifest.Without | data/rasdaman/build_ingest_json.py:71 | the list without any occurrence of an element is no longer than the list and lacks it |
| IngestManifest.GeomIdLastShape | data/rasdaman/build_ingest_json.py:69-71 | the axis order exists exactly when geom_id is a dimension and is a permutation ending in it |
| IngestManifest.GeomIdLastKeepsOrder | data/rasdaman/build_ingest_json.py:69-71 | other dimensions keep their relative order and stay distinct |
| IngestManifest.BuildAxes | data/rasdaman/build_ingest_json.py:66-81 | the axes loop with its counter computes the axes fold |
| IngestManifest.AxesInGridOrder | data/rasdaman/build_ingest_json.py:73-81 | distinct dimensions get axes in order with grid positions 0..n-1 |
| IngestManifest.TargetOf | data/rasdaman/build_ingest_json.py:35-42 | a target exists exactly for "seg" and "hru" |
| IngestManifest.BuildIngest | data/rasdaman/build_ingest_json.py:31-120 | the script computes its manifest or the first error |
| IngestManifest.IngestOutcome | data/rasdaman/build_ingest_json.py:31-81 | it fails exactly for missing units, no geom_id or an unknown type, reported in that order |
| IngestManifest.IngestParts | data/rasdaman/build_ingest_json.py:61-81 | a manifest has one band per statistic and the axes of the reordered dimensions |
| IngestManifest.AxesOfDimensions | data/rasdaman/build_ingest_json.py:66-81 | one axis per dimension, geom_id last, grid positions 0..n-1 |
| IngestManifest.Unquoted | data/rasdaman/build_ingest_json.py:126-127 | exactly the strings equal to the word lose their quotes |
| IngestManifest.ReplaceQuoteFree | data/rasdaman/build_ingest_json.py:126-127 | text without the quote character is left as is |
| IngestManifest.ReplaceOnePass | data/rasdaman/build_ingest_json.py:126 | one `replace` over JSON text, whose strings may hold escaped quotes, unquotes exactly the strings equal to the word |
| IngestManifest.NoMatchInString | data/rasdaman/build_ingest_json.py:126 | the quoted word does not start inside or at the quotes of another string with escaped quotes, unless that string ends in an escaped quote and the word |
| IngestManifest.CrsTextIsEscaped | data/rasdaman/build_ingest_json.py:105 | the crs value, as `json.dumps` writes it, has every quote escaped and ends in a quote |
| IngestManifest.CrsLineIsJsonLike | data/rasdaman/build_ingest_json.py:105 | the manifest's crs line is JSON text that neither `replace` corrupts |
| IngestManifest.UnquoteBooleansEffect | data/rasdaman/build_ingest_json.py:124-127 | in `json.dumps` text, every quoted "true" and "false" loses its quotes and the rest is left as it was, provided no string ends in an escaped quote followed by one of the words |
| Climatology.FilenameFieldsSpec | data/hydrograph_preprocessing/process_streamflow_climatology.py:105-127 | fields 0-2 of the lower-cased name, "unknown" exactly when too few underscores; each is lower case and `_`-free |
| Climatology.OccurrencesLower | data/hydrograph_preprocessing/process_streamflow_climatology.py:108 | lower-casing keeps the underscores |
| Climatology.FlowColumns | data/hydrograph_preprocessing/process_streamflow_climatology.py:139 | the flow columns omit "Date" |
| Climatology.FlowColumnsKeepsOthers | data/hydrograph_preprocessing/process_streamflow_climatology.py:139 | every other column is kept |
| Climatology.ParseAll | data/hydrograph_preprocessing/process_streamflow_climatology.py:148 | `int()` of every column succeeds exactly when each parses, giving each value |
| Climatology.StreamIds | data/hydrograph_preprocessing/process_streamflow_climatology.py:128-150 | the chunked loop gives every flow column as an int, in order; it fails for a missing "Date" column, a non-positive step, no flow columns or a non-integer column |
| Climatology.ChunksCover | data/hydrograph_preprocessing/process_streamflow_climatology.py:201-203 | the chunks are non-empty, at most a step long, and visit 0..n-1 once, in order |
| Climatology.ChunkedStats | data/hydrograph_preprocessing/process_streamflow_climatology.py:201-217 | the chunked statistics equal the statistic of every stream, in order; no chunks raises |
| Climatology.ErasFor | data/hydrograph_preprocessing/process_streamflow_climatology.py:179-188 | the historical window for a historical run, else the three projection windows |
| Climatology.EraLabels | data/hydrograph_preprocessing/process_streamflow_climatology.py:179-188 | the labels 1976-2005, 2016-2045, 2046-2075, 2071-2100 |
| Climatology.ComputeClimatology | data/hydrograph_preprocessing/process_streamflow_climatology.py:173-230 | one entry per era, labelled by its years, holding the statistic of every stream |
| TestStreams.EntryContents | data/tests/test_functions.py:46 | a record has the two name keys and the stream's keys, the stream's values winning |
| TestStreams.StreamsOf | data/tests/test_functions.py:45-47 | one record per stream |
| TestStreams.ReformatTestStreams | data/tests/test_functions.py:32-48 | the three loops compute the flattening, or raise for a subregion without streams |
| TestStreams.FlattenStuck | data/tests/test_functions.py:45 | a subregion without "streams" makes the whole call raise |
| TestStreams.FlattenLength | data/tests/test_functions.py:42-48 | one record per stream of the table |
| TestStreams.FlattenConcat | data/tests/test_functions.py:43-48 | records come region by region: a split table flattens to the two parts' records in order |
| TestStreams.FlattenEntries | data/tests/test_functions.py:42-48 | every record is a stream record with its region and subregion names |
| TestStreams.SubregionEntry | data/tests/test_functions.py:44-47 | every record of a region is one of its subregions' streams |
| TestStreams.FetchModeled | data/tests/test_functions.py:51-66 | both landcover types, every series empty |
| TestStreams.FetchObserved | data/tests/test_functions.py:69-80 | every series empty |
| TestStreams.ComparativeStatistics | data/tests/test_functions.py:125-138 | the three scores are 0 |

## Left out

- File I/O is not modelled: reading CSV, Parquet and shapefiles, and writing netCDF and JSON. A CSV is given as the table `read_csv` returns, and a shapefile as its two id columns.
- `str()`, `eval` and `json.dumps` serialisation are not modelled. Attribute values hold the tables they print. The manifest's encoding and statistics dictionaries are taken as already parsed. The JSON text is modelled only as tokens for the final `replace` calls.
- Text.ToLower: only the ASCII letters A-Z are folded. Python's Unicode case mapping, which also folds other letters and can lengthen a string ('İ' becomes two code points), is not modelled. Climatology.FilenameFields and Climatology.ErasFor inherit this.
- IngestManifest.UnquoteBooleansEffect: states the effect for JSON text as `json.dumps` writes it (quote-free punctuation and layout, strings whose inner quotes are escaped, each followed by punctuation), which includes the crs string and the doubly dumped "Encoding" value. It excludes text in which a string's own content ends in a quote followed by `true` or `false` (written `\"true`): there the script's `replace` also removes that escaped quote and the closing one, corrupting the string, and the model does not state what it then produces.
- The constant parts of the ingest dictionary (config, recipe, crs) are not modelled.
- Floating point is not modelled. Cells are `Missing` or a real value, and `convert_to_float32` (data/preprocess/functions.py:230-238) is left out because rounding to float32 is not expressible here.
- Climatology.ComputeClimatology: the day-of-year min, mean and max and the date slicing of an era are the parameter `stat`. The final `xr.concat` along "era" is not modelled.
- Climatology.StreamIds: `int()` is modelled as an optional sign and decimal digits. Python's forms with whitespace or underscores are not accepted.
- `assign_attrs` returns a copy. The model sets the attributes on the same object, which is what the caller sees after rebinding `ds`.
- Duplicate column names in a CSV and `.sel` with repeated coordinate values are not modelled. The write takes the last column of a name, and `.loc` selects the first matching position.
- `data_source_dict` and `gcm_metadata_dict` (data/preprocess/luts.py:450-500) are held as opaque attribute values. Their text is not modelled.
- TestStreams.EntryContents: the order of keys in the flattened record is not modelled; a record is a map.
- Plotting and placeholder functions that return None are not modelled: `run_test_suite`, `plot_hydrograph`, `plot_stream_map`, `print_summary_statistics`.
- `print` and logging output are not modelled, except the excluded count of `filter_files`.
- Command-line mains and argument parsing are not modelled.
- Not part of this model:
  - the SLURM scripts;
  - `qc_combined_netcdf`;
  - `data/hydrograph_preprocessing/luts.py`;
  - the web application;
  - `data/build_ingest_json.py`.
