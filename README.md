# COVID-19 hospitalization reshape pipeline, in Dafny

This project models the table transforms of the notebook
`notebooks/covid_eda_modular.py`. The notebook downloads Our World in Data's
COVID-19 hospitalization CSV, which has one long record per
(country, date, indicator) with a value. It then reshapes the data in four steps:

1. `filter_country` keeps one country's records, in their original order.
   The default country is `"USA"`.
2. `pivot_and_clean` fills missing values with a constant and pivots the
   records into a wide table. The table has one row per date and one column per indicator.
3. `clean_spark_cols` replaces every space in the column names with `_`,
   so that Delta Lake accepts them.
4. `index_to_col` copies the date index into a column of its own.

The notebook calls these steps once each, with Algeria (`"DZA"`), fill `0` and column `"date"`.

Files:

- `wrappers.dfy`: module `Wrappers`, the `Option` type used for cells that may be missing.
- `string_order.dfy`: module `StringOrder`, the order in which pandas sorts
  string keys (Python `str` comparison, code point by code point). It also has
  `SortedDistinct`, which turns a key list into its sorted, duplicate-free list.
  `pivot_table` sorts both its index and its columns with this order.
- `covid_eda.dfy`: module `CovidEda`. It holds:
  - the long record, `Cell` and `Table` types;
  - the four transforms and their lemmas;
  - the class `Frame`, the wide frame that the last two transforms update in place;
  - `Pipeline`, the notebook's composition of the four steps.

Modelling choices:

- The long table is a sequence of `LongRecord` values. Only the fields that
  the transforms read are kept: `iso_code`, `date`, `indicator` and `value`.
  A value is an already parsed `Option<int>`, where `None` means an empty cell.
- Selecting rows with a boolean mask (line 28) builds a new frame, so
  `FilterCountry` is a function.
- The wide table is a `Frame` object with three fields: `index`, `columns`,
  and `values` (the cells, row by row). `clean_spark_cols` and `index_to_col`
  update that object in place and return it, so they are methods with
  `modifies this` whose `ensures` say `same == this`.
- Their new state is given by the pure functions on `Table`: `RenameColumns`,
  `WithIndexColumn` and `SetColumn`. The lemmas are proved about those functions.
- A cell is `Num(n)`, `NaN`, or `Text(s)`. `Text(s)` holds the date strings
  that `index_to_col` copies into the table.

The notebook's comment at line 32 says "Pivot by indicator, and fill missing
values", but line 35 fills the long records before it pivots. A (date,
indicator) pair that no record carries therefore still leaves `pivot_table`
with a missing cell. The model follows the code: `PivotMissingCell` states
that case.

`PivotNoEmptyRow` and `PivotNoEmptyColumn` prove that every row and every
column of the pivot holds at least one number. So `pivot_table`'s dropping of
all-missing rows and columns never removes anything here.

## Model

| member | source | states |
|---|---|---|
| `CovidEda.FilterCountry` | notebooks/covid_eda_modular.py:27-29 | every kept row has the requested `iso_code`; a record is in the result exactly when it is in the input with that code; the result is no longer than the input |
| `CovidEda.FilterCountryDefault` | notebooks/covid_eda_modular.py:27 | called without a country, the filter keeps exactly the `"USA"` rows |
| `CovidEda.FilterIsMaskSelection` | notebooks/covid_eda_modular.py:28 | the result is the input read at strictly increasing positions, and those positions are exactly the ones whose row has the requested code: an order-preserving subsequence that holds every matching row |
| `CovidEda.FilteredDates` | notebooks/covid_eda_modular.py:28 | a date occurs among the filtered records exactly when some input record of that country carries it |
| `CovidEda.FilterAbsentCountry` | notebooks/covid_eda_modular.py:28 | a code that no row carries gives an empty result, not an error |
| `CovidEda.FillMissing` | notebooks/covid_eda_modular.py:35 | `fillna` keeps the number of records and their country, date and indicator; afterwards no value is missing; a present value is kept and a missing one becomes the fill constant |
| `CovidEda.FillKeepsPairs` | notebooks/covid_eda_modular.py:35 | filling keeps the (date, indicator) pairs unique, and a pair occurs after filling exactly when it occurred before |
| `CovidEda.Pivot` | notebooks/covid_eda_modular.py:35-36 | the wide table is rectangular; its row keys are exactly the distinct input dates and its columns exactly the distinct indicators, each strictly ascending (so without repeats) |
| `CovidEda.PivotCellValue` | notebooks/covid_eda_modular.py:35-36 | when (date, indicator) pairs are unique, the cell at a record's date and indicator is that record's value, or the fill constant where the value was missing |
| `CovidEda.PivotMissingCell` | notebooks/covid_eda_modular.py:35-36 | a cell is missing exactly when no record carries its (date, indicator) pair |
| `CovidEda.PivotKeysDistinct` | notebooks/covid_eda_modular.py:35-36 | no date labels two rows of the pivot and no indicator labels two columns |
| `CovidEda.PivotNoEmptyRow` | notebooks/covid_eda_modular.py:35-36 | every row of the pivot holds a number, so dropping all-missing rows removes nothing |
| `CovidEda.PivotNoEmptyColumn` | notebooks/covid_eda_modular.py:35-36 | every column of the pivot holds a number, so dropping all-missing columns removes nothing |
| `StringOrder.SortedDistinct` | notebooks/covid_eda_modular.py:35-36 | the pivot's key list is strictly ascending in string order and holds exactly the keys of its input |
| `StringOrder.Insert` | notebooks/covid_eda_modular.py:35-36 | adding a key to a strictly ascending key list keeps it strictly ascending, adds exactly that key, and leaves the list as it was when the key is already there |
| `CovidEda.ReplaceSpaces` | notebooks/covid_eda_modular.py:43 | the renamed name has the same length; each space becomes `_` and every other character stays at its position |
| `CovidEda.ReplaceSpacesExample` | notebooks/covid_eda_modular.py:43 | the column name `new cases` becomes `new_cases`, and `deaths` stays as it is |
| `CovidEda.ReplaceSpacesFixed` | notebooks/covid_eda_modular.py:43 | a name is left unchanged exactly when it contains no space |
| `CovidEda.ReplaceSpacesIdempotent` | notebooks/covid_eda_modular.py:43 | renaming a name twice gives the same as renaming it once |
| `CovidEda.CleanColumns` | notebooks/covid_eda_modular.py:43 | the rename is total and keeps the number and order of columns, each renamed on its own; afterwards no column name contains a space |
| `CovidEda.CleanColumnsIdempotent` | notebooks/covid_eda_modular.py:43 | cleaning the column names twice gives the same as cleaning them once |
| `CovidEda.RenameColumns` | notebooks/covid_eda_modular.py:42-44 | only the column names change: the index and every cell are untouched, each column keeps its position and gets its own name with spaces replaced, none has a space, and the table stays rectangular |
| `CovidEda.SetColumn` | notebooks/covid_eda_modular.py:49 | `df[name] = col` overwrites every column called `name`, or appends one at the end when there is none; the index and the cells of all other columns stay as they were |
| `CovidEda.WithIndexColumn` | notebooks/covid_eda_modular.py:48-50 | afterwards every column named `colname` holds each row's own index key; the column names are the old ones when `colname` was among them, and otherwise the old ones followed by `colname`; the index and the other columns' cells are unchanged |
| `CovidEda.IndexColumnKeepsNamesClean` | notebooks/covid_eda_modular.py:55-56 | adding a column with a space-free name after the rename leaves no column name with a space |
| `CovidEda.Frame.PivotAndClean` | notebooks/covid_eda_modular.py:33-38 | builds a new well-formed frame holding the pivot of the records |
| `CovidEda.Frame.CleanSparkCols` | notebooks/covid_eda_modular.py:42-44 | renames the frame's columns in place and returns the same frame; index and cells are unchanged, the number of columns is kept, and no name has a space |
| `CovidEda.Frame.IndexToCol` | notebooks/covid_eda_modular.py:48-50 | adds or overwrites column `colname` in place and returns the same frame; the index is unchanged and that column holds each row's index key |
| `CovidEda.Pipeline` | notebooks/covid_eda_modular.py:53-56 | runs filter on `"DZA"`, pivot with fill 0, rename, then the `date` column, in that order, on one fresh frame |
| `CovidEda.PipelineIndex` | notebooks/covid_eda_modular.py:53-56 | the table the notebook stores has one row per date observed for Algeria, strictly ascending |
| `CovidEda.PipelineColumns` | notebooks/covid_eda_modular.py:53-56 | that table has a `date` column holding each row's date, and no column name contains a space |
| `CovidEda.PipelineAbsentCountry` | notebooks/covid_eda_modular.py:53-56 | when no record is Algerian, the result has no rows and only the `date` column, and no error is raised |
| `CovidEda.PipelineExample` | notebooks/covid_eda_modular.py:53-56 | Algerian records `cases = 5` and `deaths` missing on 2021-01-01 give the single row `cases 5, deaths 0, date "2021-01-01"` |

## Left out

- The CSV download (`pd.read_csv` on a URL, lines 18 and 52) and the `print` at line 19: network and console I/O. The model starts from the records already read.
- The Spark conversion, the `display` calls, the Delta Lake `saveAsTable` with overwrite and `spark.table` (lines 58, 60, 71, 81): calls into a platform that is not part of this model.
- The matplotlib plot (line 86): user interface.
- Parsing text into numbers in `pd.to_numeric` (line 34), and the conversion error it raises on text that is not a number: values arrive already parsed as `Option<int>`.
- Frame.PivotAndClean: does not model line 34's in-place write to the caller's `value` column. With values already parsed, `to_numeric` gives each value back as it was, so the caller's records are left unchanged.
- `pivot_table`'s default mean over duplicate (date, indicator) pairs: this is floating-point averaging. `Pivot` requires the pairs to be unique instead.
- Floating point: pandas holds the wide cells as floats. The model holds integers, so it does not capture rounding or the integer-to-float conversion.
- Missing country codes, dates or indicators: a missing `iso_code` never equals the country, so line 28 drops the record. A missing `date` or `indicator` is replaced with the fill constant by the frame-wide `fillna` at line 35, and becomes a pivot key of its own (`0` in the notebook). Here these fields are always present strings.
- CSV columns that no transform reads, such as `entity`: the pivot drops them.
- The names pandas gives the index and the columns axis (`date`, `indicator`): metadata that no transform reads.
