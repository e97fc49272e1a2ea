# Inspection characteristics: tolerance flag, table ingestion and summary

A Dafny model of the data layer of a dimensional-inspection tool
(`karakter_view.py`). Rows of a drawing's inspection table, read from a Word
document, become *characteristic* records (`TeknikResimKarakteri`): an item
number, a dimension callout, the tool used, an optional measured value, and
four fields derived by a tolerance-notation parser (notation family, nominal,
upper and lower limit). Each record carries an out-of-tolerance flag that an
automatic compliance check can set and that the operator can toggle.

The model has seven modules:

- `Characteristic` (`characteristic.dfy`): the record; the compliance check as
  a pure transition `(record, parsed value) -> (compliant, status, record')`;
  the toggle; the status text. The check's status messages are tags that carry
  the limits the messages print.
- `WordTables` (`word_tables.dfy`): the fixed eight-column header and the
  padding/truncation of the extracted rows.
- `DataProcessor` (`data_processor.dfy`): frame rows (a map from column name to
  cell, where a cell is text or one of pandas' missing markers) turned into
  records, plus the end-to-end ingestion of one table.
- `Summary` (`summary.dfy`): the per-tool histogram, kept in order of first
  appearance like a Python dictionary, and the tolerance tallies.
- `Text` (`text.dfy`): Python's `str.strip()`, `replace(',', '.')` and the
  blank-cell test.
- `Filtering` (`filtering.dfy`): a generic order-preserving filter used by
  the row conversion, and counting the elements that pass a test.
- `Options` (`options.dfy`): the optional value, standing for Python's
  `Optional` and for a `None` result.

Three things outside the model are function parameters:

- the tolerance-notation parser `OlcuYakalayici.isle`, as
  `parse: string -> Option<ParsedResult>`;
- Python's `float()`, as `parseFloat: string -> Option<real>`, where None
  stands for a `ValueError`;
- the Word table reader, whose output is the `extracted` argument.

## Model

| member | source | states |
|---|---|---|
| Characteristic.NewCharacteristic | karakter_view.py:10-30 | a new record keeps the given item number, dimension and tool and takes the declared defaults: empty remarks, B/P zone and badge, inspection level "100%", no measured value, no parsed dimension, tolerance type, nominal or limits, flag cleared |
| Characteristic.CheckCompliance | karakter_view.py:33-73 | only the flag can change, and it is never cleared; afterwards it is set exactly when it was set before or the value violates an existing limit; both limits give `lower <= v <= upper`, upper only gives `v <= upper`, lower only gives `v >= lower`, whatever the prior flag; no limits or a non-numeric value give the negated flag with the matching status; the "could not check" fallback is never reached |
| Characteristic.CheckComplianceText | karakter_view.py:38-71 | on the raw text, after comma-to-dot replacement and number parsing: only the flag changes, and afterwards it is set exactly when it was set before or the number violates an existing limit; with a number and at least one limit the verdict is "not below the lower limit and not above the upper limit"; with a number and no limit, or with text the parser rejects, the record stays as it was and the verdict is the negated flag, reported as "no limit" or "non-numeric" |
| Characteristic.BoundRuleIsInterval | karakter_view.py:51-67 | when at least one limit exists, the three-way bound rule accepts exactly the values that are not below an existing lower limit and not above an existing upper limit |
| Characteristic.UncheckableKeepsMarking | karakter_view.py:46-71 | without limits or without a number the record is unchanged and the verdict is the negation of the operator's marking |
| Characteristic.CheckIdempotent | karakter_view.py:50-67 | checking the same value again gives the same verdict and status and changes nothing further |
| Characteristic.Toggle | karakter_view.py:75-77 | the flag is negated and every other field is unchanged |
| Characteristic.ToggleInvolution | karakter_view.py:75-77 | toggling twice gives back the original record |
| Characteristic.ClearedFlagSurvivesCompliantCheck | karakter_view.py:51-77 | a flag the operator clears stays cleared through a later check of a compliant value |
| Characteristic.ToleranceStatusText | karakter_view.py:80-87 | "out of tolerance" exactly when flagged, whatever the tolerance type; otherwise "toleranced(type)" exactly when the type is a non-empty string; otherwise "no tolerance defined" |
| Characteristic.CheckAllFlag | karakter_view.py:53-66 | over any series of checks, only the flag changes, and it ends set exactly when it started set or some value violated the limits |
| Characteristic.FlagIsSticky | karakter_view.py:53-87 | a flagged record reports "out of tolerance" after any series of checks |
| WordTables.PadRow | karakter_view.py:121-126 | every padded row has exactly eight cells; the first `min(len(row), 8)` are the row's own, and the rest are empty strings |
| WordTables.PadRowFixesFullRows | karakter_view.py:123-125 | a row of exactly eight cells is unchanged |
| WordTables.PadRowIdempotent | karakter_view.py:123-125 | padding a padded row changes nothing |
| WordTables.FromWordTables | karakter_view.py:109-126 | fewer than two extracted rows give no rows; otherwise the header row is dropped, and there is one padded eight-cell row per data row, in order, holding its cells and then empty strings |
| Text.StripCharacterised | karakter_view.py:159-172 | `strip()` removes only whitespace, from both ends; the text it keeps starts and ends with non-whitespace; the result is empty exactly when the input is all whitespace |
| Text.StripIdempotent | karakter_view.py:159-172 | stripping a stripped text changes nothing |
| Text.ReplaceCommas | karakter_view.py:40 | same length, no comma left, every comma becomes a dot and every other character is kept |
| DataProcessor.ActualOf | karakter_view.py:165-172 | the measured value is absent exactly when its stripped text is empty, `'nan'` or `'None'`; otherwise it is that stripped, non-empty text |
| DataProcessor.RowToRecord | karakter_view.py:156-215 | a row gives a record exactly when its stripped item number and dimension are both non-blank; the record holds the stripped cells (column defaults when a column is missing), is not flagged, and holds the parser's format, nominal and limits, or no derived fields when the parser returns nothing |
| DataProcessor.ProcessDataFrame | karakter_view.py:142-224 | one record per kept row, never more records than rows; the record of kept row `i` is at the position given by the number of kept rows before `i`, so input order is preserved |
| DataProcessor.RecordPositions | karakter_view.py:156-215 | the converted frame has one record per kept row, and the record of each kept row is at the position given by the number of kept rows before it |
| DataProcessor.RecordOrigin | karakter_view.py:174-215 | every record is the conversion of some kept row |
| DataProcessor.RecordsNonBlank | karakter_view.py:174-215 | every converted record has a non-blank item number and dimension and is not flagged |
| DataProcessor.RowFromCells | karakter_view.py:131 | the frame row of a padded row maps each header to the cell in the same position |
| DataProcessor.PaddedRowKept | karakter_view.py:119-181 | after padding, a table row is kept exactly when it has an item number cell and a dimension cell, both non-blank once stripped |
| DataProcessor.CountKeptPadded | karakter_view.py:119-181 | the number of kept frame rows equals the number of usable table rows |
| DataProcessor.PaddedPositions | karakter_view.py:119-215 | the record of each usable table row is the conversion of its padded frame row and sits at the number of usable rows before it |
| DataProcessor.Ingest | karakter_view.py:101-224 | reading a table and converting it gives no records for fewer than two extracted rows; otherwise one record per usable data row, in table order: the record of the `j`-th usable data row is the conversion of its padded frame row and sits at position `j`; every record has a non-blank item number and dimension and starts unflagged |
| Summary.ToolHistogram | karakter_view.py:236-239 | the tool counts have one entry per distinct tool, ordered by first appearance; each entry counts that tool's occurrences; every tool has an entry; the counts add up to the number of records |
| Summary.HistogramCorrect | karakter_view.py:236-240 | counting the tools one after another in a dictionary gives the histogram described for `ToolHistogram` |
| Summary.HistogramSize | karakter_view.py:236-248 | the number of histogram entries is the number of different tools |
| Summary.GetSummary | karakter_view.py:230-254 | the "no data" message exactly when there are no records; otherwise the total; the tool histogram as above, whose counts sum to the total; the number of different tools; the parsed count (records with a non-empty tolerance type), which is at most the total; the flagged count; and the not-toleranced count, which is total minus parsed and also the number of records without a tolerance type |

## Left out

- Tolerance-notation parsing (`OlcuYakalayici.isle`, `services/olcu_parser.py`, imported at karakter_view.py:7) is not part of this model. It is a function parameter returning an optional result with an optional format, nominal, upper limit and lower limit. An empty result dictionary is falsy in Python, so it counts as no result here. `OlcuYakalayici.isle` returns either None or the dictionary of the first format that matches (services/olcu_parser.py:478-482), and every format's dictionary has a `format` key, so it is never empty.
- Number parsing (`float()`) is a function parameter. NaN and infinities are not modelled, so comparisons with NaN are not covered.
- Word document reading (`word_reader.extract_tables`) and the pandas DataFrame are left out. A frame is a sequence of rows, and each row maps a column name to a cell.
- `df.empty` (karakter_view.py:148-150) is not a separate branch in the records returned. A frame without rows gives no records through the loop anyway. A frame without columns makes every row fail the item-number test.
- Every `print` call is left out. So are the formatted message strings; the status messages are tags that carry the limits they print.
- The `except Exception` paths (karakter_view.py:138-140, 210-213, 218-220, 226-228) are left out. None of the modelled steps can raise. A parser failure is the parser returning None.
- The `hasattr` tests (karakter_view.py:43-44) are always true for this record, so they are not modelled.
- `DataProcessorService` keeps its results in `self.processed_data`. The model passes the record list to `GetSummary` directly.
- GetSummary: the stored record list is not modelled. It is set only at the end of a successful pass (karakter_view.py:222). The empty-frame return (karakter_view.py:148-150) and the exception return (karakter_view.py:226-228) skip that step. So after a table that gave records, processing an empty or failing frame leaves the earlier records stored, and `get_summary` (karakter_view.py:232) goes on reporting them. The model summarises whatever list it is given, and gives `NoData` for an empty list.
- `check_tolerance_compliance` is called with a string. Calling it with None would raise `AttributeError` at `replace`, and the model does not cover that.
- The `parsed_dimension` field stores only the four fields the record uses, not the parser's whole dictionary.
