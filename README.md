# laravel-exports, modelled in Dafny

This project models the core of the `laravel-exports` package, which exports Eloquent query
results to CSV and XLSX files:

- **Column value resolution.** An `ExportColumn` with a dotted name such as `author.posts.title`
  walks the relations of the record. It collects the related records, fanning out over every
  collection it meets. It then plucks the attribute and shapes the cell state: blank values are
  dropped, the list is made distinct, and the result collapses to null, a scalar or a list. The
  state setting applies first, then the separator splits a string, then the default fills in a
  blank result. The column also derives its label from its name and adds its relationship to a
  query's eager loads.
- **Export planning.** `ExportManager::start` counts the rows and enforces the row limit. It
  settles the column map and creates and saves the `Export` record twice. Between the saves it
  clears the export's directory on its disk. It then plans the job chain for the requested
  formats.
- **Row building.** `Exporter::__invoke` turns one record into one row: one formatted cell per
  column-map key, from a name-indexed cache of the declared columns.
- **The export record and its completion job.** The record's counters, its failed-row count, its
  progress and its file directory. `ExportCompletion::handle` marks the export completed and
  notifies an authenticatable creator.
- **The CSV download.** The streamed body is the headers file followed by every CSV shard in
  listing order.
- **The two enums.** `ExportFormat` (token, extension, MIME type, downloader) and `ExportStatus`.

Modules follow the source files:

| module | file | models |
|---|---|---|
| `Values`, `Knobs` | values.dfy | PHP values, Eloquent records with loaded relations, `blank`/`filled`, and value-or-closure settings with `evaluate` |
| `CellState` | has_cell_state.dfy | `HasCellState`'s relationship-path walkers |
| `ColumnState` | column_state.dfy | the pure pipeline behind `getStateFromRecord`, `getState`, `getLabel` and `applyEagerLoading` |
| `Exporting` | exporter.dfy | the `ExportColumn` and `Exporter` classes |
| `ColumnMaps` | column_map.dfy | PHP's ordered `array<string,string>` column map and the default map |
| `Manager` | export_manager.dfy | `ExportManager` and `start()` |
| `ExportRecords` | export_model.dfy | the `Export` model and its table |
| `Storage` | storage.dfy | a filesystem disk |
| `Completion` | export_completion.dfy | the completion job |
| `Downloads` | csv_downloader.dfy | `CsvDownloader` and `Export::download` |
| `ExportFormats`, `ExportStatuses` | export_format.dfy, export_status.dfy | the two enums |

`Strings` and `Wrappers` hold the PHP string functions (`explode`, `implode`, `trim`,
`Str::kebab`, …) and the `Option`/`Result` types.

Some objects change in place in the source: columns and exporters through their fluent setters,
the manager, the export record, the table it is saved to, disks, and the event log. These are
Dafny classes, and their methods carry `modifies` clauses. The loops of the source are methods
with loop invariants, proved equal to a specification function. The lemmas state the
properties of those functions.

Modelling decisions:

- **The record graph** is fully materialised. A relation that is not loaded reads as null, and
  lazy loading is not modelled. A schema gives each model class its attributes and its relations
  with their related class.
- **`isRelation($key)`** holds when the class declares a relation method of that name. Method
  names are PHP identifiers, so a segment that is not an identifier is never a relation. This
  keeps `implode(...) ?: null` from meeting the falsy string `"0"`.
- **Plain setting or closure.** Each such setting is a `Knob`: `Literal(v)` or `Computed(f)`,
  where `f` receives the context the container would inject. A column's context is its
  exporter's current record and options.
- **Files that are not shown** become parameters. `getFormattedState` (`CanFormatState`) is the
  `format` parameter of `Exporter.Invoke`.
- **I/O becomes parameters.** The current time (`time()`, `now()`) is a `now` parameter. The
  database is a `Table` object and the configured disks are a `map<string, Disk>`. The model
  leaves the order of a disk's `files()` listing open (Laravel's adapter sorts it by path, which
  is why shard names are zero-padded); every contract holds for any order.
- **Disk states.** A `Disk` may hold any files and directories. The invariant of a real
  filesystem, that every directory a file lies under exists, is `Disk.Valid()`. Deleting a
  directory preserves it, and on a valid disk `deleteFileDirectory` leaves no file of the
  export's directory behind.
- **A fresh export's key.** `Eloquent::save` assigns the next key of the table.
- **The `/` separator.** `DIRECTORY_SEPARATOR` is `/`.

Where the documentation and the code disagree, the model follows the code:

- **`progressPercentage`.** Its docblock promises a value between 0 and 100. The code does not
  clamp it, so the model exceeds 100 when more rows are processed than counted (see
  `ExportRecords.ProgressBounds`).
- **An empty records array** is falsy in PHP. `start()` then counts the query instead of the
  array.
- **A query limit of 0** is falsy, so it caps nothing.
- **The exporter's default disk.** `getFileDisk()` reads `exports.file_disk`
  (src/Exports/Exporter.php:152), but the shipped configuration defines only
  `default_file_disk` (config/exports.php:16). With that configuration the disk is always
  `local` and `EXPORT_FILE_DISK` has no effect; the model's `configured` input of
  `Exporting.DefaultFileDisk` is `None` in that case.

## Model

| member | source | states |
|---|---|---|
| Values.BlankString | src/Exports/ExportManager.php:351-370 | a string is blank exactly when every one of its characters is one `trim` removes |
| Values.BlankIsNotFalsy | src/Exports/ExportManager.php:351-370 | `false`, `0`, `0.0` and `"0"` are filled; a whitespace-only string is blank |
| Knobs.Knob.Evaluate | src/Exports/ExportManager.php:337-344 | a closure is called with the context; anything else is returned as is |
| CellState.Walk | src/Exports/Concerns/HasCellState.php:254-281 | the walk consumes at most the segments it is given |
| CellState.WalkIsLongest | src/Exports/Concerns/HasCellState.php:254-281 | the consumed prefix is a chain of relations, each from the class reached so far and none an attribute, and no longer prefix is one |
| CellState.Consumed | src/Exports/Concerns/HasCellState.php:227-251 | the final segment of a dotted name is never consumed as a relation |
| CellState.LastHopIsLastConsumed | src/Exports/Concerns/HasCellState.php:86-117 | a relation is found exactly when at least one segment is consumed, and it is the last consumed one |
| CellState.HasRelationship | src/Exports/Concerns/HasCellState.php:71-84 | `hasRelationship`; characterised by `HasRelationshipIff` |
| CellState.RelationshipName | src/Exports/Concerns/HasCellState.php:254-281 | `getRelationshipName`; characterised by `NameReconstruction` and `GetRelationshipName` |
| CellState.FullAttributeName | src/Exports/Concerns/HasCellState.php:227-251 | `getFullAttributeName`; characterised by `NameReconstruction` and `FullAttributeNameSegments` |
| CellState.AttributeName | src/Exports/Concerns/HasCellState.php:200-225 | `getAttributeName`; characterised by `FullAttributeNameSegments` |
| CellState.HasMultiple | src/Exports/Concerns/HasCellState.php:119-144 | `hasMultipleRelationship`; characterised by `SingleValuedPath` and `HasMultipleRelationship` |
| CellState.Results | src/Exports/Concerns/HasCellState.php:150-197 | `getRelationshipResults`; characterised by `ResultsOfEachAppend`, `ResultsOfEachMembers` and `SingleValuedPath` |
| CellState.HasRelationshipIff | src/Exports/Concerns/HasCellState.php:71-84 | `hasRelationship` holds exactly when the relationship name is non-null, and exactly when `getRelationship` finds a relation |
| CellState.NameReconstruction | src/Exports/Concerns/HasCellState.php:227-281 | relationship name + "." + full attribute name gives the column name back; with no relationship name, the full attribute name is the column name |
| CellState.FullAttributeNameSegments | src/Exports/Concerns/HasCellState.php:200-251 | the attribute name is the first segment of the full attribute name, whose last segment is the column name's last segment |
| CellState.RelationListIsConsumed | src/Exports/Concerns/HasCellState.php:154 | the relation names followed are exactly the consumed leading segments |
| CellState.ResultsOfEachAppend | src/Exports/Concerns/HasCellState.php:171-179 | fanning out over a collection concatenates the members' results in member order |
| CellState.ResultsOfEachMembers | src/Exports/Concerns/HasCellState.php:171-179 | a record is in the fanned-out results exactly when it is in some member's results |
| CellState.SingleValuedPath | src/Exports/Concerns/HasCellState.php:119-197 | a path with no to-many hop yields at most one record |
| CellState.PostsTitleExample | src/Exports/Concerns/HasCellState.php:200-281 | `posts.title` on a model with a `posts` relation has relationship `posts` and attribute `title` |
| CellState.PostsResultsExample | src/Exports/Concerns/HasCellState.php:119-197 | a loaded `posts` collection makes the column to-many, and its members are the results |
| CellState.PlainNameExamples | src/Exports/Concerns/HasCellState.php:227-281 | `posts.title` on a model without relations keeps the full name; an undotted name has no relationship and is its own attribute |
| CellState.GetRelationshipName | src/Exports/Concerns/HasCellState.php:254-281 | the loop's result is the longest relation prefix, joined with dots, or null when it is empty or the name is undotted |
| CellState.GetFullAttributeName | src/Exports/Concerns/HasCellState.php:227-251 | the loop's result is the unconsumed segments joined with dots |
| CellState.GetAttributeName | src/Exports/Concerns/HasCellState.php:200-225 | the loop's result is the first unconsumed segment |
| CellState.GetRelationship | src/Exports/Concerns/HasCellState.php:86-117 | the loop's result is the last relation along the given path, or along the leading segments |
| CellState.HasMultipleRelationship | src/Exports/Concerns/HasCellState.php:119-144 | true exactly when the walk meets a collection before a null or before running out of relation names |
| CellState.GetRelationshipResults | src/Exports/Concerns/HasCellState.php:150-197 | the loop's result is the records at the end of the path: a final collection appended whole, a collection part way fanned out in member order, a null stopping the walk |
| CellState.ResultsOfMembers | src/Exports/Concerns/HasCellState.php:171-179 | the fan-out loop concatenates each member's recursive results |
| ColumnState.DataGetPath | src/Exports/ExportColumn.php:152 | `data_get` along dotted segments; characterised by `DataGetPlainKey` |
| ColumnState.DataGet | src/Exports/ExportColumn.php:177-179 | `data_get($record, $name)`; characterised by `DataGetPlainKey` |
| ColumnState.DataGetPlainKey | src/Exports/ExportColumn.php:177-179 | an undotted name reads the attribute, or else the loaded relation |
| ColumnState.Pluck | src/Exports/ExportColumn.php:151-152 | one `data_get` per related record, in order |
| ColumnState.DropBlank | src/Exports/ExportColumn.php:149-161 | the `reduce` that skips blank values; characterised by `DropBlankKeeps` |
| ColumnState.DropBlankKeeps | src/Exports/ExportColumn.php:154-158 | dropping blanks keeps exactly the filled values |
| ColumnState.FirstIndex | src/Exports/ExportColumn.php:162 | the first position of a value |
| ColumnState.Unique | src/Exports/ExportColumn.php:162-163 | `unique()->values()`; characterised by `UniqueSpec` |
| ColumnState.UniqueSpec | src/Exports/ExportColumn.php:162-163 | `unique()->values()` has no duplicates, holds the same values, and keeps first occurrences in their order |
| ColumnState.Collapse | src/Exports/ExportColumn.php:162-173 | the distinct step and the null / single value / list choice; characterised by `CollapseShape` |
| ColumnState.StateFromRecord | src/Exports/ExportColumn.php:139-180 | `getStateFromRecord`; characterised by `StateFromRecordShape` and `ToOneStateIsScalar` |
| ColumnState.CollapseShape | src/Exports/ExportColumn.php:165-173 | null exactly when nothing remains; otherwise one of the values, or a list holding exactly them; a to-many hop always gives a list; a distinct list has no duplicates |
| ColumnState.StateFromRecordShape | src/Exports/ExportColumn.php:143-173 | the relationship state is null exactly when every plucked value is blank, and otherwise a filled plucked value or a list of exactly the filled ones |
| ColumnState.ToOneStateIsScalar | src/Exports/ExportColumn.php:165-171 | along a to-one path the state is null or the single filled value |
| ColumnState.SplitState | src/Exports/ExportColumn.php:125-130 | a non-string state, or a falsy or missing separator, leaves the state as is |
| ColumnState.SplitStateRoundTrip | src/Exports/ExportColumn.php:125-130 | splitting on a truthy separator gives pieces free of it that implode back to the string, or `[]` for a single blank piece |
| ColumnState.TagsPieces | src/Exports/ExportColumn.php:126 | `explode(',', 'tag1,tag2,tag3')` gives the three tags |
| ColumnState.SplitTagsExample | src/Exports/ExportColumn.php:125-130 | `tag1,tag2,tag3` split on `,` gives the three tags |
| ColumnState.ZeroSeparatorExample | src/Exports/ExportColumn.php:125 | the separator `"0"` is falsy and splits nothing |
| ColumnState.RawState | src/Exports/ExportColumn.php:121-123 | the override when one is set, else the record's state (defines the state before splitting) |
| ColumnState.State | src/Exports/ExportColumn.php:113-137 | `getState` as a function; characterised by `StateSpec`, `OverrideIgnoresRecord` and `OverrideWins` |
| ColumnState.StateSpec | src/Exports/ExportColumn.php:113-137 | no record gives null; with a record the state is filled or else it is the default; a filled split state is kept, a blank one gives way to the default |
| ColumnState.OverrideIgnoresRecord | src/Exports/ExportColumn.php:121-123 | with an override set, the relationship schema plays no part; with plain override, separator and default, the record plays none either |
| ColumnState.OverrideWins | src/Exports/ExportColumn.php:121-123 | a filled literal override that is not split is the state |
| ColumnState.SpaceSeparators | src/Exports/ExportColumn.php:109 | same length, no `-` or `_` left |
| ColumnState.DerivedLabel | src/Exports/ExportColumn.php:105-110 | the derived label holds no `-` or `_` |
| ColumnState.Label | src/Exports/ExportColumn.php:103-111 | a set label wins; otherwise the label derived from the name |
| ColumnState.LabelSourceSegment | src/Exports/ExportColumn.php:106-107 | an undotted name is its own label source; otherwise the segment before the last dot |
| ColumnState.PlainNameLabel | src/Exports/ExportColumn.php:105-110 | a lower-case undotted name's label is the name with separators spaced and first letter upper-cased |
| ColumnState.FirstNameIsPlain | src/Exports/ExportColumn.php:105-110 | `first_name` is lower-case and undotted, and spaced and upper-cased it reads `First name` |
| ColumnState.FirstNameLabelExample | src/Exports/ExportColumn.php:103-111 | the label of `first_name` is `First name` |
| ColumnState.NameInNestedNames | src/Exports/ExportColumn.php:221 | a relationship name is among the loads `with` adds for it |
| ColumnState.EagerLoads | src/Exports/ExportColumn.php:205-222 | `applyEagerLoading` on the set of eager loads; characterised by `EagerLoadsSpec` and `EagerLoadsIdempotent` |
| ColumnState.EagerLoadsSpec | src/Exports/ExportColumn.php:205-222 | never removes a load; adds the relationship (with its dotted prefixes) exactly when the column has one not loaded yet |
| ColumnState.EagerLoadsIdempotent | src/Exports/ExportColumn.php:205-222 | applying eager loading twice equals applying it once |
| ColumnMaps.Keys | src/Exports/ExportManager.php:224 | the keys of the map, in order |
| ColumnMaps.IndexOfKey | src/Exports/ExportManager.php:224 | the position of a key, absent exactly when the key is |
| ColumnMaps.Put | src/Exports/ExportManager.php:224 | assigning a key keeps its place or appends it, changes no other key, and keeps keys distinct |
| ColumnMaps.LookupSameKeys | src/Exports/ExportManager.php:224 | a map with the same keys and the same entry agrees on that key |
| ColumnMaps.LookupExtend | src/Exports/ExportManager.php:224 | appending another key leaves a lookup unchanged |
| ColumnMaps.LastEnabledLabel | src/Exports/ExportManager.php:222-225 | the label of the last enabled column of a name, absent exactly when none is enabled |
| ColumnMaps.FirstEnabled | src/Exports/ExportManager.php:222-225 | the first enabled column of a name |
| ColumnMaps.DefaultColumnMap | src/Exports/ExportManager.php:221-226 | the default column map; characterised by `DefaultColumnMapContents`, `DefaultColumnMapOrder` and `DefaultColumnMapEmpty` |
| ColumnMaps.DefaultColumnMapContents | src/Exports/ExportManager.php:221-226 | the default map's keys are distinct and exactly the names of enabled columns, each mapped to its last enabled column's label |
| ColumnMaps.DefaultColumnMapOrder | src/Exports/ExportManager.php:221-226 | the default map's keys come in declaration order of their first enabled column |
| ColumnMaps.KeysInOrderPrefix | src/Exports/ExportManager.php:221-226 | ordering by a prefix of the columns is ordering by all of them |
| ColumnMaps.KeysInOrderAppend | src/Exports/ExportManager.php:221-226 | appending a newly enabled name keeps the order |
| ColumnMaps.KeysInOrderSameKeys | src/Exports/ExportManager.php:221-226 | relabelling keeps the order |
| ColumnMaps.FirstEnabledPrefix | src/Exports/ExportManager.php:221-226 | a name enabled in a prefix is first enabled at the same place |
| ColumnMaps.DefaultColumnMapEmpty | src/Exports/ExportManager.php:221-230 | the default map is empty, and `start()` fails, exactly when no column is enabled by default |
| Exporting.RejectedNames | src/Exports/ExportColumn.php:29-43 | a missing, empty or whitespace-only name is rejected; `0` is accepted |
| Exporting.ExportColumn.constructor | src/Exports/ExportColumn.php:24-27 | a new column has the given name, every other setting at its default, and no exporter |
| Exporting.ExportColumn.Make | src/Exports/ExportColumn.php:29-43 | fails exactly on a missing or blank name; otherwise a fresh column with that name |
| Exporting.ExportColumn.SetName | src/Exports/ExportColumn.php:55-60 | only the name changes |
| Exporting.ExportColumn.SetLabel | src/Exports/ExportColumn.php:62-67 | only the label setting changes |
| Exporting.ExportColumn.SetExporter | src/Exports/ExportColumn.php:69-74 | only the exporter changes |
| Exporting.ExportColumn.SetEnabledByDefault | src/Exports/ExportColumn.php:76-81 | only the enabled-by-default setting changes |
| Exporting.ExportColumn.SetDistinctList | src/Exports/Concerns/HasCellState.php:21-26 | only the distinct-list setting changes; without an argument it becomes `true` |
| Exporting.ExportColumn.SetStateUsing | src/Exports/Concerns/HasCellState.php:28-40 | only the state override changes |
| Exporting.ExportColumn.SetDefault | src/Exports/Concerns/HasCellState.php:42-47 | only the default state changes |
| Exporting.ExportColumn.SetSeparator | src/Exports/Concerns/HasCellState.php:49-54 | only the separator changes; without an argument it becomes `,` |
| Exporting.ExportColumn.GetStateFromRecord | src/Exports/ExportColumn.php:139-180 | the column's state read from a record, as above |
| Exporting.ExportColumn.GetState | src/Exports/ExportColumn.php:113-137 | the column's state in its exporter's context, as above |
| Exporting.Named | src/Exports/Exporter.php:130-131 | each declared column with its name, in order |
| Exporting.IndexByName | src/Exports/Exporter.php:128-135 | the `array_reduce` index by name; characterised by `IndexByNameSpec` and `IndexByNameHas` |
| Exporting.IndexByNameSpec | src/Exports/Exporter.php:128-135 | the cache holds exactly the declared names, each under the last column declared with it |
| Exporting.IndexByNameHas | src/Exports/Exporter.php:128-135 | every declared name is in the cache |
| Exporting.DefaultFormats | src/Exports/Exporter.php:176-179 | CSV, then XLSX |
| Exporting.DefaultFileDisk | src/Exports/Exporter.php:150-153 | the configured disk, else `local` |
| Exporting.Exporter.constructor | src/Exports/Exporter.php:33-37 | keeps the export, column map and options; no record and no cache yet |
| Exporting.Exporter.GetOptions | src/Exports/Exporter.php:145-148 | the constructor's options, unchanged |
| Exporting.Exporter.GetCachedColumns | src/Exports/Exporter.php:128-135 | the name index of the declared columns, computed once and then reused, with every column's exporter set to this one and nothing else changed |
| Exporting.Exporter.Invoke | src/Exports/Exporter.php:42-55 | records the row's model (what `getRecord` then returns), then gives one cell per column-map key in key order, each the formatted state of the cached column of that name |
| Exporting.Cells | src/Exports/Exporter.php:48-54 | the loop gives one formatted cell per key, in order |
| Manager.BaseExporterClass | src/Exports/Exporter.php:150-179 | the base exporter's disk and formats |
| Manager.ExporterFileName | src/Exports/Exporter.php:155-166 | the stem, a dash, then the export's key |
| Manager.TotalRows | src/Exports/ExportManager.php:208-212 | the total row count; characterised by `TotalRowsSpec` |
| Manager.TotalRowsSpec | src/Exports/ExportManager.php:208-212 | a non-empty records array is counted as is; otherwise the query count, capped by a positive limit |
| Manager.Offers | src/Exports/ExportManager.php:222-225 | each declared column's name, enabled flag and label, as the class declares them |
| Manager.ColumnMapFor | src/Exports/ExportManager.php:221-226 | the given column map, else the default one; its emptiness is `DefaultColumnMapEmpty` |
| Manager.Chain | src/Exports/ExportManager.php:310-320 | the chain of jobs `start()` dispatches; characterised by `ChainShape` |
| Manager.ChainShape | src/Exports/ExportManager.php:310-320 | the batch comes first and the completion once; one XLSX build before it exactly when XLSX is requested without CSV, one after it exactly when both are, none without XLSX |
| Manager.ExportManager.constructor | src/Exports/ExportManager.php:27-49 | every setting at its default: chunk size 100, no limit, no overrides, no options |
| Manager.ExportManager.SetExporter | src/Exports/ExportManager.php:54-59 | sets the exporter class |
| Manager.ExportManager.SetJob | src/Exports/ExportManager.php:64-69 | sets the job class |
| Manager.ExportManager.SetChunkSize | src/Exports/ExportManager.php:71-76 | sets the chunk size |
| Manager.ExportManager.SetMaxRows | src/Exports/ExportManager.php:78-83 | sets the row limit |
| Manager.ExportManager.SetFileDisk | src/Exports/ExportManager.php:85-90 | sets the disk override |
| Manager.ExportManager.SetFileName | src/Exports/ExportManager.php:92-97 | sets the file-name override |
| Manager.ExportManager.SetFormats | src/Exports/ExportManager.php:102-107 | sets the formats override |
| Manager.ExportManager.SetOptions | src/Exports/ExportManager.php:119-124 | sets the options |
| Manager.ExportManager.GetJob | src/Exports/ExportManager.php:137-140 | the configured job, else the CSV preparation job |
| Manager.ExportManager.Start | src/Exports/ExportManager.php:183-335 | the row-limit error exactly when a set limit is below the total; the no-columns error exactly when the column map is empty; both before anything is saved. A missing disk fails after the first save, which wrote the temporary-name row, with no disk touched. Otherwise the export's directory is purged from its disk when it exists, no other disk changes, and: a fresh export, saved under the next key with status Processing and the total; manager overrides win over exporter defaults for disk, file name and formats; the chain is planned from the chosen formats |
| Manager.CountRows | src/Exports/ExportManager.php:208-212 | computes the total of `TotalRows` |
| Manager.CreateExport | src/Exports/ExportManager.php:232-262 | saves the export; an unconfigured disk fails with the first-save row written and no disk touched; otherwise the export's directory is purged from its disk when it exists, no other disk changes, and the renamed export is saved again |
| Manager.FirstSaveRow | src/Exports/ExportManager.php:232-256 | the row of the first save: exporter, disk, `temp-` + time, total, zero counters, status Processing, no completion, creator |
| Manager.DiskAfterPurge | src/Exports/ExportManager.php:258-259 | the export's disk has the export's directory purged when it existed and is unchanged otherwise; every other disk is unchanged |
| Manager.NewExport | src/Exports/ExportManager.php:232-256 | a fresh export with the exporter, total, status Processing, creator, disk and temporary name, saved under the next key |
| ExportRecords.Export.constructor | src/Exports/Models/Export.php:55-66 | an unsaved export with empty fields, zero counters and status Pending |
| ExportRecords.Export.Save | src/Exports/Models/Export.php:55-66 | an unsaved export takes the next key; the table's row for its key becomes its attributes |
| ExportRecords.Export.Key | src/Exports/Models/Export.php:114 | the decimal key, or empty before the first save |
| ExportRecords.Export.FailedRowsCount | src/Exports/Models/Export.php:88-91 | failed plus successful rows is the total |
| ExportRecords.Export.ProgressPercentage | src/Exports/Models/Export.php:98-105 | 0 when the total is not positive; otherwise processed rows over total rows, times 100 |
| ExportRecords.ProgressBounds | src/Exports/Models/Export.php:98-105 | the percentage is within 0..100 exactly when 0 ≤ processed ≤ total; above 100 exactly when processed > total; 100 exactly when they are equal |
| ExportRecords.Export.FileDirectory | src/Exports/Models/Export.php:112-115 | `exports/` followed by the key |
| ExportRecords.SlashFreePrefixes | src/Exports/Models/Export.php:112-115 | two slash-free directory names that prefix the same path are equal |
| ExportRecords.DirectoriesDisjoint | src/Exports/Models/Export.php:112-125 | exports with different keys have different directories, and no path is in both |
| ExportRecords.Export.DeleteFileDirectory | src/Exports/Models/Export.php:117-125 | when the directory exists, it and every path under it go and every other path stays; otherwise nothing changes; on a valid disk no file under the directory remains either way, and the disk stays valid |
| Storage.PurgeFiles | src/Exports/Models/Export.php:123 | exactly the files outside the directory remain, with their contents |
| Storage.PurgeDirectories | src/Exports/Models/Export.php:123 | exactly the directories other than it and outside it remain |
| Storage.PurgeIdempotent | src/Exports/Models/Export.php:117-125 | deleting a directory twice equals deleting it once |
| Storage.Closed | src/Exports/Models/Export.php:117-125 | every directory a file lies under exists, as on a real filesystem |
| Storage.UnderTransitive | src/Exports/Models/Export.php:123 | lying under a directory that lies under another is lying under that one |
| Storage.PurgeKeepsClosed | src/Exports/Models/Export.php:123 | deleting a directory keeps a closed disk closed |
| Storage.AbsentDirectoryHoldsNothing | src/Exports/Models/Export.php:122 | on a closed disk a missing directory holds no file, so skipping the delete loses nothing |
| Storage.PurgeEmpties | src/Exports/Models/Export.php:117-125 | nothing under the deleted directory remains |
| Storage.Disk.Exists | src/Exports/Downloader/CsvDownloader.php:16 | `exists`: a file or a directory of that path |
| Storage.Disk.DirectoryExists | src/Exports/Models/Export.php:122 | `directoryExists`: a directory of that path |
| Storage.Disk.Get | src/Exports/Downloader/CsvDownloader.php:21 | a file's contents, or empty for a missing file |
| Storage.Disk.DirectFiles | src/Exports/Downloader/CsvDownloader.php:25 | the files directly inside a directory |
| Storage.Disk.Files | src/Exports/Downloader/CsvDownloader.php:25 | lists each file directly inside the directory once, in some order |
| Storage.Disk.Valid | src/Exports/Models/Export.php:117-125 | the disk's files and directories are closed |
| Storage.Disk.DeleteDirectory | src/Exports/Models/Export.php:123 | the disk becomes its purge, and a valid disk stays valid |
| Completion.ExportCompletion.constructor | src/Exports/Jobs/ExportCompletion.php:33-43 | keeps the export, column map, formats and options |
| Completion.ExportCompletion.Handle | src/Exports/Jobs/ExportCompletion.php:45-57 | status Completed and completed-at now, every other field unchanged and saved; one event carrying this export exactly when the creator is authenticatable, none otherwise |
| Downloads.IsShard | src/Exports/Downloader/CsvDownloader.php:26-32 | a file the loop echoes: ends in `.csv` and not in `headers.csv`; see `SkippedFilesAddNothing` |
| Downloads.Shards | src/Exports/Downloader/CsvDownloader.php:25-37 | the shards' contents in listing order; characterised by `ShardsAreFilteredFiles` and `ShardsAppend` |
| Downloads.CsvBody | src/Exports/Downloader/CsvDownloader.php:20-37 | the streamed body: the headers file, then the shards; what `Stream` is proved to compute |
| Downloads.ShardFiles | src/Exports/Downloader/CsvDownloader.php:25-37 | the listed `.csv` files other than `headers.csv`, in listing order |
| Downloads.ConcatAppend | src/Exports/Downloader/CsvDownloader.php:25-37 | concatenation distributes over appended lists |
| Downloads.ShardsAreFilteredFiles | src/Exports/Downloader/CsvDownloader.php:25-37 | the body after the headers is the shards' contents concatenated in listing order |
| Downloads.ShardsAppend | src/Exports/Downloader/CsvDownloader.php:25-37 | the shards of two listings are the shards of each in turn |
| Downloads.SkippedFilesAddNothing | src/Exports/Downloader/CsvDownloader.php:26-32 | a non-`.csv` file or the headers file adds nothing to the body |
| Downloads.CsvDownloader.Invoke | src/Exports/Downloader/CsvDownloader.php:11-41 | the export's own disk is used: a disk-not-configured error exactly when `file_disk` names no configured disk; on that disk, not-found exactly when the directory is missing; otherwise `{file_name}.csv` as `text/csv`, with the headers' content once and then every shard in listing order |
| Downloads.Stream | src/Exports/Downloader/CsvDownloader.php:20-37 | the loop echoes the headers file, then each listed shard in listing order |
| Downloads.DownloadExport | src/Exports/Models/Export.php:130-136 | an unknown token fails as `from` does; `csv` streams through the CSV downloader from the export's own disk, failing exactly when that disk is not configured; `xlsx` goes to the XLSX downloader |
| ExportFormats.ExportFormat.Extension | src/Exports/Enums/ExportFormat.php:24-27 | the extension is the token and parses back to the format |
| ExportFormats.ExportFormat.MimeType | src/Exports/Enums/ExportFormat.php:29-35 | `text/csv` for CSV, the spreadsheetml type for XLSX |
| ExportFormats.ExportFormat.Downloader | src/Exports/Enums/ExportFormat.php:16-22 | CSV maps to the CSV downloader, XLSX to the XLSX one |
| ExportFormats.From | src/Exports/Enums/ExportFormat.php:12-14 | a parsed format has the given token |
| ExportFormats.FromValueRoundTrip | src/Exports/Enums/ExportFormat.php:12-14 | `from(value(f)) == f`, and a token parses to `f` exactly when it is `f`'s |
| ExportFormats.FormatsDistinct | src/Exports/Enums/ExportFormat.php:12-35 | there are two formats, with distinct tokens, MIME types and downloaders |
| ExportStatuses.From | src/Exports/Enums/ExportStatus.php:7-10 | a parsed status has the given value |
| ExportStatuses.Cases | src/Exports/Enums/ExportStatus.php:7-10 | four cases, Pending first |
| ExportStatuses.FromValueRoundTrip | src/Exports/Enums/ExportStatus.php:7-10 | `from(value(s)) == s`, and a value parses to `s` exactly when it is `s`'s |
| ExportStatuses.ValuesInjective | src/Exports/Enums/ExportStatus.php:7-10 | distinct statuses have distinct values |
| ExportStatuses.CasesComplete | src/Exports/Enums/ExportStatus.php:7-10 | every status is among the four cases, which are pairwise distinct |

## Left out

- Query building and counting: the model has no query builder, `convertQueryBuilderToBuilder`, `modifyQuery`, `modifyQueryUsing` or query serialisation. A query is its row count and its `limit`, both after any modification.
- `applyRelationshipAggregates` is a query-builder call and is not modelled.
- Queue plumbing is not modelled: the batch and chain are the ordered plan (`Manager.Chain`) and are never run. This covers queue and connection names, batch names, `allowFailures`, the `catch` callbacks that mark an export Failed, job middleware, backoff and retry.
- Laravel's service container is not modelled. `evaluate` through `app()->call` becomes `Knob.Evaluate`. A closure receives an explicit context: for a column, its exporter's record and options; for the manager's file name, the export's key.
- Manager.ExportManager: the zero-argument closures for chunk size, row limit, disk, formats and options are stored already evaluated.
- `CanFormatState` (`getFormattedState`), `CanAggregateRelatedModels`, `ExportCsv`, `PrepareCsvExport`, `CreateXlsxFile` and `XlsxDownloader` are not part of this model. Formatting is the `format` parameter, the CSV job is named by its class, and an XLSX download is `HandedTo(XlsxDownloader)`.
- Exporting.Exporter.Invoke requires every column-map key to name a declared column. In PHP an undeclared key fails when `getFormattedState` is called on null.
- Manager.ExporterClass: the file-name stem (`str(class_basename($model))->plural()->kebab()`) is an input, because the inflector's pluralisation is not modelled.
- ColumnState.DerivedLabel: `Str::kebab` is modelled for ASCII only; `ucwords` and `ctype_lower` are applied to ASCII letters.
- ColumnState.Unique: values are compared with structural equality, not with PHP's loose `==`.
- ColumnState.DataGet: reads through model attributes, loaded relations and string-keyed arrays only. Numeric list indexes, `*` wildcards and `data_get` on other objects give null.
- ExportRecords.Export.ProgressPercentage: the model does not round to two decimal places, and is exact where PHP's float division is not.
- Exporting.ExportColumn.GetStateFromRecord: the source falls back to the exporter's record when it is given null. The model always receives a record.
- `ExportColumn::getRecord` reads the exporter's record; in the model this is the column's `Context()`. The exporter's own `getRecord` before any `__invoke` gives None, where PHP would read an uninitialised property.
- Completion.ExportCompletion.Handle requires a saved export, since jobs receive saved models; Eloquent's `update` does nothing on an unsaved model.
- Exporter construction through `Export::getExporter` (`app($this->exporter, …)`) is not modelled. The manager works with an `ExporterClass` value and the row builder with an `Exporter` object.
- Which disk `Storage::disk($name)` resolves to is a map lookup, and the exception for an unconfigured disk is a `DiskNotConfigured` error, both in `start()` and in the CSV download. `Export::deleteFileDirectory` receives the disk its caller resolved. Real storage, HTTP streaming, `flush`, `abort(404)` (the `NotFound` error), authentication, event delivery, the service provider, the facade and config loading are not modelled.
- Downloads.DownloadExport: the default token `csv` of `download()` is left to the caller, which passes the token explicitly.
- The creator is stored as given. The two branches of `start()` (a plain object with `id` and `type`, or an Eloquent model through `associate`) both record its id and type.
- The `casts` of the Export model are not modelled: dates are integer timestamps and the status is the enum itself.
