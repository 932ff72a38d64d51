# labs-on-cloud sequencing ingest: a verified model

This Dafny project models the logic at the centre of the labs-on-cloud sequencing ingest tools and proves what that logic guarantees. It covers three pieces.

- **The sample-sheet builder** (`ingest/create_sample_sheet.py`). It walks a directory tree of FASTQ files and classifies each file name:
  - names that start with `undetermined` in any case are skipped;
  - a name must contain `.fastq.gz`;
  - the read role (`R1`, `R2`, or `I1` with `--index`) comes from a suffix.

  It groups the reads of each sample id per directory, optionally rewrites paths with `--replace find:replacement`, and writes one tab-separated row per sample. It raises on a sample id seen in an earlier directory and on a missing read. The walk is an input: one `(root, file names)` pair per directory, in walk order.
- **Sequencing-run discovery** (`loc/flow_cell_util.py`):
  - `list_flow_cells` yields one record per completed run directory. A run counts as complete when its directory holds both `RTAComplete.txt` and `RunInfo.xml`. Its `YYMMDD` date is decoded with the century taken from the clock.
  - `filter_flow_cells_by_run_date` keeps the runs at least `days_old` days old.
  - `create_flowcells` registers a Jira issue for each run that no existing issue mentions.

  Directory listings and parsed `RunInfo.xml` descriptors are inputs.
- **The Jira field-name map** (`loc/jira_util.py`). It maps each field name to its id, and the last field with a given name wins.

Python built-ins the code relies on are written out in module `Text`:
- `str.lower` (ASCII);
- `find`/`rfind`;
- slicing with negative and clamped bounds;
- `str.replace`, including an empty search text;
- `os.path.join`;
- `int()` and `str()` on integers;
- `split`/`join`.

The part of `datetime` the run dates need is in module `Calendar`: which dates exist, and the day number that orders them and shifts them by whole days. Integers are unbounded, as in Python.

Each imperative routine is a method with loops, proved equal to a specification function:
- `BuildSampleSheet`
- `ListFlowCells`
- `FilterFlowCellsByRunDate`
- `CreateFlowcells`
- `GetFieldNameToId`

The lemmas state what those functions guarantee.

Where the code and its documented design differ, the model follows the code:
- A file qualifies when `.fastq.gz` occurs anywhere in its name (`rfind`), not only at its end. The stem is the text before the last occurrence.
- `--replace` replaces every occurrence of the search text in the joined path (`str.replace`), not just a leading prefix. `ReplaceAtFirst` and `ReplaceAbsent` state this occurrence by occurrence. `RewriteLeadingPrefix` shows that the two readings agree when the prefix occurs only at the start.
- The sheet is written row by row. When the script raises, the rows of earlier samples are already written; `Sheet.rows` keeps them.
- Run dates in the future are not rejected. Only the six-character `YYMMDD` slicing is implemented, and no free-form date parsing.
- The century of a `YYMMDD` date is that of the clock, so `991231` read in 2000 is 31 December 2099 (`FlowCells.ExampleCenturyFromClock`). This heuristic is kept as it is.
- `filter_flow_cells_by_run_date` returns the runs' paths (`loc/flow_cell_util.py:41`). Its test indexes the results with `['path']` (`loc/tests/test_list_flowcells.py:17`), and its caller `loc/commands/archive_sequence_runs.py:55` indexes them with `['run_id']`. Both would fail on a string. The model returns paths.

## Model

| member | source | states |
|---|---|---|
| `SampleSheet.BuildSampleSheet` | ingest/create_sample_sheet.py:19-83 | The whole script: the `--index` and `--replace` setup, then the walk with one `name_to_files` per directory, the `all_names` set, `counter` and the written lines. Its lines, `counter` and the error it raises are exactly those of the fold `RunWalk` over the walk. |
| `SampleSheet.SplitReplaceMeaning` | ingest/create_sample_sheet.py:28-31 | With a `:` in the argument, the search text is everything before the first `:` and the replacement everything after it. Without one, `find(':') == -1`, so the search text is the argument minus its last character and the replacement is the whole argument. |
| `SampleSheet.ReadArguments` | ingest/create_sample_sheet.py:20-31 | The setup before the walk yields the options of `Configure`. It yields the roles `R1`, `R2` and, with `--index`, `I1`, and beside each role its suffix (`_R1`, `_R2`, `_I1`). |
| `SampleSheet.FindRole` | ingest/create_sample_sheet.py:46-56 | The suffix loop with `break` finds the same role and cut stem as `MatchRole`. |
| `SampleSheet.FirstSuffixWins` | ingest/create_sample_sheet.py:21-51 | The role is that of the first suffix in the order `_R1`, `_R2`, `_I1` that occurs in the stem; `_I1` is tried only with `--index`. The id is the stem cut at the last occurrence of that suffix. No earlier suffix occurs anywhere in the stem. |
| `SampleSheet.UndeterminedAnyCase` | ingest/create_sample_sheet.py:36 | A name is skipped as undetermined exactly when its first twelve characters spell `undetermined`, each letter in either case. |
| `SampleSheet.ExampleMixedCase` | ingest/create_sample_sheet.py:36-38 | A name beginning `UnDetermined`, such as `UnDetermined_R1.fastq.gz`, is skipped whatever follows. |
| `SampleSheet.ClassifyMeaning` | ingest/create_sample_sheet.py:36-56 | A file is skipped as undetermined exactly when its lower-cased name starts with `undetermined`. It is not a FASTQ file exactly when it is not undetermined and `.fastq.gz` does not occur in it. The stem is cut at the last `.fastq.gz`. A read's id is its stem cut at the last occurrence of its suffix. An R2 stem has no `_R1`; an I1 needs `--index` and a stem with neither `_R1` nor `_R2`. A file with no role has none of the tried suffixes, and it is skipped without error. |
| `SampleSheet.Put` | ingest/create_sample_sheet.py:65 | `val[key] = path` sets that role's path and leaves the other roles unchanged. |
| `SampleSheet.GroupDirectory` | ingest/create_sample_sheet.py:34-65 | The per-directory loop builds the same insertion order and the same id-to-reads dictionary as `GroupFiles`. |
| `SampleSheet.GroupFiles` | ingest/create_sample_sheet.py:34-64 | The dictionary's key order has no repeats, and its ids are exactly its keys. |
| `SampleSheet.RecordPerId` | ingest/create_sample_sheet.py:58-64 | A directory has a record for an id exactly when one of its files is a read of that id: files with the same id merge into one record. |
| `SampleSheet.LastFileWins` | ingest/create_sample_sheet.py:58-65 | When several files of a directory are the same read of the same id, the record holds the path of the last one listed. |
| `SampleSheet.MissingRoleStaysNone` | ingest/create_sample_sheet.py:60-63 | A role that no file of the directory supplies stays `None` in the record. |
| `SampleSheet.EmitDirectory` | ingest/create_sample_sheet.py:66-83 | The emission loop over one directory's records updates `all_names`, `counter` and the written lines exactly as `EmitGroup` does, and stops at the first error. |
| `SampleSheet.EmitEntry` | ingest/create_sample_sheet.py:67-83 | One iteration over a record. It raises on an id already in `all_names`. Otherwise it adds the id to `all_names` and increments `counter` before checking R1, R2 and, with `--index`, I1. Only a complete record writes its line. The new state is that of one `EmitSample` step. |
| `SampleSheet.EmitOutcome` | ingest/create_sample_sheet.py:66-83 | Emitting a directory succeeds exactly when each of its ids is new and its record has R1, R2 and, with `--index`, I1. Then one row per id is added in dictionary order, the ids join `all_names` and `counter` grows by their number. |
| `SampleSheet.RowsDistinct` | ingest/create_sample_sheet.py:66-83 | Whether or not the script raises, the written rows have pairwise distinct ids that are all in `all_names`. Each row has an I1 column exactly when `--index` is set. On success `counter` equals the number of rows. |
| `SampleSheet.AllIdsMeaning` | ingest/create_sample_sheet.py:66-70 | An id is in the set exactly when some directory of the walk has a record for it. |
| `SampleSheet.ValidPrefix` | ingest/create_sample_sheet.py:33-83 | A walk passes exactly when every directory before the last passes, and the last directory's ids are new and have their mandatory reads. |
| `SampleSheet.WalkOutcome` | ingest/create_sample_sheet.py:33-83 | The script finishes exactly when every sample has its mandatory reads and no id occurs in two directories. It then writes one row per sample, directory by directory in first-seen order, and `all_names` is the set of all ids. |
| `SampleSheet.EmitFailure` | ingest/create_sample_sheet.py:66-83 | When emitting a directory raises, some sample `m` is the first refused. The samples before it were new and complete and their rows, ids and count were recorded. The outcome is that of checking sample `m` in that state. |
| `SampleSheet.SampleFails` | ingest/create_sample_sheet.py:67-81 | A refused sample writes no line. The error names it and is `Duplicate name` exactly when the id was already seen. Otherwise it is `R1 not found` when R1 is missing, `R2 not found` when only R2 is, and `I1 not found` when only I1 is missing under `--index`. |
| `SampleSheet.WalkFailure` | ingest/create_sample_sheet.py:33-83 | Whenever the script raises, there is a directory `d` and a sample `m` in it where it does. Every earlier directory passed, and the samples before `m` in `d` are new and complete. The error is the one that sample deserves: `Duplicate name` exactly when an earlier directory has a record for the id, otherwise the first missing read among R1, R2 and I1. The lines already written are those of the earlier directories followed by those of the samples before `m`. |
| `SampleSheet.UndeterminedNeverContributes` | ingest/create_sample_sheet.py:36-38 | Removing every undetermined file from the walk changes nothing: no row, id, count or error. |
| `SampleSheet.UndeterminedIgnoredInDirectory` | ingest/create_sample_sheet.py:36-38 | Within one directory, undetermined files leave the grouped records unchanged. |
| `SampleSheet.RewriteKeepsIds` | ingest/create_sample_sheet.py:42-44 | Two runs that differ only in `--replace` give the same ids, `all_names`, `counter` and error. Rewriting touches paths only, because ids come from the file name. |
| `SampleSheet.RowFormat` | ingest/create_sample_sheet.py:77-83 | Every row is its fields joined by tabs plus a newline: id, R1, R2, then I1 with `--index`. When no field holds a tab, splitting the line at tabs gives the fields back. |
| `SampleSheet.Render` | ingest/create_sample_sheet.py:83 | Each row emitted produces exactly one line, and line `k` is row `k` rendered by `RenderRow`. |
| `Text.RFind` | ingest/create_sample_sheet.py:39-47 | `rfind` gives -1 exactly when the pattern does not occur. Otherwise it gives an index where it occurs, with no occurrence further right. |
| `Text.Find` | ingest/create_sample_sheet.py:29 | `find` gives -1 exactly when the pattern does not occur. Otherwise it gives an index where it occurs, with no occurrence further left. |
| `Text.Lower` | ingest/create_sample_sheet.py:36 | Lower-casing keeps the length and lowers each character on its own: ASCII capitals become small letters and every other character is kept. |
| `Text.LowerCharIs` | ingest/create_sample_sheet.py:36 | A small ASCII letter is what lower-casing makes of itself and of its capital, and of no other character. |
| `Text.ReplaceAbsent` | ingest/create_sample_sheet.py:43 | Replacing a search text that does not occur leaves the path unchanged. |
| `Text.RewriteLeadingPrefix` | ingest/create_sample_sheet.py:43 | A path that starts with the search text and has no other occurrence of it gets exactly that prefix replaced. |
| `Text.InterleavePositions` | ingest/create_sample_sheet.py:43 | With an empty search text, `str.replace` puts one copy of the replacement before each character and one at the end. The result has `len(s) * (len(rep) + 1) + len(rep)` characters, character `i` of the path sits at `i * (len(rep) + 1) + len(rep)` right after a copy, and the last `len(rep)` characters are a copy. |
| `Text.ReplaceAtFirst` | ingest/create_sample_sheet.py:43 | With a non-empty search text that occurs in the path, `str.replace` keeps the text before the first occurrence that `find` reports, writes the replacement for that occurrence, and continues on the rest of the path. With `ReplaceAbsent` this determines the result for every path. |
| `Text.JoinEndsWith` | ingest/create_sample_sheet.py:41 | `os.path.join(root, name)` ends with `name`. |
| `Text.SplitJoin` | ingest/create_sample_sheet.py:83 | Splitting at a separator what was joined with it gives the parts back when no part contains the separator. |
| `Text.ParseDecimal` | loc/flow_cell_util.py:18-19 | `int(str(n)) == n` for every non-negative `n`. |
| `Text.NatToString` | loc/flow_cell_util.py:18-19 | `str(n)` is a non-empty string of digits with no leading zero. |
| `Calendar.DaysInMonth` | loc/flow_cell_util.py:61 | Every month has 28 to 31 days. |
| `Calendar.OrdinalOrder` | loc/flow_cell_util.py:40 | For dates `datetime` accepts, the day number is strictly smaller exactly when the date is earlier on the calendar, and equal exactly when the dates are equal. |
| `Calendar.OrdinalRange` | loc/flow_cell_util.py:38 | Every accepted date has a day number from 1 to that of 9999-12-31. |
| `FlowCells.ListFlowCells` | loc/flow_cell_util.py:45-66 | The nested loop over sequencing directories and their listings yields exactly the records of `Scan`, and stops at the same error. |
| `FlowCells.ScanOutcome` | loc/flow_cell_util.py:47-66 | The scan ends without error exactly when every directory can be listed and every qualifying entry decodes. It then yields one record per qualifying entry and none for any other entry, directory by directory and in listing order. |
| `FlowCells.EntriesOutcome` | loc/flow_cell_util.py:49-53 | For one listing, only directories holding both `RTAComplete.txt` and `RunInfo.xml` yield a record, in listing order, and the others are skipped silently. |
| `FlowCells.EntriesFailure` | loc/flow_cell_util.py:49-66 | When a listing raises, its `k`-th qualifying entry is the first whose descriptor fails to decode. The records of the entries before it were yielded in order, and the error is the one decoding that entry raises. |
| `FlowCells.ScanFailure` | loc/flow_cell_util.py:47-66 | Whenever `list_flow_cells` raises, every directory before some directory `d` was listed and all its runs decoded and were yielded. Then either `d` cannot be listed, and `OSError` follows those records, or its `k`-th qualifying entry is the first that fails to decode. In the second case the records of the entries before it are yielded too, and its error ends the scan. |
| `FlowCells.DecodeRunMeaning` | loc/flow_cell_util.py:54-65 | A qualifying run's `RunInfo.xml` yields a record exactly when it parses and its `Run` element has an `Id`, a `Date` whose text decodes, an `Instrument` and a `Flowcell`. The record then carries that id as `run_id`, the decoded date, the texts of `Instrument` and `Flowcell`, and the absolute path. |
| `FlowCells.CenturyDigits` | loc/flow_cell_util.py:46 | `str(datetime.now())[0:2]` is the first two digits of the clock's year written with four digits. |
| `FlowCells.PaddedYear` | loc/flow_cell_util.py:46 | A year `datetime` accepts prints as four digits, with leading zeros, most significant digit first. |
| `FlowCells.DecodeWithCentury` | loc/flow_cell_util.py:58-61 | For any two century digits and six digits of text, the year is the century digits followed by the first two text digits. The month and day are the next two pairs, and the result is that of `datetime(year, month, day)`. |
| `FlowCells.DecodeSixDigits` | loc/flow_cell_util.py:57-61 | A six-digit `YYMMDD` text gives year `YY` of the clock's century, month `MM` and day `DD`. It is accepted exactly when that date exists; otherwise `datetime` raises. |
| `FlowCells.ExampleRunDate` | loc/flow_cell_util.py:57-61 | `180521` read in 2018 is 21 May 2018. |
| `FlowCells.ExampleCenturyFromClock` | loc/flow_cell_util.py:46-58 | `991231` read in 2000 is 31 December 2099: the century comes from the clock. |
| `FlowCells.ExampleInvalidDate` | loc/flow_cell_util.py:61 | `180230` raises, because 30 February does not exist. |
| `FlowCells.ExampleShortDate` | loc/flow_cell_util.py:57-61 | A five-character `18052` slices to day `2` and reads as 2 May 2018. |
| `FlowCells.ExampleNoDay` | loc/flow_cell_util.py:60-61 | A four-character `1805` has an empty day text, and `int('')` raises. |
| `FlowCells.FilterFlowCellsByRunDate` | loc/flow_cell_util.py:31-42 | The threshold is computed first, then the runs are listed, then one path is appended per run dated no later than the threshold. The result, or what it raises, is that of `RunDateFilter`. |
| `FlowCells.CollectPaths` | loc/flow_cell_util.py:39-41 | The loop appends, in order, the path of each run whose date is not after the threshold. The result is `KeepPaths`. |
| `FlowCells.KeepPathsMeaning` | loc/flow_cell_util.py:38-41 | Comparing a run's midnight with `now - timedelta(days=days_old)` keeps exactly the runs whose date lies at least `days_old` days before `now`'s date. The time of day never matters, the boundary day is kept, and scan order is preserved. |
| `FlowCells.FilterOutcome` | loc/flow_cell_util.py:37-42 | The filter raises `OverflowError` when the threshold is out of range, and re-raises a scan error. Otherwise it returns the paths of the old-enough runs, in order, never more than the scan yields. |
| `FlowCells.OldRuns` | loc/flow_cell_util.py:40 | Every kept run is old enough, and no more runs are kept than were given. |
| `FlowCells.OlderIsNarrower` | loc/flow_cell_util.py:38-40 | Raising `days_old` only removes runs: filtering with the larger age gives the same result as filtering the smaller age's result again. |
| `FlowCells.ZeroDaysOld` | loc/flow_cell_util.py:38-40 | With `days_old = 0`, a run passes exactly when it is not dated after today. |
| `FlowCells.ThresholdExists` | loc/flow_cell_util.py:38 | Any `days_old` from 0 up to, but excluding, today's day number gives a threshold without overflow. |
| `FlowCells.ExampleBoundary` | loc/flow_cell_util.py:38-40 | On 2018-05-21 with `days_old = 6`, a run of 2018-05-15 passes and one of 2018-05-16 does not, at any time of day. |
| `FlowCells.CreateFlowcells` | loc/flow_cell_util.py:7-28 | The field map is read first, then each listed run is searched for. An issue is created, given its two attachments and moved to `SEQUENCED` where the search finds nothing. The issue calls made and what is raised are those of `CreateOutcome`. |
| `FlowCells.HandleRuns` | loc/flow_cell_util.py:9-28 | The loop over the listed runs makes exactly the issue calls of `CreateRuns`, in order, and ends with its failure, which `CreateRunsOutcome` characterises. |
| `FlowCells.RegisterRun` | loc/flow_cell_util.py:14-28 | One registration creates the issue, attaches `RunInfo.xml` then `RunParameters.xml` from the run's directory, and transitions the issue to `SEQUENCED`. |
| `FlowCells.CreateRunsOutcome` | loc/flow_cell_util.py:9-22 | An issue is created for a run exactly when the search for its run id returns zero issues, in scan order. Handling fails exactly when such a run exists and one of the four looked-up field names is missing. The failure is a `KeyError` on the first missing name, raised before any issue is created, attached to or transitioned. |
| `FlowCells.AttachmentNames` | loc/flow_cell_util.py:14-28 | A registration makes four calls: it creates the issue, attaches a path ending in `RunInfo.xml` and then one ending in `RunParameters.xml` to that issue, and moves it to `SEQUENCED`. |
| `FlowCells.IssueFieldsContent` | loc/flow_cell_util.py:14-22 | When the four names map to distinct ids other than `project` and `issuetype`, the issue gets six fields in order: project, flow cell, instrument, run date, run id and issue type `sequencing_run`. |
| `FlowCells.DateFieldReadsBack` | loc/flow_cell_util.py:18-19 | The run-date field splits at `-` into the year, month and day written without zero padding, and each reads back with `int()`. |
| `JiraFields.GetFieldNameToId` | loc/jira_util.py:1-6 | The loop builds exactly the dictionary `NameToId` of the field list. |
| `JiraFields.KeysAreNames` | loc/jira_util.py:4-5 | The keys are exactly the names in the field list. |
| `JiraFields.LastFieldWins` | loc/jira_util.py:5 | A name maps to the id of the last field that carries it. |
| `JiraFields.MapSize` | loc/jira_util.py:3-6 | The map never has more entries than there are fields, and an empty list gives an empty map. |

## Left out

- Printing is not modelled: the `Skipped ...` lines, the final count under `--verbose` and `argparse` itself (`ingest/create_sample_sheet.py:7-15, 37, 84-85`).
- Files are not modelled. This covers opening the output file, its default name `basename(--dir) + '.txt'`, and closing it (`ingest/create_sample_sheet.py:16-19, 86`). The written lines are the model's output.
- `os.walk`, `os.listdir`, `os.path.isdir` and `os.path.isfile` are inputs. Their order is whatever they return, and `os.walk`'s sub-directory list is unused by the script.
- `os.path.abspath` is a function parameter (`abspath`). Normalising paths and reading the working directory are not modelled.
- `ET.parse` and `find` are replaced by the parsed `RunInfo` datatype. XML syntax is not modelled.
- `datetime.now()` is two inputs: the clock year `list_flow_cells` reads when the generator starts, and the `now` passed to the filter. A default `now` is evaluated once, when the module is defined (`loc/flow_cell_util.py:31`). Time zones are not modelled: only naive datetimes are handled.
- Text.Lower: lower-cases ASCII letters only. Python's `str.lower` also maps other Unicode letters.
- Text.ParseInt: accepts ASCII digits and ASCII white space only. Python's `int()` also accepts other Unicode digits and spaces.
- FlowCells.DecodeRunDate: treats a year, month or day outside `datetime`'s range as one error. Python raises `ValueError` for these. The `OverflowError` that `datetime` raises for numbers beyond a C `int` cannot arise: each value comes from at most two digits after the century prefix.
- FlowCells.Threshold: takes `days_old` as an integer. A float `days_old` is not modelled.
- FlowCells.FilterFlowCellsByRunDate: `days_old` has no default. The function's default of 180 days (`loc/flow_cell_util.py:31`) is passed explicitly when it is wanted.
- FlowCells.CreateFlowcells: the log records only the calls that create, attach to or transition an issue. The `jira.fields()` call and the `search_issues` call made for each listed run are not in it, so a `KeyError` on a missing field name follows those calls.
- FlowCells.CreateFlowcells: the Jira search is a fixed function of the project id and run id the query is built from, giving the number of issues found, so issues created earlier in the same call are not visible to later searches. A created issue is identified by its creation number. Failures of Jira calls are not modelled.
- JiraFields.GetFieldNameToId: `jira.fields()` is an input list, and the dictionary's iteration order is not modelled because its callers only look names up.
- The callers in `loc/commands/` are not part of this model. Two of them call `create_flowcells` with arguments that do not match its signature.

