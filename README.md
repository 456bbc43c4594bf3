# Scheduled cleanup job: selection, age filter and error collection

This project models the sequential core of `main()` in `main.py`, the
scheduled cleanup script for a 3D-metrology host application. The script does
three things:

- It keeps the folders under `ROOT` whose names carry the product type
  `SGT5-4000F` and a process token (`" CAST "` or `" MACHINED "`). The match
  ignores case.
- In each kept folder it processes the `*.atos` project files whose age in
  whole days is greater than 14. Each file is loaded, stripped of its
  measurement data and saved through the host application. Every failure is
  recorded as one message under its folder in a `defaultdict(list)`.
- After all folders it shows one error report, and only if something was
  recorded.

Modules:

- `Seqs`: `Filter`, the list comprehension `[x for x in s if keep(x)]`, with
  its membership, concatenation and ordered-subsequence lemmas.
- `FolderSelection`: the folder comprehension (lines 82-90). It covers ASCII
  `lower()`, Python's substring `in` (proved equal to a reference definition
  of an occurrence) and the `any(...)` over the token lists.
- `AtosFiles`: the project file and its host outcome, the whole-day age
  `(now - mtime).days` and the age comprehension (lines 100-106). Times are
  integer microseconds.
- `ErrorCollector`: the `defaultdict(list)` as a value `Collector(order,
  lists)`. `order` is the dictionary's insertion order. The module also holds
  `.append`, the shape the collector keeps, and the report guard `any(...)`
  (line 143).
- `Cleanup`: the message text (line 133) and the specification fold
  `Collect`, one folder after another. It also holds the imperative
  `RunCleanup` / `ProcessFolder`, the two nested loops of lines 96-141,
  proved against `Collect`, and the lemmas on what the collector and the
  report guard end up holding.

The directory listing, the modification times, the clock and what the host
application does with each file are inputs. They form the parameter
`scan: string -> FolderContents`, which gives for each folder name the clock
reading taken for that folder and its project files. Each file carries its
`mtime` and an `Outcome`: `Cleaned`, or `Failed(description, trace)`.

The age test `.days > 14` compares whole days, so a file is processed only
once it is at least fifteen full days old; the model follows the code
(`IsOldThreshold`). The name match lower-cases both the name and the tokens,
so it ignores case (`SelectionIgnoresCase`).

## Model

| member | source | states |
|---|---|---|
| Seqs.Filter | main.py:85-90 | a comprehension keeps no more elements than it reads, and only elements satisfying its condition |
| Seqs.FilterMembership | main.py:85-90 | an element is in a comprehension's result iff it is in the input and satisfies the condition |
| Seqs.FilterAppend | main.py:102-106 | a comprehension over a concatenation is the concatenation of the comprehensions |
| Seqs.FilterIndices | main.py:85-90 | the result is the input restricted to the positions whose element is kept, in strictly increasing order, and every kept position appears |
| FolderSelection.SelectFolders | main.py:85-90 | every folder kept satisfies the selection condition, and no more folders come out than go in |
| FolderSelection.SubstringInIff | main.py:88-89 | Python's `in` on strings holds iff the needle occurs at some position of the haystack |
| FolderSelection.LowerAt | main.py:88-89 | `lower()` keeps the length and lower-cases each character in place |
| FolderSelection.LowerAppend | main.py:88-89 | `lower()` of a concatenation is the concatenation of the lowered parts |
| FolderSelection.TypeTokenLowered | main.py:82 | the type condition is "the lowered name contains `sgt5-4000f`" |
| FolderSelection.ProcessTokensLowered | main.py:83 | the process condition is "the lowered name contains ` cast ` or ` machined `" |
| FolderSelection.SelectedIff | main.py:82-90 | a folder is selected iff its lowered name contains `sgt5-4000f` and contains ` cast ` or ` machined ` |
| FolderSelection.SelectionIgnoresCase | main.py:88-89 | two names that agree up to letter case are both selected or both not |
| FolderSelection.AtMostOneSpaceNotSelected | main.py:83 | a name with at most one space is never selected, because the process tokens carry a space on each side; this covers names such as `SGT5-4000F_CAST_A` and `SGT5-4000F CAST` |
| FolderSelection.SpacedTokenNeedsTwoSpaces | main.py:83 | a token with a space at each end occurs in a lowered name only where the name has two spaces |
| FolderSelection.OccursBeforeSpaceFree | main.py:83 | a token ending in a space that occurs in `a + b`, with `b` free of spaces, already occurs in `a` |
| FolderSelection.TrailingSpaceTokenInPrefix | main.py:88-89 | a token ending in a space that occurs in the lowered `p + s`, with `s` free of spaces, already occurs in the lowered `p` |
| FolderSelection.SpaceFreeTailAddsNoProcessToken | main.py:83-89 | if a name followed by a space-free tail is selected, the name before the tail already contains ` cast ` or ` machined ` once lowered |
| FolderSelection.EndingInCastNeedsEarlierToken | main.py:83-89 | a name ending in `CAST`, with any number of spaces, is selected only if the part before that `CAST` already holds a process token; the trailing word never counts, so `SGT5-4000F X CAST` is not selected |
| FolderSelection.TokensPresentSelected | main.py:82-90 | any name made of the type token followed later by a process token is selected, e.g. `SGT5-4000F CAST A` |
| FolderSelection.SelectFoldersIsOrderedSubsequence | main.py:85-90 | the kept folders are exactly the selected ones, in enumeration order: an increasing index map covering every selected position |
| FolderSelection.SelectFoldersMembership | main.py:85-90 | a name is kept iff it was enumerated and is selected |
| AtosFiles.AgeDays | main.py:105 | the whole days of `now - mtime`, rounded down: days times one day is at most the difference and the next day exceeds it |
| AtosFiles.SelectOldFiles | main.py:102-106 | every file kept is older than `min_age` whole days, and no more files come out than go in |
| AtosFiles.IsOldThreshold | main.py:100-106 | a file is old iff at least fifteen full days separate `mtime` from `now`; a file exactly fourteen days old or younger is never processed |
| AtosFiles.AgeDaysFloors | main.py:105 | `.days` floors: one microsecond in the future is -1 days, one microsecond in the past is 0 days |
| AtosFiles.SelectOldFilesExact | main.py:102-106 | the files processed are exactly the old ones, in enumeration order, as an increasing index map covering every old file |
| AtosFiles.SelectOldFilesMembership | main.py:102-106 | a file is processed iff it is in the folder and old |
| ErrorCollector.AppendValid | main.py:134 | `.append` keeps every key listed once in insertion order with a non-empty list; it adds the message at the end of its key's list (created if missing) and leaves every other key alone |
| ErrorCollector.ExtendAppendsBlock | main.py:134 | appending messages one by one adds them as a block at the end of the key's list, and a key is only created when a message arrives |
| ErrorCollector.ExtendValid | main.py:134 | appending several messages keeps the collector's shape |
| ErrorCollector.HasErrorsIffSomeKey | main.py:143 | on a collector of that shape the report guard holds iff some folder became a key |
| Cleanup.ErrorMessage | main.py:133 | a message is ``Error in cleanup job of `<folder>`: `` followed by the failure text, a line break and the trace |
| Cleanup.FailureMessages | main.py:108-135 | a folder yields at most one message per processed file, each starting with its folder's prefix |
| Cleanup.RunCleanup | main.py:95-150 | the loop builds exactly `Collect` of the selected folders, which has the collector's shape; the report is shown iff some list is non-empty, iff some old file of some selected folder failed |
| Cleanup.ProcessFolder | main.py:108-141 | the inner loop appends exactly the folder's failure messages, in file order, to the collector; the close step adds nothing and never stops the loop |
| Cleanup.CollectSnoc | main.py:96-141 | processing one more folder appends that folder's failure messages under its path |
| Cleanup.RecordStep | main.py:108-141 | after one more file the collector gains that file's message if it failed, and is unchanged otherwise |
| Cleanup.FailureMessagesSnoc | main.py:124-135 | one more file adds at most its own message, at the end |
| Cleanup.CollectValid | main.py:95-141 | every collector the run builds lists each key once with a non-empty list |
| Cleanup.OneMessagePerFailure | main.py:124-135 | exactly one message per failed file, in processing order: the k-th message is the one for the k-th failed file |
| Cleanup.FolderMessagesNonEmpty | main.py:102-135 | a folder contributes a message iff one of its old files failed |
| Cleanup.CollectLists | main.py:95-141 | a path is a key iff some message was recorded for it, and its list is exactly those messages in processing order |
| Cleanup.FolderPathInjective | main.py:96-134 | distinct folder names give distinct keys |
| Cleanup.MessagesForOnce | main.py:96-134 | for a folder listed once, the messages under its path are its own |
| Cleanup.CollectPerFolder | main.py:95-141 | with distinct folder names, a folder is a key iff one of its old files failed, and its list holds one message per failed old file, in order |
| Cleanup.CollectMessagesPrefix | main.py:133-134 | every recorded message starts with the prefix naming the folder it is filed under |
| Cleanup.CollectEmptyIff | main.py:95-141 | nothing is recorded iff no folder contributes a message |
| Cleanup.ReportIffSomeFileFailed | main.py:143-150 | the report guard holds at the end iff some old file of some selected folder failed; a run where every file is cleaned shows no report |

## Left out

- RunCleanup: assumes that listing a folder (`folder.glob`, line 98) and reading a file's modification time (`f.stat()`, line 105) never raise, and that every failure of a file's load / strip / save is an `Exception` caught at line 124. In the source, any other exception ends `main()`: later folders are skipped and no report is shown, even for errors already collected. The model always finishes the run.
- Logging: the logger, its formatter and the rotating file and console handlers (lines 16-34) and every `logger.*` call are output only.
- Host application: the `gom.script.*` calls (lines 112-121 and 39) are a closed external API. Each file's load / strip / save sequence becomes its `Outcome`; the report dialog becomes the boolean `reported`.
- Report text and dialog markup: the text of `err_msg` (lines 144-149) and the dialog's XML (lines 40-72) are not modelled. The report is the collector itself.
- Traceback formatting (lines 125-132): the exception's text and the formatted trace are opaque strings.
- File sizes (lines 110 and 122): floating-point megabytes that are only logged.
- The file system and the clock: `glob`, `stat` and `datetime.now()` are the input `scan`. This includes the enumeration order, the clock read once per folder, and the fact that `glob("*")` also returns plain files.
- Local time: `datetime.fromtimestamp` gives local time, and a daylight-saving change between `mtime` and `now` is not modelled. Timestamps are exact integer microseconds, so the rounding of a float `st_mtime` is not modelled either.
- Non-ASCII case: `FolderSelection.Lower` folds only `A`-`Z`, not the rest of Unicode.
- Folder paths: `str(folder)` is written in Windows syntax as the root, a backslash and the name. `Path` equality on Windows ignores case; folder names in one listing are taken as distinct strings.
- Close step (lines 137-141): `close_project` is commented out, so the step only logs and is a no-op in `ProcessFolder`.
- Collector state: the `defaultdict` is a local variable of `main()`. It is modelled as a `Collector` value that the loops reassign, not as a shared mutable object.
