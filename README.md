# Desktop Janitor: rule matching and action resolution

Desktop Janitor tidies a set of watched folders by working through an ordered
list of rules. A rule has up to four conditions (`source_folder`, `extensions`,
`filename_contains`, `age_days`), an action (`move`, which is the default, or
`delete`) and an optional `destination`. For each watched folder that is a
directory, each regular file in it is tested against the rules in order. The
first rule that matches and decides the file wins. The file is moved or
deleted, and a record `("Moved", name, destination)` or
`("Deleted", name, "N/A")` is appended to the summary. In a dry run the same
records are produced, but the filesystem is left alone.

The model is in three modules:

- `Text` (`text.dfy`): ASCII lower-casing, which stands in for `str.lower`;
  `str.endswith`; the substring test `in`; and POSIX `os.path.join`.
- `Rules` (`rules.dfy`): the parsed rule, the condition evaluator
  `Evaluate`, the action planner `Plan` and the first-match resolver
  `Resolve`, with their lemmas.
- `Janitor` (`scan.dfy`): the folder, file and rule loops of `run_janitor` as
  imperative methods (`Scan`, `ScanFolder`, `ProcessFile`, `Apply`,
  `CheckConditions`). These keep the source's `continue` and `break`
  structure. Each method is proved against the specification functions
  `ScanRecords`/`ScanEffects`, `FolderRecords`, `FileRecords` and `Resolve`.

Filesystem access is modelled as follows:

- Every watched folder is given as its path, whether it is a directory, and
  its listing in `os.listdir` order. Each entry records whether it is a
  regular file and its age in days. The age is `None` when its modification
  time cannot be read.
- The calls `os.makedirs`, `shutil.move` and `os.remove` become a log of
  `Effect` values, which `Scan` returns next to the records.

Behaviour kept exactly as the code has it:

- Only the file name is lower-cased for `extensions`. An extension written in
  upper case, such as ".PDF", never matches.
- The empty extension "" and the empty keyword "" match every file. This is
  because Python's `endswith("")` and `"" in s` are both true.
- `source_folder` is compared by plain string equality. There is no path
  normalisation.
- A matched `move` rule whose destination is missing or empty falls through
  to the next rule, because of the `continue`.
- A matched rule with some other action produces no record but still stops
  the rules for that file, because of the `break`.

The code does not normalise `source_folder` paths before comparing them
(`desktop_janitor.py:63`), and it does not confine a failed move or delete to
the file concerned (`desktop_janitor.py:88-95`). The model follows the code.

For the listings it is given, the model's records do not depend on the
dry-run flag. The code itself lists each folder only when the scan reaches it,
so a real run can see different listings from a dry run; see "Left out".

## Model

| member | source | states |
|---|---|---|
| Text.Lower | desktop_janitor.py:68 | `filename.lower()` keeps the length and lower-cases position by position; the recursive definition is proved pointwise |
| Text.LowerChar | desktop_janitor.py:73 | a lower-cased character is never an upper-case letter; only upper-case letters change, and each becomes the lower-case letter at the same place in the alphabet |
| Text.JoinPath | desktop_janitor.py:56 | `os.path.join(folder, filename)` ends with the file name; an absolute second part replaces the first; otherwise the parts are concatenated as they are when the first is empty or ends in '/', and with a '/' between them otherwise; the result is absolute only when one of the parts is |
| Text.EndsWith | desktop_janitor.py:68 | `s.endswith(suffix)`: a string that ends with a suffix splits into a prefix followed by that suffix, and every string ends with "" |
| Text.EndsWithConcat | desktop_janitor.py:68 | conversely, any string followed by a suffix ends with that suffix |
| Text.Contains | desktop_janitor.py:73 | `sub in s`: a string that occurs in another is no longer than it |
| Text.ContainsSplit | desktop_janitor.py:73 | a string that contains `sub` splits into a prefix, `sub` and a rest |
| Text.ContainsConcat | desktop_janitor.py:73 | conversely, `sub` occurs in every string built as a prefix, `sub` and a rest |
| Rules.FileAgeDays | desktop_janitor.py:23-29 | the age of a file, with 0 when its modification time cannot be read; its properties are stated by UnreadableAgeCountsAsZero |
| Rules.ExtensionMatches | desktop_janitor.py:67-69 | the `extensions` test: some listed extension is a suffix of the lower-cased file name; its properties are stated by the extension lemmas below |
| Rules.KeywordMatches | desktop_janitor.py:72-74 | the `filename_contains` test: some listed keyword, lower-cased, occurs in the lower-cased file name; its properties are stated by the keyword lemmas below |
| Rules.Evaluate | desktop_janitor.py:59-79 | a rule's conditions hold when every condition key it states holds; its field-by-field reading is stated by EvaluateByField |
| Rules.EvaluateByField | desktop_janitor.py:59-81 | a rule matches exactly when each condition key it states holds; an absent key places no constraint (both directions) |
| Rules.EmptyConditionsMatchEverything | desktop_janitor.py:59-60 | a rule without conditions matches every file in every folder |
| Rules.EmptyExtensionListNeverMatches | desktop_janitor.py:67-69 | an empty `extensions` list never matches |
| Rules.ExtensionMatchSplit | desktop_janitor.py:68 | a match means that some listed extension, exactly as written, ends the lower-cased name |
| Rules.ExtensionConcatMatches | desktop_janitor.py:68 | conversely, a listed extension that ends the lower-cased name gives a match |
| Rules.ExtensionMatchesStem | desktop_janitor.py:68 | any stem followed by an extension matches the lower-case form of that extension, so `report.pdf` and `REPORT.PDF` both match `.pdf` |
| Rules.UpperCaseExtensionNeverMatches | desktop_janitor.py:68 | a list of extensions that each contain an upper-case letter never matches, because only the file name is lower-cased |
| Rules.LowerCaseExtensionMatchesAnyCase | desktop_janitor.py:68 | if a name ends with an extension in any case, the lower-case form of that extension matches it |
| Rules.EmptyExtensionMatchesEverything | desktop_janitor.py:68 | the extension "" matches every name |
| Rules.EmptyKeywordListNeverMatches | desktop_janitor.py:72-74 | an empty `filename_contains` list never matches |
| Rules.KeywordMatchIgnoresCase | desktop_janitor.py:73 | the keyword test ignores case on both sides: names equal up to case and keyword lists equal up to case, keyword by keyword, give the same answer |
| Rules.KeywordMatchSplit | desktop_janitor.py:73 | a match means that some listed keyword, lower-cased, occurs in the lower-cased name |
| Rules.KeywordConcatMatches | desktop_janitor.py:73 | conversely, a listed keyword whose lower-cased form occurs in the lower-cased name gives a match |
| Rules.OccurringKeywordMatches | desktop_janitor.py:73 | a keyword that occurs in the name as written always matches |
| Rules.EmptyKeywordMatchesEverything | desktop_janitor.py:73 | the keyword "" matches every name |
| Rules.AgeThresholdInclusive | desktop_janitor.py:77-79 | the age condition holds exactly when the age is at least the threshold, equality included |
| Rules.UnreadableAgeCountsAsZero | desktop_janitor.py:23-29 | when the modification time cannot be read, the age counts as 0, so the age condition holds exactly when the threshold is at most 0 |
| Rules.ActionOf | desktop_janitor.py:82 | the action a rule names, "move" when the key is absent; its effect is stated by MissingActionMeansMove |
| Rules.HasDestination | desktop_janitor.py:83-86 | a destination that is missing or empty counts as absent (`not destination`); its effect is stated by Plan and MissingDestinationFallsThrough |
| Rules.Plan | desktop_janitor.py:82-95 | a matched rule falls through exactly when its action (default "move") is "move" without a usable destination; it stops without a record exactly when the action is neither "move" nor "delete"; a "delete" rule always gives a Deleted record with "N/A", whatever its destination; a "move" rule with a usable destination gives a Moved record to that destination; Moved records come only from "move" and Deleted records only from "delete" |
| Rules.MissingActionMeansMove | desktop_janitor.py:82 | a rule without an action behaves like one whose action is "move" |
| Rules.Matches | desktop_janitor.py:59-81 | the `if matches:` test: a rule's conditions hold of the file's name, age and folder; its properties are stated by EvaluateByField |
| Rules.Decides | desktop_janitor.py:81-96 | a rule decides a file when it matches and does not `continue`, that is, it appends a record or reaches the `break`; its role is stated by ResolveFirstDecisive and ResolveSkipsUndecisive |
| Rules.Resolve | desktop_janitor.py:58-96 | a file gets at most one record; the record names the file; it comes from a rule that matched and decided the file; a Moved record has a non-empty destination and a Deleted record has "N/A" |
| Rules.ResolveAt | desktop_janitor.py:58-96 | one step of the rule loop: a rule that decides the file gives the result, any other rule hands over to the rules after it |
| Rules.ResolveFirstDecisive | desktop_janitor.py:58-96 | first match wins: the result is what the earliest deciding rule plans |
| Rules.ResolveNoneDecides | desktop_janitor.py:58-96 | when no rule decides the file, it gets no record |
| Rules.ResolveSkipsUndecisive | desktop_janitor.py:81-87 | rules that do not match, or that fall through for lack of a destination, leave the result to the rules that follow |
| Rules.ResolveIgnoresLaterRules | desktop_janitor.py:96 | once a rule decides the file, rules after it are never consulted |
| Rules.MissingDestinationFallsThrough | desktop_janitor.py:85-87 | a "move" rule without a usable destination is skipped, and the next rules are tried |
| Rules.UnknownActionStops | desktop_janitor.py:85-96 | a matched rule with an unknown action gives no record and ends rule processing for the file |
| Janitor.RegularFiles | desktop_janitor.py:49 | the listing keeps exactly the regular files (both directions) and is no longer than the directory listing |
| Janitor.RegularFilesAppend | desktop_janitor.py:49 | the filter keeps the `os.listdir` order: filtering two listings one after the other gives the files of the first, then those of the second |
| Janitor.RegularFilesSingle | desktop_janitor.py:49 | a single entry is kept exactly when it is a regular file |
| Janitor.RecordEffects | desktop_janitor.py:88-95 | the filesystem calls behind one record: `makedirs` of the destination and the move of the file for Moved, the removal of the file for Deleted; its use is stated by Apply and ProcessFile |
| Janitor.FileRecords | desktop_janitor.py:52-96 | a folder's file loop gives at most one record per file, and none when there are no rules |
| Janitor.FileEffects | desktop_janitor.py:52-95 | the filesystem calls of a folder's file loop, file by file; its use is stated by ScanFolder and FileStep |
| Janitor.FolderRecords | desktop_janitor.py:45-49 | a folder that is not a directory is skipped; otherwise it contributes the records of its regular files; its use is stated by ScanFolder and NonDirectoryContributesNothing |
| Janitor.FolderEffects | desktop_janitor.py:45-49 | the same skip for the filesystem calls; its use is stated by ScanFolder |
| Janitor.ScanEffects | desktop_janitor.py:45-95 | the filesystem calls of a whole scan, folder by folder; its use is stated by Scan |
| Janitor.ScanRecords | desktop_janitor.py:45-96 | the records of a whole scan; there are none when there are no rules |
| Janitor.NoDirectoryNoRecords | desktop_janitor.py:45-47 | when no watched path is a directory, a scan yields no record |
| Janitor.CheckConditions | desktop_janitor.py:59-79 | the `matches` flag that the four condition checks leave equals `Evaluate` |
| Janitor.Apply | desktop_janitor.py:82-95 | the action step returns the planned outcome; it performs the makedirs and move, or the remove, only outside a dry run and only when a record is appended |
| Janitor.ProcessFile | desktop_janitor.py:56-96 | the rule loop appends exactly the record `Resolve` gives, and performs its effects unless this is a dry run |
| Janitor.ScanFolder | desktop_janitor.py:49-96 | a directory's file loop appends the records of its regular files in listing order, with their effects unless this is a dry run |
| Janitor.Scan | desktop_janitor.py:45-96 | for the given listings, the records of a scan are `ScanRecords` whatever the dry-run flag; a dry run performs no effect; a real run performs exactly `ScanEffects` |
| Janitor.FileStep | desktop_janitor.py:52 | one step of the file loop appends the record and the effects of the next file |
| Janitor.ScanRecordsAppend | desktop_janitor.py:45 | records appear folder by folder, in the order of the watched folders |
| Janitor.NonDirectoryContributesNothing | desktop_janitor.py:45-47 | a watched path that is not a directory contributes no records, and the folders after it are still scanned |
| Janitor.FileRecordsAppend | desktop_janitor.py:52 | within a folder, records appear in file listing order |
| Janitor.FileRecordsSingle | desktop_janitor.py:52-96 | a single file contributes exactly the record its rules resolve to, and exactly that record's filesystem effects |
| Janitor.ScanOneFolder | desktop_janitor.py:45-52 | scanning one folder yields that folder's records and effects |
| Janitor.FileRecordsNameFiles | desktop_janitor.py:91-95 | every record of a file loop names one of the files it went through |
| Janitor.RecordsNameWatchedFiles | desktop_janitor.py:45-95 | every record names a regular file listed in a watched folder that is a directory |
| Janitor.OneFileScan | desktop_janitor.py:45-96 | a scan of one directory holding one regular file yields exactly that file's resolved record and its effects |
| Janitor.ArchiveRuleMovesMatchingFile | desktop_janitor.py:67-91 | a file whose lower-cased name ends with the rule's extension and whose age reaches the threshold gets one Moved record to the destination (for example `report.pdf`, 10 days old, under `.pdf` and 7 days; ExtensionMatchesStem shows that every name `stem + ext` meets the extension requirement for `Lower(ext)`); a real run creates the destination and moves the file from the folder to it |
| Janitor.DeleteRuleRemovesMatchingFile | desktop_janitor.py:72-95 | a file whose name contains the keyword in any case gets one Deleted record with "N/A" as its destination; a real run removes exactly that file from the folder |

## Left out

- `load_config`, JSON parsing and the "config not found" message (desktop_janitor.py:16-21, 33-36). The configuration is an already-parsed value. The defaults of `config.get` for missing `folders_to_watch` and `rules` (lines 40-41) are not modelled. A config that parses to an empty object, on which the code stops as if no config existed, is not modelled either.
- Computing the age from `os.path.getmtime` and `time.time()` (lines 26-27). This is clock and filesystem access with float division. Each entry carries its age instead, as a real number, and only the OSError fallback to 0 is kept. Python re-reads the age for every rule; the model assumes it does not change within a pass. NaN ages and thresholds are not modelled.
- `os.listdir`, `os.path.isdir` and `os.path.isfile` (lines 46-49). Their results are inputs. Listings are a snapshot taken before the scan. On a real disk the earlier moves, removals and `makedirs` calls of the same run change what later folders list, and the model does not capture this. A folder watched twice is listed again after its files were moved or removed. A file moved into a folder scanned later shows up there again. A destination created by `makedirs` can turn a later watched path into a directory. For example, watching `/d` twice with a rule deleting names containing "tmp" gives one record for `/d/tmp.txt` on a real run and two on a dry run; the model gives two in both cases.
- `os.makedirs`, `shutil.move` and `os.remove` (lines 89-90, 94). They are recorded as `Effect` values and assumed to succeed. In the code a failing call raises and ends the whole scan; the model has no such failure path.
- `Text.Lower`: lower-cases only the ASCII letters, whereas Python's `str.lower` also maps non-ASCII letters.
- `Rules.Conditions`: condition and action values of the wrong JSON type, such as a string where a list is expected, or a `null` action, are outside the model. So are values that Python treats as falsy, other than a missing or empty destination.
- The `rich` console output: panel, progress bar, summary table and messages (lines 38, 44, 50, 53, 98-110). Also left out are `time.sleep`, `argparse` and the closing `console.input` (lines 54, 112-121). These are user interface only.
