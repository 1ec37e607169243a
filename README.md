# CWRU ingestion and result extraction for DAGCN, in Dafny

This project models the data-ingestion core of the DAGCN cross-domain fault-diagnosis code and proves properties of that model. It covers three parts:

- **Dataset ingestion** (`datasets/CWRU.py`):
  - the domain and fault-class registries;
  - `data_load`, which guesses the drive-end channel name from a numeric file name, falls back to the first "DE"/"TIME" key, and cuts the signal into 1024-sample windows;
  - `get_files`, which walks domains × classes × `.mat` files and skips missing directories, empty directories and files that fail to load;
  - `CWRU.data_split`, which checks per-label counts and returns four datasets in transfer mode or three otherwise.
- **Result extraction** (`scripts/extract_results.py`):
  - reading the `(epoch, target_val accuracy)` pairs out of a training log;
  - summarising the last N epochs and the best epoch.
- **The transfer-task table** (`scripts/config.py`): `TRANSFER_TASKS`.

Modules, one concept each:

| module | file | models |
|---|---|---|
| `Wrappers` | `wrappers.dfy` | `Option`, `Result` |
| `Text` | `text.dfy` | the ASCII `str` operations the code uses |
| `Registry` | `registry.dfy` | `DOMAIN_MAP`, `CLASS_MAP` |
| `DataLoad` | `data_load.dfy` | `signal_size`, `data_load` |
| `GetFiles` | `get_files.dfy` | `get_files` |
| `TransferSplit` | `transfer_split.dfy` | class `CWRU`, `data_split` |
| `ExtractResults` | `extract_results.dfy` | `extract_accuracies_from_log`, `calculate_final_result`, the detail-line numbering |
| `Config` | `config.dfy` | `TRANSFER_TASKS` |

How the model treats the source's inputs and library calls:

- **Inputs.** I/O and library calls become inputs:
  - The directory tree is a map from (class name, domain label) to the directory's listing. A pair missing from the map is a directory that does not exist.
  - Each listing entry holds the file name and what `loadmat` makes of it. `None` means loading raises. Otherwise it is the file's variables in enumeration order, each an already flat signal of opaque samples.
  - `train_test_split` is a function from the label column to the training and validation row indices. `None` means it raises.
  - The log-line regular expression is a per-line matcher.
- **Loops stay loops.**
  - `Segment` keeps the `start`/`end` loop.
  - `LoadClassDir`, `LoadDomain` and `GetFilesOf` keep the `get_files` loops.
  - `ExtractAccuraciesFromLog` keeps the line loop.
  - Each loop method's `ensures` ties its result to a specification function (`Windows`, `ClassDirSegments`, `DomainSegments`, `Assemble`, `ParseLines`), which the lemmas then describe.
- **Python exceptions become results.** The exceptions of the modelled logic are explicit `Failure` or `Raised`/`Raises` values, so those error paths are modelled and not excluded by preconditions. Two I/O failures have no value in the model; they are listed under "Left out".

Behaviour of the code that the model keeps as written:

- The count check (`min_samples < 2`) lives in `data_split` and runs only in transfer mode. It does not run for every assembled dataset. Its error reports only the smallest count, not the class.
- The fallback takes the first matching key in the file's enumeration order. It does not sort the keys.
- The numeric guess is tried against all the file's keys, including the internal `__` keys. The guess always starts with `X`, so this cannot select an internal key (`SelectedKeyNotInternal`).
- An empty assembled dataset passes the count check: pandas gives `NaN` for the minimum, and `NaN < 2` is false. The model's `TooFew` is false on empty labels.

## Model

| member | source | states |
|---|---|---|
| Text.NatToStringRoundTrip | DAGCN/datasets/CWRU.py:76 | `int(str(n)) == n`: formatting then parsing gives the number back |
| Text.DigitsValue | DAGCN/datasets/CWRU.py:76 | `int(s)` of a digit string is below 10^len, and at least 10^(len−1) without a leading zero |
| Text.NatToString | DAGCN/datasets/CWRU.py:14 | the decimal form of a number, as in the `DOMAIN_MAP` labels and the `Task_{s}to{t}` keys: all digits, with no leading zero unless it is "0" |
| Text.Upper | DAGCN/datasets/CWRU.py:88 | `upper()` keeps the length, moves each lower-case letter to its capital (32 code points down), leaves every other character as it is, and leaves no lower-case letter |
| Text.Lower | DAGCN/datasets/CWRU.py:39 | `lower()` keeps the length, moves each capital to its lower-case letter (32 code points up), leaves every other character as it is, and leaves no capital |
| Text.UpperIdempotent | DAGCN/datasets/CWRU.py:88 | upper-casing twice is upper-casing once, and upper-casing the lower-cased string gives the same result as upper-casing the original |
| Text.LowerIdempotent | DAGCN/datasets/CWRU.py:39 | lower-casing twice is lower-casing once, and lower-casing the upper-cased string gives the same result as lower-casing the original |
| Registry.DomainLabel | DAGCN/datasets/CWRU.py:14 | a label exists exactly for ids 0..3, and it is the id in decimal followed by "HP"; otherwise the lookup fails (the `KeyError` of line 30) |
| Registry.ClassId | DAGCN/datasets/CWRU.py:17 | an id exists exactly for the four registered names, it is below 4, and the registry's entry at that id is (name, id) |
| Registry.ClassIdIn | DAGCN/datasets/CWRU.py:17 | a found id is paired with the name in the table; a miss means no entry has that name |
| Registry.ClassName | DAGCN/datasets/CWRU.py:153 | the reverse lookup succeeds exactly for ids 0..3 and returns the name registered with that id; otherwise indexing the empty list raises |
| Registry.ClassMapInjective | DAGCN/datasets/CWRU.py:17 | no two classes share a name or an id |
| Registry.DomainMapInjective | DAGCN/datasets/CWRU.py:14 | no two domains share a label |
| Registry.ClassRoundTrip | DAGCN/datasets/CWRU.py:17 | name→id and id→name are inverse on the registry |
| DataLoad.Get | DAGCN/datasets/CWRU.py:101 | `m[var]` returns the first value stored under that key (`None` where the conversion raises) |
| DataLoad.BaseName | DAGCN/datasets/CWRU.py:74 | `basename` is a '/'-free suffix of the path; it is the whole path, or it starts right after a '/'; it is the whole path when there is no '/' |
| DataLoad.LastDot | DAGCN/datasets/CWRU.py:74 | the position of a '.' with no '.' after it, or none when there is no '.' |
| DataLoad.SplitExtRoot | DAGCN/datasets/CWRU.py:74 | `splitext(...)[0]` is a prefix of the name; when it differs, it ends just before the last '.' and holds a character other than '.'; it differs whenever some '.' has a non-dot character before it; a name without '.' stays whole |
| DataLoad.DataName | DAGCN/datasets/CWRU.py:74 | the data name is '/'-free and no longer than the path, and it is the path itself when that has neither '/' nor '.' |
| DataLoad.DataNameOfNumberedFile | DAGCN/datasets/CWRU.py:74 | a numbered file "<digits>.mat" has data name "<digits>" |
| DataLoad.GuessForFile97 | DAGCN/datasets/CWRU.py:74-78 | the file "97.mat" guesses the variable "X097_DE_time" |
| DataLoad.GuessedName | DAGCN/datasets/CWRU.py:75-80 | a guess exists exactly for an all-digit base name; it is "X0"+digits+"_DE_time" below 100 and "X"+digits+"_DE_time" from 100 on |
| DataLoad.GuessFor97 | DAGCN/datasets/CWRU.py:77-78 | base name "97" guesses "X097_DE_time" |
| DataLoad.GuessFor130 | DAGCN/datasets/CWRU.py:79-80 | base name "130" guesses "X130_DE_time" |
| DataLoad.GuessIsThreeDigitToken | DAGCN/datasets/CWRU.py:75-80 | for file numbers 10..999 the guess is "X", three digits denoting the number, then "_DE_time" |
| DataLoad.Filter | DAGCN/datasets/CWRU.py:86-93 | a list comprehension keeps exactly the qualifying elements and never grows the list |
| DataLoad.FilterHead | DAGCN/datasets/CWRU.py:90 | `xs[0]` of a filtered list is the first element, in order, that qualifies |
| DataLoad.FilterFilter | DAGCN/datasets/CWRU.py:86-93 | filtering the non-internal keys, then by "DE"/"TIME", is one filter by the conjunction |
| DataLoad.FallbackKey | DAGCN/datasets/CWRU.py:85-95 | a key is found exactly when some non-internal key contains "DE", ignoring case; it is in the file and not internal; it is the first non-internal "DE"+"TIME" key if there is one, else the first non-internal "DE" key |
| DataLoad.SelectKey | DAGCN/datasets/CWRU.py:71-95 | the selected key is a key of the file; a guess that is a key wins, otherwise the fallback decides; nothing is selected exactly when the guess is absent or not a key and no non-internal key contains "DE" |
| DataLoad.NonNumericUsesFallback | DAGCN/datasets/CWRU.py:75 | a non-numeric base name always goes to the fallback |
| DataLoad.SelectedKeyNotInternal | DAGCN/datasets/CWRU.py:81-95 | the selected key never starts with "__" |
| DataLoad.Windows | DAGCN/datasets/CWRU.py:106-114 | ⌊L/1024⌋ windows, each of 1024 samples |
| DataLoad.WindowsCover | DAGCN/datasets/CWRU.py:106-114 | the windows laid end to end are the signal's first ⌊L/1024⌋·1024 samples: no overlap, no gap, and the dropped remainder is shorter than a window |
| DataLoad.ShortSignalNoWindows | DAGCN/datasets/CWRU.py:110 | a signal shorter than 1024 samples gives no window |
| DataLoad.Segment | DAGCN/datasets/CWRU.py:106-116 | the loop produces exactly `Windows(fl)` (window i is samples [i·1024, (i+1)·1024)) and one label per window |
| DataLoad.Load | DAGCN/datasets/CWRU.py:61-116 | a failed `loadmat`, a missing channel (the `KeyError` of lines 97-98) and a value the conversion of lines 101-103 rejects are the only failures, each exactly in its case; on success every label is the class id and the data are the windows of the value stored under the key `SelectKey` picked |
| DataLoad.DataLoadFile | DAGCN/datasets/CWRU.py:61-116 | the method computes `Load` |
| GetFiles.MatFiles | DAGCN/datasets/CWRU.py:39 | exactly the listing's entries whose lower-cased name ends in ".mat"; empty exactly when there are none |
| GetFiles.MatIndices | DAGCN/datasets/CWRU.py:39 | the positions of the `.mat` entries, strictly increasing, every `.mat` position included |
| GetFiles.MatFilesInListingOrder | DAGCN/datasets/CWRU.py:39 | the `.mat` files keep listing order: the k-th of them is the entry at the k-th `.mat` position |
| GetFiles.IndexedStep | DAGCN/datasets/CWRU.py:39 | keeping or dropping the last entry preserves the picked-entries-at-picked-positions correspondence |
| GetFiles.FileSegments | DAGCN/datasets/CWRU.py:49-55 | a file contributes samples all labelled with the class id, and nothing when its load raises |
| GetFiles.FilesSegments | DAGCN/datasets/CWRU.py:47-55 | a directory's samples all carry its class id, with one label per sample; no files give no samples |
| GetFiles.ClassDirSegments | DAGCN/datasets/CWRU.py:33-55 | a missing directory and a directory without `.mat` files contribute nothing; an existing directory contributes the samples of its `.mat` files, in listing order; all labels are the class id |
| GetFiles.ClassesSegments | DAGCN/datasets/CWRU.py:32-55 | one label per sample, each the id of one of the classes walked |
| GetFiles.DomainSegments | DAGCN/datasets/CWRU.py:32-55 | one label per sample for a whole domain, each one of the four class ids 0..3 |
| GetFiles.Assemble | DAGCN/datasets/CWRU.py:27-58 | on success `data` and `lab` have equal length |
| GetFiles.AssembleOne | DAGCN/datasets/CWRU.py:29-32 | a single known domain id yields exactly that domain's samples; with `AssembleAppend`, a list of known ids yields their domains' samples in order |
| GetFiles.JoinAssociative | DAGCN/datasets/CWRU.py:51-52 | extending the lists is associative, with the empty lists as identity |
| GetFiles.FilesSegmentsStep | DAGCN/datasets/CWRU.py:47-55 | one iteration of the file loop adds that file's windows, or nothing when its load fails |
| GetFiles.LoadClassDir | DAGCN/datasets/CWRU.py:33-55 | the loop over one directory's files computes `ClassDirSegments` |
| GetFiles.LoadDomain | DAGCN/datasets/CWRU.py:32-55 | the loop over the classes computes `DomainSegments` |
| GetFiles.GetFilesOf | DAGCN/datasets/CWRU.py:20-58 | the domain loop computes `Assemble`, returning at the first unknown domain id |
| GetFiles.AssembleFailsOnlyOnUnknownDomain | DAGCN/datasets/CWRU.py:29-30 | the pass fails exactly when some requested id is not in `DOMAIN_MAP`, and then it names the first such id; missing directories, empty directories and failing files never abort it |
| GetFiles.AssembleAppend | DAGCN/datasets/CWRU.py:29 | domains are taken in the caller's order: the samples for `n1 + n2` are those of `n1` followed by those of `n2` |
| GetFiles.DomainSegmentsByClass | DAGCN/datasets/CWRU.py:32-55 | a domain's samples are the normal, inner, ball and outer directories' samples in that order; each class directory's samples carry `CLASS_MAP[cname]` |
| GetFiles.AssembleLabelsRegistered | DAGCN/datasets/CWRU.py:32-52 | every produced label is a registered class id |
| GetFiles.FailedFileSkipped | DAGCN/datasets/CWRU.py:53-55 | a file whose load raises changes nothing: removing it leaves the directory's samples as they were |
| TransferSplit.PickConcat | DAGCN/datasets/CWRU.py:161-163 | taking the rows at `a + b` is taking those at `a`, then those at `b` |
| TransferSplit.Select | DAGCN/datasets/CWRU.py:161-165 | the dataset built from row indices holds exactly those rows |
| TransferSplit.PickPermutation | DAGCN/datasets/CWRU.py:161-163 | taking every row index exactly once, in any order, permutes the rows |
| TransferSplit.PartitionKeepsRows | DAGCN/datasets/CWRU.py:161-165 | a partitioning split neither loses, duplicates nor invents a row: the two sides hold the whole dataset's rows as a multiset |
| TransferSplit.MinCountOver | DAGCN/datasets/CWRU.py:151-157 | the smallest per-label count over the labels of the first k rows, `None` exactly when k is 0 |
| TransferSplit.MinCount | DAGCN/datasets/CWRU.py:151-157 | `label_counts.min()` is a count some present label has and bounds every present label's count; `None` exactly when there are no rows |
| TransferSplit.TooFew | DAGCN/datasets/CWRU.py:157-159 | the guard refuses exactly when some present label has fewer than 2 rows, that is, exactly when one occurs only once |
| TransferSplit.SplitStep | DAGCN/datasets/CWRU.py:157-165 | the count check fails exactly when it is on and a present label has fewer than 2 rows, reporting the minimum; otherwise the split fails only where the splitter raises; a result is a row partition of the input, its training side the rows at the splitter's training indices and its validation side those at its validation indices |
| TransferSplit.LoadDomains | DAGCN/datasets/CWRU.py:147-171 | loading a domain list is `get_files`, its unknown-domain error carried over |
| TransferSplit.CWRU.DataSplit | DAGCN/datasets/CWRU.py:141-214 | transfer mode returns four datasets and the other mode three; source and target train/val are row partitions of their assembled domains; in the three-dataset mode the whole target set is the validation set; the count error arises only in transfer mode, for the source exactly when its counts are too low, for the target only after the source passed its check and split; unknown domains come from the source first, then the target |
| TransferSplit.DataSplitErrorOrder | DAGCN/datasets/CWRU.py:141-171 | when several errors apply, the first one raised wins: an unknown source domain, then the source's split failure (after its count check in transfer mode), then an unknown target domain |
| TransferSplit.DataSplitSucceedsIff | DAGCN/datasets/CWRU.py:141-214 | `data_split` returns exactly when both domain lists assemble, the source splitter returns, and in transfer mode neither side is refused by the count check and the target splitter returns |
| TransferSplit.DataSplitSidesFromSplitter | DAGCN/datasets/CWRU.py:161-188 | the source training and validation datasets are the source rows at the splitter's training and validation indices, in that order, and in transfer mode the target datasets are likewise the target rows at its indices |
| TransferSplit.DataSplitFailureSide | DAGCN/datasets/CWRU.py:157-186 | a failed source split means the splitter raised on the source labels; a failed target split happens only in transfer mode, after the source assembled, passed its check and split, and then the splitter raised on the target labels |
| TransferSplit.DataSplitTargetTooFew | DAGCN/datasets/CWRU.py:180-182 | an assembled target with a label that occurs once, after a source that passed its check and split, gives exactly the target's count error with its minimum |
| ExtractResults.ParseLines | DAGCN/scripts/extract_results.py:24-34 | the two lists have equal length and are no longer than the log; a raised conversion names a line of the log |
| ExtractResults.ExtractAccuraciesFromLog | DAGCN/scripts/extract_results.py:16-39 | a missing log yields `None`; otherwise the loop computes `ParseLines` |
| ExtractResults.RaisedStays | DAGCN/scripts/extract_results.py:27-32 | once a line has raised, later lines change nothing |
| ExtractResults.MatchIndices | DAGCN/scripts/extract_results.py:29-30 | the positions of the matching lines, strictly increasing, every matching line included |
| ExtractResults.ParsedFollowsMatches | DAGCN/scripts/extract_results.py:27-34 | one entry per matching line, in line order, each that line's epoch and accuracy; other lines add nothing |
| ExtractResults.RaisedAtFirstBadNumber | DAGCN/scripts/extract_results.py:29-32 | the pass raises exactly when some matching line's accuracy text is not a number, and then at the first such line |
| ExtractResults.PySuffix | DAGCN/scripts/extract_results.py:47 | `xs[-n:]`: a suffix; the last `n` (at most all) for `n > 0`; the whole list for `n == 0`; for `n < 0` all but the first `-n` (nothing when there are fewer) |
| ExtractResults.MaxOf | DAGCN/scripts/extract_results.py:53-55 | `max` is an element and bounds every element |
| ExtractResults.MinOf | DAGCN/scripts/extract_results.py:52 | `min` is an element and is bounded by every element |
| ExtractResults.IndexOf | DAGCN/scripts/extract_results.py:56 | `index(v)` is the first position holding `v` |
| ExtractResults.Summarise | DAGCN/scripts/extract_results.py:49-57 | the summary's min/max are members of the last values and bound them; the best is the run's maximum; its epoch is the one at the first index holding the maximum; it raises exactly when `epochs` is too short for that index |
| ExtractResults.CalculateFinalResult | DAGCN/scripts/extract_results.py:42-57 | `None` exactly when the input is absent or too short; the last values are `xs[-last_n:]`; it raises only on an empty suffix or a too-short `epochs`; it succeeds whenever 0 < `last_n` ≤ length and the lists are parallel |
| ExtractResults.FinalResultLastN | DAGCN/scripts/extract_results.py:47 | for `last_n > 0` the last values are exactly the last `last_n` accuracies, in order |
| ExtractResults.FinalResultRange | DAGCN/scripts/extract_results.py:52-53 | `min` ≤ every last value ≤ `max`, both members |
| ExtractResults.FinalResultBest | DAGCN/scripts/extract_results.py:55-56 | `best_overall` is an accuracy ≥ every accuracy, and `best_epoch` is the epoch at its first index |
| ExtractResults.DetailEpochNumbers | DAGCN/scripts/extract_results.py:131-132 | one number per detail line |
| ExtractResults.DetailNumbersForTen | DAGCN/scripts/extract_results.py:131-132 | with ten values the lines are numbered len−9 to len, consecutively |
| ExtractResults.DetailNumbersArePositions | DAGCN/scripts/extract_results.py:131-132 | the number beside each of the last ten values is its 1-based position in the log, not its logged epoch |
| Config.TaskCount | DAGCN/scripts/config.py:13-29 | the table has 12 tasks |
| Config.TasksWellFormed | DAGCN/scripts/config.py:14-28 | every source and target is a one-element list of a domain in 0..3, and they differ |
| Config.TaskKeysMatch | DAGCN/scripts/config.py:14-28 | every key is `Task_{s}to{t}` for its task's source and target |
| Config.TaskNamesMatch | DAGCN/scripts/config.py:14-28 | every name is `DOMAIN_MAP[s] + "→" + DOMAIN_MAP[t]` |
| Config.TasksConsistent | DAGCN/scripts/config.py:14-28 | well-formedness, keys and names together |
| Config.TableLayout | DAGCN/scripts/config.py:14-28 | row i goes from domain i/3 to the (i mod 3)-th of the other domains |
| Config.EveryPairPresent | DAGCN/scripts/config.py:14-28 | every ordered pair of distinct domains is a task |
| Config.NoPairTwice | DAGCN/scripts/config.py:14-28 | no pair of domains and no key occurs twice |

## Left out

- `loadmat`, `os.listdir`, `os.path.isdir` and `os.path.join` are inputs: the directory tree map and each entry's decoded content. Path joining and platform path rules are not modelled. `BaseName` splits on '/' only.
- DataLoad.Load: the numpy `squeeze`/`astype(float32)`/`reshape` conversion (CWRU.py:101-103) is modelled only by its outcome. Each variable is either an already flat sequence of opaque samples or `None`, where the conversion raises (`Unconvertible`). Float32 rounding and the shapes of multi-dimensional arrays are not modelled.
- A log file that exists but cannot be read (extract_results.py:21-22, for instance a directory or text that is not UTF-8) is not modelled: `ExtractAccuraciesFromLog` takes the log as absent or as its lines.
- An `os.listdir` that raises (CWRU.py:39, outside the `try` of lines 49-55, so its `OSError` would abort `get_files`) is not modelled: every existing directory in the tree has a listing.
- `tqdm` progress bars and every `print`/warning message are output only and are not modelled.
- `train_test_split` is modelled only as a splitter that returns a partition of the row indices whenever it returns at all. The seed-40 permutation, the 0.2 test size and the per-class rounding live in the library, so the 32/8 split of a 4×10 dataset is not stated.
- `value_counts` is modelled by multiset counts of the labels. Its `sort_index` only orders the printed report.
- The `Compose`/`Reshape`/`Normalize`/`Retype` transforms, the `dataset` wrapper and the `normlizetype` setting are defined in files that are not part of this model. The model's datasets are the `(data, label)` rows a wrapper would hold.
- The class attributes `num_classes` and `inputchannel` (CWRU.py:120-121) are constants that the modelled code does not read.
- The `DOMAIN_MAP` lookups inside the prints of CWRU.py:145 and 169 raise for the same ids that `get_files` rejects, and through the same first-unknown-id rule. The model keeps only `get_files`' error.
- The mean and standard deviation in `calculate_final_result` are floating-point numerics, and are not modelled.
- Accuracies are integers standing for the logged decimals, because only their order is used.
- The regular expression of extract_results.py:29 is abstracted as a per-line matcher with three outcomes: no match, a match with `(epoch, accuracy)`, or a match whose accuracy text `float` rejects.
- `extract_all_results` is not modelled: its directory globbing, file writing and CSV output are I/O. Only its detail-line numbering (lines 131-132) is kept.
- `PAPER_RESULTS` and the other constants of config.py besides `TRANSFER_TASKS` are not modelled, and neither are `train_all_tasks.py`, `train_advanced.py` and `generate_table.py`. They are orchestration, training and formatting code outside the ingestion core.
- `isdigit`, `upper` and `lower` are modelled on ASCII. Python's Unicode digits and case mappings, such as `'²'.isdigit()` being true while `int('²')` raises, are not modelled.
- `GetFiles.LoadClassDir`, `GetFiles.LoadDomain`, `GetFiles.GetFilesOf`: the three nested loops of `get_files` are three methods, each proved against its specification function. The lists are passed up and concatenated; they are not extended in place.
