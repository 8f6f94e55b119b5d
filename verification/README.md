# NoBack — a Dafny model of the batch background-removal tool

NoBack is a small desktop tool (`noback.py`) that removes the background of
images in batch. The user picks some photos, or a folder, or drops files and
folders onto the window. Then they pick an output folder and press the run
button. Every input is passed to a background-removal model and saved as
`<stem>_nobg.png` in the output folder. Progress and a one-line result per image
appear in the window.

This project models the part of the tool that is not GUI wiring or image
processing. It has four modules:

- `Paths` (`paths.dfy`): pathlib's final component, `suffix` and `stem` of a
  path, the case-insensitive extension check against the seven supported
  extensions, and the output naming rule.
- `Collector` (`collector.dfy`): the recursive folder scan filtered by
  extension, and the expansion of a drop payload. The loop that builds the
  dropped work list is a method.
  - The filesystem is an oracle: `isFile`, `isDir`, and the sequence a
    recursive listing of a directory yields.
- `Batch` (`batch.dfy`): the per-item step and the log lines the window shows.
  It also gives the specification of a whole run as a sequence of observable
  events: a line logged, the progress bar set, an item attempted.
  - The background-removal step is an oracle `Converter`. For an input and an
    output folder, it says whether the step succeeds or raises, and with which
    message.
- `NoBackApp` (`app.dfy`): the window as a class. Its fields are the inputs,
  the output folder, the progress bar (`maximum`, `value`), the log, and a ghost
  trace of events. Its methods are the handlers of the three selection buttons,
  of a drop, and of the run button.
  - Each handler is proved against the functions of the other modules.
  - The run button is a loop, with invariants for the progress value, the
    events so far and the log.

Dialog results and the drop payload are parameters. A cancelled directory
dialog is the empty string, and a cancelled file dialog is the empty sequence.

Behaviours of the code worth knowing:

- **No deduplication.** The folder scan and the drop expansion do not
  deduplicate: a file dropped twice is processed twice
  (`Collector.DroppedKeepsDuplicates`).
- **Folder scans do not check for regular files.** A folder scan keeps every
  entry whose suffix is supported, including a directory named like `x.png`.
  Only the drop handler checks `is_file`, and only for the dropped entries
  themselves.
- **The output folder is created per item.** The folder is created inside the
  per-item `try`, so a failure to create it is an ordinary per-item failure.
  The run is not aborted before the first item.
- **Progress is counted in items, not as a fraction.** The progress bar goes
  from 0 to N out of N.
- **Choosing a folder always replaces the inputs.** Choosing a folder replaces
  the inputs even when the folder holds no images. A drop replaces them only
  when it yields at least one image.

## Model

| member | source | states |
|---|---|---|
| Paths.NameIsLastComponent | noback.py:143-145 | the name of a path (`Path.name`) holds no separator, is a suffix of the path, and is preceded by a separator unless it is the whole path |
| Paths.Name | noback.py:143-145 | definition, no contract: `Path.name`, the text after the last separator; Paths.NameIsLastComponent states its properties |
| Paths.StemAndSuffix | noback.py:45 | a name is its stem followed by its suffix; the suffix is empty or a dot followed by at least one non-dot character; the stem is empty only for the empty name and holds a separator only if the name does |
| Paths.Suffix | noback.py:52 | definition, no contract: `Path.suffix`, from the last dot that is neither the first nor the last character of the name; Paths.StemAndSuffix and Paths.EligibleIffEndsWithExtension state its properties |
| Paths.Stem | noback.py:45 | definition, no contract: `Path.stem`, the name without its suffix; Paths.StemAndSuffix and Paths.SplitStemAndExtension state its properties |
| Paths.Lower | noback.py:52 | `str.lower()`: the result has the length of the input; Paths.SuffixOfLower states that it commutes with suffix and stem |
| Paths.Eligible | noback.py:52 | definition, no contract: the lower-cased suffix is a supported extension; Paths.EligibleIffEndsWithExtension and Paths.EligibleIgnoresCase state its properties |
| Paths.SupportedExtShape | noback.py:39 | every supported extension is a dot followed by at least three characters, none of them a dot |
| Paths.JoinInDirectory | noback.py:46 | `out_dir / name` has `out_dir` as its parent: it is `out_dir`, then a separator unless `out_dir` is empty or already ends in one, then `name`, which is its final component |
| Paths.Join | noback.py:46 | definition, no contract: `out_dir / name`; Paths.JoinInDirectory states its properties |
| Paths.OutName | noback.py:45-46 | definition, no contract: the input's stem followed by `_nobg.png`; Paths.TaggedNameSplits and Paths.OutPathNaming state its properties |
| Paths.OutPath | noback.py:46 | definition, no contract: the output name joined to the output folder; Paths.OutPathNaming and Paths.SameStemSameOutput state its properties |
| Paths.OutPathNaming | noback.py:45-46 | the output path lies directly in the output folder: the folder, then a separator exactly when the folder is non-empty and does not already end in one, then the final component; its name is the input's stem followed by `_nobg.png`; its suffix is `.png` whatever the input's extension and its case; its stem is the input's stem followed by `_nobg`; it is itself an eligible image |
| Paths.TaggedNameSplits | noback.py:46 | the name `<s>_nobg.png` splits into stem `<s>_nobg` and suffix `.png` |
| Paths.SplitStemAndExtension | noback.py:45 | a name made of a non-empty stem and an extension splits back into exactly that stem and that extension |
| Paths.SameStemSameOutput | noback.py:45-46 | two inputs with the same stem, in any folders and with any extensions, are written to the same output path, named `<stem>_nobg.png` |
| Paths.SuffixOfLower | noback.py:52 | suffix and stem commute with lower-casing |
| Paths.EligibleIgnoresCase | noback.py:52 | two paths whose names agree once lower-cased are both eligible or both not |
| Paths.EligibleIffEndsWithExtension | noback.py:52 | a path is eligible exactly when its name ends, ignoring case, with a supported extension that is not the whole name |
| Paths.PhotoJpegExample | noback.py:121 | `photo.JPEG` and `photo.jpeg` are both eligible and are both written as `photo_nobg.png` |
| Paths.HiddenNameHasNoSuffix | noback.py:52 | a file named `.png` has no suffix, is not eligible, and would be written as `.png_nobg.png` |
| Collector.KeepImages | noback.py:50-53 | the folder scan yields an order-preserving subsequence of the traversal in which every path is eligible |
| Collector.KeepImagesCount | noback.py:50-53 | each eligible path occurs in the scan result exactly as often as in the traversal, and every other path not at all |
| Collector.KeepImagesIdempotent | noback.py:52 | filtering a scan result again changes nothing |
| Collector.KeepImagesAppend | noback.py:51-53 | scanning a traversal made of two parts scans each part in turn |
| Collector.ImagesInDir | noback.py:50-53 | definition, no contract: the scan of a folder is the traversal filtered by Collector.KeepImages, whose contract and lemmas state its properties |
| Collector.Contribution | noback.py:120-124 | a dropped entry contributes itself when it is an eligible file, the eligible entries below it when it is a directory, nothing otherwise; every contributed path is eligible |
| Collector.Dropped | noback.py:118-124 | every path in the dropped work list is eligible |
| Collector.DroppedAppend | noback.py:119-124 | the work list of two payloads one after the other is the two work lists one after the other |
| Collector.DroppedMembership | noback.py:119-124 | a path is in the dropped work list exactly when some payload entry contributes it |
| Collector.SkippedEntryIgnored | noback.py:121-124 | an entry that is neither an eligible file nor a directory can be removed from the payload without changing the work list |
| Collector.DroppedKeepsDuplicates | noback.py:119-122 | an eligible file dropped twice is in the work list twice |
| Collector.CollectDropped | noback.py:117-124 | the append/extend loop over the payload builds exactly the payload-order concatenation of the contributions |
| Batch.ProcessImageNaming | noback.py:41-48 | a successful step writes directly in the output folder (the folder, then a separator exactly when the folder is non-empty and does not already end in one, then the file name) a `.png` file named `<stem>_nobg.png` |
| Batch.LogLine.Text | noback.py:102-149 | definition, no contract: the text of each log line, as written at noback.py:102, 108, 114, 127, 138, 143, 145 and 149; Batch.SavedLineText and Batch.DecimalRoundTrip state its properties |
| Batch.ItemLine | noback.py:141-145 | definition, no contract: the success or failure line of one item; Batch.ItemLineReports and Batch.SavedLineText state its properties |
| Batch.ItemLineReports | noback.py:141-145 | an item's log line is about that input; it is a success line exactly when the transform succeeded, naming `<stem>_nobg.png`; otherwise it is a failure line carrying the exception's message |
| Batch.SavedLineText | noback.py:143 | the text of a success line is `✓ <name> → <stem>_nobg.png` |
| Batch.Decimal | noback.py:102 | a count is written as a non-empty string of decimal digits |
| Batch.DecimalRoundTrip | noback.py:102 | the digits written for a count denote that count, with no leading zero |
| Batch.ItemLinesAt | noback.py:140-145 | item i's line is at position i of the run's item lines |
| Batch.ItemEventsProjections | noback.py:140-147 | after k items: the first k items were attempted in order, their k lines were logged in order, and the progress values were 1, ..., k |
| Batch.ItemEventsAt | noback.py:140-147 | item j's attempt, line and progress update sit together at positions 3j, 3j+1 and 3j+2, before anything of item j+1 |
| Batch.RunEventsProjections | noback.py:137-149 | a run attempts every item once in order, logs the start line, the item lines in order and the closing line, and sets progress to 0, 1, ..., N |
| Batch.RunEvents | noback.py:137-149 | definition, no contract: the events of a whole run; Batch.RunEventsProjections, Batch.RunLogLines and Batch.RunProgressCounts state its properties |
| Batch.RunAttemptsEachItemOnce | noback.py:140-142 | a run attempts each input exactly once, in list order, whatever fails |
| Batch.RunLogLines | noback.py:138-149 | a run of N items logs N + 2 lines: the start line, the item lines in input order, and the closing line |
| Batch.RunProgressCounts | noback.py:137-146 | progress is set to 0, 1, ..., N in that order, and always out of N |
| Batch.RunEventsMaximum | noback.py:137-146 | every progress update of a run is out of the number of items |
| Batch.CountingAt | noback.py:140 | `enumerate(..., start=1)` numbering: the k numbers counted from lo are lo, ..., lo + k - 1 |
| NoBackApp.App.constructor | noback.py:56-61 | a new window has no inputs, no output folder, an empty log, and the progress bar at 0 of 100 |
| NoBackApp.App.AppendLog | noback.py:88-93 | one line is appended to the log and nothing else changes |
| NoBackApp.App.ConfigureProgress | noback.py:137 | the progress bar takes the given maximum and value; the log and the selection are unchanged |
| NoBackApp.App.ChooseFiles | noback.py:95-102 | a non-empty selection replaces the inputs as given, unfiltered, and its count is logged; a cancelled dialog changes nothing |
| NoBackApp.App.ChooseFolder | noback.py:104-108 | a chosen folder replaces the inputs by its scan result, even an empty one, and logs the count; a cancelled dialog changes nothing |
| NoBackApp.App.ChooseOutput | noback.py:110-114 | a chosen folder becomes the output folder and is logged; the inputs are untouched; a cancelled dialog changes nothing |
| NoBackApp.App.OnDrop | noback.py:116-127 | a drop that yields images replaces the inputs by the dropped work list and logs the count; a drop that yields none changes nothing |
| NoBackApp.App.ProcessItem | noback.py:141-147 | one turn of the loop: the item is attempted, its success or failure line is logged, and the progress value is set to its position while the maximum is kept |
| NoBackApp.App.SetProgressValue | noback.py:146 | only the progress value changes; the maximum, the log and the selection are unchanged |
| NoBackApp.App.RunItems | noback.py:140-147 | the loop attempts every item in order and ends with progress N of N; the events it adds are the run's item events |
| NoBackApp.App.RunBatch | noback.py:137-149 | a run's events are exactly the specified run events; the log grows by the start line, the item lines and the closing line; progress ends at N of N |
| NoBackApp.App.Process | noback.py:129-149 | without inputs, or else without an output folder, it returns that warning and changes nothing. Otherwise it runs the batch: every input attempted exactly once in order, N + 2 lines logged, progress at N of N. It always keeps the inputs and the output folder |
| NoBackApp.Warning.Message | noback.py:130-135 | definition, no contract: the text of each warning box; NoBackApp.App.Process states when each is returned |

## Left out

- The virtual-environment bootstrap (`ensure_venv`, `restart_in_venv`, noback.py:8-30): it installs packages and replaces the process.
- Opening, converting and saving the image, and the background-removal model itself (noback.py:42-47): these, together with the creation of the output folder, are the `Converter` oracle. The model knows only success or an exception message per input.
- The transform is modelled as stateless: its outcome depends only on the input and the output folder. An input listed twice gets the same outcome both times, whereas the real step can differ between attempts (a transient write failure, or a file an earlier item overwrote).
- The cropping step and the worker thread of the second version of the tool: they are not part of this model.
- Tk layout, dialogs, warning boxes, `update_idletasks`, and the splitting of the drop payload with `splitlist` (noback.py:55-93, 96-99, 105, 111, 117): dialog results and the split payload are parameters, and a warning is the method's result.
- The order of `rglob`: it is whatever sequence the filesystem oracle gives for a folder.
- Paths.Lower: models `str.lower()` on ASCII letters only, because non-ASCII case mappings are not modelled.
- Paths.Suffix: follows the suffix rule of pathlib up to Python 3.13, where a name that ends in a dot has no suffix.
- Exceptions that are not `Exception`s (noback.py:144): a `KeyboardInterrupt` or `SystemExit` raised while an image is processed ends the run button's handler mid-run, with partial progress and no closing line. The `Converter` oracle only succeeds or raises an ordinary exception, so the model cannot express this.
- Windows paths: paths are POSIX only, with `/` as the separator. Drives and `\` separators of `WindowsPath` are not modelled.
- Path normalisation by `Path(...)`: paths are taken as already normalised. The current directory, which pathlib writes `.`, is the empty path here: pathlib gives `.` an empty name and makes `. / n` equal to `n`, whereas the model would read `.` as a name. The dialogs return absolute paths, so this case does not arise.
- The output-folder check of the run button: a `Path` is always truthy, so only an unset folder is refused, and the model checks only for `None`.
- NoBackApp.App.AppendLog: the log is a sequence of lines. The widget's text (each line followed by a newline) and its scrolling are not modelled.
