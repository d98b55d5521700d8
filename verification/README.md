# Octave Online: workspace file gateway and console client, in Dafny

Octave Online runs GNU Octave sessions in the browser. This project models
two pieces of it.

**The back end's workspace file gateway.** `WorkingUtil`
(back-filesystem/src/working-util.js) serves one session's working directory
`cwd`. It does the following:

- It lists the workspace: a recursive walk, at most four levels deep, that skips `.git` at the root and does not follow symbolic links. The result is a dictionary from names relative to `cwd` to either the converted text of a file or the bare fact that the file exists.
- It reports one file (`getFileInfo`).
- It saves a file through an in-memory backup. A failed write puts the old content back and reports the write's error.
- It renames, deletes and downloads files (`readBinary`).

Every file name a caller gives goes through `_safePath`, which joins it onto
`cwd`. If the result does not start with `cwd`, `_safePath` falls back to
`cwd/octave-workspace`.

**Four pieces of the browser client** (client/app/js/client.js):

- The prompt's command history and the up and down keys.
- The plot window's navigation over the plots received so far.
- `fileNameExists`.
- The row label `writeCommand` prints before an echoed command.

Modules:

| file | module | what it holds |
|---|---|---|
| common.dfy | `Common` | bytes, `errno` codes, `Option`, `Result` |
| paths.dfy | `Paths` | Node's POSIX `path.join`/`normalize`/`dirname`/`basename`/`resolve`/`relative` as segment-list normalisation, and lemmas about paths made of plain segments |
| file_system.dfy | `FileSystem` | the operating system as a map from path strings to entries; `lstat`, `readdir`, `readFile`, `writeFile`, `mkdir -p`, `unlink`, `rename` as functions, each with a frame lemma |
| line_endings.dfy | `LineEndings` | the CR LF to LF rewrite of `_convertCharset` |
| classifier.dfy | `Classifier` | the two regular expressions and the three-way decision of `_getFileInfo` |
| working_util.dfy | `Gateway` | `_safePath`, the walk, `listAll`, `getFileInfo`, `saveFile` with injected I/O failures, `renameFile`, `deleteFile`, `readBinary`; the class `WorkingUtil`, whose methods are proved equal to those functions |
| listing_proofs.dfy | `ListingProofs` | soundness and completeness of `listAll` |
| safe_path_proofs.dfy | `SafePathProofs` | what `_safePath` guarantees, and where its test is weaker than a directory boundary |
| file_ops_proofs.dfy | `FileOpsProofs` | round trips and failure behaviour of save, read, rename and delete |
| prompt_history.dfy | `PromptHistory` | the history array and its cursor; the class `Prompt` |
| plots.dfy | `Plots` | plot navigation; the class `PlotWindow` |
| console_text.dfy | `ConsoleText` | `fileNameExists` and the row label of `writeCommand` |

Where the gateway's foreign libraries are needed, they are function values in `Gateway.Config`:

- `mime.lookup`;
- charset detection with `Iconv` (and the UTF-8 round trip around it);
- the md5 digest.

`process.cwd()` is also a field of `Config`, because `path.relative` resolves against it.

### Where the code and its description differ

`_safePath` is described as keeping every name inside the working directory.
The code only tests that the joined path has `cwd` as a *string prefix*
(back-filesystem/src/working-util.js:274). That test is not a directory-boundary test:
from `/w/ab`, the name `../abc/x` reaches `/w/abc/x`, which is a sibling
directory, and it is accepted.

The model follows the code. `SafePathProofs.SafePathSiblingAccepted` proves
the general case. `SafePathProofs.SafePathEscapeFallsBack` proves that a
climb into a sibling whose name does not start with the workspace's own name
is caught.

`_safePath` is lexical only. The reads and writes that follow it
(back-filesystem/src/working-util.js:122-136, 196-243, 258-269) follow a
symbolic link at the resulting path or at any directory above it within
`cwd`, so a link inside the workspace leads them outside it: with `cwd/sub`
a link to `/etc`, the name `sub/passwd` passes `_safePath` and reaches
`/etc/passwd`. The model does not follow links (see "## Left out"), so
its frame properties for reads and saves are about the lexical path.

In three more places the model follows the code where it departs from the
described behaviour:

- One entry that fails (a failed `lstat`, `readdir` or `readFile`) fails
  the whole listing (back-filesystem/src/working-util.js:112-113); the
  other entries of the directory are not listed on their own.
  `Gateway.WalkEntriesFirstError` states this.
- `getFileInfo` does not refuse a directory
  (back-filesystem/src/working-util.js:122-136): `_getFileInfo` runs on
  it anyway, which gives a name-only entry, nothing, or EISDIR when the
  directory's name has a text MIME type. `Gateway.WorkingUtil.GetFileInfo`
  states that such an entry never carries text.
- `listAll` fills a plain object (back-filesystem/src/working-util.js:52-57).
  Assigning the key `__proto__` sets the object's prototype, so a file
  named `__proto__` at the root is not a key of the result.
  `ListingProofs.ToDictKeys` and `ListingProofs.ListAllComplete` state this.

## Model

| member | source | states |
|---|---|---|
| Gateway.WorkingUtil.constructor | back-filesystem/src/working-util.js:40-44 | the gateway serves the given working directory over the given file system |
| Gateway.WorkingUtil.ListAll | back-filesystem/src/working-util.js:46-62 | the dictionary the forEach loop builds is `ToDict` of the walk's list, where assigning the key `__proto__` into the plain object adds nothing, and a walk error is passed on; `ListingProofs.ListAllSound`/`ListAllComplete` say what that dictionary holds |
| Gateway.WorkingUtil.RecursiveReaddir | back-filesystem/src/working-util.js:76-119 | the loop over the directory's entries yields exactly `Walk`: nothing below depth 3, a readdir error passed on, otherwise the entries' results concatenated in listing order, and the first failing entry's error |
| Gateway.WorkingUtil.VisitEntry | back-filesystem/src/working-util.js:88-111 | the per-entry callback is `WalkEntry`: `.git` at the root gives nothing, a directory is walked one level deeper, a regular file is classified, and anything else, symbolic links included, gives nothing |
| Gateway.WalkEntriesFirstError | back-filesystem/src/working-util.js:112-113 | once a prefix of the listing fails, the whole listing fails with that same error, so the walk reports the first failing entry |
| Gateway.FileInfoOfFile | back-filesystem/src/working-util.js:138-169 | a regular file yields its name relative to the workspace with the entry its MIME type, size and name give (converted text, name only, or nothing) |
| Classifier.Classify | back-filesystem/src/working-util.js:141-168 | text is read exactly when the MIME type matches `^text/.*$` and the size is within the limit; a file is left out exactly when the type is not text and the name matches `^(\..*\|octave-\w+)$`; a text file is never left out |
| Classifier.ReservedExamples | back-filesystem/src/working-util.js:37 | dot files and `octave-` followed by word characters are reserved; `octave-`, `octave-a.b`, `a.m` and a dot name containing a line break are not |
| LineEndings.CrlfToLf | back-filesystem/src/working-util.js:191 | the rewrite never lengthens the text, and it leaves a text without CR, or without LF, unchanged |
| LineEndings.ScanDropsCrBeforeLf | back-filesystem/src/working-util.js:191 | the left-to-right rewrite equals an independent definition: drop exactly the CRs that stand right before a LF |
| LineEndings.CrlfRoundTrip | back-filesystem/src/working-util.js:191 | text saved with CR LF line endings reads back as the LF text, with every other CR kept |
| LineEndings.CrlfSurvivesExactlyFromCrCrlf | back-filesystem/src/working-util.js:191 | the output still holds CR LF if and only if the input held CR CR LF |
| LineEndings.NotIdempotent | back-filesystem/src/working-util.js:191 | CR CR LF becomes CR LF and then LF, so applying the rewrite twice differs from applying it once |
| SafePathProofs.SafePathWithinPrefix | back-filesystem/src/working-util.js:271-279 | for any name, the result starts with `cwd`: it is the joined path when that passes the test, and `cwd/octave-workspace` otherwise |
| SafePathProofs.SafePathPlain | back-filesystem/src/working-util.js:271-279 | a relative name of plain segments lands exactly at those segments below `cwd` |
| SafePathProofs.SafePathAbsoluteName | back-filesystem/src/working-util.js:271-279 | an absolute name is joined, not resolved: `/a/b` lands at `cwd/a/b` |
| SafePathProofs.SafePathEscapeFallsBack | back-filesystem/src/working-util.js:271-279 | climbing out of `cwd` into a sibling whose name does not start with `cwd`'s last segment falls back to `cwd/octave-workspace` |
| SafePathProofs.SafePathSiblingAccepted | back-filesystem/src/working-util.js:274 | `../` + a sibling whose name extends `cwd`'s last segment + `/name` is accepted, although the result is neither `cwd` nor below `cwd/` |
| ListingProofs.WalkSound | back-filesystem/src/working-util.js:76-119 | the walk of a directory lists only regular files strictly below it, one to four plain segments deep, each with the entry its own name and content give, and no name twice |
| ListingProofs.ToDictKeys | back-filesystem/src/working-util.js:51-58 | the dictionary's keys are exactly the listed names other than `__proto__`, which is never a key |
| ListingProofs.ToDictLastWins | back-filesystem/src/working-util.js:51-58 | a name other than `__proto__` maps to the entry of its last occurrence in the list |
| ListingProofs.ListAllSound | back-filesystem/src/working-util.js:46-62 | every key of `listAll`'s dictionary names a regular file below the workspace, at most four levels down, and maps to the entry its classification gives |
| ListingProofs.WalkComplete | back-filesystem/src/working-util.js:76-119 | a regular file reachable through directories from a walked directory, and not left out by its classification, is in that walk's list with its entry |
| ListingProofs.ListAllComplete | back-filesystem/src/working-util.js:46-62 | every regular file at most four levels down, reachable through directories, not under the root's `.git`, and not left out, is in `listAll`'s dictionary with its entry, except a root file named `__proto__`, which is never a key |
| Gateway.WorkingUtil.GetFileInfo | back-filesystem/src/working-util.js:122-136 | lstat, `_getFileInfo` and taking the first element give `GetFileInfoOf`; a regular file at the safe path is reported with the entry its name and content give (none when it is left out), a missing path fails with ENOENT, and anything else, a directory included, is never reported with text content |
| FileOpsProofs.GetFileInfoReports | back-filesystem/src/working-util.js:122-136 | a regular file at the safe path is reported with the entry its name and content give; a missing path gives ENOENT |
| FileOpsProofs.ReadsOnlySafePath | back-filesystem/src/working-util.js:122-136 | `getFileInfo` and `readBinary` depend on nothing but the entry at the name's safe path; this holds because the model does not follow a symbolic link there or at a directory above it, while Node's `readFile` would |
| Gateway.WorkingUtil.ReadBinary | back-filesystem/src/working-util.js:258-269 | a regular file at the safe path gives its bytes and the MIME type of the name; a missing path gives ENOENT, a directory EISDIR, and any other entry an error |
| Gateway.WorkingUtil.SaveFile | back-filesystem/src/working-util.js:196-243 | the step-by-step save returns the result of `SaveOf` and leaves the file system as `SaveOf` does, for every combination of injected failures |
| Gateway.SaveFrame | back-filesystem/src/working-util.js:196-243 | whatever fails, a save changes nothing but the saved path and the directories on the way up from its parent; this holds because the model does not write through a symbolic link at the safe path or at a directory above it, while Node's `writeFile` would |
| Gateway.SaveSuccess | back-filesystem/src/working-util.js:217-242 | a successful save stores the value at the safe path, leaves the parent a directory and returns the value's md5 |
| FileOpsProofs.SaveAborts | back-filesystem/src/working-util.js:198-216 | a failed mkdir of the parent is reported and leaves the file system unchanged; a failed backup read other than ENOENT is reported before anything is written, leaving the state the mkdir made |
| FileOpsProofs.SaveThenRead | back-filesystem/src/working-util.js:196-243 | after a successful save, `getFileInfo` reports the saved value and `readBinary` returns it |
| FileOpsProofs.SaveOverExisting | back-filesystem/src/working-util.js:196-243 | saving over an existing file in an existing directory, with no failure, replaces that one entry and nothing else |
| FileOpsProofs.SaveReportsWriteError | back-filesystem/src/working-util.js:217-238 | a failed write is reported with the write's own error, whether or not putting the backup back fails as well |
| FileOpsProofs.SaveRollsBack | back-filesystem/src/working-util.js:204-238 | when the write fails and the existing file's backup is put back, the file system is exactly as the directory step left it, whatever residue the write left |
| FileOpsProofs.FailedSaveKeepsPrevious | back-filesystem/src/working-util.js:196-243 | a save that fails after a successful one leaves the first save's content visible to `getFileInfo` and `readBinary` |
| FileOpsProofs.FailedSaveOfNewFileLeavesEmptyFile | back-filesystem/src/working-util.js:209-238 | a failed save of a file that did not exist leaves an empty file behind, because the missing file's backup is empty and it is written back |
| Gateway.WorkingUtil.RenameFile | back-filesystem/src/working-util.js:245-250 | the rename's error, or its success with the new state; nothing changes except what lies under the two safe paths and the listings of their parents |
| FileOpsProofs.RenameThenRead | back-filesystem/src/working-util.js:245-250 | after renaming a regular file, the new name shows its content to `getFileInfo` and `readBinary`, and the old name is gone |
| Gateway.WorkingUtil.DeleteFile | back-filesystem/src/working-util.js:252-256 | the unlink's error, or its success with the new state; nothing changes except the safe path and its parent's listing |
| FileOpsProofs.DeleteThenRead | back-filesystem/src/working-util.js:252-256 | after a successful delete, `getFileInfo` and `readBinary` report ENOENT for the name |
| FileSystem.MkdirPFrame | back-filesystem/src/working-util.js:198-202 | `mkdir -p` changes only the directory and the directories above it, and every directory stays a directory |
| FileSystem.RenameFrame | back-filesystem/src/working-util.js:245-250 | a successful rename changes only what lies under the two paths and the listings of their parents |
| FileSystem.RenameFileMoves | back-filesystem/src/working-util.js:245-250 | renaming a regular file puts its content under the new path and removes the old path |
| PromptHistory.AfterCommand | client/app/js/client.js:559-565 | the commands entered so far grow by the command exactly when it is non-empty and differs from the last one; a recorded command is followed by an empty draft slot, and otherwise the array is unchanged |
| PromptHistory.CommandKeepsWellFormed | client/app/js/client.js:559-565 | a command keeps the history free of empty entries and of adjacent repeats, and puts the cursor on the draft slot |
| PromptHistory.CommandIdempotent | client/app/js/client.js:559-565 | entering the same command twice in a row records it once |
| PromptHistory.Up | client/app/js/client.js:740-750 | the up key keeps the entered commands, puts the prompt's text into the draft slot only when the cursor is on that slot (otherwise the slot is unchanged), moves the cursor up exactly when it is above slot 0, and shows that entry |
| PromptHistory.Down | client/app/js/client.js:751-758 | the down key leaves the array alone, moves the cursor down exactly when it is above the draft slot, and shows that entry |
| PromptHistory.KeysKeepWellFormed | client/app/js/client.js:740-758 | both keys keep the history well formed |
| PromptHistory.UpRecallsLastCommand | client/app/js/client.js:559-565 | right after a recorded command, the up key shows that command |
| PromptHistory.UpDownRestoresDraft | client/app/js/client.js:740-758 | up from the draft and then down puts the text that was being typed back into the prompt |
| PromptHistory.DownUpReturns | client/app/js/client.js:740-758 | down and then up returns to the same entry |
| PromptHistory.Prompt.constructor | client/app/js/client.js:579-593 | the history starts as one empty draft slot, with the cursor on it and the prompt enabled |
| PromptHistory.Prompt.Command | client/app/js/client.js:546-575 | a command is ignored while the prompt is disabled; otherwise the history becomes `AfterCommand`, the cursor moves to the draft slot and the prompt is disabled, and the history stays well formed |
| PromptHistory.Prompt.Record | client/app/js/client.js:559-565 | the in-place update of the history array is `AfterCommand` of the old array, with the cursor on the last slot |
| PromptHistory.Prompt.Enable | client/app/js/client.js:594-602 | enabling the prompt leaves the history and the cursor alone |
| PromptHistory.Prompt.HistoryUp | client/app/js/client.js:740-750 | the in-place update and the shown text are those of `Up`, and the history stays well formed |
| PromptHistory.Prompt.HistoryDown | client/app/js/client.js:751-758 | the cursor move and the shown text are those of `Down`, and the history stays well formed |
| Plots.Find | client/app/js/client.js:84-91 | the index of the first plot with the id, or -1 exactly when no plot has it |
| Plots.FindUnique | client/app/js/client.js:437-455 | with distinct ids, the plot found is the only one with that id |
| Plots.Toggle | client/app/js/client.js:207-218 | with no plots nothing changes; otherwise a closed window opens on the newest plot, and an open one closes |
| Plots.Prev | client/app/js/client.js:225-229 | back moves one plot unless the first plot is shown or the window is closed |
| Plots.Next | client/app/js/client.js:230-235 | forward moves one plot unless the last plot is shown |
| Plots.NavigationInRange | client/app/js/client.js:207-235 | the three keys keep the index on a plot or at -1 |
| Plots.PrevNextInverse | client/app/js/client.js:225-235 | back and forward undo each other while they can move |
| Plots.NavigationEnds | client/app/js/client.js:225-235 | back stays on the first plot and forward stays on the last; forward from a closed window opens the first plot |
| Plots.ToggleTwice | client/app/js/client.js:207-218 | toggling twice closes a closed window again, but reopens an open one on the newest plot, not on the plot that was shown |
| Plots.PlotWindow.constructor | client/app/js/client.js:137-138 | no plots and a closed window |
| Plots.PlotWindow.TogglePlot | client/app/js/client.js:207-218 | the index becomes `Toggle`'s, the user is alerted exactly when there are no plots, and the window stays in range |
| Plots.PlotWindow.ShowPrevPlot | client/app/js/client.js:225-229 | the index becomes `Prev`'s and stays in range |
| Plots.PlotWindow.ShowNextPlot | client/app/js/client.js:230-235 | the index becomes `Next`'s and stays in range |
| Plots.PlotWindow.SetCurrent | client/app/js/client.js:84-91 | the backward scan, which does not stop at a match, shows the first plot with the id; with none it changes nothing |
| Plots.PlotWindow.GetOrMakePlotById | client/app/js/client.js:437-455 | an existing plot with the id is returned and nothing changes; otherwise a new plot is appended, shown unless plots are drawn inline, and the ids stay distinct |
| ConsoleText.FileNameExists | client/app/js/client.js:354-361 | true exactly when the name is in the editor's list, does not start with a dot, and its first seven characters are not `octave-` |
| ConsoleText.ReservedNeverExists | client/app/js/client.js:354-361 | every name the back end reserves is one the client says does not exist |
| ConsoleText.ClientHidesListedNames | client/app/js/client.js:357-358 | `octave-` and `octave-a.b` are listed by the back end, yet the client says they do not exist |
| ConsoleText.RowPrefix | client/app/js/client.js:479-486 | a label is printed exactly for line numbers of at least -1, and it ends in `> ` |
| ConsoleText.WriteCommand | client/app/js/client.js:478-494 | the pieces appended are the label (exactly when it is not empty), then the command, then a line break |
| ConsoleText.RowPrefixRoundTrip | client/app/js/client.js:479-486 | every label printed reads back as its line number, so different lines get different labels |
| ConsoleText.ParseRowPrefixSound | client/app/js/client.js:479-486 | only strings that `RowPrefix` prints read back as a line number |
| ConsoleText.DecimalRoundTrip | client/app/js/client.js:481 | the decimal rendering of a line number denotes that number |

## Left out

- `hasOctaverc` (back-filesystem/src/working-util.js:64-74) is left out. It only asks the operating system whether one file exists.
- Charset detection, `Iconv`, the UTF-8 decoding, `mime.lookup` and md5 are not modelled. They are opaque function values in `Gateway.Config`.
- Base64 encoding in `_getFileInfo` and `readBinary` is not modelled. Contents stay bytes.
- Logging is left out.
- The file system is a map from path strings to entries, looked up by the exact string.
- Symbolic links are entries of their own. `lstat` reports them as "other".
- Reading or writing a symbolic link fails, where Node would follow it, possibly to a target outside `cwd`.
- `FileOpsProofs.ReadsOnlySafePath` and `Gateway.SaveFrame` rest on that choice. In the source, a symbolic link at the safe path, or at any directory above it within `cwd`, makes `getFileInfo`, `readBinary` and `saveFile` read or write its target, which may lie outside the working directory.
- `FileSystem.MkdirP` reports EEXIST for a non-directory at the directory itself and ENOTDIR for one above it; other errors of Node's recursive mkdir are not distinguished.
- Permissions and timestamps are not modelled.
- Concurrency is not modelled.
  - `async.map` runs the entries of a directory concurrently.
  - The model visits them in listing order and reports the first failing one.
  - The real error that is reported depends on timing.
- For an entry named `.git` at the root, the callback is never called (back-filesystem/src/working-util.js:92-95). The model lets that entry contribute nothing. It makes no claim about whether the source's listing ever finishes.
- `Gateway.SaveOf`: an injected write failure may leave arbitrary residue at the path. It cannot model a write that damages anything else.
- Failures of `lstat`, `readdir`, `rename` and `unlink` come only from the file system's own state. No fault is injected into them.
- `ListingProofs.ListAllSound`, `ListingProofs.ListAllComplete`, `ListingProofs.WalkSound` and `ListingProofs.WalkComplete` assume that the working directory is an absolute path of plain segments, and that every directory lists plain names.
- `SafePathProofs.SafePathWithinPrefix`, `SafePathProofs.SafePathPlain`, `SafePathProofs.SafePathAbsoluteName`, `SafePathProofs.SafePathEscapeFallsBack` and `SafePathProofs.SafePathSiblingAccepted` assume the same of the working directory.
- `FileSystem.RenameFileMoves` and `FileOpsProofs.RenameThenRead` assume that neither path is the other's parent. They state nothing about renaming a file onto itself or into its own parent.
- `ConsoleText.FileNameExists`: `getOctFileFromName` searches the editor's sorted file list with a binary search. That search is not part of this model. The model takes list membership instead.
- The rest of client.js is left out: the DOM, jQuery, knockout, the ACE editor, sockets, timers, the countdown, ads, analytics and focus handling.
- Plots carry only their id. Their data and their DOM binding are not modelled.
  - `Plots.PlotWindow.GetOrMakePlotById` does not model how an inline plot is drawn into the console.
- `PromptHistory.Prompt.Command` covers only the history part of `console.command`.
  - The echo is `ConsoleText.WriteCommand`.
  - Sending the command, the countdown and the in-content ad are left out.
- `ConsoleText.RowPrefix` takes the line number as an integer. It does not model JavaScript numbers that are not integers, and it writes the digits of line numbers of 10^21 and above, which JavaScript writes in exponent notation.
