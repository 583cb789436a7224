# lista-tools in Dafny

lista-tools is a small command-line toolkit for an archive. It renames files in bulk, flattens directory trees and cleans file names, and it updates itself from a release server. This project models the following parts and proves properties about them:

- **The self-updater** (`update.py`), in module `Updater`. It decodes its target directory from a hexadecimal argument (module `Hex`). It streams the new binary into `lista-tools.exe.new` and draws a 50-cell progress bar. It then swaps the binaries with two renames and a removal inside one catch-all handler. The target directory is the class `Updater.TargetDir`, whose single field maps the three files (`current`, `old`, `new`) to their bytes. The methods `Download`, `Install` and `Run` change that field in place. Each is proved equal to a pure function (`Received`/`Frames`, `Swap`, `Script`), and the lemmas state what every outcome leaves on disk.
- **The update check and the hand-off to the updater** (`update` and `force-update` in `main.py`), in module `Launcher`. Versions are a type parameter with the ordering as an argument. A version lookup either resolves, fails in a way the code catches, or yields text that does not parse.
- **`clean-filenames`**, in module `CleanNames`. The regular expression and the seven `re.sub` calls are proved equal to a per-character reference cleaning. That reference is proved plain, idempotent and of the stated length.
- **`rename`**, in module `Rename`. It covers the naming rule, the preview table, the Y/N/S/C menu loop as a state machine over the typed lines, and the renaming loop.
- **`exdir`**, in module `Exdir`. It works over a tree of entries. One pass and the repeated passes are given as functions, and the methods `ExtractPass` and `ExtractDir` keep the source's loops and recursion. Without `-R` the result is proved equal to a reference flattening, which renames every file once for each directory it sat in.

Module `Common` holds `Option`, bytes, Python's `c * n` and chunk concatenation.

## Model

| member | source | states |
|---|---|---|
| Hex.FromHex | update.py:8 | `bytes.fromhex`: pairs of hex digits, with ASCII whitespace allowed between pairs, or `None` where Python raises. The lemmas below state what it accepts and decodes. |
| Hex.FromHexOfHexEncode | update.py:8 | Decoding the hex text of any byte string gives back exactly those bytes. |
| Hex.FromHexIgnoresCase | update.py:8 | Upper- and lower-case hex digits decode to the same bytes, whether the text decodes or not. |
| Hex.FromHexRejectsForeignChar | update.py:8 | Any character that is neither a hex digit nor ASCII whitespace makes `bytes.fromhex` raise. |
| Hex.FromHexUsesDigitPairs | update.py:8 | A successful decode gives one byte per two hex digits. |
| Hex.FromHexRejectsOddDigits | update.py:8 | An odd number of hex digits, i.e. an unpaired digit, makes the decode raise. |
| Common.Repeat | update.py:22 | `c * n` has length `max(n, 0)` and holds only `c`. |
| Common.ConcatPrefix | update.py:17-19 | The bytes written after fewer chunks are a prefix of those written after more. |
| Updater.Received | update.py:13-19 | The bytes `lista-tools.exe.new` ends up holding: every chunk the server sent, or nothing when the request or `content-length` fails first. `Common.ConcatPrefix` and `Updater.ScriptDownloadFails` state what a broken stream leaves. |
| Updater.DownloadCrash | update.py:14-20 | The exception that escapes the download: a connection error, a missing `content-length`, a zero length with data, or a broken stream. `Updater.ScriptDownloadFails` states its effect. |
| Updater.Progress | update.py:17-22 | The bar counts drawn after each chunk so far. `Updater.ProgressBounded` bounds them and orders them. |
| Updater.Frames | update.py:13-22 | Every bar count the download draws before it stops. `Updater.DrawnBarsFit` states that each drawn bar is 50 cells wide. |
| Updater.DrawnBarsFit | update.py:20-22 | While the body is no longer than the announced length, every drawn bar is exactly 50 cells: `done` cells of `═`, then spaces. |
| Updater.BarCells | update.py:20 | `int(50 * bytes_done / total_length)` is the floor of the quotient for a positive total, at most 0 for a negative one, and lies in [0, 50] while no more than the total has arrived. |
| Updater.Bar | update.py:22 | The bar's length is 50, or more when the count leaves [0, 50]. Cell `i` is `═` exactly when `i < done`, and a space otherwise. |
| Updater.BarCellsMonotone | update.py:18-20 | More bytes never give fewer cells. |
| Updater.ProgressBounded | update.py:16-22 | While the body is no longer than the announced length, every drawn count is in [0, 50] and no count is below an earlier one. |
| Updater.RenameSlot | update.py:28 | `os.rename` succeeds exactly when there is no fault, the source exists, and the platform overwrites or the destination is absent. It then moves the source's bytes to the destination and leaves the third file alone. |
| Updater.RemoveSlot | update.py:34 | `os.remove` succeeds exactly when there is no fault and the file exists. It then removes only that file. |
| Updater.Swap | update.py:25-38 | The `try` block with its catch-all handler: two renames and a removal, where the first failure skips the rest. The `Swap*` lemmas below state every outcome. |
| Updater.SwapCommits | update.py:25-35 | When every step succeeds, only `current` is left, holding the downloaded bytes, and the last line is the completion prompt. |
| Updater.SwapFirstRenameFails | update.py:28 | When the first rename fails, no file changes and the generic error message follows. |
| Updater.SwapSecondRenameFails | update.py:31 | When the second rename fails, `old` holds the previous binary, `current` is absent, `new` is untouched, and only the generic error follows. |
| Updater.SwapRemoveFails | update.py:34-38 | When only the removal fails, `current` holds the new binary, `old` holds the previous one, the error is reported and the completion prompt never appears. |
| Updater.SwapReport | update.py:25-38 | The completion prompt is printed if and only if every step succeeds. Otherwise the run ends with the generic error message. |
| Updater.SwapKeepsBinaries | update.py:25-38 | Whatever happens, the new binary ends in `current` or stays in `new`. If any step fails, the previous binary's bytes are still in `current` or in `old`. |
| Updater.Script | update.py:8-38 | The whole script: decode the argument, then download, then swap. Its outcomes are stated by `ScriptRejectsArgument`, `ScriptDownloadFails` and `ScriptInstalls`, and `TargetDir.Run` is proved equal to it. |
| Updater.ScriptRejectsArgument | update.py:8 | An argument that is not hex stops the script before it prints or writes anything. |
| Updater.ScriptDownloadFails | update.py:13-22 | An exception during the download escapes. `.new` holds a prefix of the body, `current` and `old` are untouched, and no swap starts. |
| Updater.ScriptInstalls | update.py:8-35 | A good argument, a complete download and a swap without faults leave only `current`, holding the body, and end with the completion prompt. |
| Updater.TargetDir.Rename | update.py:28 | The directory becomes what `RenameSlot` gives, or stays as it was when the rename fails. |
| Updater.TargetDir.Remove | update.py:34 | The directory becomes what `RemoveSlot` gives, or stays as it was when the removal fails. |
| Updater.TargetDir.Download | update.py:13-22 | `.new` ends holding what `Received` gives: the concatenated chunks, or the part written before the exception. The rest of the directory is unchanged. The crash and the drawn counts are those of `DownloadCrash` and `Frames`. |
| Updater.TargetDir.Install | update.py:25-38 | The directory and the printed lines are those of `Swap`. |
| Updater.TargetDir.Run | update.py:8-38 | The directory, the printed lines and the escaping exception are those of `Script`. |
| Launcher.Update | main.py:73-108 | `update(forced)` with the version lookups and the confirmation as inputs: crash, spawn the updater, or return the versions. `UpdateSpawnsIff` and `UnresolvedVersionCrashes` characterise it. |
| Launcher.UpdaterArgv | main.py:102-105 | The argument list handed to `subprocess.Popen`, bundled or not. `ArgvCarriesRawPath` states what the updater receives. |
| Launcher.ForceUpdate | main.py:116-121 | The start-up check of main.py:325 with `forced=False`, then `update(forced=True)` if that check returns. `ForceUpdateSpawnsIff` characterises it. |
| Launcher.UpdateSpawnsIff | main.py:73-108 | The updater is started exactly when both versions resolve, the installed one is older or the update is forced, and the user confirms. Its argv is the one built at main.py:102-105. Otherwise both versions are returned unchanged. |
| Launcher.UnresolvedVersionCrashes | main.py:94 | An unresolved version makes `update` raise. The outcome is the same for every value of `forced` and of the answer. |
| Launcher.ForceUpdateSpawnsIff | main.py:116-121 | `force-update` starts the updater exactly when both versions resolve and the user confirms either the start-up prompt for a newer version or the forced prompt. It crashes exactly when a version does not resolve. |
| Launcher.ArgvCarriesRawPath | main.py:102-105 | Bundled or not, the updater's `sys.argv[1]` is the executable's directory unencoded, and the script is the `update.exe` or `update.py` in the bundle directory. |
| Launcher.HandOffRejectsPath | main.py:102-105 | A directory path with any character that is neither a hex digit nor whitespace makes the updater's decode raise. The updater then stops before it prints or writes anything. |
| Launcher.HandOffRejectsWindowsPath | main.py:103 | The directory `C:\lista-tools` stops the updater at its argument. |
| Launcher.HexHandOffRoundTrip | main.py:102-105 | With the path hex-encoded, the updater decodes exactly the bytes that were sent. |
| Launcher.HexHandOffInstalls | main.py:102-105 | With the path hex-encoded, the updater never stops at its argument and always starts the download. |
| CleanNames.ReplaceAll | main.py:311 | One `re.sub(pattern, replacement, name)` with a one-character pattern. `SubstituteStep` and `MaskThenSubstitute` state its part in the cleaning. |
| CleanNames.MaskForeign | main.py:309 | The first `re.sub` keeps the length and replaces exactly the characters outside `[a-zäöüßA-ZÄÖÜ0-9_-]` by `_`. |
| CleanNames.LookupUmlaut | main.py:298-306 | The substitution table has an entry exactly for ä ö ü ß Ä Ö Ü, and each replacement is two ASCII letters. |
| CleanNames.SubstituteStep | main.py:310-311 | Each further `re.sub` applies one more substitution of the table, in dictionary order. |
| CleanNames.MaskThenSubstitute | main.py:309-311 | The mask followed by all seven substitutions equals the per-character reference cleaning. |
| CleanNames.CleanIsPlain | main.py:309-311 | A cleaned name holds only `[A-Za-z0-9_-]`. |
| CleanNames.CleanLength | main.py:309-311 | The cleaned length is the stem's length plus the number of umlauts and `ß`. |
| CleanNames.CleanKeepsPlain | main.py:309-311 | A name already made of `[A-Za-z0-9_-]` is returned unchanged. |
| CleanNames.CleanIdempotent | main.py:309-311 | Cleaning twice is cleaning once. |
| CleanNames.CleanForeignChar | main.py:309 | A character that is neither allowed nor an umlaut becomes exactly one `_`. |
| CleanNames.CleanStem | main.py:309-311 | The mask followed by the substitution loop returns the reference cleaning of the stem. |
| CleanNames.CleanFilenames | main.py:308-314 | Every entry's stem is replaced by its cleaned form, in listing order. |
| Rename.ElementType | main.py:32-46 | An entry is a directory, a file, a symlink or other, according to the first of `is_dir`, `is_file`, `is_symlink` that holds. |
| Rename.NewName | main.py:253-256 | The naming rule that the preview and the renaming share (main.py:283-286 repeats it). `NewNameShape` and `NewNameInjective` state its properties. |
| Rename.NewNameShape | main.py:253-256 | A new name is the prefix, then one space unless `--no-space`, then the old name, with the matching length. |
| Rename.NewNameInjective | main.py:283-288 | Different old names never get the same new name. |
| Rename.PreviewRows | main.py:251-259 | Row `k` has ID `k + 1`, the old name, the new name by the shared rule and the element type. |
| Rename.StepDialog | main.py:246-280 | One input line of the menu loop: a prefix while one is wanted, and otherwise the choice of the Y/N/S/C menu. The `Dialog*` lemmas state each choice. |
| Rename.RunDialog | main.py:246-280 | The menu loop over all the typed lines. `AppliedPrefixWasTyped` states where an applied prefix comes from, and `RenameDialog` is proved equal to it. |
| Rename.DialogYes | main.py:266-271 | `y` (in either case) applies the renames with the current prefix and spacing. |
| Rename.DialogNewPrefix | main.py:272-274 | `n` asks for the prefix again, and the menu then shows the new one. |
| Rename.DialogToggleTwice | main.py:275-277 | Toggling `--no-space` twice restores the dialog. |
| Rename.DialogCancel | main.py:278-280 | Any other first character aborts, and nothing is renamed. |
| Rename.AppliedPrefixWasTyped | main.py:246-271 | An applied prefix is either the one the dialog held at its start or a non-empty line the user typed. |
| Rename.InitialPrefixWasTyped | main.py:243-249 | From the start of the command, an applied prefix is always a non-empty line the user typed. |
| Rename.RenameDialog | main.py:243-280 | The `while True` loop ends as the state machine `RunDialog` says for the typed lines. |
| Rename.ApplyRenames | main.py:282-289 | Every entry is renamed to the new name its preview row showed. |
| Rename.RenameCommand | main.py:237-289 | Entries are renamed, as previewed with the final prefix and spacing, exactly when the dialog ends with `y`. Otherwise nothing is renamed. |
| Exdir.Upper | main.py:217 | `str.upper()` on the letters a directory name can hold. `UpperIdempotent` states that it is stable. |
| Exdir.Moved | main.py:217-219 | The entry moved up out of directory `d`, renamed `upper(d) + "_ " + name`. `MoveTwice` composes two moves. |
| Exdir.MoveChildren | main.py:216-219 | Every child of a directory is moved up under the name `upper(directory) + "_ " + name`, in listing order. |
| Exdir.UpperIdempotent | main.py:217 | Upper-casing an upper-cased name changes nothing. |
| Exdir.MoveTwice | main.py:217 | Moving entries out of `m` and then out of `d` names them as moving them out of the directory `upper(d) + "_ " + m` would. |
| Exdir.Pass | main.py:210-222 | One pass of `extract` before its recursion check. `PassKeepsTopFiles`, `PassMovesChildren`, `PassAddsNothing`, `PassKeepsFiles` and `PassLowers` state what it does. |
| Exdir.PassKeepsTopFiles | main.py:213-214 | A file of the working directory is still there after a pass. |
| Exdir.PassMovesChildren | main.py:216-219 | Every child of a directory of the working directory is there after a pass, under the name `upper(directory) + "_ " + name`. |
| Exdir.PassAddsNothing | main.py:210-222 | Every entry after a pass is an earlier file or a moved child of an earlier directory, so the directories themselves are gone. |
| Exdir.PassKeepsFiles | main.py:210-222 | A pass loses no file and creates none. |
| Exdir.PassLowers | main.py:210-222 | A pass reduces the nesting depth by one. |
| Exdir.FlattenPass | main.py:210-222 | A pass does not change where the files finally end up. |
| Exdir.Extract | main.py:224-234 | `extract()`: one pass, then more while a directory is left, unless `-R` is given. `ExtractFlattens`, `ExtractLeavesOnlyFiles` and `OnePass` state its results. |
| Exdir.ExtractFlattens | main.py:224-234 | Without `-R`, the result is the reference flattening: every file of the tree, renamed by each directory it was in, outermost first. |
| Exdir.ExtractLeavesOnlyFiles | main.py:224-234 | Without `-R`, no directory is left and the file count is preserved. |
| Exdir.OnePass | main.py:224-225 | With `-R`, exactly one pass runs. It keeps the file count and lowers the nesting by one level. |
| Exdir.MoveUp | main.py:216-220 | The inner loop moves up every child of a directory, renamed. |
| Exdir.ExtractPass | main.py:210-222 | The nested loops compute one pass. |
| Exdir.FindDir | main.py:227-231 | The scan after a pass finds a directory exactly when one is left. |
| Exdir.ExtractDir | main.py:209-234 | `extract()`, with its recursion, computes `Extract`. |

An unresolved version does not mean "no update", and the program does not go on. An unparsable version raises from `pv.parse` (main.py:77, 87). A version that could not be fetched or read becomes `None`, and the comparison at main.py:94 then raises a `TypeError`. The model follows the code: both cases are `Crashed` outcomes (`Launcher.UnresolvedVersionCrashes`).

## Left out

- Network and processes. `requests.get` for the VERSION file and for the binary are inputs: `Lookup` in the launcher, `Response` in the updater. `subprocess.Popen` followed by `sys.exit` is the `Spawned(argv)` outcome.
- Output, pauses and input. `print` lines of the updater are kept as a log of `Message`s, but the launcher's `click.echo` lines, the `\r` redraw, `time.sleep` and the final `input()` are not modelled. `click.confirm` and `click.prompt` answers are inputs.
- The percentage at update.py:21 uses float division and `round`, and is not modelled.
- `Updater.BarCells`: the cell count at update.py:20 is the exact quotient truncated, but Python rounds `50 * bytes_done / total_length` to a float before `int` truncates it. When the exact quotient lies just below a whole number, the float can round up to it and one more cell is drawn. This needs an announced length of about 2^48 bytes or more, so it never arises for a binary of realistic size, but the model does not capture it.
- The UTF-8 `.decode()` at update.py:8 is not modelled. The model assumes any decoded bytes are a valid path.
- `open(..., 'wb')` failing at update.py:13 (missing directory, no permission) is not modelled.
- `packaging.version` parsing and ordering are abstract: a type parameter `V` and an ordering `lt`.
- `Launcher.ForceUpdate`: both calls of `update` see the same version lookups, because the network and the VERSION file are assumed not to change between them.
- Paths are strings joined with `/`. pathlib's separators and its stem/suffix split are not modelled; `clean-filenames` takes the stems as input.
- Unicode case mapping: `casefold()[0]` in the rename menu is modelled by ASCII lower-casing. `str.upper()` in `exdir` is modelled for ASCII letters and ä ö ü ß; other characters are left as they are.
- The file system behaviour of `Path.iterdir`, `rename`, `shutil.move` and `rmdir` is modelled on values. Each pass works on a snapshot of the listing and keeps listing order. Name collisions, moves failing half-way and the listing changing during iteration are not modelled.
- Symbolic links are only a flag in `Rename.PathInfo`. `exdir` sees only files and directories.
- `droid_csv` (main.py:145-198) is pandas and CSV work and is not part of this model. Neither are `get_version` and the `version` command, which repeat the lookups of `update` to print them.
- build.py is not part of this model.

## Findings

| source | as written | input that shows it | evidently intended | confidence | as-written member | corrected member |
|---|---|---|---|---|---|---|
| main.py:102-105 | The executable's directory is passed to the updater as a plain path, but the updater hex-decodes its argument (update.py:8). | The directory `C:\lista-tools`: its `:` and `\` are not hex digits, so `bytes.fromhex` raises. So does any path with a separator. | Pass the path hex-encoded, as `str(executable_path).encode().hex()`, so that the updater decodes exactly the path bytes. | high, not executed | Launcher.HandOffRejectsWindowsPath | Launcher.HexHandOffRoundTrip |
