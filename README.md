# Download-APK, modelled in Dafny

This project models the two scripts of Download-APK that drive the Android
Debug Bridge (`adb`), and proves properties of that model.

- `download_apk.py` lists the user and system packages of a device. For each
  package it looks up the install path and version name and consults a SQLite
  ledger unique on (package, version). It then pulls the APK to
  `user_apks/<package>.apk` or `system_apks/<package>.apk`, checks the pull
  output for `pulled`, renames the file to `<app>-<version>.apk`, and records
  it in the ledger.
- `download_folder.py` lists every regular file under a remote folder with
  `find`. For each listed path, in order, it creates the parent of the local
  counterpart and pulls the file there, reporting success when the pull
  output holds `pulled`.

Modules, one per file:

- `Wrappers` holds `Option`.
- `Adb` holds the device commands, as values, and the `pulled` marker.
- `Text` holds `in`, the regular-expression search `prefix(.+)`,
  `str.replace(pat, '')`, `splitlines` and joining.
- `PosixPath` holds `join`, `dirname`, `basename` and `relpath` for paths
  strictly under a directory.
- `ApkNames` holds the sanitiser, the three output parsers and the
  composition of staged and final names.
- `ApkLedger` holds the `apks` table, both as values (`Table`,
  `InsertOrIgnore`) and as the class `Ledger` that the script's cursor
  updates in place.
- `ApkDownload` specifies `process_package` as functions: `Plan` gives the
  outcome, `Step` the new state, and `Run` a sequence of packages. The class
  `Harvester` holds the local files, the commands sent and the ledger. Its
  methods `ProcessPackage`, `ProcessGroup` (one `for` loop of
  `process_apps`) and `ProcessApps` are proved against those functions.
- `FolderMirror` holds the path mapping and the loop of
  `download_files_from_folder`, as a method that returns the effects it
  performs and the reports it prints. The method is proved against the
  functions `PullEffects` and `Reports`.

Two kinds of external behaviour are parameters of the model:

- The device is an oracle from commands to their stripped output. In
  `download_apk.py` the output is a `string`: that script's
  `run_adb_command` never reports a failure. In `download_folder.py` it is an
  `Option<string>`, with `None` for a failed command.
- androguard's name extraction is an oracle from the staged path to an
  optional name.

The model follows the code in these details, which are easy to misread:

- `download_apk.py` never detects a failed command except through a missing
  match or a missing `pulled`.
- The version is computed before the ledger check and the pull, not after the
  name extraction.
- The fallback to the package id happens only when the extracted name is
  falsy, not when parsing fails. The fallback id is not sanitised.
- A rename error is not caught; it ends the run.

## Model

| member | source | states |
|---|---|---|
| ApkNames.SanitizeSpec | download_apk.py:45-47 | the result holds no illegal character; every other character occurs as often as in the input; the result is a subsequence of the input and never longer |
| ApkNames.SanitizeClean | download_apk.py:47 | a name with no illegal character is returned unchanged |
| ApkNames.SanitizeIdempotent | download_apk.py:47 | sanitising twice equals sanitising once |
| ApkNames.SanitizeConcat | download_apk.py:47 | sanitising distributes over concatenation |
| Text.Contains | download_apk.py:87 | `pat in s` holds iff `pat` occurs at some index of `s` |
| Text.SearchRestOfLineSpec | download_apk.py:65 | `re.search(prefix(.+))` finds nothing iff no `prefix` is followed by a non-newline character; otherwise group 1 is the non-empty, newline-free rest of the line after the leftmost such `prefix` |
| ApkNames.InstallPathSpec | download_apk.py:64-69 | the install path fails iff no `package:` is followed by a non-newline character; otherwise it is the rest of the line after the first such `package:` |
| ApkNames.VersionNameSpec | download_apk.py:72-74 | the version is `unknown` when `versionName=(.+)` does not match; otherwise it is the sanitised rest of the line after the first match; it never holds an illegal character |
| ApkNames.FinalPathShape | download_apk.py:99-100 | the final path is `<dir>/<app>-<version>.apk` |
| Text.RemoveAll | download_apk.py:112 | `str.replace(pat, '')` never lengthens a line and leaves one without `pat` unchanged |
| Text.RemoveAllLeading | download_apk.py:112 | a leading `pat` is removed |
| ApkNames.RemoveInnerPrefix | download_apk.py:112 | a `package:` anywhere in a line is removed, not only a leading one, and the scan goes on after it |
| Text.Lines | download_apk.py:112 | `splitlines` yields lines without a line break |
| Text.LinesJoin | download_apk.py:112 | joining the lines with '\n' gives back the text, up to one final '\n' |
| Text.LinesOfJoin | download_apk.py:112 | splitting '\n'-joined lines that hold no '\n', the last one non-empty, gives back those lines |
| ApkNames.PackageIdsOfListing | download_apk.py:111-112 | parsing a listing of `package:<id>` lines gives back the ids in order when no id holds a '\n' or a `package:` |
| ApkLedger.InsertOrIgnoreSpec | download_apk.py:55-60 | after `INSERT OR IGNORE` the key is present; other rows are untouched; an existing key leaves the table as it was; a new key gets the inserted values and the next AUTOINCREMENT id |
| ApkLedger.InsertOrIgnoreKeepsInvariant | download_apk.py:22-31 | each row stays under its own (package, version) and ids stay positive, below the next id, and distinct |
| ApkLedger.InsertOrIgnoreIdempotent | download_apk.py:30 | inserting an existing key again, with any other columns, changes nothing |
| ApkLedger.Ledger.constructor | download_apk.py:22-32 | a new table is empty and valid |
| ApkLedger.Ledger.IsDownloaded | download_apk.py:49-53 | true iff some row has this package and version |
| ApkLedger.Ledger.Add | download_apk.py:55-60 | the table becomes `InsertOrIgnore` of the old table and keeps its invariant |
| ApkDownload.NoInstallPathEndsEarly | download_apk.py:64-68 | path resolution fails iff no `package:` is followed by a non-newline character; then only `pm path` is sent, and files and ledger are unchanged |
| ApkDownload.DownloadedIsSkipped | download_apk.py:76-78 | a known (package, version) is skipped: no pull, and files and ledger are unchanged |
| ApkDownload.PullFailureChangesNothing | download_apk.py:85-89 | a pull is issued iff the path resolves and the key is new; without `pulled` there is no rename and no insert |
| ApkDownload.SuccessNames | download_apk.py:81-100 | on success the staged name is `<dir>/<package>.apk` and the final name `<dir>/<app>-<version>.apk`, with `system_apks` or `user_apks`; `app` is the sanitised extracted name, or the package id when the name is falsy |
| ApkDownload.SuccessRecords | download_apk.py:100-107 | on success the rename replaces the staged file by the final one; the ledger gains exactly the new key, with the final path, the app name and the system flag |
| ApkDownload.UnknownVersionInName | download_apk.py:72-74 | with no version match the final file name ends in `-unknown.apk` |
| ApkDownload.BatchOrder | download_apk.py:109-126 | the batch is the user packages in listing order, then the system packages in listing order; no user package follows a system one |
| ApkDownload.RunKeepsRows | download_apk.py:55-60 | a batch never removes or changes a ledger row |
| ApkDownload.RunKeepsInvariant | download_apk.py:22-31 | a batch keeps the ledger's invariant |
| ApkDownload.RunNewRowsFromJobs | download_apk.py:107 | every row a batch adds belongs to one of its packages |
| ApkDownload.RunAppend | download_apk.py:118-126 | running two groups one after the other is running their concatenation |
| ApkDownload.TwoPackageBatch | download_apk.py:62-126 | with user packages `a`, `b` where only `a` resolves and pulls: one file is finalized, for `a`; only `a` is recorded; `b` ends at path resolution |
| ApkDownload.Harvester.RunAdb | download_apk.py:35-37 | returns the device's output for the command and records the command |
| ApkDownload.Harvester.ProcessPackage | download_apk.py:62-107 | the outcome is `Plan` and the new files, ledger and commands are `Step` of the old ones |
| ApkDownload.Harvester.ProcessGroup | download_apk.py:119-126 | processing a listing is `Run` over its jobs, in order |
| ApkDownload.Harvester.ProcessApps | download_apk.py:109-126 | lists user then system packages; the jobs are `BatchJobs`, and the new state is `Run` over them |
| PosixPath.JoinRelative | download_apk.py:82 | joining a relative name under a directory without a trailing '/' inserts exactly one '/' |
| PosixPath.JoinInjective | download_folder.py:36 | joining relative names to one directory is injective |
| PosixPath.RelPath | download_folder.py:36 | for a file under a normalised directory, `relpath` is a plain relative path and `root + "/" + r` is the file |
| PosixPath.DirnameOfChild | download_folder.py:38 | `dirname(d/name)` is `d` and `basename` is `name` |
| PosixPath.DirnameOfJoin | download_folder.py:36-38 | `dirname` of a joined plain relative path is the directory holding the file, and its `basename` is the last segment of the relative path |
| FolderMirror.PullEffectsSpec | download_folder.py:35-45 | for the k-th listed file, effect 2k creates the parent of its local path and effect 2k+1 is its one pull to that path |
| FolderMirror.ReportsSpec | download_folder.py:45-50 | the k-th report names the file's base name and is successful iff its pull printed `pulled` |
| FolderMirror.DownloadFilesFromFolder | download_folder.py:24-50 | a failed listing gives only the `find`; otherwise the `find` is followed by `PullEffects` and the reports are `Reports` of every listed line, in order |
| FolderMirror.LocalPathUnderLocal | download_folder.py:36 | `<remote>/<r>` maps to `<local>/<r>` |
| FolderMirror.LocalPathInjective | download_folder.py:36 | distinct files under the remote folder map to distinct local paths |
| FolderMirror.ParentOfLocalPath | download_folder.py:36-39 | the directory created is the one holding the local file, and the file keeps its base name from the device |
| FolderMirror.ParentMadeBeforePull | download_folder.py:38-45 | the effect just before each pull creates the directory that the pulled file goes into |
| FolderMirror.SucceededSpec | download_folder.py:47 | a file succeeded iff its pull output exists and holds `pulled` |

## Left out

- Process spawning, the shell text of the commands and their quoting are not modelled. A command is a value, and the device is an oracle that gives the same output whenever a command is repeated.
- `.strip()` of the command output is folded into the oracle.
- androguard parsing is an oracle. Its exceptions, and those of a pull that printed `pulled` but left no file, are not modelled.
- The SQLite engine, the connection and `commit` are not modelled: the table is a map from (package, version) to the row.
- Console output is not modelled, except as the per-file reports of the folder mirror.
- Module-level side effects are not modelled: creating the output directories, opening and closing the database, and the top-level calls.
- `os.rename` is modelled as the POSIX rename that replaces an existing destination. Errors such as a collision on other platforms are not modelled.
- A pull whose output lacks `pulled` is modelled as leaving the local files unchanged.
- `splitlines` is modelled with '\n' as the only line break.
- `relpath` is modelled only for a normalised absolute remote folder other than `/` and for listed paths strictly under it whose relative part is plain (no empty, `.` or `..` segment). `DownloadFilesFromFolder` requires both. File names that hold a '\n' are therefore not covered.
- DownloadFilesFromFolder: requires a non-empty local folder, because `os.makedirs("")` raises for a file directly under the remote folder.
- `os.makedirs` creating every missing ancestor is recorded as one effect naming the directory.
- FolderMirror.LocalPathUnderLocal, FolderMirror.ParentOfLocalPath and FolderMirror.ParentMadeBeforePull: state the shapes of local paths only for a local folder without a trailing '/', as the script's `downloaded_files` is.
