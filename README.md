# Tiggit core in Dafny

This project models four parts of Tiggit, a game launcher and installer:

- **The Windows self-updater** (`misc/self_update.hpp`). `UpdateLog` appends time-stamped lines to `update_log.txt`. `Updater::doAutoUpdate` runs once at start-up and does one of these things:
  - nothing (not on Windows, or an `override` marker is present);
  - act as the staged `update.exe`: copy itself over `tiggit.exe` and start it;
  - remove the leftovers of an earlier update;
  - check the published version and, when it differs, download and unpack the new build (and a newer dll pack) into `update/`, then start the new program.
- **The persisted settings** (`config.hpp`). `Config` has setters that write the `config` file only when something changes. `load` classifies what it finds. `write` stores a fixed JSON document.
- **The repository bookkeeping** (`tiglib/repo.cpp`):
  - where the repository lives (`findRepo`, `getPath`);
  - the rating and install stores, and the vote request;
  - `initRepo`, which loads the stores and converts an old repository layout once, inside a single `try` block.
- **The game list's listener registry** (`app_wx/gamelist.cpp`): a set of listeners with a back pointer, and the notification fan-out.

Everything the program learns from outside is an input of the model:

- what each background job reports on every poll of its loop, as a trace of `Tick`s (module `Progress`);
- whether the user clicked Cancel;
- what the version files decode to;
- what the archive holds;
- what spawning a process returns;
- the OS;
- what `locateRepo` finds and whether the repository lock was taken;
- the clock, as a function from log line number to time stamp.

The disk is a map from paths (sequences of names) to files and directories (module `FileSystem`). The primitives `remove`, `remove_all`, `copy_file`, `rename` and the archive extractor change it in place through the class `Disk`.

The methods that change state in place are proved against specification functions:

- `Maintained`, `Upgraded` and `HandedOver` for the updater;
- `ReadConfig` and `Encode` for the settings;
- `Migration`, `Converted`, `ShotsRenamed` and `Installed` for the repository conversion.

The lemmas then prove what the program promises about those functions.

## Model

| member | source | states |
|---|---|---|
| SelfUpdate.UpdateLog.Log | misc/self_update.hpp:42-51 | exactly one line, the UTC time stamp, `":   "` and the message, is appended; nothing else changes |
| SelfUpdate.UpdateLog.CopyLog | misc/self_update.hpp:53-63 | the "Copy: from => to" line is appended before the disk changes; the copy succeeds exactly when `to` is not a directory with entries and `from` is a regular file other than `to`, and the disk afterwards is `AfterCopy` of the disk before |
| SelfUpdate.CopyTouchesOnlyTarget | misc/self_update.hpp:53-63 | `copyLog` changes no path but `to`; on success `to` holds `from`'s file; a throw leaves `to` in place when it is a directory with entries (the `remove` refused it) and removed otherwise |
| SelfUpdate.Updater.constructor | misc/self_update.hpp:73-75 | the version starts as "unknown" and the updater is not offline |
| SelfUpdate.Updater.ShowProgress | misc/self_update.hpp:94-104 | each poll shows exactly one report: a pulse when the size is unknown, otherwise the percentage done; the answer is false exactly when the user clicked Cancel |
| SelfUpdate.Updater.WaitForCheck | misc/self_update.hpp:88-124 | the check's poll loop ends on the first poll that finishes the download or is cancelled, with one report per poll made; a Cancel takes the updater offline |
| SelfUpdate.UpToDate | misc/self_update.hpp:134-152 | "update needed" exactly when the download succeeded, the run is not offline, the decoder accepted the file and its version differs from the installed one |
| SelfUpdate.Updater.CheckVersion | misc/self_update.hpp:79-153 | the poll loop ends on the first poll that cancels or finishes; a Cancel sets `offline`, which is never cleared; an updater already offline always answers "up to date"; the dialog gets a pulse or a percentage per poll; the answer is `UpToDate` of the final poll and the decoding |
| SelfUpdate.OfflineIsSticky | misc/self_update.hpp:107-118 | once offline, no version check asks for an update, whatever it downloads |
| SelfUpdate.UpdateIffVersionsDiffer | misc/self_update.hpp:147-152 | after a successful, uncancelled download the decoder accepts, an update is asked for exactly when the two version strings differ |
| SelfUpdate.Updater.DoUpdate | misc/self_update.hpp:358-428 | a Cancel only asks the download to abort and never sets `offline`; the archive is unpacked into the target only after the download succeeded; the result is true exactly when the download and the unzip both succeeded |
| SelfUpdate.Updater.WaitForDownload | misc/self_update.hpp:369-395 | the download loop ends on the first poll at which the download has finished, with one report per poll made; a Cancel neither ends it nor takes the updater offline |
| SelfUpdate.Updater.DoAutoUpdate | misc/self_update.hpp:161-354 | off Windows or with an `override` marker, the result is false with no disk change, no log line and no report; otherwise "this_exe=" is logged first; as `update.exe`, the disk, the log and the result are as `SelfInstalled` and `InstallLines` say (`tiggit.exe` is overwritten and started exactly when the copy goes through); otherwise the run ends as `Maintained` says, the log gains "this_exe=" and then the messages of `MaintainTrail`, each stamped with the time of its line, and `offline` and the dialog reports become those of `MaintainTrail` |
| SelfUpdate.Updater.InstallSelf | misc/self_update.hpp:182-235 | the new exe is `tiggit.exe` beside the running one; the target and the copy are logged, the disk afterwards is `AfterCopy` of the running exe onto `tiggit.exe`, and only when the copy went through is `tiggit.exe` started (and logged) with the result true; the directory-copy branch cannot be reached |
| SelfUpdate.SelfInstallOverwrites | misc/self_update.hpp:202-234 | as `update.exe`, the run asks the caller to exit exactly when the running exe is a regular file and `tiggit.exe` is not a directory with entries; then `tiggit.exe` holds the running exe and is the process started; no other path changes |
| SelfUpdate.Updater.CleanUp | misc/self_update.hpp:243-263 | when `update/` or `update.exe` exists, one line is logged, `update/` is removed, and then `update.exe`, unless it is a directory with entries, in which case `remove` throws; otherwise nothing changes and nothing is logged; the results say which |
| SelfUpdate.CleanedKeepsVersion | misc/self_update.hpp:243-274 | removing the leftovers leaves the installed `version` file as it was, also when the removal of `update.exe` throws |
| SelfUpdate.SweptKeepsUpdater | misc/self_update.hpp:255-260 | removing `update/` first does not change whether the removal of `update.exe` throws |
| SelfUpdate.Updater.UpdateInstalled | misc/self_update.hpp:243-353 | a clean-up whose removal throws ends the run with the exception before the version is read; a run that cleaned up logs only its clean-up line and returns false without any fetch; otherwise the version is read from the `version` file; in every case the run ends as `Maintained` says, and the new log lines, `offline` and the dialog reports are those of `MaintainTrail` |
| SelfUpdate.Updater.FetchAndStage | misc/self_update.hpp:281-353 | "Fetching" is logged with the test-channel URL when `use_test_url` exists; when no update is needed, "Version … up-to-date" follows, the result is false and the disk is untouched; otherwise the run ends as `Upgraded` says; the log, `offline` (set by a Cancel in either check) and the reports (the check's polls first) are those of `FetchTrail` |
| SelfUpdate.Updater.Upgrade | misc/self_update.hpp:300-353 | "Upgrading version old => new" is logged first; a failed download or unzip ends the run with false and no spawn; otherwise the unpacked build is handed over; the log, `offline` and the reports (the download's polls, then the hand-over's) are those of `UpgradeTrail` |
| SelfUpdate.Updater.HandOver | misc/self_update.hpp:308-353 | with a newer dll pack, the staged `tiggit.exe` is started and nothing is copied; without one, the staging copies are made and `update.exe` is started only when both went through, and a staging copy that throws ends the run; the result is true exactly when the spawn did not return -1; the log gains the dll-pack line, the copy lines and the "Running" line as `HandOverTrail` lists them (the "Running" line also when the spawn returns -1), and `offline` and the reports are those of the dll-pack check |
| SelfUpdate.Updater.FetchDlls | misc/self_update.hpp:308-326 | the dll pack is asked for exactly when the version check on the installed `dll_version` word asks for an update; only then is "Upgrading dll-pack version old => new" logged and the pack downloaded and unpacked into `update/`; it counts as arrived exactly when download and unzip succeeded; a Cancel during this check takes the updater offline; the reports are the check's polls, then the download's (`DllTrail`) |
| SelfUpdate.Updater.StageUpdater | misc/self_update.hpp:335-341 | `update/tiggit.exe` is copied to `update.exe`, then `update/version` to `version`, each copy logged as `StagingMessages` lists it; the second copy is neither logged nor made after a throw; the result is `StagingSucceeds` and the disk `AfterStaging` of the disk before |
| SelfUpdate.StagingSucceedsIff | misc/self_update.hpp:335-341 | the staging succeeds exactly when neither `update.exe` nor `version` is a directory with entries and both staged files are regular files; it then puts the staged exe at `update.exe` and the staged version at `version` |
| SelfUpdate.ExitOnlyAfterSpawn | misc/self_update.hpp:347-353 | the caller is told to exit only after the staged `tiggit.exe` or `update.exe` was started and the spawn did not return -1 |
| SelfUpdate.OfflineNeverUpgrades | misc/self_update.hpp:134-135 | offline, a run downloads, stages and starts nothing; at most it removes leftovers, and it throws only when `update.exe` is a directory with entries |
| SelfUpdate.OnlyUpdateFilesChange | misc/self_update.hpp:243-353 | on the modelled disk, a run of the installed program changes nothing outside `update/`, `update.exe` and `version`, so the running `tiggit.exe` is untouched; `update_log.txt`, which every run appends to, is modelled apart as `UpdateLog.lines` |
| SelfUpdate.HandedOverElsewhere | misc/self_update.hpp:308-341 | on the modelled disk (`update_log.txt` is `UpdateLog.lines`), handing over changes nothing outside `update/`, `update.exe` and `version` |
| SelfUpdate.UpgradedElsewhere | misc/self_update.hpp:300-341 | on the modelled disk (`update_log.txt` is `UpdateLog.lines`), downloading, unpacking and handing over change nothing outside `update/`, `update.exe` and `version` |
| SelfUpdate.VersionHandedOver | misc/self_update.hpp:335-341 | the `version` file changes only by the hand-over to `update.exe` (which then finds the staged version and exe in place) or by a copy that throws |
| SelfUpdate.VersionFileOnlyOnHandover | misc/self_update.hpp:300-341 | a failed `doUpdate` leaves `version` untouched; the installed `version` changes only when `update.exe` is started with the staged version and exe in place, or when a staging copy throws |
| SelfUpdate.StampedAppend | misc/self_update.hpp:42-51 | logging one stretch of messages and then another leaves the same lines as logging both in one go, each line stamped with the clock at its own line number |
| SelfUpdate.OfflineOnlyByCancel | misc/self_update.hpp:107-118 | a run never brings the updater back online, and ends offline exactly when it started so, or a Cancel hit the main version check (which runs unless there were leftovers to clean), or a Cancel hit the dll-pack check (which runs only once a new build is unpacked) |
| SelfUpdate.HandOverEndsWith | misc/self_update.hpp:308-353 | the last message of a hand-over is "Running" with the staged `tiggit.exe` when the dll pack arrived, "Running" with `update.exe` when both staging copies went through, and no "Running" line when the pack or a copy failed |
| SelfUpdate.UpgradeEndsWith | misc/self_update.hpp:300-353 | the last message of an upgrade is the hand-over's once the build is unpacked, and no "Running" line when the download or unzip failed |
| SelfUpdate.MaintainEndsWith | misc/self_update.hpp:243-353 | the last message of a run of the installed program is the hand-over's when it unpacked a new build, and no "Running" line after a clean-up, an up-to-date check or a failed download |
| SelfUpdate.SpawnedAsComputed | misc/self_update.hpp:243-353 | the process a run starts is the one `SpawnOf` names from the disk, the world and the version before the run |
| SelfUpdate.SpawnIsLogged | misc/self_update.hpp:335-353 | a run that started a process ends its log with "Running" and that process, and a run that started none ends with no "Running" line |
| Progress.Percent | misc/self_update.hpp:95-101 | the percentage is between 0 and 99; below the total it is the floor of `current*100/total`; at or past the total it is 99 |
| Progress.ReportFor | misc/self_update.hpp:95-104 | a poll pulses exactly when the total is unknown (0), and otherwise reports at most 99 |
| Progress.ReportsBounded | misc/self_update.hpp:376-385 | every report of a poll loop is a pulse exactly when that poll's total is 0, and every percentage is at most 99 |
| Progress.HaltIndex | misc/self_update.hpp:89-124 | the loop stops at the first poll that finishes the job or (in `checkVersion`) that the user cancels |
| Progress.FinishIndex | misc/self_update.hpp:409-421 | the unzip loop stops at the first poll whose job has finished |
| Text.FirstWord | config.hpp:101-105 | `stream >> word` fails exactly on text that is all white space; otherwise it reads a non-empty word without white space |
| Text.FirstWordOf | misc/self_update.hpp:270-274 | a word followed by white space or the end of the text is read back whole, whatever white space precedes it |
| Json.AsInt | config.hpp:127 | `asInt` succeeds exactly on null, booleans and integers that fit in 32 bits, always with a 32-bit result, and reads such an integer as itself |
| Json.AsBool | config.hpp:128-130 | `asBool` succeeds exactly on null, booleans and integers, and reads a boolean as itself |
| Json.AsString | config.hpp:131 | `asString` succeeds exactly on null, booleans and strings, and reads a string as itself |
| Configuration.ToInt32 | config.hpp:164 | the `(int)` cast gives a 32-bit value congruent to its input modulo 2^32, and keeps a value that fits |
| Configuration.ReadConfig | config.hpp:115-146 | a document is rejected exactly when `repo_version` is not "3" or a member fails to convert; a readable document gives its members, with a negative time clamped to 0 and an empty game directory read as `games` (any other kept as it is); each member is stored as soon as it converts, so a `last_time` that does not convert leaves the settings unchanged, one that does is stored (unclamped) even when a later member throws, and a `gamedir` that does not convert keeps the old one; the cache is stale exactly when `cache_version` is below 1 |
| Configuration.WriteThenRead | config.hpp:127-170 | reading back what `write` stored is never rejected and gives the same settings, except that the time is cut to 32 bits and clamped at 0 and an empty game directory reads as `games` |
| Configuration.LastTimeSurvives | config.hpp:122-127 | the time survives a write and a load exactly when it lies in `[0, 2^31-1]` |
| Configuration.DefaultLastTimeReadsAsZero | config.hpp:38-41 | the constructor's time `0x7fffffffffff` is written as -1 and read back as 0 |
| Configuration.Config.constructor | config.hpp:38-41 | all flags start false and the time starts at `0x7fffffffffff` |
| Configuration.Config.Write | config.hpp:159-172 | one document is written, always with `repo_version` "3" and `cache_version` 1 plus the current time (cut to 32 bits), flags and game directory; no setting changes |
| Configuration.Config.SetLastTime | config.hpp:50-57 | the time becomes the larger of the old and new values, and is written exactly when the new value is strictly greater |
| Configuration.Config.SetAskedDirs | config.hpp:61-68 | the flag is set afterwards and a write happens only on the call that sets it, so at most once |
| Configuration.Config.ShownDemoMsg | config.hpp:70-77 | the flag is set afterwards and a write happens only on the call that sets it, so at most once |
| Configuration.Config.SetGameDir | config.hpp:79-83 | the game directory is set and written, even when it is unchanged |
| Configuration.Config.Load | config.hpp:85-157 | a missing file sets first-run, cache and list updates and keeps the defaults; a pre-JSON file (first word empty, "1" or "2") or one that fails to parse sets the list update and keeps the settings; otherwise the settings are `ReadConfig`'s; `write` always ends the call |
| Configuration.Config.ReadFound | config.hpp:99-147 | an old-format or unparsable file is rejected with the settings unchanged; otherwise the settings, the rejection and the stale-cache flag are `ReadConfig`'s |
| Repository.JoinPath | tiglib/repo.cpp:213-217 | `dir` is followed by `name`, with a '/' between them exactly when both are non-empty and neither supplies one |
| Repository.VoteUrl | tiglib/repo.cpp:204-210 | the request is `http://tiggit.net/api/count/` + urlname + `&rate=` followed by the single digit of the vote |
| Repository.LayoutApart | tiglib/repo.cpp:72-159 | the fixed files of the old and new layouts lie outside each other, so no conversion step moves another's file |
| Repository.ShotRule | tiglib/repo.cpp:146-150 | the extension test on a screenshot's full path is a test on its own name: at least four characters with a dot fourth from the end |
| Repository.PngHasExtension | tiglib/repo.cpp:149-153 | a name with `.png` appended passes the extension test, so it is never renamed again |
| Repository.ShotStepRenames | tiglib/repo.cpp:144-153 | one pass over a regular file without an extension moves it, with its content, to its `.png` name |
| Repository.ShotStepKeeps | tiglib/repo.cpp:140-154 | a pass over another entry leaves a file without an extension and its `.png` name as they were |
| Repository.ShotsKeepUnvisited | tiglib/repo.cpp:140-154 | entries the loop has not reached keep their files |
| Repository.ShotsRenamedToPng | tiglib/repo.cpp:140-154 | after the loop, every regular screenshot file without an extension sits under its name with `.png` appended, with its content, and its old name is gone |
| Repository.ShotsElsewhere | tiglib/repo.cpp:140-154 | the screenshot loop touches nothing outside the screenshot directory |
| Repository.Installed | tiglib/repo.cpp:126-138 | the merged install store holds the old names and the listed names; every known name keeps its status; every new name has status 2 |
| Repository.InstalledOneMore | tiglib/repo.cpp:133-135 | merging one more name adds it with status 2 exactly when it is not known yet |
| Repository.ConvertedKeeps | tiglib/repo.cpp:126-159 | the steps from the old install list on leave the rates store and `wxtiggit.conf` alone |
| Repository.RatingsMovedElsewhere | tiglib/repo.cpp:98-108 | removing the old configuration and renaming the ratings file leave `wxtiggit.conf`, `installed.json`, `data` and `games` alone |
| Repository.RatingsOnlyWhenAbsent | tiglib/repo.cpp:105-108 | the rates store file changes only when it was absent and `ratings.json` existed, and then it is the old ratings file |
| Repository.VotesOnlyWhenAbsent | tiglib/repo.cpp:79-88 | `wxtiggit.conf` changes only when it was absent and the old configuration has a convertible `vote_count`, and then it holds that value as `show_votes` |
| Repository.GamesOnlyWhenAbsent | tiglib/repo.cpp:156-159 | `games` changes only when it was absent and `data` was a directory, and then it is a directory |
| Repository.LastTimeOnlyWhenAbsent | tiglib/repo.cpp:90-95 | the main store changes only by taking over the old `last_time`, and only when it had none |
| Repository.InstalledMerged | tiglib/repo.cpp:126-138 | the conversion adds only names with status 2 and keeps every known status; when the old options convert and `installed.json` reads, every name on it is known afterwards |
| Repository.Repo.FindRepo | tiglib/repo.cpp:41-54 | an empty `where` falls back to the located repository; the result is false exactly when that is empty too; on success the list file is `dir/all_games.json` and the tig directory `dir/tigfiles/` |
| Repository.Repo.GetRating | tiglib/repo.cpp:186-192 | the rating is -1 or lies in 0 to 5; no entry gives -1; a stored value that `asInt` converts is returned when it lies in 0 to 5 and gives -1 otherwise (null reads as 0, a boolean as 0 or 1); a value `asInt` cannot convert throws |
| Repository.Repo.SetRating | tiglib/repo.cpp:194-211 | a vote outside 0 to 5 or for an already rated game changes nothing and sends nothing; otherwise the vote is stored, reads back through `GetRating`, and its request is sent |
| Repository.Repo.SetInstallStatus | tiglib/repo.cpp:172-177 | the status is stored under the game's name and reads back; nothing else changes |
| Repository.Repo.SetLastTime | tiglib/repo.cpp:179-184 | the main store's `last_time` is the value, and `StoredLastTime` of the store reads it back, as `LoadRates` does at the end of the same `initRepo` |
| Repository.Repo.MergeInstalled | tiglib/repo.cpp:133-135 | the loop over the old install list leaves the install store equal to `Installed` of the old store and the names |
| Repository.Repo.MoveOptions | tiglib/repo.cpp:79-95 | `vote_count` becomes `show_votes` in a new `wxtiggit.conf` only when that file is absent, `last_time` is taken over only when the main store has none, and a conversion that throws ends the step with what was done |
| Repository.Repo.RenameShots | tiglib/repo.cpp:140-154 | the loop visits exactly the entries of the screenshot directory, and the disk afterwards is `ShotsRenamed` in that order |
| Repository.Repo.ConvertData | tiglib/repo.cpp:126-159 | the disk and the stores afterwards are `Converted` of the ones before |
| Repository.Repo.Migrate | tiglib/repo.cpp:72-161 | the disk and the stores afterwards are `Migration` of the ones before: an exception ends the conversion with what was done so far |
| Repository.Repo.LoadRates | tiglib/repo.cpp:163-167 | the rates store is loaded (or the load throws), and the time of the last list update becomes the stored `last_time` when there is one and stays as it was otherwise |
| Repository.Repo.InitRepo | tiglib/repo.cpp:56-170 | without the lock, the result is false and nothing is loaded or changed; a store that cannot be loaded throws; otherwise the stores are loaded, an old repository is converted, the rates store is loaded, and the stored `last_time` (if any) is taken over |
| GameLists.GameList.AddListener | app_wx/gamelist.cpp:9-13 | the listener is in the set and points back at this list; adding it again leaves the set unchanged |
| GameLists.GameList.RemoveListener | app_wx/gamelist.cpp:15-19 | the listener is no longer in the set and points at no list; every other listener stays registered |
| GameLists.AddThenRemove | app_wx/gamelist.cpp:9-19 | adding and then removing a listener that was not registered restores the set |
| GameLists.GameList.NotifyListChange | app_wx/gamelist.cpp:21-26 | every registered listener receives exactly one list-change callback, and no other counter changes |
| GameLists.GameList.NotifyInfoChange | app_wx/gamelist.cpp:28-33 | every registered listener receives exactly one info-change callback, and no other counter changes |
| GameLists.GameList.NotifyStatusChange | app_wx/gamelist.cpp:35-40 | every registered listener receives exactly one status-change callback, and no other counter changes |
| GameLists.GameList.SetTags | app_wx/gamelist.cpp:45 | setting tags changes nothing |
| GameLists.GameList.ClearTags | app_wx/gamelist.cpp:44 | clearing tags is `setTags("")` and changes nothing |
| GameLists.GameList.Edit | app_wx/gamelist.cpp:78-82 | the index must be one of the list's positions; the game at that position is returned |

## Left out

- Dialog texts (`setMsg`), `yield`, `wxMilliSleep` and `wxSleep` are not modelled. Only their order relative to the polls matters, and the trace of ticks records that order.
- `update_log.txt` is not part of the modelled disk: it is `UpdateLog.lines`, which every run past the `override` check appends to. The lemmas that say a run changes nothing outside `update/`, `update.exe` and `version` are about the modelled disk, so they say nothing about the log file.
- A `remove` that fails for another reason than a directory with entries (a file in use, missing permissions) is not modelled.
- The temporary files `ver.tmp` and `update.zip` are not part of the modelled disk. Downloading is an input; so is `decodeTigFile` and what it fills in.
- Progress.Percent: the source computes the percentage in double precision (`current*100.0/total`). The model uses integer division, which truncates the same way for non-negative values.
- A failed unzip is taken to have written every archive member. A partial extraction is not modelled.
- The poll loops wait for the worker thread to finish. The model assumes that a trace ends on a poll that stops the loop; it does not prove the loops terminate.
- `wxGetOsVersion` and the result of `wxExecute` are inputs. The started process is recorded, not run.
- `strftime`/`gmtime` are modelled by a clock function from log line number to time stamp.
- A `version` or `dll_version` file that cannot be opened is treated like one that holds no word: the previous version string is kept, as in the source.
- The directory-copy loop of the `update.exe` branch (misc/self_update.hpp:210-229) is not modelled. `InstallSelf` proves that branch cannot be taken.
- Paths are sequences of names rendered with `\` in log lines. boost path normalisation is not modelled.
- A `rename` onto an existing entry replaces that entry. A platform where this fails is not modelled.
- The screenshot directory is listed once, when the iteration starts. The order of its entries is an input.
- `exists` on a path written with a trailing separator is taken to be true only for a directory.
- JSON reading and writing (`readJson`, `writeJson`) are not modelled.
- `JConfig` is not part of this model. A store loads from a file as follows:
  - a missing file gives an empty store;
  - a directory, or a file that does not parse, makes the load throw.
- Saving a store to disk is not modelled, except for `wxtiggit.conf`, which the conversion creates.
- Repository.Repo.SetLastTime: the source stores `last_time` as eight bytes of binary data (`setData`). The model stores the integer itself, and `getData` reads it back the same way. Saving the store to disk is not modelled, so a later `initRepo`, which loads the store from disk, is not shown to see the value.
- JSON reals, arrays and objects are one `Other` value that every conversion rejects, so `asInt` of a real is not modelled.
- The conversions follow the JsonCpp behaviour in which `asString` of a number throws and `asBool` of a string throws; a JsonCpp version that converts these instead is not modelled.
- `locateRepo` (the `DirFinder` search) is an input of `FindRepo`, and the result of taking the repository lock is an input of `InitRepo`. The lock file itself is not modelled.
- Repository.Repo.constructor: the constructor is declared in `repo.hpp`, which is not part of this model. The model's constructor only sets up the empty state (no directory, empty stores, no requests sent) that the methods of `tiglib/repo.cpp` start from, with the initial `lastTime` as a parameter.
- `fetchFiles` and `loadData` are not modelled: they call the network and the data loader.
- The conversion of `readnews.json` is not modelled: its body in the source is commented out, so it does nothing.
- `setInstallStatus` is not modelled under concurrency, and its thread-safety claim is not checked.
- `Notifier::notify`, `flipReverse`, `setReverse`, `setSearch`, the `sort*` methods and the lister behind `size` are not modelled: they only forward to the list's sorter, which is not part of this model. `size` is the number of games held.
- The listeners' callbacks (`gameListChanged`, `gameInfoChanged`, `gameStatusChanged`) are modelled as counters of the notifications received; what the views do with them is not modelled.
- The order in which a `std::set` of pointers is iterated is not modelled, and neither is a callback that changes the set while it is being iterated.
