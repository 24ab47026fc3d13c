/**
  The Windows self-updater run once at program start.

  `UpdateLog` appends time-stamped lines to `update_log.txt`; `Updater`
  decides whether to act as the staged `update.exe`, to clean up the
  leftovers of an earlier attempt, or to fetch the version file, download
  and unpack a new build (and a dll pack) into `update/` and hand over to a
  new process. Everything the program learns from outside is an input:
  the OS, what each download and unzip job reports on every poll, what the
  version files decode to, and what spawning a process returns.
*/
module SelfUpdate {
  import opened Wrappers
  import opened FileSystem
  import opened Text
  import opened Progress

  /** A path as boost prints it on Windows. */
  function Render(p: Path): string {
    if p == [] then "" else if |p| == 1 then p[0] else Render(p[..|p| - 1]) + "\\" + p[|p| - 1]
  }

  /** One line of the update log: the UTC time, a colon, three blanks and the message. */
  function Entry(stamp: string, msg: string): string {
    stamp + ":   " + msg
  }

  function CopyMessage(from: Path, to: Path): string {
    "Copy: " + Render(from) + " => " + Render(to)
  }

  /** The word the first `inf >> s` reads from file `p`, or `current` when the
      file cannot be opened or holds no word. */
  function WordIn(t: Tree<string>, p: Path, current: string): string {
    if p in t && t[p].File? then FirstWord(t[p].content).GetOr(current) else current
  }

  /** The install directory's staging directory, `update/`. */
  function UpdateDir(home: Path): Path { home + ["update"] }

  /** The staged updater, `update.exe`, beside the installed program. */
  function UpdaterExe(home: Path): Path { home + ["update.exe"] }

  /** The installed program's `version` file. */
  function VersionFile(home: Path): Path { home + ["version"] }

  /** The tree once `update/` (if it exists) is removed. */
  function Swept(t: Tree<string>, home: Path): Tree<string> {
    if UpdateDir(home) in t then Pruned(t, UpdateDir(home)) else t
  }

  /** The tree once `update/` (if it exists) and `update.exe` are removed. */
  function Cleaned(t: Tree<string>, home: Path): Tree<string> {
    Swept(t, home) - {UpdaterExe(home)}
  }

  /** Cleaning up leaves the installed `version` file alone, whether or not
      the removal of `update.exe` throws. */
  lemma CleanedKeepsVersion(t: Tree<string>, home: Path)
    ensures SameAt(Cleaned(t, home), t, VersionFile(home))
    ensures SameAt(Swept(t, home), t, VersionFile(home))
  {
    assert !Within(UpdateDir(home), VersionFile(home)) by {
      assert VersionFile(home)[..|UpdateDir(home)|] == VersionFile(home);
      assert VersionFile(home)[|home|] != UpdateDir(home)[|home|];
    }
    PrunedElsewhere(t, UpdateDir(home), VersionFile(home));
  }

  /** Removing `update/` does not change whether `update.exe` is a
      non-empty directory, so the removal that follows fails or not as it
      would have before. */
  lemma SweptKeepsUpdater(t: Tree<string>, home: Path)
    ensures NonEmptyDir(Swept(t, home), UpdaterExe(home)) == NonEmptyDir(t, UpdaterExe(home))
  {
    var exe := UpdaterExe(home);
    var upd := UpdateDir(home);
    forall name: string
      ensures SameAt(Swept(t, home), t, exe + [name])
    {
      assert !Within(upd, exe + [name]) by {
        assert (exe + [name])[|home|] != upd[|home|];
      }
      PrunedElsewhere(t, upd, exe + [name]);
    }
    assert !Within(upd, exe) by {
      assert exe[|home|] != upd[|home|];
    }
    PrunedElsewhere(t, upd, exe);
    NonEmptyDirAgrees(Swept(t, home), t, exe);
  }

  /** Where the latest client is described: the public file, or the test
      file when the `use_test_url` marker exists. */
  function LatestUrl(testChannel: bool): string {
    if testChannel then "http://tiggit.net/client/latest_test.tig"
    else "http://tiggit.net/client/latest.tig"
  }

  /** `copyLog(from, to)` succeeds: `to` is not a directory with entries
      (which `remove` refuses), and `from` is a regular file that is not
      `to` (removing `to` would remove it). */
  predicate CopySucceeds(t: Tree<string>, from: Path, to: Path) {
    !NonEmptyDir(t, to) && IsFile(t, from) && from != to
  }

  /** The tree `copyLog(from, to)` leaves, whether or not it throws. */
  function AfterCopy(t: Tree<string>, from: Path, to: Path): Tree<string> {
    if NonEmptyDir(t, to) then t
    else if CopySucceeds(t, from, to) then t[to := t[from]]
    else t - {to}
  }

  /** `copyLog` changes nothing but `to`: on success `to` holds `from`'s
      file; a failed `remove` leaves `to` in place; a failed `copy_file`
      leaves `to` removed. */
  lemma CopyTouchesOnlyTarget(t: Tree<string>, from: Path, to: Path, k: Path)
    ensures k != to ==> SameAt(AfterCopy(t, from, to), t, k)
    ensures CopySucceeds(t, from, to) ==> to in AfterCopy(t, from, to) && AfterCopy(t, from, to)[to] == t[from]
    ensures !CopySucceeds(t, from, to) ==> (to in AfterCopy(t, from, to) <==> NonEmptyDir(t, to))
  {
  }

  /** `update_log.txt`, opened for appending. `clock(n)` is the UTC time
      (`%Y-%m-%d %X`) at which line number `n` is written. */
  class UpdateLog {
    var lines: seq<string>
    const clock: nat -> string

    constructor (existing: seq<string>, clock: nat -> string)
      ensures lines == existing && this.clock == clock
    {
      lines := existing;
      this.clock := clock;
    }

    /** `log(msg)`: exactly one line is appended. */
    method Log(msg: string)
      modifies this
      ensures lines == old(lines) + [Entry(clock(|old(lines)|), msg)]
      ensures lines == old(lines) + Stamped(clock, |old(lines)|, [msg])
    {
      lines := lines + [Entry(clock(|lines|), msg)];
    }

    /** `copyLog(from, to)`: the copy is logged first, `to` is removed if it
        exists, then `from` is copied to `to`. It throws when `to` is a
        directory that still has entries (nothing is copied), or when `from`
        is not a regular file once `to` is gone, which includes the case
        `from == to`. */
    method CopyLog(disk: Disk<string>, from: Path, to: Path) returns (ok: bool)
      modifies this, disk
      ensures lines == old(lines) + [Entry(clock(|old(lines)|), CopyMessage(from, to))]
      ensures ok == CopySucceeds(old(disk.files), from, to)
      ensures disk.files == AfterCopy(old(disk.files), from, to)
    {
      Log(CopyMessage(from, to));
      if disk.Exists(to) {
        var removed := disk.Remove(to);
        if !removed {
          return false;
        }
      }
      ok := disk.CopyFile(from, to);
    }
  }

  /** The fields of a decoded `.tig` version file that the updater reads. */
  datatype TigInfo = TigInfo(version: string, url: string)

  /** What `decodeTigFile` does with the downloaded file: return true or
      false after filling in the info, or throw. */
  datatype Decoding = Decoded(accepted: bool, info: TigInfo) | DecodeThrew

  /** One `checkVersion` call: the polls of its download and the decoding. */
  datatype Fetch = Fetch(polls: seq<Tick>, decoding: Decoding) {
    predicate Valid() {
      Terminates(polls, true)
    }

    /** The loop ended on a Cancel (possibly just as the download finished). */
    predicate Cancelled()
      requires Valid()
    {
      !Final(polls, true).answer
    }

    predicate Downloaded()
      requires Valid()
    {
      Final(polls, true).state == Succeeded
    }
  }

  /** One `doUpdate` call: the polls of the download, the states the unzip
      loop sees, and the files the archive unpacks to. */
  datatype Job = Job(download: seq<Tick>, unzip: seq<JobState>, members: map<string, string>) {
    predicate Valid() {
      Terminates(download, false) && StatesTerminate(unzip)
    }

    predicate Downloaded()
      requires Valid()
    {
      Final(download, false).state.Succeeded?
    }

    predicate Succeeded()
      requires Valid()
    {
      Downloaded() && FinalState(unzip).Succeeded?
    }
  }

  /** Everything a run of the updater learns from outside. */
  datatype World = World(
    onWindows: bool,
    mainFetch: Fetch,
    mainJob: Job,
    dllFetch: Fetch,
    dllJob: Job,
    spawnResult: int)
  {
    predicate Valid() {
      mainFetch.Valid() && mainJob.Valid() && dllFetch.Valid() && dllJob.Valid()
    }
  }

  /** How `doAutoUpdate` ends: with its result ("exit now"), or by an
      exception from a filesystem primitive. */
  datatype Outcome = Returned(exit: bool) | Threw

  /** The answer of `checkVersion` once its download loop is over: "up to
      date" unless the download succeeded, the run is not offline, the
      decoder accepted the file and the version it names differs from `ver`. */
  function UpToDate(downloaded: bool, offline: bool, decoding: Decoding, ver: string): (r: bool)
    ensures !r <==> downloaded && !offline && decoding.Decoded? && decoding.accepted
                    && decoding.info.version != ver
  {
    if !downloaded || offline then true
    else match decoding
      case DecodeThrew => true
      case Decoded(accepted, info) => !accepted || ver == info.version
  }

  /** `checkVersion` on `f` reports that `ver` is out of date. */
  predicate NeedsUpdate(f: Fetch, offline: bool, ver: string)
    requires f.Valid()
  {
    !UpToDate(f.Downloaded(), offline || f.Cancelled(), f.decoding, ver)
  }

  /** Once offline, no version check asks for an update, whatever it
      downloads. */
  lemma OfflineIsSticky(f: Fetch, ver: string)
    requires f.Valid()
    ensures !NeedsUpdate(f, true, ver)
  {
  }

  /** When the check downloads and decodes the file without a Cancel, an
      update is asked for exactly when the versions differ (string
      inequality: a downgrade counts too). */
  lemma UpdateIffVersionsDiffer(f: Fetch, offline: bool, ver: string)
    requires f.Valid() && f.Downloaded() && !offline && !f.Cancelled()
    requires f.decoding.Decoded? && f.decoding.accepted
    ensures NeedsUpdate(f, offline, ver) <==> f.decoding.info.version != ver
  {
  }

  /** The staged program, `update/tiggit.exe`. */
  function StagedExe(home: Path): Path { UpdateDir(home) + ["tiggit.exe"] }

  /** The staged version file, `update/version`. */
  function StagedVersion(home: Path): Path { UpdateDir(home) + ["version"] }

  /** The dll pack's version file beside the installed program. */
  function DllVersionFile(home: Path): Path { home + ["dll_version"] }

  /** Both staging copies succeed: `update/tiggit.exe` to `update.exe`,
      then `update/version` to `version`. */
  predicate StagingSucceeds(t: Tree<string>, home: Path) {
    && CopySucceeds(t, StagedExe(home), UpdaterExe(home))
    && CopySucceeds(AfterCopy(t, StagedExe(home), UpdaterExe(home)), StagedVersion(home), VersionFile(home))
  }

  /** The tree the staging copies leave; a copy that throws skips the
      second one. */
  function AfterStaging(t: Tree<string>, home: Path): Tree<string> {
    var t1 := AfterCopy(t, StagedExe(home), UpdaterExe(home));
    if CopySucceeds(t, StagedExe(home), UpdaterExe(home))
    then AfterCopy(t1, StagedVersion(home), VersionFile(home))
    else t1
  }

  /** The staging succeeds exactly when neither target is a directory with
      entries and both staged files are regular files; it then puts the
      staged exe at `update.exe` and the staged version at `version`. */
  lemma StagingSucceedsIff(t: Tree<string>, home: Path)
    ensures StagingSucceeds(t, home) <==>
              && !NonEmptyDir(t, UpdaterExe(home)) && IsFile(t, StagedExe(home))
              && !NonEmptyDir(t, VersionFile(home)) && IsFile(t, StagedVersion(home))
    ensures StagingSucceeds(t, home) ==>
              AfterStaging(t, home) == t[UpdaterExe(home) := t[StagedExe(home)]][VersionFile(home) := t[StagedVersion(home)]]
  {
    var exe := UpdaterExe(home);
    var ver := VersionFile(home);
    assert ver != exe by {
      assert ver[|home|] != exe[|home|];
    }
    assert StagedExe(home) != exe && StagedVersion(home) != exe;
    if CopySucceeds(t, StagedExe(home), exe) {
      var t1 := AfterCopy(t, StagedExe(home), exe);
      forall name: string
        ensures SameAt(t1, t, ver + [name])
      {
        assert |ver + [name]| != |exe|;
      }
      NonEmptyDirAgrees(t1, t, ver);
    }
  }

  /** How a run ends once the new build sits unpacked in `update/` of tree
      `t`: with a newer dll pack the staged `tiggit.exe` is run in place
      (it needs the new dlls); otherwise it is copied to `update.exe`,
      the staged `version` over the installed one, and `update.exe` is
      run. A staging copy that throws ends the run. */
  ghost predicate HandedOver(t: Tree<string>, home: Path, w: World, offline: bool,
                             r: Outcome, spawned: Option<Path>, files: Tree<string>)
    requires w.Valid()
  {
    var run := StagedExe(home);
    var staged := StagedVersion(home);
    if NeedsUpdate(w.dllFetch, offline, WordIn(t, DllVersionFile(home), "")) then
      if !w.dllJob.Succeeded() then
        r == Returned(false) && spawned == None
        && files == (if w.dllJob.Downloaded() then Unpacked(t, UpdateDir(home), w.dllJob.members) else t)
      else
        r == Returned(w.spawnResult != -1) && spawned == Some(run)
        && files == Unpacked(t, UpdateDir(home), w.dllJob.members)
    else if !StagingSucceeds(t, home) then
      r == Threw && spawned == None && files == AfterStaging(t, home)
    else
      r == Returned(w.spawnResult != -1) && spawned == Some(UpdaterExe(home))
      && files == AfterStaging(t, home)
  }

  /** How a run ends once an update was asked for: a failed download or
      unzip ends it (an unzip may have written part of `update/`);
      otherwise the unpacked build is handed over. */
  ghost predicate Upgraded(t: Tree<string>, home: Path, w: World,
                           r: Outcome, spawned: Option<Path>, files: Tree<string>)
    requires w.Valid()
  {
    if !w.mainJob.Succeeded() then
      r == Returned(false) && spawned == None
      && files == (if w.mainJob.Downloaded() then Unpacked(t, UpdateDir(home), w.mainJob.members) else t)
    else
      HandedOver(Unpacked(t, UpdateDir(home), w.mainJob.members), home, w, false, r, spawned, files)
  }

  /** How a run of the installed program from `home` ends, from tree `t`,
      version `ver` and offline flag `offline` before it: leftovers of an
      earlier update are removed and nothing else happens; otherwise the
      installed version `now` is checked and, when outdated, upgraded. */
  ghost predicate Maintained(t: Tree<string>, home: Path, w: World, ver: string, offline: bool,
                             now: string, r: Outcome, spawned: Option<Path>, files: Tree<string>)
    requires w.Valid()
  {
    if UpdateDir(home) in t || UpdaterExe(home) in t then
      && spawned == None
      && if NonEmptyDir(t, UpdaterExe(home)) then
           // removing `update.exe` throws before the version is read
           r == Threw && now == ver && files == Swept(t, home)
         else
           r == Returned(false) && now == WordIn(t, VersionFile(home), ver) && files == Cleaned(t, home)
    else
      && now == WordIn(t, VersionFile(home), ver)
      && if !NeedsUpdate(w.mainFetch, offline, now) then
           r == Returned(false) && spawned == None && files == t
         else
           Upgraded(t, home, w, r, spawned, files)
  }

  /** The caller is told to exit only after a new program was started
      successfully: the staged `tiggit.exe` (new dlls) or `update.exe`. */
  lemma ExitOnlyAfterSpawn(t: Tree<string>, home: Path, w: World, ver: string, offline: bool,
                           now: string, r: Outcome, spawned: Option<Path>, files: Tree<string>)
    requires w.Valid() && Maintained(t, home, w, ver, offline, now, r, spawned, files)
    requires r == Returned(true)
    ensures w.spawnResult != -1
    ensures spawned == Some(StagedExe(home)) || spawned == Some(UpdaterExe(home))
  {
  }

  /** Offline, the installed program never downloads, stages or starts
      anything: at most it removes the leftovers of an earlier update, and
      it throws only when `update.exe` is a directory with entries. */
  lemma OfflineNeverUpgrades(t: Tree<string>, home: Path, w: World, ver: string,
                             now: string, r: Outcome, spawned: Option<Path>, files: Tree<string>)
    requires w.Valid() && Maintained(t, home, w, ver, true, now, r, spawned, files)
    ensures spawned == None
    ensures r == Returned(false) || (r == Threw && NonEmptyDir(t, UpdaterExe(home)))
    ensures files == t || files == Cleaned(t, home) || files == Swept(t, home)
  {
    OfflineIsSticky(w.mainFetch, now);
  }

  /** The paths an update of the program in `home` may change: `update/`
      and everything below it, `update.exe` and the `version` file. */
  predicate UpdateFile(home: Path, k: Path) {
    Within(UpdateDir(home), k) || k == UpdaterExe(home) || k == VersionFile(home)
  }

  lemma OutsideStaging(home: Path, k: Path)
    requires !UpdateFile(home, k)
    ensures k != UpdateDir(home) && Parent(k) != UpdateDir(home)
    ensures k != StagedExe(home) && k != StagedVersion(home)
  {
  }

  lemma HandedOverElsewhere(t: Tree<string>, home: Path, w: World, offline: bool,
                            r: Outcome, spawned: Option<Path>, files: Tree<string>, k: Path)
    requires w.Valid() && HandedOver(t, home, w, offline, r, spawned, files)
    requires !UpdateFile(home, k)
    ensures SameAt(files, t, k)
  {
    OutsideStaging(home, k);
    UnpackedElsewhere(t, UpdateDir(home), w.dllJob.members, k);
    CopyTouchesOnlyTarget(t, StagedExe(home), UpdaterExe(home), k);
    CopyTouchesOnlyTarget(AfterCopy(t, StagedExe(home), UpdaterExe(home)), StagedVersion(home), VersionFile(home), k);
  }

  lemma UpgradedElsewhere(t: Tree<string>, home: Path, w: World,
                          r: Outcome, spawned: Option<Path>, files: Tree<string>, k: Path)
    requires w.Valid() && Upgraded(t, home, w, r, spawned, files)
    requires !UpdateFile(home, k)
    ensures SameAt(files, t, k)
  {
    OutsideStaging(home, k);
    var staged := Unpacked(t, UpdateDir(home), w.mainJob.members);
    UnpackedElsewhere(t, UpdateDir(home), w.mainJob.members, k);
    if w.mainJob.Succeeded() {
      HandedOverElsewhere(staged, home, w, false, r, spawned, files, k);
    }
  }

  /** A run of the installed program changes nothing outside `update/`,
      `update.exe` and the `version` file: in particular not the running
      `tiggit.exe`. */
  lemma OnlyUpdateFilesChange(t: Tree<string>, home: Path, w: World, ver: string, offline: bool,
                              now: string, r: Outcome, spawned: Option<Path>, files: Tree<string>, k: Path)
    requires w.Valid() && Maintained(t, home, w, ver, offline, now, r, spawned, files)
    requires !UpdateFile(home, k)
    ensures SameAt(files, t, k)
  {
    if UpdateDir(home) in t || UpdaterExe(home) in t {
      PrunedElsewhere(t, UpdateDir(home), k);
    } else if NeedsUpdate(w.mainFetch, offline, now) {
      UpgradedElsewhere(t, home, w, r, spawned, files, k);
    }
  }

  lemma VersionOutsideStaging(home: Path)
    ensures !Within(UpdateDir(home), VersionFile(home))
    ensures VersionFile(home) != UpdateDir(home) && Parent(VersionFile(home)) != UpdateDir(home)
    ensures VersionFile(home) != StagedExe(home) && VersionFile(home) != StagedVersion(home)
    ensures VersionFile(home) != UpdaterExe(home)
  {
    var v := VersionFile(home);
    assert v[..|UpdateDir(home)|] == v && v[|home|] != UpdateDir(home)[|home|];
    assert Parent(v) == home;
  }

  lemma VersionHandedOver(t: Tree<string>, home: Path, w: World, offline: bool,
                          r: Outcome, spawned: Option<Path>, files: Tree<string>)
    requires w.Valid() && HandedOver(t, home, w, offline, r, spawned, files)
    ensures !SameAt(files, t, VersionFile(home)) ==> r == Threw || spawned == Some(UpdaterExe(home))
    ensures spawned == Some(UpdaterExe(home)) ==>
              && VersionFile(home) in files && StagedVersion(home) in t
              && UpdaterExe(home) in files && StagedExe(home) in t
              && files[VersionFile(home)] == t[StagedVersion(home)]
              && files[UpdaterExe(home)] == t[StagedExe(home)]
  {
    VersionOutsideStaging(home);
    UnpackedElsewhere(t, UpdateDir(home), w.dllJob.members, VersionFile(home));
    StagingSucceedsIff(t, home);
  }

  /** The installed `version` file changes only when the run hands over to
      `update.exe`, which then finds the staged version there, or when a
      staging copy throws (its target was removed first). */
  lemma VersionFileOnlyOnHandover(t: Tree<string>, home: Path, w: World, ver: string, offline: bool,
                                  now: string, r: Outcome, spawned: Option<Path>, files: Tree<string>)
    requires w.Valid() && Maintained(t, home, w, ver, offline, now, r, spawned, files)
    ensures !SameAt(files, t, VersionFile(home)) ==> r == Threw || spawned == Some(UpdaterExe(home))
    ensures spawned == Some(UpdaterExe(home)) ==>
              var staged := Unpacked(t, UpdateDir(home), w.mainJob.members);
              && VersionFile(home) in files && StagedVersion(home) in staged
              && UpdaterExe(home) in files && StagedExe(home) in staged
              && files[VersionFile(home)] == staged[StagedVersion(home)]
              && files[UpdaterExe(home)] == staged[StagedExe(home)]
  {
    VersionOutsideStaging(home);
    if UpdateDir(home) in t || UpdaterExe(home) in t {
      CleanedKeepsVersion(t, home);
    } else if NeedsUpdate(w.mainFetch, offline, now) {
      var staged := Unpacked(t, UpdateDir(home), w.mainJob.members);
      UnpackedElsewhere(t, UpdateDir(home), w.mainJob.members, VersionFile(home));
      if w.mainJob.Succeeded() {
        VersionHandedOver(staged, home, w, false, r, spawned, files);
      }
    }
  }

  /** The lines messages `msgs` become when logged from line number `n` on. */
  function Stamped(clock: nat -> string, n: nat, msgs: seq<string>): (r: seq<string>)
    ensures |r| == |msgs|
    decreases |msgs|
  {
    if msgs == [] then [] else [Entry(clock(n), msgs[0])] + Stamped(clock, n + 1, msgs[1..])
  }

  /** Logging `a` and then `b` stamps `b` from where `a` ended. */
  lemma {:induction false} StampedAppend(clock: nat -> string, n: nat, a: seq<string>, b: seq<string>)
    ensures Stamped(clock, n, a + b) == Stamped(clock, n, a) + Stamped(clock, n + |a|, b)
    decreases |a|
  {
    if a == [] {
      assert a + b == b;
    } else {
      assert (a + b)[1..] == a[1..] + b;
      StampedAppend(clock, n + 1, a[1..], b);
    }
  }

  /** Two stretches of messages logged one after the other read as one
      stretch logged from where the first began. */
  lemma LoggedInTurn(clock: nat -> string, l0: seq<string>, a: seq<string>,
                     l1: seq<string>, b: seq<string>, l2: seq<string>)
    requires l1 == l0 + Stamped(clock, |l0|, a)
    requires l2 == l1 + Stamped(clock, |l1|, b)
    ensures l2 == l0 + Stamped(clock, |l0|, a + b)
  {
    var sa, sb := Stamped(clock, |l0|, a), Stamped(clock, |l1|, b);
    assert |l1| == |l0| + |a|;
    StampedAppend(clock, |l0|, a, b);
    Regrouped(l0, sa, sb);
  }

  lemma Regrouped<T>(a: seq<T>, b: seq<T>, c: seq<T>)
    ensures a + b + c == a + (b + c)
  {
  }

  /** What a run leaves apart from the disk: the messages it logs, in order,
      whether the updater ends offline, and what the progress dialog was
      shown. */
  datatype Trail = Trail(messages: seq<string>, offline: bool, reports: seq<Report>)

  function CleanMessage(home: Path): string {
    "Cleaning up " + Render(UpdaterExe(home)) + " and " + Render(UpdateDir(home)) + "/"
  }

  function RunMessage(p: Path): string { "Running " + Render(p) }

  /** The copy lines of the staging copies: the second copy is only logged
      when the first went through. */
  function StagingMessages(t: Tree<string>, home: Path): seq<string> {
    [CopyMessage(StagedExe(home), UpdaterExe(home))]
    + if CopySucceeds(t, StagedExe(home), UpdaterExe(home))
      then [CopyMessage(StagedVersion(home), VersionFile(home))] else []
  }

  /** The dll-pack check from tree `t`: the version check always runs, and
      only when it asks for the pack is the upgrade logged and the pack
      downloaded. */
  function DllTrail(t: Tree<string>, home: Path, w: World, offline: bool): Trail
    requires w.Valid()
  {
    var dllVersion := WordIn(t, DllVersionFile(home), "");
    var checked := Reports(Polled(w.dllFetch.polls, true));
    var off := offline || w.dllFetch.Cancelled();
    if NeedsUpdate(w.dllFetch, offline, dllVersion) then
      Trail(["Upgrading dll-pack version " + dllVersion + " => " + w.dllFetch.decoding.info.version],
            off, checked + Reports(Polled(w.dllJob.download, false)))
    else
      Trail([], off, checked)
  }

  /** The trail of the hand-over from tree `t`: the dll-pack check, then
      either the start of the staged `tiggit.exe` once the pack arrived, or
      the staging copies and the start of `update.exe` once both went
      through. */
  function HandOverTrail(t: Tree<string>, home: Path, w: World, offline: bool): Trail
    requires w.Valid()
  {
    var dll := DllTrail(t, home, w, offline);
    var tail :=
      if NeedsUpdate(w.dllFetch, offline, WordIn(t, DllVersionFile(home), "")) then
        if w.dllJob.Succeeded() then [RunMessage(StagedExe(home))] else []
      else
        StagingMessages(t, home) + if StagingSucceeds(t, home) then [RunMessage(UpdaterExe(home))] else [];
    Trail(dll.messages + tail, dll.offline, dll.reports)
  }

  /** The hand-over's trail when the dll pack is asked for. */
  lemma HandOverTrailDll(t: Tree<string>, home: Path, w: World, offline: bool)
    requires w.Valid() && NeedsUpdate(w.dllFetch, offline, WordIn(t, DllVersionFile(home), ""))
    ensures var d := DllTrail(t, home, w, offline);
            HandOverTrail(t, home, w, offline)
            == Trail(d.messages + if w.dllJob.Succeeded() then [RunMessage(StagedExe(home))] else [],
                     d.offline, d.reports)
  {
  }

  /** The hand-over's trail when the dll pack is current: nothing is
      logged before the staging copies. */
  lemma HandOverTrailStaging(t: Tree<string>, home: Path, w: World, offline: bool)
    requires w.Valid() && !NeedsUpdate(w.dllFetch, offline, WordIn(t, DllVersionFile(home), ""))
    ensures var d := DllTrail(t, home, w, offline);
            && d.messages == []
            && HandOverTrail(t, home, w, offline)
               == Trail(StagingMessages(t, home) + if StagingSucceeds(t, home) then [RunMessage(UpdaterExe(home))] else [],
                        d.offline, d.reports)
  {
    var d := DllTrail(t, home, w, offline);
    assert d.messages + StagingMessages(t, home) == StagingMessages(t, home);
  }

  /** The trail of an upgrade from version `ver` to the one `info` names,
      started online: the upgrade line, the download, and the hand-over
      once the build is unpacked. */
  function UpgradeTrail(t: Tree<string>, home: Path, w: World, ver: string, info: TigInfo): Trail
    requires w.Valid()
  {
    var head := ["Upgrading version " + ver + " => " + info.version];
    var downloaded := Reports(Polled(w.mainJob.download, false));
    if !w.mainJob.Succeeded() then
      Trail(head, false, downloaded)
    else
      var h := HandOverTrail(Unpacked(t, UpdateDir(home), w.mainJob.members), home, w, false);
      Trail(head + h.messages, h.offline, downloaded + h.reports)
  }

  /** The trail of the version check and what follows it, for installed
      version `ver`. */
  function FetchTrail(t: Tree<string>, home: Path, w: World, ver: string, offline: bool): Trail
    requires w.Valid()
  {
    var fetching := ["Fetching " + LatestUrl(home + ["use_test_url"] in t)];
    var checked := Reports(Polled(w.mainFetch.polls, true));
    if !NeedsUpdate(w.mainFetch, offline, ver) then
      Trail(fetching + ["Version " + ver + " up-to-date"], offline || w.mainFetch.Cancelled(), checked)
    else
      var u := UpgradeTrail(t, home, w, ver, w.mainFetch.decoding.info);
      Trail(fetching + u.messages, u.offline, checked + u.reports)
  }

  /** The trail of a run of the installed program from `home` after its
      "this_exe=" line, with `Maintained`'s inputs: a clean-up logs one
      line and stops; otherwise the installed version is checked. */
  function MaintainTrail(t: Tree<string>, home: Path, w: World, ver: string, offline: bool): Trail
    requires w.Valid()
  {
    if UpdateDir(home) in t || UpdaterExe(home) in t then
      Trail([CleanMessage(home)], offline, [])
    else
      FetchTrail(t, home, w, WordIn(t, VersionFile(home), ver), offline)
  }

  /** A run never brings the updater back online, and it takes it offline
      only by a Cancel during one of its two version checks: the main one,
      which runs unless there were leftovers to clean, or the dll-pack one,
      which runs only once a new build is unpacked. */
  lemma OfflineOnlyByCancel(t: Tree<string>, home: Path, w: World, ver: string, offline: bool)
    requires w.Valid()
    ensures var tr := MaintainTrail(t, home, w, ver, offline);
            var checked := !(UpdateDir(home) in t || UpdaterExe(home) in t);
            var dllChecked := checked && NeedsUpdate(w.mainFetch, offline, WordIn(t, VersionFile(home), ver))
                              && w.mainJob.Succeeded();
            && tr.offline == (offline || (checked && w.mainFetch.Cancelled()) || (dllChecked && w.dllFetch.Cancelled()))
            && (offline ==> tr.offline)
            && (tr.offline ==> offline || w.mainFetch.Cancelled() || w.dllFetch.Cancelled())
  {
  }

  /** A log line that reports the start of a process. */
  predicate StartsRunning(line: string) {
    "Running " <= line
  }

  lemma NotRunning(line: string)
    requires |line| > 0 && line[0] != 'R'
    ensures !StartsRunning(line)
  {
    assert "Running "[0] == 'R';
  }

  /** None of the updater's other messages reads as the start of a process. */
  lemma Quiet(from: Path, to: Path, home: Path, a: string, b: string)
    ensures !StartsRunning(CopyMessage(from, to))
    ensures !StartsRunning(CleanMessage(home))
    ensures !StartsRunning("Upgrading version " + a + " => " + b)
    ensures !StartsRunning("Upgrading dll-pack version " + a + " => " + b)
    ensures !StartsRunning("Version " + a + " up-to-date")
  {
    assert CopyMessage(from, to)[0] == 'C';
    NotRunning(CopyMessage(from, to));
    assert CleanMessage(home)[0] == 'C';
    NotRunning(CleanMessage(home));
    assert ("Upgrading version " + a + " => " + b)[0] == 'U';
    NotRunning("Upgrading version " + a + " => " + b);
    assert ("Upgrading dll-pack version " + a + " => " + b)[0] == 'U';
    NotRunning("Upgrading dll-pack version " + a + " => " + b);
    assert ("Version " + a + " up-to-date")[0] == 'V';
    NotRunning("Version " + a + " up-to-date");
  }

  lemma LastOf<T>(a: seq<T>, b: seq<T>)
    requires |b| > 0
    ensures |a + b| > 0 && (a + b)[|a + b| - 1] == b[|b| - 1]
  {
  }

  /** The process a hand-over from tree `t` starts: the staged `tiggit.exe`
      once the dll pack arrived, `update.exe` once both staging copies went
      through, and none otherwise. */
  function HandOverSpawn(t: Tree<string>, home: Path, w: World, offline: bool): Option<Path>
    requires w.Valid()
  {
    if NeedsUpdate(w.dllFetch, offline, WordIn(t, DllVersionFile(home), "")) then
      if w.dllJob.Succeeded() then Some(StagedExe(home)) else None
    else if StagingSucceeds(t, home) then Some(UpdaterExe(home))
    else None
  }

  /** The process a run of the installed program from `home` starts, with
      `Maintained`'s inputs. */
  function SpawnOf(t: Tree<string>, home: Path, w: World, ver: string, offline: bool): Option<Path>
    requires w.Valid()
  {
    if UpdateDir(home) in t || UpdaterExe(home) in t then None
    else if !NeedsUpdate(w.mainFetch, offline, WordIn(t, VersionFile(home), ver)) then None
    else if !w.mainJob.Succeeded() then None
    else HandOverSpawn(Unpacked(t, UpdateDir(home), w.mainJob.members), home, w, false)
  }

  lemma HandedOverSpawn(t: Tree<string>, home: Path, w: World, offline: bool,
                         r: Outcome, spawned: Option<Path>, files: Tree<string>)
    requires w.Valid() && HandedOver(t, home, w, offline, r, spawned, files)
    ensures spawned == HandOverSpawn(t, home, w, offline)
  {
  }

  /** A run starts exactly the process `SpawnOf` names. */
  lemma SpawnedAsComputed(t: Tree<string>, home: Path, w: World, ver: string, offline: bool,
                          now: string, r: Outcome, spawned: Option<Path>, files: Tree<string>)
    requires w.Valid() && Maintained(t, home, w, ver, offline, now, r, spawned, files)
    ensures spawned == SpawnOf(t, home, w, ver, offline)
  {
    if !(UpdateDir(home) in t || UpdaterExe(home) in t) && NeedsUpdate(w.mainFetch, offline, now)
       && w.mainJob.Succeeded() {
      HandedOverSpawn(Unpacked(t, UpdateDir(home), w.mainJob.members), home, w, false, r, spawned, files);
    }
  }

  /** The last message of a hand-over, branch by branch: the "Running"
      line of the process it starts, and no "Running" line when it starts
      none. */
  lemma HandOverEndsWith(t: Tree<string>, home: Path, w: World, offline: bool)
    requires w.Valid()
    ensures var m := HandOverTrail(t, home, w, offline).messages;
            var dlls := NeedsUpdate(w.dllFetch, offline, WordIn(t, DllVersionFile(home), ""));
            && |m| > 0
            && (dlls && w.dllJob.Succeeded() ==> m[|m| - 1] == RunMessage(StagedExe(home)))
            && (!dlls && StagingSucceeds(t, home) ==> m[|m| - 1] == RunMessage(UpdaterExe(home)))
            && (dlls && !w.dllJob.Succeeded() ==> !StartsRunning(m[|m| - 1]))
            && (!dlls && !StagingSucceeds(t, home) ==> !StartsRunning(m[|m| - 1]))
  {
    var d := DllTrail(t, home, w, offline);
    var dllVersion := WordIn(t, DllVersionFile(home), "");
    if NeedsUpdate(w.dllFetch, offline, dllVersion) {
      HandOverTrailDll(t, home, w, offline);
      if w.dllJob.Succeeded() {
        LastOf(d.messages, [RunMessage(StagedExe(home))]);
      } else {
        assert d.messages + [] == d.messages;
        Quiet([], [], home, dllVersion, w.dllFetch.decoding.info.version);
      }
    } else {
      HandOverTrailStaging(t, home, w, offline);
      var staging := StagingMessages(t, home);
      if StagingSucceeds(t, home) {
        LastOf(staging, [RunMessage(UpdaterExe(home))]);
      } else {
        assert staging + [] == staging;
        Quiet(StagedExe(home), UpdaterExe(home), home, "", "");
        Quiet(StagedVersion(home), VersionFile(home), home, "", "");
      }
    }
  }

  /** The last message of an upgrade: the hand-over's once the build is
      unpacked, and no "Running" line when the download or unzip failed. */
  lemma UpgradeEndsWith(t: Tree<string>, home: Path, w: World, ver: string, info: TigInfo)
    requires w.Valid()
    ensures var m := UpgradeTrail(t, home, w, ver, info).messages;
            var h := HandOverTrail(Unpacked(t, UpdateDir(home), w.mainJob.members), home, w, false).messages;
            && |m| > 0
            && (w.mainJob.Succeeded() ==> |h| > 0 && m[|m| - 1] == h[|h| - 1])
            && (!w.mainJob.Succeeded() ==> !StartsRunning(m[|m| - 1]))
  {
    var head := "Upgrading version " + ver + " => " + info.version;
    if w.mainJob.Succeeded() {
      var staged := Unpacked(t, UpdateDir(home), w.mainJob.members);
      var h := HandOverTrail(staged, home, w, false).messages;
      HandOverEndsWith(staged, home, w, false);
      assert UpgradeTrail(t, home, w, ver, info).messages == [head] + h;
      LastOf([head], h);
    } else {
      assert UpgradeTrail(t, home, w, ver, info).messages == [head];
      Quiet([], [], home, ver, info.version);
    }
  }

  /** The last message of the run of the installed program after its
      "this_exe=" line: as the hand-over's when it hands over, and no
      "Running" line when it stops earlier. */
  lemma MaintainEndsWith(t: Tree<string>, home: Path, w: World, ver: string, offline: bool)
    requires w.Valid()
    ensures var m := MaintainTrail(t, home, w, ver, offline).messages;
            var staged := Unpacked(t, UpdateDir(home), w.mainJob.members);
            var h := HandOverTrail(staged, home, w, false).messages;
            var upgrades := !(UpdateDir(home) in t || UpdaterExe(home) in t)
                            && NeedsUpdate(w.mainFetch, offline, WordIn(t, VersionFile(home), ver));
            && |m| > 0
            && (upgrades && w.mainJob.Succeeded() ==> |h| > 0 && m[|m| - 1] == h[|h| - 1])
            && (!(upgrades && w.mainJob.Succeeded()) ==> !StartsRunning(m[|m| - 1]))
  {
    var m := MaintainTrail(t, home, w, ver, offline).messages;
    var now := WordIn(t, VersionFile(home), ver);
    var fetching := ["Fetching " + LatestUrl(home + ["use_test_url"] in t)];
    if UpdateDir(home) in t || UpdaterExe(home) in t {
      assert m == [CleanMessage(home)];
      Quiet([], [], home, "", "");
    } else if !NeedsUpdate(w.mainFetch, offline, now) {
      var upToDate := "Version " + now + " up-to-date";
      assert m == fetching + [upToDate];
      LastOf(fetching, [upToDate]);
      Quiet([], [], home, now, "");
    } else {
      var info := w.mainFetch.decoding.info;
      var u := UpgradeTrail(t, home, w, now, info).messages;
      assert m == fetching + u;
      UpgradeEndsWith(t, home, w, now, info);
      LastOf(fetching, u);
    }
  }

  /** The log's last message says whether the run started a process, and
      which one: a run that started one ends with its "Running" line, and
      a run that did not ends with no such line. */
  lemma SpawnIsLogged(t: Tree<string>, home: Path, w: World, ver: string, offline: bool,
                      now: string, r: Outcome, spawned: Option<Path>, files: Tree<string>)
    requires w.Valid() && Maintained(t, home, w, ver, offline, now, r, spawned, files)
    ensures var m := MaintainTrail(t, home, w, ver, offline).messages;
            && |m| > 0
            && (spawned.Some? ==> m[|m| - 1] == RunMessage(spawned.value))
            && (spawned.None? ==> !StartsRunning(m[|m| - 1]))
  {
    SpawnedAsComputed(t, home, w, ver, offline, now, r, spawned, files);
    MaintainEndsWith(t, home, w, ver, offline);
    HandOverEndsWith(Unpacked(t, UpdateDir(home), w.mainJob.members), home, w, false);
  }

  /** The path the staged `update.exe` at `thisExe` installs itself to:
      `tiggit.exe` in the same directory. */
  function NewExe(thisExe: Path): Path { Parent(thisExe) + ["tiggit.exe"] }

  /** How the `update.exe` branch of `doAutoUpdate` ends from tree `t`: the
      running exe is copied over `tiggit.exe` as `copyLog` does it, then
      `tiggit.exe` is started and the caller told to exit; a copy that
      throws ends the run. */
  ghost predicate SelfInstalled(t: Tree<string>, thisExe: Path, r: Outcome, spawned: Option<Path>, files: Tree<string>) {
    var ok := CopySucceeds(t, thisExe, NewExe(thisExe));
    && r == (if ok then Returned(true) else Threw)
    && spawned == (if ok then Some(NewExe(thisExe)) else None)
    && files == AfterCopy(t, thisExe, NewExe(thisExe))
  }

  /** The lines the `update.exe` branch logs from line `n` on: the target,
      the copy and, when the copy went through, the start of the new exe. */
  function InstallLines(clock: nat -> string, n: nat, thisExe: Path, ran: bool): seq<string> {
    [Entry(clock(n), "Updating to new_exe=" + Render(NewExe(thisExe))),
     Entry(clock(n + 1), CopyMessage(thisExe, NewExe(thisExe)))]
    + if ran then [Entry(clock(n + 2), "Running " + Render(NewExe(thisExe)))] else []
  }

  /** The staged `update.exe` overwrites `tiggit.exe` with itself and
      changes nothing else; it starts `tiggit.exe` only after the copy
      went through. */
  lemma SelfInstallOverwrites(t: Tree<string>, thisExe: Path, r: Outcome, spawned: Option<Path>,
                              files: Tree<string>, k: Path)
    requires Leaf(thisExe) == "update.exe"
    requires SelfInstalled(t, thisExe, r, spawned, files)
    ensures r == Returned(true) <==> IsFile(t, thisExe) && !NonEmptyDir(t, NewExe(thisExe))
    ensures r == Returned(true) ==> spawned == Some(NewExe(thisExe)) && files[NewExe(thisExe)] == t[thisExe]
    ensures k != NewExe(thisExe) ==> SameAt(files, t, k)
  {
    ParentAndLeaf(Parent(thisExe), "tiggit.exe");
    assert thisExe != NewExe(thisExe);
    CopyTouchesOnlyTarget(t, thisExe, NewExe(thisExe), k);
  }

  class Updater {
    /** The version of the running program, read from the `version` file. */
    var version: string
    /** Set when the user cancels a version check; never cleared. */
    var offline: bool
    /** What the progress dialog has been told, poll by poll. */
    var reports: seq<Report>

    constructor ()
      ensures version == "unknown" && !offline && reports == []
    {
      version := "unknown";
      offline := false;
      reports := [];
    }

    /** One poll of a download: the dialog is shown the percentage done,
        or pulses when the size is unknown; the answer is false once the
        user clicked Cancel. */
    method ShowProgress(t: Tick) returns (res: bool)
      modifies this
      ensures reports == old(reports) + [ReportFor(t)]
      ensures res == t.answer
      ensures version == old(version) && offline == old(offline)
    {
      if t.total != 0 {
        // Kept below 100 so the dialog does not close itself
        var prog := Percent(t.current, t.total);
        reports := reports + [Update(prog)];
        res := t.answer;
      } else {
        reports := reports + [Pulse];
        res := t.answer;
      }
    }

    /** The poll loop of `checkVersion`: it ends when the download
        finishes or the user cancels, and a Cancel takes the updater
        offline. `last` is the poll that ended it. */
    method WaitForCheck(polls: seq<Tick>) returns (last: Tick)
      requires Terminates(polls, true)
      modifies this
      ensures last == Final(polls, true)
      ensures reports == old(reports) + Reports(Polled(polls, true))
      ensures offline == (old(offline) || !last.answer) && version == old(version)
    {
      var i := 0;
      while true
        invariant 0 <= i < |polls|
        invariant forall j :: 0 <= j < i ==> !Halts(polls[j], true)
        invariant reports == old(reports) + Reports(polls[..i])
        invariant offline == old(offline) && version == old(version)
        decreases |polls| - i
      {
        // yield() and wxMilliSleep(40) hand the time to the worker
        var t := polls[i];
        var res := ShowProgress(t);
        ReportsAppend(polls[..i], t);
        assert polls[..i + 1] == polls[..i] + [t];

        // The user clicked Cancel: abort the download and go offline
        if !res {
          offline := true;
          break;
        }

        if t.state.Finished() {
          break;
        }
        i := i + 1;
      }
      assert i == HaltIndex(polls, true);
      last := polls[i];
    }

    /** `checkVersion(url, ti, ver)`: true means no update is needed. */
    method CheckVersion(ti: TigInfo, ver: string, f: Fetch) returns (upToDate: bool, info: TigInfo)
      requires f.Valid()
      modifies this
      ensures version == old(version)
      ensures offline == (old(offline) || f.Cancelled())
      ensures reports == old(reports) + Reports(Polled(f.polls, true))
      ensures upToDate == !NeedsUpdate(f, old(offline), ver)
      ensures old(offline) ==> upToDate
      ensures !upToDate ==> info == f.decoding.info
    {
      var last := WaitForCheck(f.polls);
      info := ti;
      if last.state != Succeeded || offline {
        return true, info;
      }
      match f.decoding
      case DecodeThrew =>
        return true, info;
      case Decoded(accepted, decoded) =>
        info := decoded;
        if !accepted {
          return true, info;
        }
      upToDate := ver == info.version;
    }

    /** The download loop of `doUpdate`: it waits until the download
        finishes. `last` is the poll that saw it finish. */
    method WaitForDownload(polls: seq<Tick>) returns (last: Tick)
      requires Terminates(polls, false)
      modifies this
      ensures last == Final(polls, false)
      ensures reports == old(reports) + Reports(Polled(polls, false))
      ensures offline == old(offline) && version == old(version)
    {
      var i := 0;
      while true
        invariant 0 <= i < |polls|
        invariant forall j :: 0 <= j < i ==> !Halts(polls[j], false)
        invariant reports == old(reports) + Reports(polls[..i])
        invariant offline == old(offline) && version == old(version)
        decreases |polls| - i
      {
        var t := polls[i];
        var res := ShowProgress(t);
        ReportsAppend(polls[..i], t);
        assert polls[..i + 1] == polls[..i] + [t];

        // On a Cancel the download is only asked to abort: the loop goes on
        // waiting for it to finish, and the run does not go offline.
        if t.state.Finished() {
          break;
        }
        i := i + 1;
      }
      assert i == HaltIndex(polls, false);
      last := polls[i];
    }

    /** `doUpdate(url, up_dest, vermsg)`: download the archive, then unpack
        it into `upDest`; true when both jobs succeeded. */
    method DoUpdate(upDest: Path, job: Job, disk: Disk<string>) returns (ok: bool)
      requires job.Valid()
      modifies this, disk
      ensures version == old(version) && offline == old(offline)
      ensures reports == old(reports) + Reports(Polled(job.download, false))
      ensures ok == job.Succeeded()
      ensures disk.files == if job.Downloaded() then Unpacked(old(disk.files), upDest, job.members)
                            else old(disk.files)
    {
      var last := WaitForDownload(job.download);
      if last.state != Succeeded {
        return false;
      }

      // The unzip job writes the archive members into upDest
      disk.Unpack(upDest, job.members);
      var k := 0;
      while true
        invariant 0 <= k < |job.unzip|
        invariant forall j :: 0 <= j < k ==> !job.unzip[j].Finished()
        decreases |job.unzip| - k
      {
        if job.unzip[k].Finished() {
          break;
        }
        k := k + 1;
      }
      assert k == FinishIndex(job.unzip);
      ok := job.unzip[k] == Succeeded;
    }

    /** The tail of `doAutoUpdate` once the new build is unpacked in
        `update/`: check for a newer dll pack, fetch it, and start the new
        program. `ti` is the info the main version check filled in. */
    method HandOver(home: Path, ti: TigInfo, w: World, disk: Disk<string>, log: UpdateLog)
      returns (r: Outcome, spawned: Option<Path>)
      requires w.Valid()
      modifies this, disk, log
      ensures version == old(version)
      ensures var h := HandOverTrail(old(disk.files), home, w, old(offline));
              && log.lines == old(log.lines) + Stamped(log.clock, |old(log.lines)|, h.messages)
              && offline == h.offline && reports == old(reports) + h.reports
      ensures HandedOver(old(disk.files), home, w, old(offline), r, spawned, disk.files)
    {
      ghost var l0, t0, off0 := log.lines, disk.files, offline;
      var newDlls, ok := FetchDlls(home, ti, w, disk, log);
      ghost var d := DllTrail(t0, home, w, off0);
      if newDlls {
        // New dlls: run the staged tiggit.exe, which needs them beside it
        HandOverTrailDll(t0, home, w, off0);
        if !ok {
          assert d.messages + [] == d.messages;
          return Returned(false), None;
        }
        ghost var l1 := log.lines;
        log.Log(RunMessage(StagedExe(home)));
        LoggedInTurn(log.clock, l0, d.messages, l1, [RunMessage(StagedExe(home))], log.lines);
        return Returned(w.spawnResult != -1), Some(StagedExe(home));
      }

      HandOverTrailStaging(t0, home, w, off0);
      assert log.lines == l0;
      var copied := StageUpdater(home, disk, log);
      if !copied {
        assert StagingMessages(t0, home) + [] == StagingMessages(t0, home);
        return Threw, None;
      }
      ghost var l1 := log.lines;
      log.Log(RunMessage(UpdaterExe(home)));
      LoggedInTurn(log.clock, l0, StagingMessages(t0, home), l1, [RunMessage(UpdaterExe(home))], log.lines);
      return Returned(w.spawnResult != -1), Some(UpdaterExe(home));
    }

    /** The dll-pack check of `doAutoUpdate`: compare the installed
        `dll_version` with the published one and, when they differ, fetch
        and unpack the pack into `update/`. `newDlls` says whether the pack
        was asked for, `ok` whether it then arrived. */
    method FetchDlls(home: Path, ti: TigInfo, w: World, disk: Disk<string>, log: UpdateLog)
      returns (newDlls: bool, ok: bool)
      requires w.Valid()
      modifies this, disk, log
      ensures version == old(version)
      ensures var d := DllTrail(old(disk.files), home, w, old(offline));
              && log.lines == old(log.lines) + Stamped(log.clock, |old(log.lines)|, d.messages)
              && offline == d.offline && reports == old(reports) + d.reports
      ensures newDlls == NeedsUpdate(w.dllFetch, old(offline), WordIn(old(disk.files), DllVersionFile(home), ""))
      ensures ok == (newDlls && w.dllJob.Succeeded())
      ensures disk.files == if newDlls && w.dllJob.Downloaded()
                            then Unpacked(old(disk.files), UpdateDir(home), w.dllJob.members)
                            else old(disk.files)
    {
      var dllVersion := WordIn(disk.files, DllVersionFile(home), "");
      var upToDate, dllTi := CheckVersion(ti, dllVersion, w.dllFetch);
      newDlls := !upToDate;
      ok := false;
      ghost var n := |log.lines|;
      if newDlls {
        var msg := "Upgrading dll-pack version " + dllVersion + " => " + dllTi.version;
        log.Log(msg);
        assert Stamped(log.clock, n, [msg]) == [Entry(log.clock(n), msg)];
        ok := DoUpdate(UpdateDir(home), w.dllJob, disk);
      } else {
        assert Stamped(log.clock, n, []) == [];
      }
    }

    /** Without new dlls, the staged `tiggit.exe` becomes `update.exe` and
        the staged `version` the installed one; false when a copy throws. */
    method StageUpdater(home: Path, disk: Disk<string>, log: UpdateLog) returns (ok: bool)
      modifies disk, log
      ensures log.lines == old(log.lines) + Stamped(log.clock, |old(log.lines)|, StagingMessages(old(disk.files), home))
      ensures ok == StagingSucceeds(old(disk.files), home)
      ensures disk.files == AfterStaging(old(disk.files), home)
    {
      ghost var n := |log.lines|;
      var first := CopyMessage(StagedExe(home), UpdaterExe(home));
      var second := CopyMessage(StagedVersion(home), VersionFile(home));
      ok := log.CopyLog(disk, StagedExe(home), UpdaterExe(home));
      if !ok {
        assert Stamped(log.clock, n, [first]) == [Entry(log.clock(n), first)];
        return;
      }
      ok := log.CopyLog(disk, StagedVersion(home), VersionFile(home));
      assert Stamped(log.clock, n, [first, second]) == [Entry(log.clock(n), first), Entry(log.clock(n + 1), second)];
    }

    /** `doAutoUpdate(this_exe)`: true means the caller should exit at
        once because a new program was started. Off Windows, or with an
        `override` file beside the exe, it does nothing. As `update.exe`
        it installs itself; otherwise it removes the leftovers of an
        earlier update (and then stops), reads the installed version and
        fetches, stages and starts a newer build when there is one. */
    method DoAutoUpdate(thisExe: Path, w: World, disk: Disk<string>, log: UpdateLog)
      returns (r: Outcome, spawned: Option<Path>)
      requires w.Valid()
      modifies this, disk, log
      ensures var home := Parent(thisExe);
              !w.onWindows || old(disk.Exists(home + ["override"])) ==>
                && r == Returned(false) && spawned == None
                && disk.files == old(disk.files) && log.lines == old(log.lines)
                && version == old(version) && offline == old(offline) && reports == old(reports)
      ensures var home := Parent(thisExe);
              var n := |old(log.lines)|;
              w.onWindows && !old(disk.Exists(home + ["override"])) && Leaf(thisExe) == "update.exe" ==>
                && version == old(version) && offline == old(offline) && reports == old(reports)
                && SelfInstalled(old(disk.files), thisExe, r, spawned, disk.files)
                && log.lines == old(log.lines) + [Entry(log.clock(n), "this_exe=" + Render(thisExe))]
                                + InstallLines(log.clock, n + 1, thisExe, r == Returned(true))
      ensures var home := Parent(thisExe);
              var m := MaintainTrail(old(disk.files), home, w, old(version), old(offline));
              w.onWindows && !old(disk.Exists(home + ["override"])) && Leaf(thisExe) != "update.exe" ==>
                && Maintained(old(disk.files), home, w, old(version), old(offline), version, r, spawned, disk.files)
                && log.lines == old(log.lines) + Stamped(log.clock, |old(log.lines)|, ["this_exe=" + Render(thisExe)] + m.messages)
                && offline == m.offline && reports == old(reports) + m.reports
    {
      // This part is only done on Windows
      if !w.onWindows {
        return Returned(false), None;
      }
      var home := Parent(thisExe);
      // An override file beside the exe skips the update
      if disk.Exists(home + ["override"]) {
        return Returned(false), None;
      }

      ghost var l0 := log.lines;
      log.Log("this_exe=" + Render(thisExe));
      if Leaf(thisExe) == "update.exe" {
        r, spawned := InstallSelf(thisExe, disk, log);
        return;
      }

      ghost var l1 := log.lines;
      ghost var m := MaintainTrail(disk.files, home, w, version, offline);
      r, spawned := UpdateInstalled(home, w, disk, log);
      LoggedInTurn(log.clock, l0, ["this_exe=" + Render(thisExe)], l1, m.messages, log.lines);
    }

    /** `doAutoUpdate` run as the installed program from `home`. */
    method UpdateInstalled(home: Path, w: World, disk: Disk<string>, log: UpdateLog)
      returns (r: Outcome, spawned: Option<Path>)
      requires w.Valid()
      modifies this, disk, log
      ensures Maintained(old(disk.files), home, w, old(version), old(offline), version, r, spawned, disk.files)
      ensures var m := MaintainTrail(old(disk.files), home, w, old(version), old(offline));
              && log.lines == old(log.lines) + Stamped(log.clock, |old(log.lines)|, m.messages)
              && offline == m.offline && reports == old(reports) + m.reports
    {
      ghost var t0 := disk.files;
      ghost var n := |log.lines|;
      var didClean, removed := CleanUp(home, disk, log);
      assert didClean ==> Stamped(log.clock, n, [CleanMessage(home)]) == [Entry(log.clock(n), CleanMessage(home))];
      if !removed {
        return Threw, None;
      }
      CleanedKeepsVersion(t0, home);
      version := WordIn(disk.files, VersionFile(home), version);
      // Just after an upgrade round there is no point in another one
      if didClean {
        return Returned(false), None;
      }

      r, spawned := FetchAndStage(home, w, disk, log);
    }

    /** The fetching part of `doAutoUpdate`, once nothing was left to
        clean: check the published version and, when it differs, upgrade. */
    method FetchAndStage(home: Path, w: World, disk: Disk<string>, log: UpdateLog)
      returns (r: Outcome, spawned: Option<Path>)
      requires w.Valid()
      modifies this, disk, log
      ensures version == old(version)
      ensures var f := FetchTrail(old(disk.files), home, w, old(version), old(offline));
              && log.lines == old(log.lines) + Stamped(log.clock, |old(log.lines)|, f.messages)
              && offline == f.offline && reports == old(reports) + f.reports
      ensures !NeedsUpdate(w.mainFetch, old(offline), old(version)) ==>
                && r == Returned(false) && spawned == None
                && disk.files == old(disk.files)
      ensures NeedsUpdate(w.mainFetch, old(offline), old(version)) ==>
                Upgraded(old(disk.files), home, w, r, spawned, disk.files)
    {
      ghost var l0 := log.lines;
      var lurl := LatestUrl(disk.Exists(home + ["use_test_url"]));
      log.Log("Fetching " + lurl);
      ghost var l1 := log.lines;
      var upToDate, ti := CheckVersion(TigInfo("", ""), version, w.mainFetch);
      if upToDate {
        // The version is current: nothing more to do
        log.Log("Version " + version + " up-to-date");
        LoggedInTurn(log.clock, l0, ["Fetching " + lurl], l1, ["Version " + version + " up-to-date"], log.lines);
        return Returned(false), None;
      }
      assert !offline;
      ghost var u := UpgradeTrail(disk.files, home, w, version, ti);
      r, spawned := Upgrade(home, ti, w, disk, log);
      LoggedInTurn(log.clock, l0, ["Fetching " + lurl], l1, u.messages, log.lines);
      Regrouped(old(reports), Reports(Polled(w.mainFetch.polls, true)), u.reports);
    }

    /** `doAutoUpdate` after the version check asked for an update: log it,
        download and unpack the new build into `update/`, then hand over. */
    method Upgrade(home: Path, ti: TigInfo, w: World, disk: Disk<string>, log: UpdateLog)
      returns (r: Outcome, spawned: Option<Path>)
      requires w.Valid() && !offline
      modifies this, disk, log
      ensures version == old(version)
      ensures var u := UpgradeTrail(old(disk.files), home, w, old(version), ti);
              && log.lines == old(log.lines) + Stamped(log.clock, |old(log.lines)|, u.messages)
              && offline == u.offline && reports == old(reports) + u.reports
      ensures Upgraded(old(disk.files), home, w, r, spawned, disk.files)
    {
      ghost var l0, t0 := log.lines, disk.files;
      var head := "Upgrading version " + version + " => " + ti.version;
      log.Log(head);
      var ok := DoUpdate(UpdateDir(home), w.mainJob, disk);
      if !ok {
        return Returned(false), None;
      }
      ghost var staged := Unpacked(t0, UpdateDir(home), w.mainJob.members);
      assert disk.files == staged && !offline;
      ghost var l1 := log.lines;
      ghost var h := HandOverTrail(staged, home, w, false);
      r, spawned := HandOver(home, ti, w, disk, log);
      LoggedInTurn(log.clock, l0, [head], l1, h.messages, log.lines);
      Regrouped(old(reports), Reports(Polled(w.mainJob.download, false)), h.reports);
    }

    /** The `update.exe` branch of `doAutoUpdate`: copy the running exe over
        `tiggit.exe` in the same directory, then run it. Its parent is
        always `this_path`, so the directory-copy branch is never taken. */
    method InstallSelf(thisExe: Path, disk: Disk<string>, log: UpdateLog) returns (r: Outcome, spawned: Option<Path>)
      requires Leaf(thisExe) == "update.exe"
      modifies disk, log
      ensures SelfInstalled(old(disk.files), thisExe, r, spawned, disk.files)
      ensures log.lines == old(log.lines) + InstallLines(log.clock, |old(log.lines)|, thisExe, r == Returned(true))
    {
      var thisPath := Parent(thisExe);
      var newExe := thisPath + ["tiggit.exe"];
      log.Log("Updating to new_exe=" + Render(newExe));

      // wxSleep(1) lets the old process exit first; timing is not modelled
      var newPath := Parent(newExe);
      ParentAndLeaf(thisPath, "tiggit.exe");
      assert thisExe != newExe;
      var ok := false;
      if newPath == thisPath {
        ok := log.CopyLog(disk, thisExe, newExe);
      } else {
        // Unreachable: the parent of this_path/tiggit.exe is this_path
        assert false;
      }
      if !ok {
        return Threw, None;
      }
      log.Log("Running " + Render(newExe));
      return Returned(true), Some(newExe);
    }

    /** Removes `update/` and `update.exe` when either is left over from an
        earlier run, logging it first. `didClean` is true when there was
        something to clean; `ok` is false when removing `update.exe` threw
        because it is a directory that still has entries. */
    method CleanUp(home: Path, disk: Disk<string>, log: UpdateLog) returns (didClean: bool, ok: bool)
      modifies disk, log
      ensures didClean == old(disk.Exists(UpdateDir(home)) || disk.Exists(UpdaterExe(home)))
      ensures ok == !old(NonEmptyDir(disk.files, UpdaterExe(home)))
      ensures disk.files == if !didClean then old(disk.files)
                            else if ok then Cleaned(old(disk.files), home)
                            else Swept(old(disk.files), home)
      ensures log.lines == if didClean then old(log.lines) + [Entry(log.clock(|old(log.lines)|),
                             "Cleaning up " + Render(UpdaterExe(home)) + " and " + Render(UpdateDir(home)) + "/")]
                           else old(log.lines)
    {
      var updaterExe := UpdaterExe(home);
      var upDest := UpdateDir(home);
      didClean, ok := false, true;
      if disk.Exists(upDest) || disk.Exists(updaterExe) {
        log.Log("Cleaning up " + Render(updaterExe) + " and " + Render(upDest) + "/");
        ghost var t0 := disk.files;
        if disk.Exists(upDest) {
          disk.RemoveAll(upDest);
        }
        SweptKeepsUpdater(t0, home);
        didClean := true;
        if disk.Exists(updaterExe) {
          ok := disk.Remove(updaterExe);
        }
      }
    }
  }
}
