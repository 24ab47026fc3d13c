/**
  The program's persisted settings: the `config` file in the repository
  directory, a JSON document written in full after every change.

  `Config` keeps the settings in fields the setters update in place; every
  `write()` appends the document it writes to `written`, so a contract can
  say when a setter writes and what. What `load` finds on disk is its
  input: no file, or the file's text together with what parsing it as JSON
  gives (a document, or an exception).
*/
module Configuration {
  import opened Wrappers
  import opened FileSystem
  import opened Json
  import opened Text

  /** Caches older than this are rebuilt. */
  const LastCacheVersion: int := 1

  const MinInt64: int := -0x8000_0000_0000_0000
  const MaxInt64: int := 0x7fff_ffff_ffff_ffff

  /** `int64_t`. */
  type Int64 = x: int | MinInt64 <= x <= MaxInt64

  /** The `lastTime` a new `Config` starts with. */
  const DefaultLastTime: Int64 := 0x7fff_ffff_ffff

  /** The `(int)` cast of a 64-bit value: the low 32 bits, read as a
      two's-complement number. */
  function ToInt32(x: int): (r: int)
    ensures InInt32(r)
    ensures (x - r) % 0x1_0000_0000 == 0
    ensures InInt32(x) ==> r == x
  {
    var low := x % 0x1_0000_0000;
    if low > MaxInt32 then low - 0x1_0000_0000 else low
  }

  /** The settings `write()` stores. */
  datatype Fields = Fields(lastTime: Int64, seenDemoMsg: bool, hasAskedDirs: bool, debug: bool, gamedir: string)

  /** The document `write()` produces. */
  function Encode(f: Fields): Doc {
    map[
      "repo_version" := Str("3"),
      "last_time" := Int(ToInt32(f.lastTime)),
      "seen_demo_msg" := Bool(f.seenDemoMsg),
      "has_asked_dirs" := Bool(f.hasAskedDirs),
      "cache_version" := Int(1),
      "debug" := Bool(f.debug),
      "gamedir" := Str(f.gamedir)]
  }

  /** One `write()`: the file name and the document written to it. */
  datatype Saved = Saved(file: Path, doc: Doc)

  /** What reading a JSON document leaves: the settings (partly updated when
      a conversion threw), whether the document was rejected, and whether
      the cache must be rebuilt. */
  datatype JsonRead = JsonRead(fields: Fields, error: bool, staleCache: bool)

  /** Every member `load` reads converts without throwing. */
  predicate Readable(root: Doc) {
    && AsInt(Member(root, "last_time")).Ok?
    && AsBool(Member(root, "seen_demo_msg")).Ok?
    && AsBool(Member(root, "has_asked_dirs")).Ok?
    && AsBool(Member(root, "debug")).Ok?
    && AsString(Member(root, "gamedir")).Ok?
    && AsInt(Member(root, "cache_version")).Ok?
  }

  /** The `try` block of `load` on document `root`, starting from settings
      `f`: the members are converted in order, each stored as soon as it is
      read, and the first conversion that throws ends the block. */
  function ReadConfig(root: Doc, f: Fields): (r: JsonRead)
    ensures r.error <==> Member(root, "repo_version") != Str("3") || !Readable(root)
    ensures Readable(root) ==>
              && r.fields.lastTime == (if AsInt(Member(root, "last_time")).value < 0 then 0
                                       else AsInt(Member(root, "last_time")).value)
              && r.fields.seenDemoMsg == AsBool(Member(root, "seen_demo_msg")).value
              && r.fields.hasAskedDirs == AsBool(Member(root, "has_asked_dirs")).value
              && r.fields.debug == AsBool(Member(root, "debug")).value
              && r.fields.gamedir == (if AsString(Member(root, "gamedir")).value == "" then "games"
                                      else AsString(Member(root, "gamedir")).value)
    ensures Readable(root) ==> 0 <= r.fields.lastTime <= MaxInt32 && r.fields.gamedir != ""
    ensures !AsInt(Member(root, "last_time")).Ok? ==> r.fields == f
    ensures AsInt(Member(root, "last_time")).Ok? && !Readable(root) ==>
              r.fields.lastTime == AsInt(Member(root, "last_time")).value
    ensures !AsString(Member(root, "gamedir")).Ok? ==> r.fields.gamedir == f.gamedir
    ensures r.staleCache <==> Readable(root) && AsInt(Member(root, "cache_version")).value < LastCacheVersion
  {
    var time := AsInt(Member(root, "last_time"));
    var seen := AsBool(Member(root, "seen_demo_msg"));
    var asked := AsBool(Member(root, "has_asked_dirs"));
    var debug := AsBool(Member(root, "debug"));
    var dir := AsString(Member(root, "gamedir"));
    var cache := AsInt(Member(root, "cache_version"));
    // okN: the first N conversions went through
    var ok1 := time.Ok?;
    var ok2 := ok1 && seen.Ok?;
    var ok3 := ok2 && asked.Ok?;
    var ok4 := ok3 && debug.Ok?;
    var ok5 := ok4 && dir.Ok?;
    var ok6 := ok5 && cache.Ok?;
    var f1 := if ok1 then f.(lastTime := time.value) else f;
    var f2 := if ok2 then f1.(seenDemoMsg := seen.value) else f1;
    var f3 := if ok3 then f2.(hasAskedDirs := asked.value) else f2;
    var f4 := if ok4 then f3.(debug := debug.value) else f3;
    var f5 := if ok5 then f4.(gamedir := if dir.value == "" then "games" else dir.value) else f4;
    var f6 := if ok6 && f5.lastTime < 0 then f5.(lastTime := 0) else f5;
    JsonRead(f6, !ok6 || Member(root, "repo_version") != Str("3"), ok6 && cache.value < LastCacheVersion)
  }

  /** Reading back what `write()` stored gives the same settings, except
      that the time is cut to 32 bits and clamped at 0 and an empty game
      directory reads as `games`; the document is never rejected. */
  lemma WriteThenRead(f: Fields, g: Fields)
    ensures var r := ReadConfig(Encode(f), g);
            var t := ToInt32(f.lastTime);
            && !r.error && !r.staleCache
            && r.fields == f.(lastTime := if t < 0 then 0 else t,
                              gamedir := if f.gamedir == "" then "games" else f.gamedir)
  {
    var d := Encode(f);
    assert Member(d, "last_time") == Int(ToInt32(f.lastTime));
    assert Member(d, "gamedir") == Str(f.gamedir);
    assert Member(d, "cache_version") == Int(1);
    assert Readable(d);
  }

  /** The time survives a write and a load exactly when it lies in
      `[0, 2^31 - 1]`. */
  lemma LastTimeSurvives(f: Fields, g: Fields)
    ensures ReadConfig(Encode(f), g).fields.lastTime == f.lastTime <==> 0 <= f.lastTime <= MaxInt32
  {
    WriteThenRead(f, g);
    var t := ToInt32(f.lastTime);
    if !InInt32(f.lastTime) {
      assert t != f.lastTime;
      assert f.lastTime != 0;
    }
  }

  /** The constructor's time, `0x7fffffffffff`, is written as -1 and read
      back as 0. */
  lemma DefaultLastTimeReadsAsZero(f: Fields, g: Fields)
    requires f.lastTime == DefaultLastTime
    ensures ToInt32(f.lastTime) == -1
    ensures ReadConfig(Encode(f), g).fields.lastTime == 0
  {
    WriteThenRead(f, g);
  }

  /** The `config` file as `load` finds it: its text, and what parsing it
      as JSON gives. */
  datatype ConfigFile = ConfigFile(text: string, json: Conv<Doc>)

  /** A config file from before the JSON format: its first word is empty,
      "1" or "2". */
  predicate Legacy(text: string) {
    var repo := FirstWord(text).GetOr("");
    repo == "" || repo == "1" || repo == "2"
  }

  class Config {
    var filename: Path
    var gamedir: string
    /** Set when a forced update of the list, the tig files or the cache is needed. */
    var updateList: bool
    var updateTigs: bool
    var updateCache: bool
    /** Set on the first run only. */
    var firstTime: bool
    var debug: bool
    var seenDemoMsg: bool
    var hasAskedDirs: bool
    var lastTime: Int64
    /** Every `write()` so far, in order. */
    var written: seq<Saved>

    constructor ()
      ensures filename == [] && gamedir == ""
      ensures !updateList && !updateTigs && !updateCache && !firstTime
      ensures !debug && !seenDemoMsg && !hasAskedDirs
      ensures lastTime == DefaultLastTime && written == []
    {
      filename := [];
      gamedir := "";
      updateList, updateTigs, updateCache := false, false, false;
      firstTime, debug, seenDemoMsg, hasAskedDirs := false, false, false, false;
      lastTime := DefaultLastTime;
      written := [];
    }

    /** The settings `write()` stores. */
    function Persisted(): Fields
      reads this
    {
      Fields(lastTime, seenDemoMsg, hasAskedDirs, debug, gamedir)
    }

    /** `write()`: the whole document is written to `filename`. */
    method Write()
      modifies this
      ensures written == old(written) + [Saved(filename, Encode(Persisted()))]
      ensures Persisted() == old(Persisted()) && filename == old(filename)
      ensures updateList == old(updateList) && updateTigs == old(updateTigs)
      ensures updateCache == old(updateCache) && firstTime == old(firstTime)
    {
      written := written + [Saved(filename, Encode(Persisted()))];
    }

    /** `setLastTime(newTime)`: the time only moves forward, and is written
        only when it does. */
    method SetLastTime(newTime: Int64)
      modifies this
      ensures lastTime == if newTime > old(lastTime) then newTime else old(lastTime)
      ensures written == if newTime > old(lastTime) then old(written) + [Saved(filename, Encode(Persisted()))]
                         else old(written)
      ensures Persisted() == old(Persisted()).(lastTime := lastTime)
      ensures filename == old(filename) && updateList == old(updateList) && updateTigs == old(updateTigs)
      ensures updateCache == old(updateCache) && firstTime == old(firstTime)
    {
      if newTime > lastTime {
        lastTime := newTime;
        Write();
      }
    }

    /** `setAskedDirs()`: sets the flag, writing only the first time. */
    method SetAskedDirs()
      modifies this
      ensures hasAskedDirs
      ensures written == if old(hasAskedDirs) then old(written)
                         else old(written) + [Saved(filename, Encode(Persisted()))]
      ensures Persisted() == old(Persisted()).(hasAskedDirs := true)
      ensures filename == old(filename) && updateList == old(updateList) && updateTigs == old(updateTigs)
      ensures updateCache == old(updateCache) && firstTime == old(firstTime)
    {
      if !hasAskedDirs {
        hasAskedDirs := true;
        Write();
      }
    }

    /** `shown_demo_msg()`: sets the flag, writing only the first time. */
    method ShownDemoMsg()
      modifies this
      ensures seenDemoMsg
      ensures written == if old(seenDemoMsg) then old(written)
                         else old(written) + [Saved(filename, Encode(Persisted()))]
      ensures Persisted() == old(Persisted()).(seenDemoMsg := true)
      ensures filename == old(filename) && updateList == old(updateList) && updateTigs == old(updateTigs)
      ensures updateCache == old(updateCache) && firstTime == old(firstTime)
    {
      if !seenDemoMsg {
        seenDemoMsg := true;
        Write();
      }
    }

    /** `setGameDir(name)`: always stores and writes, even an unchanged name. */
    method SetGameDir(name: string)
      modifies this
      ensures gamedir == name
      ensures written == old(written) + [Saved(filename, Encode(Persisted()))]
      ensures Persisted() == old(Persisted()).(gamedir := name)
      ensures filename == old(filename) && updateList == old(updateList) && updateTigs == old(updateTigs)
      ensures updateCache == old(updateCache) && firstTime == old(firstTime)
    {
      gamedir := name;
      Write();
    }

    /** `load(where)`: read `where/config`, set the update flags from what
        was found, and write the settings back. */
    method Load(where: Path, file: Option<ConfigFile>)
      modifies this
      ensures filename == where + ["config"]
      ensures written == old(written) + [Saved(filename, Encode(Persisted()))]
      ensures updateTigs == old(updateTigs)
      ensures file.None? ==>
                && firstTime && updateCache && updateList
                && Persisted() == old(Persisted())
      ensures file.Some? && (Legacy(file.value.text) || file.value.json.Throws?) ==>
                && updateList && firstTime == old(firstTime) && updateCache == old(updateCache)
                && Persisted() == old(Persisted())
      ensures file.Some? && !Legacy(file.value.text) && file.value.json.Ok? ==>
                var r := ReadConfig(file.value.json.value, old(Persisted()));
                && Persisted() == r.fields
                && updateList == (old(updateList) || r.error)
                && updateCache == (old(updateCache) || r.staleCache)
                && firstTime == old(firstTime)
    {
      filename := where + ["config"];
      var error := true;
      if file.None? {
        firstTime := true;
        updateCache := true;
      } else {
        error := ReadFound(file.value);
      }
      if error {
        updateList := true;
      }
      Write();
    }

    /** The part of `load` that reads an existing file; true when the file
        is rejected. */
    method ReadFound(file: ConfigFile) returns (error: bool)
      modifies this
      ensures Legacy(file.text) || file.json.Throws? ==> error && Persisted() == old(Persisted()) && updateCache == old(updateCache)
      ensures !Legacy(file.text) && file.json.Ok? ==>
                var r := ReadConfig(file.json.value, old(Persisted()));
                && Persisted() == r.fields && error == r.error
                && updateCache == (old(updateCache) || r.staleCache)
      ensures filename == old(filename) && written == old(written)
      ensures updateList == old(updateList) && updateTigs == old(updateTigs) && firstTime == old(firstTime)
    {
      var repo := FirstWord(file.text).GetOr("");
      if repo == "" || repo == "1" || repo == "2" {
        // An old pre-JSON config file
        return true;
      }
      if file.json.Throws? {
        return true;
      }
      var r := ReadConfig(file.json.value, Persisted());
      Apply(r);
      error := r.error;
    }

    /** Takes over what reading the document gave. */
    method Apply(r: JsonRead)
      modifies this
      ensures Persisted() == r.fields
      ensures updateCache == (old(updateCache) || r.staleCache)
      ensures filename == old(filename) && written == old(written)
      ensures updateList == old(updateList) && updateTigs == old(updateTigs) && firstTime == old(firstTime)
    {
      lastTime, seenDemoMsg, hasAskedDirs, debug, gamedir :=
        r.fields.lastTime, r.fields.seenDemoMsg, r.fields.hasAskedDirs, r.fields.debug, r.fields.gamedir;
      if r.staleCache {
        updateCache := true;
      }
    }
  }
}
