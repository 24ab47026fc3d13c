/**
  The game repository's own bookkeeping: where the repository lives, the
  one-shot conversion of an old repository layout, and the stores for
  install status, ratings and the time of the last list update.

  A store (`JConfig`) is a JSON document of named values. Loading one from
  a file that does not exist gives an empty store; a file that is a
  directory or cannot be read as JSON makes the load throw. The disk the
  conversion works on is seen from the repository directory: the path
  `["config"]` is `dir/config`, and each file holds what the JSON reader
  makes of it.
*/
module Repository {
  import opened Wrappers
  import opened FileSystem
  import opened Json
  import Configuration

  type Store = Doc

  /** Whether `path(dir) / name` puts a separator between the two: only
      when both are non-empty and neither supplies one itself. */
  predicate NeedsSeparator(dir: string, name: string) {
    dir != "" && name != "" && dir[|dir| - 1] != '/' && name[0] != '/'
  }

  /** `(path(dir) / name).string()`. */
  function JoinPath(dir: string, name: string): (p: string)
    ensures |p| == |dir| + |name| + (if NeedsSeparator(dir, name) then 1 else 0)
    ensures p[..|dir|] == dir && p[|p| - |name|..] == name
    ensures NeedsSeparator(dir, name) ==> p[|dir|] == '/'
  {
    if NeedsSeparator(dir, name) then dir + "/" + name else dir + name
  }

  /** The store a `JConfig` load finds at `p`. */
  function LoadStore(t: Tree<Conv<Doc>>, p: Path): Conv<Store> {
    if p !in t then Ok(map[])
    else if t[p].Dir? then Throws
    else t[p].content
  }

  /** `JConfig::getInt(key, def)`: the member as `asInt` reads it, or `def`
      when there is no such member. */
  function GetInt(s: Store, key: string, def: int): (r: Conv<int>)
    ensures key !in s ==> r == Ok(def)
    ensures key in s ==> r == AsInt(s[key])
  {
    if key in s then AsInt(s[key]) else Ok(def)
  }

  /** What `conf.getData("last_time", ...)` finds: the stored time, if any. */
  function StoredLastTime(conf: Store): Option<int> {
    if "last_time" in conf && conf["last_time"].Int? then Some(conf["last_time"].i) else None
  }

  /** The request that casts a vote of `rate` for the game `urlname`. */
  function VoteUrl(urlname: string, rate: int): (u: string)
    requires 0 <= rate <= 5
    ensures |u| > 0 && u[..|u| - 1] == "http://tiggit.net/api/count/" + urlname + "&rate="
    ensures '0' <= u[|u| - 1] <= '5' && u[|u| - 1] as int - '0' as int == rate
  {
    "http://tiggit.net/api/count/" + urlname + "&rate=" + [('0' as int + rate) as char]
  }

  // The files of an old repository layout and of the current one.
  const OldConfig: Path := ["config"]
  const WxConf: Path := ["wxtiggit.conf"]
  const RatingsJson: Path := ["ratings.json"]
  const RatesConf: Path := ["tiglib_rates.conf"]
  const InstalledJson: Path := ["installed.json"]
  const ShotDir: Path := ["cache", "shot300x260", "tiggit.net"]
  const DataDir: Path := ["data"]
  const GamesDir: Path := ["games"]
  const ConfFile: Path := ["tiglib.conf"]
  const InstFile: Path := ["tiglib_installed.conf"]
  const NewsFile: Path := ["tiglib_news.conf"]

  /** The fixed files of the repository lie outside each other. */
  lemma LayoutApart()
    ensures !Within(RatingsJson, RatesConf) && !Within(DataDir, GamesDir)
    ensures forall k | k in {RatingsJson, RatesConf, DataDir, GamesDir} ::
              && !Within(k, WxConf) && !Within(k, InstalledJson) && !Within(k, OldConfig)
    ensures forall k | k in {RatesConf, WxConf} :: !Within(DataDir, k) && !Within(GamesDir, k)
    ensures forall k | k in {RatesConf, WxConf, InstalledJson, DataDir, GamesDir} :: !Within(ShotDir, k)
    ensures !Within(RatingsJson, DataDir) && !Within(RatingsJson, GamesDir)
    ensures !Within(RatesConf, DataDir) && !Within(RatesConf, GamesDir)
  {
    forall a: Path, b: Path | |a| == 1 && |b| == 1 && Within(a, b)
      ensures a == b
    {
      assert b[..1] == b;
    }
  }

  /** `exists` on a path written with a trailing separator: only a
      directory answers true. */
  predicate IsDirectory<T>(t: Tree<T>, p: Path) {
    p in t && t[p].Dir?
  }

  /** The full name of the screenshot directory's entries, up to the leaf. */
  function ShotPrefix(dir: string): string {
    JoinPath(dir, "cache/shot300x260/tiggit.net/")
  }

  /** A full path name that already ends in a three-letter extension. */
  predicate HasExtension(name: string) {
    |name| > 4 && name[|name| - 4] == '.'
  }

  /** The extension test on the full name is a test on the entry's own
      name: at least four characters, the fourth from the end a dot. */
  lemma ShotRule(dir: string, leaf: string)
    requires leaf != ""
    ensures HasExtension(ShotPrefix(dir) + leaf) <==> |leaf| >= 4 && leaf[|leaf| - 4] == '.'
  {
    var s := "cache/shot300x260/tiggit.net/";
    var p := ShotPrefix(dir);
    assert p[|p| - |s|..] == s;
    assert p[|p| - 1] == s[|s| - 1] && p[|p| - 2] == s[|s| - 2] && p[|p| - 3] == s[|s| - 3];
    var full := p + leaf;
    if |leaf| < 4 {
      assert full[|full| - 4] == p[|p| - 4 + |leaf|];
    } else {
      assert full[|full| - 4] == leaf[|leaf| - 4];
    }
  }

  /** A name that got `.png` appended has an extension. */
  lemma PngHasExtension(prefix: string, n: string)
    requires prefix != ""
    ensures HasExtension(prefix + (n + ".png"))
  {
    var s := prefix + (n + ".png");
    assert s[|s| - 4] == (n + ".png")[|n|] == '.';
  }

  /** One pass of the screenshot loop, over the entry `n` of the screenshot
      directory: a regular file without an extension gets `.png` appended. */
  function ShotStep(t: Tree<Conv<Doc>>, prefix: string, n: string): Tree<Conv<Doc>> {
    if IsFile(t, ShotDir + [n]) && !HasExtension(prefix + n) then
      SiblingsApart(ShotDir, n, n + ".png");
      Moved(t, ShotDir + [n], ShotDir + [n + ".png"])
    else t
  }

  /** The screenshot loop over the entries `order`, in that order. */
  function ShotsRenamed(t: Tree<Conv<Doc>>, prefix: string, order: seq<string>): Tree<Conv<Doc>> {
    if order == [] then t
    else ShotStep(ShotsRenamed(t, prefix, order[..|order| - 1]), prefix, order[|order| - 1])
  }

  /** A pass over another entry leaves a file without an extension and its
      `.png` name as they were. */
  lemma ShotStepKeeps(t: Tree<Conv<Doc>>, prefix: string, m: string, n: string)
    requires prefix != "" && m != n && !HasExtension(prefix + n)
    ensures SameAt(ShotStep(t, prefix, m), t, ShotDir + [n])
    ensures SameAt(ShotStep(t, prefix, m), t, ShotDir + [n + ".png"])
  {
    if IsFile(t, ShotDir + [m]) && !HasExtension(prefix + m) {
      var from, to := ShotDir + [m], ShotDir + [m + ".png"];
      PngHasExtension(prefix, m);
      PngHasExtension(prefix, n);
      SiblingsApart(ShotDir, m, m + ".png");
      SiblingsApart(ShotDir, m, n);
      SiblingsApart(ShotDir, m + ".png", n);
      SiblingsApart(ShotDir, m, n + ".png");
      if |m| == |n| {
        assert (m + ".png")[..|m|] == m && (n + ".png")[..|n|] == n;
      }
      SiblingsApart(ShotDir, m + ".png", n + ".png");
      MovedElsewhere(t, from, to, ShotDir + [n]);
      MovedElsewhere(t, from, to, ShotDir + [n + ".png"]);
    }
  }

  /** The pass over a file without an extension moves it to its `.png` name. */
  lemma ShotStepRenames(t: Tree<Conv<Doc>>, prefix: string, n: string)
    requires IsFile(t, ShotDir + [n]) && !HasExtension(prefix + n)
    ensures var u := ShotStep(t, prefix, n);
            ShotDir + [n] !in u && ShotDir + [n + ".png"] in u && u[ShotDir + [n + ".png"]] == t[ShotDir + [n]]
  {
    var from, to := ShotDir + [n], ShotDir + [n + ".png"];
    SiblingsApart(ShotDir, n, n + ".png");
    MovedWhole(t, from, to);
    MovedAway(t, from, to);
  }

  /** Entries the loop has not reached yet keep their files. */
  lemma {:induction false} ShotsKeepUnvisited(t: Tree<Conv<Doc>>, prefix: string, order: seq<string>, n: string)
    requires prefix != "" && n !in order && !HasExtension(prefix + n)
    ensures SameAt(ShotsRenamed(t, prefix, order), t, ShotDir + [n])
  {
    if order != [] {
      var init := order[..|order| - 1];
      assert n !in init;
      ShotsKeepUnvisited(t, prefix, init, n);
      ShotStepKeeps(ShotsRenamed(t, prefix, init), prefix, order[|order| - 1], n);
    }
  }

  /** Every regular screenshot file without an extension ends up under its
      name with `.png` appended, with its content, and its old name is gone. */
  lemma {:induction false} ShotsRenamedToPng(t: Tree<Conv<Doc>>, prefix: string, order: seq<string>, n: string)
    requires prefix != "" && n in order && IsFile(t, ShotDir + [n]) && !HasExtension(prefix + n)
    ensures var u := ShotsRenamed(t, prefix, order);
            ShotDir + [n] !in u && ShotDir + [n + ".png"] in u && u[ShotDir + [n + ".png"]] == t[ShotDir + [n]]
  {
    var init, m := order[..|order| - 1], order[|order| - 1];
    var before := ShotsRenamed(t, prefix, init);
    if n in init {
      ShotsRenamedToPng(t, prefix, init, n);
      if m != n {
        ShotStepKeeps(before, prefix, m, n);
      }
    } else {
      ShotsKeepUnvisited(t, prefix, init, n);
      ShotStepRenames(before, prefix, n);
    }
  }

  /** The screenshot loop touches nothing outside the screenshot directory. */
  lemma {:induction false} ShotsElsewhere(t: Tree<Conv<Doc>>, prefix: string, order: seq<string>, k: Path)
    requires !Within(ShotDir, k)
    ensures SameAt(ShotsRenamed(t, prefix, order), t, k)
  {
    if order != [] {
      var init, m := order[..|order| - 1], order[|order| - 1];
      ShotsElsewhere(t, prefix, init, k);
      var before := ShotsRenamed(t, prefix, init);
      if IsFile(before, ShotDir + [m]) && !HasExtension(prefix + m) {
        SiblingsApart(ShotDir, m, m + ".png");
        if Within(ShotDir + [m], k) { WithinEntry(ShotDir, m, k); }
        if Within(ShotDir + [m + ".png"], k) { WithinEntry(ShotDir, m + ".png", k); }
        MovedElsewhere(before, ShotDir + [m], ShotDir + [m + ".png"], k);
      }
    }
  }

  /** The install store after merging the names of an old install list:
      every name not yet known gets status 2 (installed), every known name
      keeps its status. */
  function Installed(inst: Store, names: set<string>): (r: Store)
    ensures forall n :: n in r <==> n in inst || n in names
    ensures forall n | n in inst :: r[n] == inst[n]
    ensures forall n | n in r && n !in inst :: r[n] == Int(2)
  {
    inst + map n | n in names && n !in inst :: Int(2)
  }

  /** Merging one more name. */
  lemma InstalledOneMore(inst: Store, done: set<string>, n: string)
    ensures Installed(inst, done + {n}) ==
              if n in Installed(inst, done) then Installed(inst, done) else Installed(inst, done)[n := Int(2)]
  {
  }

  /** The repository's files, main store and install store at one point of
      the conversion. */
  datatype Stage = Stage(files: Tree<Conv<Doc>>, conf: Store, inst: Store)

  /** The `vote_count` option of the old configuration becomes `show_votes`
      in a new `wxtiggit.conf`, unless that file exists already. */
  function VotesMoved(t: Tree<Conv<Doc>>, legacy: Doc): Conv<Tree<Conv<Doc>>> {
    if "vote_count" in legacy && WxConf !in t then
      var b := AsBool(legacy["vote_count"]);
      if b.Throws? then Throws else Ok(t[WxConf := File(Ok(map["show_votes" := Bool(b.value)]))])
    else Ok(t)
  }

  /** The old configuration's `last_time` moves to the main store, unless
      that has one already. */
  function LastTimeMoved(conf: Store, legacy: Doc): Conv<Store> {
    if "last_time" in legacy && "last_time" !in conf then
      var v := AsInt(legacy["last_time"]);
      if v.Throws? then Throws else Ok(conf["last_time" := Int(v.value)])
    else Ok(conf)
  }

  /** The old ratings file becomes the rates store, unless that exists. */
  function RatingsMoved(t: Tree<Conv<Doc>>): Tree<Conv<Doc>> {
    if RatingsJson in t && RatesConf !in t then
      LayoutApart();
      Moved(t, RatingsJson, RatesConf)
    else t
  }

  /** Games installed into `data/` move to `games/` when there is nothing
      at `games`. (When `games` is a regular file the rename fails.) */
  function GamesMoved(t: Tree<Conv<Doc>>): Tree<Conv<Doc>> {
    if IsDirectory(t, DataDir) && GamesDir !in t then
      LayoutApart();
      Moved(t, DataDir, GamesDir)
    else t
  }

  /** The conversion from the old install list on, after the old
      configuration is gone; an exception stops it where it is. */
  function Converted(t: Tree<Conv<Doc>>, conf: Store, inst: Store, prefix: string, order: seq<string>): Stage {
    if InstalledJson in t && !(IsFile(t, InstalledJson) && t[InstalledJson].content.Ok?) then
      Stage(t, conf, inst)
    else
      var t1 := if InstalledJson in t then t - {InstalledJson} else t;
      var i1 := if InstalledJson in t then Installed(inst, t[InstalledJson].content.value.Keys) else inst;
      if !IsDirectory(t1, ShotDir) then Stage(t1, conf, i1)
      else Stage(GamesMoved(ShotsRenamed(t1, prefix, order)), conf, i1)
  }

  /** The old configuration file can be read, and its options convert. */
  predicate OptionsConvert(t: Tree<Conv<Doc>>, conf: Store) {
    && IsFile(t, OldConfig) && t[OldConfig].content.Ok?
    && VotesMoved(t, t[OldConfig].content.value).Ok?
    && LastTimeMoved(conf, t[OldConfig].content.value).Ok?
  }

  /** The whole conversion of an old repository, the screenshot directory
      listed in `order`; any exception ends it with what was done so far. */
  function Migration(t: Tree<Conv<Doc>>, conf: Store, inst: Store, prefix: string, order: seq<string>): Stage {
    if !IsFile(t, OldConfig) || t[OldConfig].content.Throws? then Stage(t, conf, inst)
    else
      var legacy := t[OldConfig].content.value;
      var votes := VotesMoved(t, legacy);
      if votes.Throws? then Stage(t, conf, inst)
      else
        var times := LastTimeMoved(conf, legacy);
        if times.Throws? then Stage(votes.value, conf, inst)
        else Converted(RatingsMoved(votes.value - {OldConfig}), times.value, inst, prefix, order)
  }

  /** The steps after the old install list leave the rates store and the
      new option file alone. */
  lemma ConvertedKeeps(t: Tree<Conv<Doc>>, conf: Store, inst: Store, prefix: string, order: seq<string>, k: Path)
    requires k == RatesConf || k == WxConf
    ensures SameAt(Converted(t, conf, inst, prefix, order).files, t, k)
  {
    LayoutApart();
    if !(InstalledJson in t && !(IsFile(t, InstalledJson) && t[InstalledJson].content.Ok?)) {
      var t1 := if InstalledJson in t then t - {InstalledJson} else t;
      if IsDirectory(t1, ShotDir) {
        ShotsElsewhere(t1, prefix, order, k);
        var u := ShotsRenamed(t1, prefix, order);
        if IsDirectory(u, DataDir) && GamesDir !in u {
          MovedElsewhere(u, DataDir, GamesDir, k);
        }
      }
    }
  }

  /** Removing the old configuration and renaming the ratings file leave
      `k` alone. */
  lemma RatingsMovedElsewhere(t: Tree<Conv<Doc>>, k: Path)
    requires k == WxConf || k == InstalledJson || k == DataDir || k == GamesDir
    ensures SameAt(RatingsMoved(t - {OldConfig}), t, k)
  {
    LayoutApart();
    var t1 := t - {OldConfig};
    assert SameAt(t1, t, k);
    if RatingsJson in t1 && RatesConf !in t1 {
      MovedElsewhere(t1, RatingsJson, RatesConf, k);
    }
  }

  /** The rates store file appears only when there was none, and then it is
      the old ratings file. */
  lemma RatingsOnlyWhenAbsent(t: Tree<Conv<Doc>>, conf: Store, inst: Store, prefix: string, order: seq<string>)
    ensures var s := Migration(t, conf, inst, prefix, order);
            !SameAt(s.files, t, RatesConf) ==>
              RatesConf !in t && RatingsJson in t && s.files[RatesConf] == t[RatingsJson]
  {
    LayoutApart();
    if OptionsConvert(t, conf) {
      var legacy := t[OldConfig].content.value;
      var t1 := VotesMoved(t, legacy).value - {OldConfig};
      assert SameAt(t1, t, RatesConf) && SameAt(t1, t, RatingsJson);
      ConvertedKeeps(RatingsMoved(t1), LastTimeMoved(conf, legacy).value, inst, prefix, order, RatesConf);
      if RatingsJson in t1 && RatesConf !in t1 {
        MovedWhole(t1, RatingsJson, RatesConf);
      }
    }
  }

  /** `wxtiggit.conf` is written only when it did not exist, and then it
      holds the old `vote_count` as `show_votes`. */
  lemma VotesOnlyWhenAbsent(t: Tree<Conv<Doc>>, conf: Store, inst: Store, prefix: string, order: seq<string>)
    ensures var s := Migration(t, conf, inst, prefix, order);
            !SameAt(s.files, t, WxConf) ==>
              && WxConf !in t && IsFile(t, OldConfig) && t[OldConfig].content.Ok?
              && var legacy := t[OldConfig].content.value;
                 "vote_count" in legacy && AsBool(legacy["vote_count"]).Ok?
                 && s.files[WxConf] == File(Ok(map["show_votes" := Bool(AsBool(legacy["vote_count"]).value)]))
  {
    if OptionsConvert(t, conf) {
      var legacy := t[OldConfig].content.value;
      var t0 := VotesMoved(t, legacy).value;
      RatingsMovedElsewhere(t0, WxConf);
      ConvertedKeeps(RatingsMoved(t0 - {OldConfig}), LastTimeMoved(conf, legacy).value, inst, prefix, order, WxConf);
    }
  }

  /** `data` moves to `games` only when nothing was at `games`. */
  lemma GamesOnlyWhenAbsent(t: Tree<Conv<Doc>>, conf: Store, inst: Store, prefix: string, order: seq<string>)
    ensures var s := Migration(t, conf, inst, prefix, order);
            !SameAt(s.files, t, GamesDir) ==> GamesDir !in t && IsDirectory(t, DataDir) && s.files[GamesDir] == Dir
  {
    LayoutApart();
    if OptionsConvert(t, conf) {
      var legacy := t[OldConfig].content.value;
      var t0 := VotesMoved(t, legacy).value;
      assert SameAt(t0, t, GamesDir) && SameAt(t0, t, DataDir);
      RatingsMovedElsewhere(t0, GamesDir);
      RatingsMovedElsewhere(t0, DataDir);
      var t1 := RatingsMoved(t0 - {OldConfig});
      if !(InstalledJson in t1 && !(IsFile(t1, InstalledJson) && t1[InstalledJson].content.Ok?)) {
        var t2 := if InstalledJson in t1 then t1 - {InstalledJson} else t1;
        assert SameAt(t2, t, GamesDir) && SameAt(t2, t, DataDir);
        if IsDirectory(t2, ShotDir) {
          ShotsElsewhere(t2, prefix, order, GamesDir);
          ShotsElsewhere(t2, prefix, order, DataDir);
          var u := ShotsRenamed(t2, prefix, order);
          if IsDirectory(u, DataDir) && GamesDir !in u {
            MovedWhole(u, DataDir, GamesDir);
          }
        }
      }
    }
  }

  /** `last_time` is copied only when the main store had none, and then it
      is the old configuration's value. */
  lemma LastTimeOnlyWhenAbsent(t: Tree<Conv<Doc>>, conf: Store, inst: Store, prefix: string, order: seq<string>)
    ensures var s := Migration(t, conf, inst, prefix, order);
            s.conf != conf ==>
              && "last_time" !in conf && IsFile(t, OldConfig) && t[OldConfig].content.Ok?
              && var legacy := t[OldConfig].content.value;
                 && "last_time" in legacy && AsInt(legacy["last_time"]).Ok?
                 && s.conf == conf["last_time" := Int(AsInt(legacy["last_time"]).value)]
  {
    if OptionsConvert(t, conf) {
      var legacy := t[OldConfig].content.value;
      var t1 := RatingsMoved(VotesMoved(t, legacy).value - {OldConfig});
      ConvertedConf(t1, LastTimeMoved(conf, legacy).value, inst, prefix, order);
    }
  }

  /** The steps after the old install list leave the main store alone. */
  lemma ConvertedConf(t: Tree<Conv<Doc>>, conf: Store, inst: Store, prefix: string, order: seq<string>)
    ensures Converted(t, conf, inst, prefix, order).conf == conf
  {
  }

  /** Merging the old install list adds only names with status 2 and keeps
      every known status; once the options convert and the list can be
      read, every name on it is known afterwards. */
  lemma InstalledMerged(t: Tree<Conv<Doc>>, conf: Store, inst: Store, prefix: string, order: seq<string>)
    ensures var s := Migration(t, conf, inst, prefix, order);
            && (forall n | n in inst :: n in s.inst && s.inst[n] == inst[n])
            && (forall n | n in s.inst && n !in inst :: s.inst[n] == Int(2))
    ensures OptionsConvert(t, conf) && IsFile(t, InstalledJson) && t[InstalledJson].content.Ok? ==>
              forall n | n in t[InstalledJson].content.value :: n in Migration(t, conf, inst, prefix, order).inst
  {
    if OptionsConvert(t, conf) {
      var legacy := t[OldConfig].content.value;
      var t0 := VotesMoved(t, legacy).value;
      assert SameAt(t0, t, InstalledJson);
      RatingsMovedElsewhere(t0, InstalledJson);
      ConvertedInst(RatingsMoved(t0 - {OldConfig}), LastTimeMoved(conf, legacy).value, inst, prefix, order);
    }
  }

  /** The install store after the conversion: merged with the old install
      list when that can be read, unchanged otherwise. */
  lemma ConvertedInst(t: Tree<Conv<Doc>>, conf: Store, inst: Store, prefix: string, order: seq<string>)
    ensures var s := Converted(t, conf, inst, prefix, order);
            if IsFile(t, InstalledJson) && t[InstalledJson].content.Ok?
            then s.inst == Installed(inst, t[InstalledJson].content.value.Keys)
            else s.inst == inst
  {
  }

  class Repo {
    var dir: string
    var listFile: string
    var tigDir: string
    var conf: Store
    var inst: Store
    var news: Store
    var rates: Store
    var lastTime: int
    /** The requests sent to the server, oldest first. */
    var sent: seq<string>

    /** A repository object before `findRepo`; the initial `lastTime` is
        the caller's. */
    constructor (lastTime: int)
      ensures dir == "" && listFile == "" && tigDir == ""
      ensures conf == map[] && inst == map[] && news == map[] && rates == map[]
      ensures this.lastTime == lastTime && sent == []
    {
      dir, listFile, tigDir := "", "", "";
      conf, inst, news, rates := map[], map[], map[], map[];
      this.lastTime := lastTime;
      sent := [];
    }

    /** `getPath(fname)`: a file in the repository directory. */
    function GetPath(fname: string): string
      reads this
    {
      JoinPath(dir, fname)
    }

    /** The stores and the requests, which only the bookkeeping methods
        change. */
    function Books(): (Store, Store, Store, Store, int, seq<string>)
      reads this
    {
      (conf, inst, news, rates, lastTime, sent)
    }

    /** `findRepo(where)`: an empty `where` falls back to the located
        repository (`located`, what `locateRepo` finds, possibly nothing). */
    method FindRepo(where: string, located: string) returns (found: bool)
      modifies this
      ensures dir == (if where != "" then where else located)
      ensures found <==> dir != ""
      ensures found ==> listFile == JoinPath(dir, "all_games.json") && tigDir == JoinPath(dir, "tigfiles/")
      ensures !found ==> listFile == old(listFile) && tigDir == old(tigDir)
      ensures Books() == old(Books())
    {
      dir := where;
      if dir == "" {
        dir := located;
      }
      if dir == "" {
        return false;
      }
      listFile := GetPath("all_games.json");
      tigDir := GetPath("tigfiles/");
      return true;
    }

    /** `getRating(id)`: the stored vote when it is one of 0 to 5, and -1
        for no vote or any other stored value. A stored value that is not a
        number makes `asInt` throw. */
    function GetRating(id: string): (r: Conv<int>)
      reads this
      ensures r.Ok? ==> r.value == -1 || 0 <= r.value <= 5
      ensures id !in rates ==> r == Ok(-1)
      ensures id in rates ==> (r.Throws? <==> AsInt(rates[id]).Throws?)
      ensures id in rates && AsInt(rates[id]).Ok? ==>
                r == (if 0 <= AsInt(rates[id]).value <= 5 then AsInt(rates[id]) else Ok(-1))
    {
      var res := GetInt(rates, id, -1);
      if res.Throws? then Throws
      else if res.value < 0 || res.value > 5 then Ok(-1)
      else res
    }

    /** `setRating(id, urlname, rate)`: a vote outside 0 to 5, or for a game
        already rated, changes nothing and sends nothing; otherwise the vote
        is stored, reads back, and is sent. */
    method SetRating(id: string, urlname: string, rate: int)
      modifies this
      ensures rate < 0 || rate > 5 || id in old(rates) ==> rates == old(rates) && sent == old(sent)
      ensures 0 <= rate <= 5 && id !in old(rates) ==>
                && rates == old(rates)[id := Int(rate)]
                && sent == old(sent) + [VoteUrl(urlname, rate)]
                && GetRating(id) == Ok(rate)
      ensures dir == old(dir) && listFile == old(listFile) && tigDir == old(tigDir)
      ensures conf == old(conf) && inst == old(inst) && news == old(news) && lastTime == old(lastTime)
    {
      if rate < 0 || rate > 5 {
        return;
      }
      if id in rates {
        return;
      }
      rates := rates[id := Int(rate)];
      var url := "http://tiggit.net/api/count/" + urlname + "&rate=";
      var rateCh := ('0' as int + rate) as char;
      url := url + [rateCh];
      sent := sent + [url];
    }

    /** `setInstallStatus(idname, status)`; the status reads back. */
    method SetInstallStatus(idname: string, status: int)
      requires InInt32(status)
      modifies this
      ensures inst == old(inst)[idname := Int(status)]
      ensures GetInt(inst, idname, 0) == Ok(status)
      ensures dir == old(dir) && listFile == old(listFile) && tigDir == old(tigDir)
      ensures conf == old(conf) && news == old(news) && rates == old(rates)
      ensures lastTime == old(lastTime) && sent == old(sent)
    {
      inst := inst[idname := Int(status)];
    }

    /** `setLastTime(val)`; `StoredLastTime` reads the time back from the
        store, as `LoadRates` does at the end of `initRepo`. */
    method SetLastTime(val: Configuration.Int64)
      modifies this
      ensures conf == old(conf)["last_time" := Int(val)]
      ensures StoredLastTime(conf) == Some(val as int)
      ensures dir == old(dir) && listFile == old(listFile) && tigDir == old(tigDir)
      ensures inst == old(inst) && news == old(news) && rates == old(rates)
      ensures lastTime == old(lastTime) && sent == old(sent)
    {
      conf := conf["last_time" := Int(val)];
    }

    /** The old install list merged into the install store, one name at a
        time. */
    method MergeInstalled(names: set<string>)
      modifies this
      ensures inst == Installed(old(inst), names)
      ensures dir == old(dir) && listFile == old(listFile) && tigDir == old(tigDir)
      ensures conf == old(conf) && news == old(news) && rates == old(rates)
      ensures lastTime == old(lastTime) && sent == old(sent)
    {
      var todo := names;
      ghost var done: set<string> := {};
      while todo != {}
        invariant done + todo == names
        invariant inst == Installed(old(inst), done)
        invariant dir == old(dir) && listFile == old(listFile) && tigDir == old(tigDir)
        invariant conf == old(conf) && news == old(news) && rates == old(rates)
        invariant lastTime == old(lastTime) && sent == old(sent)
        decreases |todo|
      {
        var n :| n in todo;
        InstalledOneMore(old(inst), done, n);
        if n !in inst {
          SetInstallStatus(n, 2);
        }
        todo := todo - {n};
        done := done + {n};
      }
    }

    /** The screenshot loop. The directory is listed once, when the
        iteration starts; `order` is the order the listing comes in. */
    static method RenameShots(disk: Disk<Conv<Doc>>, prefix: string) returns (ghost order: seq<string>)
      modifies disk
      ensures disk.files == ShotsRenamed(old(disk.files), prefix, order)
      ensures forall n :: n in order <==> n in EntriesIn(old(disk.files), ShotDir)
    {
      var todo := EntriesIn(disk.files, ShotDir);
      ghost var entries := todo;
      order := [];
      while todo != {}
        invariant todo <= entries
        invariant forall n :: n in order <==> n in entries && n !in todo
        invariant disk.files == ShotsRenamed(old(disk.files), prefix, order)
        decreases |todo|
      {
        var n :| n in todo;
        if disk.IsRegularFile(ShotDir + [n]) && !HasExtension(prefix + n) {
          SiblingsApart(ShotDir, n, n + ".png");
          var moved := disk.Rename(ShotDir + [n], ShotDir + [n + ".png"]);
        }
        order := order + [n];
        assert order[..|order| - 1] == order[..|order| - 1];
        todo := todo - {n};
      }
    }

    /** The conversion from the old install list on. */
    method ConvertData(disk: Disk<Conv<Doc>>) returns (ghost order: seq<string>)
      modifies this, disk
      ensures Stage(disk.files, conf, inst) == Converted(old(disk.files), old(conf), old(inst), ShotPrefix(dir), order)
      ensures dir == old(dir) && listFile == old(listFile) && tigDir == old(tigDir)
      ensures news == old(news) && rates == old(rates) && lastTime == old(lastTime) && sent == old(sent)
    {
      order := [];
      if disk.Exists(InstalledJson) {
        if !(disk.IsRegularFile(InstalledJson) && disk.files[InstalledJson].content.Ok?) {
          return;
        }
        MergeInstalled(disk.files[InstalledJson].content.value.Keys);
        // It loaded as a store, so it is a file and `remove` succeeds
        var removed := disk.Remove(InstalledJson);
      }
      if !IsDirectory(disk.files, ShotDir) {
        return;
      }
      order := RenameShots(disk, GetPath("cache/shot300x260/tiggit.net/"));
      if IsDirectory(disk.files, DataDir) && !disk.Exists(GamesDir) {
        LayoutApart();
        var moved := disk.Rename(DataDir, GamesDir);
      }
    }

    /** The options of the old configuration `legacy` move to their new
        places; false when a conversion throws, which ends the conversion. */
    method MoveOptions(disk: Disk<Conv<Doc>>, legacy: Doc) returns (ok: bool)
      modifies this, disk
      ensures var votes := VotesMoved(old(disk.files), legacy);
              var times := LastTimeMoved(old(conf), legacy);
              && ok == (votes.Ok? && times.Ok?)
              && disk.files == (if votes.Ok? then votes.value else old(disk.files))
              && conf == (if ok then times.value else old(conf))
      ensures dir == old(dir) && listFile == old(listFile) && tigDir == old(tigDir)
      ensures inst == old(inst) && news == old(news) && rates == old(rates)
      ensures lastTime == old(lastTime) && sent == old(sent)
    {
      if "vote_count" in legacy && !disk.Exists(WxConf) {
        var show := AsBool(legacy["vote_count"]);
        if show.Throws? {
          return false;
        }
        disk.Write(WxConf, Ok(map["show_votes" := Bool(show.value)]));
      }
      if "last_time" in legacy && "last_time" !in conf {
        var oldTime := AsInt(legacy["last_time"]);
        if oldTime.Throws? {
          return false;
        }
        SetLastTime(oldTime.value);
      }
      return true;
    }

    /** The conversion of an old repository: everything inside the
        `try` block, with an exception ending it early. */
    method Migrate(disk: Disk<Conv<Doc>>) returns (ghost order: seq<string>)
      modifies this, disk
      ensures Stage(disk.files, conf, inst) == Migration(old(disk.files), old(conf), old(inst), ShotPrefix(dir), order)
      ensures dir == old(dir) && listFile == old(listFile) && tigDir == old(tigDir)
      ensures news == old(news) && rates == old(rates) && lastTime == old(lastTime) && sent == old(sent)
    {
      order := [];
      if !(disk.IsRegularFile(OldConfig) && disk.files[OldConfig].content.Ok?) {
        return;
      }
      var legacy := disk.files[OldConfig].content.value;
      var converted := MoveOptions(disk, legacy);
      if !converted {
        return;
      }
      // It loaded as a store, so it is a file and `remove` succeeds
      var removed := disk.Remove(OldConfig);
      if disk.Exists(RatingsJson) && !disk.Exists(RatesConf) {
        LayoutApart();
        var moved := disk.Rename(RatingsJson, RatesConf);
      }
      order := ConvertData(disk);
    }

    /** `initRepo`: without the lock nothing is loaded or changed; with it
        the stores are loaded, an old repository is converted, and the
        rates store and the last update time are read. */
    method InitRepo(lockOk: bool, disk: Disk<Conv<Doc>>) returns (r: Conv<bool>, ghost order: seq<string>)
      modifies this, disk
      ensures !lockOk ==> r == Ok(false) && disk.files == old(disk.files) && Books() == old(Books())
      ensures lockOk && !Loads(old(disk.files)) ==> r.Throws? && disk.files == old(disk.files)
      ensures lockOk && Loads(old(disk.files)) ==>
                var t := old(disk.files);
                var s := if OldConfig in t
                         then Migration(t, LoadStore(t, ConfFile).value, LoadStore(t, InstFile).value, ShotPrefix(dir), order)
                         else Stage(t, LoadStore(t, ConfFile).value, LoadStore(t, InstFile).value);
                && disk.files == s.files && conf == s.conf && inst == s.inst
                && news == LoadStore(t, NewsFile).value
                && (r.Ok? <==> LoadStore(s.files, RatesConf).Ok?)
                && (r.Ok? ==> r.value && rates == LoadStore(s.files, RatesConf).value
                              && lastTime == StoredLastTime(conf).GetOr(old(lastTime)))
      ensures dir == old(dir) && listFile == old(listFile) && tigDir == old(tigDir) && sent == old(sent)
    {
      order := [];
      if !lockOk {
        return Ok(false), order;
      }
      var c := LoadStore(disk.files, ConfFile);
      var i := LoadStore(disk.files, InstFile);
      var n := LoadStore(disk.files, NewsFile);
      if c.Throws? || i.Throws? || n.Throws? {
        return Throws, order;
      }
      conf, inst, news := c.value, i.value, n.value;
      if disk.Exists(OldConfig) {
        order := Migrate(disk);
      }
      r := LoadRates(disk);
    }

    /** The end of `initRepo`: the rates store is loaded and the time of the
        last list update is read from the main store, when it has one. */
    method LoadRates(disk: Disk<Conv<Doc>>) returns (r: Conv<bool>)
      modifies this
      ensures r.Ok? <==> LoadStore(disk.files, RatesConf).Ok?
      ensures r.Ok? ==> r.value && rates == LoadStore(disk.files, RatesConf).value
                        && lastTime == StoredLastTime(conf).GetOr(old(lastTime))
      ensures dir == old(dir) && listFile == old(listFile) && tigDir == old(tigDir) && sent == old(sent)
      ensures conf == old(conf) && inst == old(inst) && news == old(news)
    {
      var rt := LoadStore(disk.files, RatesConf);
      if rt.Throws? {
        return Throws;
      }
      rates := rt.value;
      var stored := StoredLastTime(conf);
      if stored.Some? {
        lastTime := stored.value;
      }
      return Ok(true);
    }
  }

  /** The three stores `initRepo` loads first can be loaded. */
  predicate Loads(t: Tree<Conv<Doc>>) {
    LoadStore(t, ConfFile).Ok? && LoadStore(t, InstFile).Ok? && LoadStore(t, NewsFile).Ok?
  }
}
