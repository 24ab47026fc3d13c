/**
  The filesystem as the updater and the repository migration see it.

  A path is the sequence of its components, and a directory tree is a map
  from paths to nodes: a regular file with its content, or a directory.
  `Disk` holds the tree that the primitives (`remove`, `remove_all`,
  `copy_file`, `rename` and an archive extractor) change in place.
*/
module FileSystem {

  /** A path as the sequence of its components; `[]` is the empty path. */
  type Path = seq<string>

  datatype Node<T> = File(content: T) | Dir

  type Tree<T> = map<Path, Node<T>>

  /** `path::parent_path()`: everything but the last component. */
  function Parent(p: Path): Path {
    if p == [] then [] else p[..|p| - 1]
  }

  /** `path::leaf()`: the last component, or the empty name for `[]`. */
  function Leaf(p: Path): string {
    if p == [] then "" else p[|p| - 1]
  }

  /** `p` lies in the tree rooted at `root` (or is `root` itself). */
  predicate Within(root: Path, p: Path) {
    |root| <= |p| && p[..|root|] == root
  }

  /** A path is split back into its parent and its leaf. */
  lemma ParentAndLeaf(dir: Path, name: string)
    ensures Parent(dir + [name]) == dir && Leaf(dir + [name]) == name
    ensures Within(dir, dir + [name]) && !Within(dir + [name], dir)
  {
    assert (dir + [name])[..|dir|] == dir;
  }

  /** A regular file sits at `p`. */
  predicate IsFile<T>(t: Tree<T>, p: Path) {
    p in t && t[p].File?
  }

  /** Two trees agree at path `p`. */
  ghost predicate SameAt<T>(t: Tree<T>, u: Tree<T>, p: Path) {
    (p in t <==> p in u) && (p in t ==> t[p] == u[p])
  }

  /** What `remove_all(root)` leaves: the tree without `root` and everything below it. */
  function Pruned<T>(t: Tree<T>, root: Path): Tree<T> {
    map p | p in t && !Within(root, p) :: t[p]
  }

  /** The names of the entries of directory `dir`. */
  function EntriesIn<T>(t: Tree<T>, dir: Path): set<string> {
    set p | p in t && |p| == |dir| + 1 && p[..|dir|] == dir :: p[|dir|]
  }

  lemma EntryInDir<T>(t: Tree<T>, dir: Path, name: string)
    ensures name in EntriesIn(t, dir) <==> dir + [name] in t
  {
    var p := dir + [name];
    assert p[..|dir|] == dir && p[|dir|] == name;
    if name in EntriesIn(t, dir) {
      var q :| q in t && |q| == |dir| + 1 && q[..|dir|] == dir && q[|dir|] == name;
      assert q == p;
    }
  }

  /** `p` is a directory that still has entries, which `remove(p)` refuses. */
  predicate NonEmptyDir<T>(t: Tree<T>, p: Path) {
    p in t && t[p].Dir? && EntriesIn(t, p) != {}
  }

  /** Whether `p` is a non-empty directory depends only on what sits at `p`
      and directly inside it. */
  lemma NonEmptyDirAgrees<T>(t: Tree<T>, u: Tree<T>, p: Path)
    requires SameAt(t, u, p)
    requires forall name: string :: SameAt(t, u, p + [name])
    ensures NonEmptyDir(t, p) == NonEmptyDir(u, p)
  {
    forall name: string
      ensures name in EntriesIn(t, p) <==> name in EntriesIn(u, p)
    {
      EntryInDir(t, p, name);
      EntryInDir(u, p, name);
    }
    assert EntriesIn(t, p) == EntriesIn(u, p);
  }

  /** The tree after an archive has been unpacked into `dest`: `dest` is a
      directory and each archive member is a file directly inside it. */
  function Unpacked<T>(t: Tree<T>, dest: Path, members: map<string, T>): Tree<T> {
    assert forall n: string :: (dest + [n])[|dest|] == n;
    t[dest := Dir] + map n | n in members :: dest + [n] := File(members[n])
  }

  /** What `Unpacked` holds at one path: the archive's members directly
      inside `dest`, `dest` itself as a directory, the old tree elsewhere. */
  lemma UnpackedAt<T>(t: Tree<T>, dest: Path, members: map<string, T>, k: Path)
    ensures var u := Unpacked(t, dest, members);
            var member := |k| == |dest| + 1 && k[..|dest|] == dest && k[|dest|] in members;
            && (k in u <==> k in t || k == dest || member)
            && (member ==> u[k] == File(members[k[|dest|]]))
            && (k == dest ==> u[k] == Dir)
            && (!member && k != dest && k in t ==> u[k] == t[k])
  {
    if |k| == |dest| + 1 && k[..|dest|] == dest {
      assert k == dest + [k[|dest|]];
    }
  }

  /** Unpacking into `dest` leaves every path that is neither `dest` nor
      directly inside it as it was. */
  lemma UnpackedElsewhere<T>(t: Tree<T>, dest: Path, members: map<string, T>, k: Path)
    requires k != dest && Parent(k) != dest
    ensures SameAt(Unpacked(t, dest, members), t, k)
  {
    UnpackedAt(t, dest, members, k);
  }

  /** `remove_all(root)` leaves every path outside `root` as it was. */
  lemma PrunedElsewhere<T>(t: Tree<T>, root: Path, k: Path)
    requires !Within(root, k)
    ensures SameAt(Pruned(t, root), t, k)
  {
  }

  /** What `rename(from, to)` leaves: the subtree at `from` now sits at `to`,
      replacing whatever was at `to`. */
  function Moved<T>(t: Tree<T>, from: Path, to: Path): Tree<T>
    requires !Within(from, to)
  {
    var kept := map p | p in t && !Within(from, p) && !Within(to, p) :: t[p];
    var targets := set p | p in t && Within(from, p) :: to + p[|from|..];
    assert forall p: Path :: (to + p)[|to|..] == p;
    assert forall p | Within(from, p) :: from + p[|from|..] == p;
    kept + map k | k in targets :: t[from + k[|to|..]]
  }

  /** A rename leaves every path outside both subtrees as it was. */
  lemma MovedElsewhere<T>(t: Tree<T>, from: Path, to: Path, k: Path)
    requires !Within(from, to) && !Within(from, k) && !Within(to, k)
    ensures SameAt(Moved(t, from, to), t, k)
  {
    assert forall p: Path :: (to + p)[..|to|] == to;
  }

  /** After a rename the subtree sits at its new place. */
  lemma MovedTo<T>(t: Tree<T>, from: Path, to: Path, rest: Path)
    requires !Within(from, to) && from + rest in t
    ensures to + rest in Moved(t, from, to) && Moved(t, from, to)[to + rest] == t[from + rest]
  {
    var p := from + rest;
    var k := to + rest;
    assert Within(from, p) && p[|from|..] == rest;
    assert Within(to, k) && k[|to|..] == rest && from + k[|to|..] == p;
  }

  /** After a rename the entry itself sits at its new place. */
  lemma MovedWhole<T>(t: Tree<T>, from: Path, to: Path)
    requires !Within(from, to) && from in t
    ensures to in Moved(t, from, to) && Moved(t, from, to)[to] == t[from]
  {
    assert from + [] == from && to + [] == to;
    MovedTo(t, from, to, []);
  }

  /** After a rename nothing is left at the old place. */
  lemma MovedAway<T>(t: Tree<T>, from: Path, to: Path)
    requires !Within(from, to) && !Within(to, from)
    ensures from !in Moved(t, from, to)
  {
    assert forall p: Path :: (to + p)[..|to|] == to;
  }

  /** Two different entries of one directory lie outside each other. */
  lemma SiblingsApart(dir: Path, x: string, y: string)
    requires x != y
    ensures !Within(dir + [x], dir + [y]) && !Within(dir + [y], dir + [x])
  {
    assert (dir + [x])[|dir|] == x && (dir + [y])[|dir|] == y;
  }

  /** A path below an entry of `dir` is below `dir`. */
  lemma WithinEntry(dir: Path, x: string, k: Path)
    requires Within(dir + [x], k)
    ensures Within(dir, k)
  {
    assert k[..|dir|] == (dir + [x])[..|dir|];
  }

  class Disk<T> {
    var files: Tree<T>

    constructor (files: Tree<T>)
      ensures this.files == files
    {
      this.files := files;
    }

    /** `exists(p)`. */
    predicate Exists(p: Path)
      reads this
    {
      p in files
    }

    /** `is_regular_file(p)`. */
    predicate IsRegularFile(p: Path)
      reads this
    {
      IsFile(files, p)
    }

    /** Writing the file `p` with `content`, creating it if need be. */
    method Write(p: Path, content: T)
      modifies this
      ensures files == old(files)[p := File(content)]
    {
      files := files[p := File(content)];
    }

    /** `remove(p)`; it fails (throws) when `p` is a directory that still
        has entries. */
    method Remove(p: Path) returns (ok: bool)
      modifies this
      ensures ok == !old(NonEmptyDir(files, p))
      ensures files == if ok then old(files) - {p} else old(files)
    {
      ok := !NonEmptyDir(files, p);
      if ok {
        files := files - {p};
      }
    }

    /** `remove_all(p)`. */
    method RemoveAll(p: Path)
      modifies this
      ensures files == Pruned(old(files), p)
      ensures !Exists(p)
    {
      files := Pruned(files, p);
    }

    /** `copy_file(from, to)` when `to` does not exist; it fails (throws)
        when `from` is not a regular file. */
    method CopyFile(from: Path, to: Path) returns (ok: bool)
      modifies this
      ensures ok == old(IsRegularFile(from))
      ensures files == if ok then old(files)[to := old(files)[from]] else old(files)
    {
      ok := IsRegularFile(from);
      if ok {
        files := files[to := files[from]];
      }
    }

    /** `rename(from, to)`; it fails (throws) when `from` does not exist. */
    method Rename(from: Path, to: Path) returns (ok: bool)
      requires !Within(from, to)
      modifies this
      ensures ok == old(Exists(from))
      ensures files == if ok then Moved(old(files), from, to) else old(files)
    {
      ok := from in files;
      if ok {
        files := Moved(files, from, to);
      }
    }

    /** An archive extractor writing `members` into `dest`. */
    method Unpack(dest: Path, members: map<string, T>)
      modifies this
      ensures files == Unpacked(old(files), dest, members)
    {
      files := Unpacked(files, dest, members);
    }
  }
}
