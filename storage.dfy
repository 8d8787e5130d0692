/**
 * The filesystem as the album script sees it: a finite map from the paths
 * of regular files to their contents, and a set of directory paths. The
 * pure functions give the effect of each system call on a snapshot; the
 * class FileSystem performs them in place.
 */
module Storage {
  import opened PosixPath

  type Bytes = seq<bv8>

  datatype Tree = Tree(files: map<Path, Bytes>, dirs: set<Path>)

  /** `t` and `u` agree on whether `p` is a regular file and on its content. */
  predicate SameFileAt(t: Tree, u: Tree, p: Path) {
    (p in t.files <==> p in u.files) && (p in t.files ==> t.files[p] == u.files[p])
  }

  /** os.makedirs(p, exist_ok=True): `p` and its ancestors become directories; no file changes. */
  function WithDirs(t: Tree, p: Path): (r: Tree)
    ensures r.files == t.files
    ensures p in r.dirs && t.dirs <= r.dirs
    ensures r.dirs - t.dirs <= Lineage(p)
  {
    t.(dirs := t.dirs + Lineage(p))
  }

  /** os.remove(p) when it succeeds: `p` is no longer a file; nothing else changes. */
  function Removed(t: Tree, p: Path): (r: Tree)
    ensures p !in r.files && r.dirs == t.dirs
    ensures forall q :: q != p ==> SameFileAt(t, r, q)
  {
    t.(files := t.files - {p})
  }

  /** os.rename(src, dst): `dst` holds what `src` held and `src` is gone; no other path changes. */
  function Moved(t: Tree, src: Path, dst: Path): (r: Tree)
    requires src in t.files
    ensures dst in r.files && r.files[dst] == t.files[src]
    ensures src != dst ==> src !in r.files
    ensures forall q :: q != src && q != dst ==> SameFileAt(t, r, q)
    ensures r.files.Keys == t.files.Keys - {src} + {dst}
    ensures r.dirs == t.dirs
  {
    t.(files := (t.files - {src})[dst := t.files[src]])
  }

  /** shutil.copy2(src, dst): `dst` holds a copy of `src`; `src` and every other path are unchanged. */
  function Copied(t: Tree, src: Path, dst: Path): (r: Tree)
    requires src in t.files
    ensures dst in r.files && r.files[dst] == t.files[src]
    ensures SameFileAt(t, r, src) || src == dst
    ensures forall q :: q != dst ==> SameFileAt(t, r, q)
    ensures r.files.Keys == t.files.Keys + {dst}
    ensures r.dirs == t.dirs
  {
    t.(files := t.files[dst := t.files[src]])
  }

  /** The operating system's filesystem, changed in place by the calls the script makes. */
  class FileSystem {
    var files: map<Path, Bytes>
    var dirs: set<Path>

    constructor (t: Tree)
      ensures State() == t
    {
      files := t.files;
      dirs := t.dirs;
    }

    function State(): Tree
      reads this
    {
      Tree(files, dirs)
    }

    /** os.path.isfile */
    predicate IsFile(p: Path)
      reads this
    {
      p in files
    }

    /** os.path.isdir */
    predicate IsDir(p: Path)
      reads this
    {
      p in dirs
    }

    method MakeDirs(p: Path)
      modifies this
      ensures State() == WithDirs(old(State()), p)
    {
      dirs := dirs + Lineage(p);
    }

    /**
     * os.remove(p). It raises OSError when `p` is not a file or when the
     * system refuses (`denied`); the caller catches that as `ok == false`.
     */
    method Remove(p: Path, denied: bool) returns (ok: bool)
      modifies this
      ensures ok == (p in old(files) && !denied)
      ensures State() == if ok then Removed(old(State()), p) else old(State())
    {
      ok := p in files && !denied;
      if ok {
        files := files - {p};
      }
    }

    /** os.rename(src, dst); `ok == false` stands for the FileNotFoundError raised when `src` is missing. */
    method Rename(src: Path, dst: Path) returns (ok: bool)
      modifies this
      ensures ok == (src in old(files))
      ensures State() == if ok then Moved(old(State()), src, dst) else old(State())
    {
      ok := src in files;
      if ok {
        files := (files - {src})[dst := files[src]];
      }
    }

    /**
     * shutil.copy2(src, dst); `ok == false` stands for the error raised when
     * `src` is missing or is `dst` itself.
     */
    method Copy2(src: Path, dst: Path) returns (ok: bool)
      modifies this
      ensures ok == (src in old(files) && src != dst)
      ensures State() == if ok then Copied(old(State()), src, dst) else old(State())
    {
      ok := src in files && src != dst;
      if ok {
        files := files[dst := files[src]];
      }
    }
  }
}
