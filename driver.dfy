/**
 * organize_album_folder: run organize_album_file over every regular file
 * directly inside the staging directory, in the order the directory
 * listing yields them. An exception escaping from one file ends the run.
 */
module Driver {
  import opened PosixPath
  import opened Storage
  import opened Organizer

  /** A name os.scandir can yield: a single, non-empty path component. */
  predicate Entry(name: Path) {
    |name| > 0 && forall k :: 0 <= k < |name| ==> name[k] != '/'
  }

  /**
   * `names` is a listing of `dir` in `t`: distinct single components, each
   * naming a file or a directory inside `dir`, and every regular file
   * directly inside `dir` is among them.
   */
  ghost predicate IsListing(t: Tree, dir: Path, names: seq<Path>) {
    && (forall i :: 0 <= i < |names| ==> Entry(names[i]))
    && (forall i :: 0 <= i < |names| ==> Join(dir, names[i]) in t.files || Join(dir, names[i]) in t.dirs)
    && (forall i, j :: 0 <= i < j < |names| ==> names[i] != names[j])
    && (forall name :: Entry(name) && Join(dir, name) in t.files ==> name in names)
  }

  /**
   * The run over the listing `names` of `dir`, from filesystem `t`. `regular`
   * is the set of paths that were regular files when the directory was
   * scanned (DirEntry.is_file answers from the scan). The boolean is false
   * when an exception escaped and ended the run.
   */
  function OrganizedAll(regular: set<Path>, t: Tree, dir: Path, names: seq<Path>, albumDir: Path,
                        moveMode: bool, coverageMode: bool, env: Env): (bool, Tree)
    decreases |names|
  {
    if names == [] then (true, t)
    else
      var src := Join(dir, names[0]);
      if src !in regular then OrganizedAll(regular, t, dir, names[1..], albumDir, moveMode, coverageMode, env)
      else
        var r := Organized(t, src, albumDir, moveMode, coverageMode, env);
        if r.0 == Raised then (false, r.1)
        else OrganizedAll(regular, r.1, dir, names[1..], albumDir, moveMode, coverageMode, env)
  }

  /**
   * organize_album_folder. `names` is what os.scandir(organizeDir) yields.
   * The result is false when an exception from organize_album_file ended
   * the run early.
   */
  method OrganizeAlbumFolder(fs: FileSystem, organizeDir: Path, albumDir: Path, moveMode: bool,
                             coverageMode: bool, env: Env, names: seq<Path>)
    returns (completed: bool)
    requires fs.IsDir(organizeDir) ==> IsListing(fs.State(), organizeDir, names)
    modifies fs
    ensures !old(fs.IsDir(organizeDir)) ==> completed && fs.State() == old(fs.State())
    ensures old(fs.IsDir(organizeDir)) ==>
              (completed, fs.State())
              == OrganizedAll(old(fs.files).Keys, old(fs.State()), organizeDir, names, albumDir, moveMode, coverageMode, env)
  {
    if !fs.IsDir(organizeDir) {
      return true;
    }
    ghost var t := fs.State();
    var regular := fs.files.Keys;
    var i := 0;
    while i < |names|
      invariant 0 <= i <= |names|
      invariant OrganizedAll(regular, fs.State(), organizeDir, names[i..], albumDir, moveMode, coverageMode, env)
                == OrganizedAll(regular, t, organizeDir, names, albumDir, moveMode, coverageMode, env)
    {
      assert names[i..][1..] == names[i + 1..];
      var src := Join(organizeDir, names[i]);
      if src in regular {
        var r := OrganizeAlbumFile(fs, src, albumDir, moveMode, coverageMode, env);
        if r == Raised {
          return false;
        }
      }
      i := i + 1;
    }
    return true;
  }

  /** Preserve mode never raises: every run completes. */
  lemma {:induction false} PreserveModeCompletes(regular: set<Path>, t: Tree, dir: Path, names: seq<Path>,
                                                 albumDir: Path, moveMode: bool, env: Env)
    ensures OrganizedAll(regular, t, dir, names, albumDir, moveMode, false, env).0
    decreases |names|
  {
    if names != [] {
      var src := Join(dir, names[0]);
      var r := Organized(t, src, albumDir, moveMode, false, env);
      if src in regular && TimeOf(t, src, env) > 0 {
        TimedIsFile(t, src, env);
        PreserveKeepsEveryFile(t, src, TimeOf(t, src, env), albumDir, moveMode, env);
      }
      PreserveModeCompletes(regular, if src in regular then r.1 else t, dir, names[1..], albumDir, moveMode, env);
    }
  }

  /** Copying in preserve mode keeps every file that existed before the run, with its content. */
  lemma {:induction false} CopyPreserveKeepsEveryFile(regular: set<Path>, t: Tree, dir: Path, names: seq<Path>,
                                                      albumDir: Path, env: Env)
    ensures var u := OrganizedAll(regular, t, dir, names, albumDir, false, false, env).1;
            forall p :: p in t.files ==> p in u.files && u.files[p] == t.files[p]
    decreases |names|
  {
    if names != [] {
      var src := Join(dir, names[0]);
      var r := Organized(t, src, albumDir, false, false, env);
      var next := if src in regular then r.1 else t;
      if src in regular && TimeOf(t, src, env) > 0 {
        TimedIsFile(t, src, env);
        PreserveKeepsEveryFile(t, src, TimeOf(t, src, env), albumDir, false, env);
      }
      assert forall p :: p in t.files ==> p in next.files && next.files[p] == t.files[p];
      CopyPreserveKeepsEveryFile(regular, next, dir, names[1..], albumDir, env);
    }
  }

  /** Moving in preserve mode keeps the number of files: each file is relocated, none is lost. */
  lemma {:induction false} MovePreserveKeepsFileCount(regular: set<Path>, t: Tree, dir: Path, names: seq<Path>,
                                                      albumDir: Path, env: Env)
    ensures |OrganizedAll(regular, t, dir, names, albumDir, true, false, env).1.files| == |t.files|
    decreases |names|
  {
    if names != [] {
      var src := Join(dir, names[0]);
      var r := Organized(t, src, albumDir, true, false, env);
      if src in regular && TimeOf(t, src, env) > 0 {
        TimedIsFile(t, src, env);
        PreserveKeepsEveryFile(t, src, TimeOf(t, src, env), albumDir, true, env);
        PreserveFileCount(t, src, TimeOf(t, src, env), albumDir, true, env);
      }
      MovePreserveKeepsFileCount(regular, if src in regular then r.1 else t, dir, names[1..], albumDir, env);
    }
  }

  /** `p` names an entry directly inside `dir`: the join prefix of `dir` followed by one component. */
  predicate DirectlyIn(p: Path, dir: Path) {
    StartsWith(p, JoinPrefix(dir)) && '/' !in p[|JoinPrefix(dir)|..]
  }

  /**
   * A run changes files only directly inside the staging directory or under
   * album_dir, and never removes a directory.
   */
  lemma {:induction false} OrganizedAllFrame(regular: set<Path>, t: Tree, dir: Path, names: seq<Path>,
                                             albumDir: Path, moveMode: bool, coverageMode: bool, env: Env)
    requires forall i :: 0 <= i < |names| ==> Entry(names[i])
    ensures var u := OrganizedAll(regular, t, dir, names, albumDir, moveMode, coverageMode, env).1;
            && t.dirs <= u.dirs
            && forall p :: !DirectlyIn(p, dir) && !StartsWith(p, JoinPrefix(albumDir)) ==> SameFileAt(t, u, p)
    decreases |names|
  {
    if names != [] {
      var src := Join(dir, names[0]);
      assert !Absolute(names[0]) by {
        assert Entry(names[0]);
      }
      JoinRelative(dir, names[0]);
      assert src[|JoinPrefix(dir)|..] == names[0];
      assert DirectlyIn(src, dir);
      var r := Organized(t, src, albumDir, moveMode, coverageMode, env);
      var next := if src in regular then r.1 else t;
      if src in regular {
        OrganizedFrame(t, src, albumDir, moveMode, coverageMode, env);
      }
      if src in regular && r.0 == Raised {
      } else {
        OrganizedAllFrame(regular, next, dir, names[1..], albumDir, moveMode, coverageMode, env);
        var u := OrganizedAll(regular, next, dir, names[1..], albumDir, moveMode, coverageMode, env).1;
        forall p | !DirectlyIn(p, dir) && !StartsWith(p, JoinPrefix(albumDir))
          ensures SameFileAt(t, u, p)
        {
          assert SameFileAt(t, next, p);
          assert SameFileAt(next, u, p);
        }
      }
    }
  }

  /** Entries that were not regular files when scanned are passed over. */
  lemma SkipsNonFiles(regular: set<Path>, t: Tree, dir: Path, names: seq<Path>, name: Path,
                      albumDir: Path, moveMode: bool, coverageMode: bool, env: Env)
    requires Join(dir, name) !in regular
    ensures OrganizedAll(regular, t, dir, [name] + names, albumDir, moveMode, coverageMode, env)
            == OrganizedAll(regular, t, dir, names, albumDir, moveMode, coverageMode, env)
  {
    assert ([name] + names)[1..] == names;
  }

  /** A raise from one file ends the run: the rest of the listing is not visited. */
  lemma StopsAtRaise(regular: set<Path>, t: Tree, dir: Path, names: seq<Path>, name: Path,
                     albumDir: Path, moveMode: bool, coverageMode: bool, env: Env)
    requires Join(dir, name) in regular
    requires Organized(t, Join(dir, name), albumDir, moveMode, coverageMode, env).0 == Raised
    ensures OrganizedAll(regular, t, dir, [name] + names, albumDir, moveMode, coverageMode, env)
            == (false, Organized(t, Join(dir, name), albumDir, moveMode, coverageMode, env).1)
  {
  }
}
