/**
 * organize_album_file: file one media file under album_dir/YYYY/MM, either
 * renaming away from existing files (preserve mode) or replacing the file
 * of the same name (overwrite mode), by a move or a copy.
 */
module Organizer {
  import opened Wrappers
  import opened PosixPath
  import opened Decimal
  import opened Timestamps
  import opened Storage

  /** tm_year and tm_mon of time.localtime(stamp). */
  datatype CivilMonth = CivilMonth(year: nat, month: nat)

  /** How organize_album_file ends: a returned boolean, or an exception escaping from the transfer. */
  datatype Outcome = Returned(placed: bool) | Raised

  /** The foreign calls, as functions the model is given. */
  datatype Env = Env(
    isImage: Bytes -> bool,          // filetype.is_image, by content
    isVideo: Bytes -> bool,          // filetype.is_video, by content
    metadata: Bytes -> seq<Record>,  // the metadata reader's record list
    mtime: Path -> int,              // os.path.getmtime
    parse: DateParser,               // time.strptime followed by time.mktime
    localMonth: int -> CivilMonth,   // time.localtime
    removeDenied: Path -> bool)      // os.remove raises OSError on this path

  /** get_album_time(src) against the filesystem `t`. */
  function TimeOf(t: Tree, src: Path, env: Env): int {
    var content := if src in t.files then t.files[src] else [];
    AlbumTime(src in t.files, env.isImage(content), env.isVideo(content), env.metadata(content),
              env.parse, env.mtime(src))
  }

  /** album_dir/YYYY/MM with the year padded to four digits and the month to two. */
  function AlbumFolder(albumDir: Path, when: CivilMonth): Path {
    Join(Join(albumDir, ZeroPad(when.year, 4)), ZeroPad(when.month, 2))
  }

  /** The month folder is album_dir, a '/', the padded year, a '/', and the padded month. */
  lemma AlbumFolderLayout(albumDir: Path, when: CivilMonth)
    ensures AlbumFolder(albumDir, when) == JoinPrefix(albumDir) + ZeroPad(when.year, 4) + "/" + ZeroPad(when.month, 2)
  {
    PaddedComponent(when.year, 4);
    PaddedComponent(when.month, 2);
    JoinComponents(albumDir, ZeroPad(when.year, 4), ZeroPad(when.month, 2));
  }

  /** A zero-padded number is a relative path component that does not end in '/'. */
  lemma PaddedComponent(n: nat, width: nat)
    ensures var s := ZeroPad(n, width);
            |s| > 0 && !Absolute(s) && s[|s| - 1] != '/'
  {
    var s := ZeroPad(n, width);
    assert IsDigit(s[0]) && IsDigit(s[|s| - 1]);
  }

  /** A name and extension as splitext leaves them for a basename: neither holds a '/'. */
  predicate PlainParts(name: Path, ext: Path) {
    '/' !in name && '/' !in ext
  }

  /** The candidate file name for probe `count`: name.ext first, then name_1.ext, name_2.ext, ... */
  function CandidateName(name: Path, ext: Path, count: nat): Path {
    if count == 0 then name + ext else name + "_" + Digits(count) + ext
  }

  function Candidate(folder: Path, name: Path, ext: Path, count: nat): Path {
    Join(folder, CandidateName(name, ext, count))
  }

  /** The basename split as splitext(basename(src)) does it. */
  function NameParts(src: Path): (r: (Path, Path))
    ensures r.0 + r.1 == Basename(src)
    ensures PlainParts(r.0, r.1)
  {
    var b := Basename(src);
    var r := SplitExt(b);
    PiecesOfPlain(r.0, r.1, b);
    r
  }

  /** The pieces of a '/'-free string are '/'-free. */
  lemma PiecesOfPlain(a: Path, c: Path, b: Path)
    requires a + c == b && '/' !in b
    ensures PlainParts(a, c)
  {
    assert forall k :: 0 <= k < |a| ==> a[k] == b[k];
    assert forall k :: 0 <= k < |c| ==> c[k] == b[|a| + k];
  }

  /**
   * A file dir/name.ext, with a one-dot extension and a name that is not
   * all dots, splits back into name and extension.
   */
  lemma NamePartsOfJoined(dir: Path, name: Path, ext: Path)
    requires (exists k :: 0 <= k < |name| && name[k] != '.') && '/' !in name
    requires |ext| > 0 && ext[0] == '.' && '/' !in ext && '.' !in ext[1..]
    ensures NameParts(dir + "/" + (name + ext)) == (name, ext)
  {
    assert '/' !in name + ext;
    BasenameAfterSlash(dir, name + ext);
    SplitExtOfJoined(name, ext);
  }

  lemma CandidateNameRelative(name: Path, ext: Path, count: nat)
    requires PlainParts(name, ext)
    ensures !Absolute(CandidateName(name, ext, count))
  {
    var c := CandidateName(name, ext, count);
    if |name| > 0 {
      assert c[0] == name[0] && name[0] in name;
    } else if count == 0 {
      assert c == ext;
      assert |ext| > 0 ==> ext[0] in ext;
    } else {
      assert c[0] == '_';
    }
  }

  /** Different probe counts give different candidate names. */
  lemma CandidateNameInjective(name: Path, ext: Path, i: nat, j: nat)
    requires i < j
    ensures CandidateName(name, ext, i) != CandidateName(name, ext, j)
  {
    var ci, cj := CandidateName(name, ext, i), CandidateName(name, ext, j);
    if ci == cj && i > 0 {
      var lo := |name| + 1;
      assert Digits(i) == ci[lo..|ci| - |ext|];
      assert Digits(j) == cj[lo..|cj| - |ext|];
      DigitsInjective(i, j);
    }
  }

  /** Different probe counts give different candidate paths. */
  lemma CandidateInjective(folder: Path, name: Path, ext: Path, i: nat, j: nat)
    requires PlainParts(name, ext) && i < j
    ensures Candidate(folder, name, ext, i) != Candidate(folder, name, ext, j)
  {
    CandidateNameRelative(name, ext, i);
    CandidateNameRelative(name, ext, j);
    CandidateNameInjective(name, ext, i, j);
    JoinInjective(folder, CandidateName(name, ext, i), CandidateName(name, ext, j));
  }

  lemma {:induction false} CandidateSetSize(folder: Path, name: Path, ext: Path, n: nat)
    requires PlainParts(name, ext)
    ensures |set j | 0 <= j < n :: Candidate(folder, name, ext, j)| == n
  {
    if n > 0 {
      var s := set j | 0 <= j < n - 1 :: Candidate(folder, name, ext, j);
      var s' := set j | 0 <= j < n :: Candidate(folder, name, ext, j);
      assert s' == s + {Candidate(folder, name, ext, n - 1)};
      forall j | 0 <= j < n - 1
        ensures Candidate(folder, name, ext, j) != Candidate(folder, name, ext, n - 1)
      {
        CandidateInjective(folder, name, ext, j, n - 1);
      }
      CandidateSetSize(folder, name, ext, n - 1);
    }
  }

  /** If the first `n` candidates are all existing files, there are at least `n` files. */
  lemma CandidatesBounded(files: set<Path>, folder: Path, name: Path, ext: Path, n: nat)
    requires PlainParts(name, ext)
    requires forall j :: 0 <= j < n ==> Candidate(folder, name, ext, j) in files
    ensures n <= |files|
  {
    var s := set j | 0 <= j < n :: Candidate(folder, name, ext, j);
    CandidateSetSize(folder, name, ext, n);
    assert s <= files;
    assert |s| <= |files| by {
      SubsetCard(s, files);
    }
  }

  lemma {:induction false} SubsetCard(a: set<Path>, b: set<Path>)
    requires a <= b
    ensures |a| <= |b|
  {
    if a != {} {
      var x :| x in a;
      SubsetCard(a - {x}, b - {x});
    }
  }

  /**
   * The count the preserve-mode probe stops at: the least count from `from`
   * on whose candidate is not an existing file.
   */
  function FreeIndex(files: set<Path>, folder: Path, name: Path, ext: Path, from: nat): (k: nat)
    requires PlainParts(name, ext)
    requires forall j :: 0 <= j < from ==> Candidate(folder, name, ext, j) in files
    ensures from <= k
    ensures Candidate(folder, name, ext, k) !in files
    ensures forall j :: 0 <= j < k ==> Candidate(folder, name, ext, j) in files
    decreases |files| - from
  {
    if Candidate(folder, name, ext, from) !in files then from
    else
      CandidatesBounded(files, folder, name, ext, from + 1);
      FreeIndex(files, folder, name, ext, from + 1)
  }

  /** The least free count is unique: any count with the same two properties is FreeIndex's. */
  lemma FreeIndexIsLeast(files: set<Path>, folder: Path, name: Path, ext: Path, k: nat)
    requires PlainParts(name, ext)
    requires Candidate(folder, name, ext, k) !in files
    requires forall j :: 0 <= j < k ==> Candidate(folder, name, ext, j) in files
    ensures FreeIndex(files, folder, name, ext, 0) == k
  {
    var f := FreeIndex(files, folder, name, ext, 0);
  }

  /** The path the file is transferred to, given the files present after the folder exists. */
  function Target(files: set<Path>, folder: Path, src: Path, coverageMode: bool): (r: Path)
    ensures !coverageMode ==> r !in files
  {
    var parts := NameParts(src);
    if coverageMode then Candidate(folder, parts.0, parts.1, 0)
    else Candidate(folder, parts.0, parts.1, FreeIndex(files, folder, parts.0, parts.1, 0))
  }

  /** The folder creation step: makedirs only runs when the folder is not yet a directory. */
  function Prepared(t: Tree, folder: Path): Tree {
    if folder in t.dirs then t else WithDirs(t, folder)
  }

  /** os.rename or shutil.copy2; a failing call raises out of organize_album_file. */
  function Transfer(t: Tree, src: Path, dst: Path, moveMode: bool): (r: (Outcome, Tree))
    ensures r.1.dirs == t.dirs
    ensures src !in t.files || (!moveMode && src == dst) ==> r == (Raised, t)
    ensures src in t.files && (moveMode || src != dst) ==>
              && r.0 == Returned(true)
              && dst in r.1.files && r.1.files[dst] == t.files[src]
              && (src in r.1.files <==> !moveMode || src == dst)
              && (!moveMode ==> r.1.files[src] == t.files[src])
              && forall q :: q != src && q != dst ==> SameFileAt(t, r.1, q)
  {
    if src !in t.files || (!moveMode && src == dst) then (Raised, t)
    else if moveMode then (Returned(true), Moved(t, src, dst))
    else (Returned(true), Copied(t, src, dst))
  }

  /** The whole of organize_album_file as a function of the filesystem before the call. */
  function Organized(t: Tree, src: Path, albumDir: Path, moveMode: bool, coverageMode: bool, env: Env): (Outcome, Tree) {
    PlaceAt(t, src, TimeOf(t, src, env), albumDir, moveMode, coverageMode, env)
  }

  /** organize_album_file from the moment get_album_time has returned `stamp`. */
  function PlaceAt(t: Tree, src: Path, stamp: int, albumDir: Path, moveMode: bool, coverageMode: bool, env: Env): (Outcome, Tree) {
    if stamp <= 0 then (Returned(false), t)
    else
      var folder := AlbumFolder(albumDir, env.localMonth(stamp));
      var t1 := Prepared(t, folder);
      var target := Target(t1.files.Keys, folder, src, coverageMode);
      if coverageMode && target in t1.files && env.removeDenied(target) then (Returned(true), t1)
      else
        var t2 := if coverageMode && target in t1.files then Removed(t1, target) else t1;
        Transfer(t2, src, target, moveMode)
  }

  /** The preserve-mode probe loop: count up from 0 while the candidate is an existing regular file. */
  method ProbeFreeName(fs: FileSystem, timePath: Path, fileName: Path, fileExtension: Path)
    returns (count: nat, targetPath: Path)
    requires PlainParts(fileName, fileExtension)
    ensures count == FreeIndex(fs.files.Keys, timePath, fileName, fileExtension, 0)
    ensures targetPath == Candidate(timePath, fileName, fileExtension, count)
  {
    count := 0;
    targetPath := Join(timePath, fileName + fileExtension);
    while true
      invariant targetPath == Candidate(timePath, fileName, fileExtension, if count == 0 then 0 else count - 1)
      invariant forall j :: 0 <= j < count ==> Candidate(timePath, fileName, fileExtension, j) in fs.files
      decreases |fs.files.Keys| - count
    {
      if count > 0 {
        targetPath := Join(timePath, fileName + "_" + Digits(count) + fileExtension);
      }
      if fs.IsFile(targetPath) {
        CandidatesBounded(fs.files.Keys, timePath, fileName, fileExtension, count + 1);
        count := count + 1;
      } else {
        break;
      }
    }
    FreeIndexIsLeast(fs.files.Keys, timePath, fileName, fileExtension, count);
  }

  /** os.rename(src, dst) in move mode, shutil.copy2(src, dst) otherwise. */
  method TransferFile(fs: FileSystem, src: Path, dst: Path, moveMode: bool) returns (r: Outcome)
    modifies fs
    ensures (r, fs.State()) == Transfer(old(fs.State()), src, dst, moveMode)
  {
    var ok;
    if moveMode {
      ok := fs.Rename(src, dst);
    } else {
      ok := fs.Copy2(src, dst);
    }
    r := if ok then Returned(true) else Raised;
  }

  /** organize_album_file, performing its system calls on `fs` in the order the script does. */
  method OrganizeAlbumFile(fs: FileSystem, src: Path, albumDir: Path, moveMode: bool, coverageMode: bool, env: Env)
    returns (r: Outcome)
    modifies fs
    ensures (r, fs.State()) == Organized(old(fs.State()), src, albumDir, moveMode, coverageMode, env)
  {
    ghost var t := fs.State();
    var content := if fs.IsFile(src) then fs.files[src] else [];
    var timeStamp := GetAlbumTime(fs.IsFile(src), env.isImage(content), env.isVideo(content),
                                  env.metadata(content), env.parse, env.mtime(src));
    assert timeStamp == TimeOf(t, src, env);
    if timeStamp <= 0 {
      return Returned(false);
    }
    var timePath := AlbumFolder(albumDir, env.localMonth(timeStamp));
    if !fs.IsDir(timePath) {
      fs.MakeDirs(timePath);
    }
    ghost var t1 := fs.State();
    assert t1 == Prepared(t, timePath);
    var parts := NameParts(src);
    var fileName, fileExtension := parts.0, parts.1;
    if coverageMode {
      var targetPath := Join(timePath, fileName + fileExtension);
      assert targetPath == Target(t1.files.Keys, timePath, src, coverageMode);
      var removed := true;
      if fs.IsFile(targetPath) {
        removed := fs.Remove(targetPath, env.removeDenied(targetPath));
      }
      if removed {
        r := TransferFile(fs, src, targetPath, moveMode);
      } else {
        r := Returned(true);
      }
    } else {
      var count, targetPath := ProbeFreeName(fs, timePath, fileName, fileExtension);
      assert targetPath == Target(t1.files.Keys, timePath, src, coverageMode);
      r := TransferFile(fs, src, targetPath, moveMode);
    }
  }

  /** The intermediate states of PlaceAt when the timestamp is usable. */
  lemma PlaceSteps(t: Tree, src: Path, stamp: int, albumDir: Path, moveMode: bool, coverageMode: bool, env: Env)
      returns (folder: Path, t1: Tree, target: Path, t2: Tree)
    requires stamp > 0
    ensures folder == AlbumFolder(albumDir, env.localMonth(stamp))
    ensures t1 == Prepared(t, folder) && t1.files == t.files && folder in t1.dirs
    ensures t.dirs <= t1.dirs && t1.dirs - t.dirs <= Lineage(folder)
    ensures target == Target(t.files.Keys, folder, src, coverageMode)
    ensures t2 == if coverageMode && target in t1.files then Removed(t1, target) else t1
    ensures PlaceAt(t, src, stamp, albumDir, moveMode, coverageMode, env)
         == if coverageMode && target in t1.files && env.removeDenied(target) then (Returned(true), t1)
            else Transfer(t2, src, target, moveMode)
  {
    folder := AlbumFolder(albumDir, env.localMonth(stamp));
    t1 := Prepared(t, folder);
    target := Target(t1.files.Keys, folder, src, coverageMode);
    t2 := if coverageMode && target in t1.files then Removed(t1, target) else t1;
  }

  /** Only the source and the target can change. */
  lemma PlaceTouchesOnly(t: Tree, src: Path, stamp: int, albumDir: Path, moveMode: bool, coverageMode: bool, env: Env)
      returns (target: Path)
    requires stamp > 0
    ensures target == Target(t.files.Keys, AlbumFolder(albumDir, env.localMonth(stamp)), src, coverageMode)
    ensures forall p :: p != src && p != target ==> SameFileAt(t, PlaceAt(t, src, stamp, albumDir, moveMode, coverageMode, env).1, p)
  {
    var folder, t1, t2;
    folder, t1, target, t2 := PlaceSteps(t, src, stamp, albumDir, moveMode, coverageMode, env);
    if coverageMode && target in t1.files && env.removeDenied(target) {
      FrameUnchanged(t, t1, src, target);
    } else {
      RemovalFrame(t, t1, target, coverageMode);
      TransferFrame(t, t2, src, target, moveMode);
    }
  }

  lemma RemovalFrame(t: Tree, t1: Tree, target: Path, coverageMode: bool)
    requires t1.files == t.files
    ensures var t2 := if coverageMode && target in t1.files then Removed(t1, target) else t1;
            forall p :: p != target ==> SameFileAt(t, t2, p)
  {
  }

  lemma FrameUnchanged(t: Tree, u: Tree, src: Path, target: Path)
    requires u.files == t.files
    ensures forall p :: p != src && p != target ==> SameFileAt(t, u, p)
  {
  }

  lemma TransferFrame(t: Tree, t2: Tree, src: Path, target: Path, moveMode: bool)
    requires forall p :: p != target ==> SameFileAt(t, t2, p)
    ensures forall p :: p != src && p != target ==> SameFileAt(t, Transfer(t2, src, target, moveMode).1, p)
  {
    var u := Transfer(t2, src, target, moveMode).1;
    forall p | p != src && p != target
      ensures SameFileAt(t, u, p)
    {
      assert SameFileAt(t, t2, p);
      assert SameFileAt(t2, u, p);
    }
  }

  /** A file with no usable timestamp is skipped: False, and the filesystem is untouched. */
  lemma UnknownTimeChangesNothing(t: Tree, src: Path, albumDir: Path, moveMode: bool, coverageMode: bool, env: Env)
    requires TimeOf(t, src, env) <= 0
    ensures Organized(t, src, albumDir, moveMode, coverageMode, env) == (Returned(false), t)
  {
  }

  /** A path that is not a regular file, or a file that is neither image nor video, is never placed. */
  lemma NonMediaNeverPlaced(t: Tree, src: Path, albumDir: Path, moveMode: bool, coverageMode: bool, env: Env)
    requires src !in t.files || (!env.isImage(t.files[src]) && !env.isVideo(t.files[src]))
    ensures Organized(t, src, albumDir, moveMode, coverageMode, env) == (Returned(false), t)
  {
    var content := if src in t.files then t.files[src] else [];
    UnknownUnlessMedia(src in t.files, env.isImage(content), env.isVideo(content), env.metadata(content),
                       env.parse, env.mtime(src));
  }

  /** A usable timestamp is only ever found for a regular file, so placement always starts from an existing source. */
  lemma TimedIsFile(t: Tree, src: Path, env: Env)
    requires TimeOf(t, src, env) > 0
    ensures src in t.files
  {
  }

  /** With a usable timestamp the month folder exists afterwards; directories are only added, and only along its path. */
  lemma FolderExistsAfter(t: Tree, src: Path, stamp: int, albumDir: Path, moveMode: bool, coverageMode: bool, env: Env)
    requires stamp > 0
    ensures var folder := AlbumFolder(albumDir, env.localMonth(stamp));
            var u := PlaceAt(t, src, stamp, albumDir, moveMode, coverageMode, env).1;
            folder in u.dirs && t.dirs <= u.dirs && u.dirs - t.dirs <= Lineage(folder)
  {
    var folder, t1, target, t2 := PlaceSteps(t, src, stamp, albumDir, moveMode, coverageMode, env);
    assert PlaceAt(t, src, stamp, albumDir, moveMode, coverageMode, env).1.dirs == t1.dirs;
  }

  /** The overwrite target and the first preserve candidate are the source's basename in the month folder. */
  lemma BaseTargetIsBasename(files: set<Path>, folder: Path, src: Path)
    ensures Target(files, folder, src, true) == Join(folder, Basename(src))
    ensures Candidate(folder, NameParts(src).0, NameParts(src).1, 0) == Join(folder, Basename(src))
  {
  }

  /** Every target lies directly inside the month folder, so under album_dir. */
  lemma TargetInFolder(files: set<Path>, albumDir: Path, when: CivilMonth, src: Path, coverageMode: bool)
    ensures var folder := AlbumFolder(albumDir, when);
            var target := Target(files, folder, src, coverageMode);
            && StartsWith(target, folder + "/")
            && '/' !in target[|folder| + 1..]
            && StartsWith(target, JoinPrefix(albumDir))
  {
    var folder := AlbumFolder(albumDir, when);
    FolderShape(albumDir, when);
    var parts := NameParts(src);
    var k := if coverageMode then 0 else FreeIndex(files, folder, parts.0, parts.1, 0);
    var name := CandidateName(parts.0, parts.1, k);
    CandidateNameRelative(parts.0, parts.1, k);
    JoinRelative(folder, name);
    var target := Target(files, folder, src, coverageMode);
    assert target == folder + "/" + name;
    CandidateNamePlain(parts.0, parts.1, k);
    assert target[|folder| + 1..] == name;
    PrefixOfPrefix(target, folder + "/", JoinPrefix(albumDir));
  }

  /** A candidate name is a single path component. */
  lemma CandidateNamePlain(name: Path, ext: Path, count: nat)
    requires PlainParts(name, ext)
    ensures '/' !in CandidateName(name, ext, count)
  {
    if count > 0 {
      var d := Digits(count);
      assert forall i :: 0 <= i < |d| ==> d[i] != '/' by {
        assert AllDigits(d);
      }
    }
  }

  /** The month folder is a non-empty path under album_dir that does not end in '/'. */
  lemma FolderShape(albumDir: Path, when: CivilMonth)
    ensures var folder := AlbumFolder(albumDir, when);
            JoinPrefix(folder) == folder + "/" && StartsWith(folder + "/", JoinPrefix(albumDir))
  {
    AlbumFolderLayout(albumDir, when);
    PaddedComponent(when.month, 2);
    PrefixShape(JoinPrefix(albumDir), ZeroPad(when.year, 4), ZeroPad(when.month, 2));
  }

  lemma PrefixShape(pre: Path, middle: Path, last: Path)
    requires |last| > 0 && last[|last| - 1] != '/'
    ensures var p := pre + middle + "/" + last;
            JoinPrefix(p) == p + "/" && StartsWith(p + "/", pre)
  {
    var p := pre + middle + "/" + last;
    assert p[|p| - 1] == last[|last| - 1];
    assert (p + "/")[..|pre|] == pre;
  }

  lemma PrefixOfPrefix(p: Path, q: Path, r: Path)
    requires StartsWith(p, q) && StartsWith(q, r)
    ensures StartsWith(p, r)
  {
    assert p[..|r|] == q[..|r|];
  }

  /**
   * Preserve mode: the file goes to a candidate name that is not an
   * existing file, no file that existed before loses its content (only a
   * moved source disappears), and nothing but the source and the target
   * changes.
   */
  lemma PreserveKeepsEveryFile(t: Tree, src: Path, stamp: int, albumDir: Path, moveMode: bool, env: Env)
    requires stamp > 0 && src in t.files
    ensures var folder := AlbumFolder(albumDir, env.localMonth(stamp));
            var target := Target(t.files.Keys, folder, src, false);
            var r := PlaceAt(t, src, stamp, albumDir, moveMode, false, env);
            && r.0 == Returned(true)
            && target !in t.files && target != src
            && target in r.1.files && r.1.files[target] == t.files[src]
            && (forall p :: p in t.files && (p != src || !moveMode) ==> p in r.1.files && r.1.files[p] == t.files[p])
            && (moveMode ==> src !in r.1.files)
            && (forall p :: p != src && p != target ==> SameFileAt(t, r.1, p))
  {
    var folder, t1, target, t2 := PlaceSteps(t, src, stamp, albumDir, moveMode, false, env);
    var r := PlaceAt(t, src, stamp, albumDir, moveMode, false, env);
    assert t2 == t1 && target !in t1.files && target != src;
    assert r == Transfer(t1, src, target, moveMode);
    var _ := PlaceTouchesOnly(t, src, stamp, albumDir, moveMode, false, env);
    forall p | p in t.files && (p != src || !moveMode)
      ensures p in r.1.files && r.1.files[p] == t.files[p]
    {
      if p != src {
        assert SameFileAt(t, r.1, p);
      }
    }
  }

  /**
   * Preserve mode picks count k exactly when name.ext and name_1.ext up to
   * name_(k-1).ext are existing files and the k-th candidate is not: the file
   * lands there and every earlier candidate keeps its content.
   */
  lemma PreserveUsesLeastFreeCandidate(t: Tree, src: Path, stamp: int, albumDir: Path, moveMode: bool, env: Env, k: nat)
    requires stamp > 0 && src in t.files
    requires var folder := AlbumFolder(albumDir, env.localMonth(stamp));
             && Candidate(folder, NameParts(src).0, NameParts(src).1, k) !in t.files
             && forall j :: 0 <= j < k ==> Candidate(folder, NameParts(src).0, NameParts(src).1, j) in t.files
    ensures var folder := AlbumFolder(albumDir, env.localMonth(stamp));
            var r := PlaceAt(t, src, stamp, albumDir, moveMode, false, env);
            var chosen := Candidate(folder, NameParts(src).0, NameParts(src).1, k);
            && chosen in r.1.files && r.1.files[chosen] == t.files[src]
            && forall j :: 0 <= j < k ==>
                 var earlier := Candidate(folder, NameParts(src).0, NameParts(src).1, j);
                 (earlier == src && moveMode) || (earlier in r.1.files && r.1.files[earlier] == t.files[earlier])
  {
    var folder := AlbumFolder(albumDir, env.localMonth(stamp));
    FreeIndexIsLeast(t.files.Keys, folder, NameParts(src).0, NameParts(src).1, k);
    PreserveKeepsEveryFile(t, src, stamp, albumDir, moveMode, env);
  }

  /** Preserve mode never drops a file: a move keeps the number of files, a copy adds one. */
  lemma PreserveFileCount(t: Tree, src: Path, stamp: int, albumDir: Path, moveMode: bool, env: Env)
    requires stamp > 0 && src in t.files
    ensures |PlaceAt(t, src, stamp, albumDir, moveMode, false, env).1.files| == |t.files| + (if moveMode then 0 else 1)
  {
    var folder, t1, target, t2 := PlaceSteps(t, src, stamp, albumDir, moveMode, false, env);
    var u := PlaceAt(t, src, stamp, albumDir, moveMode, false, env).1;
    assert target !in t.files && target != src;
    if moveMode {
      assert u == Moved(t1, src, target);
      assert |t.files.Keys - {src}| == |t.files.Keys| - 1;
    } else {
      assert u == Copied(t1, src, target);
    }
  }

  /** Overwrite mode: when removing the existing target fails, nothing is transferred, yet True is returned. */
  lemma OverwriteRemovalFailure(t: Tree, src: Path, stamp: int, albumDir: Path, moveMode: bool, env: Env)
    requires stamp > 0
    requires var target := Join(AlbumFolder(albumDir, env.localMonth(stamp)), Basename(src));
             target in t.files && env.removeDenied(target)
    ensures var r := PlaceAt(t, src, stamp, albumDir, moveMode, true, env);
            r.0 == Returned(true) && r.1.files == t.files
  {
    var folder, t1, target, t2 := PlaceSteps(t, src, stamp, albumDir, moveMode, true, env);
    BaseTargetIsBasename(t1.files.Keys, folder, src);
  }

  /**
   * Overwrite mode, when the source already sits at its own target (the
   * staging folder is the month folder): the source is removed as "the
   * existing target", the transfer then raises, and the file is gone.
   */
  lemma OverwriteOfItselfLosesSource(t: Tree, src: Path, stamp: int, albumDir: Path, moveMode: bool, env: Env)
    requires stamp > 0 && src in t.files
    requires Join(AlbumFolder(albumDir, env.localMonth(stamp)), Basename(src)) == src && !env.removeDenied(src)
    ensures var r := PlaceAt(t, src, stamp, albumDir, moveMode, true, env);
            && r.0 == Raised && src !in r.1.files
            && forall p :: p != src ==> SameFileAt(t, r.1, p)
  {
    var folder, t1, target, t2 := PlaceSteps(t, src, stamp, albumDir, moveMode, true, env);
    BaseTargetIsBasename(t1.files.Keys, folder, src);
    var _ := PlaceTouchesOnly(t, src, stamp, albumDir, moveMode, true, env);
  }

  /**
   * Overwrite mode, otherwise: the basename in the month folder holds the
   * source's content afterwards (replacing any file there), the source
   * survives exactly in copy mode, and no other path changes.
   */
  lemma OverwriteReplacesTarget(t: Tree, src: Path, stamp: int, albumDir: Path, moveMode: bool, env: Env)
    requires stamp > 0 && src in t.files
    requires var target := Join(AlbumFolder(albumDir, env.localMonth(stamp)), Basename(src));
             target != src && !(target in t.files && env.removeDenied(target))
    ensures var target := Join(AlbumFolder(albumDir, env.localMonth(stamp)), Basename(src));
            var r := PlaceAt(t, src, stamp, albumDir, moveMode, true, env);
            && r.0 == Returned(true)
            && target in r.1.files && r.1.files[target] == t.files[src]
            && (src in r.1.files <==> !moveMode)
            && (!moveMode ==> r.1.files[src] == t.files[src])
            && forall p :: p != src && p != target ==> SameFileAt(t, r.1, p)
  {
    var folder, t1, target, t2 := PlaceSteps(t, src, stamp, albumDir, moveMode, true, env);
    BaseTargetIsBasename(t1.files.Keys, folder, src);
    ReplacingTransfer(t, t1, t2, src, target, moveMode);
  }

  /** The transfer after the existing target, if any, has been removed. */
  lemma ReplacingTransfer(t: Tree, t1: Tree, t2: Tree, src: Path, target: Path, moveMode: bool)
    requires t1.files == t.files && src in t.files && target != src
    requires t2 == if target in t1.files then Removed(t1, target) else t1
    ensures var r := Transfer(t2, src, target, moveMode);
            && r.0 == Returned(true)
            && target in r.1.files && r.1.files[target] == t.files[src]
            && (src in r.1.files <==> !moveMode)
            && (!moveMode ==> r.1.files[src] == t.files[src])
            && forall p :: p != src && p != target ==> SameFileAt(t, r.1, p)
  {
    assert src in t2.files && t2.files[src] == t.files[src];
    RemovalFrame(t, t1, target, true);
    TransferFrame(t, t2, src, target, moveMode);
  }

  /** Only the source and paths under album_dir can change; directories are never removed. */
  lemma OrganizedFrame(t: Tree, src: Path, albumDir: Path, moveMode: bool, coverageMode: bool, env: Env)
    ensures var u := Organized(t, src, albumDir, moveMode, coverageMode, env).1;
            && t.dirs <= u.dirs
            && forall p :: p != src && !StartsWith(p, JoinPrefix(albumDir)) ==> SameFileAt(t, u, p)
  {
    var stamp := TimeOf(t, src, env);
    if stamp > 0 {
      PlaceFrame(t, src, stamp, albumDir, moveMode, coverageMode, env);
    }
  }

  lemma PlaceFrame(t: Tree, src: Path, stamp: int, albumDir: Path, moveMode: bool, coverageMode: bool, env: Env)
    requires stamp > 0
    ensures var u := PlaceAt(t, src, stamp, albumDir, moveMode, coverageMode, env).1;
            && t.dirs <= u.dirs
            && forall p :: p != src && !StartsWith(p, JoinPrefix(albumDir)) ==> SameFileAt(t, u, p)
  {
    FolderExistsAfter(t, src, stamp, albumDir, moveMode, coverageMode, env);
    var target := PlaceTouchesOnly(t, src, stamp, albumDir, moveMode, coverageMode, env);
    TargetInFolder(t.files.Keys, albumDir, env.localMonth(stamp), src, coverageMode);
  }
}
