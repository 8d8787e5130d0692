/**
 * Worked cases of organize_album_file: the names a photo is filed under,
 * and what copying the same photo twice in preserve mode leaves behind.
 */
module Scenarios {
  import opened PosixPath
  import opened Timestamps
  import opened Storage
  import opened Organizer

  /** The first two candidates for IMG_001.jpg in /archive/2023/05: IMG_001.jpg, then IMG_001_1.jpg. */
  lemma PhotoCandidates()
    ensures Candidate("/archive/2023/05", "IMG_001", ".jpg", 0) == "/archive/2023/05/IMG_001.jpg"
    ensures Candidate("/archive/2023/05", "IMG_001", ".jpg", 1) == "/archive/2023/05/IMG_001_1.jpg"
  {
  }

  /** The timestamp of a file depends only on its path and content. */
  lemma TimeFollowsContent(t: Tree, u: Tree, src: Path, env: Env)
    requires src in t.files && src in u.files && t.files[src] == u.files[src]
    ensures TimeOf(t, src, env) == TimeOf(u, src, env)
  {
  }

  /**
   * Copying the same photo twice in preserve mode, when name.ext up to
   * name_(k-1).ext are taken and neither name_k.ext nor name_(k+1).ext is,
   * leaves two copies: name_k.ext and name_(k+1).ext (name.ext and
   * name_1.ext when k is 0).
   */
  lemma CopyTwiceKeepsBoth(t: Tree, src: Path, albumDir: Path, env: Env, k: nat)
    requires TimeOf(t, src, env) > 0
    requires var folder := AlbumFolder(albumDir, env.localMonth(TimeOf(t, src, env)));
             && (forall j :: 0 <= j < k ==> Candidate(folder, NameParts(src).0, NameParts(src).1, j) in t.files)
             && Candidate(folder, NameParts(src).0, NameParts(src).1, k) !in t.files
             && Candidate(folder, NameParts(src).0, NameParts(src).1, k + 1) !in t.files
    ensures var folder := AlbumFolder(albumDir, env.localMonth(TimeOf(t, src, env)));
            var first := Candidate(folder, NameParts(src).0, NameParts(src).1, k);
            var second := Candidate(folder, NameParts(src).0, NameParts(src).1, k + 1);
            var u := Organized(t, src, albumDir, false, false, env).1;
            var w := Organized(u, src, albumDir, false, false, env).1;
            && first in w.files && w.files[first] == t.files[src]
            && second in w.files && w.files[second] == t.files[src]
  {
    var stamp := TimeOf(t, src, env);
    TimedIsFile(t, src, env);
    var u := PlaceAt(t, src, stamp, albumDir, false, false, env).1;
    PreserveKeepsEveryFile(t, src, stamp, albumDir, false, env);
    TimeFollowsContent(t, u, src, env);
    CopyTwiceAt(t, src, stamp, albumDir, env, k);
  }

  /** The same two copies, for a given positive timestamp. */
  lemma CopyTwiceAt(t: Tree, src: Path, stamp: int, albumDir: Path, env: Env, k: nat)
    requires stamp > 0 && src in t.files
    requires var folder := AlbumFolder(albumDir, env.localMonth(stamp));
             && (forall j :: 0 <= j < k ==> Candidate(folder, NameParts(src).0, NameParts(src).1, j) in t.files)
             && Candidate(folder, NameParts(src).0, NameParts(src).1, k) !in t.files
             && Candidate(folder, NameParts(src).0, NameParts(src).1, k + 1) !in t.files
    ensures var folder := AlbumFolder(albumDir, env.localMonth(stamp));
            var first := Candidate(folder, NameParts(src).0, NameParts(src).1, k);
            var second := Candidate(folder, NameParts(src).0, NameParts(src).1, k + 1);
            var u := PlaceAt(t, src, stamp, albumDir, false, false, env).1;
            var w := PlaceAt(u, src, stamp, albumDir, false, false, env).1;
            && first in w.files && w.files[first] == t.files[src]
            && second in w.files && w.files[second] == t.files[src]
  {
    var u := PlaceAt(t, src, stamp, albumDir, false, false, env).1;
    FirstCopy(t, src, stamp, albumDir, env, k);
    SecondCopy(u, src, stamp, albumDir, env, t.files[src], k);
  }

  /**
   * The second copy: with name.ext up to name_k.ext taken, name_k.ext
   * holding the content and name_(k+1).ext free, the copy lands at
   * name_(k+1).ext and name_k.ext is kept.
   */
  lemma SecondCopy(u: Tree, src: Path, stamp: int, albumDir: Path, env: Env, content: Bytes, k: nat)
    requires stamp > 0 && src in u.files && u.files[src] == content
    requires var folder := AlbumFolder(albumDir, env.localMonth(stamp));
             var first := Candidate(folder, NameParts(src).0, NameParts(src).1, k);
             && (forall j :: 0 <= j < k + 1 ==> Candidate(folder, NameParts(src).0, NameParts(src).1, j) in u.files)
             && u.files[first] == content
             && Candidate(folder, NameParts(src).0, NameParts(src).1, k + 1) !in u.files
    ensures var folder := AlbumFolder(albumDir, env.localMonth(stamp));
            var first := Candidate(folder, NameParts(src).0, NameParts(src).1, k);
            var second := Candidate(folder, NameParts(src).0, NameParts(src).1, k + 1);
            var w := PlaceAt(u, src, stamp, albumDir, false, false, env).1;
            && first in w.files && w.files[first] == content
            && second in w.files && w.files[second] == content
  {
    PreserveUsesLeastFreeCandidate(u, src, stamp, albumDir, false, env, k + 1);
  }

  /**
   * After the first copy: name_k.ext holds the content, the source and the
   * names before name_k.ext are kept, and name_(k+1).ext is still free.
   */
  lemma FirstCopy(t: Tree, src: Path, stamp: int, albumDir: Path, env: Env, k: nat)
    requires stamp > 0 && src in t.files
    requires var folder := AlbumFolder(albumDir, env.localMonth(stamp));
             && (forall j :: 0 <= j < k ==> Candidate(folder, NameParts(src).0, NameParts(src).1, j) in t.files)
             && Candidate(folder, NameParts(src).0, NameParts(src).1, k) !in t.files
             && Candidate(folder, NameParts(src).0, NameParts(src).1, k + 1) !in t.files
    ensures var folder := AlbumFolder(albumDir, env.localMonth(stamp));
            var first := Candidate(folder, NameParts(src).0, NameParts(src).1, k);
            var second := Candidate(folder, NameParts(src).0, NameParts(src).1, k + 1);
            var u := PlaceAt(t, src, stamp, albumDir, false, false, env).1;
            && (forall j :: 0 <= j < k + 1 ==> Candidate(folder, NameParts(src).0, NameParts(src).1, j) in u.files)
            && u.files[first] == t.files[src]
            && src in u.files && u.files[src] == t.files[src]
            && second !in u.files
  {
    FirstCopyPlaced(t, src, stamp, albumDir, env, k);
    FirstCopyKeeps(t, src, stamp, albumDir, env, k);
  }

  /** The first copy lands at name_k.ext, and name.ext up to name_k.ext are then all taken. */
  lemma FirstCopyPlaced(t: Tree, src: Path, stamp: int, albumDir: Path, env: Env, k: nat)
    requires stamp > 0 && src in t.files
    requires var folder := AlbumFolder(albumDir, env.localMonth(stamp));
             && (forall j :: 0 <= j < k ==> Candidate(folder, NameParts(src).0, NameParts(src).1, j) in t.files)
             && Candidate(folder, NameParts(src).0, NameParts(src).1, k) !in t.files
    ensures var folder := AlbumFolder(albumDir, env.localMonth(stamp));
            var first := Candidate(folder, NameParts(src).0, NameParts(src).1, k);
            var u := PlaceAt(t, src, stamp, albumDir, false, false, env).1;
            && (forall j :: 0 <= j < k + 1 ==> Candidate(folder, NameParts(src).0, NameParts(src).1, j) in u.files)
            && u.files[first] == t.files[src]
  {
    var folder := AlbumFolder(albumDir, env.localMonth(stamp));
    var name, ext := NameParts(src).0, NameParts(src).1;
    var first := Candidate(folder, name, ext, k);
    var u := PlaceAt(t, src, stamp, albumDir, false, false, env).1;
    PreserveUsesLeastFreeCandidate(t, src, stamp, albumDir, false, env, k);
    forall j | 0 <= j < k + 1
      ensures Candidate(folder, name, ext, j) in u.files
    {
      if j == k {
        assert Candidate(folder, name, ext, j) == first;
      }
    }
  }

  /** The first copy keeps the source and leaves name_(k+1).ext free. */
  lemma FirstCopyKeeps(t: Tree, src: Path, stamp: int, albumDir: Path, env: Env, k: nat)
    requires stamp > 0 && src in t.files
    requires var folder := AlbumFolder(albumDir, env.localMonth(stamp));
             && (forall j :: 0 <= j < k ==> Candidate(folder, NameParts(src).0, NameParts(src).1, j) in t.files)
             && Candidate(folder, NameParts(src).0, NameParts(src).1, k) !in t.files
             && Candidate(folder, NameParts(src).0, NameParts(src).1, k + 1) !in t.files
    ensures var folder := AlbumFolder(albumDir, env.localMonth(stamp));
            var second := Candidate(folder, NameParts(src).0, NameParts(src).1, k + 1);
            var u := PlaceAt(t, src, stamp, albumDir, false, false, env).1;
            && src in u.files && u.files[src] == t.files[src]
            && second !in u.files
  {
    var folder := AlbumFolder(albumDir, env.localMonth(stamp));
    var second := Candidate(folder, NameParts(src).0, NameParts(src).1, k + 1);
    FirstTargetIs(t.files.Keys, folder, src, k);
    PreserveKeepsEveryFile(t, src, stamp, albumDir, false, env);
    assert second != src;
    assert SameFileAt(t, PlaceAt(t, src, stamp, albumDir, false, false, env).1, second);
  }

  /** With name.ext up to name_(k-1).ext taken and name_k.ext free, the target is name_k.ext, not name_(k+1).ext. */
  lemma FirstTargetIs(files: set<Path>, folder: Path, src: Path, k: nat)
    requires var name, ext := NameParts(src).0, NameParts(src).1;
             && (forall j :: 0 <= j < k ==> Candidate(folder, name, ext, j) in files)
             && Candidate(folder, name, ext, k) !in files
    ensures var name, ext := NameParts(src).0, NameParts(src).1;
            && Target(files, folder, src, false) == Candidate(folder, name, ext, k)
            && Target(files, folder, src, false) != Candidate(folder, name, ext, k + 1)
  {
    var name, ext := NameParts(src).0, NameParts(src).1;
    FreeIndexIsLeast(files, folder, name, ext, k);
    CandidateInjective(folder, name, ext, k, k + 1);
  }
}
