# Album organizer, modelled in Dafny

`Album/albumtoolkit.py` files photos and videos from a staging directory into
`album_dir/YYYY/MM/` folders, by the month each one was taken. It has three
parts, and this project models all three:

- **`get_album_time`** picks the timestamp a file is filed under. It uses the
  capture date from the file's metadata when there is one, and the file's
  modification time otherwise. It gives `0` for anything that is not a regular
  image or video file. Module `Timestamps` (`album_time.dfy`).
- **`organize_album_file`** places one file. It creates the month folder and
  splits the basename into name and extension. It then picks the target:
  - in preserve mode, the first free name among `name.ext`, `name_1.ext`,
    `name_2.ext`, …;
  - in overwrite mode, `name.ext`, after removing the existing file there.

  Last, it moves or copies the file to that target. Module `Organizer`
  (`organizer.dfy`).
- **`organize_album_folder`** runs the placement over every regular file
  directly inside the staging directory. Module `Driver` (`driver.dfy`).

The filesystem is a `Tree`: a finite map from file paths to their bytes, plus a
set of directory paths (`storage.dfy`). The class `Storage.FileSystem` holds
that state and changes it in place. Its methods are `MakeDirs`, `Remove`,
`Rename` and `Copy2`, and each is tied to a pure function of the old state.
`organize_album_file` and `organize_album_folder` are methods over a
`FileSystem`. Each one is proved equal to a function of the state before the
call (`Organizer.Organized`, `Driver.OrganizedAll`), and the properties are
lemmas about those functions.

Calls into code the model cannot see are given to it as inputs, bundled in
`Organizer.Env`:
- the content classifier (`filetype.is_image` / `is_video`);
- the metadata reader (a list of tag → text records);
- the date parser (`strptime` followed by `mktime`);
- `os.path.getmtime`;
- `time.localtime`;
- whether `os.remove` raises on a given path.

`posix_path.dfy` models `os.path.join`, `basename`, `splitext` and the
directories `os.makedirs` creates. `decimal.dfy` models the `:04` / `:02`
zero-padding and `str(count)`. `scenarios.dfy` works through the
`IMG_001.jpg` example.

An exception that escapes `organize_album_file` is the outcome `Raised`. This
happens when `os.rename` or `shutil.copy2` fails: the source is missing, or a
copy targets the source itself. `organize_album_folder` does not catch it, so it
ends the run, and `OrganizeAlbumFolder` then returns `false`.

## Model

| member | source | states |
|---|---|---|
| Timestamps.FirstDated | Album/albumtoolkit.py:21-23 | The record that decides is the first whose tag is present and non-empty. It is `None` exactly when no record has the tag. |
| Timestamps.CaptureOrMtime | Album/albumtoolkit.py:21-30 | The scan for one tag: no dated record gives the mtime; otherwise the first dated record's value is parsed, giving its epoch time, or the mtime when the parse fails. |
| Timestamps.AlbumTime | Album/albumtoolkit.py:17-46 | The dispatch of get_album_time: 0 for a non-file; for a file, the image tag scan if it is an image, else the video tag scan if it is a video, else 0. |
| Timestamps.ScanRecords | Album/albumtoolkit.py:21-30 | The loop over the metadata records, with its early returns, gives the first dated record's parsed time. If that date does not parse, or no record is dated, it gives the mtime. |
| Timestamps.GetAlbumTime | Album/albumtoolkit.py:17-46 | get_album_time equals `AlbumTime`: 0 for a non-file, the image tag tested first, then the video tag, 0 for other files. |
| Timestamps.UnknownUnlessMedia | Album/albumtoolkit.py:17-18 | A non-file, or a file that is neither image nor video, gets timestamp 0. |
| Timestamps.FirstDatedDecides | Album/albumtoolkit.py:21-29 | The first record with a non-empty tag decides: its parsed time, or the mtime when it does not parse, whatever later records hold. |
| Timestamps.NoDateGivesMtime | Album/albumtoolkit.py:30 | With no record carrying the tag, the result is the mtime. |
| Timestamps.LaterRecordsIgnored | Album/albumtoolkit.py:21-29 | Once some record is dated, appending records does not change the result. |
| Timestamps.ImageTestedFirst | Album/albumtoolkit.py:18-32 | A file classified as image is timed from EXIF:DateTimeOriginal, whatever the video classifier says. |
| Timestamps.VideoUsesCreateDate | Album/albumtoolkit.py:32-44 | A video that is not an image is timed from QuickTime:MediaCreateDate by the same rule. |
| PosixPath.RFind | Album/albumtoolkit.py:70-71 | The last index of a character, or -1: that index holds it and nothing after does. |
| PosixPath.Join | Album/albumtoolkit.py:65 | os.path.join of two parts: an absolute second part replaces the first; otherwise the parts are concatenated, with one '/' inserted when the first is non-empty and does not already end in '/'. |
| PosixPath.JoinRelative | Album/albumtoolkit.py:65 | os.path.join with a relative component appends it after one '/'. |
| PosixPath.JoinComponents | Album/albumtoolkit.py:65 | Joining two components puts exactly one '/' between them. |
| PosixPath.JoinInjective | Album/albumtoolkit.py:90 | Joining different relative components to one folder gives different paths. |
| PosixPath.Basename | Album/albumtoolkit.py:70 | The basename is the '/'-free suffix after the last '/'. |
| PosixPath.BasenameAfterSlash | Album/albumtoolkit.py:70 | The basename of `dir/b` is `b`. |
| PosixPath.SplitExt | Album/albumtoolkit.py:71 | Name and extension concatenate back to the input. The extension is empty or one '.' with no further '.' or '/'. Exactly when the last '.' lies in the final component after some other character there, the split is at that '.'; otherwise the extension is empty. |
| PosixPath.SplitExtOfJoined | Album/albumtoolkit.py:71 | splitext(name + ext) gives back (name, ext) for a one-dot extension, whenever name has no '/' and some character other than '.'. |
| PosixPath.Lineage | Album/albumtoolkit.py:67 | The directories makedirs may create: the path itself and every non-empty prefix ending just before a '/' are in the set, and every member is the path or a prefix ending just before a '/'. |
| Decimal.Digits | Album/albumtoolkit.py:90 | str(n) is non-empty and all digits; it starts with '0' only when n is 0, and then it is exactly "0". |
| Decimal.ValueOfDigits | Album/albumtoolkit.py:90 | Reading str(n) back gives n. |
| Decimal.DigitsInjective | Album/albumtoolkit.py:90 | Different counts have different decimal texts. |
| Decimal.ZeroPad | Album/albumtoolkit.py:65 | The `:04` / `:02` format: at least `width` characters, all digits, str(n) as suffix, zeros before it. |
| Decimal.ValueOfZeroPad | Album/albumtoolkit.py:65 | Reading the padded text back gives n. |
| Decimal.FolderNameWidths | Album/albumtoolkit.py:65 | A year below 10000 is exactly 4 characters, a month below 100 exactly 2. |
| Storage.WithDirs | Album/albumtoolkit.py:67 | makedirs adds the path and only its ancestors as directories, and changes no file. |
| Storage.Removed | Album/albumtoolkit.py:77 | os.remove deletes that one file and nothing else. |
| Storage.Moved | Album/albumtoolkit.py:83 | os.rename: the target holds the source content, the source is gone, every other path is unchanged. |
| Storage.Copied | Album/albumtoolkit.py:85 | shutil.copy2: the target holds the source content, the source and every other path are unchanged. |
| Storage.FileSystem.IsFile | Album/albumtoolkit.py:17 | os.path.isfile (also at lines 76 and 91): the path is a key of the file map. |
| Storage.FileSystem.IsDir | Album/albumtoolkit.py:66 | os.path.isdir (also at line 115): the path is in the directory set. |
| Storage.FileSystem.MakeDirs | Album/albumtoolkit.py:66-67 | The new state is `WithDirs` of the old. |
| Storage.FileSystem.Remove | Album/albumtoolkit.py:75-79 | It succeeds exactly when the path is a file and the system allows it. It then deletes the file, and otherwise changes nothing. |
| Storage.FileSystem.Rename | Album/albumtoolkit.py:83 | It succeeds exactly when the source exists, and then gives `Moved`. |
| Storage.FileSystem.Copy2 | Album/albumtoolkit.py:85 | It succeeds exactly when the source exists and is not the target, and then gives `Copied`. |
| Organizer.TimeOf | Album/albumtoolkit.py:59 | get_album_time(file_path) against the current filesystem: `AlbumTime` fed with whether the path is a file, the classifier and metadata answers for its content, and its mtime. |
| Organizer.AlbumFolder | Album/albumtoolkit.py:63-65 | time_path: album_dir joined with the 4-digit year and then the 2-digit month of time.localtime(stamp). |
| Organizer.Prepared | Album/albumtoolkit.py:66-67 | The folder step: unchanged when the folder is already a directory, otherwise makedirs of it. |
| Organizer.CandidateName | Album/albumtoolkit.py:72-90 | The file name for probe count 0 is name + ext; for count n > 0 it is name + '_' + str(n) + ext. |
| Organizer.Candidate | Album/albumtoolkit.py:72-90 | That file name joined to the month folder. |
| Organizer.PlaceAt | Album/albumtoolkit.py:60-101 | organize_album_file once the timestamp is known: False with nothing changed for a timestamp ≤ 0; otherwise the folder step, the target choice, in overwrite mode the removal of an existing target (True with no transfer when removal is refused), then the rename or copy. |
| Organizer.Organized | Album/albumtoolkit.py:49-101 | organize_album_file as a whole: `PlaceAt` with the timestamp `TimeOf` gives. |
| Organizer.AlbumFolderLayout | Album/albumtoolkit.py:63-65 | The month folder is `album_dir/` + the 4-digit year + `/` + the 2-digit month. |
| Organizer.NameParts | Album/albumtoolkit.py:70-71 | Name and extension concatenate back to the basename, and neither holds a '/'. |
| Organizer.NamePartsOfJoined | Album/albumtoolkit.py:70-71 | `dir/name.ext` splits back into name and extension, for any '/'-free name with a character other than '.'. |
| Organizer.CandidateInjective | Album/albumtoolkit.py:87-90 | Different probe counts name different paths. |
| Organizer.CandidatesBounded | Album/albumtoolkit.py:87-94 | If the first n candidates are all files, there are at least n files, so the probe stops. |
| Organizer.FreeIndex | Album/albumtoolkit.py:87-94 | The count the probe stops at: its candidate is not a file, and every smaller candidate is. |
| Organizer.FreeIndexIsLeast | Album/albumtoolkit.py:87-94 | Any count with those two properties is the one FreeIndex finds. |
| Organizer.ProbeFreeName | Album/albumtoolkit.py:87-94 | The `while True` probe returns the least free count and its candidate path. |
| Organizer.Target | Album/albumtoolkit.py:72-94 | The preserve-mode target is never an existing file. |
| Organizer.Transfer | Album/albumtoolkit.py:82-85 | A move or copy with a missing source, or a copy onto itself, raises and changes nothing. Otherwise the target gets the source content and the source survives unless moved. Directories and other paths are unchanged. |
| Organizer.TransferFile | Album/albumtoolkit.py:96-99 | The rename/copy2 branch produces exactly `Transfer`. |
| Organizer.OrganizeAlbumFile | Album/albumtoolkit.py:49-101 | The method's result and new state are `Organized` of the old state. |
| Organizer.PlaceSteps | Album/albumtoolkit.py:63-94 | The intermediate states: makedirs changes no file, the target is fixed by the files present, and the removal comes before the transfer. |
| Organizer.PlaceTouchesOnly | Album/albumtoolkit.py:74-99 | Placing a file changes no path except the source and the target. |
| Organizer.UnknownTimeChangesNothing | Album/albumtoolkit.py:59-61 | A timestamp ≤ 0 returns False with the filesystem untouched. |
| Organizer.NonMediaNeverPlaced | Album/albumtoolkit.py:17-18 | A non-file, or a file neither image nor video, returns False and changes nothing. |
| Organizer.TimedIsFile | Album/albumtoolkit.py:17 | A positive timestamp implies the source is a regular file. |
| Organizer.FolderExistsAfter | Album/albumtoolkit.py:66-67 | After placement the month folder is a directory. No directory is removed, and only the folder and its ancestors are added. |
| Organizer.BaseTargetIsBasename | Album/albumtoolkit.py:70-72 | The overwrite target, like the first candidate, is the source's basename inside the month folder. |
| Organizer.CandidateNamePlain | Album/albumtoolkit.py:72-90 | A candidate file name built from a '/'-free name and extension holds no '/'. |
| Organizer.TargetInFolder | Album/albumtoolkit.py:65-90 | Every target is the month folder, a '/', then one component with no further '/': it lies directly inside the folder, hence under album_dir. |
| Organizer.PreserveKeepsEveryFile | Album/albumtoolkit.py:86-99 | Preserve mode returns True. The target is a new path holding the source content. Every earlier file keeps its content, apart from a moved source, which is gone. |
| Organizer.PreserveUsesLeastFreeCandidate | Album/albumtoolkit.py:87-94 | If candidates 0..k-1 are files and candidate k is not, the file lands at candidate k, and the earlier ones are unchanged. |
| Organizer.PreserveFileCount | Album/albumtoolkit.py:96-99 | Preserve mode keeps the number of files when moving and adds one when copying. |
| Organizer.OverwriteRemovalFailure | Album/albumtoolkit.py:74-79 | If removing the existing target fails, nothing is transferred, yet True is returned. |
| Organizer.OverwriteReplacesTarget | Album/albumtoolkit.py:74-85 | Otherwise the basename path holds the source content afterwards, and the source survives exactly in copy mode. No other path changes. |
| Organizer.ReplacingTransfer | Album/albumtoolkit.py:82-85 | The transfer that follows the removal of the old target. |
| Organizer.OverwriteOfItselfLosesSource | Album/albumtoolkit.py:74-85 | When the source already sits at its own target, it is removed as the old target, the transfer raises, and the file is gone. |
| Organizer.PlaceFrame | Album/albumtoolkit.py:63-99 | Placement changes no file outside album_dir except the source, and removes no directory. |
| Organizer.OrganizedFrame | Album/albumtoolkit.py:59-101 | The same holds for organize_album_file as a whole. |
| Driver.OrganizeAlbumFolder | Album/albumtoolkit.py:114-118 | If the staging path is not a directory, nothing happens. Otherwise the result and new state are `OrganizedAll`: each entry that was a regular file at scan time is organized in listing order, and the run stops at the first exception. |
| Driver.OrganizedAll | Album/albumtoolkit.py:114-118 | The loop over the listing: an entry not regular at scan time is skipped, a regular one is organized; `Raised` ends the run with false and the state reached, otherwise the run ends with true. |
| Driver.PreserveModeCompletes | Album/albumtoolkit.py:114-118 | In preserve mode no exception escapes, so the run always completes. |
| Driver.CopyPreserveKeepsEveryFile | Album/albumtoolkit.py:114-118 | Copying in preserve mode keeps every file that existed before the run, with its content. |
| Driver.MovePreserveKeepsFileCount | Album/albumtoolkit.py:114-118 | Moving in preserve mode keeps the number of files. |
| Driver.OrganizedAllFrame | Album/albumtoolkit.py:114-118 | A run changes files only directly inside the staging directory (one component below it) or under album_dir, and removes no directory. Files in subdirectories of the staging directory are untouched. |
| Driver.SkipsNonFiles | Album/albumtoolkit.py:117 | An entry that was not a regular file at scan time is passed over. |
| Driver.StopsAtRaise | Album/albumtoolkit.py:114-118 | An exception from one file ends the run with the state that file left. |
| Scenarios.PhotoCandidates | Album/albumtoolkit.py:72-90 | The candidates there are `IMG_001.jpg`, then `IMG_001_1.jpg`. |
| Scenarios.TimeFollowsContent | Album/albumtoolkit.py:17-46 | The timestamp depends only on the path and the file's content. |
| Scenarios.CopyTwiceKeepsBoth | Album/albumtoolkit.py:86-99 | Copying the same file twice in preserve mode, with `name.ext` to `name_(k-1).ext` taken and the next two names free, leaves copies at `name_k.ext` and `name_(k+1).ext` (`name.ext` and `name_1.ext` when k is 0), each with the source content. |
| Scenarios.CopyTwiceAt | Album/albumtoolkit.py:86-99 | The same two copies, for a given positive timestamp. |
| Scenarios.FirstCopy | Album/albumtoolkit.py:86-99 | After the first copy, `name_k.ext` holds the content, the source and the earlier names are kept, and `name_(k+1).ext` is still free. |
| Scenarios.FirstCopyPlaced | Album/albumtoolkit.py:87-99 | The first copy lands at `name_k.ext`, so names up to `name_k.ext` are all taken afterwards. |
| Scenarios.FirstCopyKeeps | Album/albumtoolkit.py:86-99 | The first copy keeps the source and leaves `name_(k+1).ext` free. |
| Scenarios.FirstTargetIs | Album/albumtoolkit.py:87-94 | With `name.ext` to `name_(k-1).ext` taken and `name_k.ext` free, the target is `name_k.ext` and not `name_(k+1).ext`. |
| Scenarios.SecondCopy | Album/albumtoolkit.py:87-99 | With names up to `name_k.ext` taken and `name_(k+1).ext` free, the second copy lands at `name_(k+1).ext` and keeps `name_k.ext`. |

## Left out

- exiftool, filetype, `time.strptime`, `time.mktime`, `time.localtime` and `os.path.getmtime` are not part of this model. They are inputs in `Env`. The classifier and the metadata depend only on the file's content; the mtime depends on the path.
- Timestamps are integers. The float seconds of `getmtime` and `mktime` are not modelled.
- Metadata values are text. A non-string value that exiftool returns, and the `str()` call on it, are not modelled.
- Opening exiftool can fail, and those errors are not modelled.
- `os.chmod(time_path, stat.S_IRWXG)` (line 68) is not modelled, because permission bits are not part of the state. Mode 0o070 takes read, write and search permission away from the folder's owner. A process without privileges that owns the folder is then refused everything inside it. `os.path.isfile` on any path in the folder (lines 76 and 91) returns False, so the preserve-mode probe always stops at count 0 and overwrite mode never removes. The rename or copy into the folder is refused too. The model assumes the folder's contents are visible and writable.
- `shutil.copy2` also copies metadata (times and mode bits). Only the content is modelled.
- `makedirs` can fail, and `os.rename` can fail across devices. Neither is modelled; the only failures modelled are a missing source, a copy onto itself, and a refused `os.remove`.
- Storage.Moved: a target path that is an existing directory is not modelled. There `os.rename` would raise IsADirectoryError.
- Storage.Copied: a target path that is an existing directory is not modelled. There `shutil.copy2` would write to `target/basename(src)` instead, replacing any file of that name.
- Organizer.Transfer: a target that is an existing directory is treated like a free path. This case is reachable: the probe at line 91 and the check at line 76 test `os.path.isfile` only, so a directory named like a candidate counts as free and becomes the target.
- Organizer.PreserveKeepsEveryFile: holds only when the chosen candidate is not a directory. Otherwise a move raises (line 97), and a copy (line 99) can replace a file inside that directory.
- Organizer.PreserveUsesLeastFreeCandidate: holds only when candidate k is not a directory, for the same reason.
- Organizer.PreserveFileCount: holds only when the chosen candidate is not a directory, for the same reason.
- Organizer.OverwriteReplacesTarget: holds only when `name.ext` in the month folder is not a directory. Otherwise a move raises and a copy goes inside it.
- Driver.PreserveModeCompletes: holds only when no chosen candidate is a directory. A move onto one raises, and nothing at lines 114-122 catches it, so the run ends.
- Driver.CopyPreserveKeepsEveryFile: holds only when no chosen candidate is a directory. A copy onto one can replace a file inside it.
- Driver.MovePreserveKeepsFileCount: holds only when no chosen candidate is a directory, for the same reason.
- Scenarios.CopyTwiceKeepsBoth: holds only when `name_k.ext` and `name_(k+1).ext` are not directories.
- Scenarios.CopyTwiceAt: holds only when `name_k.ext` and `name_(k+1).ext` are not directories.
- Scenarios.FirstCopy: holds only when `name_k.ext` and `name_(k+1).ext` are not directories.
- Scenarios.FirstCopyPlaced: holds only when `name_k.ext` and `name_(k+1).ext` are not directories.
- Scenarios.FirstCopyKeeps: holds only when `name_k.ext` and `name_(k+1).ext` are not directories.
- Scenarios.SecondCopy: holds only when `name_k.ext` and `name_(k+1).ext` are not directories.
- Path normalisation is not modelled. `..` components, repeated '/' and symbolic links are compared as plain text.
- The command line (lines 125-132) is not modelled. argparse reads the two folders and the two flags that become `move_mode` and `coverage_mode`. The flags use `type=bool`, so any non-empty value, `False` included, turns them on. The model takes `moveMode` and `coverageMode` as plain inputs.
- The `KeyboardInterrupt` handler (lines 119-120) is not modelled. It swallows the interrupt, so an interrupted run ends normally after its message, with the files handled so far left in place. The model has no interruption.
- The two completion messages (lines 120 and 122) are not modelled; they are output only.
- Timestamps.CaptureOrMtime: `None` from the parser stands only for the ValueError of `time.strptime` (lines 25-27 and 39-41). `time.mktime` (lines 29 and 43) and `time.localtime` (line 63) can also raise, e.g. for a date out of the platform's range. These calls lie outside the try, so such an error would escape `organize_album_folder`. The model treats both calls as total and does not model these errors.
- Driver.OrganizeAlbumFolder: the directory listing is an input `names`, required to list the staging directory at the start. Entries that appear while the scan is in progress are not modelled.
- Decimal.FolderNameWidths: years of 10000 or later get wider folder names; the lemma covers years below 10000 only.
