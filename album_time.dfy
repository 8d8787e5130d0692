/**
 * get_album_time: the timestamp a media file is filed under. The content
 * classifier, the metadata reader, the date parser and the modification
 * time are inputs, since they are foreign calls.
 */
module Timestamps {
  import opened Wrappers

  /** One metadata record as the metadata reader returns it: tag name to value. */
  type Record = map<string, string>

  /**
   * Parses "YYYY:MM:DD HH:MM:SS" and converts it to epoch seconds. `None`
   * stands for the ValueError of strptime only; the conversion is total here.
   */
  type DateParser = string -> Option<int>

  const ImageDateTag: string := "EXIF:DateTimeOriginal"
  const VideoDateTag: string := "QuickTime:MediaCreateDate"

  /** The value the script uses for "no usable timestamp". */
  const Unknown: int := 0

  /** `record.get(tag)` is truthy: the tag is present with a non-empty value. */
  predicate Dated(record: Record, tag: string) {
    tag in record && record[tag] != ""
  }

  /** The index of the first record that carries a non-empty `tag`, if any. */
  function FirstDated(records: seq<Record>, tag: string): (r: Option<nat>)
    ensures r.Some? ==> r.value < |records| && Dated(records[r.value], tag)
    ensures r.Some? ==> forall j :: 0 <= j < r.value ==> !Dated(records[j], tag)
    ensures r.None? <==> forall j :: 0 <= j < |records| ==> !Dated(records[j], tag)
  {
    if records == [] then None
    else if Dated(records[0], tag) then Some(0)
    else match FirstDated(records[1..], tag)
      case None => None
      case Some(i) => Some(i + 1)
  }

  /** The scan over the records for one tag: the first dated record decides, and a date that does not parse gives the mtime. */
  function CaptureOrMtime(records: seq<Record>, tag: string, parse: DateParser, mtime: int): int {
    match FirstDated(records, tag)
    case None => mtime
    case Some(i) =>
      match parse(records[i][tag])
      case Some(stamp) => stamp
      case None => mtime
  }

  /**
   * The timestamp of a path: Unknown unless it is a regular file classified
   * as image or video; the image test comes first.
   */
  function AlbumTime(isFile: bool, isImage: bool, isVideo: bool, records: seq<Record>,
                     parse: DateParser, mtime: int): int
  {
    if !isFile then Unknown
    else if isImage then CaptureOrMtime(records, ImageDateTag, parse, mtime)
    else if isVideo then CaptureOrMtime(records, VideoDateTag, parse, mtime)
    else Unknown
  }

  /** The for-loop over the metadata records, with its early returns. */
  method ScanRecords(records: seq<Record>, tag: string, parse: DateParser, mtime: int) returns (stamp: int)
    ensures stamp == CaptureOrMtime(records, tag, parse, mtime)
  {
    for i := 0 to |records|
      invariant forall j :: 0 <= j < i ==> !Dated(records[j], tag)
    {
      var meta := records[i];
      if tag in meta && meta[tag] != "" {
        assert FirstDated(records, tag) == Some(i);
        match parse(meta[tag])
        case None =>
          return mtime;
        case Some(s) =>
          return s;
      }
    }
    return mtime;
  }

  /** get_album_time, over the results of the foreign calls it makes. */
  method GetAlbumTime(isFile: bool, isImage: bool, isVideo: bool, records: seq<Record>,
                      parse: DateParser, mtime: int) returns (stamp: int)
    ensures stamp == AlbumTime(isFile, isImage, isVideo, records, parse, mtime)
  {
    if isFile {
      if isImage {
        stamp := ScanRecords(records, ImageDateTag, parse, mtime);
        return;
      }
      if isVideo {
        stamp := ScanRecords(records, VideoDateTag, parse, mtime);
        return;
      }
    }
    return Unknown;
  }

  /** A path that is not a regular file, or a file that is neither image nor video, has no timestamp. */
  lemma UnknownUnlessMedia(isFile: bool, isImage: bool, isVideo: bool, records: seq<Record>,
                           parse: DateParser, mtime: int)
    requires !isFile || (!isImage && !isVideo)
    ensures AlbumTime(isFile, isImage, isVideo, records, parse, mtime) == 0
  {
  }

  /**
   * The first record `i` with a non-empty tag decides: its parsed time, or
   * the mtime when it does not parse, whatever the records after it hold.
   */
  lemma FirstDatedDecides(records: seq<Record>, tag: string, parse: DateParser, mtime: int, i: nat)
    requires i < |records| && Dated(records[i], tag)
    requires forall j :: 0 <= j < i ==> !Dated(records[j], tag)
    ensures CaptureOrMtime(records, tag, parse, mtime)
         == match parse(records[i][tag]) case Some(stamp) => stamp case None => mtime
  {
    var r := FirstDated(records, tag);
    assert r.Some?;
  }

  /** With no record carrying the tag, the result is the mtime. */
  lemma NoDateGivesMtime(records: seq<Record>, tag: string, parse: DateParser, mtime: int)
    requires forall j :: 0 <= j < |records| ==> !Dated(records[j], tag)
    ensures CaptureOrMtime(records, tag, parse, mtime) == mtime
  {
  }

  /** Once some record carries the tag, records appended after it are never consulted. */
  lemma LaterRecordsIgnored(records: seq<Record>, more: seq<Record>, tag: string, parse: DateParser, mtime: int)
    requires exists i :: 0 <= i < |records| && Dated(records[i], tag)
    ensures CaptureOrMtime(records + more, tag, parse, mtime) == CaptureOrMtime(records, tag, parse, mtime)
  {
    var i := FirstDated(records, tag).value;
    FirstDatedDecides(records, tag, parse, mtime, i);
    var all := records + more;
    assert all[i] == records[i];
    assert forall j :: 0 <= j < i ==> all[j] == records[j];
    FirstDatedDecides(all, tag, parse, mtime, i);
  }

  /** A file classified as image is timed from its image tag whatever the video classification says. */
  lemma ImageTestedFirst(isVideo: bool, records: seq<Record>, parse: DateParser, mtime: int)
    ensures AlbumTime(true, true, isVideo, records, parse, mtime)
         == CaptureOrMtime(records, ImageDateTag, parse, mtime)
    ensures AlbumTime(true, true, isVideo, records, parse, mtime)
         == AlbumTime(true, true, false, records, parse, mtime)
  {
  }

  /** A video is timed from its media creation tag; its image tag is ignored. */
  lemma VideoUsesCreateDate(records: seq<Record>, parse: DateParser, mtime: int)
    ensures AlbumTime(true, false, true, records, parse, mtime)
         == CaptureOrMtime(records, VideoDateTag, parse, mtime)
  {
  }
}
