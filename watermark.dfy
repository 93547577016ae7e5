/**
 * `WatermarkImage`: a watermark file on the server, known by its full path,
 * and the filename derived from it.
 */
module Watermark {
  import opened PathSegments

  /** The path separators `getFilename` strips: the backslash first, then the slash. */
  const Backslash: char := '\\'
  const Slash: char := '/'
  const Separators: set<char> := {Backslash, Slash}

  /** A watermark image: the full file path on the server, stored verbatim. */
  datatype WatermarkImage = WatermarkImage(filepath: string)
  {
    /**
     * `filepath.split('\\').pop().split('/').pop()`: the text after the last
     * `/` or `\\` of the path, or the whole path when it has neither.
     */
    function GetFilename(): (name: string)
      ensures IsLastSegment(filepath, name, Separators)
    {
      var t := LastPiece(filepath, Backslash);
      var r := LastPiece(t, Slash);
      LastSegmentCompose(filepath, t, r, {Backslash}, {Slash}, Separators);
      r
    }
  }

  /** Any string with that description is the filename: the description determines `GetFilename`. */
  lemma LastSegmentIsFilename(w: WatermarkImage, r: string)
    requires IsLastSegment(w.filepath, r, Separators)
    ensures r == w.GetFilename()
  {
    LastSegmentUnique(w.filepath, r, w.GetFilename(), Separators);
  }

  /** The filename is the text after `lastIndexOf` either separator. */
  lemma FilenameAfterLastSeparator(w: WatermarkImage)
    ensures w.GetFilename() == w.filepath[LastIndexOfAny(w.filepath, Separators) + 1..]
  {
    AfterLastIndexIsLastSegment(w.filepath, Separators);
    LastSegmentIsFilename(w, w.filepath[LastIndexOfAny(w.filepath, Separators) + 1..]);
  }

  /** A path without separators (the empty path included) is its own filename. */
  lemma FilenameWithoutSeparator(w: WatermarkImage)
    requires NoneOf(w.filepath, Separators)
    ensures w.GetFilename() == w.filepath
  {
    WholeIsLastSegment(w.filepath, Separators);
    LastSegmentIsFilename(w, w.filepath);
  }

  /** The filename has no separator, is a suffix of the path, and is its own filename. */
  lemma FilenameIdempotent(w: WatermarkImage)
    ensures NoneOf(w.GetFilename(), Separators)
    ensures |w.GetFilename()| <= |w.filepath| && w.GetFilename() == w.filepath[|w.filepath| - |w.GetFilename()|..]
    ensures WatermarkImage(w.GetFilename()).GetFilename() == w.GetFilename()
  {
    FilenameWithoutSeparator(WatermarkImage(w.GetFilename()));
  }
}
