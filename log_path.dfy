/**
 * The line cache of one remote log file. The application's LogPath class is
 * not part of this model; the only part of it the core relies on is a mapping
 * from absolute line number to the content fetched for it, shared by every
 * view of the same file and by the line cells that observe those views.
 */
module LogPaths {

  class LogPath {
    /** Absolute line number to line content. */
    var lines: map<int, string>

    constructor ()
      ensures lines == map[]
    {
      lines := map[];
    }

    /** Stores one fetched line, replacing any earlier content for that number. */
    method AddLine(index: int, content: string)
      modifies this
      ensures lines == old(lines)[index := content]
    {
      lines := lines[index := content];
    }
  }
}
