/**
 * A row of a log view: an absolute line number plus the content once it has
 * arrived. A cell is handed out unloaded when its line is not cached yet and
 * becomes loaded when it is notified with a cache that holds its line.
 */
module LineCell {
  import opened Wrappers
  import opened LogPaths

  /** What toString shows for a cell whose content is still missing. */
  const Placeholder: string := "loading..."

  /**
   * The argument an observer receives with a notification: in Java an
   * arbitrary Object, which is null, a LogPath, or something else.
   */
  datatype Notification = NullArg | PathArg(path: LogPath) | OtherArg
  {
    /** True when the argument is a cache that holds absolute line `index`. */
    predicate Holds(index: int)
      reads if PathArg? then {path} else {}
    {
      PathArg? && index in path.lines
    }
  }

  class Line {
    var index: int
    var content: Option<string>
    var loaded: bool

    /** The no-argument constructor leaves Java's default field values. */
    constructor Empty()
      ensures index == 0 && content == None && !loaded
    {
      index, content, loaded := 0, None, false;
    }

    constructor (index: int, content: Option<string>, loaded: bool)
      ensures this.index == index && this.content == content && this.loaded == loaded
    {
      this.index, this.content, this.loaded := index, content, loaded;
    }

    method SetIndex(index: int)
      modifies this
      ensures this.index == index && content == old(content) && loaded == old(loaded)
    {
      this.index := index;
    }

    method SetContent(content: Option<string>)
      modifies this
      ensures this.content == content && index == old(index) && loaded == old(loaded)
    {
      this.content := content;
    }

    /** Identity is the line number alone; content and loading state do not take part. */
    predicate Equals(other: object?)
      reads this, other
      ensures Equals(other) <==> other is Line && (other as Line).index == index
    {
      if this == other then true
      else if other == null || !(other is Line) then false
      else (other as Line).index == index
    }

    /** The hash is the line number, so it agrees with Equals. */
    function HashCode(): (h: int)
      reads this
      ensures h == index
    {
      index
    }

    function ToString(): (s: string)
      reads this
      ensures content.Some? ==> s == content.value
      ensures content == None ==> s == Placeholder
    {
      if content == None then Placeholder else content.value
    }

    /**
     * Observer callback: copies the line from the cache and marks the cell
     * loaded when the argument is a cache holding this cell's line; any other
     * argument leaves every field as it was.
     */
    method Update(arg: Notification)
      modifies this
      ensures index == old(index)
      ensures old(loaded) ==> loaded
      ensures arg.Holds(index) ==> loaded && content == Some(arg.path.lines[index])
      ensures !arg.Holds(index) ==> content == old(content) && loaded == old(loaded)
    {
      if arg.PathArg? {
        var path := arg.path;
        if index in path.lines {
          content := Some(path.lines[index]);
          loaded := true;
        }
      }
    }
  }

  lemma EqualsIsEquivalence(a: Line, b: Line, c: Line)
    ensures a.Equals(a)
    ensures a.Equals(b) ==> b.Equals(a)
    ensures a.Equals(b) && b.Equals(c) ==> a.Equals(c)
  {
  }

  /** Equal cells hash alike, as Java's hashCode contract asks. */
  lemma EqualCellsHashAlike(a: Line, b: Line)
    requires a.Equals(b)
    ensures a.HashCode() == b.HashCode()
  {
  }

  /** Two cells for the same line are equal whatever content and loaded flag they hold. */
  lemma EqualsIgnoresContent(a: Line, b: Line)
    requires a.index == b.index
    ensures a.Equals(b) && a.HashCode() == b.HashCode()
  {
  }
}
