/**
 * FilteredLogReaderList: a read-only list of log lines over a remote file.
 * Position i shows absolute line matched[i]; the content comes from the
 * shared cache when it is there, otherwise the line is queued in the pending
 * set and an unloaded cell is handed out. One readLines step fetches the
 * lowest run of consecutive pending lines with a single ranged read, stores
 * the output in the cache and notifies the cells that wait for it.
 *
 * The view extends java.util.Observable; the part of it the view uses (the
 * observer list, the changed flag, addObserver, setChanged and
 * notifyObservers) is modelled here as fields and methods of the class.
 */
module FilteredList {
  import opened Wrappers
  import opened LogPaths
  import opened LineCell
  import opened Coalescing

  /**
   * The exceptions a call on the view can end in. RemoteFailure stands for
   * the IOException or JSchException of the remote read in readLines.
   */
  datatype Error = IndexOutOfBounds | UnsupportedOperation | RemoteFailure

  datatype Result<+T> = Ok(value: T) | Err(error: Error)

  /**
   * The list operations the view rejects. The Java overloads taking a
   * collection or varargs (addAll, setAll, removeAll, retainAll) share one
   * constructor each.
   */
  datatype RejectedCall =
    | Iterator
    | ToArray
    | ToArrayInto(target: seq<object?>)
    | ListIteratorAt(index: int)
    | Contains(o: object?)
    | SetAt(index: int, element: Line?)
    | AddAt(index: int, element: Line?)
    | RemoveAt(index: int)
    | LastIndexOf(o: object?)
    | SubList(fromIndex: int, toIndex: int)
    | RemoveObject(o: object?)
    | ContainsAll(c: seq<object?>)
    | AddAll(elements: seq<Line?>)
    | AddAllAt(index: int, elements: seq<Line?>)
    | RemoveAll(c: seq<object?>)
    | RetainAll(c: seq<object?>)
    | Clear
    | SetAll(elements: seq<Line?>)
    | RemoveRange(from: int, to: int)

  class FilteredLogReaderList {
    /** The absolute line numbers the search matched, in the order received. */
    const matched: seq<int>
    /** The cache of the remote file, shared with other views of it. */
    const path: LogPath
    /** Absolute line numbers requested but not fetched yet (linesToRead). */
    var pending: set<int>
    /** Observable: the registered observers, in registration order. */
    var observers: seq<Line>
    /** Observable: the changed flag that gates notifyObservers. */
    var changed: bool

    /** Between calls the Observable changed flag is clear. */
    ghost predicate Valid()
      reads this
    {
      !changed
    }

    constructor (path: LogPath, matched: seq<int>)
      ensures this.path == path && this.matched == matched
      ensures pending == {} && observers == [] && Valid()
    {
      this.path := path;
      this.matched := matched;
      pending := {};
      observers := [];
      changed := false;
    }

    /** The number of rows: one per matched line. */
    function Size(): (n: int)
      ensures n == |matched|
    {
      |matched|
    }

    predicate IsEmpty()
      ensures IsEmpty() <==> Size() == 0
    {
      Size() == 0
    }

    /** indexOf answers 0 for every argument; it does not search the matched lines. */
    function IndexOf<T>(o: T): (r: int)
      ensures r == 0
    {
      0
    }

    /** add(Line) is accepted and ignored: it reports success and changes nothing. */
    method Add(l: Line?) returns (r: bool)
      ensures r
    {
      r := true;
    }

    /** Every other mutator, and a few queries, throw UnsupportedOperationException. */
    method Reject(call: RejectedCall) returns (r: Result<()>)
      ensures r == Err(UnsupportedOperation)
    {
      r := Err(UnsupportedOperation);
    }

    /** Some registered observer is a cell for absolute line `index`. */
    predicate RegisteredFor(index: int)
      reads this, observers
    {
      exists k :: 0 <= k < |observers| && observers[k].index == index
    }

    /**
     * Observable.addObserver: appends the cell unless an equal one, that is
     * one for the same line, is registered already.
     */
    method AddObserver(l: Line)
      modifies this
      ensures pending == old(pending) && changed == old(changed)
      ensures observers == if old(RegisteredFor(l.index)) then old(observers) else old(observers) + [l]
    {
      var i := 0;
      var found := false;
      while i < |observers| && !found
        invariant 0 <= i <= |observers|
        invariant found <==> exists k :: 0 <= k < i && observers[k].index == l.index
      {
        found := l.Equals(observers[i]);
        i := i + 1;
      }
      if !found {
        observers := observers + [l];
      }
    }

    /**
     * The cell at position i. A cached line comes back loaded and nothing
     * else changes; a missing one is queued for fetching and comes back
     * unloaded, registered as an observer. Positions outside the list fail.
     */
    method Get(i: int) returns (r: Result<Line>)
      requires Valid()
      modifies this
      ensures Valid()
      ensures !(0 <= i < |matched|) ==>
        r == Err(IndexOutOfBounds) && pending == old(pending) && observers == old(observers)
      ensures 0 <= i < |matched| ==> r.Ok? && fresh(r.value) && r.value.index == matched[i]
      ensures 0 <= i < |matched| && matched[i] in path.lines ==>
        r.Ok? && r.value.content == Some(path.lines[matched[i]]) && r.value.loaded &&
        pending == old(pending) && observers == old(observers)
      ensures 0 <= i < |matched| && matched[i] !in path.lines ==>
        r.Ok? && r.value.content == None && !r.value.loaded &&
        pending == old(pending) + {matched[i]} &&
        observers == if old(RegisteredFor(matched[i])) then old(observers) else old(observers) + [r.value]
    {
      if !(0 <= i < |matched|) {
        return Err(IndexOutOfBounds);
      }
      var index := matched[i];
      if index in path.lines {
        var line := new Line(index, Some(path.lines[index]), true);
        r := Ok(line);
      } else {
        pending := pending + {index};
        var line := new Line(index, None, false);
        AddObserver(line);
        r := Ok(line);
      }
    }

    /**
     * What one fetch step does to the pending set and the cache: nothing when
     * nothing is pending, nor when the remote read fails (None), which leaves
     * the run queued; otherwise the run PendingRun picks is fetched with
     * bounds FetchBounds, output line i is stored under lo + i, and the whole
     * run leaves the pending set, however many lines came back.
     */
    twostate predicate Drained(sedOutput: Option<seq<string>>, new outcome: Result<Option<(int, int)>>)
      reads this, path
    {
      if old(pending) == {} then
        outcome == Ok(None) && pending == old(pending) && path.lines == old(path.lines)
      else if sedOutput == None then
        outcome == Err(RemoteFailure) && pending == old(pending) && path.lines == old(path.lines)
      else
        var run := PendingRun(old(pending));
        outcome == Ok(Some(FetchBounds(run))) &&
        path.lines == Fill(old(path.lines), FetchBounds(run).0, sedOutput.value) &&
        pending == old(pending) - Elements(run)
    }

    /** A step that read lines from the remote file. */
    static predicate Fetched(outcome: Result<Option<(int, int)>>)
    {
      outcome.Ok? && outcome.value.Some?
    }

    /**
     * The fetch part of readLines: choose the run, read it remotely (the
     * remote output is the argument, None when the read throws), store the
     * lines, drop the run from the pending set.
     */
    method Drain(sedOutput: Option<seq<string>>) returns (outcome: Result<Option<(int, int)>>)
      requires Valid()
      modifies this, path
      ensures Valid() && observers == old(observers)
      ensures Drained(sedOutput, outcome)
    {
      if pending == {} {
        return Ok(None);
      }
      // The source stops here when the run is empty; a non-empty pending
      // set never gives an empty run.
      var run := SelectRun(pending);
      var (lo, hi) := FetchBounds(run);
      if sedOutput == None {
        return Err(RemoteFailure);
      }
      StoreLines(lo, sedOutput.value);
      pending := pending - Elements(run);
      outcome := Ok(Some((lo, hi)));
    }

    /** The storing loop of readLines: output line i goes into the cache under lo + i. */
    method StoreLines(lo: int, lines: seq<string>)
      modifies path
      ensures path.lines == Fill(old(path.lines), lo, lines)
    {
      var i := 0;
      while i < |lines|
        invariant 0 <= i <= |lines|
        invariant path.lines == Fill(old(path.lines), lo, lines[..i])
      {
        path.AddLine(i + lo, lines[i]);
        assert lines[..i + 1][..i] == lines[..i];
        i := i + 1;
      }
      assert lines[..|lines|] == lines;
    }

    method SetChanged()
      modifies this
      ensures changed && pending == old(pending) && observers == old(observers)
    {
      changed := true;
    }

    /**
     * Observable.notifyObservers: when the changed flag is set, clears it and
     * calls update on every registered observer, last registered first; when
     * it is clear, does nothing at all.
     */
    method NotifyObservers(arg: Notification)
      modifies this, observers
      ensures observers == old(observers) && pending == old(pending) && !changed
      ensures forall l :: l in observers ==> l.index == old(l.index)
      ensures forall l :: l in observers ==>
        if old(changed) && arg.Holds(l.index) then
          l.loaded && l.content == Some(arg.path.lines[l.index])
        else
          l.content == old(l.content) && l.loaded == old(l.loaded)
    {
      if !changed {
        return;
      }
      var snapshot := observers;
      changed := false;
      var i := |snapshot|;
      while i > 0
        invariant 0 <= i <= |snapshot|
        invariant observers == snapshot && pending == old(pending) && !changed
        invariant forall l :: l in snapshot ==> l.index == old(l.index)
        invariant forall l :: l in snapshot ==>
          if l in snapshot[i..] && arg.Holds(l.index) then
            l.loaded && l.content == Some(arg.path.lines[l.index])
          else
            l.content == old(l.content) && l.loaded == old(l.loaded)
      {
        i := i - 1;
        snapshot[i].Update(arg);
      }
      assert snapshot[0..] == snapshot;
    }

    /**
     * readLines as the source has it: the fetch step followed by
     * notifyObservers(path) without setChanged(), so the flag is clear and no
     * waiting cell is updated.
     */
    method ReadLinesAsWritten(sedOutput: Option<seq<string>>) returns (outcome: Result<Option<(int, int)>>)
      requires Valid()
      modifies this, path, observers
      ensures Valid() && observers == old(observers)
      ensures Drained(sedOutput, outcome)
      ensures forall l :: l in observers ==>
        l.index == old(l.index) && l.content == old(l.content) && l.loaded == old(l.loaded)
    {
      outcome := Drain(sedOutput);
      if Fetched(outcome) {
        NotifyObservers(PathArg(path));
      }
    }

    /**
     * readLines with the notification that its registered cells wait for:
     * the flag is set before notifyObservers(path), so after a step every
     * registered cell whose line is now cached holds that line and is loaded.
     */
    method ReadLines(sedOutput: Option<seq<string>>) returns (outcome: Result<Option<(int, int)>>)
      requires Valid()
      modifies this, path, observers
      ensures Valid() && observers == old(observers)
      ensures Drained(sedOutput, outcome)
      ensures forall l :: l in observers ==> l.index == old(l.index)
      ensures forall l :: l in observers ==>
        if Fetched(outcome) && l.index in path.lines then
          l.loaded && l.content == Some(path.lines[l.index])
        else
          l.content == old(l.content) && l.loaded == old(l.loaded)
    {
      outcome := Drain(sedOutput);
      if Fetched(outcome) {
        SetChanged();
        NotifyObservers(PathArg(path));
      }
    }
  }

  /**
   * A 20-line file whose search matched lines 2, 5, 9 and 14: four rows; row
   * 0 starts unloaded for line 2 and is loaded after one fetch step; indexOf
   * answers 0 for line 9 where a reverse lookup would give 2.
   */
  method EndToEnd() returns (size: int, cell: Line, position: int)
    ensures size == 4
    ensures cell.index == 2 && cell.loaded && cell.content == Some("second line")
    ensures position == 0
  {
    var path := new LogPath();
    var view := new FilteredLogReaderList(path, [2, 5, 9, 14]);
    size := view.Size();
    var r := view.Get(0);
    cell := r.value;
    assert !cell.loaded && view.pending == {2} && view.observers == [cell];
    assert MinOf({2}) == 2;
    RunFromUnique({2}, 2, [2]);
    var outcome := view.ReadLines(Some(["second line"]));
    position := view.IndexOf(9);
  }

  /**
   * The same first steps with readLines as written: line 2 is in the cache
   * afterwards, yet the cell registered for it is still unloaded. Only a
   * fresh get(0), as the list view makes when it is invalidated, returns a
   * loaded cell.
   */
  method MissedNotification() returns (cache: LogPath, cell: Line, again: Line)
    ensures cell.index == 2 && cell.index in cache.lines
    ensures !cell.loaded && cell.content == None
    ensures again != cell && again.index == 2 && again.loaded && again.content == Some("second line")
  {
    cache := new LogPath();
    var view := new FilteredLogReaderList(cache, [2, 5, 9, 14]);
    var r := view.Get(0);
    cell := r.value;
    assert view.pending == {2} && view.observers == [cell];
    assert MinOf({2}) == 2;
    RunFromUnique({2}, 2, [2]);
    var outcome := view.ReadLinesAsWritten(Some(["second line"]));
    var r' := view.Get(0);
    again := r'.value;
  }
}
