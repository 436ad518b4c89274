# remote-tail: the lazy, filtered line view

remote-tail shows a log file that lives on a remote host as a list of rows. A
view (`FilteredLogReaderList`) holds the absolute line numbers that a search
matched. Row `i` stands for line `matched[i]`. Content is fetched only on demand:

- `get(i)` answers from the shared line cache when it can. Otherwise it queues
  the line in the pending set and hands out an unloaded `Line` cell, registered
  as an observer of the view.
- A background step, `readLines`, fetches the lowest run of consecutive pending
  line numbers with one ranged remote read (`sed -n min,maxp`). It stores the
  output in the cache under `min + i`, drops the run from the pending set and
  calls `notifyObservers`. When the remote read throws, the step ends before
  storing anything and the run stays pending.
- A notified `Line` whose line is now cached copies the content and becomes
  loaded. As written, the notification never reaches the cells: see
  "## Findings".
- The "go to line" dialog turns its text field into an optional positive line
  number.

The model has six modules:

- `Wrappers` (wrappers.dfy): the `Option` datatype.
- `LogPaths` (log_path.dfy): the shared cache, a class holding a
  `map<int, string>`.
- `LineCell` (line.dfy): the `Line` class and the notification argument it
  receives.
- `Coalescing` (coalescing.dfy): the run selection of `readLines`.
  - The specification side is on values: `PendingRun`, `FetchBounds`, `Fill`.
  - The sorting and run-taking loops are methods proved against it:
    `OrderBy`, `TakeUntilGap`, `SelectRun`.
- `FilteredList` (filtered_list.dfy): the view as a class. Its state is the
  fixed matched list, the shared cache, the pending set, and the part of
  `java.util.Observable` the view relies on (the observer list and the changed
  flag).
- `GotoLine` (goto_line.dfy): `selectedLineNumber` as a pure function, with
  Java's `trim` and `Integer.parseInt` written out.

Behaviour of the code that a reader might not expect, which the model keeps:

- `indexOf` answers 0 for every argument. It is not a reverse lookup, so
  `indexOf(get(i).index) == i` does not hold (`EndToEnd` shows
  `indexOf(9) == 0` where row 2 holds line 9).
- The search command in this code interpolates the pattern without any
  escaping. There is no escaping transform to model.
- The matched list is not required to be increasing.
- `LogPath.addLine` is not part of this model. The model reads it as a plain
  put, so a refetched line overwrites the earlier content (`Fill`).
- `Line.toString` shows `loading...` when the content is missing. A loaded line
  whose text is literally `loading...` looks the same, so the placeholder does
  not identify an unloaded cell.

## Model

| member | source | states |
|---|---|---|
| `LineCell.Line.Empty` | src/main/java/com/prhythm/app/remotetail/data/Line.java:18-19 | the no-argument cell has Java's default fields: index 0, no content, not loaded |
| `LineCell.Line.constructor` | src/main/java/com/prhythm/app/remotetail/data/Line.java:21-25 | index, content and loaded flag are stored exactly as passed |
| `LineCell.Line.SetIndex` | src/main/java/com/prhythm/app/remotetail/data/Line.java:31-33 | sets the index and leaves content and loaded flag alone |
| `LineCell.Line.SetContent` | src/main/java/com/prhythm/app/remotetail/data/Line.java:39-41 | sets the content and leaves index and loaded flag alone |
| `LineCell.Line.Equals` | src/main/java/com/prhythm/app/remotetail/data/Line.java:43-51 | a cell equals another object iff that object is a Line with the same index |
| `LineCell.EqualsIsEquivalence` | src/main/java/com/prhythm/app/remotetail/data/Line.java:43-51 | equality of cells is reflexive, symmetric and transitive |
| `LineCell.EqualsIgnoresContent` | src/main/java/com/prhythm/app/remotetail/data/Line.java:43-56 | two cells for the same line are equal and hash alike even when their content and loaded flags differ |
| `LineCell.EqualCellsHashAlike` | src/main/java/com/prhythm/app/remotetail/data/Line.java:53-56 | equal cells have equal hash codes (the hash is the index) |
| `LineCell.Line.HashCode` | src/main/java/com/prhythm/app/remotetail/data/Line.java:53-56 | the hash code is the line number, so it agrees with equality |
| `LineCell.Line.ToString` | src/main/java/com/prhythm/app/remotetail/data/Line.java:58-61 | a cell with content shows that content; a cell without content shows `loading...` |
| `LineCell.Line.Update` | src/main/java/com/prhythm/app/remotetail/data/Line.java:63-72 | with a cache holding the cell's line: content becomes the cached text and the cell is loaded; with null, a non-cache argument or a cache lacking the line: no field changes; the index never changes and a loaded cell stays loaded |
| `Coalescing.RunFrom` | src/main/java/com/prhythm/app/remotetail/data/FilteredLogReaderList.java:204-218 | the numbers x, x+1, ... while each is pending; the number after the last one is not pending |
| `Coalescing.PendingRun` | src/main/java/com/prhythm/app/remotetail/data/FilteredLogReaderList.java:201-221 | empty exactly when nothing is pending; otherwise it starts at the smallest pending number, is consecutive, lies in the pending set and is maximal (last + 1 is not pending) |
| `Coalescing.RunFromUnique` | src/main/java/com/prhythm/app/remotetail/data/FilteredLogReaderList.java:204-218 | any block of consecutive pending numbers from x that ends before a non-pending number is exactly RunFrom's run |
| `Coalescing.CoalesceExample` | src/main/java/com/prhythm/app/remotetail/data/FilteredLogReaderList.java:198-252 | pending {5,6,7,10,11} fetches 5..7 first, leaves {10,11}, which the next step fetches whole |
| `Coalescing.DrainShrinks` | src/main/java/com/prhythm/app/remotetail/data/FilteredLogReaderList.java:252 | removing the run strictly shrinks a non-empty pending set, so repeated steps empty it |
| `Coalescing.SetMin` | src/main/java/com/prhythm/app/remotetail/data/FilteredLogReaderList.java:204 | returns a member of the set that is no larger than any member |
| `Coalescing.OrderBy` | src/main/java/com/prhythm/app/remotetail/data/FilteredLogReaderList.java:204 | the pending set as a strictly ascending sequence holding exactly its members |
| `Coalescing.TakeUntilGap` | src/main/java/com/prhythm/app/remotetail/data/FilteredLogReaderList.java:204-218 | the result is a prefix of the input, non-empty for a non-empty input, consecutive, and stops only where the next element is not one more than the last taken |
| `Coalescing.SortedRunIsPendingRun` | src/main/java/com/prhythm/app/remotetail/data/FilteredLogReaderList.java:204-218 | the run taken from the ascending pending numbers is PendingRun of the pending set |
| `Coalescing.SelectRun` | src/main/java/com/prhythm/app/remotetail/data/FilteredLogReaderList.java:204-218 | sorting then taking until the first gap yields PendingRun of the pending set |
| `Coalescing.AtLeastOne` | src/main/java/com/prhythm/app/remotetail/data/FilteredLogReaderList.java:224-225 | `Math.max(1, x)`: at least 1 and at least x, and equal to one of them |
| `Coalescing.SeqMin` | src/main/java/com/prhythm/app/remotetail/data/FilteredLogReaderList.java:224 | an element of the run no larger than any other |
| `Coalescing.SeqMax` | src/main/java/com/prhythm/app/remotetail/data/FilteredLogReaderList.java:225 | an element of the run no smaller than any other |
| `Coalescing.FetchBounds` | src/main/java/com/prhythm/app/remotetail/data/FilteredLogReaderList.java:224-225 | 1 <= min <= max; min is the clamped value of some run element and no larger than any clamped element; max likewise from above |
| `Coalescing.FetchBoundsOfRun` | src/main/java/com/prhythm/app/remotetail/data/FilteredLogReaderList.java:224-225 | for a consecutive run the bounds are max(1, first) and max(1, last) |
| `Coalescing.Fill` | src/main/java/com/prhythm/app/remotetail/data/FilteredLogReaderList.java:245-249 | after storing, key min + i holds output line i for every i; keys outside min .. min + count - 1 are present and mapped exactly as before |
| `FilteredList.FilteredLogReaderList.constructor` | src/main/java/com/prhythm/app/remotetail/data/FilteredLogReaderList.java:65-72 | a new view keeps its cache and matched list, with nothing pending and no observers |
| `FilteredList.FilteredLogReaderList.Size` | src/main/java/com/prhythm/app/remotetail/data/FilteredLogReaderList.java:84-87 | the number of rows is the number of matched lines |
| `FilteredList.FilteredLogReaderList.IsEmpty` | src/main/java/com/prhythm/app/remotetail/data/FilteredLogReaderList.java:89-92 | empty iff size is 0 |
| `FilteredList.FilteredLogReaderList.IndexOf` | src/main/java/com/prhythm/app/remotetail/data/FilteredLogReaderList.java:167-171 | answers 0 for every argument |
| `FilteredList.FilteredLogReaderList.Add` | src/main/java/com/prhythm/app/remotetail/data/FilteredLogReaderList.java:345-350 | add(Line) reports success and, having no frame, changes nothing |
| `FilteredList.FilteredLogReaderList.Reject` | src/main/java/com/prhythm/app/remotetail/data/FilteredLogReaderList.java:280-428 | every rejected operation (set, add at index, remove, clear, addAll, setAll, removeAll, retainAll, remove range, and the unsupported queries) fails with UnsupportedOperation and, having no frame, leaves cache, pending set and matched list unchanged |
| `FilteredList.FilteredLogReaderList.AddObserver` | src/main/java/com/prhythm/app/remotetail/data/FilteredLogReaderList.java:104-105 | the cell is appended to the observers unless a cell for the same line (an equal one) is registered already |
| `FilteredList.FilteredLogReaderList.Get` | src/main/java/com/prhythm/app/remotetail/data/FilteredLogReaderList.java:94-108 | out of range: IndexOutOfBounds, nothing changes; cached: a fresh loaded cell with the cached text, pending set and observers unchanged; not cached: a fresh unloaded cell without content, the line added to the pending set, the cell registered as an observer if no equal cell is; the cache never changes |
| `FilteredList.FilteredLogReaderList.StoreLines` | src/main/java/com/prhythm/app/remotetail/data/FilteredLogReaderList.java:245-249 | the storing loop leaves the cache equal to Fill of the old cache |
| `FilteredList.FilteredLogReaderList.Drain` | src/main/java/com/prhythm/app/remotetail/data/FilteredLogReaderList.java:198-252 | nothing pending: no bounds, cache and pending set unchanged; the remote read throws: RemoteFailure, cache and pending set unchanged, so the run is retried; otherwise the bounds are FetchBounds(PendingRun), the cache becomes Fill(old cache, min, output) and the pending set loses the whole run however many lines came back |
| `FilteredList.FilteredLogReaderList.NotifyObservers` | src/main/java/com/prhythm/app/remotetail/data/FilteredLogReaderList.java:254-255 | with the changed flag clear nothing happens; with it set the flag is cleared and every observer gets update with the argument |
| `FilteredList.FilteredLogReaderList.ReadLinesAsWritten` | src/main/java/com/prhythm/app/remotetail/data/FilteredLogReaderList.java:198-259 | the source's step: the fetch as Drain states it, while no registered cell changes at all |
| `FilteredList.FilteredLogReaderList.ReadLines` | src/main/java/com/prhythm/app/remotetail/data/FilteredLogReaderList.java:198-259 | the corrected step (see "## Findings"): the fetch as Drain states it; after a step that fetched, every registered cell whose line is cached is loaded with that text, others unchanged |
| `FilteredList.EndToEnd` | src/main/java/com/prhythm/app/remotetail/data/FilteredLogReaderList.java:94-108 | a view over matched lines [2,5,9,14] has size 4; the cell handed out for row 0 is loaded with line 2's text after one corrected step (`ReadLines`); indexOf(9) is 0 |
| `FilteredList.MissedNotification` | src/main/java/com/prhythm/app/remotetail/data/FilteredLogReaderList.java:254-255 | with readLines as written, line 2 is cached yet the cell registered for it stays unloaded without content; a fresh get(0) then returns a new, loaded cell with line 2's text |
| `GotoLine.TrimStart` | src/main/java/com/prhythm/app/remotetail/core/GotoLineEditorController.java:25 | a suffix of the text that starts with a non-blank, everything cut off being blank |
| `GotoLine.TrimEnd` | src/main/java/com/prhythm/app/remotetail/core/GotoLineEditorController.java:25 | a prefix of the text that ends with a non-blank, everything cut off being blank |
| `GotoLine.Trim` | src/main/java/com/prhythm/app/remotetail/core/GotoLineEditorController.java:25 | the text is some blanks, then the trimmed text, then some blanks; the trimmed text is empty or starts and ends with a non-blank |
| `GotoLine.TrimPadded` | src/main/java/com/prhythm/app/remotetail/core/GotoLineEditorController.java:25 | blanks added before and after the text do not change the trimmed text |
| `GotoLine.TrimUnpadded` | src/main/java/com/prhythm/app/remotetail/core/GotoLineEditorController.java:25 | text without blanks at its ends is its own trim |
| `GotoLine.ParseInt` | src/main/java/com/prhythm/app/remotetail/core/GotoLineEditorController.java:25-29 | a parsed value lies in the 32-bit range and comes from text that starts with a digit or a sign |
| `GotoLine.DigitsValueOfNatToString` | src/main/java/com/prhythm/app/remotetail/core/GotoLineEditorController.java:25 | the digits written for n read back as n |
| `GotoLine.ParseIntToString` | src/main/java/com/prhythm/app/remotetail/core/GotoLineEditorController.java:25-29 | parsing the decimal form of n gives n exactly when n fits 32 bits, and fails otherwise |
| `GotoLine.SelectedLineNumber` | src/main/java/com/prhythm/app/remotetail/core/GotoLineEditorController.java:22-30 | a result is a positive 32-bit int and is the parse of the trimmed text; a positive parse of the trimmed text is returned as it is; null or all-blank text gives none |
| `GotoLine.SelectedLineNumberOfInt` | src/main/java/com/prhythm/app/remotetail/core/GotoLineEditorController.java:22-30 | typing the decimal form of n selects n iff 0 < n <= 2^31 - 1; zero, negatives and too-large numbers select nothing |
| `GotoLine.SelectedLineNumberPadded` | src/main/java/com/prhythm/app/remotetail/core/GotoLineEditorController.java:23-25 | blanks before and after the text do not change the result |
| `GotoLine.PlusSignExample` | src/main/java/com/prhythm/app/remotetail/core/GotoLineEditorController.java:25-26 | "+7" selects line 7 |
| `GotoLine.ZeroExample` | src/main/java/com/prhythm/app/remotetail/core/GotoLineEditorController.java:26 | "0" parses to 0 but selects nothing |

## Findings

| source | as written | input that shows it | evidently intended | confidence | as-written member | corrected member |
|---|---|---|---|---|---|---|
| src/main/java/com/prhythm/app/remotetail/data/FilteredLogReaderList.java:255 | `readLines` calls `notifyObservers(path)` without calling `setChanged()` first. `java.util.Observable` only notifies while its changed flag is set, and nothing in the view sets it, so the notification reaches nobody. | matched [2,5,9,14], empty cache; `get(0)` returns an unloaded cell for line 2 and registers it; `readLines` with output ["second line"] caches line 2, but the cell stays unloaded without content | the cells registered in `get` (line 105, "add observer to update content") are updated when their line arrives | high for the model; not executed | `FilteredList.FilteredLogReaderList.ReadLinesAsWritten`, exhibited by `FilteredList.MissedNotification` | `FilteredList.FilteredLogReaderList.ReadLines` (sets the flag first; `FilteredList.EndToEnd` shows the cell loaded) |

`AddObserver` compares with `Line.equals`, which looks only at the index. So
even after the correction, only the first cell handed out for a line is
registered and updated. A later cell for the same line stays unloaded; the
`Get` contract states this. The list view on screen refreshes by asking for
the rows again through its invalidation listener, which this model leaves out.

## Left out

- The background loop `run()` is left out: the stop flags, the 2-second sleep
  and `finalize` are concurrency and timing. One `readLines` step as written
  is `ReadLinesAsWritten`, and `ReadLines` is the corrected step.
  `DrainShrinks` shows repeated successful steps empty the pending set.
- The remote session and channels are left out: the connect checks, opening
  channels, the `grep` and `sed` command strings, streams and disconnects are
  I/O. The `sed` output is the argument of `Drain`/`ReadLines`, with `None`
  standing for any exception from these calls, and the search
  result is the `matched` sequence given to the constructor.
- The `Once` memoisation of the search (and its failure behaviour), UTF-8
  decoding and the `Integer.parseInt` of the grep output are left out. The
  matched list is fixed for the view's lifetime, as the memoised value is once
  computed.
- The `pattern` field is left out: it is only used to build the search command.
- The `LogPath` class is not part of this model. Only its line map is modelled:
  `hasLine` is key membership, `atLine` is lookup, `addLine` is a put that
  overwrites.
- `synchronized` blocks and the concurrent pending set are left out: one step
  runs at a time.
- The JavaFX listeners are left out: `addListener`/`removeListener` and
  `invalidationListener.invalidated` are UI plumbing.
- `listIterator()` is left out: no behaviour is promised for it.
- `getIndex` and `getContent` are plain field reads; the model reads the fields
  directly.
- The `Observable o` parameter of `Line.update` is not modelled; the method
  ignores it.
- `GotoLineEditorController.focus` is left out: it only schedules a focus
  request on the JavaFX thread.
- src/test/java/JchsTest.java is left out: it is a live SSH session test.
- Coalescing.TakeUntilGap: line numbers are unbounded integers, so the 32-bit
  wrap-around of `previous + 1` and of `i + min` is not modelled. Neither can
  occur for a strictly ascending run of line numbers below 2^31 - 1.
- GotoLine.ParseInt: only ASCII digits are accepted. Java's `parseInt` also
  accepts other Unicode decimal digits.
- GotoLine.IsNullOrWhiteSpace: the `Strings` helper is not part of this model.
  It is read as "null, or empty after trim". Any definition of blank that
  excludes digits and signs gives the same `SelectedLineNumber`, because
  `parseInt` fails on such text anyway.
