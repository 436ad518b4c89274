/**
 * The batching step of FilteredLogReaderList.readLines: which pending line
 * numbers one remote read fetches, the bounds of that read, and where the
 * fetched lines land in the cache.
 *
 * The specification side (MinOf, RunFrom, PendingRun, FetchBounds, Fill)
 * describes the step on values; the methods OrderBy and TakeUntilGap are the
 * sorting and run-taking loops the source runs, proved against it.
 */
module Coalescing {

  /** The elements of a sequence, as a set. */
  function Elements(s: seq<int>): set<int>
  {
    set x | x in s
  }

  ghost predicate StrictlyIncreasing(s: seq<int>)
  {
    forall i, j :: 0 <= i < j < |s| ==> s[i] < s[j]
  }

  /** Every element is one more than the one before it. */
  ghost predicate Consecutive(s: seq<int>)
  {
    forall i :: 0 <= i < |s| ==> s[i] == s[0] + i
  }

  /** A non-empty set has an element to pick. */
  lemma Inhabited(s: set<int>)
    requires s != {}
    ensures exists x :: x in s
  {
    if forall x :: x !in s {
      assert false;
    }
  }

  /** The smallest element of a non-empty set. */
  ghost function MinOf(s: set<int>): (m: int)
    requires s != {}
    ensures m in s && forall y :: y in s ==> m <= y
  {
    Inhabited(s);
    var x :| x in s;
    if s - {x} == {} then
      assert forall y :: y in s ==> y == x by {
        forall y | y in s ensures y == x {
          assert y !in s - {x};
        }
      }
      x
    else
      var rest := MinOf(s - {x});
      assert forall y :: y in s ==> y == x || y in s - {x};
      if x < rest then x else rest
  }

  /** The numbers x, x + 1, ... as long as each is in `p`. */
  function RunFrom(p: set<int>, x: int): (r: seq<int>)
    ensures forall i :: 0 <= i < |r| ==> r[i] == x + i && r[i] in p
    ensures x + |r| !in p
    decreases |p|
  {
    if x in p then [x] + RunFrom(p - {x}, x + 1) else []
  }

  /**
   * The run one readLines step fetches: the maximal block of consecutive
   * numbers that starts at the smallest pending number.
   */
  ghost function PendingRun(p: set<int>): (r: seq<int>)
    ensures p == {} <==> r == []
    ensures r != [] ==> r[0] == MinOf(p) && Consecutive(r)
    ensures Elements(r) <= p
    ensures r != [] ==> r[|r| - 1] + 1 !in p
  {
    if p == {} then [] else RunFrom(p, MinOf(p))
  }

  /** A block of consecutive members of `p` that ends before a non-member is RunFrom's. */
  lemma {:induction false} RunFromUnique(p: set<int>, x: int, r: seq<int>)
    requires forall i :: 0 <= i < |r| ==> r[i] == x + i && r[i] in p
    requires x + |r| !in p
    ensures RunFrom(p, x) == r
    decreases |r|
  {
    if r == [] {
    } else {
      assert r[0] == x && x in p;
      var r' := r[1..];
      forall i | 0 <= i < |r'|
        ensures r'[i] == x + 1 + i && r'[i] in p - {x}
      {
        assert r'[i] == r[i + 1];
      }
      RunFromUnique(p - {x}, x + 1, r');
      assert r == [x] + r';
    }
  }

  /**
   * Draining the run strictly shrinks a non-empty pending set, so repeated
   * steps empty it.
   */
  lemma DrainShrinks(p: set<int>)
    requires p != {}
    ensures |p - Elements(PendingRun(p))| < |p|
  {
    var r := PendingRun(p);
    assert r[0] in Elements(r);
    var rest := p - Elements(r);
    assert rest + {r[0]} <= p && r[0] !in rest;
    assert |rest + {r[0]}| == |rest| + 1;
    SubsetCard(rest + {r[0]}, p);
  }

  lemma {:induction false} SubsetCard(a: set<int>, b: set<int>)
    requires a <= b
    ensures |a| <= |b|
    decreases b
  {
    if a != {} {
      Inhabited(a);
      var x :| x in a;
      SubsetCard(a - {x}, b - {x});
    }
  }

  /** The example of a pending set with a gap: {5,6,7,10,11} fetches 5..7, then 10..11. */
  lemma CoalesceExample()
    ensures PendingRun({5, 6, 7, 10, 11}) == [5, 6, 7]
    ensures {5, 6, 7, 10, 11} - Elements([5, 6, 7]) == {10, 11}
    ensures PendingRun({10, 11}) == [10, 11]
  {
    var p := {5, 6, 7, 10, 11};
    assert MinOf(p) == 5;
    RunFromUnique(p, 5, [5, 6, 7]);
    assert MinOf({10, 11}) == 10;
    RunFromUnique({10, 11}, 10, [10, 11]);
  }

  /** Math.max(1, x): line numbers handed to the remote read are at least 1. */
  function AtLeastOne(x: int): (r: int)
    ensures 1 <= r && x <= r
    ensures r == x || r == 1
  {
    if x < 1 then 1 else x
  }

  /** The least element of a non-empty sequence. */
  function SeqMin(s: seq<int>): (m: int)
    requires s != []
    ensures m in s && forall x :: x in s ==> m <= x
  {
    if |s| == 1 then s[0]
    else
      var rest := SeqMin(s[1..]);
      assert forall x :: x in s ==> x == s[0] || x in s[1..];
      if s[0] < rest then s[0] else rest
  }

  /** The greatest element of a non-empty sequence. */
  function SeqMax(s: seq<int>): (m: int)
    requires s != []
    ensures m in s && forall x :: x in s ==> x <= m
  {
    if |s| == 1 then s[0]
    else
      var rest := SeqMax(s[1..]);
      assert forall x :: x in s ==> x == s[0] || x in s[1..];
      if s[0] > rest then s[0] else rest
  }

  /**
   * The first and last line of the remote read for a run: its least and
   * greatest element, each raised to at least 1.
   */
  function FetchBounds(run: seq<int>): (b: (int, int))
    requires run != []
    ensures 1 <= b.0 <= b.1
    ensures exists x :: x in run && b.0 == AtLeastOne(x)
    ensures exists x :: x in run && b.1 == AtLeastOne(x)
    ensures forall x :: x in run ==> b.0 <= AtLeastOne(x) <= b.1
  {
    (AtLeastOne(SeqMin(run)), AtLeastOne(SeqMax(run)))
  }

  /** For a run of consecutive numbers the bounds are its clamped ends. */
  lemma FetchBoundsOfRun(run: seq<int>)
    requires run != [] && Consecutive(run)
    ensures FetchBounds(run) == (AtLeastOne(run[0]), AtLeastOne(run[|run| - 1]))
  {
    var b := FetchBounds(run);
    var lo :| lo in run && b.0 == AtLeastOne(lo);
    var hi :| hi in run && b.1 == AtLeastOne(hi);
    assert run[0] <= lo && hi <= run[|run| - 1];
    assert b.0 <= AtLeastOne(run[0]) && AtLeastOne(run[|run| - 1]) <= b.1;
  }

  /**
   * The cache after storing the fetched lines in order: line i of the remote
   * output goes under key lo + i, overwriting what was there.
   */
  function Fill(cache: map<int, string>, lo: int, lines: seq<string>): (c: map<int, string>)
    ensures forall k :: lo <= k < lo + |lines| ==> k in c && c[k] == lines[k - lo]
    ensures forall k :: k < lo || lo + |lines| <= k ==> (k in c <==> k in cache)
    ensures forall k :: (k < lo || lo + |lines| <= k) && k in cache ==> c[k] == cache[k]
    ensures forall k :: k in c ==> k in cache || lo <= k < lo + |lines|
    decreases |lines|
  {
    if lines == [] then cache
    else Fill(cache, lo, lines[..|lines| - 1])[lo + |lines| - 1 := lines[|lines| - 1]]
  }

  /** The smallest element of a non-empty set, found by one pass over it. */
  method SetMin(s: set<int>) returns (m: int)
    requires s != {}
    ensures m in s && forall y :: y in s ==> m <= y
  {
    Inhabited(s);
    m :| m in s;
    var rest := s - {m};
    while rest != {}
      invariant rest <= s && m in s
      invariant forall y :: y in s && y !in rest ==> m <= y
      decreases rest
    {
      Inhabited(rest);
      var y :| y in rest;
      if y < m {
        m := y;
      }
      rest := rest - {y};
    }
  }

  /** The pending numbers in ascending order (Cube's orderBy on a set of integers). */
  method OrderBy(s: set<int>) returns (sorted: seq<int>)
    ensures StrictlyIncreasing(sorted)
    ensures Elements(sorted) == s
  {
    sorted := [];
    var rest := s;
    while rest != {}
      invariant rest <= s && Elements(sorted) == s - rest
      invariant StrictlyIncreasing(sorted)
      invariant forall i, y :: 0 <= i < |sorted| && y in rest ==> sorted[i] < y
      decreases rest
    {
      var m := SetMin(rest);
      assert Elements(sorted + [m]) == Elements(sorted) + {m};
      sorted := sorted + [m];
      rest := rest - {m};
    }
  }

  /**
   * Cube's takeUntil with the predicate of readLines: the elements before the
   * first one that does not follow its predecessor by exactly one. The
   * predicate remembers the previous element in `previous` and never stops at
   * the first element.
   */
  method TakeUntilGap(items: seq<int>) returns (run: seq<int>)
    ensures run <= items
    ensures items != [] ==> run != []
    ensures forall i :: 0 <= i < |run| ==> run[i] == run[0] + i
    ensures run != [] && |run| < |items| ==> items[|run|] != run[|run| - 1] + 1
  {
    run := [];
    var previous := 0;
    var i := 0;
    var stop := false;
    while i < |items| && !stop
      invariant 0 <= i <= |items| && run == items[..i]
      invariant i > 0 && !stop ==> previous == items[i - 1]
      invariant forall k :: 0 <= k < i ==> items[k] == items[0] + k
      invariant stop ==> 0 < i < |items| && items[i] != items[i - 1] + 1
      decreases |items| - i, !stop
    {
      var item := items[i];
      if i == 0 {
        previous := item;
      } else {
        stop := previous + 1 != item;
        previous := item;
      }
      if !stop {
        run := run + [item];
        i := i + 1;
      }
    }
  }

  /**
   * The run TakeUntilGap takes from the ascending pending numbers is
   * PendingRun of the pending set.
   */
  lemma SortedRunIsPendingRun(p: set<int>, sorted: seq<int>, run: seq<int>)
    requires p != {}
    requires StrictlyIncreasing(sorted) && Elements(sorted) == p
    requires run <= sorted && run != [] && Consecutive(run)
    requires |run| < |sorted| ==> sorted[|run|] != run[|run| - 1] + 1
    ensures run == PendingRun(p)
  {
    assert run[0] == sorted[0] && sorted[0] in Elements(sorted);
    forall y | y in p ensures sorted[0] <= y {
      var j :| 0 <= j < |sorted| && sorted[j] == y;
      assert j == 0 || sorted[0] < sorted[j];
    }
    assert MinOf(p) == run[0];
    var next := run[0] + |run|;
    forall j | 0 <= j < |sorted| ensures sorted[j] != next {
      if j < |run| {
        assert sorted[j] == run[j] == run[0] + j;
      } else {
        assert run[|run| - 1] == sorted[|run| - 1] < sorted[|run|];
        assert sorted[|run|] <= sorted[j];
      }
    }
    assert next !in p;
    forall i | 0 <= i < |run| ensures run[i] == run[0] + i && run[i] in p {
      assert run[i] == sorted[i];
    }
    RunFromUnique(p, run[0], run);
  }

  /**
   * The run selection of readLines: Cube.from(pending).orderBy().takeUntil(..)
   * with the gap predicate, which yields PendingRun of the pending set.
   */
  method SelectRun(pending: set<int>) returns (run: seq<int>)
    requires pending != {}
    ensures run == PendingRun(pending)
  {
    var sorted := OrderBy(pending);
    assert sorted != [] by {
      Inhabited(pending);
      var x :| x in pending;
      assert x in Elements(sorted);
    }
    run := TakeUntilGap(sorted);
    SortedRunIsPendingRun(pending, sorted, run);
  }
}
