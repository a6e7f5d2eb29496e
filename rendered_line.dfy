/**
 * The rendered-line buffer of the log viewer: each ingested log line together
 * with the number of wrapped rows it occupies and the rows that hold a hit of
 * the current search, and the collection of such lines with its height sums,
 * filtering and match navigation in a bottom-anchored scroll space.
 *
 * Painting is reduced to a ghost counter of repaints; the highlighter that
 * paints hits and reports their rows is a parameter of `Search`.
 */
module RenderedLines {

  import opened Wrappers
  import opened Lines

  /**
   * The visible window in bottom-anchored coordinates: `reverseIndex` rows
   * from the newest row to the window's trailing edge, and `limit` (the
   * viewport's `limit()`) its leading edge.
   */
  datatype Viewport = Viewport(reverseIndex: nat, limit: nat)

  /** A match cursor: a line position and an index into its found matches. */
  datatype MatchedLine = MatchedLine(line: nat, matchIndex: nat)

  /** One log line as rendered: its text, its wrapped height and its hits. */
  class RenderedLine {
    const line: Line
    const height: nat
    /** Row offsets within the line that hold a hit; `None` when not matching. */
    var foundMatches: Option<seq<nat>>
    /** How many times the line has been painted. */
    ghost var repaints: nat

    constructor (line: Line, height: nat, foundMatches: Option<seq<nat>>)
      ensures this.line == line && this.height == height
      ensures this.foundMatches == foundMatches
      ensures repaints == 0
    {
      this.line := line;
      this.height := height;
      this.foundMatches := foundMatches;
      repaints := 0;
    }

    /** Paints the line at its position in the window. */
    ghost method Print()
      modifies this`repaints
      ensures repaints == old(repaints) + 1
    {
      repaints := repaints + 1;
    }

    /** Replaces the match state and reports whether it changed. */
    method UpdateFoundMatches(found: Option<seq<nat>>) returns (changed: bool)
      modifies this`foundMatches
      ensures changed <==> old(foundMatches) != found
      ensures foundMatches == found
    {
      if foundMatches != found {
        foundMatches := found;
        changed := true;
      } else {
        changed := false;
      }
    }

    /**
     * Searches the line for `text`. `highlighted` is what the highlighter
     * reports, for this line, as the rows holding a hit.
     * The line is painted when it matches, and also when it does not match
     * but its stale hits have to be erased; never twice in one call.
     */
    method Search(text: string, highlighted: seq<nat>) returns (isMatch: bool)
      modifies this`foundMatches, this`repaints
      ensures isMatch <==> line.Contains(text)
      ensures foundMatches == if isMatch then Some(highlighted) else None
      ensures repaints == old(repaints) + if isMatch || old(foundMatches).Some? then 1 else 0
    {
      isMatch := line.Contains(text);
      var found: Option<seq<nat>> := None;
      if isMatch {
        Print();
        found := Some(highlighted);
      }
      var changed := UpdateFoundMatches(found);
      if changed && !isMatch {
        Print();
      }
    }

    /**
     * The match state is well formed: when present it holds at least one
     * row, in strictly increasing order, each below the line's height.
     * The highlighter, not this class, establishes it.
     */
    ghost predicate WellFormed()
      reads this
    {
      match foundMatches
      case None => true
      case Some(ms) =>
        |ms| > 0 && (forall j :: 0 <= j < |ms| ==> ms[j] < height) &&
        forall j, j' :: 0 <= j < j' < |ms| ==> ms[j] < ms[j']
    }

    /** An independent copy of the line (the source derives `Clone`). */
    method Clone() returns (c: RenderedLine)
      ensures fresh(c) && SameLine(c, this)
    {
      c := new RenderedLine(line, height, foundMatches);
    }

    /** The number of rows holding a hit; the source unwraps the match state. */
    function MatchCount(): nat
      reads this
      requires foundMatches.Some?
    {
      |foundMatches.value|
    }
  }

  /** How many of the first `b` elements `take(a)` keeps, or where `skip(a)` starts. */
  function Min(a: nat, b: nat): nat {
    if a <= b then a else b
  }

  /**
   * What `find_match` sees of a scan: each line's position, as the scan
   * numbers it, paired with the line's match state.
   */
  type Scan = seq<(nat, Option<seq<nat>>)>

  /** The elements of `s` from the last to the first, as `.rev()` yields them. */
  function Reverse<T>(s: seq<T>): (r: seq<T>)
    ensures |r| == |s|
  {
    seq(|s|, k requires 0 <= k < |s| => s[|s| - 1 - k])
  }

  /** Each element paired with its position, as `.enumerate()` yields them. */
  function Enumerate<T>(s: seq<T>): (ps: seq<(nat, T)>)
    ensures |ps| == |s|
  {
    seq(|s|, k requires 0 <= k < |s| => (k, s[k]))
  }

  /** The match state of each line, in order. */
  function FoundStates(es: seq<RenderedLine>): (fs: seq<Option<seq<nat>>>)
    reads es
    ensures |fs| == |es|
  {
    seq(|es|, k requires 0 <= k < |es| reads es => es[k].foundMatches)
  }

  /** The sum of the lines' heights: the source's `Height` fold. */
  function SumHeights(es: seq<RenderedLine>): nat {
    if es == [] then 0 else es[0].height + SumHeights(es[1..])
  }

  lemma {:induction false} SumHeightsAppend(a: seq<RenderedLine>, b: seq<RenderedLine>)
    ensures SumHeights(a + b) == SumHeights(a) + SumHeights(b)
  {
    if a == [] {
      assert a + b == b;
    } else {
      assert (a + b)[1..] == a[1..] + b;
      SumHeightsAppend(a[1..], b);
    }
  }

  lemma {:induction false} SumHeightsReverse(s: seq<RenderedLine>)
    ensures SumHeights(Reverse(s)) == SumHeights(s)
  {
    if s != [] {
      assert Reverse(s) == Reverse(s[1..]) + [s[0]];
      SumHeightsReverse(s[1..]);
      SumHeightsAppend(Reverse(s[1..]), [s[0]]);
    }
  }

  /**
   * Whether the `FindMatch` scan over `ps` can complete: the first line in
   * the scan that holds matches holds at least one, so that its
   * `match_count() - 1` does not underflow.
   */
  predicate Findable(ps: Scan) {
    ps == [] ||
    match ps[0].1
    case Some(ms) => |ms| > 0
    case None => Findable(ps[1..])
  }

  /**
   * The position in the scan of the first line that holds matches, or the
   * scan's length when none does.
   */
  ghost function FirstFoundIndex(ps: Scan): (i: nat)
    ensures i <= |ps|
    ensures i < |ps| ==> ps[i].1.Some?
    ensures forall k :: 0 <= k < i ==> ps[k].1.None?
  {
    if ps == [] || ps[0].1.Some? then 0 else 1 + FirstFoundIndex(ps[1..])
  }

  /**
   * The first pair of the scan whose line holds matches, as a cursor at that
   * pair's position and its last match (`match_count() - 1`); `None` when no
   * line of the scan holds matches.
   */
  function FindMatch(ps: Scan): (r: Option<MatchedLine>)
    requires Findable(ps)
    ensures r.None? <==> forall k :: 0 <= k < |ps| ==> ps[k].1.None?
    ensures r.Some? ==> var i := FirstFoundIndex(ps);
                        i < |ps| && r.value.line == ps[i].0 && r.value.matchIndex + 1 == |ps[i].1.value|
  {
    if ps == [] then None
    else if ps[0].1.Some? then Some(MatchedLine(ps[0].0, |ps[0].1.value| - 1))
    else
      assert forall k :: 0 <= k < |ps[1..]| ==> ps[1..][k] == ps[k + 1];
      FindMatch(ps[1..])
  }

  /** If every line that holds matches holds at least one, every scan completes. */
  lemma {:induction false} FindableWhenNonEmpty(ps: Scan)
    requires forall k :: 0 <= k < |ps| && ps[k].1.Some? ==> |ps[k].1.value| > 0
    ensures Findable(ps)
  {
    if ps != [] && ps[0].1.None? {
      assert forall k :: 0 <= k < |ps[1..]| ==> ps[1..][k] == ps[k + 1];
      FindableWhenNonEmpty(ps[1..]);
    }
  }

  /** The ordered collection of rendered lines, oldest first. */
  class RenderedLineCollection {
    var entries: seq<RenderedLine>

    /** An empty buffer. */
    constructor Default()
      ensures entries == [] && IsEmpty()
    {
      entries := [];
    }

    /** Appends a new line after all existing ones. */
    method Create(line: Line, height: nat, foundMatches: Option<seq<nat>>)
      modifies this
      ensures |entries| == |old(entries)| + 1
      ensures entries[..|old(entries)|] == old(entries)
      ensures fresh(entries[|old(entries)|])
      ensures Get(|old(entries)|).line == line && Get(|old(entries)|).height == height
      ensures Get(|old(entries)|).foundMatches == foundMatches
      ensures Height() == old(Height()) + height && !IsEmpty()
    {
      var entry := new RenderedLine(line, height, foundMatches);
      SumHeightsAppend(entries, [entry]);
      entries := entries + [entry];
    }

    /**
     * The lines whose text contains `text`, in their original order, as
     * independent copies; the receiver is left as it was.
     */
    method Matching(text: string) returns (c: RenderedLineCollection)
      ensures fresh(c)
      ensures MatchingCopies(c.entries, entries, text)
      ensures forall j :: 0 <= j < |c.entries| ==> fresh(c.entries[j])
      ensures forall j, j' :: 0 <= j < j' < |c.entries| ==> c.entries[j] != c.entries[j']
    {
      var kept := Filter(entries, text, |entries|);
      var copies := CloneAll(kept);
      c := new RenderedLineCollection.Default();
      c.entries := copies;
    }

    /** The total height of the buffer, in rows. */
    function Height(): nat
      reads this
    {
      SumHeights(entries)
    }

    /** Empties the buffer. */
    method Clear()
      modifies this
      ensures entries == [] && Height() == 0 && IsEmpty()
    {
      entries := [];
    }

    /** The number of lines. */
    function Len(): nat
      reads this
    {
      |entries|
    }

    /** Whether the buffer holds no line. */
    function IsEmpty(): (r: bool)
      reads this
      ensures r <==> Len() == 0
    {
      |entries| == 0
    }

    /** Indexed access; out of range is a caller bug. */
    function Get(index: nat): RenderedLine
      reads this
      requires index < |entries|
    {
      entries[index]
    }

    /**
     * The distance, in rows, from the newest row to row `matchIndex`'s offset
     * in line `lineIndex`: the height of that line and all newer ones, less
     * the offset.
     */
    function BufferReverseIndex(lineIndex: nat, matchIndex: nat): (r: int)
      reads this, entries
      requires lineIndex < |entries| && entries[lineIndex].foundMatches.Some?
      requires matchIndex < |entries[lineIndex].foundMatches.value|
      ensures r + HeightUpToIndex(lineIndex) + entries[lineIndex].foundMatches.value[matchIndex] == Height()
      ensures r == LastLinesHeight(|entries| - lineIndex) - entries[lineIndex].foundMatches.value[matchIndex]
    {
      var offset := entries[lineIndex].foundMatches.value[matchIndex];
      HeightSplit(lineIndex);
      LastLinesHeightIsSuffix(|entries| - lineIndex);
      SumHeights(entries[lineIndex..]) - offset
    }

    /** The height of the lines before position `index`. */
    function HeightUpToIndex(index: nat): nat
      reads this
    {
      SumHeights(entries[..Min(index, |entries|)])
    }

    /** The height of the `count` newest lines. */
    function LastLinesHeight(count: nat): nat
      reads this
    {
      SumHeights(Reverse(entries)[..Min(count, |entries|)])
    }

    /** The newest lines taken in reverse add up to the same height as the suffix. */
    lemma LastLinesHeightIsSuffix(count: nat)
      ensures LastLinesHeight(count) == SumHeights(entries[|entries| - Min(count, |entries|)..])
    {
      var n := |entries|;
      var k := Min(count, n);
      assert Reverse(entries)[..k] == Reverse(entries[n - k..]);
      SumHeightsReverse(entries[n - k..]);
    }

    /** Every split point divides the total height into a prefix and a suffix. */
    lemma HeightSplit(n: nat)
      requires n <= |entries|
      ensures HeightUpToIndex(n) + LastLinesHeight(|entries| - n) == Height()
    {
      LastLinesHeightIsSuffix(|entries| - n);
      assert entries[..n] + entries[n..] == entries;
      SumHeightsAppend(entries[..n], entries[n..]);
    }

    /** Taking one more of the newest lines adds that line's height. */
    lemma LastLinesHeightStep(k: nat)
      requires k < |entries|
      ensures LastLinesHeight(k + 1) == LastLinesHeight(k) + entries[|entries| - 1 - k].height
    {
      var n := |entries|;
      LastLinesHeightIsSuffix(k);
      LastLinesHeightIsSuffix(k + 1);
      assert entries[n - (k + 1)..][1..] == entries[n - k..];
    }

    /** Taking more of the newest lines never lowers their height. */
    lemma LastLinesHeightMonotone(a: nat, b: nat)
      requires a <= b <= |entries|
      ensures LastLinesHeight(a) <= LastLinesHeight(b)
    {
      var n := |entries|;
      LastLinesHeightIsSuffix(a);
      LastLinesHeightIsSuffix(b);
      assert entries[n - b..] == entries[n - b..n - a] + entries[n - a..];
      SumHeightsAppend(entries[n - b..n - a], entries[n - a..]);
    }

    /**
     * Whether matched line `m.line` (a forward position) shows a hit inside
     * the viewport, measuring from the bottom to the line's top row: that
     * height reaches `reverseIndex` and some hit offset added to it stays
     * within `limit`. Only the line is used, not the cursor's match index.
     * The source indexes the line, and unwraps its match state only once
     * the height test has passed.
     */
    method IsMatchInViewport(m: MatchedLine, vp: Viewport) returns (r: bool)
      requires m.line < |entries|
      requires SumHeights(entries[m.line..]) >= vp.reverseIndex ==> entries[m.line].foundMatches.Some?
      ensures var s := LastLinesHeight(|entries| - m.line);
              var found := entries[m.line].foundMatches;
              r <==> s >= vp.reverseIndex && found.Some? &&
                     exists j :: 0 <= j < |found.value| && s + found.value[j] <= vp.limit
    {
      var limit := vp.limit;
      var accumulated := SumHeights(entries[m.line..]);
      LastLinesHeightIsSuffix(|entries| - m.line);
      var line := entries[m.line];
      if accumulated >= vp.reverseIndex {
        var ms := line.foundMatches.value;
        var j := 0;
        while j < |ms|
          invariant j <= |ms|
          invariant forall j' :: 0 <= j' < j ==> accumulated + ms[j'] > limit
        {
          if accumulated + ms[j] <= limit {
            return true;
          }
          j := j + 1;
        }
      }
      return false;
    }

    /**
     * The scan of `viewport_match` reaches the line at position `k` from the
     * newest: the first line always, any later one only while the height of
     * the lines newer than it is still below `limit`.
     */
    predicate Examined(k: nat, vp: Viewport)
      reads this
    {
      k == 0 || LastLinesHeight(k) < vp.limit
    }

    /**
     * The line at position `k` from the newest is one `viewport_match` stops
     * at: it is examined, the lines newer than it are at least `reverseIndex`
     * high, and it has a hit offset that, added to that height, stays within
     * `limit`.
     */
    predicate ViewportCandidate(k: nat, vp: Viewport)
      reads this, entries
      requires k < |entries|
    {
      var e := entries[|entries| - 1 - k];
      var acc := LastLinesHeight(k);
      Examined(k, vp) && acc >= vp.reverseIndex && e.foundMatches.Some? &&
      exists j :: 0 <= j < |e.foundMatches.value| && acc + e.foundMatches.value[j] <= vp.limit
    }

    /**
     * The match closest to the bottom that lies in the viewport, scanning
     * from the newest line. The cursor's line is counted from the newest
     * line (0 is the last entry) and its match index is the first offset of
     * that line that fits.
     */
    method ViewportMatch(vp: Viewport) returns (r: Option<MatchedLine>)
      ensures r.None? <==> forall k :: 0 <= k < |entries| ==> !ViewportCandidate(k, vp)
      ensures r.Some? ==>
                var m := r.value;
                m.line < |entries| && ViewportCandidate(m.line, vp) &&
                (forall k :: 0 <= k < m.line ==> !ViewportCandidate(k, vp)) &&
                var ms := entries[|entries| - 1 - m.line].foundMatches.value;
                m.matchIndex < |ms| && LastLinesHeight(m.line) + ms[m.matchIndex] <= vp.limit &&
                forall j :: 0 <= j < m.matchIndex ==> LastLinesHeight(m.line) + ms[j] > vp.limit
    {
      var accumulated := 0;
      var limit := vp.limit;
      var i := 0;
      while i < |entries|
        invariant i <= |entries|
        invariant accumulated == LastLinesHeight(i)
        invariant i > 0 ==> accumulated < limit
        invariant forall k :: 0 <= k < i ==> !ViewportCandidate(k, vp)
      {
        var line := entries[|entries| - 1 - i];
        if accumulated >= vp.reverseIndex && line.foundMatches.Some? {
          var ms := line.foundMatches.value;
          var j := 0;
          while j < |ms|
            invariant j <= |ms|
            invariant forall j' :: 0 <= j' < j ==> accumulated + ms[j'] > limit
          {
            if accumulated + ms[j] <= limit {
              assert ViewportCandidate(i, vp);
              return Some(MatchedLine(i, j));
            }
            j := j + 1;
          }
        }
        assert !ViewportCandidate(i, vp);
        LastLinesHeightStep(i);
        accumulated := accumulated + line.height;
        if accumulated >= limit {
          forall k | i < k < |entries|
            ensures !ViewportCandidate(k, vp)
          {
            LastLinesHeightMonotone(i + 1, k);
          }
          break;
        }
        i := i + 1;
      }
      return None;
    }

    /**
     * The scan of `last_match`: every line from the newest to the oldest,
     * paired with its position counted from the end.
     */
    function LastScan(): (ps: Scan)
      reads this, entries
      ensures |ps| == |entries|
      ensures forall k :: 0 <= k < |entries| ==> ps[|entries| - 1 - k] == (|entries| - 1 - k, entries[k].foundMatches)
    {
      Enumerate(Reverse(FoundStates(entries)))
    }

    /**
     * The scan of `next_match`: the lines after position `current`, oldest
     * first, each paired with its forward position.
     */
    function NextScan(current: nat): (ps: Scan)
      reads this, entries
      ensures var start := Min(current + 1, |entries|);
              |ps| == |entries| - start &&
              forall k :: start <= k < |entries| ==> ps[k - start] == (k, entries[k].foundMatches)
    {
      var ps := Enumerate(FoundStates(entries));
      ps[Min(current + 1, |ps|)..]
    }

    /**
     * The scan of `previous_match`: the lines before position `current`,
     * newest first, each paired with its forward position. The source's
     * `len - current` underflows when `current` exceeds the length.
     */
    function PreviousScan(current: nat): (ps: Scan)
      reads this, entries
      requires current <= |entries|
      ensures |ps| == current
      ensures forall k :: 0 <= k < current ==> ps[current - 1 - k] == (k, entries[k].foundMatches)
    {
      var ps := Reverse(Enumerate(FoundStates(entries)));
      ps[|entries| - current..]
    }

    /** Some line holds matches. */
    ghost predicate HasMatch()
      reads this, entries
    {
      exists k :: 0 <= k < |entries| && entries[k].foundMatches.Some?
    }

    /** Cursor `m` points at the last hit of the line at forward position `index`. */
    ghost predicate AtLastHit(index: nat, m: MatchedLine)
      reads this, entries
      requires index < |entries|
    {
      entries[index].foundMatches.Some? && m.matchIndex + 1 == entries[index].MatchCount()
    }

    /**
     * The newest line that holds matches, as a position counted from the end
     * (0 is the last entry) and its last hit. The source unwraps the scan's
     * result, so some line must hold matches.
     */
    function LastMatch(): (m: MatchedLine)
      reads this, entries
      requires Findable(LastScan())
      requires HasMatch()
      ensures m.line < |entries| && AtLastHit(|entries| - 1 - m.line, m)
      ensures forall k :: |entries| - 1 - m.line < k < |entries| ==> entries[k].foundMatches.None?
    {
      var ps := LastScan();
      var r := FindMatch(ps);
      assert r.Some? by {
        var k :| 0 <= k < |entries| && entries[k].foundMatches.Some?;
        assert ps[|entries| - 1 - k].1 == entries[k].foundMatches;
      }
      var m := r.value;
      assert m.line < |entries| && AtLastHit(|entries| - 1 - m.line, m)
             && forall i :: |entries| - 1 - m.line < i < |entries| ==> entries[i].foundMatches.None? by {
        var k := FirstFoundIndex(ps);
        assert ps[k] == (k, entries[|entries| - 1 - k].foundMatches);
      }
      m
    }

    /**
     * The first line after forward position `current` that holds matches,
     * with its forward position and its last hit; `None` when no later line
     * holds any.
     */
    function NextMatch(current: nat): (r: Option<MatchedLine>)
      reads this, entries
      requires Findable(NextScan(current))
      ensures r.None? <==> forall k :: current < k < |entries| ==> entries[k].foundMatches.None?
      ensures r.Some? ==> current < r.value.line < |entries| && AtLastHit(r.value.line, r.value)
      ensures r.Some? ==> forall k :: current < k < r.value.line ==> entries[k].foundMatches.None?
    {
      var ps := NextScan(current);
      var r := FindMatch(ps);
      if current + 1 >= |entries| then
        assert ps == [];
        r
      else
        assert r.Some? ==> current < r.value.line < |entries| && AtLastHit(r.value.line, r.value)
                           && forall k :: current < k < r.value.line ==> entries[k].foundMatches.None? by {
          if r.Some? {
            var j := FirstFoundIndex(ps);
            assert ps[j] == (current + 1 + j, entries[current + 1 + j].foundMatches);
          }
        }
        r
    }

    /**
     * The nearest line before forward position `current` that holds
     * matches, with its forward position and its last hit; `None` when no
     * earlier line holds any.
     */
    function PreviousMatch(current: nat): (r: Option<MatchedLine>)
      reads this, entries
      requires current <= |entries|
      requires Findable(PreviousScan(current))
      ensures r.None? <==> forall k :: 0 <= k < current ==> entries[k].foundMatches.None?
      ensures r.Some? ==> r.value.line < current && AtLastHit(r.value.line, r.value)
      ensures r.Some? ==> forall k :: r.value.line < k < current ==> entries[k].foundMatches.None?
    {
      var ps := PreviousScan(current);
      var r := FindMatch(ps);
      assert r.Some? ==> r.value.line < current && AtLastHit(r.value.line, r.value)
                         && forall k :: r.value.line < k < current ==> entries[k].foundMatches.None? by {
        if r.Some? {
          var j := FirstFoundIndex(ps);
          assert ps[j] == (current - 1 - j, entries[current - 1 - j].foundMatches);
        }
      }
      r
    }

    /**
     * Every line's match state, when present, is non-empty, strictly
     * increasing and below the line's height.
     */
    ghost predicate AllWellFormed()
      reads this, entries
    {
      forall k :: 0 <= k < |entries| ==> entries[k].WellFormed()
    }

    /** When every match state is well formed, the scan of `last_match` completes. */
    lemma LastScanFindable()
      requires AllWellFormed()
      ensures Findable(LastScan())
    {
      var ps := LastScan();
      var n := |entries|;
      forall k | 0 <= k < |ps| && ps[k].1.Some?
        ensures |ps[k].1.value| > 0
      {
        assert ps[n - 1 - (n - 1 - k)] == (k, entries[n - 1 - k].foundMatches);
        assert entries[n - 1 - k].WellFormed();
      }
      FindableWhenNonEmpty(ps);
    }

    /** When every match state is well formed, the scan of `next_match` completes. */
    lemma NextScanFindable(current: nat)
      requires AllWellFormed()
      ensures Findable(NextScan(current))
    {
      var ps := NextScan(current);
      var start := Min(current + 1, |entries|);
      forall k | 0 <= k < |ps| && ps[k].1.Some?
        ensures |ps[k].1.value| > 0
      {
        assert ps[start + k - start] == (start + k, entries[start + k].foundMatches);
        assert entries[start + k].WellFormed();
      }
      FindableWhenNonEmpty(ps);
    }

    /** When every match state is well formed, the scan of `previous_match` completes. */
    lemma PreviousScanFindable(current: nat)
      requires AllWellFormed() && current <= |entries|
      ensures Findable(PreviousScan(current))
    {
      var ps := PreviousScan(current);
      forall k | 0 <= k < |ps| && ps[k].1.Some?
        ensures |ps[k].1.value| > 0
      {
        assert ps[current - 1 - (current - 1 - k)] == (current - 1 - k, entries[current - 1 - k].foundMatches);
        assert entries[current - 1 - k].WellFormed();
      }
      FindableWhenNonEmpty(ps);
    }

    /** All the newest lines together are as high as the whole buffer. */
    lemma LastLinesHeightAll()
      ensures LastLinesHeight(|entries|) == Height()
    {
      HeightSplit(0);
      assert entries[..Min(0, |entries|)] == [];
    }

    /**
     * A viewport that covers the whole buffer shows the newest match:
     * `viewport_match` stops at the line `last_match` names (both count it
     * from the end), at its first hit rather than its last.
     */
    lemma FullViewportFindsLastMatch(vp: Viewport)
      requires AllWellFormed() && HasMatch()
      requires vp.reverseIndex == 0 && Height() <= vp.limit
      ensures Findable(LastScan())
      ensures var m := LastMatch();
              ViewportCandidate(m.line, vp) && (forall k :: 0 <= k < m.line ==> !ViewportCandidate(k, vp)) &&
              LastLinesHeight(m.line) + entries[|entries| - 1 - m.line].foundMatches.value[0] <= vp.limit
    {
      LastScanFindable();
      var m := LastMatch();
      var n := |entries|;
      var i := n - 1 - m.line;
      LastLinesHeightAll();
      LastLinesHeightStep(m.line);
      LastLinesHeightMonotone(m.line + 1, n);
      var ms := entries[i].foundMatches.value;
      assert entries[i].WellFormed();
      assert LastLinesHeight(m.line) + ms[0] < LastLinesHeight(m.line + 1) <= vp.limit;
      assert ViewportCandidate(m.line, vp);
      forall k | 0 <= k < m.line
        ensures !ViewportCandidate(k, vp)
      {
        assert entries[n - 1 - k].foundMatches.None?;
      }
    }

    /**
     * Three lines of heights 1, 2 and 1 where only the middle one has hits,
     * on its rows 0 and 1. The second hit sits 2 rows above the bottom; a
     * 4-row viewport at the bottom stops at the middle line (position 1
     * from the end) and, taking the first hit that fits, reports hit 0,
     * while `last_match` reports that line's last hit, 1.
     */
    lemma ThreeLineExample()
      requires |entries| == 3
      requires entries[0].height == 1 && entries[1].height == 2 && entries[2].height == 1
      requires entries[0].foundMatches.None? && entries[2].foundMatches.None?
      requires entries[1].foundMatches == Some([0, 1])
      ensures BufferReverseIndex(1, 1) == 2
      ensures var vp := Viewport(0, 4);
              !ViewportCandidate(0, vp) && ViewportCandidate(1, vp) &&
              LastLinesHeight(1) + entries[1].foundMatches.value[0] <= vp.limit
      ensures Findable(LastScan()) && HasMatch() && LastMatch() == MatchedLine(1, 1)
    {
      LastLinesHeightStep(0);
      LastLinesHeightStep(1);
      LastLinesHeightStep(2);
      assert LastLinesHeight(0) == 0 by { assert Reverse(entries)[..0] == []; }
      assert LastScan()[0].1.None? && LastScan()[1].1 == Some([0, 1]);
    }

    /**
     * Going to the next match and then back to the previous one never
     * overshoots: it lands at or before where it started, and exactly there
     * when the starting line holds matches.
     */
    lemma NextThenPrevious(current: nat)
      requires Findable(NextScan(current)) && NextMatch(current).Some?
      requires Findable(PreviousScan(NextMatch(current).value.line))
      ensures var back := PreviousMatch(NextMatch(current).value.line);
              (back.Some? ==> back.value.line <= current) &&
              (current < |entries| && entries[current].foundMatches.Some? ==>
                 back.Some? && back.value.line == current)
    {
    }
  }

  /** `copy` carries the same text, height and match state as `original`. */
  predicate SameLine(copy: RenderedLine, original: RenderedLine)
    reads copy, original
  {
    copy.line == original.line && copy.height == original.height &&
    copy.foundMatches == original.foundMatches
  }

  /**
   * `copies` holds, position by position, lines with the same text, height
   * and match state as the lines of `es` whose text contains `text`.
   */
  predicate MatchingCopies(copies: seq<RenderedLine>, es: seq<RenderedLine>, text: string)
    reads set c | c in copies, set e | e in es
  {
    var ps := MatchingPositions(es, text, |es|);
    |copies| == |ps| && forall j :: 0 <= j < |ps| ==> SameLine(copies[j], es[ps[j]])
  }

  /**
   * The lines among the first `n` of `es` whose text contains `text`, in
   * their order: the `filter` stage of `matching`. They are the lines at
   * the positions `MatchingPositions` lists.
   */
  function Filter(es: seq<RenderedLine>, text: string, n: nat): (kept: seq<RenderedLine>)
    requires n <= |es|
    ensures var ps := MatchingPositions(es, text, n);
            |kept| == |ps| && forall j :: 0 <= j < |ps| ==> kept[j] == es[ps[j]]
  {
    if n == 0 then []
    else Filter(es, text, n - 1) + if es[n - 1].line.Contains(text) then [es[n - 1]] else []
  }

  /**
   * Clones every line of `kept`, in order: the `map` and `collect` stages
   * of `matching`.
   */
  method CloneAll(kept: seq<RenderedLine>) returns (copies: seq<RenderedLine>)
    ensures |copies| == |kept|
    ensures forall j :: 0 <= j < |kept| ==> SameLine(copies[j], kept[j])
    ensures forall j :: 0 <= j < |copies| ==> fresh(copies[j])
    ensures forall j, j' :: 0 <= j < j' < |copies| ==> copies[j] != copies[j']
  {
    copies := [];
    var j := 0;
    while j < |kept|
      invariant j <= |kept| && |copies| == j
      invariant forall i :: 0 <= i < j ==> SameLine(copies[i], kept[i])
      invariant forall i :: 0 <= i < j ==> fresh(copies[i])
      invariant forall i, i' :: 0 <= i < i' < j ==> copies[i] != copies[i']
    {
      var copy := kept[j].Clone();
      assert copy !in copies;
      copies := copies + [copy];
      j := j + 1;
    }
  }

  /**
   * The positions below `n` of the lines whose text contains `text`, in
   * increasing order: every listed position matches and every matching
   * position is listed.
   */
  function MatchingPositions(es: seq<RenderedLine>, text: string, n: nat): (ps: seq<nat>)
    requires n <= |es|
    ensures forall j :: 0 <= j < |ps| ==> ps[j] < n && es[ps[j]].line.Contains(text)
    ensures forall k :: 0 <= k < n && es[k].line.Contains(text) ==> k in ps
    ensures forall j, j' :: 0 <= j < j' < |ps| ==> ps[j] < ps[j']
  {
    if n == 0 then []
    else
      MatchingPositions(es, text, n - 1) + if es[n - 1].line.Contains(text) then [n - 1] else []
  }
}
