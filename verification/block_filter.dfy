/**
 * The pre-filter applied to a reconstructed file before it is handed to the
 * general-purpose universal-file reader: every dataset-151 block (the header
 * dataset that reader cannot process) is cut out of the line list.
 *
 * A line stripping to "151" opens a block when the line just before it in the
 * INPUT strips to "-1". The block runs up to and including the next line that
 * strips to "-1"; the "-1" in front of the "151" line is not part of it.
 *
 * The loop only ever asks of a line whether it strips to "-1" or to "151", so
 * the model first tags every line and then works on the tags.
 */
module BlockFilter {
  import opened Text
  import opened UniversalFile

  /** What the filter looks at in a line: its stripped text compared with "-1" and "151". */
  datatype Tag = SentinelLine | HeaderLine | OtherLine

  function TagOf(line: string): (t: Tag)
    ensures t == SentinelLine <==> Strip(line) == Sentinel
    ensures t == HeaderLine <==> Strip(line) == HeaderDataset
  {
    var s := Strip(line);
    if s == Sentinel then SentinelLine
    else if s == HeaderDataset then HeaderLine
    else OtherLine
  }

  /** The tag of every line, in order. */
  function Tags(lines: seq<string>): (ts: seq<Tag>)
    ensures |ts| == |lines|
    ensures forall k :: 0 <= k < |lines| ==> ts[k] == TagOf(lines[k])
  {
    seq(|lines|, k requires 0 <= k < |lines| => TagOf(lines[k]))
  }

  /** Line `s` opens a block: it is "151" and its input predecessor is "-1". */
  predicate BlockStart(ts: seq<Tag>, s: int) {
    0 < s < |ts| && ts[s] == HeaderLine && ts[s - 1] == SentinelLine
  }

  /** The first line at or after `j` that strips to "-1", or `|ts|` if there is none. */
  function NextSentinel(ts: seq<Tag>, j: nat): (c: nat)
    requires j <= |ts|
    ensures j <= c <= |ts|
    ensures c < |ts| ==> ts[c] == SentinelLine
    ensures forall t :: j <= t < c ==> ts[t] != SentinelLine
    decreases |ts| - j
  {
    if j == |ts| || ts[j] == SentinelLine then j else NextSentinel(ts, j + 1)
  }

  /**
   * The loop of the source: the lines kept from index `i` on. After a block
   * start the scan jumps past the closing "-1", so that line is dropped too.
   * The filter never adds lines.
   */
  function FilterFrom(lines: seq<string>, ts: seq<Tag>, i: nat): (out: seq<string>)
    requires |ts| == |lines| && i <= |lines|
    ensures |out| <= |lines| - i
    decreases |lines| - i
  {
    if i == |lines| then []
    else if BlockStart(ts, i) then
      var c := NextSentinel(ts, i + 1);
      if c == |lines| then [] else FilterFrom(lines, ts, c + 1)
    else [lines[i]] + FilterFrom(lines, ts, i + 1)
  }

  /** The whole filter: exactly the lines that lie in no 151 block, in order. */
  function Filter(lines: seq<string>): (out: seq<string>)
    ensures out == Survivors(lines, Tags(lines), 0)
  {
    FilterFromIsSurvivors(lines, Tags(lines), 0);
    FilterFrom(lines, Tags(lines), 0)
  }

  /* ---------- an independent description of what gets dropped ---------- */

  /** The block opened at `s` still covers line `j`: no "-1" strictly between them. */
  ghost predicate Covers(ts: seq<Tag>, s: int, j: int) {
    BlockStart(ts, s) && s <= j < |ts| &&
    forall t :: s < t < j ==> ts[t] != SentinelLine
  }

  /** Line `j` lies in some 151 block (its closing "-1" included). */
  ghost predicate Dropped(ts: seq<Tag>, j: int) {
    exists s :: 0 < s <= j && Covers(ts, s, j)
  }

  /** The lines from index `j` on that lie in no block, in input order. */
  ghost function Survivors(lines: seq<string>, ts: seq<Tag>, j: nat): seq<string>
    requires |ts| == |lines| && j <= |lines|
    decreases |lines| - j
  {
    if j == |lines| then []
    else (if Dropped(ts, j) then [] else [lines[j]]) + Survivors(lines, ts, j + 1)
  }

  /** The indices from `j` on of lines that lie in no block, ascending. */
  ghost function SurvivorIndices(ts: seq<Tag>, j: nat): seq<nat>
    requires j <= |ts|
    decreases |ts| - j
  {
    if j == |ts| then []
    else
      var rest := SurvivorIndices(ts, j + 1);
      if Dropped(ts, j) then rest else [j] + rest
  }

  /** `SurvivorIndices` lists, in ascending order, exactly the surviving lines and their positions. */
  lemma {:induction false} SurvivorIndicesExact(lines: seq<string>, ts: seq<Tag>, j: nat)
    requires |ts| == |lines| && j <= |lines|
    ensures var idx := SurvivorIndices(ts, j);
            && (forall k :: 0 <= k < |idx| ==> j <= idx[k] < |lines|)
            && (forall k, m :: 0 <= k < m < |idx| ==> idx[k] < idx[m])
            && (forall t :: j <= t < |lines| ==> (t in idx <==> !Dropped(ts, t)))
            && |idx| == |Survivors(lines, ts, j)|
            && (forall k :: 0 <= k < |idx| ==> Survivors(lines, ts, j)[k] == lines[idx[k]])
    decreases |lines| - j
  {
    if j < |lines| {
      SurvivorIndicesExact(lines, ts, j + 1);
      var rest := SurvivorIndices(ts, j + 1);
      assert j !in rest;
    }
  }

  /** No block opened before `i` is still open at `i`: the scan may resume there. */
  ghost predicate Clear(ts: seq<Tag>, i: nat) {
    forall s :: 0 < s < i ==> !Covers(ts, s, i)
  }

  lemma {:induction false} SurvivorsSkipDropped(lines: seq<string>, ts: seq<Tag>, a: nat, b: nat)
    requires |ts| == |lines| && a <= b <= |lines|
    requires forall j :: a <= j < b ==> Dropped(ts, j)
    ensures Survivors(lines, ts, a) == Survivors(lines, ts, b)
    decreases b - a
  {
    if a < b {
      SurvivorsSkipDropped(lines, ts, a + 1, b);
    }
  }

  /** Every line of a block, from the "151" line to its closing "-1", is dropped. */
  lemma BlockIsDropped(ts: seq<Tag>, s: nat, j: nat)
    requires BlockStart(ts, s)
    requires s <= j <= NextSentinel(ts, s + 1) && j < |ts|
    ensures Dropped(ts, j)
  {
    assert Covers(ts, s, j);
  }

  /** After a block's closing "-1" no block is open. */
  lemma ClearAfterBlock(ts: seq<Tag>, i: nat)
    requires Clear(ts, i) && BlockStart(ts, i)
    requires NextSentinel(ts, i + 1) < |ts|
    ensures Clear(ts, NextSentinel(ts, i + 1) + 1)
  {
    var c := NextSentinel(ts, i + 1);
    var e := c + 1;
    forall s | 0 < s < e
      ensures !Covers(ts, s, e)
    {
      if s < i {
        assert !Covers(ts, s, i);
      } else if s == i {
        assert ts[c] == SentinelLine;
      } else {
        assert ts[s - 1] != SentinelLine;
      }
    }
  }

  /** A line that opens no block, seen from a clear position, survives and leaves the next position clear. */
  lemma PlainLineSurvives(ts: seq<Tag>, i: nat)
    requires i < |ts| && Clear(ts, i) && !BlockStart(ts, i)
    ensures !Dropped(ts, i)
    ensures Clear(ts, i + 1)
  {
    var e := i + 1;
    forall s | 0 < s < e
      ensures !Covers(ts, s, e)
    {
      if s < i && Covers(ts, s, e) {
        assert Covers(ts, s, i);
      }
    }
  }

  /** A block seen from a clear position is skipped whole, its closing "-1" included. */
  lemma BlockSkipped(lines: seq<string>, ts: seq<Tag>, i: nat)
    requires |ts| == |lines| && i < |lines| && Clear(ts, i) && BlockStart(ts, i)
    ensures var c := NextSentinel(ts, i + 1);
            && (c == |lines| ==> Survivors(lines, ts, i) == [])
            && (c < |lines| ==> Survivors(lines, ts, i) == Survivors(lines, ts, c + 1) && Clear(ts, c + 1))
  {
    var c := NextSentinel(ts, i + 1);
    var stop := if c == |lines| then c else c + 1;
    forall j | i <= j < stop
      ensures Dropped(ts, j)
    {
      BlockIsDropped(ts, i, j);
    }
    SurvivorsSkipDropped(lines, ts, i, stop);
    if c < |lines| {
      ClearAfterBlock(ts, i);
    }
  }

  /** A closed block is skipped on both sides, and the scan resumes clear after it. */
  lemma ClosedBlockStep(lines: seq<string>, ts: seq<Tag>, i: nat)
    requires |ts| == |lines| && i < |lines| && Clear(ts, i) && BlockStart(ts, i)
    requires NextSentinel(ts, i + 1) < |lines|
    ensures FilterFrom(lines, ts, i) == FilterFrom(lines, ts, NextSentinel(ts, i + 1) + 1)
    ensures Survivors(lines, ts, i) == Survivors(lines, ts, NextSentinel(ts, i + 1) + 1)
    ensures Clear(ts, NextSentinel(ts, i + 1) + 1)
  {
    BlockSkipped(lines, ts, i);
  }

  /** A block that is never closed ends the output on both sides. */
  lemma UnclosedBlockStep(lines: seq<string>, ts: seq<Tag>, i: nat)
    requires |ts| == |lines| && i < |lines| && Clear(ts, i) && BlockStart(ts, i)
    requires NextSentinel(ts, i + 1) == |lines|
    ensures FilterFrom(lines, ts, i) == [] == Survivors(lines, ts, i)
  {
    BlockSkipped(lines, ts, i);
  }

  /** One plain-line step of the scan, on both sides. */
  lemma PlainStep(lines: seq<string>, ts: seq<Tag>, i: nat)
    requires |ts| == |lines| && i < |lines| && Clear(ts, i) && !BlockStart(ts, i)
    ensures FilterFrom(lines, ts, i) == [lines[i]] + FilterFrom(lines, ts, i + 1)
    ensures Survivors(lines, ts, i) == [lines[i]] + Survivors(lines, ts, i + 1)
    ensures Clear(ts, i + 1)
  {
    PlainLineSurvives(ts, i);
  }

  /** The scan from a clear position keeps exactly the lines outside all blocks. */
  lemma {:induction false} FilterFromIsSurvivors(lines: seq<string>, ts: seq<Tag>, i: nat)
    requires |ts| == |lines| && i <= |lines| && Clear(ts, i)
    ensures FilterFrom(lines, ts, i) == Survivors(lines, ts, i)
    decreases |lines| - i, 1
  {
    if i == |lines| {
      assert FilterFrom(lines, ts, i) == [] == Survivors(lines, ts, i);
    } else if !BlockStart(ts, i) {
      FilterFromPlainIsSurvivors(lines, ts, i);
    } else if NextSentinel(ts, i + 1) < |lines| {
      FilterFromBlockIsSurvivors(lines, ts, i);
    } else {
      UnclosedBlockStep(lines, ts, i);
    }
  }

  lemma {:induction false} FilterFromBlockIsSurvivors(lines: seq<string>, ts: seq<Tag>, i: nat)
    requires |ts| == |lines| && i < |lines| && Clear(ts, i) && BlockStart(ts, i)
    requires NextSentinel(ts, i + 1) < |lines|
    ensures FilterFrom(lines, ts, i) == Survivors(lines, ts, i)
    decreases |lines| - i, 0
  {
    ClosedBlockStep(lines, ts, i);
    FilterFromIsSurvivors(lines, ts, NextSentinel(ts, i + 1) + 1);
  }

  lemma {:induction false} FilterFromPlainIsSurvivors(lines: seq<string>, ts: seq<Tag>, i: nat)
    requires |ts| == |lines| && i < |lines| && Clear(ts, i) && !BlockStart(ts, i)
    ensures FilterFrom(lines, ts, i) == Survivors(lines, ts, i)
    decreases |lines| - i, 0
  {
    PlainStep(lines, ts, i);
    FilterFromIsSurvivors(lines, ts, i + 1);
  }

  /**
   * The filter output is the subsequence of the input made of the lines that
   * lie in no 151 block, in their original order.
   */
  lemma FilterKeepsExactlyTheSurvivors(lines: seq<string>)
    ensures var out := Filter(lines);
            var idx := SurvivorIndices(Tags(lines), 0);
            && |out| == |idx|
            && (forall k :: 0 <= k < |idx| ==> idx[k] < |lines| && out[k] == lines[idx[k]])
            && (forall k, m :: 0 <= k < m < |idx| ==> idx[k] < idx[m])
            && (forall j :: 0 <= j < |lines| ==> (j in idx <==> !Dropped(Tags(lines), j)))
  {
    var ts := Tags(lines);
    FilterFromIsSurvivors(lines, ts, 0);
    SurvivorIndicesExact(lines, ts, 0);
  }

  /** A file without any "-1" / "151" pair passes through unchanged. */
  lemma {:induction false} FilterWithoutBlocks(lines: seq<string>, ts: seq<Tag>, i: nat)
    requires |ts| == |lines| && i <= |lines|
    requires forall s :: i <= s < |lines| ==> !BlockStart(ts, s)
    ensures FilterFrom(lines, ts, i) == lines[i..]
    decreases |lines| - i
  {
    if i < |lines| {
      FilterWithoutBlocks(lines, ts, i + 1);
      assert lines[i..] == [lines[i]] + lines[i + 1..];
    }
  }

  lemma SurvivesIffNotDropped(lines: seq<string>, ts: seq<Tag>, j: nat)
    requires |ts| == |lines| && j < |lines|
    ensures j in SurvivorIndices(ts, 0) <==> !Dropped(ts, j)
  {
    SurvivorIndicesExact(lines, ts, 0);
  }

  /** A "-1" that the scan of an earlier block stops at is dropped with that block. */
  lemma ClosingSentinelDropped(ts: seq<Tag>, t: nat, j: nat)
    requires BlockStart(ts, t) && t < j < |ts|
    ensures NextSentinel(ts, t + 1) == j ==> Dropped(ts, j)
  {
    if NextSentinel(ts, t + 1) == j {
      assert Covers(ts, t, j);
    }
  }

  /**
   * The "-1" in front of a 151 block is kept, unless it is the closing "-1" of
   * an earlier block.
   */
  lemma OpeningSentinelKept(lines: seq<string>, s: nat)
    requires BlockStart(Tags(lines), s)
    ensures s - 1 in SurvivorIndices(Tags(lines), 0)
            <==> forall t :: 0 < t < s - 1 && BlockStart(Tags(lines), t) ==> NextSentinel(Tags(lines), t + 1) != s - 1
  {
    SentinelSurvivesIff(lines, Tags(lines), s);
  }

  /** `OpeningSentinelKept` for any tagging of the lines. */
  lemma SentinelSurvivesIff(lines: seq<string>, ts: seq<Tag>, s: nat)
    requires |ts| == |lines| && BlockStart(ts, s)
    ensures s - 1 in SurvivorIndices(ts, 0)
            <==> forall t :: 0 < t < s - 1 && BlockStart(ts, t) ==> NextSentinel(ts, t + 1) != s - 1
  {
    SurvivesIffNotDropped(lines, ts, s - 1);
    SentinelDroppedIffClosing(ts, s);
  }

  lemma SentinelDroppedIffClosing(ts: seq<Tag>, s: nat)
    requires BlockStart(ts, s)
    ensures !Dropped(ts, s - 1)
            <==> forall t :: 0 < t < s - 1 && BlockStart(ts, t) ==> NextSentinel(ts, t + 1) != s - 1
  {
    if Dropped(ts, s - 1) {
      DroppedSentinelCloses(ts, s - 1);
    } else {
      forall t | 0 < t < s - 1 && BlockStart(ts, t)
        ensures NextSentinel(ts, t + 1) != s - 1
      {
        ClosingSentinelDropped(ts, t, s - 1);
      }
    }
  }

  /** A dropped "-1" line is where the scan of an earlier block stopped. */
  lemma DroppedSentinelCloses(ts: seq<Tag>, j: nat)
    requires j < |ts| && ts[j] == SentinelLine && Dropped(ts, j)
    ensures exists t :: 0 < t < j && BlockStart(ts, t) && NextSentinel(ts, t + 1) == j
  {
    var t :| 0 < t <= j && Covers(ts, t, j);
    assert t != j;
    assert NextSentinel(ts, t + 1) == j;
  }

  /** In particular the "-1" in front of the first 151 block is always kept. */
  lemma FirstOpeningSentinelKept(lines: seq<string>, s: nat)
    requires BlockStart(Tags(lines), s)
    requires forall t :: 0 < t < s ==> !BlockStart(Tags(lines), t)
    ensures s - 1 in SurvivorIndices(Tags(lines), 0)
  {
    OpeningSentinelKept(lines, s);
  }
}
