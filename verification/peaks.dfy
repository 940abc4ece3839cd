/**
 * The peak correspondence of the validation metrics: every peak of the
 * reference magnitude is paired with the nearest peak of the reconstructed
 * magnitude when that one lies within 5 % of the frequency span.
 *
 * Peak detection itself is not modelled: the peak positions (indices into the
 * frequency grid) are inputs, as are the two magnitude sequences.
 */
module PeakMatching {
  import opened Results

  /** The common frequency grid and the two magnitudes sampled on it. */
  datatype Spectra = Spectra(freq: seq<real>, magOriginal: seq<real>, magReconstructed: seq<real>)

  predicate ValidSpectra(s: Spectra) {
    |s.freq| > 0 && |s.magOriginal| == |s.freq| && |s.magReconstructed| == |s.freq|
  }

  /** Peak positions are indices into the grid. */
  predicate ValidPeaks(s: Spectra, peaks: seq<nat>) {
    forall j :: 0 <= j < |peaks| ==> peaks[j] < |s.freq|
  }

  /** One row of the peak comparison. */
  datatype PeakPair = PeakPair(
    freqOriginal: real, freqReconstructed: real, freqError: real, freqErrorPct: real,
    magOriginal: real, magReconstructed: real, magError: real, magErrorPct: real)

  datatype PeakReport = PeakReport(pairs: seq<PeakPair>, nOriginal: nat, nReconstructed: nat, nMatched: nat)

  function Abs(x: real): (r: real)
    ensures r >= 0.0 && (r == x || r == -x)
  {
    if x < 0.0 then -x else x
  }

  /** 5 % of the span from the first to the last grid frequency. */
  function Tolerance(s: Spectra): real
    requires ValidSpectra(s)
  {
    0.05 * (s.freq[|s.freq| - 1] - s.freq[0])
  }

  /** An error relative to its reference in percent, 0 when the reference is 0. */
  function Percent(err: real, ref: real): (p: real)
    ensures ref == 0.0 ==> p == 0.0
    ensures ref != 0.0 ==> p * ref == 100.0 * err
  {
    if ref != 0.0 then 100.0 * err / ref else 0.0
  }

  /** Distance in frequency from reconstructed peak `j` to frequency `f`. */
  function Distance(s: Spectra, recon: seq<nat>, j: nat, f: real): real
    requires ValidPeaks(s, recon) && j < |recon|
  {
    Abs(s.freq[recon[j]] - f)
  }

  /** Some reconstructed peak lies strictly within the tolerance of `f`. */
  ghost predicate Matchable(s: Spectra, recon: seq<nat>, f: real)
    requires ValidSpectra(s) && ValidPeaks(s, recon)
  {
    exists j :: 0 <= j < |recon| && Distance(s, recon, j, f) < Tolerance(s)
  }

  /** `k` is the first of the reconstructed peaks nearest to `f`. */
  ghost predicate FirstNearest(s: Spectra, recon: seq<nat>, f: real, k: nat)
    requires ValidPeaks(s, recon)
  {
    && k < |recon|
    && (forall j :: 0 <= j < |recon| ==> Distance(s, recon, k, f) <= Distance(s, recon, j, f))
    && (forall j :: 0 <= j < k ==> Distance(s, recon, j, f) > Distance(s, recon, k, f))
  }

  /** numpy's `argmin` over the distances, scanning from `i` with the best so far at `best`. */
  function ArgMinFrom(s: Spectra, recon: seq<nat>, f: real, i: nat, best: nat): (k: nat)
    requires ValidPeaks(s, recon) && best < i <= |recon|
    requires forall j :: 0 <= j < i ==> Distance(s, recon, best, f) <= Distance(s, recon, j, f)
    requires forall j :: 0 <= j < best ==> Distance(s, recon, j, f) > Distance(s, recon, best, f)
    ensures FirstNearest(s, recon, f, k)
    decreases |recon| - i
  {
    if i == |recon| then best
    else if Distance(s, recon, i, f) < Distance(s, recon, best, f) then ArgMinFrom(s, recon, f, i + 1, i)
    else ArgMinFrom(s, recon, f, i + 1, best)
  }

  function ArgMin(s: Spectra, recon: seq<nat>, f: real): (k: nat)
    requires ValidPeaks(s, recon) && |recon| > 0
    ensures FirstNearest(s, recon, f, k)
  {
    ArgMinFrom(s, recon, f, 1, 0)
  }

  /**
   * The reconstructed peak paired with a reference peak at frequency `f`: the
   * first nearest one, provided it is strictly within the tolerance.
   */
  function MatchFor(s: Spectra, recon: seq<nat>, f: real): (r: Option<nat>)
    requires ValidSpectra(s) && ValidPeaks(s, recon)
    ensures r.Some? ==> FirstNearest(s, recon, f, r.value) && Distance(s, recon, r.value, f) < Tolerance(s)
    ensures r.None? <==> !Matchable(s, recon, f)
  {
    if |recon| == 0 then None
    else
      var k := ArgMin(s, recon, f);
      if Distance(s, recon, k, f) < Tolerance(s) then Some(k) else None
  }

  /** The comparison row for reference grid index `io` and reconstructed grid index `ir`. */
  function PairOf(s: Spectra, io: nat, ir: nat): (p: PeakPair)
    requires ValidSpectra(s) && io < |s.freq| && ir < |s.freq|
    ensures p.freqOriginal == s.freq[io] && p.freqReconstructed == s.freq[ir]
    ensures p.magOriginal == s.magOriginal[io] && p.magReconstructed == s.magReconstructed[ir]
    ensures p.freqError + p.freqOriginal == p.freqReconstructed
    ensures p.magError + p.magOriginal == p.magReconstructed
    ensures p.freqOriginal == 0.0 ==> p.freqErrorPct == 0.0
    ensures p.freqOriginal != 0.0 ==> p.freqErrorPct * p.freqOriginal == 100.0 * p.freqError
    ensures p.magOriginal == 0.0 ==> p.magErrorPct == 0.0
    ensures p.magOriginal != 0.0 ==> p.magErrorPct * p.magOriginal == 100.0 * p.magError
  {
    var fo, fr := s.freq[io], s.freq[ir];
    var mo, mr := s.magOriginal[io], s.magReconstructed[ir];
    PeakPair(fo, fr, fr - fo, Percent(fr - fo, fo), mo, mr, mr - mo, Percent(mr - mo, mo))
  }

  /** The rows for reference peaks `i` onwards, in the order of the reference peaks. */
  function PairsFrom(s: Spectra, orig: seq<nat>, recon: seq<nat>, i: nat): (pairs: seq<PeakPair>)
    requires ValidSpectra(s) && ValidPeaks(s, orig) && ValidPeaks(s, recon) && i <= |orig|
    ensures |pairs| <= |orig| - i
    decreases |orig| - i
  {
    if i == |orig| then []
    else
      var rest := PairsFrom(s, orig, recon, i + 1);
      match MatchFor(s, recon, s.freq[orig[i]])
      case Some(k) => [PairOf(s, orig[i], recon[k])] + rest
      case None => rest
  }

  /** The peak analysis part of the metrics. */
  function Compare(s: Spectra, orig: seq<nat>, recon: seq<nat>): (r: PeakReport)
    requires ValidSpectra(s) && ValidPeaks(s, orig) && ValidPeaks(s, recon)
    ensures r.nOriginal == |orig| && r.nReconstructed == |recon| && r.nMatched == |r.pairs|
    ensures r.nMatched <= r.nOriginal
    ensures forall k :: 0 <= k < |r.pairs| ==> Abs(r.pairs[k].freqError) < Tolerance(s)
  {
    var pairs := PairsFrom(s, orig, recon, 0);
    PairsWithinTolerance(s, orig, recon, 0);
    PairsCount(s, orig, recon, 0);
    PeakReport(pairs, |orig|, |recon|, |pairs|)
  }

  /** Every row's frequency error is within the tolerance. */
  lemma {:induction false} PairsWithinTolerance(s: Spectra, orig: seq<nat>, recon: seq<nat>, i: nat)
    requires ValidSpectra(s) && ValidPeaks(s, orig) && ValidPeaks(s, recon) && i <= |orig|
    ensures forall k :: 0 <= k < |PairsFrom(s, orig, recon, i)| ==>
              Abs(PairsFrom(s, orig, recon, i)[k].freqError) < Tolerance(s)
    decreases |orig| - i
  {
    if i < |orig| {
      PairsWithinTolerance(s, orig, recon, i + 1);
    }
  }

  /* ------------- which reference peaks produce a row, independently ------------- */

  /** The number of reference peaks from position `i` on with a reconstructed peak in reach. */
  ghost function CountMatchable(s: Spectra, orig: seq<nat>, recon: seq<nat>, i: nat): nat
    requires ValidSpectra(s) && ValidPeaks(s, orig) && ValidPeaks(s, recon) && i <= |orig|
    decreases |orig| - i
  {
    if i == |orig| then 0
    else (if Matchable(s, recon, s.freq[orig[i]]) then 1 else 0) + CountMatchable(s, orig, recon, i + 1)
  }

  /** One row per reference peak that has a reconstructed peak in reach, and no more. */
  lemma {:induction false} PairsCount(s: Spectra, orig: seq<nat>, recon: seq<nat>, i: nat)
    requires ValidSpectra(s) && ValidPeaks(s, orig) && ValidPeaks(s, recon) && i <= |orig|
    ensures |PairsFrom(s, orig, recon, i)| == CountMatchable(s, orig, recon, i) <= |orig| - i
    decreases |orig| - i
  {
    if i < |orig| {
      PairsCountStep(s, orig, recon, i);
      PairsCount(s, orig, recon, i + 1);
    }
  }

  /** Reference peak `i` adds a row exactly when it has a reconstructed peak in reach. */
  lemma PairsCountStep(s: Spectra, orig: seq<nat>, recon: seq<nat>, i: nat)
    requires ValidSpectra(s) && ValidPeaks(s, orig) && ValidPeaks(s, recon) && i < |orig|
    ensures |PairsFrom(s, orig, recon, i)|
            == (if Matchable(s, recon, s.freq[orig[i]]) then 1 else 0) + |PairsFrom(s, orig, recon, i + 1)|
  {
  }

  /** The count reaches its maximum exactly when every reference peak is in reach. */
  lemma {:induction false} CountMatchableFull(s: Spectra, orig: seq<nat>, recon: seq<nat>, i: nat)
    requires ValidSpectra(s) && ValidPeaks(s, orig) && ValidPeaks(s, recon) && i <= |orig|
    ensures CountMatchable(s, orig, recon, i) == |orig| - i <==>
            forall t :: i <= t < |orig| ==> Matchable(s, recon, s.freq[orig[t]])
    decreases |orig| - i
  {
    if i < |orig| {
      CountMatchableFull(s, orig, recon, i + 1);
      PairsCount(s, orig, recon, i + 1);
    }
  }

  /** Every reference peak yields a row exactly when each has a reconstructed peak in reach. */
  lemma AllMatchedIffAllMatchable(s: Spectra, orig: seq<nat>, recon: seq<nat>)
    requires ValidSpectra(s) && ValidPeaks(s, orig) && ValidPeaks(s, recon)
    ensures Compare(s, orig, recon).nMatched == |orig| <==>
            forall t :: 0 <= t < |orig| ==> Matchable(s, recon, s.freq[orig[t]])
  {
    PairsCount(s, orig, recon, 0);
    CountMatchableFull(s, orig, recon, 0);
  }

  /** Without reconstructed peaks no reference peak is in reach, so nothing is matched. */
  lemma NoReconstructedPeaks(s: Spectra, orig: seq<nat>)
    requires ValidSpectra(s) && ValidPeaks(s, orig)
    ensures Compare(s, orig, []).nMatched == 0
  {
    NothingInReach(s, orig, 0);
    PairsCount(s, orig, [], 0);
  }

  lemma {:induction false} NothingInReach(s: Spectra, orig: seq<nat>, i: nat)
    requires ValidSpectra(s) && ValidPeaks(s, orig) && i <= |orig|
    ensures CountMatchable(s, orig, [], i) == 0
    decreases |orig| - i
  {
    if i < |orig| {
      NothingInReach(s, orig, i + 1);
    }
  }

  /**
   * The reference peaks in reach from position `i` on, ascending, each with
   * its first nearest reconstructed peak: (position in `orig`, position in `recon`).
   */
  ghost function MatchedFrom(s: Spectra, orig: seq<nat>, recon: seq<nat>, i: nat): (idx: seq<(nat, nat)>)
    requires ValidSpectra(s) && ValidPeaks(s, orig) && ValidPeaks(s, recon) && i <= |orig|
    ensures forall k :: 0 <= k < |idx| ==> i <= idx[k].0 < |orig| && idx[k].1 < |recon|
    decreases |orig| - i
  {
    if i == |orig| then []
    else
      var rest := MatchedFrom(s, orig, recon, i + 1);
      var f := s.freq[orig[i]];
      if Matchable(s, recon, f) then [(i, ArgMin(s, recon, f))] + rest else rest
  }

  /** The reference peaks in reach are listed in ascending order. */
  lemma {:induction false} MatchedAscending(s: Spectra, orig: seq<nat>, recon: seq<nat>, i: nat)
    requires ValidSpectra(s) && ValidPeaks(s, orig) && ValidPeaks(s, recon) && i <= |orig|
    ensures forall k, m :: 0 <= k < m < |MatchedFrom(s, orig, recon, i)| ==> MatchedFrom(s, orig, recon, i)[k].0 < MatchedFrom(s, orig, recon, i)[m].0
    decreases |orig| - i
  {
    if i < |orig| {
      MatchedAscending(s, orig, recon, i + 1);
      var idx, rest := MatchedFrom(s, orig, recon, i), MatchedFrom(s, orig, recon, i + 1);
      if Matchable(s, recon, s.freq[orig[i]]) {
        assert idx == [(i, ArgMin(s, recon, s.freq[orig[i]]))] + rest;
        forall k, m | 0 <= k < m < |idx|
          ensures idx[k].0 < idx[m].0
        {
          assert idx[m] == rest[m - 1];
          if k > 0 {
            assert idx[k] == rest[k - 1];
          }
        }
      }
    }
  }

  /** Reference position `t` appears in the list. */
  ghost predicate Listed(idx: seq<(nat, nat)>, t: nat) {
    exists k :: 0 <= k < |idx| && idx[k].0 == t
  }

  lemma ListedCons(head: (nat, nat), rest: seq<(nat, nat)>, t: nat)
    ensures Listed([head] + rest, t) <==> head.0 == t || Listed(rest, t)
  {
    var idx := [head] + rest;
    if head.0 == t {
      assert idx[0].0 == t;
    }
    if Listed(rest, t) {
      var k :| 0 <= k < |rest| && rest[k].0 == t;
      assert idx[k + 1].0 == t;
    }
    if Listed(idx, t) && head.0 != t {
      var k :| 0 <= k < |idx| && idx[k].0 == t;
      assert rest[k - 1].0 == t;
    }
  }

  /** Exactly the reference peaks with a reconstructed peak in reach are listed. */
  lemma {:induction false} MatchedMembership(s: Spectra, orig: seq<nat>, recon: seq<nat>, i: nat)
    requires ValidSpectra(s) && ValidPeaks(s, orig) && ValidPeaks(s, recon) && i <= |orig|
    ensures forall t :: i <= t < |orig| ==>
              (Matchable(s, recon, s.freq[orig[t]]) <==> Listed(MatchedFrom(s, orig, recon, i), t))
    decreases |orig| - i
  {
    if i < |orig| {
      MatchedMembership(s, orig, recon, i + 1);
      var idx, rest := MatchedFrom(s, orig, recon, i), MatchedFrom(s, orig, recon, i + 1);
      assert !Listed(rest, i);
      var f := s.freq[orig[i]];
      if Matchable(s, recon, f) {
        var head := (i, ArgMin(s, recon, f));
        assert idx == [head] + rest;
        forall t: nat | i <= t < |orig|
          ensures Listed(idx, t) <==> t == i || Listed(rest, t)
        {
          ListedCons(head, rest, t);
        }
      } else {
        assert idx == rest;
      }
    }
  }

  /** A listed pair whose reconstructed peak is the first nearest to the reference peak. */
  ghost predicate NearestPair(s: Spectra, orig: seq<nat>, recon: seq<nat>, p: (nat, nat))
    requires ValidSpectra(s) && ValidPeaks(s, orig) && ValidPeaks(s, recon)
  {
    p.0 < |orig| && FirstNearest(s, recon, s.freq[orig[p.0]], p.1)
  }

  /** Each listed reconstructed peak is the first nearest one to its reference peak. */
  lemma {:induction false} MatchedNearest(s: Spectra, orig: seq<nat>, recon: seq<nat>, i: nat)
    requires ValidSpectra(s) && ValidPeaks(s, orig) && ValidPeaks(s, recon) && i <= |orig|
    ensures forall k :: 0 <= k < |MatchedFrom(s, orig, recon, i)| ==> NearestPair(s, orig, recon, MatchedFrom(s, orig, recon, i)[k])
    decreases |orig| - i
  {
    if i < |orig| {
      MatchedNearest(s, orig, recon, i + 1);
      var idx, rest := MatchedFrom(s, orig, recon, i), MatchedFrom(s, orig, recon, i + 1);
      var f := s.freq[orig[i]];
      if Matchable(s, recon, f) {
        var head := (i, ArgMin(s, recon, f));
        assert idx == [head] + rest;
        assert NearestPair(s, orig, recon, head);
        forall k | 0 <= k < |idx|
          ensures NearestPair(s, orig, recon, idx[k])
        {
          if k > 0 {
            assert idx[k] == rest[k - 1];
            assert NearestPair(s, orig, recon, rest[k - 1]);
          }
        }
      }
    }
  }

  /**
   * Row `k` is formed from the `k`-th reference peak in reach and its first
   * nearest reconstructed peak.
   */
  lemma {:induction false} PairsAreRows(s: Spectra, orig: seq<nat>, recon: seq<nat>, i: nat)
    requires ValidSpectra(s) && ValidPeaks(s, orig) && ValidPeaks(s, recon) && i <= |orig|
    ensures var pairs := PairsFrom(s, orig, recon, i);
            var idx := MatchedFrom(s, orig, recon, i);
            && |pairs| == |idx|
            && forall k :: 0 <= k < |idx| ==> pairs[k] == PairOf(s, orig[idx[k].0], recon[idx[k].1])
    decreases |orig| - i
  {
    if i < |orig| {
      PairsAreRows(s, orig, recon, i + 1);
    }
  }

  /* ------------------------------ examples ------------------------------ */

  /**
   * On a grid from 0 to 1000 Hz (tolerance 50 Hz) a reference peak at 100 Hz
   * and a reconstructed one at 102 Hz form one row with a 2 Hz error; moved to
   * 200 Hz the reconstructed peak is out of reach and nothing is matched.
   */
  lemma SinglePeakExample()
    ensures var r := Compare(Spectra([0.0, 100.0, 102.0, 1000.0], [0.0, 1.0, 0.5, 0.0], [0.0, 0.5, 1.0, 0.0]), [1], [2]);
            r.nMatched == 1 && r.pairs[0].freqError == 2.0
    ensures var r := Compare(Spectra([0.0, 100.0, 200.0, 1000.0], [0.0, 1.0, 0.5, 0.0], [0.0, 0.5, 1.0, 0.0]), [1], [2]);
            r.nMatched == 0 && r.nOriginal == 1 && r.nReconstructed == 1
  {
    var near := Spectra([0.0, 100.0, 102.0, 1000.0], [0.0, 1.0, 0.5, 0.0], [0.0, 0.5, 1.0, 0.0]);
    assert Tolerance(near) == 50.0;
    assert Distance(near, [2], 0, 100.0) == 2.0;
    var far := Spectra([0.0, 100.0, 200.0, 1000.0], [0.0, 1.0, 0.5, 0.0], [0.0, 0.5, 1.0, 0.0]);
    assert Tolerance(far) == 50.0;
    assert Distance(far, [2], 0, 100.0) == 100.0;
    assert MatchFor(far, [2], 100.0) == None;
  }

  /** Two reference peaks may be paired with the same reconstructed peak. */
  lemma SharedMatchExample()
    ensures var r := Compare(Spectra([0.0, 100.0, 101.0, 102.0, 1000.0], [0.0, 1.0, 0.0, 1.0, 0.0], [0.0, 0.0, 1.0, 0.0, 0.0]), [1, 3], [2]);
            r.nMatched == 2 && r.pairs[0].freqReconstructed == 101.0 && r.pairs[1].freqReconstructed == 101.0
  {
    var s := Spectra([0.0, 100.0, 101.0, 102.0, 1000.0], [0.0, 1.0, 0.0, 1.0, 0.0], [0.0, 0.0, 1.0, 0.0, 0.0]);
    assert Tolerance(s) == 50.0;
    assert Distance(s, [2], 0, 100.0) == 1.0;
    assert Distance(s, [2], 0, 102.0) == 1.0;
    assert MatchFor(s, [2], 100.0) == Some(0);
    assert MatchFor(s, [2], 102.0) == Some(0);
  }
}
