# Dataset-58 reader, 151-block filter and validation metrics of the EMA validation tool

This project is a Dafny model of the pure logic in `emav_app.py`, the
experimental-modal-analysis validation application. The application compares a
reconstructed frequency response function (FRF) with a measured one.
Three pieces are modelled, plus the verbal ratings of the report.

- **The custom reader for simplified reconstructed universal files**
  (`_parse_reconstructed_unv`). It reads dataset 58, the function at nodal
  degree of freedom. It works on the file's lines in five steps:
  1. find the first line stripping to `-1` that is directly followed by a line stripping to `58`;
  2. skip one header line;
  3. decode the data-characteristic line, using the defaults `0.0` and `1.0` when it has fewer than six tokens;
  4. skip four axis lines and search for the first payload line, within an absolute line-index limit of 100;
  5. collect real numbers until one of three stop conditions holds.

  The result is always exactly N rows of two values, zero-padded or truncated. The frequency axis is
  built either from two endpoints or from a start and a step. Modules:
  `Dataset58` (reader), `Text` (Python's `strip`/`split`) and `Results`
  (`Option`/`Result`).
- **The dataset-151 pre-filter** in `load_reconstructed_files`. Before the
  general-purpose universal-file reader is tried, every block that starts with a
  `151` line directly preceded in the input by a `-1` line is cut out. The cut
  runs up to and including the next `-1` line. Module `BlockFilter`.
- **The peak correspondence and the FRAC guard** of `_compute_all_metrics`.
  - Each reference peak is paired with the first nearest reconstructed peak, but only when that
    peak lies strictly within 5 % of the frequency span.
  - Each row records the frequency and magnitude errors, with percentages guarded against a zero reference.
  - The Frequency Response Assurance Criterion, |⟨a,b⟩|² / (⟨a,a⟩⟨b,b⟩), is reported as unavailable
    when either self inner product has a real part ≤ 0.

  Modules: `PeakMatching` and `Frac`.
- **The rating bands** of the report (strict thresholds 0.95 / 0.85 / 0.70),
  shared by R² and FRAC. Module `Ratings`.

A writer for the same simplified layout (`Dataset58Format`) states the
reader's round trip. It holds when three things are true:

- the record has at least one point;
- every number the writer prints is one whitespace-free token that reads back as itself;
- the first point line carries an exponent (`e` or `E`).

The reader then gives the written record back unchanged. The exponent is
needed because the payload search (emav_app.py:753) only accepts a line that
contains one. Without it the first point line is passed over
(`Dataset58Format.UnmarkedFirstPointSkipped`). A record without points is
rejected with `NoPoints`.

Python's `int()` and `float()` on a single token are abstract partial functions, passed in as a
`Dataset58.Decoders` value. Whitespace for `strip()` and `split()` is the set
Python's `str.isspace()` accepts. All numbers are Dafny `real`s, the mathematical
real numbers, with no rounding, NaN or infinity. The delimiter lines `-1`, `58`
and `151` are defined once, in module `UniversalFile`.

Two consequences of the code are worth stating on their own:

- **The closing `-1` of a 151 block is dropped.** The inner loop stops on that line, and the
  outer `i += 1` (emav_app.py:337) steps past it without appending it. The `-1` in front of the
  `151` line was already appended, so it is kept, unless it is itself the closing `-1` of an
  earlier block (`BlockFilter.OpeningSentinelKept`).
- **The payload search limit is an absolute line index.** The test `i > 100` comes after the
  increment (emav_app.py:765-768), and `i` counts from the top of the file. Its message speaks
  of the "first 100 lines".
  - The search therefore examines lines up to index `Max(start, 100)`.
  - When the search starts beyond index 100, exactly one line is examined.

The call site passes the reconstructed FRF as `y_original` and the measured one as
`y_reconstructed` (emav_app.py:908-910). The model keeps the names of
`_compute_all_metrics`' parameters: "reference" means its first signal.

## Model

| member | source | states |
|---|---|---|
| `BlockFilter.NextSentinel` | emav_app.py:330-334 | the inner scan stops at the first line at or after its start that strips to `-1`, or at the end of the input |
| `BlockFilter.FilterKeepsExactlyTheSurvivors` | emav_app.py:325-337 | the output is the subsequence of the input, in input order, made of exactly the lines that lie in no block (`151` line preceded in the input by `-1`, through the next `-1`) |
| `BlockFilter.FilterFromIsSurvivors` | emav_app.py:326-337 | from any position where no block is open, the loop keeps exactly the lines outside every block |
| `BlockFilter.BlockSkipped` | emav_app.py:329-334 | a block is skipped whole, its closing `-1` included; when it is never closed, everything after it is dropped |
| `BlockFilter.OpeningSentinelKept` | emav_app.py:327-337 | the `-1` line in front of a block is kept exactly when it is not the line at which the scan of an earlier block stopped |
| `BlockFilter.FirstOpeningSentinelKept` | emav_app.py:329-335 | the `-1` line in front of the first block is always kept |
| `BlockFilter.FilterWithoutBlocks` | emav_app.py:326-337 | a file without a `-1`/`151` pair passes through unchanged |
| `BlockFilter.FilterFrom` | emav_app.py:326-337 | the loop from line `i` on keeps no more lines than remain from `i` on, so the filter never adds lines; `BlockFilter.FilterFromIsSurvivors` equates it with the independent survivor list |
| `BlockFilter.Filter` | emav_app.py:325-337 | the filtered file is exactly the lines lying in no 151 block, in input order (the independent `Survivors` description) |
| `Dataset58.FindMarker` | emav_app.py:714-719 | returns the first index whose line strips to `-1` with the next one stripping to `58`, and nothing exactly when no such pair exists |
| `Dataset58.Parse` | emav_app.py:711-722 | fails with "no dataset 58" exactly when no marker pair exists; otherwise the result is what the reader produces at the first marker |
| `Dataset58.ReadCharacteristic` | emav_app.py:727-742 | fewer than 3 tokens is an error; tokens 0-2 are decoded as integers and must all decode; tokens 3 and 4 are read only with 6 or more tokens, otherwise the axis start and increment are 0.0 and 1.0; the error names the first field that fails |
| `Dataset58.IsPayloadStart` | emav_app.py:753-758 | the test a line must pass to start the payload: its stripped text contains `e` or `E` and its first two tokens decode as reals; for written point lines `Dataset58Format.PointLineStarts` reduces it to the exponent alone |
| `Dataset58.ScanPayload` | emav_app.py:744-771 | the payload starts at the first line containing `e`/`E` whose first two tokens are reals; failure when the file ends first, or when the absolute index passes `Max(start, 100)` first, in which case no examined line qualified |
| `Dataset58.ParseAll` | emav_app.py:787-796 | tokens that do not decode are skipped, never an error; a line without numbers contributes nothing |
| `Dataset58.ParseAllAppend` | emav_app.py:788-794 | the values of a line are those of its tokens decoded one by one, whatever the grouping |
| `Dataset58.ParseAllNumbers` | emav_app.py:788-794 | when every token decodes, the values are exactly those numbers, in order |
| `Dataset58.Classify` | emav_app.py:778-785 | a payload line is an end marker exactly when it strips to `-1`, blank exactly when it strips to nothing, otherwise it carries the numbers its tokens decode to |
| `Dataset58.Accumulate` | emav_app.py:777-803 | every line consumed is no `-1` line, was reached with fewer than 2N values and at most 3N non-blank lines; the values are those of the consumed lines in order; the loop stops only on a `-1` line, on 2N values, at the end of the file, or when more than 3N non-blank lines were consumed |
| `Dataset58.Collect` | emav_app.py:774-803 | the collection from the payload start with target 2N and bound 3N, with the same guarantees |
| `Dataset58.Pad` | emav_app.py:807-810 | zeros are appended until there are 2N values; the collected ones are unchanged |
| `Dataset58.Pairs` | emav_app.py:812 | a flat sequence is reshaped into rows of two, row `k` holding values `2k` and `2k+1` |
| `Dataset58.Shape` | emav_app.py:807-812 | exactly N rows; row `k` is values `2k` and `2k+1`, zero where fewer were collected; surplus values are discarded |
| `Dataset58.Linspace` | emav_app.py:816 | the evenly spaced axis has N points, starts at the start value and, with two or more points, ends exactly at the end value; `Dataset58.LinspaceUniform` gives the spacing |
| `Dataset58.Arange` | emav_app.py:818-820 | the stepped axis has N points, starts at the start value and has the step as the difference of every two consecutive points |
| `Dataset58.LinspaceUniform` | emav_app.py:816 | consecutive points of the evenly spaced axis are `(end - start)/(N - 1)` apart, the last point included |
| `Dataset58.FrequencyAxis` | emav_app.py:814-820 | N points starting at the axis start; for spacing type 1 with an end above start + 1 the last point is that end and the spacing is uniform; otherwise consecutive points differ by the increment |
| `Dataset58.ArithmeticProgression` | emav_app.py:818-820 | an axis with first point `a` and constant step `d` has point `k` at `a + k*d` |
| `Dataset58.EndpointOrStep` | emav_app.py:814-820 | with spacing type 1 and start 0, an end of 100 gives an axis ending at 100, while 0.5 is taken as a step |
| `Dataset58.ParseAt` | emav_app.py:724-832 | a file ending before the characteristic line is an error; otherwise the stages fail in order, with the characteristic-line error first, then the payload-search error, then `NoPoints` for N < 1, and a result exists exactly when none fails; it has N axis points and N rows; the payload begins at the first qualifying line from 8 lines after the marker; each row is built from the values of the consumed lines, and the collection stopped for a reason the loop allows |
| `Dataset58.ShortPayloadPaddedWithZeros` | emav_app.py:807-812 | in a successful parse every row position past the number of collected values reads 0.0 |
| `Dataset58Format.ParseEncoded` | emav_app.py:703-832 | for a record with at least one point, every number printed as one token that reads back as itself and an exponent on the first point line, reading the written record returns its data type, its N rows exactly, the frequency axis its header describes and 2N collected values, stopping because the target was reached |
| `Dataset58Format.StepHeaderRoundTrip` | emav_app.py:814-820 | for a written record with spacing type 0, start 0 and at least one point, every number printed as one whitespace-free token that reads back as itself and an exponent on the first point line, the reader returns the rows and the axis `k * step` |
| `Dataset58Format.EncodedCharacteristic` | emav_app.py:727-742 | a written characteristic line whose six numbers are each printed as one whitespace-free token that reads back as itself decodes to the record's header values |
| `Dataset58Format.PointLineRead` | emav_app.py:780-794 | a point line whose two reals are printed as tokens that read back as themselves is a value line carrying exactly those two values |
| `Dataset58Format.PointLineStarts` | emav_app.py:750-761 | the payload search accepts such a point line exactly when one of its two numbers is printed with an exponent |
| `Dataset58Format.UnmarkedFirstPointSkipped` | emav_app.py:750-761 | when the first point line has no exponent, any successful read of the written record starts its payload after that line |
| `Dataset58Format.ExampleFaithful` | emav_app.py:703-832 | a concrete writer and pair of decoders meet the round trip's premise for a one-point record, so the round trip is not vacuous |
| `Dataset58Format.CollectPoints` | emav_app.py:777-803 | over N written point lines the collection takes each of them and stops with the 2N values |
| `Text.Split` | emav_app.py:727 | the tokens of `split()` are non-empty and whitespace-free, and there are none exactly when the line is blank |
| `Text.SplitAtSpace` | emav_app.py:727 | every whitespace character separates tokens: the tokens of `a + [c] + b` for a whitespace `c` are those of `a` followed by those of `b` |
| `Text.SplitOneWord` | emav_app.py:727 | a non-empty whitespace-free line is a single token |
| `Text.SplitUnwords` | emav_app.py:727 | splitting tokens joined by single spaces gives the tokens back |
| `Text.SplitKeepsContent` | emav_app.py:788 | `split()` loses no non-whitespace character and reorders nothing |
| `Text.Strip` | emav_app.py:715 | the stripped line is no longer than the line and neither starts nor ends with whitespace; `Text.StripIsTrimmedSlice` shows it is the slice left after cutting only whitespace |
| `Text.StripIsTrimmedSlice` | emav_app.py:715 | `strip()` removes exactly the leading and trailing whitespace |
| `Text.StripEmptyIffBlank` | emav_app.py:783 | a stripped line is empty exactly when the line is all whitespace |
| `PeakMatching.ArgMin` | emav_app.py:974-975 | the chosen reconstructed peak is at minimal distance and no earlier one is as near |
| `PeakMatching.Tolerance` | emav_app.py:966 | the matching tolerance, 5 % of the span from the first to the last grid frequency; `PeakMatching.MatchFor` and `PeakMatching.Compare` state that every match lies strictly within it |
| `PeakMatching.MatchFor` | emav_app.py:973-977 | a reconstructed peak is chosen only when it is the first nearest and strictly within the tolerance; none is chosen exactly when no reconstructed peak is strictly within tolerance |
| `PeakMatching.Percent` | emav_app.py:986-990 | the percentage error is 0 for a zero reference and otherwise 100 times the error over the reference |
| `PeakMatching.PairOf` | emav_app.py:978-991 | a row holds both frequencies and magnitudes, errors reconstructed minus reference, percentages guarded against a zero reference |
| `PeakMatching.Compare` | emav_app.py:966-996 | counts of reference, reconstructed and matched peaks; at most one row per reference peak; every row's frequency error is within the tolerance |
| `PeakMatching.PairsFrom` | emav_app.py:969-991 | the loop over the reference peaks from `i` on adds at most one row per peak; which peaks give rows and what the rows hold is stated by `PeakMatching.MatchedMembership` and `PeakMatching.PairsAreRows` |
| `PeakMatching.PairsCount` | emav_app.py:969-991 | the number of rows is the number of reference peaks that have a reconstructed peak strictly within tolerance |
| `PeakMatching.AllMatchedIffAllMatchable` | emav_app.py:969-996 | every reference peak is matched exactly when each has a reconstructed peak in reach |
| `PeakMatching.NoReconstructedPeaks` | emav_app.py:973 | without reconstructed peaks nothing is matched |
| `PeakMatching.MatchedMembership` | emav_app.py:969-991 | exactly the reference peaks with a reconstructed peak in reach produce a row |
| `PeakMatching.MatchedAscending` | emav_app.py:969 | the rows follow the order of the reference peaks |
| `PeakMatching.MatchedNearest` | emav_app.py:974-978 | each row's reconstructed peak is the first nearest to its reference peak |
| `PeakMatching.PairsAreRows` | emav_app.py:969-991 | row `k` is built from the `k`-th reference peak in reach and its first nearest reconstructed peak |
| `PeakMatching.SinglePeakExample` | emav_app.py:966-996 | on a 0-1000 Hz grid a peak 2 Hz away is matched with a 2 Hz error; one 100 Hz away is not |
| `PeakMatching.SharedMatchExample` | emav_app.py:969-991 | two reference peaks may be paired with the same reconstructed peak |
| `Frac.Sq` | emav_app.py:951 | a square is never negative and is positive away from zero |
| `Frac.Energy` | emav_app.py:952-953 | a signal's energy is never negative |
| `Frac.VDot` | emav_app.py:951-953 | numpy's `vdot`, conjugate-linear in its first argument; `Frac.VDotSelf` and `Frac.VDotSwap` state its self-product and its symmetry |
| `Frac.Frac` | emav_app.py:950-959 | FRAC, the squared modulus of `vdot(a, b)` over the product of the two real self-products, unavailable unless both are positive; `Frac.FracUnavailable`, `Frac.FracNonNegative`, `Frac.FracIdentity` and `Frac.FracSymmetric` state its properties |
| `Frac.VDotSelf` | emav_app.py:952-953 | a signal's inner product with itself is real and equals its energy |
| `Frac.EnergyPositive` | emav_app.py:955 | the energy is positive exactly when some sample is non-zero |
| `Frac.FracUnavailable` | emav_app.py:950-959 | FRAC is unavailable exactly when one of the two signals is all zero |
| `Frac.FracNonNegative` | emav_app.py:955-957 | an available FRAC is never negative |
| `Frac.FracIdentity` | emav_app.py:950-957 | a non-zero signal compared with itself has FRAC 1 |
| `Frac.VDotSwap` | emav_app.py:951 | swapping the arguments of the inner product conjugates it |
| `Frac.FracSymmetric` | emav_app.py:950-959 | FRAC does not depend on which signal is the reference |
| `Ratings.Rate` | emav_app.py:1019-1026 | the band is Excellent above 0.95, Good in (0.85, 0.95], Moderate in (0.70, 0.85] and Poor at or below 0.70 |
| `Ratings.RateMonotone` | emav_app.py:1037-1044 | a higher score never gets a worse band |
| `Ratings.ThresholdsExclusive` | emav_app.py:1037-1044 | each threshold value falls into the band below it |
| `Ratings.RateFrac` | emav_app.py:1033-1046 | FRAC gets no band exactly when it is unavailable, and otherwise the band of its value |
| `Ratings.VerdictUnavailable` | emav_app.py:1033-1046 | the report says FRAC cannot be calculated exactly when one of the two signals is all zero |
| `Ratings.VerdictIdentity` | emav_app.py:1037-1038 | a non-zero signal compared with itself is rated excellent |

## Left out

- File I/O: reading the file, the temporary file and its removal (emav_app.py:322-358, 708-709). The model starts from the sequence of lines, with line terminators already removed.
- The lexical rules of Python's `int()` and `float()`: they are parameters (`Dataset58.Decoders`).
- The `print` diagnostics, including the two summary lines at emav_app.py:830-831. The model keeps only their consequence: for N ≤ 0 numpy fails while reshaping, while building the axis, or when indexing the empty axis (emav_app.py:812-830), so no record is returned (`NoPoints`).
- Number formatting: how the writer prints numbers is a parameter. The round trip covers only records whose numbers the chosen formatter prints exactly, with an exponent on the first point line (`Dataset58Format.Faithful`). A value that a finite-digit writer rounds is outside it. So is a record whose first point line has no exponent: the reader does not find the payload there.
- IEEE floating point (rounding, NaN, infinities), `numpy` array dtypes and overflow: all values are exact reals.
- `Dataset58.FrequencyAxis`: `linspace` is modelled as `start + k*step` with its last point set to the end, as numpy computes it, but without rounding.
- `find_peaks`, its prominence threshold, and `r2_score` are external library calls. Peak indices are inputs (`PeakMatching.ValidPeaks`), and R² is rated as a given number.
- RMSE, MAE and the magnitudes `np.abs(y)` need square roots of floats. The magnitude sequences are inputs.
- `PeakMatching.Compare`: it requires a non-empty frequency grid with magnitudes of the same length. On an empty grid the source fails in `np.max` and `freq[-1]`.
- `Frac.FracNonNegative`: the Cauchy–Schwarz bound FRAC ≤ 1 is not proved, only FRAC ≥ 0.
- `Frac.Frac`: the complex modulus is taken squared as re² + im², which equals `np.abs(z)**2` exactly over the reals.
- The interpolation to a common grid, the pyuff and `.mat` readers and writers, the amplitude export, and all Tk and matplotlib code: these are library calls or user interface.
